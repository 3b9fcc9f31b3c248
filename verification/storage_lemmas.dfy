/**
 Properties that relate several operations of the card/token state machine:
 the status invariant and the audit ledger are preserved, a redeemed card
 stays redeemed, issuing never disturbs existing lookups, and the
 issue/validate/redeem scenarios behave as the service promises.
 */
module StorageLemmas {
  import opened Wrappers
  import opened Storage
  import CardKeys

  // ----- the status invariant -----

  /** Issuing keeps every card's status consistent with its token and use time. */
  lemma {:induction false} IssuePreservesStatusInvariant(
      s: Store, count: int, prefix: string, validDays: Option<int>, now: Timestamp, draws: seq<seq<nat>>)
    requires ValidBatchDraws(count, draws)
    requires AllStatusConsistent(s)
    ensures AllStatusConsistent(IssueCards(s, count, prefix, validDays, now, draws).store)
  {
    var out := IssueCards(s, count, prefix, validDays, now, draws);
    if out.result.Success? {
      forall i | 0 <= i < |out.store.cards|
        ensures StatusConsistent(out.store.cards[i])
      {
        if i < |s.cards| {
          assert out.store.cards[i] == out.store.cards[..|s.cards|][i];
        } else {
          var c := out.store.cards[|s.cards| + (i - |s.cards|)];
          assert c.status == Unused && c.token.None?;
        }
      }
    }
  }

  /** Attaching a token keeps every card's status consistent with its token and use time. */
  lemma {:induction false} StoreTokenPreservesStatusInvariant(s: Store, key: string, token: string, now: Timestamp)
    requires AllStatusConsistent(s)
    ensures AllStatusConsistent(StoreToken(s, key, token, now).store)
  {
    var out := StoreToken(s, key, token, now);
    if out.result.Success? {
      var i :| IsFirstMatch(s.cards, key, i) && out.store.cards == s.cards[i := Redeem(s.cards[i], token, now)];
      assert StatusConsistent(out.store.cards[i]);
    }
  }

  // ----- single use -----

  /** Once a token is stored for a key, storing another one for that key fails. */
  lemma {:induction false} RedeemOnlyOnce(s: Store, key: string, token: string, now: Timestamp,
                                          token2: string, later: Timestamp)
    requires StoreToken(s, key, token, now).result.Success?
    ensures StoreToken(StoreToken(s, key, token, now).store, key, token2, later).result == Failure(KeyAlreadyUsed)
    ensures StoreToken(StoreToken(s, key, token, now).store, key, token2, later).store
            == StoreToken(s, key, token, now).store
  {
    var s1 := StoreToken(s, key, token, now).store;
    var i :| IsFirstMatch(s.cards, key, i) && s1.cards == s.cards[i := Redeem(s.cards[i], token, now)];
    assert IsFirstMatch(s1.cards, key, i);
    assert s1.cards[i].status == Used;
  }

  /** Once a token is stored for a key, the key never validates again, at any time. */
  lemma {:induction false} RedeemedNeverValidates(s: Store, key: string, token: string, now: Timestamp, later: Timestamp)
    requires StoreToken(s, key, token, now).result.Success?
    ensures !ValidateCard(StoreToken(s, key, token, now).store, key, later).Valid?
    ensures ValidateCard(StoreToken(s, key, token, now).store, key, later)
            in {Invalid(CardExpired), Invalid(CardAlreadyUsed)}
  {
    var s1 := StoreToken(s, key, token, now).store;
    var i :| IsFirstMatch(s.cards, key, i) && s1.cards == s.cards[i := Redeem(s.cards[i], token, now)];
    assert IsFirstMatch(s1.cards, key, i);
    FirstMatchUnique(s1.cards, key, i);
  }

  /**
   Storing a token does not re-check expiry: on an expired unused card it
   succeeds although validation at the same moment reports the card expired.
   */
  lemma {:induction false} StoreTokenIgnoresExpiry(s: Store, key: string, token: string, now: Timestamp, i: int)
    requires IsFirstMatch(s.cards, key, i)
    requires s.cards[i].status == Unused && IsExpired(s.cards[i], now)
    ensures ValidateCard(s, key, now) == Invalid(CardExpired)
    ensures StoreToken(s, key, token, now).result == Success(TokenRecord(key, token, now))
  {
    FirstMatchUnique(s.cards, key, i);
  }

  // ----- validation -----

  /** Validation is judged on the first matching card and the clock alone. */
  lemma {:induction false} ValidationDependsOnFirstMatchOnly(
      s1: Store, s2: Store, key: string, now: Timestamp, i1: int, i2: int)
    requires IsFirstMatch(s1.cards, key, i1) && IsFirstMatch(s2.cards, key, i2)
    requires s1.cards[i1] == s2.cards[i2]
    ensures ValidateCard(s1, key, now) == ValidateCard(s2, key, now)
  {
    FirstMatchUnique(s1.cards, key, i1);
    FirstMatchUnique(s2.cards, key, i2);
  }

  // ----- issuing -----

  /** Appending cards never shadows a key that was already present. */
  lemma {:induction false} AppendKeepsFirstMatch(cards: seq<Card>, extra: seq<Card>, key: string, i: int)
    requires IsFirstMatch(cards, key, i)
    ensures IsFirstMatch(cards + extra, key, i)
  {
    assert (cards + extra)[i] == cards[i];
    forall j | 0 <= j < i ensures (cards + extra)[j].key != key {
      assert (cards + extra)[j] == cards[j];
    }
  }

  /**
   Issuing leaves the verdict of validation and the outcome of redemption
   unchanged for every key that was already present.
   */
  lemma {:induction false} IssueKeepsExistingKeys(
      s: Store, count: int, prefix: string, validDays: Option<int>, now: Timestamp, draws: seq<seq<nat>>,
      key: string, i: int, later: Timestamp, token: string)
    requires ValidBatchDraws(count, draws)
    requires IsFirstMatch(s.cards, key, i)
    ensures ValidateCard(IssueCards(s, count, prefix, validDays, now, draws).store, key, later)
            == ValidateCard(s, key, later)
    ensures StoreToken(IssueCards(s, count, prefix, validDays, now, draws).store, key, token, later).result
            == StoreToken(s, key, token, later).result
  {
    var s1 := IssueCards(s, count, prefix, validDays, now, draws).store;
    if count >= 1 {
      assert s1.cards == s.cards + s1.cards[|s.cards|..];
      AppendKeepsFirstMatch(s.cards, s1.cards[|s.cards|..], key, i);
      assert s1.cards[i] == s.cards[i];
      ValidationDependsOnFirstMatchOnly(s1, s, key, later, i, i);
      FirstMatchUnique(s1.cards, key, i);
      FirstMatchUnique(s.cards, key, i);
    }
  }

  /**
   A newly issued key that collides with no earlier key validates, at the
   moment of issue, to its own fresh card, provided the validity is not negative.
   */
  lemma {:induction false} IssuedKeyValidates(
      s: Store, count: int, prefix: string, validDays: Option<int>, now: Timestamp, draws: seq<seq<nat>>, n: int)
    requires ValidBatchDraws(count, draws)
    requires validDays.None? || validDays.value >= 0
    requires 0 <= n < count
    requires forall j :: 0 <= j < |s.cards| + n ==>
      IssueCards(s, count, prefix, validDays, now, draws).store.cards[j].key
        != IssueCards(s, count, prefix, validDays, now, draws).result.value[n]
    ensures ValidateCard(IssueCards(s, count, prefix, validDays, now, draws).store,
                         IssueCards(s, count, prefix, validDays, now, draws).result.value[n], now)
            == Valid(IssueCards(s, count, prefix, validDays, now, draws).store.cards[|s.cards| + n])
  {
    var out := IssueCards(s, count, prefix, validDays, now, draws);
    var key := out.result.value[n];
    var c := out.store.cards[|s.cards| + n];
    assert IsFirstMatch(out.store.cards, key, |s.cards| + n);
    FirstMatchUnique(out.store.cards, key, |s.cards| + n);
    assert !IsExpired(c, now);
  }

  /** The listing after an issue is the old listing followed by the batch, whose keys were returned. */
  lemma {:induction false} IssueExtendsListing(
      s: Store, count: int, prefix: string, validDays: Option<int>, now: Timestamp, draws: seq<seq<nat>>)
    requires ValidBatchDraws(count, draws)
    requires count >= 1
    ensures var out := IssueCards(s, count, prefix, validDays, now, draws);
      && ListCards(out.store) == ListCards(s) + ListCards(out.store)[|ListCards(s)|..]
      && KeysOf(ListCards(out.store)[|ListCards(s)|..]) == out.result.value
  {
    var out := IssueCards(s, count, prefix, validDays, now, draws);
    assert out.store.cards == s.cards + out.store.cards[|s.cards|..];
  }

  /**
   The listing filters nothing: after a token is stored every card is still
   listed at its position with its key, issue time and expiry, and on success
   the redeemed card is listed as used.
   */
  lemma {:induction false} ListingKeepsEveryCard(s: Store, key: string, token: string, now: Timestamp)
    ensures |ListCards(StoreToken(s, key, token, now).store)| == |ListCards(s)|
    ensures forall j :: 0 <= j < |ListCards(s)| ==>
      var c := ListCards(StoreToken(s, key, token, now).store)[j];
      c.key == ListCards(s)[j].key && c.issuedAt == ListCards(s)[j].issuedAt && c.expiresAt == ListCards(s)[j].expiresAt
    ensures StoreToken(s, key, token, now).result.Success? ==>
      exists j :: 0 <= j < |ListCards(s)| && ListCards(StoreToken(s, key, token, now).store)[j].key == key
                  && ListCards(StoreToken(s, key, token, now).store)[j].status == Used
  {
    var out := StoreToken(s, key, token, now);
    if out.result.Success? {
      var i :| IsFirstMatch(s.cards, key, i) && out.store.cards == s.cards[i := Redeem(s.cards[i], token, now)];
      assert ListCards(out.store)[i].key == key && ListCards(out.store)[i].status == Used;
    }
  }

  // ----- the audit ledger -----

  /**
   Every token record points, through the first match of its key, to a used
   card carrying that token and use time; and no key has two records.
   */
  ghost predicate LedgerConsistent(s: Store) {
    && (forall t :: 0 <= t < |s.tokens| ==> RecordBacked(s.cards, s.tokens[t]))
    && (forall t1, t2 :: 0 <= t1 < t2 < |s.tokens| ==> s.tokens[t1].cardKey != s.tokens[t2].cardKey)
  }

  ghost predicate RecordBacked(cards: seq<Card>, r: TokenRecord) {
    exists i :: && IsFirstMatch(cards, r.cardKey, i)
                && cards[i].status == Used
                && cards[i].token == Some(r.token)
                && cards[i].usedAt == Some(r.recordedAt)
  }

  lemma EmptyStoreLedgerConsistent()
    ensures LedgerConsistent(EmptyStore) && AllStatusConsistent(EmptyStore)
  {
  }

  /** Issuing keeps the ledger consistent: appended cards shadow no recorded key. */
  lemma {:induction false} IssuePreservesLedger(
      s: Store, count: int, prefix: string, validDays: Option<int>, now: Timestamp, draws: seq<seq<nat>>)
    requires ValidBatchDraws(count, draws)
    requires LedgerConsistent(s)
    ensures LedgerConsistent(IssueCards(s, count, prefix, validDays, now, draws).store)
  {
    var s1 := IssueCards(s, count, prefix, validDays, now, draws).store;
    if count >= 1 {
      assert s1.cards == s.cards + s1.cards[|s.cards|..];
      forall t | 0 <= t < |s1.tokens| ensures RecordBacked(s1.cards, s1.tokens[t]) {
        var r := s.tokens[t];
        var i :| IsFirstMatch(s.cards, r.cardKey, i) && s.cards[i].status == Used
                 && s.cards[i].token == Some(r.token) && s.cards[i].usedAt == Some(r.recordedAt);
        AppendKeepsFirstMatch(s.cards, s1.cards[|s.cards|..], r.cardKey, i);
        assert s1.cards[i] == s.cards[i];
      }
    }
  }

  /** Storing a token keeps the ledger consistent. */
  lemma {:induction false} StoreTokenPreservesLedger(s: Store, key: string, token: string, now: Timestamp)
    requires LedgerConsistent(s)
    ensures LedgerConsistent(StoreToken(s, key, token, now).store)
  {
    var out := StoreToken(s, key, token, now);
    if out.result.Success? {
      var s1 := out.store;
      var i :| IsFirstMatch(s.cards, key, i) && s.cards[i].status == Unused
               && s1.cards == s.cards[i := Redeem(s.cards[i], token, now)];
      assert IsFirstMatch(s1.cards, key, i);
      // No earlier record names `key`: it would make the first match used.
      forall t | 0 <= t < |s.tokens| ensures s.tokens[t].cardKey != key {
        assert RecordBacked(s.cards, s.tokens[t]);
        FirstMatchUnique(s.cards, key, i);
      }
      forall t | 0 <= t < |s1.tokens| ensures RecordBacked(s1.cards, s1.tokens[t]) {
        if t == |s.tokens| {
          assert s1.tokens[t] == TokenRecord(key, token, now);
          assert s1.cards[i] == Redeem(s.cards[i], token, now);
        } else {
          var r := s.tokens[t];
          assert s1.tokens[t] == r;
          var i' :| IsFirstMatch(s.cards, r.cardKey, i') && s.cards[i'].status == Used
                    && s.cards[i'].token == Some(r.token) && s.cards[i'].usedAt == Some(r.recordedAt);
          assert i' != i;
          assert IsFirstMatch(s1.cards, r.cardKey, i');
        }
      }
    }
  }

  /** In a consistent ledger a recorded key can be redeemed no further. */
  lemma {:induction false} RecordedKeyIsSpent(s: Store, t: int, token: string, now: Timestamp)
    requires LedgerConsistent(s)
    requires 0 <= t < |s.tokens|
    ensures StoreToken(s, s.tokens[t].cardKey, token, now).result == Failure(KeyAlreadyUsed)
  {
    var r := s.tokens[t];
    assert RecordBacked(s.cards, r);
  }

  // ----- scenarios -----

  /**
   Issue one card with the default prefix and validity into an empty
   document: its key is "VIP-" and sixteen more characters, it expires 30
   days after issue, and it validates, at the moment of issue, to its unused card.
   */
  lemma {:induction false} IssueScenario(picks: seq<nat>, now: Timestamp)
    requires CardKeys.ValidDraws(CardKeys.DefaultKeyLength, picks)
    ensures var issued := IssueCards(EmptyStore, 1, now := now, draws := [picks]);
      && issued.store == Store([issued.store.cards[0]], [])
      && issued.result.value[0] == CardKeys.GenerateKey(picks := picks)
      && |issued.result.value[0]| == 3 + 1 + 16
      && issued.result.value[0][..4] == "VIP-"
      && issued.store.cards[0].expiresAt == Some(now + 30 * MicrosPerDay)
      && issued.store.cards[0].status == Unused
      && ValidateCard(issued.store, issued.result.value[0], now) == Valid(issued.store.cards[0])
  {
    IssuedKeyValidates(EmptyStore, 1, "VIP", Some(30), now, [picks], 0);
    var key := IssueCards(EmptyStore, 1, now := now, draws := [picks]).result.value[0];
    assert key[..3] == "VIP" && key[3] == '-';
    assert key[..4] == key[..3] + [key[3]];
  }

  /**
   Record a token for the card of a fresh single-card document: the record
   carries the key and token; afterwards the key reports already used until
   it expires, and a second token is refused.
   */
  lemma {:induction false} RedeemScenario(c: Card, redeemAt: Timestamp, later: Timestamp)
    requires c.status == Unused
    requires c.expiresAt.None? || later <= c.expiresAt.value
    ensures var redeemed := StoreToken(Store([c], []), c.key, "abcdefghij", redeemAt);
      && redeemed.result == Success(TokenRecord(c.key, "abcdefghij", redeemAt))
      && ValidateCard(redeemed.store, c.key, later) == Invalid(CardAlreadyUsed)
      && StoreToken(redeemed.store, c.key, "anything-else", later).result == Failure(KeyAlreadyUsed)
  {
    var s := Store([c], []);
    assert IsFirstMatch(s.cards, c.key, 0);
    var redeemed := StoreToken(s, c.key, "abcdefghij", redeemAt);
    assert redeemed.store.cards == [Redeem(c, "abcdefghij", redeemAt)];
    assert IsFirstMatch(redeemed.store.cards, c.key, 0);
    FirstMatchUnique(redeemed.store.cards, c.key, 0);
    RedeemOnlyOnce(s, c.key, "abcdefghij", redeemAt, "anything-else", later);
  }

  /** A card valid for one day reports expired once the clock is past its expiry. */
  lemma {:induction false} ExpiryScenario(picks: seq<nat>, now: Timestamp, later: Timestamp)
    requires CardKeys.ValidDraws(CardKeys.DefaultKeyLength, picks)
    requires later > now + MicrosPerDay
    ensures var issued := IssueCards(EmptyStore, 1, "VIP", Some(1), now, [picks]);
      ValidateCard(issued.store, issued.result.value[0], later) == Invalid(CardExpired)
  {
    var issued := IssueCards(EmptyStore, 1, "VIP", Some(1), now, [picks]);
    assert IsFirstMatch(issued.store.cards, issued.result.value[0], 0);
  }

  /** An unknown key is reported as not found and refused a token, leaving the document as it was. */
  lemma {:induction false} UnknownKeyScenario(s: Store, key: string, token: string, now: Timestamp)
    requires forall j :: 0 <= j < |s.cards| ==> s.cards[j].key != key
    ensures ValidateCard(s, key, now) == Invalid(CardNotFound)
    ensures StoreToken(s, key, token, now) == Outcome(Failure(UnknownKey), s)
  {
  }
}
