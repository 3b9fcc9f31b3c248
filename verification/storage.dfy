/**
 The card/token state machine over one in-memory document holding every card
 and every token record. Loading and saving the document are not modelled:
 each operation takes the current document and returns the one it would save.
 The clock is the parameter `now`, and the random key characters are
 caller-supplied draws (see CardKeys).
 */
module Storage {
  import opened Wrappers
  import CardKeys

  /** Microseconds since the epoch: the resolution of an ISO-8601 timestamp. */
  type Timestamp = int

  const MicrosPerDay: int := 86_400_000_000

  /** Days a batch stays valid when the caller does not choose. */
  const DefaultValidDays: Option<int> := Some(30)

  /** A card is redeemed at most once: `unused` until a token is attached, then `used`. */
  datatype Status = Unused | Used

  datatype Card = Card(
    key: string,
    status: Status,
    issuedAt: Timestamp,
    expiresAt: Option<Timestamp>,
    token: Option<string>,
    usedAt: Option<Timestamp>,
    note: Option<string>)

  /** The audit entry appended when a token is attached to a card. */
  datatype TokenRecord = TokenRecord(cardKey: string, token: string, recordedAt: Timestamp)

  /** The whole persisted document. */
  datatype Store = Store(cards: seq<Card>, tokens: seq<TokenRecord>)

  /** The document created when none exists yet. */
  const EmptyStore: Store := Store([], [])

  /** The `ValueError`s the mutating operations raise. */
  datatype StorageError = CountTooSmall | UnknownKey | KeyAlreadyUsed

  /** Why a card does not validate. */
  datatype Reason = CardNotFound | CardExpired | CardAlreadyUsed

  datatype Validation = Valid(card: Card) | Invalid(reason: Reason)

  /** What a mutating operation returns, together with the document it leaves behind. */
  datatype Outcome<T> = Outcome(result: Result<T, StorageError>, store: Store)

  /** A card is `used` exactly when it carries both a token and a use time. */
  predicate StatusConsistent(c: Card) {
    c.status == Used <==> (c.token.Some? && c.usedAt.Some?)
  }

  predicate AllStatusConsistent(s: Store) {
    forall i :: 0 <= i < |s.cards| ==> StatusConsistent(s.cards[i])
  }

  /** Expiry is derived at read time: a set expiry strictly before `now`. */
  predicate IsExpired(c: Card, now: Timestamp) {
    c.expiresAt.Some? && c.expiresAt.value < now
  }

  /** Position `i` holds the first card whose key is `key`. */
  ghost predicate IsFirstMatch(cards: seq<Card>, key: string, i: int) {
    && 0 <= i < |cards|
    && cards[i].key == key
    && forall j :: 0 <= j < i ==> cards[j].key != key
  }

  ghost predicate HasKey(cards: seq<Card>, key: string) {
    exists j :: 0 <= j < |cards| && cards[j].key == key
  }

  /** The position of the first card with the given key, as a scan in order finds it. */
  function FirstMatch(cards: seq<Card>, key: string): (r: Option<nat>)
    ensures r.Some? ==> IsFirstMatch(cards, key, r.value)
    ensures r.None? <==> !HasKey(cards, key)
  {
    if |cards| == 0 then None
    else if cards[0].key == key then Some(0)
    else
      match FirstMatch(cards[1..], key)
      case None => None
      case Some(i) => Some(i + 1)
  }

  /** Expiry of a batch: none when no (or zero) validity days are given. */
  function ExpiryFor(validDays: Option<int>, now: Timestamp): Option<Timestamp> {
    if validDays.None? || validDays.value == 0 then None
    else Some(now + validDays.value * MicrosPerDay)
  }

  /** A freshly issued card: unused, with no token, use time or note. */
  function FreshCard(key: string, issuedAt: Timestamp, expiresAt: Option<Timestamp>): Card {
    Card(key, Unused, issuedAt, expiresAt, None, None, None)
  }

  /** One valid set of default-length draws for each card of a batch of `count`. */
  predicate ValidBatchDraws(count: int, draws: seq<seq<nat>>) {
    && |draws| == (if count < 0 then 0 else count)
    && forall i :: 0 <= i < |draws| ==> CardKeys.ValidDraws(CardKeys.DefaultKeyLength, draws[i])
  }

  /** The cards of one batch, in generation order. */
  function NewCards(prefix: string, draws: seq<seq<nat>>, issuedAt: Timestamp, expiresAt: Option<Timestamp>): (cs: seq<Card>)
    requires forall i :: 0 <= i < |draws| ==> CardKeys.ValidDraws(CardKeys.DefaultKeyLength, draws[i])
    ensures |cs| == |draws|
  {
    seq(|draws|, i requires 0 <= i < |draws| =>
      FreshCard(CardKeys.GenerateKey(prefix, CardKeys.DefaultKeyLength, draws[i]), issuedAt, expiresAt))
  }

  function KeysOf(cs: seq<Card>): (keys: seq<string>)
    ensures |keys| == |cs|
    ensures forall i :: 0 <= i < |cs| ==> keys[i] == cs[i].key
  {
    seq(|cs|, i requires 0 <= i < |cs| => cs[i].key)
  }

  /**
   Issues `count` fresh cards at time `now`, appends them to the document and
   returns their keys in creation order. A count below one is rejected before
   the document is touched.
   */
  function IssueCards(s: Store, count: int, prefix: string := CardKeys.DefaultPrefix,
                      validDays: Option<int> := DefaultValidDays,
                      now: Timestamp, draws: seq<seq<nat>>): (out: Outcome<seq<string>>)
    requires ValidBatchDraws(count, draws)
    ensures out.result == Failure(CountTooSmall) <==> count < 1
    ensures out.result.Success? <==> count >= 1
    ensures out.result.Failure? ==> out.store == s
    ensures out.result.Success? ==>
      && |out.result.value| == count
      && |out.store.cards| == |s.cards| + count
      && out.store.cards[..|s.cards|] == s.cards
      && out.store.tokens == s.tokens
      && forall i :: 0 <= i < count ==>
           var c := out.store.cards[|s.cards| + i];
           && c.key == out.result.value[i]
           && c.key == CardKeys.GenerateKey(prefix, CardKeys.DefaultKeyLength, draws[i])
           && CardKeys.IsKeyFor(c.key, prefix, CardKeys.DefaultKeyLength)
           && c.status == Unused && c.token.None? && c.usedAt.None? && c.note.None?
           && c.issuedAt == now
           && (c.expiresAt.None? <==> validDays.None? || validDays.value == 0)
           && (c.expiresAt.Some? ==> c.expiresAt.value == now + validDays.value * MicrosPerDay)
  {
    if count < 1 then Outcome(Failure(CountTooSmall), s)
    else
      var batch := NewCards(prefix, draws, now, ExpiryFor(validDays, now));
      assert forall i :: 0 <= i < count ==> CardKeys.IsKeyFor(batch[i].key, prefix, CardKeys.DefaultKeyLength);
      Outcome(Success(KeysOf(batch)), Store(s.cards + batch, s.tokens))
  }

  /** All cards, in issue order, with no filtering. */
  function ListCards(s: Store): seq<Card> {
    s.cards
  }

  /** Classifies a found card: expiry is checked before use. */
  function Classify(c: Card, now: Timestamp): Validation {
    if IsExpired(c, now) then Invalid(CardExpired)
    else if c.status == Used then Invalid(CardAlreadyUsed)
    else Valid(c)
  }

  /**
   Read-only classification of a key at time `now`, judged on the first card
   with that key: not found, then expired, then already used, else valid.
   */
  function ValidateCard(s: Store, key: string, now: Timestamp): (r: Validation)
    ensures r == Invalid(CardNotFound) <==> !HasKey(s.cards, key)
    ensures r == Invalid(CardExpired) <==>
      exists i :: IsFirstMatch(s.cards, key, i) && IsExpired(s.cards[i], now)
    ensures r == Invalid(CardAlreadyUsed) <==>
      exists i :: IsFirstMatch(s.cards, key, i) && !IsExpired(s.cards[i], now) && s.cards[i].status == Used
    ensures r.Valid? <==>
      exists i :: IsFirstMatch(s.cards, key, i) && !IsExpired(s.cards[i], now) && s.cards[i].status == Unused
    ensures r.Valid? ==> exists i :: IsFirstMatch(s.cards, key, i) && r.card == s.cards[i]
  {
    match FirstMatch(s.cards, key)
    case None => Invalid(CardNotFound)
    case Some(i) =>
      FirstMatchUnique(s.cards, key, i);
      Classify(s.cards[i], now)
  }

  /** The first match is unique. */
  lemma FirstMatchUnique(cards: seq<Card>, key: string, i: int)
    requires IsFirstMatch(cards, key, i)
    ensures forall j :: IsFirstMatch(cards, key, j) ==> j == i
  {
  }

  /** The card with status `used`, the token and the use time attached. */
  function Redeem(c: Card, token: string, now: Timestamp): Card {
    c.(status := Used, token := Some(token), usedAt := Some(now))
  }

  /**
   Attaches `token` to the first card with key `key` and appends an audit
   record. Fails, leaving the document as it was, when no card has the key or
   that card is already used. Expiry is not checked.
   */
  function StoreToken(s: Store, key: string, token: string, now: Timestamp): (out: Outcome<TokenRecord>)
    ensures out.result == Failure(UnknownKey) <==> !HasKey(s.cards, key)
    ensures out.result == Failure(KeyAlreadyUsed) <==>
      exists i :: IsFirstMatch(s.cards, key, i) && s.cards[i].status == Used
    ensures out.result.Success? <==>
      exists i :: IsFirstMatch(s.cards, key, i) && s.cards[i].status == Unused
    ensures out.result.Failure? ==> out.store == s
    ensures out.result.Success? ==>
      && out.result.value == TokenRecord(key, token, now)
      && out.store.tokens == s.tokens + [out.result.value]
      && exists i :: && IsFirstMatch(s.cards, key, i)
                     && s.cards[i].status == Unused
                     && out.store.cards == s.cards[i := Redeem(s.cards[i], token, now)]
  {
    match FirstMatch(s.cards, key)
    case None => Outcome(Failure(UnknownKey), s)
    case Some(i) =>
      FirstMatchUnique(s.cards, key, i);
      if s.cards[i].status == Used then Outcome(Failure(KeyAlreadyUsed), s)
      else
        var record := TokenRecord(key, token, now);
        assert IsFirstMatch(s.cards, key, i);
        assert s.cards[i].status == Unused;
        Outcome(Success(record), Store(s.cards[i := Redeem(s.cards[i], token, now)], s.tokens + [record]))
  }
}
