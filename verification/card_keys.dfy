/**
 Card-key generation: a key is the caller's prefix, a dash, and a run of
 characters drawn from the 36-symbol alphabet of upper-case letters and digits.
 The cryptographic random source is not modelled; each drawn character is
 supplied by the caller as its index into the alphabet.
 */
module CardKeys {

  /** Upper-case ASCII letters followed by the decimal digits. */
  const Alphabet: string := "ABCDEFGHIJKLMNOPQRSTUVWXYZ0123456789"

  /** Number of random characters in a key when the caller does not choose. */
  const DefaultKeyLength: nat := 16

  /** The prefix used when the caller does not choose one. */
  const DefaultPrefix: string := "VIP"

  predicate IsAlphabetChar(ch: char) {
    'A' <= ch <= 'Z' || '0' <= ch <= '9'
  }

  /** The number of characters a loop over `range(length)` draws: none for a negative length. */
  function DrawCount(length: int): nat {
    if length < 0 then 0 else length
  }

  /** `picks` is one draw from the alphabet for each character of the random part. */
  predicate ValidDraws(length: int, picks: seq<nat>) {
    && |picks| == DrawCount(length)
    && forall i :: 0 <= i < |picks| ==> picks[i] < |Alphabet|
  }

  /** Position of an alphabet character in `Alphabet`; the inverse of indexing. */
  function PickOf(ch: char): (p: nat)
    requires IsAlphabetChar(ch)
    ensures p < |Alphabet| && Alphabet[p] == ch
  {
    if 'A' <= ch <= 'Z' then (ch - 'A') as nat else (ch - '0') as nat + 26
  }

  lemma AlphabetIsUpperAndDigits(p: nat)
    requires p < |Alphabet|
    ensures IsAlphabetChar(Alphabet[p])
    ensures PickOf(Alphabet[p]) == p
  {
  }

  /** The random part of a key: the alphabet character for every draw, in order. */
  function RandomPart(picks: seq<nat>): (r: string)
    requires forall i :: 0 <= i < |picks| ==> picks[i] < |Alphabet|
    ensures |r| == |picks|
    ensures forall i :: 0 <= i < |r| ==> IsAlphabetChar(r[i]) && PickOf(r[i]) == picks[i]
  {
    seq(|picks|, i requires 0 <= i < |picks| => AlphabetIsUpperAndDigits(picks[i]); Alphabet[picks[i]])
  }

  /** The draws a random part was generated from. */
  function DrawsOf(r: string): (picks: seq<nat>)
    requires forall i :: 0 <= i < |r| ==> IsAlphabetChar(r[i])
    ensures |picks| == |r|
    ensures forall i :: 0 <= i < |picks| ==> picks[i] < |Alphabet|
  {
    seq(|r|, i requires 0 <= i < |r| => PickOf(r[i]))
  }

  /** A card key: prefix, a dash, then one alphabet character per draw. */
  function GenerateKey(prefix: string := DefaultPrefix, length: int := DefaultKeyLength, picks: seq<nat>): (key: string)
    requires ValidDraws(length, picks)
    ensures |key| == |prefix| + 1 + DrawCount(length)
    ensures key[..|prefix|] == prefix && key[|prefix|] == '-'
    ensures forall i :: |prefix| < i < |key| ==> IsAlphabetChar(key[i])
  {
    prefix + "-" + RandomPart(picks)
  }

  /** Keys of the shape `GenerateKey` produces for `prefix` and `length`. */
  predicate IsKeyFor(key: string, prefix: string, length: int) {
    && |key| == |prefix| + 1 + DrawCount(length)
    && key[..|prefix|] == prefix
    && key[|prefix|] == '-'
    && forall i :: |prefix| < i < |key| ==> IsAlphabetChar(key[i])
  }

  /** Recovering the draws from a generated key gives back exactly the draws used. */
  lemma {:induction false} DrawsRoundTrip(prefix: string, length: int, picks: seq<nat>)
    requires ValidDraws(length, picks)
    ensures IsKeyFor(GenerateKey(prefix, length, picks), prefix, length)
    ensures DrawsOf(GenerateKey(prefix, length, picks)[|prefix| + 1..]) == picks
  {
    var key := GenerateKey(prefix, length, picks);
    assert key[|prefix| + 1..] == RandomPart(picks);
  }

  /** Every key of the right shape is the one generated from its own draws. */
  lemma {:induction false} EveryWellFormedKeyIsGenerated(key: string, prefix: string, length: int)
    requires IsKeyFor(key, prefix, length)
    ensures ValidDraws(length, DrawsOf(key[|prefix| + 1..]))
    ensures GenerateKey(prefix, length, DrawsOf(key[|prefix| + 1..])) == key
  {
    var r := key[|prefix| + 1..];
    var picks := DrawsOf(r);
    assert forall i :: 0 <= i < |r| ==> IsAlphabetChar(r[i]) by {
      forall i | 0 <= i < |r| ensures IsAlphabetChar(r[i]) {
        assert r[i] == key[|prefix| + 1 + i];
      }
    }
    assert RandomPart(picks) == r;
    assert key == key[..|prefix|] + [key[|prefix|]] + r;
  }

  /** Distinct draws give distinct keys under the same prefix and length. */
  lemma {:induction false} GenerateKeyInjective(prefix: string, length: int, a: seq<nat>, b: seq<nat>)
    requires ValidDraws(length, a) && ValidDraws(length, b)
    requires GenerateKey(prefix, length, a) == GenerateKey(prefix, length, b)
    ensures a == b
  {
    DrawsRoundTrip(prefix, length, a);
    DrawsRoundTrip(prefix, length, b);
  }
}
