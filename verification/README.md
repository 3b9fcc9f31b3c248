# Card-key redemption service: verified model of the storage core

This project models, in Dafny, the single-use card-key ("卡密") state machine of
`app/storage.py`. One document holds every card and every token record. The
service issues batches of fresh keys, classifies a key as valid, not found,
expired or already used, and redeems a key: it attaches a token to the card,
turns the card from `unused` to `used` and appends an audit record.

Each operation is a pure function. It takes the current document, the clock
reading `now` and, for issuing, the random key characters. It returns its
result together with the document it would save.

Modules:

- `Wrappers` (`wrappers.dfy`): `Option` and `Result`.
- `CardKeys` (`card_keys.dfy`): key generation over the 36-symbol alphabet.
  Each random character is given as its index into the alphabet.
- `Storage` (`storage.dfy`): the `Card`, `TokenRecord` and `Store` datatypes and
  the operations `IssueCards`, `ListCards`, `ValidateCard` and `StoreToken`.
- `StorageLemmas` (`storage_lemmas.dfy`): properties relating several operations.
  These cover the status invariant, the audit ledger, single use, and issuing
  never shadowing an existing key. They also cover the issue, redeem, expiry and
  unknown-key scenarios.

Lookups use the *first* card whose key matches, as the source's `next(...)`
scan does. The source never checks that keys are unique, so the model does not
assume it. A card whose key repeats an earlier card's key can never be reached.

Timestamps are integers counting microseconds, the resolution of the source's
ISO-8601 strings. A day is `86_400_000_000` of them.

## Model

| member | source | states |
|---|---|---|
| CardKeys.GenerateKey | app/storage.py:37-40 | the prefix defaults to "VIP" and the length to 16. The key is the prefix, a dash, then exactly `length` characters (none for a negative length), each an upper-case letter or a digit; with the default length of 16 the key is `|prefix| + 17` long |
| CardKeys.RandomPart | app/storage.py:38-39 | one character per draw, in order, each from A–Z or 0–9, and each the alphabet character the draw selects |
| CardKeys.AlphabetIsUpperAndDigits | app/storage.py:38 | every alphabet position holds an upper-case letter or a digit, and the position can be recovered from the character |
| CardKeys.DrawsRoundTrip | app/storage.py:37-40 | a generated key has the key shape, and decoding its random part gives back exactly the draws it was made from |
| CardKeys.EveryWellFormedKeyIsGenerated | app/storage.py:37-40 | every string of the key shape for a prefix and length is the key generated from its own decoded draws |
| CardKeys.GenerateKeyInjective | app/storage.py:37-40 | under one prefix and length, different draws never produce the same key |
| Storage.FirstMatch | app/storage.py:80 | returns the position of the first card with the key, with no earlier card bearing it; returns none exactly when no card bears the key |
| Storage.IssueCards | app/storage.py:43-70 | fails with no change exactly when `count < 1`, and succeeds exactly when `count >= 1`. The prefix defaults to "VIP" and the validity to 30 days. On success it appends exactly `count` cards after the unchanged old cards and leaves the tokens untouched. It returns the new keys in append order. Each new card is unused, with no token, use time or note, and has as its key the key generated from its own draws under the batch prefix with the default length of 16. All share issue time `now`. Expiry is absent exactly when `valid_days` is absent or 0, and otherwise is `now` plus that many days |
| Storage.ValidateCard | app/storage.py:78-93 | not found exactly when no card has the key. Otherwise the first matching card decides. Expired exactly when it has an expiry strictly before `now`, whether or not it is used. Already used exactly when it is not expired and is used. Valid, carrying that card, exactly when it is neither |
| Storage.StoreToken | app/storage.py:96-121 | fails with unknown key exactly when no card has the key. Fails with already used exactly when the first matching card is used. Succeeds exactly when the first matching card exists and is unused, whether or not it has expired. Any failure leaves the document unchanged. On success it returns the record (key, token, `now`), appends exactly that record to the tokens, and replaces only the first matching card, which was unused, by its copy with status used, the token and use time `now` |
| StorageLemmas.IssuePreservesStatusInvariant | app/storage.py:56-68 | if every card is used exactly when it has a token and a use time, that still holds after issuing |
| StorageLemmas.StoreTokenPreservesStatusInvariant | app/storage.py:102-108 | the same invariant still holds after storing a token |
| StorageLemmas.RedeemOnlyOnce | app/storage.py:102-108 | after a successful token store for a key, a second one for that key fails as already used and changes nothing |
| StorageLemmas.RedeemedNeverValidates | app/storage.py:85-91 | after a successful token store for a key, validation of that key at any time is expired or already used, never valid |
| StorageLemmas.StoreTokenIgnoresExpiry | app/storage.py:96-108 | on an unused card that has expired, validation reports expired, yet storing a token succeeds |
| StorageLemmas.ValidationDependsOnFirstMatchOnly | app/storage.py:78-93 | two documents whose first matching cards for a key are equal give the same verdict at the same time |
| StorageLemmas.AppendKeepsFirstMatch | app/storage.py:68 | appending cards keeps the first match of every key already present |
| StorageLemmas.IssueKeepsExistingKeys | app/storage.py:43-70 | for a key already present, issuing changes neither the validation verdict nor the outcome of storing a token |
| StorageLemmas.IssuedKeyValidates | app/storage.py:48-70 | a new key that repeats no earlier key validates, at the moment of issue, to its own fresh card when the validity is absent or not negative |
| StorageLemmas.IssueExtendsListing | app/storage.py:68-75 | after a successful issue the listing is the old listing followed by the batch, and the batch's keys are exactly the returned keys |
| StorageLemmas.ListingKeepsEveryCard | app/storage.py:73-75 | a token store keeps every listed card at its position: the listing has the same length afterwards, and every position keeps its key, issue time and expiry. On success the redeemed card is listed as used |
| StorageLemmas.EmptyStoreLedgerConsistent | app/storage.py:15-16 | the empty document satisfies the status invariant and the audit-ledger invariant |
| StorageLemmas.IssuePreservesLedger | app/storage.py:53-70 | issuing preserves the ledger invariant: every record's key first-matches a used card holding that token and use time, and no key has two records |
| StorageLemmas.StoreTokenPreservesLedger | app/storage.py:96-121 | storing a token preserves the ledger invariant |
| StorageLemmas.RecordedKeyIsSpent | app/storage.py:98-103 | under the ledger invariant, storing a token for any recorded key fails as already used |
| StorageLemmas.IssueScenario | app/storage.py:37-93 | issuing one card with the default prefix and validity into an empty document gives a document holding just that card. Its key is the default-argument generated key, 20 characters long and starting with "VIP-". It expires 30 days after issue and validates at issue time to its unused card |
| StorageLemmas.RedeemScenario | app/storage.py:78-121 | storing token "abcdefghij" for the card of a one-card document returns the matching record. Until expiry the key then reports already used, and a second token is refused |
| StorageLemmas.ExpiryScenario | app/storage.py:49-88 | a card issued valid for one day reports expired once the clock is past a day after issue |
| StorageLemmas.UnknownKeyScenario | app/storage.py:78-100 | a key no card bears validates as not found, and storing a token for it fails as unknown and leaves the document unchanged |

## Left out

- JSON persistence: `load_store`, `save_store` and `_ensure_store_file` (app/storage.py:15-34) are file I/O. The document is a value passed in and returned. `EmptyStore` stands for `_default_store`. I/O errors are not modelled.
- Randomness: `secrets.choice` is replaced by caller-supplied alphabet indices, one per character.
- Clock and date arithmetic: `datetime.utcnow`, `isoformat`, `fromisoformat` and `timedelta` become integer microseconds. `issue_cards` reads the clock twice, for `issued_at` and for the expiry base. The model uses one reading `now` for both.
- Storage.IssueCards: does not model the `OverflowError` that `timedelta` or `datetime` raise for a `valid_days` beyond their range. The model's integers are unbounded.
- Reason and error messages: the Chinese reason strings become the `Reason` enum. The `ValueError` messages become `StorageError`.
- Malformed documents: a document without a `cards` or `tokens` key is ruled out by the datatypes. `list_cards`, `validate_card` and `store_token` treat a missing key as empty through `.get` (app/storage.py:75, 80, 98, 116), while `issue_cards` raises `KeyError` on a missing `cards` key (app/storage.py:68). A status other than `used`/`unused`, and an empty-string expiry are also ruled out by the datatypes.
- Key uniqueness: `issue_cards` (app/storage.py:53-68) never checks a new key against existing cards or against the rest of its batch. A collision is improbable but not excluded. The model follows the code and uses first match. `StorageLemmas.IssuedKeyValidates` therefore requires that the new key repeats no earlier one.
- Read idempotence: `ValidateCard` is a pure function that returns no document, so repeated validation without a mutation gives the same result by construction.
- The HTTP layer (app/main.py) is out of scope. That covers its trimming and field bounds: key length at least 5, token at least 10, count 1 to 100, prefix 1 to 10, `valid_days` 1 to 365. The core accepts any count of at least one and any integer `valid_days`.
- The browser front end (app/static/main.js) is out of scope.
- Concurrency: the unsynchronised load–mutate–save race between requests is out of scope. The ledger invariant holds only for documents built by sequential operations.
