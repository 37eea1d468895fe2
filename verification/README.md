# spic_client model

A Dafny model of the client for the SPIC vehicle-tracking platform
(`src/spic_client.rs`): the subscription table with its ten-minute
expiry, the session-token expiry test, the decoder of the platform's
`/Date(<ms>)/` timestamps, the decision logic of `authenticate`, and the
status-to-result handling of `number_of_units` and `unit_list`, with the
client's error type.

Time is an explicit `now` parameter: an integer count of nanoseconds since
the Unix epoch, the resolution of chrono's `DateTime<Utc>`. Network
exchanges, keyring reads and serde's verdicts on a body are inputs
(`Exchange`, `StoredAuth`, `AuthBody`, `Json`); the keyring write is an
output (`vaultWrite`). An `unwrap` that panics is a `Panicked` outcome.

Modules:

- `Wrappers`, `Ints`: `Option`/`Result` and the bounds of `i32`/`i64`.
- `Errors`, `OnlineData`: `SpicError`, `OnlineDataErrorCodes` (200 to 205)
  and `OnlineDataStatus`.
- `Clock`: chrono's truncating `num_seconds` / `num_minutes`.
- `Decimal`: Rust's `str::parse` for signed integers and the decimal
  rendering it inverts.
- `MsDate`: `trim_start_matches`, `trim_end_matches`, the split on `+`/`-`
  and `deserialize_ms_date`.
- `Subscriptions`: `Subscription`, `is_expired` and the class
  `SubscriptionHandler`, whose map field the methods update in place. The
  source's unit tests are modelled as client methods whose `ensures` are
  the tests' assertions.
- `Spic`: `AuthToken`, `AuthResponse::from_json`, the login half of
  `authenticate`, the class `SpicClient` with `Authenticate`,
  `number_of_units`, `unit_list` and the `from_json` wrappers.

Behaviour of note, as the code has it:

- A token is usable while `now <= expiration`, because `is_expired` is
  `expiration < now`. The expiration is the decoded `ExpireDate` as the
  platform sent it.
- A non-200 login status returns `Ok(false)`.
- `auth_token` is assigned only from the keyring read, even when that
  token is expired. A network login replaces only the HTTP client and
  leaves `auth_token` as it was.
- Each operation sends at most one request. The subscription table is
  not wired into the client.
- An `ExpireDate` string that `deserialize_ms_date` cannot decode makes
  the login panic. A non-string `ExpireDate` (null, a number) is a serde
  rejection, and so is a body already malformed before `ExpireDate`,
  because serde decodes fields in input order. Both give the
  `AuthenticationError` "Unable to parse authentication response" without
  a panic. The model covers them with the input `Unparseable`.
- A malformed unit list is a `JsonError` naming `SpicUnitList::from_json`.

## Model

| member | source | states |
|---|---|---|
| `OnlineData.OnlineDataErrorCode.Code` | src/spic_client.rs:417-424 | each error code's number lies in 200..205; 200 is exactly BadRequest |
| `OnlineData.CodeInjective` | src/spic_client.rs:417-424 | distinct error codes have distinct numbers |
| `Clock.NumSeconds` | src/spic_client.rs:413 | chrono's whole seconds of a duration, truncated toward zero: a non-negative duration lies in [r s, (r+1) s) and a negative one in ((r-1) s, r s] |
| `Clock.NumMinutes` | src/spic_client.rs:413 | chrono's `num_minutes`, whole seconds over 60 truncated toward zero: a non-negative duration lies in [r min, (r+1) min) and a negative one in ((r-1) min, r min] |
| `Clock.NumMinutesExceeds` | src/spic_client.rs:410-414 | a duration has more than m whole (truncated) minutes iff it is at least m+1 minutes long; negative durations never do |
| `Decimal.ParseInt` | src/spic_client.rs:211 | `str::parse` succeeds exactly on an optional leading '+'/'-' followed by one or more digits and nothing else, whose value lies within the type's range; the result is the digits' value, negated after '-' |
| `Decimal.ParseLeadingZeros` | src/spic_client.rs:211 | any number of leading zeros before a rendering are accepted and ignored ("007" gives 7) |
| `Decimal.ParseNegativeZero` | src/spic_client.rs:211 | "-0" is accepted and gives 0 |
| `Decimal.ParseRejectsLeadingChar` | src/spic_client.rs:211 | text starting with anything other than a digit or sign, such as " 42", is rejected: no whitespace is skipped |
| `Decimal.ParseSignedDecimal` | src/spic_client.rs:211 | parsing the decimal rendering of n gives n back exactly when n is in range, and fails otherwise |
| `Decimal.ParsePlusDecimal` | src/spic_client.rs:211 | a leading '+' before a non-negative number is accepted and ignored |
| `MsDate.TrimStartMatches` | src/spic_client.rs:47 | the result is a suffix of the input, what was removed is whole copies of the pattern, and the result no longer starts with the pattern; an empty pattern removes nothing |
| `MsDate.TrimEndMatches` | src/spic_client.rs:48 | the result is a prefix of the input, what was removed is whole copies of the pattern, and the result no longer ends with the pattern; an empty pattern removes nothing |
| `MsDate.RepeatsAppend` | src/spic_client.rs:48 | copies of the pattern followed by one more copy are still copies of it, which lets the back trim account for each copy it removes |
| `MsDate.FirstPiece` | src/spic_client.rs:49-51 | the result is the longest separator-free prefix: a prefix with no '+'/'-', followed in the input by a separator or the end |
| `MsDate.MillisText` | src/spic_client.rs:46-51 | the text handed to `parse::<i64>` is no longer than the input and holds no '+' or '-' |
| `MsDate.DecodeMsDate` | src/spic_client.rs:40-56 | decoding succeeds iff the first piece is a non-empty run of digits no larger than i64::MAX, and then yields its value |
| `MsDate.TrimEndStopsAt` | src/spic_client.rs:48 | trimming from the back never removes a character that does not occur in the pattern |
| `MsDate.DecodePlain` | src/spic_client.rs:40-56 | `/Date(<digits>)/` decodes to the value of the digits |
| `MsDate.DecodeWithOffset` | src/spic_client.rs:40-56 | `/Date(<digits>+<offset>)/` and `/Date(<digits>-<offset>)/` decode to the value of the digits, whatever the offset |
| `MsDate.DecodeRoundTrip` | src/spic_client.rs:40-56 | for every 0 <= n <= i64::MAX, `/Date(` + decimal(n) + `)/` decodes to n |
| `MsDate.DecodeRejectsLeadingSign` | src/spic_client.rs:49-53 | a timestamp whose digits start with '+' or '-' (such as `/Date(-5)/`) has an empty first piece and no result |
| `MsDate.DecodeRejectsEmpty` | src/spic_client.rs:52-53 | `/Date()/` has no result |
| `Subscriptions.Subscription.IsExpired` | src/spic_client.rs:410-414 | a subscription is expired exactly when its age is at least 11 minutes |
| `Subscriptions.FutureNotExpired` | src/spic_client.rs:410-414 | a subscription whose creation time is after now is never expired |
| `Subscriptions.ExpiryBoundary` | src/spic_client.rs:410-414 | one nanosecond short of 11 minutes (10 min 59.999999999 s) is not expired; exactly 11 minutes is |
| `Subscriptions.Unexpired` | src/spic_client.rs:392-394 | a sweep keeps exactly the ids whose subscription is not expired, with their values unchanged |
| `Subscriptions.UnexpiredIdempotent` | src/spic_client.rs:392-394 | a second sweep at the same instant changes nothing |
| `Subscriptions.UnexpiredShrinksOverTime` | src/spic_client.rs:392-394 | a later sweep keeps no id that an earlier one dropped |
| `Subscriptions.SubscriptionHandler.constructor` | src/spic_client.rs:375-379 | a new table is empty |
| `Subscriptions.SubscriptionHandler.AddSubscription` | src/spic_client.rs:381-383 | afterwards the id is present with the given uuid and creation time `now` (latest wins); the key set gains only that id; every other entry is unchanged |
| `Subscriptions.SubscriptionHandler.RemoveSubscription` | src/spic_client.rs:385-387 | afterwards the id is absent; no other key is removed and no value changes; removing an absent id leaves the table as it was |
| `Subscriptions.SubscriptionHandler.IsExist` | src/spic_client.rs:388-390 | true iff the table has an entry for the id, expired or not |
| `Subscriptions.SubscriptionHandler.ClearExpired` | src/spic_client.rs:392-394 | the new table is the old one swept at `now` (see `Unexpired`) |
| `Subscriptions.AddThenExists` | src/spic_client.rs:557-563 | after adding unit 1, unit 1 exists and unit 2 does not (also test_is_exist, lines 592-599) |
| `Subscriptions.AddDuplicate` | src/spic_client.rs:565-573 | adding unit 1 twice leaves the second uuid stored |
| `Subscriptions.RemoveThenAbsent` | src/spic_client.rs:575-590 | a removed unit does not exist; removing from an empty table leaves the unit absent |
| `Subscriptions.ClearExpiredDropsDayOld` | src/spic_client.rs:601-620 | a subscription created a day ago is expired and swept, while one added within the last 11 minutes survives |
| `Subscriptions.ClearExpiredKeepsFresh` | src/spic_client.rs:622-633 | two subscriptions, each stamped at its own add, both survive a sweep made within 11 minutes of the first add |
| `Spic.AuthToken.IsExpired` | src/spic_client.rs:86-88 | a token is expired exactly when now is past its expiration instant, not at it |
| `Spic.UsableAtExpiration` | src/spic_client.rs:86-88 | a token is not expired iff now <= expiration, so it is still usable at its expiration instant and expired one nanosecond later |
| `Spic.AuthenticatedClient` | src/spic_client.rs:106-128 | building the authorized client succeeds iff the token is a valid header value, and then the client carries that token; otherwise it panics |
| `Spic.AuthResponseFromJson` | src/spic_client.rs:495-504 | a body serde rejects always gives the single error "Unable to parse authentication response"; an `ExpireDate` string that cannot be decoded panics; otherwise the fields are kept and ExpireDate's milliseconds become the expiry instant |
| `Spic.Login` | src/spic_client.rs:155-195 | non-200 status gives Ok(false); a send or body-read failure gives NetworkError; an unparseable body gives AuthenticationError "Unable to parse authentication response", and a decodable body with a flag unset gives AuthenticationError "Authentication failed"; a token is written to the keyring iff both flags are set and the date decodes; Ok(true) iff the authorized client is installed; panics exactly on an `ExpireDate` string that does not decode or an invalid session-id header (chrono's range check aside, see below) |
| `Spic.UsableStored` | src/spic_client.rs:132-139 | the stored session is reused exactly when the keyring read succeeded and now is at or before the stored expiration |
| `Spic.SpicClient.constructor` | src/spic_client.rs:99-104 | a new client keeps the given HTTP client and has no token |
| `Spic.SpicClient.Authenticate` | src/spic_client.rs:130-196 | a stored token that reads back and has not expired is reused with no request and no keyring write: Ok(true) with the authorized client installed when the token is a valid header value, a panic otherwise; otherwise exactly one login is sent and its result is `Login`'s (a failed keyring read is not an error); `authToken` is set from the keyring read alone, even when expired; a network login changes only the client |
| `Spic.NumberOfUnits` | src/spic_client.rs:198-223 | a non-200 status gives Ok(0); send or body-read failure gives NetworkError; at 200 the result is the body parsed as an i32, or ParseIntError exactly when it does not parse |
| `Spic.NumberOfUnitsRoundTrip` | src/spic_client.rs:209-212 | a 200 body holding the decimal rendering of n gives n when n fits an i32, and ParseIntError otherwise |
| `Spic.NumberOfUnitsFortyTwo` | src/spic_client.rs:209-212 | the body "42" gives 42 |
| `Spic.NumberOfUnitsRejectsNewline` | src/spic_client.rs:211 | a body with a trailing newline gives ParseIntError |
| `Spic.ZeroCountIsAmbiguous` | src/spic_client.rs:207-221 | any non-200 status gives the same Ok(0) as a 200 body "0" |
| `Spic.FromJson` | src/spic_client.rs:339-367 | a parsed body is returned as is; a malformed one gives a JsonError naming the caller and carrying serde's message |
| `Spic.UnitList` | src/spic_client.rs:225-248 | a non-200 status gives Ok([]); a send or body-read failure gives NetworkError; at 200 the result is the Units array, or a JsonError from SpicUnitList::from_json exactly when the body is malformed |
| `Spic.EmptyListIsAmbiguous` | src/spic_client.rs:233-246 | any non-200 status gives the same Ok([]) as a 200 body with an empty Units array |

## Left out

- HTTP transport: headers, user agent, endpoint URLs, the client builders and their `expect` (src/spic_client.rs:106-128, 517-539). Each exchange is an input. `init_client` and the `SubscriptionHandler` it builds and drops are not modelled.
- Keyring persistence (`store_auth_data`, `get_stored_auth_data`) and their RFC 3339 formatting. The read is an input, succeeded or failed. The write is the output `vaultWrite`. Its result is discarded, so it is not an input at all.
- serde field decoding of `AuthResponse`, `SpicUnitList` and `SpicUnit`. Its verdict is an input. If serde rejects a body after it has decoded `ExpireDate`, the model treats this as `Unparseable`.
- MsDate.DecodeMsDate: the chrono range check in `timestamp_millis_opt(ms).unwrap()` (line 55) is not modelled. The model returns timestamps beyond chrono's representable range (about year 262000) where the source panics. The bound differs between chrono versions.
- Spic.AuthResponseFromJson: this is the same gap, inherited from `DecodeMsDate`.
- Spic.Login: this is the same gap, inherited through `AuthResponseFromJson`. For a granted 200 reply whose `ExpireDate` is past chrono's range, the model returns Ok(true) and stores the token, where the source panics at line 55 before the keyring write.
- Spic.SpicClient.Authenticate: this is the same gap, inherited through `Login`. A granted login with an out-of-range `ExpireDate` writes the keyring and returns Ok(true) in the model, where the source panics.
- `OnlineData` and `OnlineData::from_json` (lines 434-476) are not modelled: they hold `f64` coordinates, and the client never calls them.
- Instants are whole nanoseconds. chrono's leap-second representation is not modelled.
- `AuthToken::is_valid` is not modelled: it always returns true, and nothing calls it. `AuthResponse::new` is not modelled either: nothing calls it.
- `SpicError::DateParseError` is declared but never constructed. The payloads of `NetworkError` (a reqwest error) and `ParseIntError` (its kind) are dropped.
- Subscriptions.SubscriptionHandler.ClearExpired: the sweep judges every entry at the one instant `now`. `retain` calls `is_expired`, which reads `Utc::now()` again for each entry, so entries can be judged at slightly different instants that the model does not capture.
- The `HashMap` capacity hint of 5 has no behaviour.
- Logging (`println!`, `dbg!`), async scheduling and the `Send`/`Sync` marker test (lines 541-550) have no state to model.
- The rest of the repository is not part of this model. `src/database.rs`, `src/config.rs`, `src/rdl_config.rs` and `src/logger_storage.rs` are I/O plumbing or stubs. `src/main.rs` is process bootstrap.
