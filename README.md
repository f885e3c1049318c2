# Electric Kiwi API client, modelled in Dafny

This project models the core of a small Python client for the Electric Kiwi
(a New Zealand power retailer) mobile API. It covers four parts.

- **Token cipher** (`crypotJS.py`, module `CrypotJS`; `cryptoJS.py`, module
  `CryptoJS`). Both files write and read the OpenSSL/CryptoJS "Salted__"
  envelope: base64 of `"Salted__" ++ salt ++ ciphertext`. The AES-256 key and
  IV come from EVP_BytesToKey, which chains MD5 digests of the passphrase and
  an 8-byte salt (module `EvpKdf`). `crypotJS.py` pads with PKCS#7 itself and
  uses plain CBC. `cryptoJS.py` leaves padding and CBC to pyaes.
- **Python built-ins** (module `PyBase`): slicing with negative and
  out-of-range bounds, `str(int)`, `int(str)` and `str.encode()`, with
  Python's semantics.
- **API client** (`electrickiwi.py`, module `ElectricKiwiApi`):
  - the `Hour` value and its comparisons;
  - the per-request `x-token`: the payload `endpoint|expiry|nonce`, encrypted
    under a random-length prefix of the session secret, with that length
    spliced into the base64 text at the secret's position;
  - the `ElectricKiwi` object. Its secret, secret position, session id and
    customer are updated in place. The secret and the session id decide
    which headers a request carries. The secret position only decides where
    the length digits go in the token text. The session id gates every
    customer call.
- **Plan comparison** (`compare_plans.py`, module `ComparePlans`):
  - the price of an hour under a flat or time-banded tariff;
  - the banded lookup's first-match and wrap-around rule;
  - the loop that folds a day's 48 half-hour intervals into 24 hour keys;
  - the `move_master` tariff.

The library calls (MD5, AES-CBC, pyaes, base64) are parameters of type
`Primitives.Primitives`. `Primitives.Valid()` states the only facts the
proofs rely on:

- MD5 digests are 16 bytes;
- with a 32-byte key and a 16-byte IV, CBC encryption and CBC decryption
  each keep the length of whole-block data;
- CBC and pyaes decryption undo encryption;
- pyaes ciphertext has the PKCS#7-padded length;
- base64 decoding undoes encoding.

The client's randomness and clock (`random.randint`, `random.choice`,
`time.time`, `urandom`) become a `Draw` value. HTTP responses become
parameters.

Three behaviours of the code are worth stating plainly:

- `decrypt` checks no padding. It drops as many bytes as the last byte says,
  so a tampered ciphertext decrypts to something
  (`CrypotJS.OpenIgnoresPadding`).
- An envelope under 8 bytes, or one without the "Salted__" marker, fails the
  marker assertion. An envelope of 8 to 15 bytes with the marker fails the
  salt-length assertion in `bytes_to_key`. A framed header with no ciphertext
  passes both and then fails in `unpad` (`CrypotJS.OpenFailures`).
- A secret under 12 characters raises `random.randint`'s empty-range error
  (`ElectricKiwiApi.TokenText`). Without a secret, no token is built and no
  error is raised (`ElectricKiwiApi.ElectricKiwi.Headers`).

## Model

| member | source | states |
|---|---|---|
| PyBase.ParseIntToString | electrickiwi.py:98 | `int(str(i)) == i` for every integer: the length digits spliced into a token parse back to the length |
| PyBase.ParseTwoDigits | electrickiwi.py:67 | two ASCII digits parse with `int()` to their decimal value, which lies in 0..99 |
| PyBase.Utf8 | electrickiwi.py:96 | `str.encode()` is at least as long as the text, and the identity on ASCII text |
| EvpKdf.BlocksFor | crypotJS.py:18-22 | the loop computes at least one digest, enough digests to reach `output` bytes, and no more than that |
| EvpKdf.DerivedLength | crypotJS.py:15-23 | the derivation fails exactly when the salt is not 8 bytes, and otherwise yields exactly `output` bytes |
| EvpKdf.DerivedPrefix | crypotJS.py:19-23 | asking for fewer bytes gives a prefix of asking for more |
| EvpKdf.DerivedBlocks | crypotJS.py:17-22 | bytes 16i..16i+16 of the key are md5(passphrase ++ salt) for i = 0, and md5(previous 16 bytes ++ passphrase ++ salt) after that |
| CrypotJS.Pad | crypotJS.py:7-10 | the padded length is a multiple of 16, between 1 and 16 bytes longer (a whole block when the input is aligned); the data is a prefix and every added byte holds the pad length |
| CrypotJS.Unpad | crypotJS.py:12-13 | fails exactly on empty input; otherwise drops as many bytes as the last byte says, giving empty output when that is 0 or exceeds the length |
| CrypotJS.UnpadPad | crypotJS.py:7-13 | unpad undoes pad for every byte string |
| CrypotJS.BytesToKey | crypotJS.py:15-23 | the digest loop returns exactly the EVP_BytesToKey chain, truncated, or the salt-length error |
| CrypotJS.KeyIvSplit | crypotJS.py:28-30 | the 48 derived bytes split into a 32-byte key and a 16-byte IV that concatenate back |
| CrypotJS.FrameLayout | crypotJS.py:35 | in `"Salted__" ++ salt ++ ct` the marker, salt and ciphertext occupy bytes 0..8, 8..16 and 16.., and the envelope is whole blocks after its header exactly when the ciphertext is |
| CrypotJS.HeaderSlices | crypotJS.py:39-47 | `decrypt`'s slices `[0:8]`, `[8:16]` and `[16:]` of an envelope of at least 16 bytes are the marker field, the salt and the rest, the latter whole blocks exactly when the envelope is after its header |
| CrypotJS.Encrypt | crypotJS.py:25-35 | encrypting with a given salt returns the sealed envelope (`Seal`) |
| CrypotJS.Decrypt | crypotJS.py:37-48 | decryption returns what `Open` gives: the message or the exception `decrypt` raises |
| CrypotJS.EnvelopeLayout | crypotJS.py:25-35 | the envelope decodes to "Salted__", then the salt, then whole blocks one padding block longer than the message at most |
| CrypotJS.RoundTrip | crypotJS.py:25-48 | decrypting an envelope with its passphrase gives back the message, for every message and salt |
| CrypotJS.OpenFailures | crypotJS.py:37-48 | each failure of `decrypt` happens exactly for its cause: bad base64; a missing marker (including under 8 bytes); 8 to 15 bytes with the marker (salt assertion); a ciphertext that is not whole blocks; an empty ciphertext |
| CrypotJS.OpenIgnoresPadding | crypotJS.py:46-48 | any well-framed envelope with a non-empty whole-block ciphertext decrypts without error, whatever its padding bytes |
| CryptoJS.BytesToKey | cryptoJS.py:7-15 | the digest loop returns exactly the EVP_BytesToKey chain, truncated, or the salt-length error |
| CryptoJS.Encrypt | cryptoJS.py:17-28 | encrypting with a given salt returns the sealed pyaes envelope (`Seal`) |
| CryptoJS.Decrypt | cryptoJS.py:30-43 | decryption returns what `Open` gives: the message or the exception raised |
| CryptoJS.EnvelopeLayout | cryptoJS.py:17-28 | the envelope decodes to "Salted__", then the salt, then a ciphertext as long as the PKCS#7-padded message |
| CryptoJS.RoundTrip | cryptoJS.py:17-43 | decrypting a pyaes envelope with its passphrase gives back the message |
| ElectricKiwiApi.Hour.Eq | electrickiwi.py:20-21 | two hours are equal exactly when neither is greater |
| ElectricKiwiApi.Hour.Ne | electrickiwi.py:23-24 | `!=` is the negation of `==` |
| ElectricKiwiApi.Hour.Gt | electrickiwi.py:26-27 | a greater hour is never the same hour |
| ElectricKiwiApi.Hour.Le | electrickiwi.py:29-30 | `<=` is "not greater", and equally "equal or the other is greater" |
| ElectricKiwiApi.HourComparesIntervals | electrickiwi.py:20-30 | the comparisons depend on `interval` alone |
| ElectricKiwiApi.HourOrder | electrickiwi.py:20-30 | equality is an equivalence and `>` a strict total order on hours: a greater hour is neither equal to nor less than the other |
| ElectricKiwiApi.Nonce | electrickiwi.py:95 | the nonce is 16 characters, each a hexadecimal digit 0-9 or A-F |
| ElectricKiwiApi.BuildNonce | electrickiwi.py:95 | the join over sixteen `random.choice` draws builds exactly `Nonce` of those draws |
| ElectricKiwiApi.Unsplice | electrickiwi.py:98 | cutting `width` characters out shortens the text by exactly `width` |
| ElectricKiwiApi.SpliceInverse | electrickiwi.py:98 | the digits sit at Python's normalised slice index of the position, and cutting them out there restores the encrypted text |
| ElectricKiwiApi.TokenText | electrickiwi.py:91-98 | the token fails exactly when the secret is shorter than 12 characters, with the empty-range error |
| ElectricKiwiApi.TokenRecoversPayload | electrickiwi.py:91-98 | a holder of the secret finds at the position the length digits (at least two), which parse to a length in [10, len - 2]; the rest decrypts under that secret prefix to the payload. The receiver knows how many digits to cut only when every possible length has the same width, as for secrets of at most 101 characters (`TokenLengthDigits`) |
| ElectricKiwiApi.TokenLengthDigits | electrickiwi.py:92-98 | for a secret of 12 to 101 characters every length `randint` can draw has exactly two digits, so a receiver holding the secret knows how many characters to cut at the position |
| ElectricKiwiApi.AtTokenFields | electrickiwi.py:66-67 | for a token that starts with two digits, the secret is its middle `t[2:-2]` and the position is the two digits' value, in 0..99 |
| ElectricKiwiApi.ElectricKiwi.constructor | electrickiwi.py:36-43 | a new client holds no secret, position, session or customer |
| ElectricKiwiApi.ElectricKiwi.AtToken | electrickiwi.py:61-69 | when no token is given, the `/at/` request's headers come first: a held secret under 12 characters raises `randint`'s error and leaves secret and position as they were. Otherwise it stores the middle of the token (the fetched one when none is given) as secret, and its first two characters as position. A non-numeric prefix raises after the secret was stored. Session and customer are untouched |
| ElectricKiwiApi.ElectricKiwi.Login | electrickiwi.py:45-56 | the `/login/` request's headers come first: a held secret under 12 characters raises `randint`'s error and leaves session and customer as they were. Otherwise it stores the session id, then the customer at a Python index, negatives from the end. An out-of-range index raises and leaves the customer as it was. Secret and position are never changed |
| ElectricKiwiApi.ElectricKiwi.RequireLogin | electrickiwi.py:111-113 | raises exactly when no non-empty session id is held |
| ElectricKiwiApi.ElectricKiwi.GetToken | electrickiwi.py:91-98 | the method builds exactly `TokenText` of the stored secret, position and draws |
| ElectricKiwiApi.ElectricKiwi.Headers | electrickiwi.py:71-83 | always sends `x-client: ek-app` and `x-apiversion: 1_0`. It adds `x-token` exactly when a non-empty secret is held, and `x-sid` exactly when a session id is. It fails only on a too-short secret |
| ElectricKiwiApi.ElectricKiwi.Prepare | electrickiwi.py:115-148 | a customer call fails with the login error exactly when no session is held. Otherwise it sends the call's verb, path and params with the request headers |
| ComparePlans.ClockBand | compare_plans.py:83-84 | a band whose start and end are four-digit 'HHMM' texts parses to bounds equal to their values |
| ComparePlans.FirstMatch | compare_plans.py:82-92 | a found band index lies within the searched range |
| ComparePlans.FirstMatchIsFirst | compare_plans.py:82-92 | the price comes from the first matching band, after bands that all parsed and did not match. "No price" means every band parsed and none matched. A parse error means a band failed before any matched |
| ComparePlans.GetPrice | compare_plans.py:80-94 | the loop with early returns gives exactly `PriceOf`, and a flat tariff's price whatever the hour |
| ComparePlans.WrapBandMatchesWholeDay | compare_plans.py:88-90 | a band with end <= start matches every hour in 0..2400, whatever its start |
| ComparePlans.HourKeyOfOddInterval | compare_plans.py:73-75 | interval 2k + 1 (k in 0..23, the values `range(1, 48, 2)` visits) lands on hour key 100k, one of 0, 100, ..., 2300, from which the interval is recovered |
| ComparePlans.KeysBelowStep | compare_plans.py:73-75 | each further loop round adds exactly one new hour key |
| ComparePlans.BuildDay | compare_plans.py:73-76 | the day loop succeeds exactly when intervals 1..48 are all present. Its keys are then exactly the 24 hour keys, each holding its two intervals combined |
| ComparePlans.MoveMasterBounds | compare_plans.py:57 | the `move_master` band texts parse to 700-900, 900-1700, 1700-2100, 2100-2300 and 2300-700 |
| ComparePlans.ClockString | compare_plans.py:83-84 | a four-digit 'HHMM' text parses with `int()` to its value |
| ComparePlans.MoveMasterCoversDay | compare_plans.py:80-92 | under `move_master` every hour key of the day has a price. The night band answers exactly for 2300 and 0..600 |

## Left out

- HTTP and JSON are not modelled: `requests.request`, the base URL and the
  `error` check of a response. A customer-scoped call is modelled up to the
  `Request` value it would send (`Prepare`). `login` and a token-less
  `at_token` are modelled up to the headers of their `/login/` and `/at/`
  requests, whose token build can fail. Its email
  and password payload is not modelled. Response data is a parameter: the
  `/at/` token of `at_token` and the `/login/` body.
- `ElectricKiwiApi.ElectricKiwi.constructor`: the `ElectricKiwi(at_token)`
  form is not a separate member. With a non-empty token it equals
  constructing and then calling `AtToken`. With an empty or absent token it
  equals plain construction: `__init__` skips `at_token` for a falsy
  argument, so nothing is fetched.
- `password_hash` and `get_hours` are left out. One is a direct MD5 hex
  digest, the other only builds a dictionary from a response.
- `arrow` dates are kept as text. That covers `Hour`'s start/end times and
  the consumption date defaults. The `Hour` constructor's `int(interval)` and
  `bool(int(hop_allow))` conversions are taken as already done.
- MD5, AES-CBC, pyaes and base64 are not implemented. They are function
  values constrained by `Primitives.Valid()`. pyaes' `feed(m) + feed()` is
  one call.
- `random.randint`, `random.choice`, `time.time` and `urandom` are the `Draw`
  parameter. `DrawFits` assumes each draw is in the range its source produces.
- `bytes` versus `str`: a base64 result's `.decode()` is not separate
  (base64 text is `string`). Passphrases and payloads are the UTF-8 bytes
  of the text.
- `PyBase.ParseInt`: only ASCII whitespace and ASCII digits are recognised.
  Python's `int()` also accepts other Unicode whitespace and decimal digits.
- `ComparePlans.BuildDay`: `float(a) + float(b)` is an opaque `combine`
  parameter.
- `ComparePlans.HourKey` is computed over the reals. For the intervals the
  loop visits, every intermediate floating-point value is exact.
- The rest of `compare_plans.py` is left out: the outer loop over days,
  totals, daily charges, discounts, sorting and printing. These are
  floating-point sums and output.
- Only the `move_master` plan is modelled among the plan tables. The others
  are flat prices, for which `GetPrice` returns the price.
- Command-line entry points and credential files are left out. This includes
  `electrickiwi.py`'s `__main__` block and the module-level login of
  `compare_plans.py`.
