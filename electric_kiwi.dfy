/**
 * The API client (electrickiwi.py): the `Hour` value and its comparisons,
 * the per-request `x-token` (an OpenSSL "Salted__" envelope (`CrypotJS`) of
 * "endpoint|expiry|nonce" under a random-length prefix of the session
 * secret, with that length spliced into the base64 text at the secret's
 * offset), and the client
 * object whose secret and session id gate headers and customer calls.
 */
module ElectricKiwiApi {
  import opened Wrappers
  import opened PyBase
  import opened Primitives
  import CrypotJS

  // ------------------------------------------------------------------ Hour

  /** An hour-of-power slot; `start` and `end` keep the 'h:mm A' text. */
  datatype Hour = Hour(interval: int, start: string, end: string, hopAllow: bool)
  {
    /** `__gt__` */
    function Gt(other: Hour): (r: bool)
      ensures r ==> this != other
    {
      interval > other.interval
    }

    /** `__eq__`: equal exactly when neither is greater. */
    function Eq(other: Hour): (r: bool)
      ensures r <==> !Gt(other) && !other.Gt(this)
    {
      interval == other.interval
    }

    /** `__ne__` */
    function Ne(other: Hour): (r: bool)
      ensures r == !Eq(other)
    {
      interval != other.interval
    }

    /** `__le__` */
    function Le(other: Hour): (r: bool)
      ensures r == !Gt(other)
      ensures r <==> Eq(other) || other.Gt(this)
    {
      interval <= other.interval
    }
  }

  /** The comparisons look only at `interval`: the times and the flag never matter. */
  lemma HourComparesIntervals(a: Hour, b: Hour, a': Hour, b': Hour)
    requires a.interval == a'.interval && b.interval == b'.interval
    ensures a.Eq(b) == a'.Eq(b') && a.Ne(b) == a'.Ne(b')
    ensures a.Gt(b) == a'.Gt(b') && a.Le(b) == a'.Le(b')
  {
  }

  /** `Eq` is an equivalence and `Gt` a strict order on hours: a greater hour
      is neither equal to nor less than the other. */
  lemma HourOrder(a: Hour, b: Hour, c: Hour)
    ensures a.Eq(a) && (a.Eq(b) ==> b.Eq(a)) && (a.Eq(b) && b.Eq(c) ==> a.Eq(c))
    ensures !a.Gt(a) && (a.Gt(b) && b.Gt(c) ==> a.Gt(c))
    ensures a.Gt(b) ==> !a.Eq(b) && !b.Gt(a)
    ensures a.Gt(b) || b.Gt(a) || a.Eq(b)
  {
  }

  // ----------------------------------------------------------------- token

  const NonceAlphabet := "0123456789ABCDEF"

  /** What `_get_token` draws on: `random.randint(10, len(secret) - 2)`,
      `int(time.time())`, sixteen `random.choice` indices and `urandom(8)`. */
  datatype Draw = Draw(length: int, now: int, picks: seq<int>, salt: Bytes)

  /** The draws lie in the ranges their sources produce. */
  predicate DrawFits(d: Draw, secretLength: nat) {
    && |d.picks| == 16
    && (forall i :: 0 <= i < |d.picks| ==> 0 <= d.picks[i] < |NonceAlphabet|)
    && |d.salt| == 8
    && (secretLength >= 12 ==> 10 <= d.length <= secretLength - 2)
  }

  predicate IsNonceChar(c: char) {
    IsDigit(c) || 'A' <= c <= 'F'
  }

  /** The nonce the sixteen draws select. */
  function Nonce(picks: seq<int>): (r: string)
    requires |picks| == 16 && forall i :: 0 <= i < |picks| ==> 0 <= picks[i] < |NonceAlphabet|
    ensures |r| == 16 && forall i :: 0 <= i < |r| ==> IsNonceChar(r[i])
  {
    seq(16, i requires 0 <= i < 16 => NonceAlphabet[picks[i]])
  }

  /** `''.join(random.choice('0123456789ABCDEF') for i in range(16))` */
  method BuildNonce(picks: seq<int>) returns (nonce: string)
    requires |picks| == 16 && forall i :: 0 <= i < |picks| ==> 0 <= picks[i] < |NonceAlphabet|
    ensures nonce == Nonce(picks)
  {
    nonce := "";
    for i := 0 to 16
      invariant |nonce| == i
      invariant forall j :: 0 <= j < i ==> nonce[j] == NonceAlphabet[picks[j]]
    {
      nonce := nonce + [NonceAlphabet[picks[i]]];
    }
  }

  /** The token plaintext: endpoint, expiry 30 seconds ahead, nonce. */
  function Payload(endpoint: string, now: int, nonce: string): string {
    endpoint + "|" + IntToString(now + 30) + "|" + nonce
  }

  /** `enc[:pos] + digits + enc[pos:]`; a position of None slices nothing off
      either side, so the text appears twice. */
  function Splice(enc: string, position: Option<int>, digits: string): string {
    match position
    case None => enc + digits + enc
    case Some(p) => Take(enc, p) + digits + Drop(enc, p)
  }

  /** Removes `width` characters at index `at`. */
  function Unsplice(token: string, at: nat, width: nat): (r: string)
    requires at + width <= |token|
    ensures |r| == |token| - width
  {
    token[..at] + token[at + width..]
  }

  /** The spliced digits sit at Python's normalised index of the position
      (min(p, len) for p >= 0), and cutting them out there restores the text. */
  lemma SpliceInverse(enc: string, p: int, digits: string)
    ensures var t := Splice(enc, Some(p), digits);
      var i := SliceIndex(p, |enc|);
      && |t| == |enc| + |digits|
      && (p >= 0 ==> i == if p < |enc| then p else |enc|)
      && t[i..i + |digits|] == digits
      && Unsplice(t, i, |digits|) == enc
  {
    var t := Splice(enc, Some(p), digits);
    var i := SliceIndex(p, |enc|);
    assert t == enc[..i] + digits + enc[i..];
    assert t[..i] == enc[..i];
    assert t[i + |digits|..] == enc[i..];
    assert enc[..i] + enc[i..] == enc;
  }

  /** `_get_token(endpoint)` for a secret, its position and the draws;
      `randint` raises when the secret is shorter than 12 characters. */
  function TokenText(prims: Primitives, secret: string, position: Option<int>, endpoint: string, d: Draw): (r: Result<string, ClientError>)
    requires DrawFits(d, |secret|)
    ensures r.Err? <==> |secret| < 12
    ensures r.Err? ==> r.error == EmptyRandRange
  {
    if |secret| - 2 < 10 then Err(EmptyRandRange)
    else
      var passphrase := Utf8(secret[..d.length]);
      var enc := CrypotJS.Seal(prims, Utf8(Payload(endpoint, d.now, Nonce(d.picks))), passphrase, d.salt);
      Ok(Splice(enc, position, IntToString(d.length)))
  }

  /** A token built with a known position can be taken apart by whoever holds
      the secret: the length digits (at least two) sit at the position and
      parse back to a prefix length in [10, len(secret) - 2], and what remains
      decrypts under that prefix to the payload. The receiver must know how
      many digits to cut; `TokenLengthDigits` gives that width when the
      secret has at most 101 characters. */
  lemma TokenRecoversPayload(prims: Primitives, secret: string, p: int, endpoint: string, d: Draw)
    requires prims.Valid() && DrawFits(d, |secret|) && |secret| >= 12
    ensures TokenText(prims, secret, Some(p), endpoint, d).Ok?
    ensures var t := TokenText(prims, secret, Some(p), endpoint, d).value;
      var digits := IntToString(d.length);
      var i := SliceIndex(p, |t| - |digits|);
      && 10 <= d.length <= |secret| - 2
      && |digits| >= 2 && |t| >= |digits|
      && t[i..i + |digits|] == digits
      && ParseInt(digits) == Some(d.length)
      && CrypotJS.Open(prims, Unsplice(t, i, |digits|), Utf8(secret[..d.length]))
         == Ok(Utf8(Payload(endpoint, d.now, Nonce(d.picks))))
  {
    var digits := IntToString(d.length);
    var passphrase := Utf8(secret[..d.length]);
    var message := Utf8(Payload(endpoint, d.now, Nonce(d.picks)));
    var enc := CrypotJS.Seal(prims, message, passphrase, d.salt);
    SpliceInverse(enc, p, digits);
    ParseIntToString(d.length);
    CrypotJS.RoundTrip(prims, message, passphrase, d.salt);
  }

  /** For a secret of 12 to 101 characters every prefix length `randint` can
      draw is written with exactly two digits, so a receiver holding the secret
      knows how many characters to cut at the position. Longer secrets allow
      lengths of two and of three digits. */
  lemma TokenLengthDigits(secret: string, d: Draw)
    requires DrawFits(d, |secret|) && 12 <= |secret| <= 101
    ensures 10 <= d.length <= 99 && |IntToString(d.length)| == 2
  {
    var n := d.length;
    assert NatToString(n) == NatToString(n / 10) + [DigitChar(n % 10)];
  }

  // ---------------------------------------------------------------- client

  datatype Customer = Customer(id: string, connectionId: string)

  /** The `data` of a `/login/` response. */
  datatype LoginResponse = LoginResponse(sid: string, customers: seq<Customer>)

  datatype ClientError =
    | PositionNotInteger  // int(at_token[:2]) raised ValueError
    | EmptyRandRange      // random.randint(10, len(secret) - 2) raised ValueError
    | CustomerIndex       // data['customer'][customer_index] raised IndexError
    | LoginRequired       // ElectricException('You need to login first')
    | NoCustomer          // self._customer is None: TypeError on ['id']

  datatype Verb = Get | Post

  /** The customer-scoped calls. */
  datatype CustomerCall =
    | Consumption(startDate: string, endDate: string)
    | RunningBalance
    | ConnectionDetails
    | GetHopHour
    | SetHopHour(interval: int)

  /** What `request` hands to the HTTP layer. */
  datatype Request = Request(verb: Verb, endpoint: string, headers: map<string, string>, params: map<string, int>)

  function CallPath(call: CustomerCall, c: Customer): string {
    match call
    case Consumption(startDate, endDate) =>
      "/consumption/averages/" + c.id + "/" + c.connectionId + "/?start_date=" + startDate
        + "&end_date=" + endDate + "&group_by=day"
    case RunningBalance => "/account/running_balance/" + c.id + "/"
    case ConnectionDetails => "/connection/details/" + c.id + "/" + c.connectionId + "/"
    case GetHopHour => "/hop/" + c.id + "/" + c.connectionId + "/"
    case SetHopHour(_) => "/hop/" + c.id + "/" + c.connectionId + "/"
  }

  function CallVerb(call: CustomerCall): Verb {
    if call.SetHopHour? then Post else Get
  }

  function CallParams(call: CustomerCall): map<string, int> {
    if call.SetHopHour? then map["start" := call.interval] else map[]
  }

  class ElectricKiwi {
    var secret: Option<string>
    var secretPosition: Option<int>
    var sid: Option<string>
    var customer: Option<Customer>

    /** `ElectricKiwi()`: every field starts as None. */
    constructor ()
      ensures secret.None? && secretPosition.None? && sid.None? && customer.None?
    {
      secret, secretPosition, sid, customer := None, None, None, None;
    }

    /** `if self._secret:` */
    predicate HoldsSecret()
      reads this
    {
      secret.Some? && secret.value != []
    }

    /** `if self._sid:` */
    predicate LoggedIn()
      reads this
    {
      sid.Some? && sid.value != []
    }

    /** `at_token(at_token)`; `fetched` stands for the token of the `/at/`
        response, used only when `atToken` is empty. That request's headers
        are built first, so a held secret that is too short raises before
        anything is stored. The secret is stored before the position is
        parsed, so a bad position leaves the new secret behind. */
    method AtToken(prims: Primitives, atToken: string, fetched: string, d: Draw) returns (r: Result<string, ClientError>)
      requires prims.Valid() && DrawFits(d, if secret.Some? then |secret.value| else 0)
      modifies this
      ensures atToken == [] && old(HoldsSecret() && |secret.value| < 12) ==>
        r == Err(EmptyRandRange) && secret == old(secret) && secretPosition == old(secretPosition)
      ensures !(atToken == [] && old(HoldsSecret() && |secret.value| < 12)) ==>
        var t := if atToken == [] then fetched else atToken;
        && secret == Some(Slice(t, 2, -2))
        && (ParseInt(Take(t, 2)).Some? ==> secretPosition == ParseInt(Take(t, 2)) && r == Ok(t))
        && (ParseInt(Take(t, 2)).None? ==> secretPosition == old(secretPosition) && r == Err(PositionNotInteger))
      ensures sid == old(sid) && customer == old(customer)
    {
      if atToken == [] {
        var headers := Headers(prims, "/at/", d);
        if headers.Err? {
          return Err(headers.error);
        }
      }
      var t := if atToken == [] then fetched else atToken;
      secret := Some(Slice(t, 2, -2));
      var position := ParseInt(Take(t, 2));
      if position.None? {
        return Err(PositionNotInteger);
      }
      secretPosition := position;
      r := Ok(t);
    }

    /** `login(email, password_hash, customer_index)`, `response` being what the
        `/login/` request returns. The request's headers are built first, so a
        held secret that is too short raises before anything is stored; then
        the session id is stored before the customer is indexed (Python
        indexing, negative from the end). */
    method Login(prims: Primitives, response: LoginResponse, customerIndex: int, d: Draw) returns (r: Result<Customer, ClientError>)
      requires prims.Valid() && DrawFits(d, if secret.Some? then |secret.value| else 0)
      modifies this
      ensures old(HoldsSecret() && |secret.value| < 12) ==>
        r == Err(EmptyRandRange) && sid == old(sid) && customer == old(customer)
      ensures !old(HoldsSecret() && |secret.value| < 12) ==>
        && sid == Some(response.sid)
        && var n := |response.customers|;
           if -n <= customerIndex < n then
             var c := response.customers[if customerIndex < 0 then n + customerIndex else customerIndex];
             customer == Some(c) && r == Ok(c)
           else customer == old(customer) && r == Err(CustomerIndex)
      ensures secret == old(secret) && secretPosition == old(secretPosition)
    {
      var headers := Headers(prims, "/login/", d);
      if headers.Err? {
        return Err(headers.error);
      }
      sid := Some(response.sid);
      var n := |response.customers|;
      if !(-n <= customerIndex < n) {
        return Err(CustomerIndex);
      }
      var c := response.customers[if customerIndex < 0 then n + customerIndex else customerIndex];
      customer := Some(c);
      r := Ok(c);
    }

    /** `_require_login()`: raises exactly when no session id is held. */
    method RequireLogin() returns (r: Outcome<ClientError>)
      ensures r.Fail? <==> !LoggedIn()
      ensures r.Fail? ==> r.error == LoginRequired
    {
      if !(sid.Some? && sid.value != []) {
        return Fail(LoginRequired);
      }
      r := Pass;
    }

    /** `_get_token(endpoint)` */
    method GetToken(prims: Primitives, endpoint: string, d: Draw) returns (r: Result<string, ClientError>)
      requires prims.Valid() && secret.Some? && DrawFits(d, |secret.value|)
      ensures r == TokenText(prims, secret.value, secretPosition, endpoint, d)
    {
      var s := secret.value;
      if |s| - 2 < 10 {
        return Err(EmptyRandRange);
      }
      var length := d.length;
      var key := s[..length];
      var nonce := BuildNonce(d.picks);
      var data := Payload(endpoint, d.now, nonce);
      var encrypted := CrypotJS.Encrypt(prims, Utf8(data), Utf8(key), d.salt);
      var digits := IntToString(length);
      match secretPosition
      case None =>
        r := Ok(encrypted + digits + encrypted);
      case Some(p) =>
        r := Ok(Take(encrypted, p) + digits + Drop(encrypted, p));
    }

    /** The header map `request` sends for `endpoint`. */
    ghost predicate HeadersFor(h: map<string, string>, prims: Primitives, endpoint: string, d: Draw)
      reads this
    {
      && h.Keys == {"x-client", "x-apiversion"}
           + (if HoldsSecret() then {"x-token"} else {})
           + (if LoggedIn() then {"x-sid"} else {})
      && h["x-client"] == "ek-app"
      && h["x-apiversion"] == "1_0"
      && (HoldsSecret() && DrawFits(d, |secret.value|) ==>
            TokenText(prims, secret.value, secretPosition, endpoint, d) == Ok(h["x-token"]))
      && (LoggedIn() ==> h["x-sid"] == sid.value)
    }

    /** The headers of `request(endpoint)`: the two fixed ones always, `x-token`
        exactly when a non-empty secret is held, `x-sid` exactly when a session
        id is. Building the token raises when the secret is too short. */
    method Headers(prims: Primitives, endpoint: string, d: Draw) returns (r: Result<map<string, string>, ClientError>)
      requires prims.Valid() && DrawFits(d, if secret.Some? then |secret.value| else 0)
      ensures r.Err? <==> HoldsSecret() && |secret.value| < 12
      ensures r.Err? ==> r.error == EmptyRandRange
      ensures r.Ok? ==> HeadersFor(r.value, prims, endpoint, d)
      ensures r.Ok? ==> ("x-token" in r.value <==> HoldsSecret()) && ("x-sid" in r.value <==> LoggedIn())
    {
      var headers := map["x-client" := "ek-app", "x-apiversion" := "1_0"];
      if secret.Some? && secret.value != [] {
        var token := GetToken(prims, endpoint, d);
        if token.Err? {
          return Err(token.error);
        }
        headers := headers["x-token" := token.value];
      }
      if sid.Some? && sid.value != [] {
        headers := headers["x-sid" := sid.value];
      }
      r := Ok(headers);
    }

    /** A customer-scoped call up to the HTTP request: `_require_login()` comes
        first, so without a session nothing else is attempted. */
    method Prepare(prims: Primitives, call: CustomerCall, d: Draw) returns (r: Result<Request, ClientError>)
      requires prims.Valid() && DrawFits(d, if secret.Some? then |secret.value| else 0)
      ensures r == Err(LoginRequired) <==> !LoggedIn()
      ensures LoggedIn() && customer.None? ==> r == Err(NoCustomer)
      ensures LoggedIn() && customer.Some? ==> (r.Err? <==> HoldsSecret() && |secret.value| < 12)
      ensures r.Ok? ==> && customer.Some?
                        && r.value.verb == CallVerb(call)
                        && r.value.endpoint == CallPath(call, customer.value)
                        && r.value.params == CallParams(call)
                        && HeadersFor(r.value.headers, prims, r.value.endpoint, d)
    {
      var login := RequireLogin();
      if login.Fail? {
        return Err(login.error);
      }
      if customer.None? {
        return Err(NoCustomer);
      }
      var endpoint := CallPath(call, customer.value);
      var headers := Headers(prims, endpoint, d);
      if headers.Err? {
        return Err(headers.error);
      }
      r := Ok(Request(CallVerb(call), endpoint, headers.value, CallParams(call)));
    }
  }

  /** A bootstrap token of at least four characters starting with two digits
      leaves the middle as the secret and an offset in 0..99. */
  lemma AtTokenFields(t: string)
    requires |t| >= 4 && IsDigit(t[0]) && IsDigit(t[1])
    ensures Slice(t, 2, -2) == t[2..|t| - 2]
    ensures ParseInt(Take(t, 2)) == Some(10 * DigitValue(t[0]) + DigitValue(t[1]))
    ensures 0 <= 10 * DigitValue(t[0]) + DigitValue(t[1]) <= 99
  {
    MiddleSlice(t);
    var p := Take(t, 2);
    TakeTwo(t);
    ParseTwoDigits(p, 10 * DigitValue(t[0]) + DigitValue(t[1]));
  }

  lemma MiddleSlice(t: string)
    requires |t| >= 4
    ensures Slice(t, 2, -2) == t[2..|t| - 2]
  {
    assert SliceIndex(2, |t|) == 2 && SliceIndex(-2, |t|) == |t| - 2;
  }

  lemma TakeTwo(t: string)
    requires |t| >= 2
    ensures |Take(t, 2)| == 2 && Take(t, 2)[0] == t[0] && Take(t, 2)[1] == t[1]
  {
    assert SliceIndex(2, |t|) == 2;
  }
}
