/** The platform client, `SpicClient`: logging in (reusing a stored session
    when it is still valid), counting units and listing them. Every network
    exchange, keyring read and JSON decoding is an input. */
module Spic {
  import opened Wrappers
  import opened Ints
  import opened Clock
  import opened Errors
  import opened Decimal
  import MsDate

  /** `reqwest::StatusCode::OK`, the only status the client treats as success. */
  const StatusOk: int := 200

  const SpicUnitCaller: string := "SpicUnit::from_json"
  const SpicUnitListCaller: string := "SpicUnitList::from_json"

  /** What became of a call: it returned, or an `unwrap` in it panicked. */
  datatype Outcome<+T> = Returned(value: T) | Panicked

  /** An HTTP exchange as the client sees it: `send` failed, or a status
      arrived together with the body, None when reading the body failed.
      The client reads the body only after a 200. */
  datatype Exchange<+B> = SendFailed | Replied(status: int, body: Option<B>)

  /** serde_json's verdict on a body: its error message, or the value. */
  datatype Json<+T> = Malformed(message: string) | Parsed(value: T)

  /** A session token and the instant it stops being valid. */
  datatype AuthToken = AuthToken(token: string, expiration: Instant)
  {
    /** `AuthToken::is_expired` at `now`: strictly past the expiration, so
        a token is still good at its expiration instant. */
    predicate IsExpired(now: Instant): (expired: bool)
      ensures expired <==> !(now <= expiration)
    {
      expiration < now
    }
  }

  /** A token is usable up to and including its expiration instant. */
  lemma UsableAtExpiration(t: AuthToken, now: Instant)
    ensures !t.IsExpired(now) <==> now <= t.expiration
    ensures !t.IsExpired(t.expiration) && t.IsExpired(t.expiration + 1)
  {
  }

  /** The reqwest client: the anonymous one built at start-up, or one that
      sends the `ScoutAuthorization` header with a session token. */
  datatype HttpClient = Anonymous | Authorized(token: string)

  /** Whether `HeaderValue::from_str` accepts a text: every byte is a tab or
      at least a space and not DEL. Characters beyond ASCII encode to bytes
      of 128 and up, which it accepts. */
  predicate IsHeaderValue(s: string)
  {
    forall i :: 0 <= i < |s| ==> s[i] == '\t' || (32 <= s[i] as int && s[i] as int != 127)
  }

  /** `authenticated_client`: a client carrying the token; the `unwrap` on
      the header value panics when the token is not a valid header value. */
  function AuthenticatedClient(token: string): (c: Outcome<HttpClient>)
    ensures c.Returned? <==> IsHeaderValue(token)
    ensures c.Returned? ==> c.value == Authorized(token)
  {
    if IsHeaderValue(token) then Returned(Authorized(token)) else Panicked
  }

  /** What `get_stored_auth_data` yields: the token and expiration kept in
      the keyring, or a failure of any of its steps. */
  datatype StoredAuth = ReadFailed | ReadOk(token: string, expiration: Instant)

  /** serde's verdict on a login body before the `ExpireDate` text is
      decoded: rejected, or the fields with that text still raw. */
  datatype AuthBody =
    | Unparseable
    | AuthFields(isAuthorized: bool, isAuthenticated: bool, userId: I32,
                 userName: string, sessionId: string, expireDate: string)

  datatype AuthResponse = AuthResponse(isAuthorized: bool, isAuthenticated: bool, userId: I32,
                                       userName: string, sessionId: string, expireDate: Instant)

  /** `AuthResponse::from_json`: every parse failure collapses into one
      `AuthenticationError`; an `ExpireDate` that `deserialize_ms_date`
      cannot decode panics inside the parse instead. The milliseconds become
      an instant. */
  function AuthResponseFromJson(body: AuthBody): (r: Outcome<Result<AuthResponse, SpicError>>)
    ensures r.Panicked? <==> body.AuthFields? && MsDate.DecodeMsDate(body.expireDate).None?
    ensures r.Returned? && r.value.Err? <==> body.Unparseable?
    ensures r.Returned? && r.value.Err? ==> r.value.error == AuthenticationError(UnparseableAuthResponse)
    ensures r.Returned? && r.value.Ok? ==>
      var resp := r.value.value;
      && body.AuthFields?
      && resp.isAuthorized == body.isAuthorized && resp.isAuthenticated == body.isAuthenticated
      && resp.userId == body.userId && resp.userName == body.userName && resp.sessionId == body.sessionId
      && resp.expireDate == MsDate.DecodeMsDate(body.expireDate).value * NanosPerMilli
  {
    match body
    case Unparseable => Returned(Err(AuthenticationError(UnparseableAuthResponse)))
    case AuthFields(authorized, authenticated, userId, userName, sessionId, expireText) =>
      match MsDate.DecodeMsDate(expireText)
      case None => Panicked
      case Some(ms) =>
        Returned(Ok(AuthResponse(authorized, authenticated, userId, userName, sessionId, ms * NanosPerMilli)))
  }

  /** The effects of the network half of `authenticate`: what it returns,
      the token it asks the keyring to store, the client it installs. */
  datatype LoginEffect = LoginEffect(result: Outcome<Result<bool, SpicError>>,
                                     stored: Option<AuthToken>, client: Option<HttpClient>)

  /** The login reply was a 200 whose body could be read. */
  predicate Answered(login: Exchange<AuthBody>)
  {
    login.Replied? && login.status == StatusOk && login.body.Some?
  }

  /** The login reply grants a session: a readable 200 body that parses,
      with both `IsAuthorized` and `IsAuthenticated` set. */
  predicate Grants(login: Exchange<AuthBody>)
  {
    && Answered(login)
    && login.body.value.AuthFields?
    && login.body.value.isAuthorized && login.body.value.isAuthenticated
    && MsDate.DecodeMsDate(login.body.value.expireDate).Some?
  }

  /** The login request and the handling of its reply in `authenticate`.
      The keyring write's own result is not an input: it is discarded. */
  function Login(login: Exchange<AuthBody>): (e: LoginEffect)
    ensures e.result == Returned(Ok(false)) <==> login.Replied? && login.status != StatusOk
    ensures e.result == Returned(Err(NetworkError)) <==>
      login.SendFailed? || (login.status == StatusOk && login.body.None?)
    ensures (e.result.Returned? && e.result.value.Err? && e.result.value.error.AuthenticationError?) <==>
      Answered(login) && (login.body.value.Unparseable? ||
        (MsDate.DecodeMsDate(login.body.value.expireDate).Some? &&
         !(login.body.value.isAuthorized && login.body.value.isAuthenticated)))
    ensures Answered(login) && login.body.value.Unparseable? ==>
      e.result == Returned(Err(AuthenticationError(UnparseableAuthResponse)))
    ensures (&& Answered(login) && login.body.value.AuthFields?
             && MsDate.DecodeMsDate(login.body.value.expireDate).Some?
             && !(login.body.value.isAuthorized && login.body.value.isAuthenticated)) ==>
      e.result == Returned(Err(AuthenticationError(AuthenticationFailed)))
    ensures e.stored.Some? <==> Grants(login)
    ensures e.stored.Some? ==>
      e.stored.value == AuthToken(login.body.value.sessionId,
                                  MsDate.DecodeMsDate(login.body.value.expireDate).value * NanosPerMilli)
    ensures e.result == Returned(Ok(true)) <==> e.client.Some?
    ensures e.client.Some? <==> Grants(login) && IsHeaderValue(login.body.value.sessionId)
    ensures e.client.Some? ==> e.client.value == Authorized(login.body.value.sessionId)
    ensures e.result.Panicked? <==>
      Answered(login) && login.body.value.AuthFields? &&
      (MsDate.DecodeMsDate(login.body.value.expireDate).None? || (Grants(login) && !IsHeaderValue(login.body.value.sessionId)))
  {
    match login
    case SendFailed => LoginEffect(Returned(Err(NetworkError)), None, None)
    case Replied(status, body) =>
      if status != StatusOk then LoginEffect(Returned(Ok(false)), None, None)
      else if body.None? then LoginEffect(Returned(Err(NetworkError)), None, None)
      else
        match AuthResponseFromJson(body.value)
        case Panicked => LoginEffect(Panicked, None, None)
        case Returned(Err(err)) => LoginEffect(Returned(Err(err)), None, None)
        case Returned(Ok(resp)) =>
          if resp.isAuthorized && resp.isAuthenticated then
            var granted := AuthToken(resp.sessionId, resp.expireDate);
            match AuthenticatedClient(resp.sessionId)
            case Panicked => LoginEffect(Panicked, Some(granted), None)
            case Returned(c) => LoginEffect(Returned(Ok(true)), Some(granted), Some(c))
          else
            LoginEffect(Returned(Err(AuthenticationError(AuthenticationFailed))), None, None)
  }

  /** The stored session can be reused: it was read and has not expired. */
  predicate UsableStored(stored: StoredAuth, now: Instant): (usable: bool)
    ensures usable <==> stored.ReadOk? && now <= stored.expiration
  {
    stored.ReadOk? && !AuthToken(stored.token, stored.expiration).IsExpired(now)
  }

  class SpicClient {
    var client: HttpClient
    var authToken: Option<AuthToken>

    /** `SpicClient::new`: no session yet. */
    constructor (client: HttpClient)
      ensures this.client == client && authToken == None
    {
      this.client := client;
      authToken := None;
    }

    /** `authenticate` at `now`, given what the keyring read yields and how
        the login exchange would go. A stored session that has not expired
        is reused with no request; otherwise one login request is sent.
        `authToken` is set from the keyring read alone, expired or not; a
        network login replaces only the client. `vaultWrite` is the token
        handed to `store_auth_data`. */
    method Authenticate(now: Instant, stored: StoredAuth, login: Exchange<AuthBody>)
      returns (r: Outcome<Result<bool, SpicError>>, loginSent: bool, vaultWrite: Option<AuthToken>)
      modifies this
      ensures authToken == if stored.ReadOk? then Some(AuthToken(stored.token, stored.expiration)) else old(authToken)
      ensures loginSent <==> !UsableStored(stored, now)
      ensures UsableStored(stored, now) ==>
        && vaultWrite == None
        && r == (if IsHeaderValue(stored.token) then Returned(Ok(true)) else Panicked)
        && client == (if IsHeaderValue(stored.token) then Authorized(stored.token) else old(client))
      ensures !UsableStored(stored, now) ==>
        && r == Login(login).result
        && vaultWrite == Login(login).stored
        && client == (if Login(login).client.Some? then Login(login).client.value else old(client))
    {
      loginSent, vaultWrite := false, None;
      if stored.ReadOk? {
        authToken := Some(AuthToken(stored.token, stored.expiration));
        if !authToken.value.IsExpired(now) {
          var c := AuthenticatedClient(stored.token);
          if c.Panicked? {
            r := Panicked;
            return;
          }
          client := c.value;
          r := Returned(Ok(true));
          return;
        }
      }
      loginSent := true;
      var effect := Login(login);
      r, vaultWrite := effect.result, effect.stored;
      if effect.client.Some? {
        client := effect.client.value;
      }
    }
  }

  /** `number_of_units`: a non-200 status counts as zero units; a 200 body
      must be a decimal i32 as `str::parse` reads it. */
  function NumberOfUnits(ex: Exchange<string>): (r: Result<I32, SpicError>)
    ensures ex.Replied? && ex.status != StatusOk ==> r == Ok(0)
    ensures r == Err(NetworkError) <==> ex.SendFailed? || (ex.status == StatusOk && ex.body.None?)
    ensures r == Err(ParseIntError) <==>
      ex.Replied? && ex.status == StatusOk && ex.body.Some? && ParseInt(ex.body.value, I32Min, I32Max).None?
    ensures r.Ok? && ex.Replied? && ex.status == StatusOk ==>
      ex.body.Some? && ParseInt(ex.body.value, I32Min, I32Max) == Some(r.value as int)
    ensures r.Ok? || r == Err(NetworkError) || r == Err(ParseIntError)
  {
    match ex
    case SendFailed => Err(NetworkError)
    case Replied(status, body) =>
      if status != StatusOk then Ok(0)
      else if body.None? then Err(NetworkError)
      else
        match ParseInt(body.value, I32Min, I32Max)
        case None => Err(ParseIntError)
        case Some(n) => Ok(n)
  }

  /** Every i32 rendered in decimal comes back as itself; any other
      integer is a parse error. */
  lemma NumberOfUnitsRoundTrip(n: int)
    ensures NumberOfUnits(Replied(StatusOk, Some(SignedDecimal(n)))) ==
      if I32Min <= n <= I32Max then Ok(n) else Err(ParseIntError)
  {
    ParseSignedDecimal(n, I32Min, I32Max);
  }

  /** The body "42" is 42 units. */
  lemma NumberOfUnitsFortyTwo()
    ensures NumberOfUnits(Replied(StatusOk, Some("42"))) == Ok(42)
  {
    assert ToDecimal(42) == ToDecimal(4) + [DigitChar(2)];
    assert SignedDecimal(42) == "42";
    NumberOfUnitsRoundTrip(42);
  }

  /** A body with a trailing newline is not a number. */
  lemma NumberOfUnitsRejectsNewline(body: string)
    ensures NumberOfUnits(Replied(StatusOk, Some(body + "\n"))) == Err(ParseIntError)
  {
  }

  /** A failed request and a platform reporting zero units look the same
      to the caller. */
  lemma ZeroCountIsAmbiguous(status: int, body: Option<string>)
    requires status != StatusOk
    ensures NumberOfUnits(Replied(status, body)) == NumberOfUnits(Replied(StatusOk, Some("0"))) == Ok(0)
  {
    assert SignedDecimal(0) == "0";
    NumberOfUnitsRoundTrip(0);
  }

  datatype SpicUnit = SpicUnit(
    brand: string, color: string, companyId: I32, description: string,
    garageNumber: string, model: string, name: string, olsonId: string,
    owner: string, power: string, registration: string, stateNumber: string,
    id: I32, typeId: Option<I32>, vin: string, year: string)

  /** The `{Units: [...]}` object of the unit-list endpoint. */
  datatype SpicUnitList = SpicUnitList(units: seq<SpicUnit>)

  /** `SpicUnit::from_json` and `SpicUnitList::from_json`: the decoded value,
      or a `JsonError` naming the caller and carrying serde's message. */
  function FromJson<T>(j: Json<T>, caller: string): (r: Result<T, SpicError>)
    ensures r.Ok? <==> j.Parsed?
    ensures r.Ok? ==> r.value == j.value
    ensures r.Err? ==> r.error == JsonError(caller, j.message)
  {
    match j
    case Parsed(v) => Ok(v)
    case Malformed(message) => Err(JsonError(caller, message))
  }

  /** `unit_list`: a non-200 status yields no units; a 200 body is the
      `Units` array, or a `JsonError` from `SpicUnitList::from_json`. */
  function UnitList(ex: Exchange<Json<SpicUnitList>>): (r: Result<seq<SpicUnit>, SpicError>)
    ensures ex.Replied? && ex.status != StatusOk ==> r == Ok([])
    ensures r == Err(NetworkError) <==> ex.SendFailed? || (ex.status == StatusOk && ex.body.None?)
    ensures r.Err? && r.error.JsonError? <==> ex.Replied? && ex.status == StatusOk && ex.body.Some? && ex.body.value.Malformed?
    ensures r.Err? && r.error.JsonError? ==> r.error == JsonError(SpicUnitListCaller, ex.body.value.message)
    ensures r.Ok? && ex.Replied? && ex.status == StatusOk ==> ex.body == Some(Parsed(SpicUnitList(r.value)))
    ensures r.Ok? || r.error.NetworkError? || r.error.JsonError?
  {
    match ex
    case SendFailed => Err(NetworkError)
    case Replied(status, body) =>
      if status != StatusOk then Ok([])
      else if body.None? then Err(NetworkError)
      else
        match FromJson(body.value, SpicUnitListCaller)
        case Err(e) => Err(e)
        case Ok(list) => Ok(list.units)
  }

  /** A failed request and a platform listing no units look the same to
      the caller. */
  lemma EmptyListIsAmbiguous(status: int, body: Option<Json<SpicUnitList>>)
    requires status != StatusOk
    ensures UnitList(Replied(status, body)) == UnitList(Replied(StatusOk, Some(Parsed(SpicUnitList([]))))) == Ok([])
  {
  }
}
