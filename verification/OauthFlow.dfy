/**
 The OAuth client login: cookies of the authorize step, the callback checks and the exits
 (apps/gateway/src/oauth.rs, apps/gateway/src/oauth_flow.rs), run against a browser's jar.
 */
module OauthFlow {
  import opened Wrappers
  import opened Strings
  import opened Cookie
  import opened SetCookie

  const OAUTH_COOKIE_MAX_AGE: nat := 300
  const ACCESS_TOKEN_MAX_AGE_SEC: nat := 3600
  const REFRESH_TOKEN_MAX_AGE_SEC: nat := 604800

  ghost predicate GoodName(name: string)
  {
    PlainName(name) && ProperName(name)
  }

  /** The four temporary cookies, by name. */
  datatype TempNames = TempNames(verifier: string, state: string, nonce: string, returnTo: string)
  {
    predicate Has(name: string)
    {
      name == verifier || name == state || name == nonce || name == returnTo
    }

    ghost predicate Proper()
    {
      && GoodName(verifier) && GoodName(state) && GoodName(nonce) && GoodName(returnTo)
      && verifier != state && verifier != nonce && verifier != returnTo
      && state != nonce && state != returnTo && nonce != returnTo
    }
  }

  const PORTAL_TEMP := TempNames("pkce_verifier", "oauth_state", "oauth_nonce", "return_to")

  lemma PortalTempIsProper()
    ensures PORTAL_TEMP.Proper()
  {
    VerifierNameIsGood();
    StateNameIsGood();
    NonceNameIsGood();
    ReturnToNameIsGood();
    PortalNamesDiffer();
  }

  lemma VerifierNameIsGood()
    ensures GoodName(PORTAL_TEMP.verifier) && |PORTAL_TEMP.verifier| == 13
  {
  }

  lemma StateNameIsGood()
    ensures GoodName(PORTAL_TEMP.state) && |PORTAL_TEMP.state| == 11
  {
  }

  lemma NonceNameIsGood()
    ensures GoodName(PORTAL_TEMP.nonce) && |PORTAL_TEMP.nonce| == 11
  {
  }

  lemma ReturnToNameIsGood()
    ensures GoodName(PORTAL_TEMP.returnTo) && |PORTAL_TEMP.returnTo| == 9
  {
  }

  lemma PortalNamesDiffer()
    ensures PORTAL_TEMP.state != PORTAL_TEMP.nonce
  {
    assert PORTAL_TEMP.state[6] == 's' && PORTAL_TEMP.nonce[6] == 'n';
  }

  /** What is fixed during a login run. */
  datatype Env = Env(temp: TempNames, session: SessionNames, callbackPath: string, site: Site)
  {
    ghost predicate Valid()
    {
      && temp.Proper()
      && GoodName(session.access) && GoodName(session.refresh) && session.access != session.refresh
      && !temp.Has(session.access) && !temp.Has(session.refresh)
      && PlainPath(callbackPath)
    }
  }

  datatype OAuthState = OAuthState(codeVerifier: string, state: string, nonce: string, returnTo: string)

  datatype Tokens = Tokens(access: string, refresh: string, idToken: Option<string>)

  // ---- Cookie builders ----

  function BuildOauthCookies(env: Env, st: OAuthState, secure: bool): seq<string>
  {
    [ BuildSetCookie(env.temp.verifier, st.codeVerifier, OAUTH_COOKIE_MAX_AGE, env.callbackPath, secure),
      BuildSetCookie(env.temp.state, st.state, OAUTH_COOKIE_MAX_AGE, env.callbackPath, secure),
      BuildSetCookie(env.temp.nonce, st.nonce, OAUTH_COOKIE_MAX_AGE, env.callbackPath, secure),
      BuildSetCookie(env.temp.returnTo, st.returnTo, OAUTH_COOKIE_MAX_AGE, env.callbackPath, secure) ]
  }

  function BuildSessionCookies(session: SessionNames, access: string, refresh: string, secure: bool): seq<string>
  {
    [ BuildSetCookie(session.access, access, ACCESS_TOKEN_MAX_AGE_SEC, "/", secure),
      BuildSetCookie(session.refresh, refresh, REFRESH_TOKEN_MAX_AGE_SEC, "/", secure) ]
  }

  function BuildClearOauthCookies(env: Env, secure: bool): seq<string>
  {
    [ BuildClearCookie(env.temp.verifier, env.callbackPath, secure),
      BuildClearCookie(env.temp.state, env.callbackPath, secure),
      BuildClearCookie(env.temp.nonce, env.callbackPath, secure),
      BuildClearCookie(env.temp.returnTo, env.callbackPath, secure) ]
  }

  /** Where the gateway's own cookies live: under the host itself. */
  function TempKey(env: Env, name: string): Key
  {
    Key(name, env.site.host, env.callbackPath)
  }

  function PutTemp(env: Env, jar: Jar, name: string, value: string, now: int): Jar
  {
    Put(env.site, jar, name, value, OAUTH_COOKIE_MAX_AGE, env.callbackPath, now)
  }

  /** The jar after the four temporary cookies of an authorize step. */
  function WithTemp(env: Env, jar: Jar, st: OAuthState, now: int): Jar
  {
    var j1 := PutTemp(env, jar, env.temp.verifier, st.codeVerifier, now);
    var j2 := PutTemp(env, j1, env.temp.state, st.state, now);
    var j3 := PutTemp(env, j2, env.temp.nonce, st.nonce, now);
    PutTemp(env, j3, env.temp.returnTo, st.returnTo, now)
  }

  lemma {:induction false} ReceiveTemp(env: Env, jar: Jar, name: string, value: string, secure: bool,
                                       defaultPath: string, now: int)
    requires env.Valid() && PlainName(name)
    ensures Receive(env.site, jar, [BuildSetCookie(name, value, OAUTH_COOKIE_MAX_AGE, env.callbackPath, secure)],
                    defaultPath, now) ==
            PutTemp(env, jar, name, value, now)
  {
    ReceiveSet(env.site, jar, name, value, OAUTH_COOKIE_MAX_AGE, env.callbackPath, secure, defaultPath, now);
  }

  lemma {:induction false} ReceiveFour(site: Site, jar: Jar, c: seq<string>, defaultPath: string, now: int)
    requires |c| == 4
    ensures var j1 := Receive(site, jar, [c[0]], defaultPath, now);
            var j2 := Receive(site, j1, [c[1]], defaultPath, now);
            var j3 := Receive(site, j2, [c[2]], defaultPath, now);
            Receive(site, jar, c, defaultPath, now) == Receive(site, j3, [c[3]], defaultPath, now)
  {
    var j1 := Receive(site, jar, [c[0]], defaultPath, now);
    var j2 := Receive(site, j1, [c[1]], defaultPath, now);
    assert c == [c[0]] + ([c[1]] + ([c[2]] + [c[3]]));
    ReceiveConcat(site, jar, [c[0]], [c[1]] + ([c[2]] + [c[3]]), defaultPath, now);
    ReceiveConcat(site, j1, [c[1]], [c[2]] + [c[3]], defaultPath, now);
    ReceiveConcat(site, j2, [c[2]], [c[3]], defaultPath, now);
  }

  lemma {:induction false} ReceiveOauthCookies(env: Env, jar: Jar, st: OAuthState, secure: bool, defaultPath: string,
                                               now: int)
    requires env.Valid()
    ensures Receive(env.site, jar, BuildOauthCookies(env, st, secure), defaultPath, now) == WithTemp(env, jar, st, now)
  {
    var j1 := PutTemp(env, jar, env.temp.verifier, st.codeVerifier, now);
    var j2 := PutTemp(env, j1, env.temp.state, st.state, now);
    var j3 := PutTemp(env, j2, env.temp.nonce, st.nonce, now);
    ReceiveFour(env.site, jar, BuildOauthCookies(env, st, secure), defaultPath, now);
    ReceiveTemp(env, jar, env.temp.verifier, st.codeVerifier, secure, defaultPath, now);
    ReceiveTemp(env, j1, env.temp.state, st.state, secure, defaultPath, now);
    ReceiveTemp(env, j2, env.temp.nonce, st.nonce, secure, defaultPath, now);
    ReceiveTemp(env, j3, env.temp.returnTo, st.returnTo, secure, defaultPath, now);
  }

  /** The jar after a new pair of session cookies. */
  function WithSession(session: SessionNames, site: Site, jar: Jar, access: string, refresh: string, now: int): Jar
  {
    Put(site, Put(site, jar, session.access, access, 3600, "/", now),
        session.refresh, refresh, 604800, "/", now)
  }

  lemma {:induction false} ReceiveSessionCookies(session: SessionNames, site: Site, jar: Jar, access: string,
                                                 refresh: string, secure: bool, defaultPath: string, now: int)
    requires PlainName(session.access) && PlainName(session.refresh)
    ensures Receive(site, jar, BuildSessionCookies(session, access, refresh, secure), defaultPath, now) ==
            WithSession(session, site, jar, access, refresh, now)
  {
    var cookies := BuildSessionCookies(session, access, refresh, secure);
    assert cookies == [cookies[0]] + [cookies[1]];
    ReceiveConcat(site, jar, [cookies[0]], [cookies[1]], defaultPath, now);
    ReceiveSet(site, jar, session.access, access, ACCESS_TOKEN_MAX_AGE_SEC, "/", secure, defaultPath, now);
    var j1 := Put(site, jar, session.access, access, ACCESS_TOKEN_MAX_AGE_SEC, "/", now);
    ReceiveSet(site, j1, session.refresh, refresh, REFRESH_TOKEN_MAX_AGE_SEC, "/", secure, defaultPath, now);
  }

  function TempKeys(env: Env): set<Key>
  {
    { TempKey(env, env.temp.verifier), TempKey(env, env.temp.state), TempKey(env, env.temp.nonce),
      TempKey(env, env.temp.returnTo) }
  }

  lemma {:induction false} ReceiveClearCookies(env: Env, jar: Jar, secure: bool, defaultPath: string, now: int)
    requires env.Valid()
    ensures Receive(env.site, jar, BuildClearOauthCookies(env, secure), defaultPath, now) == jar - TempKeys(env)
  {
    var j1 := jar - {TempKey(env, env.temp.verifier)};
    var j2 := j1 - {TempKey(env, env.temp.state)};
    var j3 := j2 - {TempKey(env, env.temp.nonce)};
    ReceiveFour(env.site, jar, BuildClearOauthCookies(env, secure), defaultPath, now);
    ReceiveClear(env.site, jar, env.temp.verifier, env.callbackPath, secure, defaultPath, now);
    ReceiveClear(env.site, j1, env.temp.state, env.callbackPath, secure, defaultPath, now);
    ReceiveClear(env.site, j2, env.temp.nonce, env.callbackPath, secure, defaultPath, now);
    ReceiveClear(env.site, j3, env.temp.returnTo, env.callbackPath, secure, defaultPath, now);
    RemoveFour(env, jar);
  }

  lemma RemoveFour(env: Env, jar: Jar)
    ensures jar - {TempKey(env, env.temp.verifier)} - {TempKey(env, env.temp.state)} - {TempKey(env, env.temp.nonce)}
            - {TempKey(env, env.temp.returnTo)} == jar - TempKeys(env)
  {
  }

  // ---- Callback interception ----

  datatype CallbackOutcome = NotIntercepted | Denied | Handle(code: string, state: string)

  function FindParam(pairs: seq<string>, key: string): Option<string>
  {
    if pairs == [] then None
    else
      match StripPrefix(pairs[0], key)
      case None => FindParam(pairs[1..], key)
      case Some(rest) =>
        match StripPrefix(rest, "=")
        case None => FindParam(pairs[1..], key)
        case Some(value) => Some(value)
  }

  function QueryParam(query: string, key: string): Option<string>
  {
    FindParam(Split(query, '&'), key)
  }

  predicate IsCallback(path: string, callbackPath: string)
  {
    match StripPrefix(path, callbackPath)
    case None => false
    case Some(rest) => rest == "" || rest[0] == '/'
  }

  function Intercept(path: string, query: string, callbackPath: string): CallbackOutcome
  {
    if !IsCallback(path, callbackPath) then NotIntercepted
    else if QueryParam(query, "error").Some? then Denied
    else
      match (QueryParam(query, "code"), QueryParam(query, "state"))
      case (Some(code), Some(state)) => Handle(code, state)
      case _ => NotIntercepted
  }

  /** The first `key=` parameter of the query has this value. */
  ghost predicate HasParam(query: string, key: string, value: string)
  {
    exists k: nat :: FirstParam(Split(query, '&'), key, k) && Split(query, '&')[k] == key + "=" + value
  }

  ghost predicate FirstParam(pairs: seq<string>, key: string, k: nat)
  {
    k < |pairs| && key + "=" <= pairs[k] && forall i | 0 <= i < k :: !(key + "=" <= pairs[i])
  }

  lemma FirstParamUnfolds(pairs: seq<string>, key: string, k: nat)
    requires pairs != [] && !(key + "=" <= pairs[0])
    ensures FirstParam(pairs, key, k) <==> k > 0 && FirstParam(pairs[1..], key, k - 1)
  {
    if k > 0 && FirstParam(pairs[1..], key, k - 1) {
      forall i | 0 <= i < k ensures !(key + "=" <= pairs[i]) {
        assert i > 0 ==> pairs[i] == pairs[1..][i - 1];
      }
    }
    if FirstParam(pairs, key, k) {
      assert k > 0;
      forall i | 0 <= i < k - 1 ensures !(key + "=" <= pairs[1..][i]) {
        assert pairs[1..][i] == pairs[i + 1];
      }
    }
  }

  lemma {:induction false} FindParamIsFirst(pairs: seq<string>, key: string)
    ensures FindParam(pairs, key).Some? <==> exists k: nat :: FirstParam(pairs, key, k)
    ensures forall k: nat | FirstParam(pairs, key, k) ::
              FindParam(pairs, key).Some? && pairs[k] == key + "=" + FindParam(pairs, key).value
  {
    if pairs == [] {
    } else {
      FindParamIsFirst(pairs[1..], key);
      OneParam(pairs[0], key);
      if key + "=" <= pairs[0] {
        assert FirstParam(pairs, key, 0);
        assert forall k: nat | FirstParam(pairs, key, k) :: k == 0;
      } else {
        forall k: nat ensures FirstParam(pairs, key, k) <==> k > 0 && FirstParam(pairs[1..], key, k - 1) {
          FirstParamUnfolds(pairs, key, k);
        }
        if k: nat :| FirstParam(pairs[1..], key, k) {
          assert FirstParam(pairs, key, k + 1);
        }
      }
    }
  }

  lemma OneParam(pair: string, key: string)
    ensures key + "=" <= pair <==> StripPrefix(pair, key).Some? && StripPrefix(StripPrefix(pair, key).value, "=").Some?
    ensures key + "=" <= pair ==> pair == key + "=" + StripPrefix(StripPrefix(pair, key).value, "=").value
  {
    if key + "=" <= pair {
      assert pair[..|key|] == (key + "=")[..|key|] == key;
      assert pair[|key|..][0] == (key + "=")[|key|];
    }
    if key <= pair && "=" <= pair[|key|..] {
      assert pair == key + "=" + pair[|key|..][1..];
    }
  }

  /**
   A request is the callback below its path, unless `code` or `state` is missing; an `error` parameter makes it
   a refusal whatever else it carries.
   */
  lemma InterceptedIs(path: string, query: string, callbackPath: string)
    ensures var callback := path == callbackPath || callbackPath + "/" <= path;
            var error := exists v :: HasParam(query, "error", v);
            && (Intercept(path, query, callbackPath) == Denied <==> callback && error)
            && forall code, state ::
                 Intercept(path, query, callbackPath) == Handle(code, state) <==>
                 callback && !error && HasParam(query, "code", code) && HasParam(query, "state", state)
  {
    CallbackPaths(path, callbackPath);
    ParamIsFound(query, "error");
    ParamIsFound(query, "code");
    ParamIsFound(query, "state");
  }

  lemma CallbackPaths(path: string, callbackPath: string)
    ensures IsCallback(path, callbackPath) <==> path == callbackPath || callbackPath + "/" <= path
  {
    if callbackPath <= path {
      var rest := path[|callbackPath|..];
      assert path == callbackPath + rest;
      if rest != "" && rest[0] == '/' {
        assert path[..|callbackPath| + 1] == callbackPath + "/";
      }
    }
    if callbackPath + "/" <= path {
      assert path[|callbackPath|] == (callbackPath + "/")[|callbackPath|];
    }
  }

  lemma ParamIsFound(query: string, key: string)
    ensures forall v :: QueryParam(query, key) == Some(v) <==> HasParam(query, key, v)
    ensures QueryParam(query, key).Some? <==> exists v :: HasParam(query, key, v)
  {
    var pairs := Split(query, '&');
    FindParamIsFirst(pairs, key);
    if QueryParam(query, key).Some? {
      var k: nat :| FirstParam(pairs, key, k);
      assert HasParam(query, key, QueryParam(query, key).value);
    }
    forall v | HasParam(query, key, v) ensures QueryParam(query, key) == Some(v) {
      var k: nat :| FirstParam(pairs, key, k) && pairs[k] == key + "=" + v;
      SameRest(key + "=", v, QueryParam(query, key).value);
    }
  }

  lemma SameRest(front: string, a: string, b: string)
    requires front + a == front + b
    ensures a == b
  {
    assert (front + a)[|front|..] == a && (front + b)[|front|..] == b;
  }

  /** The browser sends the temporary cookies on every path the gateway treats as the callback. */
  lemma CallbackReceivesCookies(path: string, callbackPath: string)
    requires IsCallback(path, callbackPath)
    ensures PathMatch(path, callbackPath)
  {
  }

  // ---- The check sequence ----

  datatype Reason = InvalidState | CsrfMismatch | TokenExchangeFailed | NonceMismatch

  datatype CallbackCheck =
    | RedirectToLogin(reason: Reason)
    | Proceed(verifier: string, nonce: Option<string>, returnTo: string)

  predicate StateMatches(cookieState: Option<string>, queryState: string)
  {
    queryState != "" && cookieState == Some(queryState)
  }

  predicate NonceMatches(cookieNonce: Option<string>, idTokenNonce: Option<string>)
  {
    match (cookieNonce, idTokenNonce)
    case (Some(cookie), Some(id)) => cookie == id
    case (None, None) => true
    case _ => false
  }

  /** `safe` stands for the same-origin URL check, whose parser is not modelled. */
  function ReturnTarget(stored: Option<string>, safe: string -> Option<string>): string
  {
    if stored.Some? && safe(stored.value).Some? then safe(stored.value).value else "/"
  }

  function CheckCallback(env: Env, header: Option<string>, stateParam: string, safe: string -> Option<string>)
    : CallbackCheck
  {
    match header
    case None => RedirectToLogin(InvalidState)
    case Some(cookies) =>
      if !StateMatches(ExtractFromHeader(cookies, env.temp.state), stateParam) then RedirectToLogin(CsrfMismatch)
      else
        match ExtractFromHeader(cookies, env.temp.verifier)
        case None => RedirectToLogin(InvalidState)
        case Some(verifier) =>
          Proceed(verifier, ExtractFromHeader(cookies, env.temp.nonce),
                  ReturnTarget(ExtractFromHeader(cookies, env.temp.returnTo), safe))
  }

  // ---- Token exchange ----

  /** A parsed JSON body: each field is `Some` when it is a string. */
  datatype TokenJson = TokenJson(access: Option<string>, refresh: Option<string>, idToken: Option<string>)

  datatype ExchangeAttempt = Transport | Status(code: nat) | Body(json: TokenJson)

  datatype ExchangeStep = RetryNextNode | Reject(status: nat) | Parsed(tokens: Tokens)

  datatype ExchangeError = HttpStatus(status: nat)

  function ParseTokens(json: TokenJson): Option<Tokens>
  {
    if json.access.Some? && json.access.value != "" && json.refresh.Some? && json.refresh.value != ""
    then Some(Tokens(json.access.value, json.refresh.value, json.idToken))
    else None
  }

  function DecideExchange(attempt: ExchangeAttempt): ExchangeStep
  {
    match attempt
    case Transport => RetryNextNode
    case Status(code) => Reject(code)
    case Body(json) =>
      match ParseTokens(json)
      case Some(tokens) => Parsed(tokens)
      case None => Reject(502)
  }

  /** Whether node `k` is the first that answered at all. */
  ghost predicate FirstAnswer(attempts: seq<ExchangeAttempt>, k: nat)
  {
    k < |attempts| && attempts[k] != Transport && forall i | 0 <= i < k :: attempts[i] == Transport
  }

  function Exchanged(attempts: seq<ExchangeAttempt>): Result<Tokens, ExchangeError>
  {
    if attempts == [] then Err(HttpStatus(502))
    else
      match DecideExchange(attempts[0])
      case RetryNextNode => Exchanged(attempts[1..])
      case Reject(status) => Err(HttpStatus(status))
      case Parsed(tokens) => Ok(tokens)
  }

  /** Walks the nodes; `asked` counts the nodes contacted. */
  method Exchange(attempts: seq<ExchangeAttempt>) returns (result: Result<Tokens, ExchangeError>, asked: nat)
    ensures result == Exchanged(attempts)
    ensures asked <= |attempts|
    ensures forall i | 0 <= i < asked - 1 :: attempts[i] == Transport
    ensures asked < |attempts| ==> asked > 0 && FirstAnswer(attempts, asked - 1)
  {
    asked := 0;
    while asked < |attempts|
      invariant 0 <= asked <= |attempts|
      invariant forall i | 0 <= i < asked :: attempts[i] == Transport
      invariant Exchanged(attempts[asked..]) == Exchanged(attempts)
    {
      var step := DecideExchange(attempts[asked]);
      assert attempts[asked..][1..] == attempts[asked + 1..];
      asked := asked + 1;
      match step {
        case RetryNextNode =>
        case Reject(status) => return Err(HttpStatus(status)), asked;
        case Parsed(tokens) => return Ok(tokens), asked;
      }
    }
    result := Err(HttpStatus(502));
  }

  /** A 2xx body that holds both tokens as non-empty strings. */
  predicate Usable(attempt: ExchangeAttempt)
  {
    match attempt
    case Body(TokenJson(Some(access), Some(refresh), _)) => access != "" && refresh != ""
    case _ => false
  }

  /** The outcome when node `k` is the first that answers. */
  function OutcomeOf(attempt: ExchangeAttempt): Result<Tokens, ExchangeError>
  {
    match attempt
    case Body(TokenJson(Some(access), Some(refresh), idToken)) =>
      if access != "" && refresh != "" then Ok(Tokens(access, refresh, idToken)) else Err(HttpStatus(502))
    case Status(code) => Err(HttpStatus(code))
    case _ => Err(HttpStatus(502))
  }

  /**
   The first node that answers decides: its tokens from a usable 2xx body, its error status, or 502 for an unusable
   body; also 502 when none answers.
   */
  lemma {:induction false} ExchangedFromFirstAnswer(attempts: seq<ExchangeAttempt>)
    ensures forall k: nat | FirstAnswer(attempts, k) :: Exchanged(attempts) == OutcomeOf(attempts[k])
    ensures (forall i | 0 <= i < |attempts| :: attempts[i] == Transport) ==> Exchanged(attempts) == Err(HttpStatus(502))
    ensures Exchanged(attempts).Ok? <==> exists k: nat :: FirstAnswer(attempts, k) && Usable(attempts[k])
  {
    if attempts == [] {
    } else {
      var rest := attempts[1..];
      ExchangedFromFirstAnswer(rest);
      if attempts[0] == Transport {
        assert forall k: nat | k > 0 :: FirstAnswer(attempts, k) <==> FirstAnswer(rest, k - 1);
        assert !FirstAnswer(attempts, 0);
        if Exchanged(attempts).Ok? {
          var k: nat :| FirstAnswer(rest, k) && Usable(rest[k]);
          assert FirstAnswer(attempts, k + 1);
        }
      } else {
        assert FirstAnswer(attempts, 0);
        assert forall k: nat :: FirstAnswer(attempts, k) ==> k == 0;
      }
    }
  }

  // ---- The callback handler ----

  datatype Location = LoginError(reason: Reason) | LoginDenied | ReturnTo(target: string) | AuthorizePage

  datatype Response = Response(location: Location, setCookies: seq<string>)

  const SECURE := true

  function OauthErrorRedirect(env: Env, reason: Reason): Response
  {
    Response(LoginError(reason), BuildClearOauthCookies(env, SECURE))
  }

  /** `decodeNonce` reads the nonce claim of an ID token; the JWT encoding is not modelled. */
  function IdNonce(tokens: Tokens, decodeNonce: string -> Option<string>): Option<string>
  {
    if tokens.idToken.Some? then decodeNonce(tokens.idToken.value) else None
  }

  function HandleOauthCallback(env: Env, header: Option<string>, stateParam: string, attempts: seq<ExchangeAttempt>,
                               safe: string -> Option<string>, decodeNonce: string -> Option<string>): Response
  {
    match CheckCallback(env, header, stateParam, safe)
    case RedirectToLogin(reason) => OauthErrorRedirect(env, reason)
    case Proceed(verifier, cookieNonce, returnTo) =>
      match Exchanged(attempts)
      case Err(_) => OauthErrorRedirect(env, TokenExchangeFailed)
      case Ok(tokens) =>
        if !NonceMatches(cookieNonce, IdNonce(tokens, decodeNonce)) then OauthErrorRedirect(env, NonceMismatch)
        else Response(ReturnTo(returnTo),
                      BuildSessionCookies(env.session, tokens.access, tokens.refresh, SECURE) +
                      BuildClearOauthCookies(env, SECURE))
  }

  /** The four conditions of a completed login, stated on their own. */
  ghost predicate LoginPasses(env: Env, header: Option<string>, stateParam: string, attempts: seq<ExchangeAttempt>,
                              decodeNonce: string -> Option<string>)
  {
    && header.Some?
    && stateParam != ""
    && ExtractFromHeader(header.value, env.temp.state) == Some(stateParam)
    && ExtractFromHeader(header.value, env.temp.verifier).Some?
    && exists k: nat ::
         && FirstAnswer(attempts, k) && Usable(attempts[k])
         && NonceAgrees(ExtractFromHeader(header.value, env.temp.nonce), attempts[k].json.idToken, decodeNonce)
  }

  /** The nonce of the cookie is the one in the ID token; both may be missing. */
  predicate NonceAgrees(cookie: Option<string>, idToken: Option<string>, decodeNonce: string -> Option<string>)
  {
    match idToken
    case Some(token) => cookie == decodeNonce(token)
    case None => cookie == None
  }

  /** Whether a response tries to set a session cookie. */
  ghost predicate SetsSession(env: Env, setCookies: seq<string>)
  {
    exists i | 0 <= i < |setCookies| ::
      && ParseSetCookie(setCookies[i]).Some?
      && (|| ParseSetCookie(setCookies[i]).value.name == env.session.access
          || ParseSetCookie(setCookies[i]).value.name == env.session.refresh)
  }

  lemma ClearSetsNoSession(env: Env)
    requires env.Valid()
    ensures !SetsSession(env, BuildClearOauthCookies(env, SECURE))
  {
    var c := BuildClearOauthCookies(env, SECURE);
    var names := [env.temp.verifier, env.temp.state, env.temp.nonce, env.temp.returnTo];
    forall i | 0 <= i < 4
      ensures ParseSetCookie(c[i]).Some? && ParseSetCookie(c[i]).value.name == names[i]
    {
      ClearIsEmptyCookie(names[i], env.callbackPath, SECURE);
      SetCookieReceived(names[i], "", 0, env.callbackPath, SECURE);
    }
  }

  lemma {:induction false} PassesIsCheckSequence(env: Env, header: Option<string>, stateParam: string,
                                                 attempts: seq<ExchangeAttempt>, safe: string -> Option<string>,
                                                 decodeNonce: string -> Option<string>)
    ensures LoginPasses(env, header, stateParam, attempts, decodeNonce) <==>
            && CheckCallback(env, header, stateParam, safe).Proceed?
            && Exchanged(attempts).Ok?
            && NonceMatches(CheckCallback(env, header, stateParam, safe).nonce,
                            IdNonce(Exchanged(attempts).value, decodeNonce))
  {
    ExchangedFromFirstAnswer(attempts);
  }

  /** Session cookies are written exactly when state, verifier, exchange and nonce all pass. */
  lemma SessionOnlyAfterAllChecks(env: Env, header: Option<string>, stateParam: string, attempts: seq<ExchangeAttempt>,
                                  safe: string -> Option<string>, decodeNonce: string -> Option<string>)
    requires env.Valid()
    ensures var response := HandleOauthCallback(env, header, stateParam, attempts, safe, decodeNonce);
            && (SetsSession(env, response.setCookies) <==> LoginPasses(env, header, stateParam, attempts, decodeNonce))
            && (response.location.ReturnTo? <==> LoginPasses(env, header, stateParam, attempts, decodeNonce))
  {
    PassesIsCheckSequence(env, header, stateParam, attempts, safe, decodeNonce);
    ClearSetsNoSession(env);
    if LoginPasses(env, header, stateParam, attempts, decodeNonce) {
      var tokens := Exchanged(attempts).value;
      var response := HandleOauthCallback(env, header, stateParam, attempts, safe, decodeNonce);
      SetCookieReceived(env.session.access, tokens.access, ACCESS_TOKEN_MAX_AGE_SEC, "/", SECURE);
      assert response.setCookies[0] ==
             BuildSetCookie(env.session.access, tokens.access, ACCESS_TOKEN_MAX_AGE_SEC, "/", SECURE);
    }
  }

  /** The state parameter is given and is the one of the cookie. */
  predicate StateAgrees(env: Env, header: string, stateParam: string)
  {
    stateParam != "" && ExtractFromHeader(header, env.temp.state) == Some(stateParam)
  }

  /**
   Where a callback sends the browser. A completed login goes to the checked return target of the cookie, or to
   `/` without one; every other callback to the login page, with the reason of the first check that fails.
   */
  lemma CallbackLocation(env: Env, header: Option<string>, stateParam: string, attempts: seq<ExchangeAttempt>,
                         safe: string -> Option<string>, decodeNonce: string -> Option<string>)
    ensures var location := HandleOauthCallback(env, header, stateParam, attempts, safe, decodeNonce).location;
            && (LoginPasses(env, header, stateParam, attempts, decodeNonce) ==>
                  var stored := ExtractFromHeader(header.value, env.temp.returnTo);
                  location == ReturnTo(if stored.Some? && safe(stored.value).Some? then safe(stored.value).value
                                       else "/"))
            && (header.None? ==> location == LoginError(InvalidState))
            && (header.Some? && !StateAgrees(env, header.value, stateParam) ==> location == LoginError(CsrfMismatch))
            && (header.Some? && StateAgrees(env, header.value, stateParam) ==>
                  if ExtractFromHeader(header.value, env.temp.verifier).None? then location == LoginError(InvalidState)
                  else if forall k: nat | FirstAnswer(attempts, k) :: !Usable(attempts[k]) then
                    location == LoginError(TokenExchangeFailed)
                  else
                    || LoginPasses(env, header, stateParam, attempts, decodeNonce)
                    || location == LoginError(NonceMismatch))
  {
    PassesIsCheckSequence(env, header, stateParam, attempts, safe, decodeNonce);
    ExchangedFromFirstAnswer(attempts);
  }

  /** Every cookie of a login, a callback or a session is out of reach for scripts and sent over TLS only. */
  lemma {:induction false} CookiesAreGuarded(env: Env, st: OAuthState, access: string, refresh: string, i: nat)
    requires env.Valid()
    ensures i < 4 ==> Guarded(BuildOauthCookies(env, st, SECURE)[i]) && Guarded(BuildClearOauthCookies(env, SECURE)[i])
    ensures i < 2 ==> Guarded(BuildSessionCookies(env.session, access, refresh, SECURE)[i])
  {
    var names := [env.temp.verifier, env.temp.state, env.temp.nonce, env.temp.returnTo];
    var values := [st.codeVerifier, st.state, st.nonce, st.returnTo];
    if i < 4 {
      PrintedIsGuarded(names[i], values[i], OAUTH_COOKIE_MAX_AGE, env.callbackPath);
      ClearIsEmptyCookie(names[i], env.callbackPath, SECURE);
      PrintedIsGuarded(names[i], "", 0, env.callbackPath);
    }
    PrintedIsGuarded(env.session.access, access, ACCESS_TOKEN_MAX_AGE_SEC, "/");
    PrintedIsGuarded(env.session.refresh, refresh, REFRESH_TOKEN_MAX_AGE_SEC, "/");
  }

  // ---- Login runs ----

  datatype Event =
    | Authorize(st: OAuthState, renewed: Option<Tokens>)
    | Callback(path: string, query: string, sent: seq<(string, string)>, attempts: seq<ExchangeAttempt>)
    | Other(setCookies: seq<string>)
    | Wait(seconds: nat)

  datatype Browser = Browser(jar: Jar, now: int)

  /**
   Opaque parts: the redirect check, the ID-token decoder, and which texts the HTTP library takes as a header
   value.
   */
  datatype Oracles =
    Oracles(safe: string -> Option<string>, decodeNonce: string -> Option<string>, writable: string -> bool)

  /** A response whose cookies cannot all be written as headers is not sent at all. */
  predicate Writable(writable: string -> bool, setCookies: seq<string>)
  {
    forall i | 0 <= i < |setCookies| :: writable(setCookies[i])
  }

  function HeaderOf(sent: seq<(string, string)>): Option<string>
  {
    if sent == [] then None else Some(CookieHeader(sent))
  }

  /** The 302 to the authorize page: temporary cookies first, renewed session cookies after them. */
  function AuthorizeRedirect(env: Env, st: OAuthState, renewed: Option<Tokens>): Response
  {
    var session :=
      match renewed {
        case Some(tokens) => BuildSessionCookies(env.session, tokens.access, tokens.refresh, SECURE)
        case None => []
      };
    Response(AuthorizePage, BuildOauthCookies(env, st, SECURE) + session)
  }

  /** The response of a callback request; `None` when the gateway forwards it as an ordinary request. */
  function CallbackResponse(env: Env, o: Oracles, event: Event): Option<Response>
    requires event.Callback?
  {
    match Intercept(event.path, event.query, env.callbackPath)
    case NotIntercepted => None
    case Denied => Some(Response(LoginDenied, BuildClearOauthCookies(env, SECURE)))
    case Handle(_, state) =>
      Some(HandleOauthCallback(env, HeaderOf(event.sent), state, event.attempts, o.safe, o.decodeNonce))
  }

  /** The cookies that reach the browser in this step. */
  function Delivered(env: Env, o: Oracles, event: Event): seq<string>
  {
    match event
    case Authorize(st, renewed) =>
      var cookies := AuthorizeRedirect(env, st, renewed).setCookies;
      if Writable(o.writable, cookies) then cookies else []
    case Callback(_, _, _, _) =>
      var response := CallbackResponse(env, o, event);
      if response.Some? && Writable(o.writable, response.value.setCookies) then response.value.setCookies else []
    case Other(setCookies) => setCookies
    case Wait(_) => []
  }

  function Step(env: Env, o: Oracles, b: Browser, event: Event): Browser
  {
    var later := b.now + if event.Wait? then event.seconds else 0;
    Browser(Receive(env.site, b.jar, Delivered(env, o, event), "/", b.now), later)
  }

  function Run(env: Env, o: Oracles, b: Browser, events: seq<Event>): Browser
    decreases events
  {
    if events == [] then b else Run(env, o, Step(env, o, b, events[0]), events[1..])
  }

  /** Base64url text, as the generated secrets are: stored and read back as it is. */
  ghost predicate TokenLike(value: string)
  {
    PlainValue(value) && !QuoteWrapped(value) && value != ""
  }

  /** The three generated secrets of a login; the return target comes from the request and is arbitrary. */
  ghost predicate Generated(st: OAuthState)
  {
    TokenLike(st.codeVerifier) && TokenLike(st.state) && TokenLike(st.nonce)
  }

  /** Cookies from elsewhere: well-formed names, none of the four temporary ones. */
  ghost predicate Foreign(env: Env, setCookies: seq<string>)
  {
    forall i | 0 <= i < |setCookies| :: var cookie := ParseSetCookie(setCookies[i]);
      cookie.Some? ==> ProperName(cookie.value.name) && !env.temp.Has(cookie.value.name) && ';' !in cookie.value.value
  }

  ghost predicate Allowed(env: Env, event: Event)
  {
    && (event.Other? ==> Foreign(env, event.setCookies))
    && (event.Authorize? ==> Generated(event.st))
  }

  ghost predicate AllAllowed(env: Env, events: seq<Event>)
  {
    forall i | 0 <= i < |events| :: Allowed(env, events[i])
  }

  /** A login step was answered, and the answer could be sent. */
  predicate Starts(env: Env, o: Oracles, event: Event)
  {
    event.Authorize? && Writable(o.writable, AuthorizeRedirect(env, event.st, event.renewed).setCookies)
  }

  /** A callback was denied, failed or completed, and the answer could be sent. */
  predicate Exits(env: Env, o: Oracles, event: Event)
  {
    && event.Callback? && CallbackResponse(env, o, event).Some?
    && Writable(o.writable, CallbackResponse(env, o, event).value.setCookies)
  }

  // ---- The temporary cookies of a jar ----

  /**
   Every cookie can be sent back. The temporary ones live under the callback path and, except for the
   return target, under the host itself.
   */
  ghost predicate JarOk(env: Env, jar: Jar)
  {
    forall key | key in jar :: EntryOk(env, key, jar[key])
  }

  ghost predicate EntryOk(env: Env, key: Key, entry: Entry)
  {
    && ProperName(key.name) && ';' !in entry.value
    && (env.temp.Has(key.name) ==>
          key.path == env.callbackPath && (key.name != env.temp.returnTo ==> key == TempKey(env, key.name)))
  }

  /** A return target kept under a domain above the host, where no clearing cookie of the gateway reaches it. */
  predicate IsStray(env: Env, key: Key)
  {
    key.name == env.temp.returnTo && key.domain != env.site.host
  }

  /** A stray is held at `now`; an expired cookie is not held, as the browser evicts it. */
  ghost predicate HasStray(env: Env, jar: Jar, now: int)
  {
    exists key :: key in jar && IsStray(env, key) && Live(jar[key], now)
  }

  /** None of the four temporary cookies is held at `now`. */
  ghost predicate NoTempCookies(env: Env, jar: Jar, now: int)
  {
    forall key | key in jar && env.temp.Has(key.name) :: !Live(jar[key], now)
  }

  /** No stray outlives the cookies of a login started now. */
  ghost predicate StraysBounded(env: Env, jar: Jar, now: int)
  {
    forall key | key in jar && IsStray(env, key) && Live(jar[key], now) ::
      jar[key].expires.Some? && jar[key].expires.value <= now + OAUTH_COOKIE_MAX_AGE
  }

  function At(jar: Jar, key: Key): Option<Entry>
  {
    if key in jar then Some(jar[key]) else None
  }

  ghost predicate SameStrays(env: Env, a: Jar, b: Jar)
  {
    forall key: Key | IsStray(env, key) :: At(a, key) == At(b, key)
  }

  /** The strays after a return target was put into the jar: those before, and its own if it strays. */
  ghost predicate StraysAfter(env: Env, jar: Jar, after: Jar, value: string, now: int)
  {
    forall key: Key | IsStray(env, key) ::
      At(after, key) == if Strays(env.site, value) && key == StrayKey(env, value) then Some(StrayEntry(value, now))
                        else At(jar, key)
  }

  function StrayKey(env: Env, value: string): Key
  {
    Key(env.temp.returnTo, ValueDomain(value), env.callbackPath)
  }

  function StrayEntry(value: string, now: int): Entry
  {
    Entry(StoredValue(value), Some(now + OAUTH_COOKIE_MAX_AGE), false)
  }

  ghost predicate SameTemp(env: Env, a: Jar, b: Jar)
  {
    forall key: Key | env.temp.Has(key.name) :: (key in a <==> key in b) && (key in a ==> a[key] == b[key])
  }

  lemma SameTempTrans(env: Env, a: Jar, b: Jar, c: Jar)
    requires SameTemp(env, a, b) && SameTemp(env, b, c)
    ensures SameTemp(env, a, c)
  {
  }

  lemma StoreKeepsJar(env: Env, jar: Jar, cookie: Received, now: int)
    requires JarOk(env, jar)
    requires ProperName(cookie.name) && !env.temp.Has(cookie.name) && ';' !in cookie.value
    ensures JarOk(env, Store(env.site, jar, cookie, "/", now))
    ensures SameTemp(env, jar, Store(env.site, jar, cookie, "/", now))
  {
  }

  lemma {:induction false} ForeignKeepsJar(env: Env, jar: Jar, setCookies: seq<string>, now: int)
    requires env.Valid() && JarOk(env, jar) && Foreign(env, setCookies)
    ensures var after := Receive(env.site, jar, setCookies, "/", now);
            JarOk(env, after) && SameTemp(env, jar, after)
    decreases setCookies
  {
    if setCookies == [] {
    } else {
      var cookie := ParseSetCookie(setCookies[0]);
      var next := ReceiveOne(env.site, jar, setCookies[0], "/", now);
      if cookie.Some? {
        StoreKeepsJar(env, jar, cookie.value, now);
      }
      ForeignKeepsJar(env, next, setCookies[1..], now);
      SameTempTrans(env, jar, next, Receive(env.site, jar, setCookies, "/", now));
    }
  }

  lemma PutKeepsJar(env: Env, jar: Jar, name: string, value: string, maxAge: nat, path: string, now: int)
    requires JarOk(env, jar) && maxAge > 0
    requires ProperName(name) && (env.temp.Has(name) ==> path == env.callbackPath)
    requires env.temp.Has(name) && name != env.temp.returnTo ==> ';' !in value
    ensures JarOk(env, Put(env.site, jar, name, value, maxAge, path, now))
    ensures !env.temp.Has(name) ==> SameTemp(env, jar, Put(env.site, jar, name, value, maxAge, path, now))
  {
    StoredValueIsValue(value);
    if ';' !in value {
      PlainValueStaysHome(env.site, value);
    }
  }

  lemma SessionKeepsJar(env: Env, jar: Jar, access: string, refresh: string, now: int)
    requires env.Valid() && JarOk(env, jar)
    ensures var after := WithSession(env.session, env.site, jar, access, refresh, now);
            JarOk(env, after) && SameTemp(env, jar, after)
  {
    var j1 := Put(env.site, jar, env.session.access, access, ACCESS_TOKEN_MAX_AGE_SEC, "/", now);
    PutKeepsJar(env, jar, env.session.access, access, ACCESS_TOKEN_MAX_AGE_SEC, "/", now);
    PutKeepsJar(env, j1, env.session.refresh, refresh, REFRESH_TOKEN_MAX_AGE_SEC, "/", now);
    SameTempTrans(env, jar, j1, WithSession(env.session, env.site, jar, access, refresh, now));
  }

  /** The four temporary cookies after an authorize step. */
  lemma TempAfterAuthorize(env: Env, jar: Jar, p: Pending, st: OAuthState, now: int)
    requires env.Valid() && JarOk(env, jar) && Generated(st) && Matches(env, jar, p, now)
    ensures var after := WithTemp(env, jar, st, now);
            JarOk(env, after) && Matches(env, after, Started(env, p, st, now), now)
  {
    TempKeepsJarOk(env, jar, st, now);
    SecretsPut(env, jar, st, now);
    PutReturnTarget(env, WithSecrets(env, jar, st, now), st.returnTo, now);
  }

  /** The jar after the first three cookies of an authorize step. */
  function WithSecrets(env: Env, jar: Jar, st: OAuthState, now: int): Jar
  {
    var j1 := PutTemp(env, jar, env.temp.verifier, st.codeVerifier, now);
    var j2 := PutTemp(env, j1, env.temp.state, st.state, now);
    PutTemp(env, j2, env.temp.nonce, st.nonce, now)
  }

  lemma SecretsPut(env: Env, jar: Jar, st: OAuthState, now: int)
    requires env.Valid() && Generated(st)
    ensures var after := WithSecrets(env, jar, st, now);
            && HoldsSecrets(env, after, st, now + OAUTH_COOKIE_MAX_AGE)
            && forall key: Key | key.name == env.temp.returnTo :: At(after, key) == At(jar, key)
  {
    var j1 := PutTemp(env, jar, env.temp.verifier, st.codeVerifier, now);
    var j2 := PutTemp(env, j1, env.temp.state, st.state, now);
    PutSecret(env, jar, env.temp.verifier, st.codeVerifier, now);
    PutSecret(env, j1, env.temp.state, st.state, now);
    PutSecret(env, j2, env.temp.nonce, st.nonce, now);
  }

  lemma TempStrays(env: Env, jar: Jar, st: OAuthState, now: int)
    requires env.Valid() && Generated(st)
    ensures StraysAfter(env, jar, WithTemp(env, jar, st, now), st.returnTo, now)
  {
    var secrets := WithSecrets(env, jar, st, now);
    SecretsPut(env, jar, st, now);
    PutReturnTarget(env, secrets, st.returnTo, now);
    forall key: Key | IsStray(env, key) ensures At(secrets, key) == At(jar, key) {
    }
  }

  lemma TempKeepsJarOk(env: Env, jar: Jar, st: OAuthState, now: int)
    requires env.Valid() && JarOk(env, jar) && Generated(st)
    ensures JarOk(env, WithTemp(env, jar, st, now))
  {
    var j1 := PutTemp(env, jar, env.temp.verifier, st.codeVerifier, now);
    var j2 := PutTemp(env, j1, env.temp.state, st.state, now);
    var j3 := PutTemp(env, j2, env.temp.nonce, st.nonce, now);
    PutKeepsJar(env, jar, env.temp.verifier, st.codeVerifier, OAUTH_COOKIE_MAX_AGE, env.callbackPath, now);
    PutKeepsJar(env, j1, env.temp.state, st.state, OAUTH_COOKIE_MAX_AGE, env.callbackPath, now);
    PutKeepsJar(env, j2, env.temp.nonce, st.nonce, OAUTH_COOKIE_MAX_AGE, env.callbackPath, now);
    PutKeepsJar(env, j3, env.temp.returnTo, st.returnTo, OAUTH_COOKIE_MAX_AGE, env.callbackPath, now);
  }

  /** A secret goes under the host and touches nothing else. */
  lemma PutSecret(env: Env, jar: Jar, name: string, value: string, now: int)
    requires TokenLike(value)
    ensures PutTemp(env, jar, name, value, now) ==
            jar[TempKey(env, name) := Entry(StoredValue(value), Some(now + OAUTH_COOKIE_MAX_AGE), true)]
  {
    PlainValueStaysHome(env.site, value);
  }

  /** The return target goes under the host, under a parent domain, or nowhere. */
  lemma PutReturnTarget(env: Env, jar: Jar, value: string, now: int)
    ensures var after := PutTemp(env, jar, env.temp.returnTo, value, now);
            && StraysAfter(env, jar, after, value, now)
            && (forall key: Key | key.name != env.temp.returnTo :: At(after, key) == At(jar, key))
            && (if StaysHome(env.site, value) then
                  HoldsTemp(env, after, env.temp.returnTo, value, now + OAUTH_COOKIE_MAX_AGE)
                else At(after, TempKey(env, env.temp.returnTo)) == At(jar, TempKey(env, env.temp.returnTo)))
  {
    PlacementCases(env.site, value);
  }

  /** The entry a printed temporary cookie leaves under the host. */
  ghost predicate HoldsTemp(env: Env, jar: Jar, name: string, value: string, until: int)
  {
    Peek(jar, TempKey(env, name)) == Some((StoredValue(value), Some(until)))
  }

  /** Value and expiry time of a stored cookie. */
  function Peek(jar: Jar, key: Key): Option<(string, Option<int>)>
  {
    if key in jar then Some((jar[key].value, jar[key].expires)) else None
  }

  /** The jar holds the three secrets of a login, alive until `until`. */
  ghost predicate HoldsSecrets(env: Env, jar: Jar, st: OAuthState, until: int)
  {
    && HoldsTemp(env, jar, env.temp.verifier, st.codeVerifier, until)
    && HoldsTemp(env, jar, env.temp.state, st.state, until)
    && HoldsTemp(env, jar, env.temp.nonce, st.nonce, until)
  }

  // ---- What an exit leaves ----

  /** Removing the four keys under the host leaves exactly the strays. */
  lemma RemoveTemp(env: Env, jar: Jar, now: int)
    requires env.Valid() && JarOk(env, jar)
    ensures JarOk(env, jar - TempKeys(env)) && SameStrays(env, jar, jar - TempKeys(env))
    ensures NoTempCookies(env, jar - TempKeys(env), now) <==> !HasStray(env, jar, now)
  {
    var after := jar - TempKeys(env);
    if key :| key in jar && IsStray(env, key) && Live(jar[key], now) {
      assert key in after;
    }
    forall key | key in after && env.temp.Has(key.name) ensures IsStray(env, key) {
      assert EntryOk(env, key, jar[key]);
      assert key != TempKey(env, key.name);
    }
  }

  lemma SameTempStrays(env: Env, a: Jar, b: Jar)
    requires SameTemp(env, a, b)
    ensures SameStrays(env, a, b)
  {
    forall key: Key | IsStray(env, key) ensures At(a, key) == At(b, key) {
      assert env.temp.Has(key.name);
    }
  }

  lemma SameHasStray(env: Env, a: Jar, b: Jar, now: int)
    requires SameStrays(env, a, b)
    ensures HasStray(env, a, now) <==> HasStray(env, b, now)
  {
    assert forall key: Key | IsStray(env, key) :: At(a, key) == At(b, key);
    if key :| key in a && IsStray(env, key) && Live(a[key], now) {
      assert key in b;
    }
    if key :| key in b && IsStray(env, key) && Live(b[key], now) {
      assert key in a;
    }
  }

  lemma SameBounded(env: Env, a: Jar, b: Jar, now: int, later: int)
    requires SameStrays(env, a, b) && StraysBounded(env, a, now) && now <= later
    ensures StraysBounded(env, b, later)
  {
    forall key | key in b && IsStray(env, key) && Live(b[key], later)
      ensures b[key].expires.Some? && b[key].expires.value <= later + OAUTH_COOKIE_MAX_AGE
    {
      assert At(a, key) == At(b, key);
      assert key in a && Live(a[key], now);
    }
  }

  /** A stray is held from then on as before, or because the return target put into the jar strays and is alive. */
  lemma StraysLater(env: Env, jar: Jar, after: Jar, value: string, now: int, later: int)
    requires StraysAfter(env, jar, after, value, now) && StraysBounded(env, jar, now) && now <= later
    ensures HasStray(env, after, later) <==>
            HasStray(env, jar, later) || (Strays(env.site, value) && later <= now + OAUTH_COOKIE_MAX_AGE)
    ensures StraysBounded(env, after, now)
  {
    if Strays(env.site, value) {
      assert At(after, StrayKey(env, value)) == Some(StrayEntry(value, now));
    }
    if key :| key in jar && IsStray(env, key) && Live(jar[key], later) {
      assert Live(jar[key], now);
      assert At(after, key).Some?;
    }
    forall key | key in after && IsStray(env, key)
      ensures At(after, key) == At(jar, key) || (Strays(env.site, value) && after[key] == StrayEntry(value, now))
    {
    }
  }

  /** Whether a callback request completes the login. */
  ghost predicate Passes(env: Env, o: Oracles, event: Event)
    requires event.Callback?
  {
    && Intercept(event.path, event.query, env.callbackPath).Handle?
    && LoginPasses(env, HeaderOf(event.sent), Intercept(event.path, event.query, env.callbackPath).state,
                   event.attempts, o.decodeNonce)
  }

  /** The jar before the clearing cookies of an exit: with a new pair of session cookies when the login passed. */
  ghost function BeforeClearing(env: Env, o: Oracles, b: Browser, event: Event): Jar
    requires event.Callback?
  {
    if Passes(env, o, event) && Exchanged(event.attempts).Ok? then
      var tokens := Exchanged(event.attempts).value;
      WithSession(env.session, env.site, b.jar, tokens.access, tokens.refresh, b.now)
    else b.jar
  }

  lemma {:induction false} PassedExit(env: Env, jar: Jar, access: string, refresh: string, now: int)
    requires env.Valid()
    ensures var session := BuildSessionCookies(env.session, access, refresh, SECURE);
            Receive(env.site, jar, session + BuildClearOauthCookies(env, SECURE), "/", now) ==
            WithSession(env.session, env.site, jar, access, refresh, now) - TempKeys(env)
  {
    var session := BuildSessionCookies(env.session, access, refresh, SECURE);
    ReceiveSessionCookies(env.session, env.site, jar, access, refresh, SECURE, "/", now);
    ReceiveConcat(env.site, jar, session, BuildClearOauthCookies(env, SECURE), "/", now);
    ReceiveClearCookies(env, WithSession(env.session, env.site, jar, access, refresh, now), SECURE, "/", now);
  }

  /**
   The jar after every denied, failed or successful callback that is answered: the session cookies change
   exactly when the login passes, and at any later time a temporary cookie is left exactly when the jar held a
   return target that had strayed above the host and is still alive then.
   */
  lemma CallbackExit(env: Env, o: Oracles, b: Browser, event: Event, later: int)
    requires env.Valid() && JarOk(env, b.jar) && Exits(env, o, event)
    ensures Passes(env, o, event) ==> Exchanged(event.attempts).Ok?
    ensures var after := Step(env, o, b, event).jar;
            && after == BeforeClearing(env, o, b, event) - TempKeys(env)
            && JarOk(env, after) && SameStrays(env, b.jar, after)
            && (NoTempCookies(env, after, later) <==> !HasStray(env, b.jar, later))
  {
    ReceiveClearCookies(env, b.jar, SECURE, "/", b.now);
    RemoveTemp(env, b.jar, later);
    if Intercept(event.path, event.query, env.callbackPath).Handle? {
      var state := Intercept(event.path, event.query, env.callbackPath).state;
      PassesIsCheckSequence(env, HeaderOf(event.sent), state, event.attempts, o.safe, o.decodeNonce);
      if Passes(env, o, event) {
        var tokens := Exchanged(event.attempts).value;
        var passed := BeforeClearing(env, o, b, event);
        PassedExit(env, b.jar, tokens.access, tokens.refresh, b.now);
        SessionKeepsJar(env, b.jar, tokens.access, tokens.refresh, b.now);
        SameTempStrays(env, b.jar, passed);
        SameHasStray(env, b.jar, passed, later);
        RemoveTemp(env, passed, later);
        SameStraysTrans(env, b.jar, passed, passed - TempKeys(env));
      }
    }
  }

  lemma SameStraysTrans(env: Env, a: Jar, b: Jar, c: Jar)
    requires SameStrays(env, a, b) && SameStrays(env, b, c)
    ensures SameStrays(env, a, c)
  {
    forall key: Key | IsStray(env, key) ensures At(a, key) == At(c, key) {
      assert At(a, key) == At(b, key) && At(b, key) == At(c, key);
    }
  }

  lemma NothingDelivered(env: Env, o: Oracles, b: Browser, event: Event)
    requires Delivered(env, o, event) == []
    ensures Step(env, o, b, event).jar == b.jar
  {
  }

  /** The jar after an answered login step: the temporary cookies, and the renewed session behind them. */
  function AuthorizedJar(env: Env, jar: Jar, st: OAuthState, renewed: Option<Tokens>, now: int): Jar
  {
    var temp := WithTemp(env, jar, st, now);
    match renewed
    case Some(tokens) => WithSession(env.session, env.site, temp, tokens.access, tokens.refresh, now)
    case None => temp
  }

  lemma ReceiveAuthorize(env: Env, o: Oracles, b: Browser, event: Event)
    requires env.Valid() && Starts(env, o, event)
    ensures Step(env, o, b, event).jar == AuthorizedJar(env, b.jar, event.st, event.renewed, b.now)
  {
    var cookies := BuildOauthCookies(env, event.st, SECURE);
    ReceiveOauthCookies(env, b.jar, event.st, SECURE, "/", b.now);
    if event.renewed.Some? {
      var tokens := event.renewed.value;
      var session := BuildSessionCookies(env.session, tokens.access, tokens.refresh, SECURE);
      var temp := WithTemp(env, b.jar, event.st, b.now);
      ReceiveConcat(env.site, b.jar, cookies, session, "/", b.now);
      ReceiveSessionCookies(env.session, env.site, temp, tokens.access, tokens.refresh, SECURE, "/", b.now);
    } else {
      assert cookies + [] == cookies;
    }
  }

  /** A later session changes nothing about the temporary cookies. */
  lemma AuthorizedIsTemp(env: Env, jar: Jar, st: OAuthState, renewed: Option<Tokens>, now: int)
    requires env.Valid() && JarOk(env, WithTemp(env, jar, st, now))
    ensures JarOk(env, AuthorizedJar(env, jar, st, renewed, now))
    ensures SameTemp(env, WithTemp(env, jar, st, now), AuthorizedJar(env, jar, st, renewed, now))
  {
    if renewed.Some? {
      SessionKeepsJar(env, WithTemp(env, jar, st, now), renewed.value.access, renewed.value.refresh, now);
    }
  }

  lemma AuthorizedMatches(env: Env, jar: Jar, p: Pending, st: OAuthState, renewed: Option<Tokens>, now: int, after: Jar)
    requires env.Valid() && JarOk(env, jar) && Generated(st) && Matches(env, jar, p, now)
    requires after == AuthorizedJar(env, jar, st, renewed, now)
    ensures Matches(env, after, Started(env, p, st, now), now)
  {
    TempAfterAuthorize(env, jar, p, st, now);
    AuthorizedIsTemp(env, jar, st, renewed, now);
    SameMatches(env, WithTemp(env, jar, st, now), after, Started(env, p, st, now), now, now);
  }

  lemma SameStraysAfter(env: Env, jar: Jar, temp: Jar, after: Jar, value: string, now: int)
    requires StraysAfter(env, jar, temp, value, now) && SameStrays(env, temp, after)
    ensures StraysAfter(env, jar, after, value, now)
  {
    forall key: Key | IsStray(env, key)
      ensures At(after, key) ==
              if Strays(env.site, value) && key == StrayKey(env, value) then Some(StrayEntry(value, now))
              else At(jar, key)
    {
      assert At(temp, key) == At(after, key);
    }
  }

  /** Any other step leaves the temporary cookies alone. */
  lemma QuietStep(env: Env, o: Oracles, b: Browser, event: Event)
    requires env.Valid() && JarOk(env, b.jar) && Allowed(env, event)
    requires !Starts(env, o, event) && !Exits(env, o, event)
    ensures JarOk(env, Step(env, o, b, event).jar) && SameTemp(env, b.jar, Step(env, o, b, event).jar)
  {
    if event.Other? {
      ForeignKeepsJar(env, b.jar, event.setCookies, b.now);
    } else {
      NothingDelivered(env, o, b, event);
    }
  }

  /** Event `i` starts a login whose return target strays and is still alive at `later`. */
  ghost predicate StraysAt(env: Env, o: Oracles, b: Browser, events: seq<Event>, i: nat, later: int)
    requires i < |events|
  {
    && Starts(env, o, events[i]) && Strays(env.site, events[i].st.returnTo)
    && later <= Run(env, o, b, events[..i]).now + OAUTH_COOKIE_MAX_AGE
  }

  /** Some login of the run, started at most 300 seconds before `later`, asked for a return target that strays. */
  ghost predicate SomeStrays(env: Env, o: Oracles, b: Browser, events: seq<Event>, later: int)
  {
    exists i | 0 <= i < |events| :: StraysAt(env, o, b, events, i, later)
  }

  lemma StraysAtTail(env: Env, o: Oracles, b: Browser, events: seq<Event>, i: nat, later: int)
    requires 0 < i < |events|
    ensures StraysAt(env, o, b, events, i, later) <==>
            StraysAt(env, o, Step(env, o, b, events[0]), events[1..], i - 1, later)
  {
    assert events[..i][1..] == events[1..][..i - 1];
  }

  lemma SomeStraysUnfolds(env: Env, o: Oracles, b: Browser, events: seq<Event>, later: int)
    requires events != []
    ensures SomeStrays(env, o, b, events, later) <==>
            StraysAt(env, o, b, events, 0, later) || SomeStrays(env, o, Step(env, o, b, events[0]), events[1..], later)
  {
    var next := Step(env, o, b, events[0]);
    if i :| 0 < i < |events| && StraysAt(env, o, b, events, i, later) {
      StraysAtTail(env, o, b, events, i, later);
      assert StraysAt(env, o, next, events[1..], i - 1, later);
    }
    if i :| 0 <= i < |events[1..]| && StraysAt(env, o, next, events[1..], i, later) {
      StraysAtTail(env, o, b, events, i + 1, later);
      assert StraysAt(env, o, b, events, i + 1, later);
    }
  }

  lemma {:induction false} TimePasses(env: Env, o: Oracles, b: Browser, events: seq<Event>)
    ensures b.now <= Run(env, o, b, events).now
    decreases events
  {
    if events == [] {
    } else {
      TimePasses(env, o, Step(env, o, b, events[0]), events[1..]);
    }
  }

  lemma StartStrays(env: Env, o: Oracles, b: Browser, event: Event)
    requires env.Valid() && JarOk(env, b.jar) && Allowed(env, event) && Starts(env, o, event)
    ensures JarOk(env, Step(env, o, b, event).jar)
    ensures StraysAfter(env, b.jar, Step(env, o, b, event).jar, event.st.returnTo, b.now)
  {
    var after := Step(env, o, b, event).jar;
    var temp := WithTemp(env, b.jar, event.st, b.now);
    ReceiveAuthorize(env, o, b, event);
    TempKeepsJarOk(env, b.jar, event.st, b.now);
    AuthorizedIsTemp(env, b.jar, event.st, event.renewed, b.now);
    TempStrays(env, b.jar, event.st, b.now);
    SameTempStrays(env, temp, after);
    SameStraysAfter(env, b.jar, temp, after, event.st.returnTo, b.now);
  }

  lemma StepStrays(env: Env, o: Oracles, b: Browser, event: Event, later: int)
    requires env.Valid() && JarOk(env, b.jar) && StraysBounded(env, b.jar, b.now) && Allowed(env, event)
    requires Step(env, o, b, event).now <= later
    ensures var next := Step(env, o, b, event); JarOk(env, next.jar) && StraysBounded(env, next.jar, next.now)
    ensures HasStray(env, Step(env, o, b, event).jar, later) <==>
            HasStray(env, b.jar, later) || StraysAt(env, o, b, [event], 0, later)
  {
    var next := Step(env, o, b, event);
    assert [event][..0] == [];
    if Starts(env, o, event) {
      StartStrays(env, o, b, event);
      StraysLater(env, b.jar, next.jar, event.st.returnTo, b.now, later);
    } else {
      if Exits(env, o, event) {
        CallbackExit(env, o, b, event, later);
      } else {
        QuietStep(env, o, b, event);
        SameTempStrays(env, b.jar, next.jar);
      }
      SameHasStray(env, b.jar, next.jar, later);
      SameBounded(env, b.jar, next.jar, b.now, next.now);
    }
  }

  /**
   Over every run, from any jar whose strays live no longer than a login's cookies: a stray is held at a time
   from its end on exactly when one of the start is still alive then, or a login started at most 300 seconds
   before asked for one.
   */
  lemma {:induction false} RunStrays(env: Env, o: Oracles, b: Browser, events: seq<Event>, later: int)
    requires env.Valid() && JarOk(env, b.jar) && StraysBounded(env, b.jar, b.now) && AllAllowed(env, events)
    requires Run(env, o, b, events).now <= later
    ensures var end := Run(env, o, b, events); JarOk(env, end.jar) && StraysBounded(env, end.jar, end.now)
    ensures HasStray(env, Run(env, o, b, events).jar, later) <==>
            HasStray(env, b.jar, later) || SomeStrays(env, o, b, events, later)
    decreases events
  {
    if events == [] {
    } else {
      var next := Step(env, o, b, events[0]);
      TimePasses(env, o, next, events[1..]);
      StepStrays(env, o, b, events[0], later);
      RunStrays(env, o, next, events[1..], later);
      SomeStraysUnfolds(env, o, b, events, later);
      assert StraysAt(env, o, b, events, 0, later) == StraysAt(env, o, b, [events[0]], 0, later) by {
        assert events[..0] == [events[0]][..0];
      }
    }
  }

  /** What is not held now is not held later. */
  lemma NoStrayStays(env: Env, jar: Jar, now: int, later: int)
    requires !HasStray(env, jar, now) && now <= later
    ensures !HasStray(env, jar, later) && StraysBounded(env, jar, now)
  {
    if key :| key in jar && IsStray(env, key) && Live(jar[key], later) {
      assert Live(jar[key], now);
    }
  }

  /**
   The exit law, with its exact condition: after any run of logins, callbacks, other traffic and waiting, an
   answered callback leaves none of the four temporary cookies, then or at any later time, if and only if no
   login of the run that was started at most 300 seconds before that time asked for a return target with a
   Domain attribute naming a parent domain of the host.
   */
  lemma {:induction false} TempCookiesGoneAfterExit(env: Env, o: Oracles, b: Browser, events: seq<Event>, exit: Event,
                                                    later: int)
    requires env.Valid() && JarOk(env, b.jar) && !HasStray(env, b.jar, b.now)
    requires AllAllowed(env, events) && Exits(env, o, exit)
    requires Run(env, o, b, events).now <= later
    ensures NoTempCookies(env, Step(env, o, Run(env, o, b, events), exit).jar, later) <==>
            !SomeStrays(env, o, b, events, later)
  {
    TimePasses(env, o, b, events);
    NoStrayStays(env, b.jar, b.now, later);
    RunStrays(env, o, b, events, later);
    CallbackExit(env, o, Run(env, o, b, events), exit, later);
  }

  // ---- A return target that strays ----

  lemma {:induction false} LowerOfLower(s: string)
    requires forall i | 0 <= i < |s| :: !('A' <= s[i] <= 'Z')
    ensures Lower(s) == s
  {
    if s == "" {
    } else {
      LowerOfLower(s[1..]);
      assert s == [s[0]] + s[1..];
    }
  }

  lemma LowerOfDomain()
    ensures Lower("Domain") == "domain"
  {
    assert "Domain" == ['D'] + "omain";
    assert "Domain"[1..] == "omain";
    LowerOfLower("omain");
    assert "domain" == ['d'] + "omain";
  }

  /** A domain as it can be written in a URL: plain, lower-case, no leading dot. */
  ghost predicate PlainDomain(domain: string)
  {
    && domain != "" && domain[0] != '.' && PlainValue(domain)
    && forall i | 0 <= i < |domain| :: !('A' <= domain[i] <= 'Z')
  }

  lemma DomainIsNamed(domain: string)
    requires PlainDomain(domain)
    ensures DomainNamed("Domain=" + domain) == Some(domain)
  {
    assert "Domain=" + domain == "Domain" + "=" + domain;
    CutOfPair("Domain", domain);
    TrimOfUnpadded("Domain");
    TrimOfUnpadded(domain);
    LowerOfDomain();
    LowerOfLower(domain);
  }

  lemma DomainInTarget(path: string, domain: string)
    requires ';' !in path && PlainDomain(domain)
    ensures ValueDomain(path + ";Domain=" + domain) == domain
  {
    var segment := "Domain=" + domain;
    var value := path + ";Domain=" + domain;
    assert value == path + [';'] + segment;
    SplitOfConcat(path, segment, ';');
    SplitOfFree(path, ';');
    SplitOfFree(segment, ';');
    assert Split(value, ';')[1..] == [segment];
    DomainIsNamed(domain);
    assert [segment][|[segment]| - 1] == segment;
  }

  /**
   At `/orders?x=1;Domain=example.com` on `sso.example.com`, or any such pair of a plain target and a
   parent domain: the return target is kept under the parent domain, no exit removes it, and for exactly
   300 seconds the browser goes on sending it to the host with every callback request.
   */
  lemma {:induction false} StrayedTargetSurvivesExit(env: Env, o: Oracles, b: Browser, st: OAuthState, path: string,
                                                     parent: string, child: string, exit: Event)
    requires env.Valid() && JarOk(env, b.jar) && Generated(st)
    requires ';' !in path && PlainDomain(parent) && st.returnTo == path + ";Domain=" + parent
    requires child != "" && env.site.host == child + "." + parent
    requires !env.site.isAddress && !env.site.publicSuffix(parent)
    requires Starts(env, o, Authorize(st, None)) && Exits(env, o, exit)
    ensures Strays(env.site, st.returnTo)
    ensures var after := Run(env, o, b, [Authorize(st, None), exit]).jar;
            forall later | later <= b.now + OAUTH_COOKIE_MAX_AGE :: !NoTempCookies(env, after, later)
    ensures var after := Run(env, o, b, [Authorize(st, None), exit]).jar;
            var key := Key(env.temp.returnTo, parent, env.callbackPath);
            && At(after, key) == Some(StrayEntry(st.returnTo, b.now))
            && forall callback, later | IsCallback(callback, env.callbackPath) ::
                 Belongs(env.site, key, after[key], callback, later) <==> later <= b.now + OAUTH_COOKIE_MAX_AGE
  {
    DomainInTarget(path, parent);
    assert env.site.host[|env.site.host| - |parent|..] == parent;
    assert env.site.host[|env.site.host| - |parent| - 1] == '.';
    var events := [Authorize(st, None), exit];
    var started := Step(env, o, b, events[0]);
    StartStrays(env, o, b, events[0]);
    CallbackExit(env, o, started, exit, b.now);
    assert events[1..] == [exit] && [exit][1..] == [];
    assert Run(env, o, b, events) == Run(env, o, started, [exit]) == Step(env, o, started, exit);
    var key := StrayKey(env, st.returnTo);
    assert IsStray(env, key) && At(started.jar, key) == Some(StrayEntry(st.returnTo, b.now));
    StrayIsSent(env, Run(env, o, b, events).jar, st.returnTo, b.now);
  }

  lemma StrayIsSent(env: Env, jar: Jar, value: string, now: int)
    requires Strays(env.site, value) && At(jar, StrayKey(env, value)) == Some(StrayEntry(value, now))
    ensures forall later | later <= now + OAUTH_COOKIE_MAX_AGE :: !NoTempCookies(env, jar, later)
    ensures forall callback, later | IsCallback(callback, env.callbackPath) ::
              Belongs(env.site, StrayKey(env, value), jar[StrayKey(env, value)], callback, later) <==>
              later <= now + OAUTH_COOKIE_MAX_AGE
  {
    var key := StrayKey(env, value);
    forall later | later <= now + OAUTH_COOKIE_MAX_AGE ensures !NoTempCookies(env, jar, later) {
      assert key in jar && env.temp.Has(key.name) && Live(jar[key], later);
    }
    forall callback | IsCallback(callback, env.callbackPath) ensures PathMatch(callback, key.path) {
      CallbackReceivesCookies(callback, env.callbackPath);
    }
  }

  /** A concrete request that strays, on a host below a shared parent domain. */
  lemma ExampleStrays(publicSuffix: string -> bool)
    requires !publicSuffix("example.com")
    ensures Strays(Site("sso." + "example.com", false, publicSuffix), "/orders?x=1" + ";Domain=" + "example.com")
  {
    var site := Site("sso." + "example.com", false, publicSuffix);
    DomainInTarget("/orders?x=1", "example.com");
    assert site.host[|site.host| - |"example.com"|..] == "example.com";
    assert site.host[|site.host| - |"example.com"| - 1] == '.';
  }

  // ---- Which login a callback completes ----

  /** The login whose secrets the browser holds: the last one started since the last exit. */
  datatype Login = Login(st: OAuthState, until: int)

  /** The return target the browser holds under the host itself. */
  datatype Target = Target(value: string, until: int)

  datatype Pending = Pending(login: Option<Login>, target: Option<Target>)

  const NOTHING := Pending(None, None)

  /** A login replaces the secrets; its return target replaces the one held if it names no other domain. */
  function Started(env: Env, p: Pending, st: OAuthState, now: int): Pending
  {
    var until := now + OAUTH_COOKIE_MAX_AGE;
    Pending(Some(Login(st, until)),
            if StaysHome(env.site, st.returnTo) then Some(Target(st.returnTo, until)) else p.target)
  }

  function PendingStep(env: Env, o: Oracles, b: Browser, p: Pending, event: Event): Pending
  {
    if Starts(env, o, event) then Started(env, p, event.st, b.now)
    else if Exits(env, o, event) then NOTHING
    else p
  }

  function PendingRun(env: Env, o: Oracles, b: Browser, p: Pending, events: seq<Event>): Pending
    decreases events
  {
    if events == [] then p
    else PendingRun(env, o, Step(env, o, b, events[0]), PendingStep(env, o, b, p, events[0]), events[1..])
  }

  /** The stored return target as the gateway reads it back at `now`. */
  function TargetRead(p: Pending, now: int): Option<string>
  {
    match p.target
    case Some(t) => if now <= t.until then Some(StripQuotes(StoredValue(t.value))) else None
    case None => None
  }

  predicate Gone(jar: Jar, key: Key, now: int)
  {
    key in jar ==> !Live(jar[key], now)
  }

  ghost predicate HoldsNoSecret(env: Env, jar: Jar, now: int)
  {
    && Gone(jar, TempKey(env, env.temp.verifier), now)
    && Gone(jar, TempKey(env, env.temp.state), now)
    && Gone(jar, TempKey(env, env.temp.nonce), now)
  }

  /** The jar holds exactly the secrets of the pending login, and under the host the pending return target. */
  ghost predicate Matches(env: Env, jar: Jar, p: Pending, now: int)
  {
    MatchesLogin(env, jar, p.login, now) && MatchesTarget(env, jar, p.target, now)
  }

  ghost predicate MatchesLogin(env: Env, jar: Jar, login: Option<Login>, now: int)
  {
    match login
    case None => HoldsNoSecret(env, jar, now)
    case Some(l) => HoldsSecrets(env, jar, l.st, l.until)
  }

  ghost predicate MatchesTarget(env: Env, jar: Jar, target: Option<Target>, now: int)
  {
    match target
    case None => Gone(jar, TempKey(env, env.temp.returnTo), now)
    case Some(t) => HoldsTemp(env, jar, env.temp.returnTo, t.value, t.until)
  }

  lemma StepMatches(env: Env, o: Oracles, b: Browser, p: Pending, event: Event)
    requires env.Valid() && JarOk(env, b.jar) && Allowed(env, event) && Matches(env, b.jar, p, b.now)
    ensures var next := Step(env, o, b, event);
            JarOk(env, next.jar) && Matches(env, next.jar, PendingStep(env, o, b, p, event), next.now)
  {
    if Starts(env, o, event) {
      StartStrays(env, o, b, event);
      ReceiveAuthorize(env, o, b, event);
      AuthorizedMatches(env, b.jar, p, event.st, event.renewed, b.now, Step(env, o, b, event).jar);
    } else if Exits(env, o, event) {
      CallbackExit(env, o, b, event, b.now);
    } else {
      QuietStep(env, o, b, event);
      SameMatches(env, b.jar, Step(env, o, b, event).jar, p, b.now, Step(env, o, b, event).now);
    }
  }

  lemma SameMatches(env: Env, a: Jar, b: Jar, p: Pending, now: int, later: int)
    requires SameTemp(env, a, b) && Matches(env, a, p, now) && now <= later
    ensures Matches(env, b, p, later)
  {
    forall name | env.temp.Has(name)
      ensures Peek(a, TempKey(env, name)) == Peek(b, TempKey(env, name))
      ensures Gone(a, TempKey(env, name), now) ==> Gone(b, TempKey(env, name), later)
    {
      assert env.temp.Has(TempKey(env, name).name);
    }
  }

  lemma {:induction false} RunMatches(env: Env, o: Oracles, b: Browser, p: Pending, events: seq<Event>)
    requires env.Valid() && JarOk(env, b.jar) && AllAllowed(env, events) && Matches(env, b.jar, p, b.now)
    ensures var end := Run(env, o, b, events);
            JarOk(env, end.jar) && Matches(env, end.jar, PendingRun(env, o, b, p, events), end.now)
    decreases events
  {
    if events == [] {
    } else {
      StepMatches(env, o, b, p, events[0]);
      RunMatches(env, o, Step(env, o, b, events[0]), PendingStep(env, o, b, p, events[0]), events[1..]);
    }
  }

  lemma SentIsProper(env: Env, b: Browser, path: string, sent: seq<(string, string)>)
    requires JarOk(env, b.jar) && Sends(env.site, b.jar, path, b.now, sent)
    ensures ProperPairs(sent)
  {
    forall i | 0 <= i < |sent| ensures ProperName(sent[i].0) && ';' !in sent[i].1 {
      assert SentFrom(env.site, b.jar, path, b.now, sent[i]);
      var key :| key in b.jar && Belongs(env.site, key, b.jar[key], path, b.now) &&
                 sent[i] == (key.name, b.jar[key].value);
      assert EntryOk(env, key, b.jar[key]);
    }
  }

  /**
   The gateway reads a temporary cookie exactly while it is under the host and alive, unless a strayed return
   target is alive beside it.
   */
  lemma ReadTemp(env: Env, b: Browser, path: string, sent: seq<(string, string)>, name: string)
    requires env.Valid() && JarOk(env, b.jar)
    requires env.temp.Has(name) && IsCallback(path, env.callbackPath)
    requires name == env.temp.returnTo ==> !HasStray(env, b.jar, b.now)
    requires Sends(env.site, b.jar, path, b.now, sent)
    ensures var key := TempKey(env, name);
            ExtractFromHeader(CookieHeader(sent), name) ==
            if key in b.jar && Live(b.jar[key], b.now) then Some(StripQuotes(b.jar[key].value)) else None
    ensures TempKey(env, name) in b.jar && Live(b.jar[TempKey(env, name)], b.now) ==> sent != []
  {
    var key := TempKey(env, name);
    SentIsProper(env, b, path, sent);
    ExtractSent(sent, name);
    CallbackReceivesCookies(path, env.callbackPath);
    forall k | k in b.jar && k.name == name && Live(b.jar[k], b.now) ensures k == key {
      assert EntryOk(env, k, b.jar[k]);
    }
    if key in b.jar && Live(b.jar[key], b.now) {
      assert Belongs(env.site, key, b.jar[key], path, b.now);
      FirstSentUnique(sent, name, b.jar[key].value);
      assert (key.name, b.jar[key].value) in sent;
    } else {
      forall i | 0 <= i < |sent| ensures sent[i].0 != name {
        assert SentFrom(env.site, b.jar, path, b.now, sent[i]);
        var k :| k in b.jar && Belongs(env.site, k, b.jar[k], path, b.now) && sent[i] == (k.name, b.jar[k].value);
      }
      FirstSentUnique(sent, name, "");
    }
  }

  /** The check on the cookies of a browser that matches a pending login. */
  lemma CheckOfPending(env: Env, o: Oracles, b: Browser, p: Pending, path: string, sent: seq<(string, string)>,
                       stateParam: string)
    requires env.Valid() && JarOk(env, b.jar) && Matches(env, b.jar, p, b.now)
    requires p.login.Some? ==> Generated(p.login.value.st)
    requires Sends(env.site, b.jar, path, b.now, sent) && IsCallback(path, env.callbackPath)
    ensures var check := CheckCallback(env, HeaderOf(sent), stateParam, o.safe);
            if Accepts(p, b.now, stateParam) then
              && check.Proceed? && check.verifier == p.login.value.st.codeVerifier
              && check.nonce == Some(p.login.value.st.nonce)
              && (!HasStray(env, b.jar, b.now) ==> check.returnTo == ReturnTarget(TargetRead(p, b.now), o.safe))
            else check.RedirectToLogin?
  {
    ReadTemp(env, b, path, sent, env.temp.verifier);
    ReadTemp(env, b, path, sent, env.temp.state);
    ReadTemp(env, b, path, sent, env.temp.nonce);
    if p.login.Some? {
      StoredValueIsValue(p.login.value.st.codeVerifier);
      StoredValueIsValue(p.login.value.st.state);
      StoredValueIsValue(p.login.value.st.nonce);
      if !HasStray(env, b.jar, b.now) {
        ReadTemp(env, b, path, sent, env.temp.returnTo);
      }
    }
  }

  /** The pending login is alive and has this state. */
  predicate Accepts(p: Pending, now: int, stateParam: string)
  {
    p.login.Some? && now <= p.login.value.until && stateParam == p.login.value.st.state
  }

  /**
   Over every run of interleaved logins, callbacks, other traffic and waiting, the callback accepts
   exactly the state of the last login started since the last exit, for 300 seconds, and then proceeds
   with that login's verifier and nonce; every other state, of earlier logins or later than that, is
   sent back to the login page. The return target is the one stored under the host, that login's own if it
   names no other domain, unless some login of the last 300 seconds asked for a target that strays.
   */
  lemma {:induction false} LoginRoundTrip(env: Env, o: Oracles, b: Browser, events: seq<Event>, path: string,
                                          sent: seq<(string, string)>, stateParam: string)
    requires env.Valid() && JarOk(env, b.jar) && NoTempCookies(env, b.jar, b.now) && AllAllowed(env, events)
    requires var after := Run(env, o, b, events); Sends(env.site, after.jar, path, after.now, sent)
    requires IsCallback(path, env.callbackPath)
    ensures var now, p := Run(env, o, b, events).now, PendingRun(env, o, b, NOTHING, events);
            var check := CheckCallback(env, HeaderOf(sent), stateParam, o.safe);
            if Accepts(p, now, stateParam) then
              && check.Proceed? && check.verifier == p.login.value.st.codeVerifier
              && check.nonce == Some(p.login.value.st.nonce)
              && (!SomeStrays(env, o, b, events, now) ==> check.returnTo == ReturnTarget(TargetRead(p, now), o.safe))
            else check.RedirectToLogin?
  {
    var end := Run(env, o, b, events);
    NothingHeld(env, b.jar, b.now);
    RunMatches(env, o, b, NOTHING, events);
    TimePasses(env, o, b, events);
    NoStrayStays(env, b.jar, b.now, end.now);
    RunStrays(env, o, b, events, end.now);
    PendingIsGenerated(env, o, b, NOTHING, events);
    CheckOfPending(env, o, end, PendingRun(env, o, b, NOTHING, events), path, sent, stateParam);
  }

  /** Some node of the exchange is the first to answer, with usable tokens and an ID token of this nonce. */
  ghost predicate TokensAgree(attempts: seq<ExchangeAttempt>, nonce: string, decodeNonce: string -> Option<string>)
  {
    exists k: nat ::
      FirstAnswer(attempts, k) && Usable(attempts[k]) && NonceAgrees(Some(nonce), attempts[k].json.idToken, decodeNonce)
  }

  /**
   Over every run: a callback with a code and a state completes a login if and only if the state is that of the
   pending login and the exchange brings tokens of its nonce. It then leads to the stored return target as the
   redirect check gives it, or to `/`, unless a strayed target is alive; a refusal leads to the login page.
   */
  lemma {:induction false} LoginCompletesIff(env: Env, o: Oracles, b: Browser, events: seq<Event>, path: string,
                                             query: string, sent: seq<(string, string)>, attempts: seq<ExchangeAttempt>)
    requires env.Valid() && JarOk(env, b.jar) && NoTempCookies(env, b.jar, b.now) && AllAllowed(env, events)
    requires var after := Run(env, o, b, events); Sends(env.site, after.jar, path, after.now, sent)
    ensures var now, p := Run(env, o, b, events).now, PendingRun(env, o, b, NOTHING, events);
            var response := CallbackResponse(env, o, Callback(path, query, sent, attempts));
            match Intercept(path, query, env.callbackPath)
            case NotIntercepted => response.None?
            case Denied => response.Some? && response.value.location == LoginDenied
            case Handle(_, state) =>
              && response.Some?
              && (response.value.location.ReturnTo? <==>
                    Accepts(p, now, state) && TokensAgree(attempts, p.login.value.st.nonce, o.decodeNonce))
              && (response.value.location.ReturnTo? && !SomeStrays(env, o, b, events, now) ==>
                    var target := TargetRead(p, now);
                    response.value.location == ReturnTo(if target.Some? && o.safe(target.value).Some?
                                                        then o.safe(target.value).value else "/"))
  {
    match Intercept(path, query, env.callbackPath) {
      case NotIntercepted =>
      case Denied =>
      case Handle(_, state) =>
        LoginRoundTrip(env, o, b, events, path, sent, state);
        PassesIsCheckSequence(env, HeaderOf(sent), state, attempts, o.safe, o.decodeNonce);
        PassesOnAccept(env, o, HeaderOf(sent), state, attempts);
        ExchangedFromFirstAnswer(attempts);
    }
  }

  lemma PassesOnAccept(env: Env, o: Oracles, header: Option<string>, state: string, attempts: seq<ExchangeAttempt>)
    ensures var check := CheckCallback(env, header, state, o.safe);
            var location := HandleOauthCallback(env, header, state, attempts, o.safe, o.decodeNonce).location;
            && (location.ReturnTo? ==> check.Proceed? && location.target == check.returnTo)
            && (check.Proceed? && check.nonce.Some? ==>
                  (location.ReturnTo? <==> TokensAgree(attempts, check.nonce.value, o.decodeNonce)))
  {
    ExchangedFromFirstAnswer(attempts);
  }

  /**
   A login started at a plain target, completed within 300 seconds with no other login, exit or live stray in
   between, brings the browser back to that target as the redirect check gives it.
   */
  lemma {:induction false} LoginReturnsToTarget(env: Env, o: Oracles, b: Browser, whole: seq<Event>, events: seq<Event>,
                             more: seq<Event>, st: OAuthState, path: string, query: string, code: string,
                             sent: seq<(string, string)>, attempts: seq<ExchangeAttempt>)
    requires env.Valid() && JarOk(env, b.jar) && NoTempCookies(env, b.jar, b.now) && AllAllowed(env, whole)
    requires whole == events + more && events != [] && Starts(env, o, events[|events| - 1])
    requires st == events[|events| - 1].st
    requires PlainValue(st.returnTo) && st.returnTo != "" && st.returnTo[0] == '/' && o.safe(st.returnTo).Some?
    requires forall i | 0 <= i < |more| :: !Starts(env, o, more[i]) && !Exits(env, o, more[i])
    requires var end := Run(env, o, b, whole);
             && end.now <= Run(env, o, b, events[..|events| - 1]).now + 300
             && !SomeStrays(env, o, b, whole, end.now) && Sends(env.site, end.jar, path, end.now, sent)
    requires Intercept(path, query, env.callbackPath) == Handle(code, st.state)
    requires TokensAgree(attempts, st.nonce, o.decodeNonce)
    ensures var response := CallbackResponse(env, o, Callback(path, query, sent, attempts));
            response.Some? && response.value.location == ReturnTo(o.safe(st.returnTo).value)
  {
    var before := events[..|events| - 1];
    var p, now := PendingRun(env, o, b, NOTHING, before), Run(env, o, b, before).now;
    PendingIsLastLogin(env, o, b, events, more);
    PlainLoginIsPending(env, p, st, now, Run(env, o, b, whole).now);
    CompletedAt(env, o, b, whole, Started(env, p, st, now), path, query, code, sent, attempts);
  }

  lemma PlainLoginIsPending(env: Env, p: Pending, st: OAuthState, now: int, later: int)
    requires PlainValue(st.returnTo) && st.returnTo != "" && st.returnTo[0] == '/'
    requires later <= now + 300
    ensures Accepts(Started(env, p, st, now), later, st.state)
    ensures TargetRead(Started(env, p, st, now), later) == Some(st.returnTo)
  {
    PlainValueStaysHome(env.site, st.returnTo);
    ReturnTargetRoundTrip(st.returnTo);
  }

  lemma {:induction false} CompletedAt(env: Env, o: Oracles, b: Browser, events: seq<Event>, p: Pending, path: string,
                                       query: string, code: string, sent: seq<(string, string)>,
                                       attempts: seq<ExchangeAttempt>)
    requires env.Valid() && JarOk(env, b.jar) && NoTempCookies(env, b.jar, b.now) && AllAllowed(env, events)
    requires var end := Run(env, o, b, events);
             && !SomeStrays(env, o, b, events, end.now) && Sends(env.site, end.jar, path, end.now, sent)
             && TargetRead(p, end.now).Some? && o.safe(TargetRead(p, end.now).value).Some?
    requires p == PendingRun(env, o, b, NOTHING, events) && p.login.Some?
    requires Accepts(p, Run(env, o, b, events).now, p.login.value.st.state)
    requires Intercept(path, query, env.callbackPath) == Handle(code, p.login.value.st.state)
    requires TokensAgree(attempts, p.login.value.st.nonce, o.decodeNonce)
    ensures var response := CallbackResponse(env, o, Callback(path, query, sent, attempts));
            && response.Some?
            && response.value.location == ReturnTo(o.safe(TargetRead(p, Run(env, o, b, events).now).value).value)
  {
    LoginCompletesIff(env, o, b, events, path, query, sent, attempts);
  }

  lemma NothingHeld(env: Env, jar: Jar, now: int)
    requires NoTempCookies(env, jar, now)
    ensures !HasStray(env, jar, now) && Matches(env, jar, NOTHING, now)
  {
    forall name | env.temp.Has(name) ensures Gone(jar, TempKey(env, name), now) {
      assert env.temp.Has(TempKey(env, name).name);
    }
  }

  lemma {:induction false} PendingIsGenerated(env: Env, o: Oracles, b: Browser, p: Pending, events: seq<Event>)
    requires AllAllowed(env, events) && (p.login.Some? ==> Generated(p.login.value.st))
    ensures var after := PendingRun(env, o, b, p, events); after.login.Some? ==> Generated(after.login.value.st)
    decreases events
  {
    if events == [] {
    } else {
      PendingIsGenerated(env, o, Step(env, o, b, events[0]), PendingStep(env, o, b, p, events[0]), events[1..]);
    }
  }

  /**
   What is pending: the secrets of an authorize step of the run after which no other login and no exit was
   answered, and its return target, or, if that names another domain, the one pending before.
   */
  lemma {:induction false} PendingIsLastLogin(env: Env, o: Oracles, b: Browser, events: seq<Event>, more: seq<Event>)
    requires events != [] && Starts(env, o, events[|events| - 1])
    requires forall i | 0 <= i < |more| :: !Starts(env, o, more[i]) && !Exits(env, o, more[i])
    ensures var before := events[..|events| - 1];
            PendingRun(env, o, b, NOTHING, events + more) ==
            Started(env, PendingRun(env, o, b, NOTHING, before), events[|events| - 1].st, Run(env, o, b, before).now)
  {
    var before, last := events[..|events| - 1], events[|events| - 1];
    assert events == before + [last] && [last][1..] == [];
    PendingConcat(env, o, b, NOTHING, events, more);
    PendingConcat(env, o, b, NOTHING, before, [last]);
    PendingStays(env, o, Run(env, o, b, events), PendingRun(env, o, b, NOTHING, events), more);
  }

  lemma {:induction false} PendingConcat(env: Env, o: Oracles, b: Browser, p: Pending, first: seq<Event>,
                                         more: seq<Event>)
    ensures Run(env, o, b, first + more) == Run(env, o, Run(env, o, b, first), more)
    ensures PendingRun(env, o, b, p, first + more) ==
            PendingRun(env, o, Run(env, o, b, first), PendingRun(env, o, b, p, first), more)
    decreases first
  {
    if first == [] {
      assert first + more == more;
    } else {
      assert (first + more)[1..] == first[1..] + more;
      PendingConcat(env, o, Step(env, o, b, first[0]), PendingStep(env, o, b, p, first[0]), first[1..], more);
    }
  }

  lemma {:induction false} PendingStays(env: Env, o: Oracles, b: Browser, p: Pending, more: seq<Event>)
    requires forall i | 0 <= i < |more| :: !Starts(env, o, more[i]) && !Exits(env, o, more[i])
    ensures PendingRun(env, o, b, p, more) == p
    decreases more
  {
    if more == [] {
    } else {
      PendingStays(env, o, Step(env, o, b, more[0]), p, more[1..]);
    }
  }

  /** After the lifetime of the last login's cookies no state is accepted any more. */
  lemma {:induction false} ExpiredLoginIsRejected(env: Env, o: Oracles, b: Browser, whole: seq<Event>,
                                                  events: seq<Event>, more: seq<Event>, path: string,
                                                  sent: seq<(string, string)>, stateParam: string)
    requires env.Valid() && JarOk(env, b.jar) && NoTempCookies(env, b.jar, b.now) && AllAllowed(env, whole)
    requires whole == events + more && events != [] && Starts(env, o, events[|events| - 1])
    requires forall i | 0 <= i < |more| :: !Starts(env, o, more[i]) && !Exits(env, o, more[i])
    requires var after := Run(env, o, b, whole);
             && after.now > Run(env, o, b, events[..|events| - 1]).now + 300
             && Sends(env.site, after.jar, path, after.now, sent)
    requires IsCallback(path, env.callbackPath)
    ensures CheckCallback(env, HeaderOf(sent), stateParam, o.safe).RedirectToLogin?
  {
    PendingIsLastLogin(env, o, b, events, more);
    LoginRoundTrip(env, o, b, whole, path, sent, stateParam);
  }

  /** The stored return target is the requested one exactly when it has no `;` and no surrounding white space. */
  lemma ReturnTargetRoundTrip(returnTo: string)
    requires returnTo != "" && returnTo[0] == '/'
    ensures StripQuotes(StoredValue(returnTo)) == returnTo <==> PlainValue(returnTo)
  {
    StoredValueIsValue(returnTo);
    if StoredValue(returnTo) != returnTo {
      var stored := StoredValue(returnTo);
      SplitHeadShrinks(returnTo, ';');
      TrimFacts(Split(returnTo, ';')[0]);
    }
  }
}
