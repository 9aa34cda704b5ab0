/**
 One request through the gateway: the order of the request filter, the authentication check
 with silent refresh, and the cookies of whatever response leaves
 (apps/gateway/src/authenticate.rs, apps/gateway/src/gateway.rs).
 */
module Gateway {
  import opened Wrappers
  import opened Strings
  import opened Cookie
  import opened SetCookie
  import opened OauthFlow
  import PathMatcher

  // ---- Authentication ----

  datatype TokenExpiry = Valid | NearlyExpired | Expired

  datatype RefreshedTokens = RefreshedTokens(access: string, refresh: string)

  datatype RefreshOutcome = Rotated(tokens: RefreshedTokens) | Skipped | Deduped | Failed

  datatype Identity = Identity(authHeader: string, userId: string, userJti: string)

  datatype Claims = Claims(sub: string, jti: string)

  datatype VerifiedToken = VerifiedToken(userId: string, jti: string, expiry: TokenExpiry)

  /** Everything the gateway asks of others during one request. */
  datatype Peers = Peers(
    /** signature and revocation check of an access token */
    verify: string -> Option<VerifiedToken>,
    /** the refresh walk, given refresh token and user */
    refresh: (string, string) -> RefreshOutcome,
    /** payload decoding without verification */
    decode: string -> Option<Claims>,
    /** answers of the token endpoint nodes */
    attempts: seq<ExchangeAttempt>,
    oracles: Oracles,
    /** fresh secrets of a login; `None` when the random source fails */
    login: Option<LoginSecrets>,
    /** `Set-Cookie` fields of the upstream; `None` when it never answers */
    upstream: Option<seq<string>>)

  datatype LoginSecrets = LoginSecrets(codeVerifier: string, state: string, nonce: string)

  /** Effect of a refresh attempt on the current request. */
  datatype RefreshEffect = RefreshEffect(identity: Option<Identity>, tokens: Option<RefreshedTokens>, block: bool)

  function Bearer(token: string): string
  {
    "Bearer " + token
  }

  function EffectOf(expiry: TokenExpiry, outcome: Option<RefreshOutcome>, decode: string -> Option<Claims>)
    : RefreshEffect
  {
    match outcome
    case Some(Rotated(tokens)) =>
      var identity :=
        match decode(tokens.access)
        case Some(claims) => Some(Identity(Bearer(tokens.access), claims.sub, claims.jti))
        case None => None;
      RefreshEffect(identity, Some(tokens), expiry == Expired && identity.None?)
    case _ => RefreshEffect(None, None, expiry == Expired)
  }

  datatype AuthDecision = Pass | Interrupted(setCookies: seq<string>) | PkceRequired

  /** What the check leaves in the request context, and its decision. */
  datatype Checked = Checked(decision: AuthDecision, identity: Option<Identity>, refreshed: Option<RefreshedTokens>)

  function FailureDecision(isHtmlNav: bool, cookies: seq<string>): AuthDecision
  {
    if isHtmlNav then PkceRequired else Interrupted(cookies)
  }

  function RefreshedCookies(session: SessionNames, refreshed: Option<RefreshedTokens>): seq<string>
  {
    match refreshed
    case Some(tokens) => BuildSessionCookies(session, tokens.access, tokens.refresh, SECURE)
    case None => []
  }

  function ReadCookie(header: Option<string>, name: string): Option<string>
  {
    if header.Some? then ExtractFromHeader(header.value, name) else None
  }

  function CheckedOf(session: SessionNames, header: Option<string>, peers: Peers, isHtmlNav: bool): Checked
  {
    match ReadCookie(header, session.access)
    case None => Checked(FailureDecision(isHtmlNav, []), None, None)
    case Some(token) =>
      match peers.verify(token)
      case None => Checked(FailureDecision(isHtmlNav, []), None, None)
      case Some(verified) =>
        var identity := Some(Identity(Bearer(token), verified.userId, verified.jti));
        if verified.expiry == Valid then Checked(Pass, identity, None)
        else
          var outcome :=
            match ReadCookie(header, session.refresh)
            case None => None
            case Some(refreshToken) => Some(peers.refresh(refreshToken, verified.userId));
          var effect := EffectOf(verified.expiry, outcome, peers.decode);
          var current := if effect.identity.Some? then effect.identity else identity;
          Checked(if effect.block then FailureDecision(isHtmlNav, RefreshedCookies(session, effect.tokens)) else Pass,
                  current, effect.tokens)
  }

  // ---- The request context and the filter ----

  const HEALTH_PATH := "/healthz"
  const METRICS_PATH := "/__gateway/metrics"
  const BEARER := "Bearer "

  /** `route` is the router's index for a path; the secrets guard the metrics page. */
  datatype Config = Config(
    matcher: PathMatcher.PathMatcher,
    env: Env,
    route: string -> nat,
    metricsToken: Option<string>,
    sharedSecret: Option<string>)

  datatype Request = Request(
    verb: string,
    isHttp11: bool,
    hasHost: bool,
    path: string,
    query: string,
    metricsKey: Option<string>,
    authorization: Option<string>,
    cookieFields: seq<string>,
    isHtmlNav: bool,
    rateLimited: bool)

  /** How the request filter ends: an answer to the browser, an error, or forwarding. */
  datatype Exit =
    | BadRequest
    | Healthy
    | MethodNotAllowed
    | Metrics
    | MetricsDenied
    | TooManyRequests
    | CallbackAnswer(setCookies: seq<string>)
    | Unauthorized(setCookies: seq<string>)
    | LoginRedirect(setCookies: seq<string>)
    | InternalError
    | Forward

  datatype ContextState = ContextState(
    routeIdx: nat,
    pathClass: PathMatcher.PathClass,
    cookieHeader: Option<string>,
    identity: Option<Identity>,
    refreshed: Option<RefreshedTokens>)

  const NEW_CONTEXT := ContextState(0, PathMatcher.Protected, None, None, None)

  predicate IsLocal(path: string)
  {
    path == HEALTH_PATH || path == METRICS_PATH
  }

  /** The metrics secret: the token of its own if not empty, else the shared secret. */
  function MetricsSecret(config: Config): Option<string>
  {
    if config.metricsToken.Some? && config.metricsToken.value != "" then config.metricsToken else config.sharedSecret
  }

  predicate MetricsAllowed(config: Config, request: Request)
  {
    && MetricsSecret(config).Some?
    && (|| request.metricsKey == MetricsSecret(config)
        || request.authorization == Some(BEARER + MetricsSecret(config).value))
  }

  function LocalExit(config: Config, request: Request): Exit
  {
    if request.path == HEALTH_PATH then
      if request.verb == "GET" || request.verb == "HEAD" then Healthy else MethodNotAllowed
    else if MetricsAllowed(config, request) then Metrics
    else MetricsDenied
  }

  function RenewedOf(refreshed: Option<RefreshedTokens>): Option<Tokens>
  {
    if refreshed.Some? then Some(Tokens(refreshed.value.access, refreshed.value.refresh, None)) else None
  }

  /** Where the browser wanted to go: path and query as they were sent. */
  function TargetOf(path: string, query: string): string
  {
    if query == "" then path else path + "?" + query
  }

  /** The 302 to the authorize page, with the refreshed session cookies attached. */
  function LoginExit(config: Config, peers: Peers, returnTo: string, refreshed: Option<RefreshedTokens>): Exit
  {
    match peers.login
    case None => InternalError
    case Some(l) =>
      var st := OAuthState(l.codeVerifier, l.state, l.nonce, returnTo);
      LoginRedirect(AuthorizeRedirect(config.env, st, RenewedOf(refreshed)).setCookies)
  }

  function ExitOf(config: Config, peers: Peers, returnTo: string, checked: Checked): Exit
  {
    match checked.decision
    case Pass => Forward
    case Interrupted(cookies) => Unauthorized(cookies)
    case PkceRequired => LoginExit(config, peers, returnTo, checked.refreshed)
  }

  function Filtered(config: Config, request: Request, peers: Peers): (Exit, ContextState)
  {
    var ctx := NEW_CONTEXT;
    if (request.isHttp11 && !request.hasHost) || PathMatcher.FullCheck(request.path) then (BadRequest, ctx)
    else if IsLocal(request.path) then (LocalExit(config, request), ctx)
    else
      var ctx := ctx.(routeIdx := config.route(request.path),
                      cookieHeader := Collapsed(request.cookieFields),
                      pathClass := config.matcher.Classify(request.path));
      if ctx.pathClass == PathMatcher.Static then (Forward, ctx)
      else if request.rateLimited then (TooManyRequests, ctx)
      else
        match Intercept(request.path, request.query, config.env.callbackPath)
        case Denied => (CallbackAnswer(BuildClearOauthCookies(config.env, SECURE)), ctx)
        case Handle(_, state) =>
          (CallbackAnswer(HandleOauthCallback(config.env, ctx.cookieHeader, state, peers.attempts,
                                              peers.oracles.safe, peers.oracles.decodeNonce).setCookies), ctx)
        case NotIntercepted =>
          if ctx.pathClass == PathMatcher.Public then (Forward, ctx)
          else
            var checked := CheckedOf(config.env.session, ctx.cookieHeader, peers, request.isHtmlNav);
            (ExitOf(config, peers, TargetOf(request.path, request.query), checked),
             ctx.(identity := checked.identity, refreshed := checked.refreshed))
  }

  /** The request context, filled in step by step. */
  class GatewayCtx {
    var routeIdx: nat
    var pathClass: PathMatcher.PathClass
    var cookieHeader: Option<string>
    var identity: Option<Identity>
    var refreshed: Option<RefreshedTokens>

    constructor ()
      ensures State() == NEW_CONTEXT
    {
      routeIdx, pathClass := 0, PathMatcher.Protected;
      cookieHeader, identity, refreshed := None, None, None;
    }

    ghost function State(): ContextState
      reads this
    {
      ContextState(routeIdx, pathClass, cookieHeader, identity, refreshed)
    }

    method TryRefreshSession(session: SessionNames, peers: Peers) returns (outcome: Option<RefreshOutcome>)
      requires identity.Some?
      ensures outcome ==
              match ReadCookie(cookieHeader, session.refresh)
              case None => None
              case Some(refreshToken) => Some(peers.refresh(refreshToken, identity.value.userId))
    {
      if cookieHeader.None? {
        return None;
      }
      var refreshToken := ExtractFromHeader(cookieHeader.value, session.refresh);
      if refreshToken.None? {
        return None;
      }
      outcome := Some(peers.refresh(refreshToken.value, identity.value.userId));
    }

    /** Verification, refresh and the decision; records identity and rotated tokens on the way. */
    method Check(session: SessionNames, peers: Peers, isHtmlNav: bool) returns (decision: AuthDecision)
      requires identity.None? && refreshed.None?
      modifies this`identity, this`refreshed
      ensures Checked(decision, identity, refreshed) == CheckedOf(session, cookieHeader, peers, isHtmlNav)
    {
      var token := ReadCookie(cookieHeader, session.access);
      if token.None? {
        return FailureDecision(isHtmlNav, []);
      }
      var verified := peers.verify(token.value);
      if verified.None? {
        return FailureDecision(isHtmlNav, []);
      }
      identity := Some(Identity(Bearer(token.value), verified.value.userId, verified.value.jti));
      if verified.value.expiry == Valid {
        return Pass;
      }
      var outcome := TryRefreshSession(session, peers);
      var effect := EffectOf(verified.value.expiry, outcome, peers.decode);
      if effect.tokens.Some? {
        refreshed := effect.tokens;
      }
      if effect.identity.Some? {
        identity := effect.identity;
      }
      if effect.block {
        decision := FailureDecision(isHtmlNav, RefreshedCookies(session, refreshed));
      } else {
        decision := Pass;
      }
    }

    /** `request_filter`: screening, classification, callback, authentication, in this order. */
    method RequestFilter(config: Config, request: Request, peers: Peers) returns (exit: Exit)
      requires State() == NEW_CONTEXT
      modifies this
      ensures (exit, State()) == Filtered(config, request, peers)
    {
      if request.isHttp11 && !request.hasHost {
        return BadRequest;
      }
      var dots := PathMatcher.HasDotSegments(request.path);
      if dots {
        return BadRequest;
      }
      if request.path == HEALTH_PATH {
        if !(request.verb == "GET" || request.verb == "HEAD") {
          return MethodNotAllowed;
        }
        return Healthy;
      }
      if request.path == METRICS_PATH {
        var secret := MetricsSecret(config);
        var keyOk := secret.Some? && request.metricsKey.Some? && request.metricsKey.value == secret.value;
        var token := if request.authorization.Some? then StripPrefix(request.authorization.value, BEARER) else None;
        var bearerOk := secret.Some? && token.Some? && token.value == secret.value;
        if !(keyOk || bearerOk) {
          return MetricsDenied;
        }
        return Metrics;
      }
      routeIdx := config.route(request.path);
      var header := CollapseCookieHeader(request.cookieFields);
      cookieHeader := header;
      pathClass := config.matcher.Classify(request.path);
      if pathClass == PathMatcher.Static {
        return Forward;
      }
      if request.rateLimited {
        return TooManyRequests;
      }
      match Intercept(request.path, request.query, config.env.callbackPath) {
        case NotIntercepted =>
        case Denied => return CallbackAnswer(BuildClearOauthCookies(config.env, SECURE));
        case Handle(_, state) =>
          return CallbackAnswer(HandleOauthCallback(config.env, cookieHeader, state, peers.attempts,
                                                    peers.oracles.safe, peers.oracles.decodeNonce).setCookies);
      }
      if pathClass == PathMatcher.Public {
        return Forward;
      }
      var decision := Check(config.env.session, peers, request.isHtmlNav);
      match decision {
        case Pass => exit := Forward;
        case Interrupted(cookies) => exit := Unauthorized(cookies);
        case PkceRequired => exit := LoginExit(config, peers, TargetOf(request.path, request.query), refreshed);
      }
    }
  }

  /**
   The `Set-Cookie` fields the browser finally receives, in order. A response of the gateway whose cookies
   cannot all be written as headers fails, and so does a proxied one whose identity headers towards the upstream
   or whose new session cookies cannot.
   */
  function SentToBrowser(session: SessionNames, exit: Exit, ctx: ContextState, peers: Peers): seq<string>
  {
    match exit
    case CallbackAnswer(cookies) => Answered(peers, cookies)
    case Unauthorized(cookies) => Answered(peers, cookies)
    case LoginRedirect(cookies) => Answered(peers, cookies)
    case Forward =>
      var renewed := RefreshedCookies(session, ctx.refreshed);
      if && peers.upstream.Some? && IdentityWritable(peers.oracles.writable, ctx.identity)
         && Writable(peers.oracles.writable, renewed)
      then peers.upstream.value + renewed
      else []
    case _ => []
  }

  /** The three identity headers of a forwarded request can be written. */
  predicate IdentityWritable(writable: string -> bool, identity: Option<Identity>)
  {
    match identity
    case Some(id) => writable(id.authHeader) && writable(id.userId) && writable(id.userJti)
    case None => true
  }

  function Answered(peers: Peers, cookies: seq<string>): seq<string>
  {
    if Writable(peers.oracles.writable, cookies) then cookies else []
  }

  function Response(config: Config, request: Request, peers: Peers): seq<string>
  {
    var (exit, ctx) := Filtered(config, request, peers);
    SentToBrowser(config.env.session, exit, ctx, peers)
  }

  // ---- A rotation reaches the browser ----

  /** The path belongs to the signed-in area. */
  predicate NeedsIdentity(pathClass: PathMatcher.PathClass)
  {
    pathClass == PathMatcher.Protected || pathClass == PathMatcher.Microservice
  }

  /** The request comes as far as the authentication check. */
  predicate ReachesCheck(config: Config, request: Request)
  {
    && !(request.isHttp11 && !request.hasHost)
    && !PathMatcher.FullCheck(request.path) && !IsLocal(request.path) && !request.rateLimited
    && NeedsIdentity(config.matcher.Classify(request.path))
    && Intercept(request.path, request.query, config.env.callbackPath) == NotIntercepted
  }

  /** The access token of the cookies, if it verifies. */
  function Verified(session: SessionNames, header: Option<string>, peers: Peers): Option<VerifiedToken>
  {
    if header.Some? && ExtractFromHeader(header.value, session.access).Some? then
      peers.verify(ExtractFromHeader(header.value, session.access).value)
    else None
  }

  /** The identity that the request's own cookies prove. */
  function ProvenIdentity(session: SessionNames, header: Option<string>, peers: Peers): Option<Identity>
  {
    var verified := Verified(session, header, peers);
    if verified.None? then None
    else
      var access := ExtractFromHeader(header.value, session.access).value;
      Some(Identity("Bearer " + access, verified.value.userId, verified.value.jti))
  }

  /** The identity of a request that rotated: read from the new access token, or proven by the old one. */
  function RotatedIdentity(session: SessionNames, header: Option<string>, peers: Peers, tokens: RefreshedTokens)
    : Option<Identity>
  {
    match peers.decode(tokens.access)
    case Some(claims) => Some(Identity("Bearer " + tokens.access, claims.sub, claims.jti))
    case None => ProvenIdentity(session, header, peers)
  }

  /** The Portal rotates on these cookies: the access token verifies, is not fresh, and the refresh token is taken. */
  predicate Rotates(session: SessionNames, header: Option<string>, peers: Peers, tokens: RefreshedTokens)
  {
    var verified := Verified(session, header, peers);
    && verified.Some? && verified.value.expiry != Valid
    && var refresh := ExtractFromHeader(header.value, session.refresh);
       refresh.Some? && peers.refresh(refresh.value, verified.value.userId) == Rotated(tokens)
  }

  /** In this request the Portal rotated the tokens: the old refresh token is already revoked. */
  predicate RotatedIn(config: Config, request: Request, peers: Peers, tokens: RefreshedTokens)
  {
    ReachesCheck(config, request) && Rotates(config.env.session, Collapsed(request.cookieFields), peers, tokens)
  }

  lemma CheckRecordsRotation(session: SessionNames, header: Option<string>, peers: Peers, isHtmlNav: bool,
                             tokens: RefreshedTokens)
    ensures CheckedOf(session, header, peers, isHtmlNav).refreshed == Some(tokens) <==>
            Rotates(session, header, peers, tokens)
    ensures var checked := CheckedOf(session, header, peers, isHtmlNav);
            checked.refreshed == Some(tokens) ==>
              checked.decision ==
              if Verified(session, header, peers).value.expiry == Expired && peers.decode(tokens.access).None? then
                FailureDecision(isHtmlNav, BuildSessionCookies(session, tokens.access, tokens.refresh, SECURE))
              else Pass
    ensures var checked := CheckedOf(session, header, peers, isHtmlNav);
            checked.refreshed == Some(tokens) ==> checked.identity == RotatedIdentity(session, header, peers, tokens)
  {
  }

  lemma CheckReached(config: Config, request: Request, peers: Peers)
    requires ReachesCheck(config, request)
    ensures var checked := CheckedOf(config.env.session, Collapsed(request.cookieFields), peers, request.isHtmlNav);
            var (exit, ctx) := Filtered(config, request, peers);
            && exit == ExitOf(config, peers, TargetOf(request.path, request.query), checked)
            && ctx.refreshed == checked.refreshed && ctx.identity == checked.identity
            && ctx.cookieHeader == Collapsed(request.cookieFields)
            && NeedsIdentity(ctx.pathClass)
  {
  }

  lemma CheckNotReached(config: Config, request: Request, peers: Peers)
    requires !ReachesCheck(config, request)
    ensures var (exit, ctx) := Filtered(config, request, peers);
            ctx.refreshed == None && ctx.identity == None && (exit == Forward ==> !NeedsIdentity(ctx.pathClass))
  {
  }

  lemma CheckDecides(config: Config, request: Request, peers: Peers)
    ensures var checked := CheckedOf(config.env.session, Collapsed(request.cookieFields), peers, request.isHtmlNav);
            var (exit, ctx) := Filtered(config, request, peers);
            if ReachesCheck(config, request) then
              && exit == ExitOf(config, peers, TargetOf(request.path, request.query), checked)
              && ctx.refreshed == checked.refreshed && ctx.identity == checked.identity
              && ctx.cookieHeader == Collapsed(request.cookieFields)
              && NeedsIdentity(ctx.pathClass)
            else ctx.refreshed == None && ctx.identity == None && (exit == Forward ==> !NeedsIdentity(ctx.pathClass))
  {
    if ReachesCheck(config, request) {
      CheckReached(config, request, peers);
    } else {
      CheckNotReached(config, request, peers);
    }
  }

  /** The context records a rotation exactly when there was one. */
  lemma RotationIsRecorded(config: Config, request: Request, peers: Peers, tokens: RefreshedTokens)
    ensures Filtered(config, request, peers).1.refreshed == Some(tokens) <==> RotatedIn(config, request, peers, tokens)
  {
    CheckDecides(config, request, peers);
    CheckRecordsRotation(config.env.session, Collapsed(request.cookieFields), peers, request.isHtmlNav, tokens);
  }

  // ---- What every request is answered ----

  /** The session cookies that go with a refusal: the new pair if the Portal rotated, else none. */
  ghost predicate IsNewPair(session: SessionNames, header: Option<string>, peers: Peers, cookies: seq<string>)
  {
    && ((forall tokens :: !Rotates(session, header, peers, tokens)) ==> cookies == [])
    && forall tokens | Rotates(session, header, peers, tokens) ::
         cookies == BuildSessionCookies(session, tokens.access, tokens.refresh, SECURE)
  }

  /** The request may go on: its access cookie verifies and has not expired, or it rotated to a readable token. */
  ghost predicate Authenticated(session: SessionNames, header: Option<string>, peers: Peers)
  {
    && Verified(session, header, peers).Some?
    && (|| Verified(session, header, peers).value.expiry != Expired
        || exists tokens :: Rotates(session, header, peers, tokens) && peers.decode(tokens.access).Some?)
  }

  /**
   The answer to every request of the signed-in area. Authenticated ones are forwarded. Of the others a page
   navigation is sent to the login with the four cookies of a login for exactly this path and query, or fails when
   there are no secrets to be had; anything else is refused. New tokens go along either way.
   */
  lemma AnswerOfSignedInArea(config: Config, request: Request, peers: Peers)
    requires ReachesCheck(config, request)
    ensures var session, header := config.env.session, Collapsed(request.cookieFields);
            var exit := Filtered(config, request, peers).0;
            && (exit == Forward <==> Authenticated(session, header, peers))
            && (exit != Forward && !request.isHtmlNav ==>
                  exit.Unauthorized? && IsNewPair(session, header, peers, exit.setCookies))
            && (exit != Forward && request.isHtmlNav && peers.login.None? ==> exit == InternalError)
            && (exit != Forward && request.isHtmlNav && peers.login.Some? ==>
                  var target := if request.query == "" then request.path else request.path + "?" + request.query;
                  var l := peers.login.value;
                  var login :=
                    BuildOauthCookies(config.env, OAuthState(l.codeVerifier, l.state, l.nonce, target), SECURE);
                  && exit.LoginRedirect? && login <= exit.setCookies
                  && IsNewPair(session, header, peers, exit.setCookies[|login|..]))
  {
    var session, header := config.env.session, Collapsed(request.cookieFields);
    CheckReached(config, request, peers);
    var checked := CheckedOf(session, header, peers, request.isHtmlNav);
    CheckPasses(session, header, peers, request.isHtmlNav);
    CheckRefuses(session, header, peers, request.isHtmlNav);
    if checked.decision == PkceRequired && peers.login.Some? {
      var l := peers.login.value;
      var target := TargetOf(request.path, request.query);
      var login := BuildOauthCookies(config.env, OAuthState(l.codeVerifier, l.state, l.nonce, target), SECURE);
      var exit := LoginExit(config, peers, target, checked.refreshed);
      assert exit.setCookies == login + RefreshedCookies(session, checked.refreshed);
      assert exit.setCookies[|login|..] == RefreshedCookies(session, checked.refreshed);
    }
  }

  lemma CheckPasses(session: SessionNames, header: Option<string>, peers: Peers, isHtmlNav: bool)
    ensures CheckedOf(session, header, peers, isHtmlNav).decision == Pass <==> Authenticated(session, header, peers)
  {
    var checked := CheckedOf(session, header, peers, isHtmlNav);
    if checked.refreshed.Some? {
      CheckRecordsRotation(session, header, peers, isHtmlNav, checked.refreshed.value);
    }
    forall tokens | Rotates(session, header, peers, tokens) ensures checked.refreshed == Some(tokens) {
      CheckRecordsRotation(session, header, peers, isHtmlNav, tokens);
    }
  }

  lemma CheckRefuses(session: SessionNames, header: Option<string>, peers: Peers, isHtmlNav: bool)
    ensures var checked := CheckedOf(session, header, peers, isHtmlNav);
            var cookies := RefreshedCookies(session, checked.refreshed);
            && (checked.decision != Pass ==>
                  checked.decision == if isHtmlNav then PkceRequired else Interrupted(cookies))
            && IsNewPair(session, header, peers, cookies)
  {
    var checked := CheckedOf(session, header, peers, isHtmlNav);
    if checked.refreshed.Some? {
      CheckRecordsRotation(session, header, peers, isHtmlNav, checked.refreshed.value);
    }
    forall tokens | Rotates(session, header, peers, tokens) ensures checked.refreshed == Some(tokens) {
      CheckRecordsRotation(session, header, peers, isHtmlNav, tokens);
    }
  }

  /** A login redirect puts into the browser what an authorize step of a login run puts there. */
  lemma LoginRedirectIsAuthorize(config: Config, request: Request, peers: Peers)
    requires ReachesCheck(config, request) && Filtered(config, request, peers).0.LoginRedirect?
    ensures peers.login.Some?
    ensures var l := peers.login.value;
            var st := OAuthState(l.codeVerifier, l.state, l.nonce, TargetOf(request.path, request.query));
            exists renewed ::
              Response(config, request, peers) == Delivered(config.env, peers.oracles, Authorize(st, renewed))
  {
    CheckReached(config, request, peers);
    var checked := CheckedOf(config.env.session, Collapsed(request.cookieFields), peers, request.isHtmlNav);
    var l := peers.login.value;
    var st := OAuthState(l.codeVerifier, l.state, l.nonce, TargetOf(request.path, request.query));
    assert Response(config, request, peers) ==
           Delivered(config.env, peers.oracles, Authorize(st, RenewedOf(checked.refreshed)));
  }

  /** The secret that opens the metrics page: the metrics token unless empty, else the shared secret. */
  ghost predicate OpensMetrics(config: Config, secret: string)
  {
    || (secret != "" && config.metricsToken == Some(secret))
    || ((config.metricsToken == None || config.metricsToken == Some("")) && config.sharedSecret == Some(secret))
  }

  /** A request that the screen turns away, whatever else it asks for. */
  predicate Screened(request: Request)
  {
    (request.isHttp11 && !request.hasHost) || PathMatcher.FullCheck(request.path)
  }

  /** The answers that need no routing: the screen's refusal and the two local pages. */
  lemma LocalAnswers(config: Config, request: Request, peers: Peers)
    ensures Filtered(config, request, peers).0 == BadRequest <==> Screened(request)
    ensures !Screened(request) && request.path == "/healthz" ==>
              Filtered(config, request, peers).0 ==
              if request.verb == "GET" || request.verb == "HEAD" then Healthy else MethodNotAllowed
    ensures !Screened(request) && request.path == "/__gateway/metrics" ==>
              Filtered(config, request, peers).0 == LocalExit(config, request)
  {
    assert "/healthz" != "/__gateway/metrics" by {
      assert |"/healthz"| != |"/__gateway/metrics"|;
    }
  }

  /** The metrics page opens exactly to the secret, in its own header or as a bearer token. */
  lemma MetricsAnswer(config: Config, request: Request, peers: Peers)
    requires !Screened(request) && request.path == "/__gateway/metrics"
    ensures var exit := Filtered(config, request, peers).0;
            && (exit == Metrics || exit == MetricsDenied)
            && (exit == Metrics <==>
                  exists secret :: OpensMetrics(config, secret) &&
                    (request.metricsKey == Some(secret) || request.authorization == Some("Bearer " + secret)))
  {
    LocalAnswers(config, request, peers);
    MetricsAllowedIff(config, request);
    assert |"/healthz"| != |request.path|;
  }

  lemma MetricsAllowedIff(config: Config, request: Request)
    ensures MetricsAllowed(config, request) <==>
            exists secret :: OpensMetrics(config, secret) &&
              (request.metricsKey == Some(secret) || request.authorization == Some("Bearer " + secret))
  {
    if MetricsSecret(config).Some? {
      assert OpensMetrics(config, MetricsSecret(config).value);
    }
  }

  /** Past the local answers: static files, the rate limit, the login callback and public paths. */
  lemma RoutedAnswers(config: Config, request: Request, peers: Peers)
    requires !Screened(request) && request.path != "/healthz" && request.path != "/__gateway/metrics"
    ensures var exit := Filtered(config, request, peers).0;
            var pathClass := config.matcher.Classify(request.path);
            var called := Intercept(request.path, request.query, config.env.callbackPath);
            && (pathClass == PathMatcher.Static ==> exit == Forward)
            && (exit == TooManyRequests <==> request.rateLimited && pathClass != PathMatcher.Static)
            && (pathClass != PathMatcher.Static && !request.rateLimited ==>
                  && (exit.CallbackAnswer? <==> called != NotIntercepted)
                  && (called == Denied ==> exit.setCookies == BuildClearOauthCookies(config.env, SECURE))
                  && (called.Handle? ==> exit.setCookies == CallbackCookies(config, request, peers, called.state))
                  && (called == NotIntercepted && pathClass == PathMatcher.Public ==> exit == Forward)
                  && (called == NotIntercepted && pathClass != PathMatcher.Public ==> ReachesCheck(config, request)))
  {
    assert Filtered(config, request, peers).0 == TooManyRequests ==> !ReachesCheck(config, request);
  }

  /** The cookies of the callback handler on this request's own cookies. */
  function CallbackCookies(config: Config, request: Request, peers: Peers, state: string): seq<string>
  {
    HandleOauthCallback(config.env, Collapsed(request.cookieFields), state, peers.attempts,
                        peers.oracles.safe, peers.oracles.decodeNonce).setCookies
  }

  /** What the request context holds once a request is past the local answers; before, it is as it was made. */
  lemma ContextOfRequest(config: Config, request: Request, peers: Peers)
    ensures var (exit, ctx) := Filtered(config, request, peers);
            if exit == BadRequest || request.path == "/healthz" || request.path == "/__gateway/metrics" then
              ctx == NEW_CONTEXT
            else
              && ctx.routeIdx == config.route(request.path) && ctx.pathClass == config.matcher.Classify(request.path)
              && ctx.cookieHeader == Collapsed(request.cookieFields)
  {
  }

  /** The new access token cannot stand in for the expired one: the request itself is refused. */
  predicate Refused(config: Config, request: Request, peers: Peers, tokens: RefreshedTokens)
  {
    var verified := Verified(config.env.session, Collapsed(request.cookieFields), peers);
    verified.Some? && verified.value.expiry == Expired && peers.decode(tokens.access).None?
  }

  /** The cookies of a login redirect, written before the session cookies. */
  function LoginCookies(config: Config, request: Request, l: LoginSecrets): seq<string>
  {
    var target := TargetOf(request.path, request.query);
    BuildOauthCookies(config.env, OAuthState(l.codeVerifier, l.state, l.nonce, target), SECURE)
  }

  /**
   When a rotation is lost, read off the inputs alone: the new pair cannot be written as headers; or the
   request is refused, wants a page, and the login redirect cannot be built or written; or the request
   is forwarded, and its identity cannot be written as headers or the upstream never answers.
   */
  predicate Lost(config: Config, request: Request, peers: Peers, tokens: RefreshedTokens)
  {
    var pair := BuildSessionCookies(config.env.session, tokens.access, tokens.refresh, SECURE);
    || !Writable(peers.oracles.writable, pair)
    || (if Refused(config, request, peers, tokens) then
          && request.isHtmlNav
          && (peers.login.None? || !Writable(peers.oracles.writable, LoginCookies(config, request, peers.login.value)))
        else
          || peers.upstream.None?
          || var identity := RotatedIdentity(config.env.session, Collapsed(request.cookieFields), peers, tokens);
             identity.Some? && exists text :: text in IdentityTexts(identity.value) && !peers.oracles.writable(text))
  }

  /** What the three identity headers of a forwarded request carry. */
  function IdentityTexts(identity: Identity): seq<string>
  {
    [identity.authHeader, identity.userId, identity.userJti]
  }

  lemma WritableConcat(writable: string -> bool, a: seq<string>, b: seq<string>)
    ensures Writable(writable, a + b) <==> Writable(writable, a) && Writable(writable, b)
  {
    if Writable(writable, a + b) {
      forall i | 0 <= i < |a| ensures writable(a[i]) {
        assert (a + b)[i] == a[i];
      }
      forall i | 0 <= i < |b| ensures writable(b[i]) {
        assert (a + b)[|a| + i] == b[i];
      }
    }
  }

  /** What stands before the new pair in the response to a rotated request. */
  function BeforePair(config: Config, request: Request, peers: Peers, tokens: RefreshedTokens): seq<string>
  {
    if !Refused(config, request, peers, tokens) then if peers.upstream.Some? then peers.upstream.value else []
    else if request.isHtmlNav && peers.login.Some? then LoginCookies(config, request, peers.login.value)
    else []
  }

  /** A rotation ends in a response whose last cookies are the new pair, unless it is lost; then nothing is sent. */
  lemma RotationExit(config: Config, request: Request, peers: Peers, tokens: RefreshedTokens)
    requires RotatedIn(config, request, peers, tokens)
    ensures Response(config, request, peers) ==
            if Lost(config, request, peers, tokens) then []
            else BeforePair(config, request, peers, tokens) +
                 BuildSessionCookies(config.env.session, tokens.access, tokens.refresh, SECURE)
  {
    CheckDecides(config, request, peers);
    CheckRecordsRotation(config.env.session, Collapsed(request.cookieFields), peers, request.isHtmlNav, tokens);
    var (exit, ctx) := Filtered(config, request, peers);
    SentAfterRotation(config, request, peers, tokens, exit, ctx);
  }

  lemma SentAfterRotation(config: Config, request: Request, peers: Peers, tokens: RefreshedTokens, exit: Exit,
                          ctx: ContextState)
    requires ctx.refreshed == Some(tokens)
    requires ctx.identity == RotatedIdentity(config.env.session, Collapsed(request.cookieFields), peers, tokens)
    requires var pair := BuildSessionCookies(config.env.session, tokens.access, tokens.refresh, SECURE);
             exit == if !Refused(config, request, peers, tokens) then Forward
                     else if !request.isHtmlNav then Unauthorized(pair)
                     else LoginExit(config, peers, TargetOf(request.path, request.query), Some(tokens))
    ensures SentToBrowser(config.env.session, exit, ctx, peers) ==
            if Lost(config, request, peers, tokens) then []
            else BeforePair(config, request, peers, tokens) +
                 BuildSessionCookies(config.env.session, tokens.access, tokens.refresh, SECURE)
  {
    var pair := BuildSessionCookies(config.env.session, tokens.access, tokens.refresh, SECURE);
    if exit.LoginRedirect? && peers.login.Some? {
      WritableConcat(peers.oracles.writable, LoginCookies(config, request, peers.login.value), pair);
    }
    assert [] + pair == pair;
  }

  /** The jar holds the rotated pair at the site root. */
  ghost predicate HoldsTokens(session: SessionNames, site: Site, jar: Jar, tokens: RefreshedTokens)
  {
    && HoldsAt(jar, Key(session.access, site.host, "/"), tokens.access)
    && HoldsAt(jar, Key(session.refresh, site.host, "/"), tokens.refresh)
  }

  ghost predicate HoldsAt(jar: Jar, key: Key, token: string)
  {
    key in jar && jar[key].value == StoredValue(token)
  }

  lemma {:induction false} RenewedCookiesLast(session: SessionNames, site: Site, jar: Jar, before: seq<string>,
                                              tokens: RefreshedTokens, now: int)
    requires PlainName(session.access) && PlainName(session.refresh) && session.access != session.refresh
    requires StaysHome(site, tokens.access) && StaysHome(site, tokens.refresh)
    ensures var cookies := BuildSessionCookies(session, tokens.access, tokens.refresh, SECURE);
            HoldsTokens(session, site, Receive(site, jar, before + cookies, "/", now), tokens)
  {
    var cookies := BuildSessionCookies(session, tokens.access, tokens.refresh, SECURE);
    ReceiveConcat(site, jar, before, cookies, "/", now);
    var received := Receive(site, jar, before, "/", now);
    ReceiveSessionCookies(session, site, received, tokens.access, tokens.refresh, SECURE, "/", now);
    PlacementCases(site, tokens.access);
    PlacementCases(site, tokens.refresh);
  }

  /**
   Whenever the Portal rotated, the browser's jar holds the new pair after the response on every exit, a
   proxied answer, a 401 or a login redirect, unless the rotation is lost in one of the ways the inputs
   tell; then nothing reaches the jar. Nothing else in the same response overrides the pair.
   */
  lemma {:induction false} RotatedReachesBrowser(config: Config, request: Request, peers: Peers,
                                                 tokens: RefreshedTokens, jar: Jar, now: int)
    requires config.env.Valid()
    requires StaysHome(config.env.site, tokens.access) && StaysHome(config.env.site, tokens.refresh)
    requires RotatedIn(config, request, peers, tokens)
    ensures var after := Receive(config.env.site, jar, Response(config, request, peers), "/", now);
            if Lost(config, request, peers, tokens) then after == jar
            else HoldsTokens(config.env.session, config.env.site, after, tokens)
  {
    RotationExit(config, request, peers, tokens);
    var before := BeforePair(config, request, peers, tokens);
    RenewedCookiesLast(config.env.session, config.env.site, jar, before, tokens, now);
  }

  /** The pair is held unaltered exactly when neither token has a `;` or surrounding white space. */
  lemma HeldUnaltered(session: SessionNames, site: Site, jar: Jar, tokens: RefreshedTokens)
    requires HoldsTokens(session, site, jar, tokens)
    ensures jar[Key(session.access, site.host, "/")].value == tokens.access &&
            jar[Key(session.refresh, site.host, "/")].value == tokens.refresh
            <==> PlainValue(tokens.access) && PlainValue(tokens.refresh)
  {
    StoredValueIsValue(tokens.access);
    StoredValueIsValue(tokens.refresh);
  }

  // ---- What the upstream gets to see ----

  /**
   Whose identity a forwarded request carries. Outside the signed-in area it carries none. Inside it is the one
   that the request's access cookie proves; or, if the Portal rotated on that cookie's user, the one
   written in the new access token where that can be decoded. An expired token alone never passes.
   */
  lemma ForwardedIdentity(config: Config, request: Request, peers: Peers)
    requires Filtered(config, request, peers).0 == Forward
    ensures var ctx := Filtered(config, request, peers).1;
            var session, header := config.env.session, Collapsed(request.cookieFields);
            if !NeedsIdentity(ctx.pathClass) then ctx.identity == None && ctx.refreshed == None
            else
              && Verified(session, header, peers).Some?
              && if ctx.refreshed.Some? && peers.decode(ctx.refreshed.value.access).Some? then
                   && Rotates(session, header, peers, ctx.refreshed.value)
                   && var claims := peers.decode(ctx.refreshed.value.access).value;
                      ctx.identity == Some(Identity(Bearer(ctx.refreshed.value.access), claims.sub, claims.jti))
                 else
                   && ctx.identity == ProvenIdentity(session, header, peers)
                   && Verified(session, header, peers).value.expiry != Expired
  {
    CheckDecides(config, request, peers);
    var checked := CheckedOf(config.env.session, Collapsed(request.cookieFields), peers, request.isHtmlNav);
    if checked.refreshed.Some? {
      var header := Collapsed(request.cookieFields);
      CheckRecordsRotation(config.env.session, header, peers, request.isHtmlNav, checked.refreshed.value);
    }
  }

  /** What is done to the Cookie field on its way to the upstream. */
  datatype CookieAction = Keep | Remove | Replace(text: string)

  method RewriteUpstreamCookies(session: SessionNames, pathClass: PathMatcher.PathClass, header: Option<string>,
                                refreshed: Option<RefreshedTokens>)
    returns (action: CookieAction)
    requires session.Proper()
    ensures action == UpstreamAction(session, pathClass, header, refreshed)
  {
    match pathClass {
      case Microservice => return Remove;
      case Protected =>
        if header.None? {
          return Keep;
        }
        var access := if refreshed.Some? then Some(refreshed.value.access) else None;
        var rewritten := RewriteProtectedCookies(session, header.value, access);
        return Replace(rewritten);
      case _ => return Keep;
    }
  }

  function UpstreamAction(session: SessionNames, pathClass: PathMatcher.PathClass, header: Option<string>,
                          refreshed: Option<RefreshedTokens>): CookieAction
  {
    match pathClass
    case Microservice => Remove
    case Protected =>
      if header.None? then Keep
      else Replace(Rewritten(session, header.value, if refreshed.Some? then Some(refreshed.value.access) else None))
    case _ => Keep
  }

  /**
   On every forwarded request of the signed-in area the Cookie field is removed or replaced, never kept; the
   replacement holds no refresh token, and after a rotation it holds the new access token.
   */
  lemma UpstreamNeverSeesRefreshToken(config: Config, request: Request, peers: Peers)
    requires config.env.session.Proper()
    requires Filtered(config, request, peers).0 == Forward
    requires NeedsIdentity(Filtered(config, request, peers).1.pathClass)
    requires var ctx := Filtered(config, request, peers).1; ctx.refreshed.Some? ==> ';' !in ctx.refreshed.value.access
    ensures var ctx, session := Filtered(config, request, peers).1, config.env.session;
            var action := UpstreamAction(session, ctx.pathClass, ctx.cookieHeader, ctx.refreshed);
            && action != Keep
            && (action.Replace? ==> ExtractFromHeader(action.text, session.refresh).None?)
            && (action.Replace? && ctx.refreshed.Some? ==>
                  ExtractFromHeader(action.text, session.access) == Some(StripQuotes(ctx.refreshed.value.access)))
  {
    CheckDecides(config, request, peers);
    ForwardedIdentity(config, request, peers);
    var ctx, session := Filtered(config, request, peers).1, config.env.session;
    if ctx.pathClass == PathMatcher.Protected {
      var access := if ctx.refreshed.Some? then Some(ctx.refreshed.value.access) else None;
      RewriteHidesRefreshAndSetsAccess(session, ctx.cookieHeader.value, access, session.refresh);
      RewriteHidesRefreshAndSetsAccess(session, ctx.cookieHeader.value, access, session.access);
    }
  }

  /** What the upstream of a forwarded request reads under every cookie name. */
  lemma UpstreamReads(config: Config, request: Request, peers: Peers, name: string)
    requires config.env.session.Proper() && '=' !in name
    requires Filtered(config, request, peers).0 == Forward
    requires var ctx := Filtered(config, request, peers).1; ctx.refreshed.Some? ==> ';' !in ctx.refreshed.value.access
    ensures var ctx, session := Filtered(config, request, peers).1, config.env.session;
            var action := UpstreamAction(session, ctx.pathClass, ctx.cookieHeader, ctx.refreshed);
            match ctx.pathClass
            case Microservice => action == Remove
            case Protected =>
              && action.Replace? && ctx.cookieHeader.Some?
              && var read := ExtractFromHeader(action.text, name);
                 if name == session.refresh then read.None?
                 else if name == session.access && ctx.refreshed.Some? then
                   read == Some(StripQuotes(ctx.refreshed.value.access))
                 else read == ExtractFromHeader(ctx.cookieHeader.value, name)
            case _ => action == Keep
  {
    var ctx := Filtered(config, request, peers).1;
    if ctx.pathClass == PathMatcher.Protected {
      UpstreamNeverSeesRefreshToken(config, request, peers);
      var action := UpstreamAction(config.env.session, ctx.pathClass, ctx.cookieHeader, ctx.refreshed);
      assert action != Keep && action.Replace?;
      var access := if ctx.refreshed.Some? then Some(ctx.refreshed.value.access) else None;
      RewriteHidesRefreshAndSetsAccess(config.env.session, ctx.cookieHeader.value, access, name);
    }
  }
}
