/**
 What the authentication middleware (internal/api/middleware/auth.go) answers to a request that nobody has
 authenticated yet, told from the request, the event log and the user's row: a table of all its answers.
 */
module GateDecisions {
  import opened Wrappers
  import opened Accounts
  import opened History
  import opened Sessions
  import opened Gate

  /** How a request stands, before the mode is looked at. */
  datatype Standing =
    | NoValue                       // nothing where the token should be
    | NoToken                       // a value, but no token behind the scheme
    | BadFormat                     // a token that the format validator refuses
    | Dead                          // never issued, or revoked since
    | Expired
    | Inactive(credentials: Credentials)
    | Good(credentials: Credentials)

  /** The value at the place the configuration names, by default the header Authorization. */
  function Value(c: AuthConfig, r: Request): string {
    RawToken(c.source, r, if c.sourceKey == "" then "Authorization" else c.sourceKey)
  }

  /** The value is the scheme, by default Bearer, one more character, and this token. */
  ghost predicate Carries(c: AuthConfig, r: Request, token: Token) {
    && token != ""
    && exists separator: char :: Value(c, r) == (if c.scheme == "" then "Bearer" else c.scheme) + [separator] + token
  }

  predicate WellFormedToken(server: Server, c: AuthConfig, token: Token) {
    if c.formatValidator.Some? then c.formatValidator.value(token) else server.isUuid4(token)
  }

  predicate InTime(validUntil: Time, now: Time) {
    validUntil == ZERO_TIME || now <= validUntil
  }

  ghost predicate Stands(server: Server, c: AuthConfig, r: Request, w: World, now: Time, standing: Standing) {
    match standing
    case NoValue => Value(c, r) == ""
    case NoToken => Value(c, r) != "" && forall t :: !Carries(c, r, t)
    case BadFormat => exists t :: Carries(c, r, t) && !WellFormedToken(server, c, t)
    case Dead => exists t :: Carries(c, r, t) && WellFormedToken(server, c, t) && LiveAccess(w.log, t).None?
    case Expired => exists t ::
      && Carries(c, r, t)
      && WellFormedToken(server, c, t)
      && LiveAccess(w.log, t).Some?
      && !InTime(LiveAccess(w.log, t).value.validUntil, now)
    case Inactive(credentials) => Presented(server, c, r, w, now, credentials) && !credentials.user.isActive
    case Good(credentials) => Presented(server, c, r, w, now, credentials) && credentials.user.isActive
  }

  /** A live token of this user, in time, and the user as the table has them. */
  ghost predicate Presented(server: Server, c: AuthConfig, r: Request, w: World, now: Time, credentials: Credentials) {
    && Carries(c, r, credentials.token)
    && WellFormedToken(server, c, credentials.token)
    && LiveAccess(w.log, credentials.token).Some?
    && InTime(LiveAccess(w.log, credentials.token).value.validUntil, now)
    && var user := LiveAccess(w.log, credentials.token).value.user;
       user in w.store.users && credentials.user == ToDto(user, w.store.users[user])
  }

  /** The answer for a standing in a mode other than NoAuth. */
  ghost function Answer(server: Server, c: AuthConfig, w: World, now: Time, standing: Standing): Decision {
    match standing
    case NoValue => if c.mode == Optional || c.mode == Try then Next(None) else Reject(AuthFailure(c.failureMode))
    case NoToken => if c.mode == Try then Next(None) else Reject(AuthFailure(c.failureMode))
    case BadFormat => if c.mode == Try then Next(None) else Reject(MalformedToken)
    case Dead => if c.mode == Try then Next(None) else Reject(AuthFailure(c.failureMode))
    case Expired => if c.mode == Try then Next(None) else Reject(AuthFailure(c.failureMode))
    case Inactive(_) => Reject(DeactivatedUser)
    case Good(credentials) =>
      if c.mode == Secure && !IssuedWithin(w.log, credentials.user.id, now, server.lastAuthenticatedAtThreshold) then
        Reject(LastAuthenticatedAtExceeded)
      else if c.scopes != [] && forall scope :: scope in c.scopes ==> scope !in credentials.user.scopes then
        Reject(MissingScopes)
      else Next(Some(credentials))
  }

  predicate Skips(c: AuthConfig, r: Request) {
    c.mode == NoAuth || (c.skipper.Some? && c.skipper.value(r))
  }

  /** What Extract makes of the value. */
  lemma ExtractedStands(server: Server, c: AuthConfig, r: Request)
    ensures
      var (token, found) := Extract(c.source, r, FillDefaults(server, c).sourceKey, FillDefaults(server, c).scheme);
      && (found <==> Value(c, r) != "")
      && (token != "" ==> found)
      && forall t :: Carries(c, r, t) <==> t != "" && t == token
  {
    var filled := FillDefaults(server, c);
    var (token, found) := Extract(c.source, r, filled.sourceKey, filled.scheme);
    forall t ensures Carries(c, r, t) <==> t != "" && t == token {
      if t != "" {
        ExtractExactly(c.source, r, filled.sourceKey, filled.scheme, t);
      }
    }
  }

  lemma SameStanding(server: Server, c: AuthConfig, r: Request, w: World, now: Time, a: Standing, b: Standing)
    requires Stands(server, c, r, w, now, a) && Stands(server, c, r, w, now, b)
    ensures a == b
  {
    ExtractedStands(server, c, r);
  }

  lemma SomeStanding(cfg: Config, server: Server, c: AuthConfig, r: Request, w: World, now: Time)
    returns (standing: Standing)
    requires Inv(cfg, w)
    ensures Stands(server, c, r, w, now, standing)
  {
    ExtractedStands(server, c, r);
    var filled := FillDefaults(server, c);
    var token := Extract(c.source, r, filled.sourceKey, filled.scheme).0;
    if Value(c, r) == "" {
      standing := NoValue;
    } else if token == "" {
      standing := NoToken;
    } else if !WellFormedToken(server, c, token) {
      standing := BadFormat;
    } else if LiveAccess(w.log, token).None? {
      standing := Dead;
    } else if !InTime(LiveAccess(w.log, token).value.validUntil, now) {
      standing := Expired;
    } else {
      assert AccessAgrees(w, token);
      var user := LiveAccess(w.log, token).value.user;
      var credentials := Credentials(ToDto(user, w.store.users[user]), token);
      standing := if credentials.user.isActive then Good(credentials) else Inactive(credentials);
    }
  }

  /** Every request has a standing, and only one. */
  lemma OneStanding(cfg: Config, server: Server, c: AuthConfig, r: Request, w: World, now: Time)
    returns (standing: Standing)
    requires Inv(cfg, w)
    ensures Stands(server, c, r, w, now, standing)
    ensures forall other :: Stands(server, c, r, w, now, other) ==> other == standing
  {
    standing := SomeStanding(cfg, server, c, r, w, now);
    forall other | Stands(server, c, r, w, now, other) ensures other == standing {
      SameStanding(server, c, r, w, now, other, standing);
    }
  }

  lemma RefusesByTable(cfg: Config, server: Server, c: AuthConfig, r: Request, w: World, now: Time, standing: Standing)
    requires Inv(cfg, w) && !Skips(c, r) && Stands(server, c, r, w, now, standing)
    requires !standing.Good? && !standing.Inactive?
    ensures Decide(server, FillDefaults(server, c), r, None, w.store, now) == Answer(server, c, w, now, standing)
  {
    ExtractedStands(server, c, r);
    var filled := FillDefaults(server, c);
    var token := Extract(c.source, r, filled.sourceKey, filled.scheme).0;
    assert AccessAgrees(w, token);
    if token != "" {
      assert Carries(c, r, token);
      assert WellFormedToken(server, c, token) == filled.formatValidator.value(token);
    }
  }

  /** The answer that the user decides. */
  function ForUser(server: Server, c: AuthConfig, credentials: Credentials, now: Time): Decision {
    if !credentials.user.isActive then Reject(DeactivatedUser)
    else if !CheckLastAuthenticatedAt(server, c, credentials.user, now) then Reject(LastAuthenticatedAtExceeded)
    else if !ScopesOk(c.scopes, credentials.user.scopes) then Reject(MissingScopes)
    else Next(Some(credentials))
  }

  /** A live token in time: what remains is the user. */
  lemma KnownTokenDecides(server: Server, c: AuthConfig, r: Request, s: Store, now: Time, token: Token)
    requires !Skips(c, r) && Carries(c, r, token) && WellFormedToken(server, c, token)
    requires token in s.access && s.access[token].userId in s.users && InTime(s.access[token].validUntil, now)
    ensures
      var user := ToDto(s.access[token].userId, s.users[s.access[token].userId]);
      Decide(server, FillDefaults(server, c), r, None, s, now) == ForUser(server, c, Credentials(user, token), now)
  {
    ExtractedStands(server, c, r);
  }

  lemma UserAnswer(cfg: Config, server: Server, c: AuthConfig, w: World, now: Time, credentials: Credentials)
    requires Inv(cfg, w) && credentials.token in w.store.access
    requires
      var user := w.store.access[credentials.token].userId;
      user in w.store.users && credentials.user == ToDto(user, w.store.users[user])
    ensures ForUser(server, c, credentials, now) ==
      Answer(server, c, w, now, if credentials.user.isActive then Good(credentials) else Inactive(credentials))
  {
    AuthenticatedAtLatestIssue(cfg, w, credentials.token);
  }

  lemma AdmitsByTable(cfg: Config, server: Server, c: AuthConfig, r: Request, w: World, now: Time,
                      credentials: Credentials)
    requires Inv(cfg, w) && !Skips(c, r) && Presented(server, c, r, w, now, credentials)
    ensures Decide(server, FillDefaults(server, c), r, None, w.store, now) ==
      Answer(server, c, w, now, if credentials.user.isActive then Good(credentials) else Inactive(credentials))
  {
    assert AccessAgrees(w, credentials.token);
    KnownTokenDecides(server, c, r, w.store, now, credentials.token);
    UserAnswer(cfg, server, c, w, now, credentials);
  }

  /**
   In every reachable world the middleware answers a request that is not skipped, and that nobody has
   authenticated yet, by this table.
   */
  lemma DecidesByTable(cfg: Config, server: Server, c: AuthConfig, r: Request, w: World, now: Time, standing: Standing)
    requires Inv(cfg, w) && !Skips(c, r) && Stands(server, c, r, w, now, standing)
    ensures Decide(server, FillDefaults(server, c), r, None, w.store, now) == Answer(server, c, w, now, standing)
  {
    if standing.Good? || standing.Inactive? {
      AdmitsByTable(cfg, server, c, r, w, now, standing.credentials);
    } else {
      RefusesByTable(cfg, server, c, r, w, now, standing);
    }
  }

  /** A skipped request, and any in mode NoAuth, passes with whatever context it has. */
  lemma SkippedPasses(server: Server, c: AuthConfig, r: Request, context: Option<Credentials>, s: Store, now: Time)
    requires Skips(c, r)
    ensures Decide(server, FillDefaults(server, c), r, context, s, now) == Next(context)
  {
  }

  /** Required and Secure let a request through only with credentials in its context. */
  lemma RequiredAuthenticates(cfg: Config, server: Server, c: AuthConfig, r: Request, w: World, now: Time)
    requires Inv(cfg, w) && !Skips(c, r) && (c.mode == Required || c.mode == Secure)
    ensures
      var d := Decide(server, FillDefaults(server, c), r, None, w.store, now);
      d.Next? ==> d.context.Some? && Stands(server, c, r, w, now, Good(d.context.value))
  {
    var standing := OneStanding(cfg, server, c, r, w, now);
    DecidesByTable(cfg, server, c, r, w, now, standing);
  }

  /** Optional lets a request through without credentials if and only if it carries no value at all. */
  lemma OptionalAnonymous(cfg: Config, server: Server, c: AuthConfig, r: Request, w: World, now: Time)
    requires Inv(cfg, w) && !Skips(c, r) && c.mode == Optional
    ensures Decide(server, FillDefaults(server, c), r, None, w.store, now) == Next(None) <==> Value(c, r) == ""
  {
    var standing := OneStanding(cfg, server, c, r, w, now);
    DecidesByTable(cfg, server, c, r, w, now, standing);
  }

  /** Try does if and only if no well-formed, live and unexpired token was sent. */
  lemma TryAnonymous(cfg: Config, server: Server, c: AuthConfig, r: Request, w: World, now: Time)
    requires Inv(cfg, w) && !Skips(c, r) && c.mode == Try
    ensures Decide(server, FillDefaults(server, c), r, None, w.store, now) == Next(None) <==>
      !exists t ::
        && Carries(c, r, t)
        && WellFormedToken(server, c, t)
        && LiveAccess(w.log, t).Some?
        && InTime(LiveAccess(w.log, t).value.validUntil, now)
  {
    ExtractedStands(server, c, r);
    var standing := OneStanding(cfg, server, c, r, w, now);
    DecidesByTable(cfg, server, c, r, w, now, standing);
    if standing.Good? || standing.Inactive? {
      assert Carries(c, r, standing.credentials.token);
    }
  }
}
