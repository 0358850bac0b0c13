/**
 The authentication middleware (internal/api/middleware/auth.go): which requests it lets through,
 over the token table of module Accounts and its history in module Sessions.
 */
module Gate {
  import opened Wrappers
  import opened Accounts
  import opened History
  import opened Sessions

  datatype Mode = Required | Secure | Optional | Try | NoAuth

  datatype FailureMode = FailUnauthorized | FailNotFound

  datatype TokenSource = Header | Query | Form

  datatype Request = Request(header: map<string, string>, query: map<string, string>, form: map<string, string>)

  datatype AuthConfig = AuthConfig(
    mode: Mode,
    failureMode: FailureMode,
    source: TokenSource,
    sourceKey: string,
    scheme: string,
    skipper: Option<Request -> bool>,
    formatValidator: Option<string -> bool>,
    scopes: seq<string>)

  /** Server-wide values: the threshold of secure mode and the default format check. */
  datatype Server = Server(lastAuthenticatedAtThreshold: int, isUuid4: string -> bool)

  datatype Rejection =
    | AuthFailure(mode: FailureMode)
    | MalformedToken
    | LastAuthenticatedAtExceeded
    | MissingScopes
    | DeactivatedUser
    | InternalServerError

  /** What the middleware puts into the request context. */
  datatype Credentials = Credentials(user: UserDto, token: Token)

  /** next is called with this context, or the request is answered with an error. */
  datatype Decision = Next(context: Option<Credentials>) | Reject(why: Rejection)

  /** AuthWithConfig: empty fields take the defaults. Mode, failure mode, source and scopes have none to take. */
  function FillDefaults(server: Server, c: AuthConfig): AuthConfig {
    c.(sourceKey := if c.sourceKey == "" then "Authorization" else c.sourceKey,
       scheme := if c.scheme == "" then "Bearer" else c.scheme,
       skipper := if c.skipper.None? then Some((r: Request) => false) else c.skipper,
       formatValidator := if c.formatValidator.None? then Some(server.isUuid4) else c.formatValidator)
  }

  function Get(values: map<string, string>, key: string): string {
    if key in values then values[key] else ""
  }

  function RawToken(source: TokenSource, r: Request, key: string): string {
    match source
    case Header => Get(r.header, key)
    case Query => Get(r.query, key)
    case Form => Get(r.form, key)
  }

  /** The token behind the scheme, and whether there was any value at all. */
  function Extract(source: TokenSource, r: Request, key: string, scheme: string): (string, bool) {
    var token := RawToken(source, r, key);
    if |token| == 0 then ("", false)
    else if |scheme| == 0 then (token, true)
    else if |token| < |scheme| + 1 then ("", true)
    else if token[..|scheme|] != scheme then ("", true)
    else (token[|scheme| + 1..], true)
  }

  /** Exactly the values scheme + any one character + token yield the token: the separator is not checked. */
  lemma ExtractExactly(source: TokenSource, r: Request, key: string, scheme: string, t: string)
    requires scheme != "" && t != ""
    ensures Extract(source, r, key, scheme) == (t, true) <==>
            exists c: char :: RawToken(source, r, key) == scheme + [c] + t
  {
    var raw := RawToken(source, r, key);
    if Extract(source, r, key, scheme) == (t, true) {
      assert raw == raw[..|scheme|] + [raw[|scheme|]] + raw[|scheme| + 1..];
    }
    if c: char :| raw == scheme + [c] + t {
      assert raw[..|scheme|] == scheme && raw[|scheme| + 1..] == t;
    }
  }

  predicate CheckLastAuthenticatedAt(server: Server, c: AuthConfig, user: UserDto, now: Time) {
    c.mode == Secure ==>
      user.lastAuthenticatedAt.Some? && now - user.lastAuthenticatedAt.value <= server.lastAuthenticatedAtThreshold
  }

  /** No scopes required, or one of them held. */
  predicate ScopesOk(required: seq<string>, held: seq<string>) {
    required == [] || exists scope :: scope in required && scope in held
  }

  method CheckUserScopes(c: AuthConfig, user: UserDto) returns (ok: bool)
    ensures ok <==> ScopesOk(c.scopes, user.scopes)
  {
    if |c.scopes| == 0 {
      return true;
    }
    if |user.scopes| == 0 {
      return false;
    }
    for i := 0 to |c.scopes|
      invariant forall k :: 0 <= k < i ==> c.scopes[k] !in user.scopes
    {
      for j := 0 to |user.scopes|
        invariant c.scopes[i] !in user.scopes[..j]
      {
        if c.scopes[i] == user.scopes[j] {
          assert c.scopes[i] in c.scopes && c.scopes[i] in user.scopes;
          return true;
        }
      }
    }
    return false;
  }

  /** The handler of a middleware with completed configuration. */
  function Decide(server: Server, c: AuthConfig, r: Request, context: Option<Credentials>, s: Store,
                  now: Time): Decision
    requires c.skipper.Some? && c.formatValidator.Some?
  {
    if c.mode == NoAuth || c.skipper.value(r) then Next(context)
    else if context.Some? then
      if !CheckLastAuthenticatedAt(server, c, context.value.user, now) then Reject(LastAuthenticatedAtExceeded)
      else if !ScopesOk(c.scopes, context.value.user.scopes) then Reject(MissingScopes)
      else Next(context)
    else
      var (token, exists') := Extract(c.source, r, c.sourceKey, c.scheme);
      if |token| == 0 then
        if c.mode == Required || c.mode == Secure || (exists' && c.mode == Optional)
        then Reject(AuthFailure(c.failureMode))
        else Next(context)
      else if !c.formatValidator.value(token) then
        if c.mode == Try then Next(context) else Reject(MalformedToken)
      else if token !in s.access then
        if c.mode == Try then Next(context) else Reject(AuthFailure(c.failureMode))
      else if s.access[token].userId !in s.users then Reject(InternalServerError)
      else
        var row := s.access[token];
        Validated(server, c, token, ToDto(row.userId, s.users[row.userId]), row.validUntil, now)
  }

  /** The checks on a token that the table knows. */
  function Validated(server: Server, c: AuthConfig, token: Token, user: UserDto, validUntil: Time,
                     now: Time): Decision
  {
    if validUntil != ZERO_TIME && now > validUntil then
      if c.mode == Try then Next(None) else Reject(AuthFailure(c.failureMode))
    else if !user.isActive then Reject(DeactivatedUser)
    else if !CheckLastAuthenticatedAt(server, c, user, now) then Reject(LastAuthenticatedAtExceeded)
    else if !ScopesOk(c.scopes, user.scopes) then Reject(MissingScopes)
    else Next(Some(Credentials(user, token)))
  }

  class Context {
    const request: Request
    var credentials: Option<Credentials>

    constructor (request: Request)
      ensures this.request == request && credentials == None
    {
      this.request, credentials := request, None;
    }
  }

  /** The middleware itself: fills the configuration, decides, and enriches the context it was given. */
  method Authenticate(server: Server, config: AuthConfig, c: Context, s: Store, now: Time)
    returns (rejection: Option<Rejection>)
    modifies c
    ensures var d := Decide(server, FillDefaults(server, config), c.request, old(c.credentials), s, now);
      match d
      case Next(context) => rejection == None && c.credentials == context
      case Reject(why) => rejection == Some(why) && c.credentials == old(c.credentials)
  {
    var cfg := FillDefaults(server, config);
    if cfg.mode == NoAuth {
      return None;
    }
    if cfg.skipper.value(c.request) {
      return None;
    }
    if c.credentials.Some? {
      var known := c.credentials.value.user;
      if !CheckLastAuthenticatedAt(server, cfg, known, now) {
        return Some(LastAuthenticatedAtExceeded);
      }
      var scoped := CheckUserScopes(cfg, known);
      return if scoped then None else Some(MissingScopes);
    }
    var (token, found) := Extract(cfg.source, c.request, cfg.sourceKey, cfg.scheme);
    if |token| == 0 {
      if cfg.mode == Required || cfg.mode == Secure || (found && cfg.mode == Optional) {
        return Some(AuthFailure(cfg.failureMode));
      }
      return None;
    }
    if !cfg.formatValidator.value(token) {
      if cfg.mode == Required || cfg.mode == Secure || cfg.mode == Optional {
        return Some(MalformedToken);
      }
      return None;
    }
    if token !in s.access {
      return if cfg.mode == Try then None else Some(AuthFailure(cfg.failureMode));
    }
    var row := s.access[token];
    if row.userId !in s.users {
      return Some(InternalServerError);
    }
    var user := ToDto(row.userId, s.users[row.userId]);
    if row.validUntil != ZERO_TIME && now > row.validUntil {
      return if cfg.mode == Try then None else Some(AuthFailure(cfg.failureMode));
    }
    if !user.isActive {
      return Some(DeactivatedUser);
    }
    if !CheckLastAuthenticatedAt(server, cfg, user, now) {
      return Some(LastAuthenticatedAtExceeded);
    }
    var scoped := CheckUserScopes(cfg, user);
    if !scoped {
      return Some(MissingScopes);
    }
    c.credentials := Some(Credentials(user, token));
    return None;
  }

  /******* Modes *******/

  predicate Accepts(server: Server, c: AuthConfig, mode: Mode, r: Request, context: Option<Credentials>, s: Store,
                    now: Time)
  {
    Decide(server, FillDefaults(server, c.(mode := mode)), r, context, s, now).Next?
  }

  lemma SecureWithinRequired(server: Server, c: AuthConfig, r: Request, context: Option<Credentials>, s: Store,
                             now: Time)
    ensures Accepts(server, c, Secure, r, context, s, now) ==> Accepts(server, c, Required, r, context, s, now)
  {
  }

  lemma RequiredWithinOptional(server: Server, c: AuthConfig, r: Request, context: Option<Credentials>, s: Store,
                               now: Time)
    ensures Accepts(server, c, Required, r, context, s, now) ==> Accepts(server, c, Optional, r, context, s, now)
  {
  }

  lemma OptionalWithinTry(server: Server, c: AuthConfig, r: Request, context: Option<Credentials>, s: Store,
                          now: Time)
    ensures Accepts(server, c, Optional, r, context, s, now) ==> Accepts(server, c, Try, r, context, s, now)
  {
  }

  /** For every request and store: Secure is within Required within Optional within Try within NoAuth. */
  lemma ModesNested(server: Server, c: AuthConfig, r: Request, context: Option<Credentials>, s: Store, now: Time)
    ensures Accepts(server, c, Secure, r, context, s, now) ==> Accepts(server, c, Required, r, context, s, now)
    ensures Accepts(server, c, Required, r, context, s, now) ==> Accepts(server, c, Optional, r, context, s, now)
    ensures Accepts(server, c, Optional, r, context, s, now) ==> Accepts(server, c, Try, r, context, s, now)
    ensures Accepts(server, c, NoAuth, r, context, s, now)
  {
    SecureWithinRequired(server, c, r, context, s, now);
    RequiredWithinOptional(server, c, r, context, s, now);
    OptionalWithinTry(server, c, r, context, s, now);
  }

  /** What Optional adds to Required is exactly the requests that carry no value at all. */
  lemma OptionalAddsTheAnonymous(server: Server, c: AuthConfig, r: Request, context: Option<Credentials>, s: Store,
                                 now: Time)
    ensures var filled := FillDefaults(server, c);
      (Accepts(server, c, Optional, r, context, s, now) && !Accepts(server, c, Required, r, context, s, now)) <==>
      (!filled.skipper.value(r) && context.None? && RawToken(c.source, r, filled.sourceKey) == "")
  {
  }

  /** The token that the middleware would take from the request. */
  function Extracted(server: Server, c: AuthConfig, r: Request): string {
    var filled := FillDefaults(server, c);
    Extract(filled.source, r, filled.sourceKey, filled.scheme).0
  }

  /**
   The shortcut for a request that an earlier middleware has authenticated decides as a full validation of the
   same token would, for any later mode and scopes, if and only if the later format validator accepts the
   token: that check is the one it skips.
   */
  lemma ShortcutIsRevalidation(server: Server, first: AuthConfig, second: AuthConfig, r: Request, s: Store, now: Time,
                               credentials: Credentials)
    requires Decide(server, FillDefaults(server, first), r, None, s, now) == Next(Some(credentials))
    requires Extracted(server, second, r) == credentials.token
    requires second.mode != NoAuth && !FillDefaults(server, second).skipper.value(r)
    ensures
      var filled := FillDefaults(server, second);
      Decide(server, filled, r, Some(credentials), s, now) == Decide(server, filled, r, None, s, now) <==>
        filled.formatValidator.value(credentials.token)
  {
  }

  /** A later middleware that is stricter about the format lets through what it would have answered as malformed. */
  lemma ShortcutSkipsFormat(server: Server, first: AuthConfig, r: Request, s: Store, now: Time,
                            credentials: Credentials)
    requires Decide(server, FillDefaults(server, first), r, None, s, now) == Next(Some(credentials))
    ensures
      var strict := FillDefaults(server, first.(formatValidator := Some((t: string) => false)));
      && Decide(server, strict, r, Some(credentials), s, now) == Next(Some(credentials))
      && Decide(server, strict, r, None, s, now) == (if first.mode == Try then Next(None) else Reject(MalformedToken))
  {
  }

  /******* End to end *******/

  /** What the log must say for a token to open the gate. */
  ghost predicate OpenedByLog(server: Server, c: AuthConfig, w: World, token: Token, user: UserDto, now: Time) {
    && LiveAccess(w.log, token).Some?
    && user.id == LiveAccess(w.log, token).value.user
    && (LiveAccess(w.log, token).value.validUntil == ZERO_TIME || now <= LiveAccess(w.log, token).value.validUntil)
    && user.id in w.store.users && user == ToDto(user.id, w.store.users[user.id])
    && user.isActive
    && CheckLastAuthenticatedAt(server, c, user, now)
    && ScopesOk(c.scopes, user.scopes)
  }

  /** In every reachable world the gate authenticates a request exactly when the log says it should. */
  lemma GateFollowsLog(cfg: Config, server: Server, config: AuthConfig, r: Request, w: World, now: Time,
                       user: UserDto, token: Token)
    requires Inv(cfg, w)
    ensures var c := FillDefaults(server, config);
      Decide(server, c, r, None, w.store, now) == Next(Some(Credentials(user, token))) <==>
      (&& c.mode != NoAuth && !c.skipper.value(r)
       && Extract(c.source, r, c.sourceKey, c.scheme) == (token, true) && token != ""
       && c.formatValidator.value(token)
       && OpenedByLog(server, c, w, token, user, now))
  {
    assert AccessAgrees(w, token);
  }

  /**
   A request that passes with a user in its context presented a token that authenticateUser issued to
   that user at most AccessTokenValidity ago, with no Logout of it, no password change and no deletion
   of the user since; and the user is active now.
   */
  lemma AdmittedTokenIsGenuine(cfg: Config, server: Server, config: AuthConfig, r: Request, w: World, now: Time,
                               credentials: Credentials) returns (i: nat)
    requires Inv(cfg, w)
    requires Decide(server, FillDefaults(server, config), r, None, w.store, now) == Next(Some(credentials))
    ensures i < |w.log| && w.log[i].Issued?
    ensures w.log[i].access == credentials.token && w.log[i].user == credentials.user.id
    ensures now <= w.log[i].at + cfg.accessTokenValidity || w.log[i].at + cfg.accessTokenValidity == ZERO_TIME
    ensures forall j :: i < j < |w.log| ==> !RevokesAccess(w.log[j], credentials.token, credentials.user.id)
    ensures credentials.user.id in w.store.users && w.store.users[credentials.user.id].isActive
  {
    GateFollowsLog(cfg, server, config, r, w, now, credentials.user, credentials.token);
    i := LiveAccessMeans(w.log, credentials.token);
  }

  /******* What secure mode guarantees *******/

  /**
   The owner of a live access token was last authenticated, by its row, exactly at the latest issue of tokens to
   them.
   */
  lemma AuthenticatedAtLatestIssue(cfg: Config, w: World, t: Token)
    requires Inv(cfg, w) && t in w.store.access
    ensures
      var user := w.store.access[t].userId;
      && user in w.store.users
      && LastIssue(w.log, user).Some?
      && w.store.users[user].lastAuthenticatedAt == Some(w.log[LastIssue(w.log, user).value].at)
  {
    var user := w.store.access[t].userId;
    assert AccessAgrees(w, t) && RecencyAgrees(w, user);
    var i := LiveAccessMeans(w.log, t);
    assert IssueOf(w.log[i], user);
  }

  /** The request passes with these credentials in this mode, having come without any. */
  predicate Admits(server: Server, c: AuthConfig, mode: Mode, r: Request, s: Store, now: Time,
                   credentials: Credentials)
  {
    Decide(server, FillDefaults(server, c.(mode := mode)), r, None, s, now) == Next(Some(credentials))
  }

  /** The latest issue of tokens to the user was at most the threshold ago. */
  predicate IssuedWithin(log: seq<Event>, user: Id, now: Time, threshold: int) {
    LastIssue(log, user).Some? && now - log[LastIssue(log, user).value].at <= threshold
  }

  /** The user showed a credential, not merely a refresh token, at most the threshold ago. */
  predicate CredentialWithin(log: seq<Event>, user: Id, now: Time, threshold: int) {
    exists i :: 0 <= i < |log| && CredentialOf(log[i], user) && now - log[i].at <= threshold
  }

  lemma SecureAddsRecency(server: Server, c: AuthConfig, r: Request, s: Store, now: Time, credentials: Credentials)
    ensures Admits(server, c, Secure, r, s, now, credentials) <==>
      && Admits(server, c, Required, r, s, now, credentials)
      && CheckLastAuthenticatedAt(server, c.(mode := Secure), credentials.user, now)
  {
  }

  /**
   In every reachable world Secure admits exactly what Required does, when tokens were issued to the user
   recently.
   */
  lemma SecureFollowsLog(cfg: Config, server: Server, c: AuthConfig, r: Request, w: World, now: Time,
                         credentials: Credentials)
    requires Inv(cfg, w)
    ensures Admits(server, c, Secure, r, w.store, now, credentials) <==>
      && Admits(server, c, Required, r, w.store, now, credentials)
      && IssuedWithin(w.log, credentials.user.id, now, server.lastAuthenticatedAtThreshold)
  {
    SecureAddsRecency(server, c, r, w.store, now, credentials);
    if Admits(server, c, Required, r, w.store, now, credentials) {
      AdmittedIsRow(server, c, r, w.store, now, credentials);
      AuthenticatedAtLatestIssue(cfg, w, credentials.token);
    }
  }

  lemma AdmittedIsRow(server: Server, c: AuthConfig, r: Request, s: Store, now: Time, credentials: Credentials)
    requires Admits(server, c, Required, r, s, now, credentials)
    ensures
      && credentials.token in s.access
      && s.access[credentials.token].userId == credentials.user.id
      && credentials.user.id in s.users
      && credentials.user == ToDto(credentials.user.id, s.users[credentials.user.id])
  {
  }

  /** A credential within the threshold is the latest credential within the threshold. */
  lemma LatestCredentialDecides(cfg: Config, w: World, user: Id, now: Time, threshold: int)
    requires Timely(cfg, w) && CredentialsFirst(w.log) && LastIssue(w.log, user).Some?
    ensures LastCredential(w.log, user).Some?
    ensures w.log[LastCredential(w.log, user).value].at <= w.log[LastIssue(w.log, user).value].at <= w.clock
    ensures CredentialWithin(w.log, user, now, threshold) <==>
      now - w.log[LastCredential(w.log, user).value].at <= threshold
  {
    var l := LastIssue(w.log, user).value;
    assert w.log[l].user == user;
    var c := LastCredential(w.log, user).value;
    assert EventTime(w.log[c]) == Some(w.log[c].at) && EventTime(w.log[l]) == Some(w.log[l].at);
    if CredentialWithin(w.log, user, now, threshold) {
      var i :| 0 <= i < |w.log| && CredentialOf(w.log[i], user) && now - w.log[i].at <= threshold;
      assert i <= c && EventTime(w.log[i]) == Some(w.log[i].at);
    }
  }

  /** Required admits the request from now on until the token expires. */
  lemma RequiredUntil(server: Server, c: AuthConfig, r: Request, s: Store, now: Time, later: Time,
                      credentials: Credentials)
    requires Admits(server, c, Required, r, s, now, credentials) && now <= later
    ensures credentials.token in s.access
    ensures Admits(server, c, Required, r, s, later, credentials) <==>
      s.access[credentials.token].validUntil == ZERO_TIME || later <= s.access[credentials.token].validUntil
  {
  }

  /** The last instant at which Secure can still admit the token: it expires, or its user's latest issue grows old. */
  function LastSecure(w: World, user: Id, validUntil: Time, threshold: int): Time
    requires LastIssue(w.log, user).Some?
  {
    var old' := w.log[LastIssue(w.log, user).value].at + threshold;
    if validUntil == ZERO_TIME then old' else Min(validUntil, old')
  }

  /**
   When being admitted in secure mode means having shown a credential within the threshold: for a request
   that Required admits in a reachable world, it does so at every instant from then on if and only if
   Secure's last instant has passed, or is within the threshold of the user's latest credential. A refresh
   moves that last instant and not the credential.
   */
  lemma SecureMeansCredential(cfg: Config, server: Server, c: AuthConfig, r: Request, w: World,
                              credentials: Credentials)
    requires Inv(cfg, w) && Admits(server, c, Required, r, w.store, w.clock, credentials)
    ensures
      var user, threshold := credentials.user.id, server.lastAuthenticatedAtThreshold;
      && credentials.token in w.store.access
      && LastIssue(w.log, user).Some?
      && LastCredential(w.log, user).Some?
      && var last := LastSecure(w, user, w.store.access[credentials.token].validUntil, threshold);
         ((forall now ::
            w.clock <= now && Admits(server, c, Secure, r, w.store, now, credentials) ==>
            CredentialWithin(w.log, user, now, threshold)) <==>
          last < w.clock || last <= w.log[LastCredential(w.log, user).value].at + threshold)
  {
    var user, threshold := credentials.user.id, server.lastAuthenticatedAtThreshold;
    AdmittedIsRow(server, c, r, w.store, w.clock, credentials);
    AuthenticatedAtLatestIssue(cfg, w, credentials.token);
    LatestCredentialDecides(cfg, w, user, w.clock, threshold);
    var last := LastSecure(w, user, w.store.access[credentials.token].validUntil, threshold);
    var credential := w.log[LastCredential(w.log, user).value].at;
    forall now | w.clock <= now
      ensures Admits(server, c, Secure, r, w.store, now, credentials) <==> now <= last
      ensures CredentialWithin(w.log, user, now, threshold) <==> now <= credential + threshold
    {
      SecureUntil(cfg, server, c, r, w, now, credentials);
      LatestCredentialDecides(cfg, w, user, now, threshold);
    }
    if w.clock <= last {
      assert Admits(server, c, Secure, r, w.store, last, credentials);
    }
  }

  lemma SecureUntil(cfg: Config, server: Server, c: AuthConfig, r: Request, w: World, now: Time,
                    credentials: Credentials)
    requires Inv(cfg, w) && Admits(server, c, Required, r, w.store, w.clock, credentials) && w.clock <= now
    ensures credentials.token in w.store.access && LastIssue(w.log, credentials.user.id).Some?
    ensures Admits(server, c, Secure, r, w.store, now, credentials) <==>
      now <= LastSecure(w, credentials.user.id, w.store.access[credentials.token].validUntil,
                        server.lastAuthenticatedAtThreshold)
  {
    AdmittedIsRow(server, c, r, w.store, w.clock, credentials);
    AuthenticatedAtLatestIssue(cfg, w, credentials.token);
    SecureFollowsLog(cfg, server, c, r, w, now, credentials);
    RequiredUntil(server, c, r, w.store, w.clock, now, credentials);
  }
}
