/**
 The tables behind the authentication service and what each of its operations does to them
 (internal/auth/service.go). An operation is one atomic step at one instant; everything the
 outside world decides (the clock, the generated ids and hashes, the fate of the transaction)
 comes in through Env or the call itself.
 */
module Accounts {
  import opened Wrappers
  import Usernames

  type Id = string
  type Token = string

  /** Nanoseconds since the zero time of the source language, 1 January of year 1. */
  type Time = int
  const ZERO_TIME: Time := 0
  const NANOS_PER_SECOND := 1_000_000_000

  /******* Tables *******/

  datatype User = User(
    username: Option<string>,
    password: Option<string>,
    isActive: bool,
    scopes: seq<string>,
    lastAuthenticatedAt: Option<Time>,
    updatedAt: Time,
    requiresConfirmation: bool)

  datatype Profile = Profile(legalAcceptedAt: Option<Time>)

  datatype RefreshToken = RefreshToken(userId: Id, createdAt: Time)

  /** A row of access_tokens, password_reset_tokens or confirmation_tokens. */
  datatype ExpiringToken = ExpiringToken(userId: Id, validUntil: Time, createdAt: Time)

  datatype Store = Store(
    users: map<Id, User>,
    profiles: map<Id, Profile>,
    access: map<Token, ExpiringToken>,
    refresh: map<Token, RefreshToken>,
    resets: map<Token, ExpiringToken>,
    confirmations: map<Token, ExpiringToken>)

  /** The user as it travels in requests. It has no requiresConfirmation. */
  datatype UserDto = UserDto(
    id: Id,
    username: Option<string>,
    passwordHash: Option<string>,
    isActive: bool,
    scopes: seq<string>,
    lastAuthenticatedAt: Option<Time>,
    updatedAt: Time)

  function ToDto(id: Id, row: User): UserDto {
    UserDto(id, row.username, row.password, row.isActive, row.scopes, row.lastAuthenticatedAt, row.updatedAt)
  }

  /** Lossy: the columns the DTO does not have get their zero values. */
  function ToModel(dto: UserDto): User {
    User(dto.username, dto.passwordHash, dto.isActive, dto.scopes, dto.lastAuthenticatedAt, ZERO_TIME, false)
  }

  datatype Column =
    | UsernameColumn | PasswordColumn | IsActiveColumn | ScopesColumn
    | LastAuthenticatedAtColumn | UpdatedAtColumn | RequiresConfirmationColumn

  function WriteColumns(row: User, values: User, columns: set<Column>): User {
    User(
      if UsernameColumn in columns then values.username else row.username,
      if PasswordColumn in columns then values.password else row.password,
      if IsActiveColumn in columns then values.isActive else row.isActive,
      if ScopesColumn in columns then values.scopes else row.scopes,
      if LastAuthenticatedAtColumn in columns then values.lastAuthenticatedAt else row.lastAuthenticatedAt,
      if UpdatedAtColumn in columns then values.updatedAt else row.updatedAt,
      if RequiresConfirmationColumn in columns then values.requiresConfirmation else row.requiresConfirmation)
  }

  /** UPDATE ... WHERE id = ?: stamps updated_at, writes the listed columns, misses silently. */
  function UpdateUser(users: map<Id, User>, id: Id, values: User, columns: set<Column>, now: Time): map<Id, User> {
    if id in users then users[id := WriteColumns(users[id], values.(updatedAt := now), columns)] else users
  }

  function NotOwnedBy(tokens: map<Token, ExpiringToken>, user: Id): map<Token, ExpiringToken> {
    map t | t in tokens && tokens[t].userId != user :: tokens[t]
  }

  function RefreshNotOwnedBy(tokens: map<Token, RefreshToken>, user: Id): map<Token, RefreshToken> {
    map t | t in tokens && tokens[t].userId != user :: tokens[t]
  }

  /** DELETE of a user row; every foreign key is declared ON DELETE CASCADE. */
  function DeleteUser(s: Store, user: Id): Store {
    Store(
      s.users - {user}, s.profiles - {user},
      NotOwnedBy(s.access, user), RefreshNotOwnedBy(s.refresh, user),
      NotOwnedBy(s.resets, user), NotOwnedBy(s.confirmations, user))
  }

  /******* Configuration and environment *******/

  datatype Verdict = Match | Mismatch | Unreadable

  datatype Config = Config(
    accessTokenValidity: int,
    resetValidity: int,
    resetDebounce: int,
    resetReuse: int,
    confirmationValidity: int,
    confirmationDebounce: int,
    registrationRequiresConfirmation: bool,
    defaultScopes: seq<string>,
    verify: (string, string) -> Verdict,  // does this password belong to this hash
    pick: set<string> -> string)          // the row a query for one row returns

  /** The database returns one of the matching rows. */
  ghost predicate PicksMember(cfg: Config) {
    forall rows: set<string> :: rows != {} ==> cfg.pick(rows) in rows
  }

  /** What becomes of a transaction outside its handler. */
  datatype Fate = BeginFails | CommitFails | Commits

  /** One call's surroundings: the instant, the values the database would generate, the fate. */
  datatype Env = Env(
    now: Time,
    fate: Fate,
    userId: Id,
    access: Token,
    refresh: Token,
    reset: Token,
    confirmation: Token)

  datatype Call =
    | Login(username: string, password: string)
    | Refresh(refreshToken: Token)
    | Logout(accessToken: Token, loggedOutRefresh: Option<Token>)
    | Register(newUsername: string, newHash: Option<string>)
    | CompleteRegister(confirmationToken: Token)
    | InitPasswordReset(resetUsername: string)
    | ResetPassword(resetToken: Token, resetHash: Option<string>)
    | UpdatePassword(user: UserDto, currentPassword: string, skipVerification: bool, updateHash: Option<string>)
    | DeleteUserAccount(deletedUser: UserDto, deletePassword: string)
    | Deactivate(id: Id)  // not an operation of the service: an administrator's UPDATE

  datatype Error =
    | Unauthorized | UserDeactivated | NotLocalUser | InvalidPassword | UnreadableHash
    | TokenNotFound | TokenExpired | UserAlreadyExists
    | ForeignKeyViolation | UniqueViolation | NilDereference | TransactionNotStarted

  datatype Reply =
    | LoginResult(access: Token, refresh: Token, tokenType: string, expiresIn: int)
    | RegisterResult(requiresConfirmation: bool, confirmation: Option<Token>)
    | ResetResult(reset: Option<Token>)
    | Done

  /** What a call returns when it never reached authenticateUser. */
  const NO_LOGIN := LoginResult("", "", "", 0)

  /** Duration.Seconds() cut to an integer: towards zero. */
  function WholeSeconds(d: int): int {
    if d >= 0 then d / NANOS_PER_SECOND else -(-d / NANOS_PER_SECOND)
  }

  /******* What happened *******/

  datatype Cause = ByLogin | ByCompletion | ByPasswordUpdate | ByRotation(parent: Token)

  datatype Event =
    | Registered(user: Id, row: User)
    | ConfirmationSent(user: Id, token: Token, at: Time, validUntil: Time)
    | Confirmed(user: Id, token: Token, at: Time)
    | ResetSent(user: Id, token: Token, at: Time, validUntil: Time)
    | PasswordSet(user: Id, hash: string, at: Time)
    | Issued(user: Id, access: Token, refresh: Token, cause: Cause, at: Time, validUntil: Time)
    | LoggedOut(access: Token, loggedOutRefresh: Option<Token>)
    | Deactivated(user: Id)
    | Deleted(user: Id)

  datatype Effect = Effect(store: Store, reply: Result<Reply, Error>, events: seq<Event>)

  /** An error leaves no event, and no event means no change. */
  ghost predicate Atomic(s: Store, effect: Effect) {
    && (effect.reply.Err? ==> effect.events == [])
    && (effect.events == [] ==> effect.store == s)
  }

  /** What a transaction handler leaves behind when it succeeds. */
  datatype Handled = Handled(store: Store, reply: Reply, events: seq<Event>)

  /**
   db.WithTransaction. The deferred function assigns the error of Commit to a variable that is
   not the function's result, so a failed commit is rolled back and still reported as success.
   */
  function WithTransaction(s: Store, fate: Fate, handler: Result<Handled, Error>): (r: Effect)
    ensures r.reply.Err? || !fate.Commits? ==> r.store == s && r.events == []
  {
    if fate.BeginFails? then Effect(s, Err(TransactionNotStarted), [])
    else match handler
      case Err(e) => Effect(s, Err(e), [])
      case Ok(h) => if fate.Commits? then Effect(h.store, Ok(h.reply), h.events) else Effect(s, Ok(h.reply), [])
  }

  /******* Operations *******/

  function FindByUsername(cfg: Config, users: map<Id, User>, username: string): Option<Id> {
    var rows := set id | id in users && users[id].username == Some(Usernames.ToUsernameFormat(username));
    if rows == {} then None else Some(cfg.pick(rows))
  }

  function AuthenticateUser(cfg: Config, s: Store, env: Env, user: UserDto, invalidateExisting: bool)
    : (r: Result<(Store, Reply), Error>)
    ensures r.Ok? ==> user.id in s.users
    ensures r.Ok? ==> r.value.0.users ==
                      s.users[user.id := s.users[user.id].(lastAuthenticatedAt := Some(env.now), updatedAt := env.now)]
  {
    var access := if invalidateExisting then NotOwnedBy(s.access, user.id) else s.access;
    var refresh := if invalidateExisting then RefreshNotOwnedBy(s.refresh, user.id) else s.refresh;
    if user.id !in s.users then Err(ForeignKeyViolation)
    else if env.access in access || env.refresh in refresh then Err(UniqueViolation)
    else
      var validUntil := env.now + cfg.accessTokenValidity;
      var values := ToModel(user).(lastAuthenticatedAt := Some(env.now));
      Ok((s.(access := access[env.access := ExpiringToken(user.id, validUntil, env.now)],
             refresh := refresh[env.refresh := RefreshToken(user.id, env.now)],
             users := UpdateUser(s.users, user.id, values, {LastAuthenticatedAtColumn, UpdatedAtColumn}, env.now)),
          LoginResult(env.access, env.refresh, "bearer", WholeSeconds(cfg.accessTokenValidity))))
  }

  function Issue(cfg: Config, env: Env, user: Id, cause: Cause): Event {
    Issued(user, env.access, env.refresh, cause, env.now, env.now + cfg.accessTokenValidity)
  }

  function PerformUpdatePassword(cfg: Config, s: Store, env: Env, user: UserDto, current: string, skip: bool,
                                 newHash: Option<string>): (r: Effect)
    ensures Atomic(s, r)
  {
    if !user.isActive then Effect(s, Err(UserDeactivated), [])
    else if user.passwordHash.None? then Effect(s, Err(NotLocalUser), [])
    else if !skip && cfg.verify(current, user.passwordHash.value).Unreadable? then Effect(s, Err(UnreadableHash), [])
    else if !skip && cfg.verify(current, user.passwordHash.value).Mismatch? then Effect(s, Err(Unauthorized), [])
    else if newHash.None? then Effect(s, Err(InvalidPassword), [])
    else
      var user' := user.(passwordHash := newHash);
      var users := UpdateUser(s.users, user.id, ToModel(user'), {PasswordColumn, UpdatedAtColumn}, env.now);
      WithTransaction(s, env.fate,
        match AuthenticateUser(cfg, s.(users := users), env, user', true)
        case Err(e) => Err(e)
        case Ok((s', reply)) =>
          Ok(Handled(s', reply,
                     [PasswordSet(user.id, newHash.value, env.now), Issue(cfg, env, user.id, ByPasswordUpdate)])))
  }

  function PerformResetPassword(cfg: Config, s: Store, env: Env, token: Token, newHash: Option<string>): (r: Effect)
    ensures Atomic(s, r)
  {
    if token !in s.resets then Effect(s, Err(TokenNotFound), [])
    else if env.now > s.resets[token].validUntil then Effect(s, Err(TokenExpired), [])
    else if s.resets[token].userId !in s.users then Effect(s, Err(NilDereference), [])
    else
      var id := s.resets[token].userId;
      PerformUpdatePassword(cfg, s, env, ToDto(id, s.users[id]), "", true, newHash)
  }

  /** The user's tokens that are younger than the window and still valid. */
  function RecentTokens(tokens: map<Token, ExpiringToken>, user: Id, now: Time, window: int): set<Token> {
    set t | t in tokens && tokens[t].userId == user && tokens[t].createdAt > now - window && tokens[t].validUntil > now
  }

  function PerformInitPasswordReset(cfg: Config, s: Store, env: Env, username: string): (r: Effect)
    ensures Atomic(s, r)
  {
    var found := FindByUsername(cfg, s.users, username);
    if found.None? || found.value !in s.users then Effect(s, Ok(ResetResult(None)), [])
    else
      var id := found.value;
      if !s.users[id].isActive || s.users[id].password.None? then Effect(s, Ok(ResetResult(None)), [])
      else if cfg.resetDebounce > 0 && RecentTokens(s.resets, id, env.now, cfg.resetDebounce) != {} then
        Effect(s, Ok(ResetResult(None)), [])
      else
        var reusable := RecentTokens(s.resets, id, env.now, cfg.resetReuse);
        var validUntil := env.now + cfg.resetValidity;
        WithTransaction(s, env.fate,
          if reusable != {} then Ok(Handled(s, ResetResult(Some(cfg.pick(reusable))), []))
          else if env.reset in s.resets then Err(UniqueViolation)
          else Ok(Handled(s.(resets := s.resets[env.reset := ExpiringToken(id, validUntil, env.now)]),
                          ResetResult(Some(env.reset)),
                          [ResetSent(id, env.reset, env.now, validUntil)])))
  }

  function PerformLogout(s: Store, env: Env, access: Token, refresh: Option<Token>): (r: Effect)
    ensures Atomic(s, r)
  {
    WithTransaction(s, env.fate,
      Ok(Handled(
        s.(access := s.access - {access},
           refresh := if refresh.Some? then s.refresh - {refresh.value} else s.refresh),
        Done, [LoggedOut(access, refresh)])))
  }

  function PerformLogin(cfg: Config, s: Store, env: Env, username: string, password: string): (r: Effect)
    ensures Atomic(s, r)
  {
    var found := FindByUsername(cfg, s.users, username);
    if found.None? || found.value !in s.users then Effect(s, Err(Unauthorized), [])
    else
      var user := s.users[found.value];
      if !user.isActive then Effect(s, Err(UserDeactivated), [])
      else if user.password.None? || !cfg.verify(password, user.password.value).Match? then
        Effect(s, Err(Unauthorized), [])
      else
        WithTransaction(s, env.fate,
          match AuthenticateUser(cfg, s, env, ToDto(found.value, user), false)
          case Err(e) => Err(e)
          case Ok((s', reply)) => Ok(Handled(s', reply, [Issue(cfg, env, found.value, ByLogin)])))
  }

  function PerformRefresh(cfg: Config, s: Store, env: Env, token: Token): (r: Effect)
    ensures Atomic(s, r)
  {
    if token !in s.refresh then Effect(s, Err(Unauthorized), [])
    else if s.refresh[token].userId !in s.users then Effect(s, Err(NilDereference), [])
    else
      var id := s.refresh[token].userId;
      if !s.users[id].isActive then Effect(s, Err(UserDeactivated), [])
      else
        WithTransaction(s, env.fate,
          match AuthenticateUser(cfg, s.(refresh := s.refresh - {token}), env, ToDto(id, s.users[id]), false)
          case Err(e) => Err(e)
          case Ok((s', reply)) => Ok(Handled(s', reply, [Issue(cfg, env, id, ByRotation(token))])))
  }

  /** A repeated registration of a user who has not confirmed yet: no transaction, one INSERT. */
  function PerformRepeatedRegister(cfg: Config, s: Store, env: Env, id: Id): (r: Effect)
    ensures Atomic(s, r)
  {
    var validUntil := env.now + cfg.confirmationValidity;
    if RecentTokens(s.confirmations, id, env.now, cfg.confirmationDebounce) != {} then
      Effect(s, Ok(RegisterResult(true, None)), [])
    else if env.confirmation in s.confirmations then Effect(s, Err(UniqueViolation), [])
    else
      Effect(s.(confirmations := s.confirmations[env.confirmation := ExpiringToken(id, validUntil, env.now)]),
             Ok(RegisterResult(true, Some(env.confirmation))),
             [ConfirmationSent(id, env.confirmation, env.now, validUntil)])
  }

  function NewUser(cfg: Config, now: Time, username: string, hash: string): User {
    User(Some(Usernames.ToUsernameFormat(username)), Some(hash), !cfg.registrationRequiresConfirmation,
         cfg.defaultScopes, Some(now), now, cfg.registrationRequiresConfirmation)
  }

  function PerformRegister(cfg: Config, s: Store, env: Env, username: string, newHash: Option<string>): (r: Effect)
    ensures Atomic(s, r)
  {
    var found := FindByUsername(cfg, s.users, username);
    if found.Some? && found.value in s.users then
      if !s.users[found.value].requiresConfirmation then Effect(s, Err(UserAlreadyExists), [])
      else PerformRepeatedRegister(cfg, s, env, found.value)
    else if newHash.None? then Effect(s, Err(InvalidPassword), [])
    else
      var user := NewUser(cfg, env.now, username, newHash.value);
      var validUntil := env.now + cfg.confirmationValidity;
      var s' := s.(users := s.users[env.userId := user], profiles := s.profiles[env.userId := Profile(None)]);
      WithTransaction(s, env.fate,
        if env.userId in s.users || env.userId in s.profiles then Err(UniqueViolation)
        else if !cfg.registrationRequiresConfirmation then
          Ok(Handled(s', RegisterResult(false, None), [Registered(env.userId, user)]))
        else if env.confirmation in s.confirmations then Err(UniqueViolation)
        else
          Ok(Handled(
            s'.(confirmations := s.confirmations[env.confirmation := ExpiringToken(env.userId, validUntil, env.now)]),
            RegisterResult(true, Some(env.confirmation)),
            [Registered(env.userId, user), ConfirmationSent(env.userId, env.confirmation, env.now, validUntil)])))
  }

  function PerformDeleteUserAccount(cfg: Config, s: Store, env: Env, user: UserDto, password: string): (r: Effect)
    ensures Atomic(s, r)
  {
    if !user.isActive then Effect(s, Err(UserDeactivated), [])
    else if user.passwordHash.None? then Effect(s, Err(NotLocalUser), [])
    else if !cfg.verify(password, user.passwordHash.value).Match? then Effect(s, Err(Unauthorized), [])
    else WithTransaction(s, env.fate, Ok(Handled(DeleteUser(s, user.id), Done, [Deleted(user.id)])))
  }

  function PerformCompleteRegister(cfg: Config, s: Store, env: Env, token: Token): (r: Effect)
    ensures Atomic(s, r)
  {
    WithTransaction(s, env.fate,
      if token !in s.confirmations || s.confirmations[token].validUntil <= env.now then Err(TokenNotFound)
      else
        var id := s.confirmations[token].userId;
        if id !in s.users then Err(NilDereference)
        else if s.users[id].isActive || !s.users[id].requiresConfirmation then Ok(Handled(s, NO_LOGIN, []))
        else
          var user := s.users[id].(isActive := true, requiresConfirmation := false);
          var columns := {IsActiveColumn, RequiresConfirmationColumn, UpdatedAtColumn};
          var users := UpdateUser(s.users, id, user, columns, env.now);
          var consumed := s.(users := users, confirmations := s.confirmations - {token});
          match AuthenticateUser(cfg, consumed, env, ToDto(id, user), false)
          case Err(e) => Err(e)
          case Ok((s', reply)) =>
            Ok(Handled(s', reply, [Confirmed(id, token, env.now), Issue(cfg, env, id, ByCompletion)])))
  }

  function PerformDeactivate(s: Store, id: Id): (r: Effect)
    ensures Atomic(s, r)
  {
    if id in s.users then
      Effect(s.(users := s.users[id := s.users[id].(isActive := false)]), Ok(Done), [Deactivated(id)])
    else Effect(s, Ok(Done), [])
  }

  function Perform(cfg: Config, s: Store, call: Call, env: Env): (r: Effect)
    ensures Atomic(s, r)
  {
    match call
    case Login(username, password) => PerformLogin(cfg, s, env, username, password)
    case Refresh(token) => PerformRefresh(cfg, s, env, token)
    case Logout(access, refresh) => PerformLogout(s, env, access, refresh)
    case Register(username, hash) => PerformRegister(cfg, s, env, username, hash)
    case CompleteRegister(token) => PerformCompleteRegister(cfg, s, env, token)
    case InitPasswordReset(username) => PerformInitPasswordReset(cfg, s, env, username)
    case ResetPassword(token, hash) => PerformResetPassword(cfg, s, env, token, hash)
    case UpdatePassword(user, current, skip, hash) => PerformUpdatePassword(cfg, s, env, user, current, skip, hash)
    case DeleteUserAccount(user, password) => PerformDeleteUserAccount(cfg, s, env, user, password)
    case Deactivate(id) => PerformDeactivate(s, id)
  }

  /******* The store invariant *******/

  /** Foreign keys, one profile a user, unique usernames in normal form, nobody unconfirmed and active. */
  ghost predicate WellFormed(s: Store) {
    && OwnersExist(s)
    && s.profiles.Keys == s.users.Keys
    && UsernamesUnique(s.users)
    && (forall id :: id in s.users ==> RowOk(s.users[id]))
  }

  ghost predicate OwnersExist(s: Store) {
    && (forall t :: t in s.access ==> s.access[t].userId in s.users)
    && (forall t :: t in s.refresh ==> s.refresh[t].userId in s.users)
    && (forall t :: t in s.resets ==> s.resets[t].userId in s.users)
    && (forall t :: t in s.confirmations ==> s.confirmations[t].userId in s.users)
  }

  ghost predicate UsernamesUnique(users: map<Id, User>) {
    forall a, b ::
      a in users && b in users && users[a].username.Some? && users[a].username == users[b].username ==> a == b
  }

  predicate RowOk(row: User) {
    && (row.username.Some? ==> Usernames.NormalForm(row.username.value))
    && (row.requiresConfirmation ==> !row.isActive)
  }
}
