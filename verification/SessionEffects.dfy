/**
 Exactly when each operation of the authentication service does what, and what it then leaves in the tables:
 one statement for every kind of event, and one for every reply.
 */
module SessionEffects {
  import opened Wrappers
  import opened Accounts
  import opened History
  import opened Sessions
  import opened SessionTheorems
  import opened Gate
  import Usernames

  /******* Deleting an account *******/

  /** The snapshot of the user is active and has a password, which is the one given. */
  predicate DeletionAccepted(cfg: Config, call: Call, id: Id) {
    && call.DeleteUserAccount?
    && call.deletedUser.id == id
    && call.deletedUser.isActive
    && call.deletedUser.passwordHash.Some?
    && cfg.verify(call.deletePassword, call.deletedUser.passwordHash.value).Match?
  }

  lemma DeletesExactly(cfg: Config, s: Store, call: Call, env: Env, id: Id)
    ensures Deleted(id) in Perform(cfg, s, call, env).events <==> env.fate == Commits && DeletionAccepted(cfg, call, id)
  {
  }

  ghost predicate OwnsNothing(s: Store, id: Id) {
    && id !in s.users
    && id !in s.profiles
    && (forall t :: t in s.access ==> s.access[t].userId != id)
    && (forall t :: t in s.refresh ==> s.refresh[t].userId != id)
    && (forall t :: t in s.resets ==> s.resets[t].userId != id)
    && (forall t :: t in s.confirmations ==> s.confirmations[t].userId != id)
  }

  /** The rows of these users are the same in both tables. */
  ghost predicate OthersAsBefore(s: Store, s': Store, id: Id) {
    && (forall i :: i != id ==> (i in s'.users <==> i in s.users) && (i in s.users ==> s'.users[i] == s.users[i]))
    && (forall i :: i != id ==>
          (i in s'.profiles <==> i in s.profiles) && (i in s.profiles ==> s'.profiles[i] == s.profiles[i]))
    && NotOwnedBy(s'.access, id) == NotOwnedBy(s.access, id)
    && RefreshNotOwnedBy(s'.refresh, id) == RefreshNotOwnedBy(s.refresh, id)
    && NotOwnedBy(s'.resets, id) == NotOwnedBy(s.resets, id)
    && NotOwnedBy(s'.confirmations, id) == NotOwnedBy(s.confirmations, id)
  }

  lemma DeletionAsked(cfg: Config, s: Store, call: Call, env: Env, id: Id)
    requires Deleted(id) in Perform(cfg, s, call, env).events
    ensures call.DeleteUserAccount? && call.deletedUser.id == id
  {
  }

  lemma DeletionIsCascade(cfg: Config, s: Store, env: Env, user: UserDto, password: string)
    requires PerformDeleteUserAccount(cfg, s, env, user, password).events != []
    ensures
      PerformDeleteUserAccount(cfg, s, env, user, password) ==
      Effect(DeleteUser(s, user.id), Ok(Done), [Deleted(user.id)])
  {
  }

  lemma CascadeLeaves(s: Store, id: Id)
    ensures OwnsNothing(DeleteUser(s, id), id) && OthersAsBefore(s, DeleteUser(s, id), id)
  {
  }

  /** A deletion leaves nothing of the user in any of the six tables, and everything of the others. */
  lemma DeletionLeaves(cfg: Config, s: Store, call: Call, env: Env, id: Id)
    requires Deleted(id) in Perform(cfg, s, call, env).events
    ensures OwnsNothing(Perform(cfg, s, call, env).store, id)
    ensures OthersAsBefore(s, Perform(cfg, s, call, env).store, id)
    ensures Perform(cfg, s, call, env).reply == Ok(Done)
  {
    DeletionAsked(cfg, s, call, env, id);
    DeletionIsCascade(cfg, s, env, call.deletedUser, call.deletePassword);
    CascadeLeaves(s, id);
  }

  /******* Logging out *******/

  /** The two tokens presented are gone, every other token row and everything else is as before. */
  ghost predicate TokensRemoved(s: Store, s': Store, access: Token, refresh: Option<Token>) {
    && access !in s'.access
    && (refresh.Some? ==> refresh.value !in s'.refresh)
    && (forall t :: t != access ==>
          (t in s'.access <==> t in s.access) && (t in s.access ==> s'.access[t] == s.access[t]))
    && (forall t :: Some(t) != refresh ==>
          (t in s'.refresh <==> t in s.refresh) && (t in s.refresh ==> s'.refresh[t] == s.refresh[t]))
    && s'.users == s.users && s'.profiles == s.profiles && s'.resets == s.resets && s'.confirmations == s.confirmations
  }

  lemma LogoutRemoves(cfg: Config, s: Store, access: Token, refresh: Option<Token>, env: Env)
    ensures
      var r := Perform(cfg, s, Logout(access, refresh), env);
      && (env.fate == Commits ==> TokensRemoved(s, r.store, access, refresh))
      && (env.fate != Commits ==> r.store == s)
      && (r.reply == Ok(Done) <==> env.fate != BeginFails)
  {
  }

  lemma LogsOutExactly(cfg: Config, s: Store, call: Call, env: Env, access: Token, refresh: Option<Token>)
    ensures LoggedOut(access, refresh) in Perform(cfg, s, call, env).events <==>
      env.fate == Commits && call == Logout(access, refresh)
  {
  }

  /** An access token that was generated once and is no longer in the table. */
  ghost predicate SpentAccess(w: World, t: Token) {
    t in w.used && t !in w.store.access
  }

  lemma EventKeepsSpentAccess(cfg: Config, w: World, e: Event, t: Token)
    requires Enabled(cfg, w, e) && SpentAccess(w, t)
    ensures SpentAccess(After(w, e), t)
  {
  }

  lemma {:induction false} EventsKeepSpentAccess(cfg: Config, w: World, es: seq<Event>, t: Token)
    requires EnabledAll(cfg, w, es) && SpentAccess(w, t)
    ensures SpentAccess(AfterAll(w, es), t)
    decreases |es|
  {
    if es != [] {
      EventKeepsSpentAccess(cfg, w, es[0], t);
      EventsKeepSpentAccess(cfg, After(w, es[0]), es[1..], t);
    }
  }

  lemma {:induction false} RunKeepsSpentAccess(cfg: Config, w: World, calls: seq<(Call, Env)>, t: Token)
    requires Inv(cfg, w) && AdmissibleRun(cfg, w, calls) && PicksMember(cfg) && SpentAccess(w, t)
    ensures SpentAccess(Run(cfg, w, calls), t)
    decreases |calls|
  {
    if calls != [] {
      var (call, env) := calls[0];
      StepIsEvents(cfg, w, call, env);
      EventsKeepSpentAccess(cfg, w.(clock := env.now), Perform(cfg, w.store, call, env).events, t);
      StepKeepsInv(cfg, w, call, env);
      RunKeepsSpentAccess(cfg, Step(cfg, w, call, env), calls[1..], t);
    }
  }

  lemma SpentNotAdmitted(server: Server, c: AuthConfig, r: Request, s: Store, now: Time, credentials: Credentials)
    requires credentials.token !in s.access
    ensures Decide(server, FillDefaults(server, c), r, None, s, now) != Next(Some(credentials))
  {
  }

  /**
   An access token that was presented to a committed Logout is never authenticated by the gate again, in any
   mode, in any later state of any run.
   */
  lemma LoggedOutForever(cfg: Config, w: World, t: Token, refresh: Option<Token>, env: Env, calls: seq<(Call, Env)>,
                         server: Server, c: AuthConfig, r: Request, now: Time, user: UserDto)
    requires Inv(cfg, w) && PicksMember(cfg) && t in w.used
    requires Admissible(w, Logout(t, refresh), env) && env.fate == Commits
    requires AdmissibleRun(cfg, Step(cfg, w, Logout(t, refresh), env), calls)
    ensures
      var later := Run(cfg, Step(cfg, w, Logout(t, refresh), env), calls);
      && t !in later.store.access
      && Decide(server, FillDefaults(server, c), r, None, later.store, now) != Next(Some(Credentials(user, t)))
  {
    var call := Logout(t, refresh);
    var next := Step(cfg, w, call, env);
    LogoutRemoves(cfg, w.store, t, refresh, env);
    OnlyGrows(w.(clock := env.now), Perform(cfg, w.store, call, env).events);
    StepKeepsInv(cfg, w, call, env);
    RunKeepsSpentAccess(cfg, next, calls, t);
    SpentNotAdmitted(server, c, r, Run(cfg, next, calls).store, now, Credentials(user, t));
  }

  /******* Registering *******/

  ghost predicate NameTaken(users: map<Id, User>, username: string, id: Id) {
    id in users && users[id].username == Some(Usernames.ToUsernameFormat(username))
  }

  ghost predicate NameFree(users: map<Id, User>, username: string) {
    forall id :: !NameTaken(users, username, id)
  }

  /** A new user: this name and hash, active unless confirmation is required. */
  predicate NewRow(cfg: Config, row: User, username: string, hash: string, now: Time) {
    && row.username == Some(Usernames.ToUsernameFormat(username))
    && row.password == Some(hash)
    && row.isActive == !cfg.registrationRequiresConfirmation
    && row.requiresConfirmation == cfg.registrationRequiresConfirmation
    && row.scopes == cfg.defaultScopes
    && row.lastAuthenticatedAt == Some(now)
    && row.updatedAt == now
  }

  ghost predicate FreshNames(s: Store, env: Env) {
    env.userId !in s.users && env.userId !in s.profiles && env.confirmation !in s.confirmations
  }

  ghost predicate Registers(cfg: Config, s: Store, call: Call, env: Env) {
    call.Register? && NameFree(s.users, call.newUsername) && call.newHash.Some? && env.fate == Commits
  }

  lemma FoundIsTaken(cfg: Config, users: map<Id, User>, username: string)
    requires PicksMember(cfg)
    ensures FindByUsername(cfg, users, username).None? <==> NameFree(users, username)
    ensures
      FindByUsername(cfg, users, username).Some? ==>
        NameTaken(users, username, FindByUsername(cfg, users, username).value)
  {
    var rows := set i | i in users && users[i].username == Some(Usernames.ToUsernameFormat(username));
    if NameFree(users, username) {
      assert forall i :: i in rows ==> NameTaken(users, username, i);
    } else {
      var id :| NameTaken(users, username, id);
      assert id in rows;
    }
  }

  /** A user is added exactly by a committed registration of a free name with a usable password. */
  lemma RegistersExactly(cfg: Config, s: Store, call: Call, env: Env, id: Id, row: User)
    requires PicksMember(cfg) && FreshNames(s, env)
    ensures Registered(id, row) in Perform(cfg, s, call, env).events <==>
      && Registers(cfg, s, call, env)
      && id == env.userId
      && NewRow(cfg, row, call.newUsername, call.newHash.value, env.now)
  {
    if call.Register? {
      FoundIsTaken(cfg, s.users, call.newUsername);
    }
  }

  /** What it leaves: the row, an empty profile, the confirmation token if one is required, and nothing else new. */
  lemma RegistrationLeaves(cfg: Config, s: Store, call: Call, env: Env)
    requires PicksMember(cfg) && FreshNames(s, env) && Registers(cfg, s, call, env)
    ensures
      var r := Perform(cfg, s, call, env);
      var token := ExpiringToken(env.userId, env.now + cfg.confirmationValidity, env.now);
      && env.userId in r.store.users
      && NewRow(cfg, r.store.users[env.userId], call.newUsername, call.newHash.value, env.now)
      && r.store.users == s.users[env.userId := r.store.users[env.userId]]
      && r.store.profiles == s.profiles[env.userId := Profile(None)]
      && r.store.access == s.access && r.store.refresh == s.refresh && r.store.resets == s.resets
      && (if cfg.registrationRequiresConfirmation
          then r.store.confirmations == s.confirmations[env.confirmation := token]
               && r.reply == Ok(RegisterResult(true, Some(env.confirmation)))
          else r.store.confirmations == s.confirmations && r.reply == Ok(RegisterResult(false, None)))
  {
    FoundIsTaken(cfg, s.users, call.newUsername);
  }

  /** A known name is refused, or, while its user is unconfirmed, answered like a new one, with a new token or none. */
  lemma RepeatedRegistration(cfg: Config, s: Store, username: string, hash: Option<string>, env: Env, id: Id)
    requires PicksMember(cfg) && UsernamesUnique(s.users) && FreshNames(s, env) && NameTaken(s.users, username, id)
    ensures
      var r := Perform(cfg, s, Register(username, hash), env);
      var token := ExpiringToken(id, env.now + cfg.confirmationValidity, env.now);
      if !s.users[id].requiresConfirmation then r.reply == Err(UserAlreadyExists) && r.store == s
      else if NoRecent(s.confirmations, id, env.now, cfg.confirmationDebounce) then
        && r.reply == Ok(RegisterResult(true, Some(env.confirmation)))
        && r.store == s.(confirmations := s.confirmations[env.confirmation := token])
      else r.reply == Ok(RegisterResult(true, None)) && r.store == s
  {
    FindsExactly(cfg, s.users, username, id);
    RecentOrNot(s.confirmations, id, env.now, cfg.confirmationDebounce);
  }

  lemma RecentOrNot(tokens: map<Token, ExpiringToken>, user: Id, now: Time, window: int)
    ensures RecentTokens(tokens, user, now, window) == {} <==> NoRecent(tokens, user, now, window)
  {
    if RecentTokens(tokens, user, now, window) == {} {
      NothingRecent(tokens, user, now, window);
    }
  }

  /******* Confirming *******/

  /** Confirmed exactly by presenting an open confirmation token; then the token is gone and the user active. */
  lemma ConfirmsExactly(cfg: Config, s: Store, call: Call, env: Env, id: Id, t: Token)
    requires FreshTokens(s, env)
    ensures
      var r := Perform(cfg, s, call, env);
      (Confirmed(id, t, env.now) in r.events <==>
        env.fate == Commits && call == CompleteRegister(t) && Presents(cfg, s, call, env.now, id))
  {
  }

  lemma ConfirmationAsked(cfg: Config, s: Store, call: Call, env: Env, id: Id, t: Token)
    requires Confirmed(id, t, env.now) in Perform(cfg, s, call, env).events
    ensures call == CompleteRegister(t)
  {
  }

  /** The token is consumed and the user active and confirmed; no other user, profile or such token changes. */
  ghost predicate ConfirmedAt(s: Store, s': Store, id: Id, t: Token, now: Time) {
    && s'.confirmations == s.confirmations - {t}
    && id in s.users
    && id in s'.users
    && s'.users[id] ==
       s.users[id].(isActive := true, requiresConfirmation := false, lastAuthenticatedAt := Some(now), updatedAt := now)
    && s'.users == s.users[id := s'.users[id]]
    && s'.profiles == s.profiles
    && s'.resets == s.resets
  }

  lemma CompletionConfirms(cfg: Config, s: Store, env: Env, id: Id, t: Token)
    requires Confirmed(id, t, env.now) in PerformCompleteRegister(cfg, s, env, t).events
    ensures ConfirmedAt(s, PerformCompleteRegister(cfg, s, env, t).store, id, t, env.now)
  {
  }

  lemma ConfirmationLeaves(cfg: Config, s: Store, call: Call, env: Env, id: Id, t: Token)
    requires Confirmed(id, t, env.now) in Perform(cfg, s, call, env).events
    ensures ConfirmedAt(s, Perform(cfg, s, call, env).store, id, t, env.now)
  {
    ConfirmationAsked(cfg, s, call, env, id, t);
    CompletionConfirms(cfg, s, env, id, t);
  }

  /******* Reset tokens *******/

  /** A user who may ask for a reset: active, with a password, under this name. */
  ghost predicate MayReset(s: Store, username: string, id: Id) {
    NameTaken(s.users, username, id) && s.users[id].isActive && s.users[id].password.Some?
  }

  ghost predicate Debounced(cfg: Config, s: Store, id: Id, now: Time) {
    cfg.resetDebounce > 0 && !NoRecent(s.resets, id, now, cfg.resetDebounce)
  }

  /** A token is sent exactly to a user who may ask, has none within the debounce time, and none to be used again. */
  lemma ResetsExactly(cfg: Config, s: Store, call: Call, env: Env, id: Id)
    requires PicksMember(cfg) && UsernamesUnique(s.users) && env.reset !in s.resets
    ensures ResetSent(id, env.reset, env.now, env.now + cfg.resetValidity) in Perform(cfg, s, call, env).events <==>
      && env.fate == Commits
      && call.InitPasswordReset?
      && MayReset(s, call.resetUsername, id)
      && !Debounced(cfg, s, id, env.now)
      && NoRecent(s.resets, id, env.now, cfg.resetReuse)
  {
    if call.InitPasswordReset? {
      FindsExactly(cfg, s.users, call.resetUsername, id);
      RecentOrNot(s.resets, id, env.now, cfg.resetDebounce);
      RecentOrNot(s.resets, id, env.now, cfg.resetReuse);
    }
  }

  /**
   The reply names a token exactly for a user who may ask and is not debounced. The token then is that user's and in
   the table: sent now, or, while it is still valid and recent, sent before.
   */
  lemma ResetReplyNamesToken(cfg: Config, s: Store, username: string, env: Env, id: Id)
    requires PicksMember(cfg) && UsernamesUnique(s.users) && env.reset !in s.resets && env.fate == Commits
    requires NameTaken(s.users, username, id)
    ensures
      var r := Perform(cfg, s, InitPasswordReset(username), env);
      && r.reply.Ok?
      && r.reply.value.ResetResult?
      && (r.reply.value.reset.Some? <==> MayReset(s, username, id) && !Debounced(cfg, s, id, env.now))
      && (r.reply.value.reset.Some? ==>
            var t := r.reply.value.reset.value;
            && t in r.store.resets
            && r.store.resets[t].userId == id
            && (if t in s.resets
                then r.store == s
                     && s.resets[t].createdAt > env.now - cfg.resetReuse
                     && s.resets[t].validUntil > env.now
                else r.store == s.(resets :=
                  s.resets[t := ExpiringToken(id, env.now + cfg.resetValidity, env.now)])))
  {
    FindsExactly(cfg, s.users, username, id);
    RecentOrNot(s.resets, id, env.now, cfg.resetDebounce);
    RecentOrNot(s.resets, id, env.now, cfg.resetReuse);
    var recent := RecentTokens(s.resets, id, env.now, cfg.resetReuse);
    assert recent != {} ==> cfg.pick(recent) in recent;
  }

  /** Nothing tells an unknown name from one that gets no token. */
  lemma ResetOfUnknownName(cfg: Config, s: Store, username: string, env: Env)
    requires PicksMember(cfg) && NameFree(s.users, username)
    ensures Perform(cfg, s, InitPasswordReset(username), env) == Effect(s, Ok(ResetResult(None)), [])
  {
    FoundIsTaken(cfg, s.users, username);
  }

  /******* Passwords *******/

  /** The password set is the one given, for no one else. */
  lemma SetsGivenPassword(cfg: Config, s: Store, call: Call, env: Env, id: Id, hash: string, at: Time)
    requires PasswordSet(id, hash, at) in Perform(cfg, s, call, env).events
    ensures call.UpdatePassword? || call.ResetPassword?
    ensures Some(hash) == (if call.UpdatePassword? then call.updateHash else call.resetHash) && at == env.now
    ensures
      var s' := Perform(cfg, s, call, env).store;
      && id in s'.users
      && s'.users[id].password == Some(hash)
      && s'.users == s.users[id := s'.users[id]]
      && s'.profiles == s.profiles
      && s'.resets == s.resets
      && s'.confirmations == s.confirmations
  {
  }

  /******* Deactivation *******/

  lemma DeactivatesExactly(cfg: Config, s: Store, call: Call, env: Env, id: Id)
    ensures Deactivated(id) in Perform(cfg, s, call, env).events <==> call == Deactivate(id) && id in s.users
    ensures call == Deactivate(id) && id in s.users ==>
      Perform(cfg, s, call, env).store == s.(users := s.users[id := s.users[id].(isActive := false)])
  {
  }

  /******* Refusals *******/

  /** Login tells an unknown user and a wrong password by the same error, and an inactive user by another. */
  lemma LoginRefusals(cfg: Config, s: Store, username: string, password: string, env: Env, id: Id)
    requires PicksMember(cfg) && UsernamesUnique(s.users)
    ensures
      var reply := Perform(cfg, s, Login(username, password), env).reply;
      && (NameFree(s.users, username) ==> reply == Err(Unauthorized))
      && (NameTaken(s.users, username, id) ==>
        && (reply == Err(UserDeactivated) <==> !s.users[id].isActive)
        && (reply == Err(Unauthorized) <==>
              && s.users[id].isActive
              && (s.users[id].password.None? || !cfg.verify(password, s.users[id].password.value).Match?)))
  {
    FoundIsTaken(cfg, s.users, username);
    FindsExactly(cfg, s.users, username, id);
  }

  lemma RefreshRefusals(cfg: Config, s: Store, t: Token, env: Env)
    requires OwnersExist(s)
    ensures
      var reply := Perform(cfg, s, Refresh(t), env).reply;
      && (reply == Err(Unauthorized) <==> t !in s.refresh)
      && (reply == Err(UserDeactivated) <==> t in s.refresh && !s.users[s.refresh[t].userId].isActive)
  {
  }

  /** A password change is refused for an inactive user, one without a password, a wrong one, or an unusable new one. */
  lemma UpdateRefusals(cfg: Config, s: Store, user: UserDto, current: string, skip: bool, hash: Option<string>,
                       env: Env)
    ensures
      var reply := Perform(cfg, s, UpdatePassword(user, current, skip, hash), env).reply;
      var known := user.isActive && user.passwordHash.Some?;
      && (reply == Err(UserDeactivated) <==> !user.isActive)
      && (reply == Err(NotLocalUser) <==> user.isActive && user.passwordHash.None?)
      && (reply == Err(Unauthorized) <==> known && !skip && cfg.verify(current, user.passwordHash.value) == Mismatch)
      && (reply == Err(UnreadableHash) <==>
            known && !skip && cfg.verify(current, user.passwordHash.value) == Unreadable)
      && (reply == Err(InvalidPassword) <==>
            known && (skip || cfg.verify(current, user.passwordHash.value) == Match) && hash.None?)
  {
  }

  lemma ResetRefusals(cfg: Config, s: Store, t: Token, hash: Option<string>, env: Env)
    requires OwnersExist(s)
    ensures
      var reply := Perform(cfg, s, ResetPassword(t, hash), env).reply;
      && (reply == Err(TokenNotFound) <==> t !in s.resets)
      && (reply == Err(TokenExpired) <==> t in s.resets && env.now > s.resets[t].validUntil)
  {
  }

  lemma DeleteRefusals(cfg: Config, s: Store, user: UserDto, password: string, env: Env)
    ensures
      var reply := Perform(cfg, s, DeleteUserAccount(user, password), env).reply;
      && (reply == Err(UserDeactivated) <==> !user.isActive)
      && (reply == Err(NotLocalUser) <==> user.isActive && user.passwordHash.None?)
      && (reply == Err(Unauthorized) <==>
            user.isActive && user.passwordHash.Some? && !cfg.verify(password, user.passwordHash.value).Match?)
  {
  }

  lemma RegisterRefusals(cfg: Config, s: Store, username: string, hash: Option<string>, env: Env)
    requires PicksMember(cfg) && UsernamesUnique(s.users)
    ensures
      var reply := Perform(cfg, s, Register(username, hash), env).reply;
      && (reply == Err(InvalidPassword) <==> NameFree(s.users, username) && hash.None?)
      && (reply == Err(UserAlreadyExists) <==>
            exists id :: NameTaken(s.users, username, id) && !s.users[id].requiresConfirmation)
  {
    FoundIsTaken(cfg, s.users, username);
    var found := FindByUsername(cfg, s.users, username);
    if found.Some? {
      forall id | NameTaken(s.users, username, id) ensures id == found.value {
        FindsExactly(cfg, s.users, username, id);
      }
    }
  }

  /** No call touches a profile, except to add an empty one or to remove it with its user. */
  lemma ProfilesUntouched(cfg: Config, s: Store, call: Call, env: Env, id: Id)
    requires env.userId !in s.profiles
    ensures
      var r := Perform(cfg, s, call, env);
      && (id in s.profiles && id in r.store.profiles ==> r.store.profiles[id] == s.profiles[id])
      && (id in s.profiles && id !in r.store.profiles ==> Deleted(id) in r.events)
      && (id !in s.profiles && id in r.store.profiles ==> call.Register? && r.store.profiles[id] == Profile(None))
  {
  }

  /** An unknown or expired confirmation token is refused; one of a user who needs none is answered without tokens. */
  lemma CompletionRefusals(cfg: Config, s: Store, t: Token, env: Env)
    requires OwnersExist(s) && env.fate != BeginFails
    ensures
      var r := Perform(cfg, s, CompleteRegister(t), env);
      && (r.reply == Err(TokenNotFound) <==> t !in s.confirmations || s.confirmations[t].validUntil <= env.now)
      && (t in s.confirmations && s.confirmations[t].validUntil > env.now ==>
            var user := s.users[s.confirmations[t].userId];
            user.isActive || !user.requiresConfirmation ==> r.reply == Ok(LoginResult("", "", "", 0)) && r.store == s)
  {
  }
}
