/** What the invariant of module Sessions means for callers, over whole runs. */
module SessionTheorems {
  import opened Wrappers
  import opened Accounts
  import opened History
  import opened Sessions
  import Usernames

  /** Every run of admissible calls from tables without tokens ends in a world with the invariant. */
  lemma EveryRunKeepsInvariant(cfg: Config, start: World, calls: seq<(Call, Env)>)
    requires Init(start) && AdmissibleRun(cfg, start, calls) && PicksMember(cfg)
    ensures Inv(cfg, Run(cfg, start, calls))
  {
    InitInv(cfg, start);
    RunKeepsInv(cfg, start, calls);
  }

  /** The related user that an operation dereferences is there in every reachable world. */
  lemma NoNilDereference(cfg: Config, w: World, call: Call, env: Env)
    requires OwnersExist(w.store)
    ensures Perform(cfg, w.store, call, env).reply != Err(NilDereference)
  {
  }

  /******* Failure and success of one call *******/

  /** The call runs in a transaction: all do but the administrator's update and a repeated registration. */
  predicate Transactional(cfg: Config, s: Store, call: Call) {
    !call.Deactivate? && (call.Register? ==> FindByUsername(cfg, s.users, call.newUsername).None?)
  }

  /**
   A call that changes the tables when its transaction commits replies the same when COMMIT fails, and
   then changes nothing: a reported success is real if and only if the transaction committed.
   */
  lemma LostCommit(cfg: Config, s: Store, call: Call, env: Env, fate: Fate)
    requires Transactional(cfg, s, call) && env.fate.Commits?
    requires Perform(cfg, s, call, env).reply.Ok? && Perform(cfg, s, call, env).events != []
    ensures
      var committed, effect := Perform(cfg, s, call, env), Perform(cfg, s, call, env.(fate := fate));
      && (effect.reply == committed.reply <==> fate != BeginFails)
      && (effect.events == committed.events <==> fate == Commits)
      && (fate == CommitFails ==> effect.store == s)
  {
  }

  /** The others do not depend on any transaction. */
  lemma UntransactedIgnoresFate(cfg: Config, s: Store, call: Call, env: Env, fate: Fate)
    requires PicksMember(cfg) && !Transactional(cfg, s, call)
    ensures Perform(cfg, s, call, env.(fate := fate)) == Perform(cfg, s, call, env)
  {
    if call.Register? {
      FoundIsRow(cfg, s.users, call.newUsername);
    }
  }

  lemma FoundIsRow(cfg: Config, users: map<Id, User>, username: string)
    requires PicksMember(cfg)
    ensures var found := FindByUsername(cfg, users, username); found.Some? ==> found.value in users
  {
  }

  /** What may become of a row under calls that set passwords, confirm, or deactivate. */
  ghost predicate RowMayBecome(old': User, new': User, setsPassword: bool, confirms: bool, deactivates: bool) {
    && new'.username == old'.username && new'.scopes == old'.scopes
    && (setsPassword || new'.password == old'.password)
    && (new'.requiresConfirmation == old'.requiresConfirmation ||
          (confirms && old'.requiresConfirmation && !old'.isActive && new'.isActive))
    && (new'.isActive == old'.isActive ||
          (confirms && old'.requiresConfirmation && !new'.requiresConfirmation) ||
          (deactivates && !new'.isActive))
  }

  ghost predicate RowsMayBecome(s: Store, s': Store, setsPassword: bool, confirms: bool, deactivates: bool) {
    forall id :: id in s.users && id in s'.users ==>
      RowMayBecome(s.users[id], s'.users[id], setsPassword, confirms, deactivates)
  }

  lemma UpdatePasswordColumns(cfg: Config, s: Store, env: Env, user: UserDto, current: string, skip: bool,
                              hash: Option<string>)
    ensures RowsMayBecome(s, PerformUpdatePassword(cfg, s, env, user, current, skip, hash).store, true, false, false)
  {
  }

  lemma CompleteRegisterColumns(cfg: Config, s: Store, env: Env, token: Token)
    ensures RowsMayBecome(s, PerformCompleteRegister(cfg, s, env, token).store, false, true, false)
  {
  }

  lemma LoginColumns(cfg: Config, s: Store, env: Env, username: string, password: string)
    ensures RowsMayBecome(s, PerformLogin(cfg, s, env, username, password).store, false, false, false)
  {
  }

  lemma RefreshColumns(cfg: Config, s: Store, env: Env, token: Token)
    ensures RowsMayBecome(s, PerformRefresh(cfg, s, env, token).store, false, false, false)
  {
  }

  lemma RegisterColumns(cfg: Config, s: Store, env: Env, username: string, hash: Option<string>)
    ensures RowsMayBecome(s, PerformRegister(cfg, s, env, username, hash).store, false, false, false)
  {
  }

  lemma OtherColumns(cfg: Config, s: Store, env: Env, call: Call)
    requires call.Logout? || call.InitPasswordReset? || call.DeleteUserAccount? || call.Deactivate?
    ensures RowsMayBecome(s, Perform(cfg, s, call, env).store, false, false, call.Deactivate?)
  {
  }

  /**
   Updates are built from a DTO that has lost requiresConfirmation and may be stale, and still each
   call writes only the columns it lists: for any tables, any call and any DTO.
   */
  lemma OnlyWhitelistedColumns(cfg: Config, s: Store, call: Call, env: Env)
    ensures RowsMayBecome(s, Perform(cfg, s, call, env).store,
                          call.UpdatePassword? || call.ResetPassword?, call.CompleteRegister?, call.Deactivate?)
  {
    match call
    case Login(username, password) => LoginColumns(cfg, s, env, username, password);
    case Refresh(token) => RefreshColumns(cfg, s, env, token);
    case UpdatePassword(user, current, skip, hash) => UpdatePasswordColumns(cfg, s, env, user, current, skip, hash);
    case ResetPassword(token, hash) =>
      if token in s.resets && s.resets[token].userId in s.users {
        var id := s.resets[token].userId;
        UpdatePasswordColumns(cfg, s, env, ToDto(id, s.users[id]), "", true, hash);
      }
    case CompleteRegister(token) => CompleteRegisterColumns(cfg, s, env, token);
    case Register(username, hash) => RegisterColumns(cfg, s, env, username, hash);
    case _ => OtherColumns(cfg, s, env, call);
  }

  /******* Lineage of refresh tokens *******/

  /** A live refresh token traces back through rotations to exactly one credential event of its own user. */
  lemma LineageOfLiveToken(cfg: Config, w: World, t: Token) returns (chain: seq<nat>)
    requires Inv(cfg, w) && t in w.store.refresh
    ensures LineageOf(w.log, chain, t)
    ensures w.log[chain[0]].cause in {ByLogin, ByCompletion, ByPasswordUpdate}
    ensures w.log[chain[0]].user == w.store.refresh[t].userId
    ensures forall other :: LineageOf(w.log, other, t) ==> other == chain
  {
    assert Rooted(w, t);
    chain := RootIsLineage(w.log, t);
    forall other | LineageOf(w.log, other, t) ensures other == chain {
      LineageUnique(w.log, other, chain, t);
    }
  }

  /** A credential event has at most one live refresh descendant. */
  lemma OneLiveDescendant(cfg: Config, w: World, t: Token, u: Token, c: seq<nat>, d: seq<nat>)
    requires Inv(cfg, w) && t in w.store.refresh && u in w.store.refresh
    requires LineageOf(w.log, c, t) && LineageOf(w.log, d, u) && c[0] == d[0]
    ensures t == u && c == d
  {
    SameRoot(w, t, u, c, d);
    LineageUnique(w.log, c, d, t);
  }

  lemma SameRoot(w: World, t: Token, u: Token, c: seq<nat>, d: seq<nat>)
    requires RootsApart(w) && t in w.store.refresh && u in w.store.refresh
    requires LineageOf(w.log, c, t) && LineageOf(w.log, d, u) && c[0] == d[0]
    ensures t == u
  {
    assert Rooted(w, t) && Rooted(w, u);
    var c' := RootIsLineage(w.log, t);
    var d' := RootIsLineage(w.log, u);
    LineageUnique(w.log, c, c', t);
    LineageUnique(w.log, d, d', u);
  }

  /** A token that was generated once and is no longer in the table never comes back. */
  ghost predicate Spent(w: World, t: Token) {
    t in w.used && t !in w.store.refresh
  }

  lemma EventKeepsSpent(cfg: Config, w: World, e: Event, t: Token)
    requires Enabled(cfg, w, e) && Spent(w, t)
    ensures Spent(After(w, e), t)
  {
  }

  lemma {:induction false} EventsKeepSpent(cfg: Config, w: World, es: seq<Event>, t: Token)
    requires EnabledAll(cfg, w, es) && Spent(w, t)
    ensures Spent(AfterAll(w, es), t)
    decreases |es|
  {
    if es != [] {
      EventKeepsSpent(cfg, w, es[0], t);
      EventsKeepSpent(cfg, After(w, es[0]), es[1..], t);
    }
  }

  /** In no later state of any run is a spent refresh token accepted. */
  lemma {:induction false} SpentForever(cfg: Config, w: World, calls: seq<(Call, Env)>, t: Token, env: Env)
    requires Inv(cfg, w) && AdmissibleRun(cfg, w, calls) && PicksMember(cfg)
    requires Spent(w, t)
    ensures Spent(Run(cfg, w, calls), t)
    ensures Perform(cfg, Run(cfg, w, calls).store, Refresh(t), env).reply == Err(Unauthorized)
    decreases |calls|
  {
    if calls != [] {
      var v := w.(clock := calls[0].1.now);
      StepIsEvents(cfg, w, calls[0].0, calls[0].1);
      EventsKeepSpent(cfg, v, Perform(cfg, w.store, calls[0].0, calls[0].1).events, t);
      StepKeepsInv(cfg, w, calls[0].0, calls[0].1);
      SpentForever(cfg, Step(cfg, w, calls[0].0, calls[0].1), calls[1..], t, env);
    }
  }

  /**
   Rotation and logout spend the token, and success is reported as if they had even when COMMIT
   fails: after a reported success the token is spent if and only if the transaction committed.
   */
  lemma RotationSpends(cfg: Config, w: World, call: Call, env: Env, t: Token)
    requires Inv(cfg, w) && Admissible(w, call, env) && PicksMember(cfg)
    requires t in w.store.refresh
    requires call == Refresh(t) || (call.Logout? && call.loggedOutRefresh == Some(t))
    requires Perform(cfg, w.store, call, env).reply.Ok?
    ensures Spent(Step(cfg, w, call, env), t) <==> env.fate == Commits
  {
    OnlyGrows(w.(clock := env.now), Perform(cfg, w.store, call, env).events);
    RotationRemoves(cfg, w.store, call, env, t);
  }

  lemma RotationRemoves(cfg: Config, s: Store, call: Call, env: Env, t: Token)
    requires t in s.refresh && env.refresh != t
    requires call == Refresh(t) || (call.Logout? && call.loggedOutRefresh == Some(t))
    requires Perform(cfg, s, call, env).reply.Ok?
    ensures t !in Perform(cfg, s, call, env).store.refresh <==> env.fate == Commits
  {
  }

  lemma {:induction false} OnlyGrows(w: World, es: seq<Event>)
    ensures w.used <= AfterAll(w, es).used
    decreases |es|
  {
    if es != [] {
      OnlyGrows(After(w, es[0]), es[1..]);
    }
  }

  /******* Password changes *******/

  ghost function OwnedAccess(s: Store, user: Id): set<Token> {
    set t | t in s.access && s.access[t].userId == user
  }

  ghost function OwnedRefresh(s: Store, user: Id): set<Token> {
    set t | t in s.refresh && s.refresh[t].userId == user
  }

  /** Whose password the call changes. */
  function PasswordOwner(s: Store, call: Call): Option<Id> {
    match call
    case UpdatePassword(user, _, _, _) => Some(user.id)
    case ResetPassword(token, _) => if token in s.resets then Some(s.resets[token].userId) else None
    case _ => None
  }

  ghost predicate OnePairLeft(s: Store, s': Store, user: Id, access: Token, refresh: Token) {
    && OwnedAccess(s', user) == {access}
    && OwnedRefresh(s', user) == {refresh}
    && NotOwnedBy(s'.access, user) == NotOwnedBy(s.access, user)
    && RefreshNotOwnedBy(s'.refresh, user) == RefreshNotOwnedBy(s.refresh, user)
  }

  lemma AuthenticationLeavesOnePair(cfg: Config, s: Store, env: Env, user: UserDto)
    requires AuthenticateUser(cfg, s, env, user, true).Ok?
    ensures OnePairLeft(s, AuthenticateUser(cfg, s, env, user, true).value.0, user.id, env.access, env.refresh)
  {
    var s' := AuthenticateUser(cfg, s, env, user, true).value.0;
    assert s'.access == NotOwnedBy(s.access, user.id)[env.access := s'.access[env.access]];
    assert s'.refresh == RefreshNotOwnedBy(s.refresh, user.id)[env.refresh := s'.refresh[env.refresh]];
  }

  lemma UpdateLeavesOnePair(cfg: Config, s: Store, env: Env, user: UserDto, current: string, skip: bool,
                            hash: Option<string>)
    requires env.fate.Commits?
    requires PerformUpdatePassword(cfg, s, env, user, current, skip, hash).reply.Ok?
    ensures var r := PerformUpdatePassword(cfg, s, env, user, current, skip, hash);
      && OnePairLeft(s, r.store, user.id, env.access, env.refresh)
      && r.reply.value == LoginResult(env.access, env.refresh, "bearer", WholeSeconds(cfg.accessTokenValidity))
  {
    var user' := user.(passwordHash := hash);
    var users := UpdateUser(s.users, user.id, ToModel(user'), {PasswordColumn, UpdatedAtColumn}, env.now);
    AuthenticationLeavesOnePair(cfg, s.(users := users), env, user');
  }

  /** After a committed password change the user owns exactly the two returned tokens; others keep theirs. */
  lemma PasswordChangeLeavesOnePair(cfg: Config, s: Store, call: Call, env: Env)
    requires PasswordOwner(s, call).Some? && env.fate.Commits?
    requires Perform(cfg, s, call, env).reply.Ok?
    ensures Perform(cfg, s, call, env).reply.value.LoginResult?
    ensures var r := Perform(cfg, s, call, env);
      OnePairLeft(s, r.store, PasswordOwner(s, call).value, r.reply.value.access, r.reply.value.refresh)
  {
    match call
    case UpdatePassword(user, current, skip, hash) => UpdateLeavesOnePair(cfg, s, env, user, current, skip, hash);
    case ResetPassword(token, hash) =>
      var id := s.resets[token].userId;
      UpdateLeavesOnePair(cfg, s, env, ToDto(id, s.users[id]), "", true, hash);
  }

  /** In every reachable world a live token was issued after the last password change of its user. */
  lemma LiveTokensPostdatePassword(cfg: Config, w: World, t: Token, p: nat)
    requires GrantsAgree(w) && Timely(cfg, w) && t in w.store.access
    requires p < |w.log| && w.log[p].PasswordSet? && w.log[p].user == w.store.access[t].userId
    ensures exists i :: p < i < |w.log| && w.log[i].Issued? && w.log[i].access == t
    ensures w.log[p].at <= w.store.access[t].createdAt
  {
    assert AccessAgrees(w, t);
    var i := LiveAccessMeans(w.log, t);
    assert RevokesAccess(w.log[p], t, w.store.access[t].userId);
  }

  lemma LiveRefreshPostdatesPassword(cfg: Config, w: World, t: Token, p: nat)
    requires GrantsAgree(w) && Timely(cfg, w) && t in w.store.refresh
    requires p < |w.log| && w.log[p].PasswordSet? && w.log[p].user == w.store.refresh[t].userId
    ensures exists i :: p < i < |w.log| && w.log[i].Issued? && w.log[i].refresh == t
    ensures w.log[p].at <= w.store.refresh[t].createdAt
  {
    assert RefreshAgrees(w, t);
    var i := LiveRefreshMeans(w.log, t);
    assert RevokesRefresh(w.log[p], t, w.store.refresh[t].userId);
  }

  /******* Confirmation and deactivation *******/

  /** At most one CompleteRegister ever issues tokens for a user. */
  lemma CompletedOnce(cfg: Config, w: World, i: nat, j: nat)
    requires Inv(cfg, w) && i < j < |w.log|
    requires w.log[i].Issued? && w.log[i].cause == ByCompletion
    requires w.log[j].Issued? && w.log[j].cause == ByCompletion
    ensures w.log[i].user != w.log[j].user
  {
    assert w.log[i - 1].user == w.log[i].user && w.log[j - 1].user == w.log[j].user;
  }

  lemma UnconfirmedOwnNothing(cfg: Config, w: World, id: Id)
    requires Inv(cfg, w) && id in w.store.users && w.store.users[id].requiresConfirmation
    ensures OwnedAccess(w.store, id) == {} && OwnedRefresh(w.store, id) == {}
  {
    forall t | t in w.store.access ensures w.store.access[t].userId != id {
      assert !Unconfirmed(w, w.store.access[t].userId);
    }
    forall t | t in w.store.refresh ensures w.store.refresh[t].userId != id {
      assert !Unconfirmed(w, w.store.refresh[t].userId);
    }
  }

  /** A user who was confirmed and is not active any more, or is gone. */
  ghost predicate Retired(w: World, id: Id) {
    id in w.used && (id in w.store.users ==> !w.store.users[id].isActive && !w.store.users[id].requiresConfirmation)
  }

  /******* What it takes to get tokens *******/

  predicate IssuesFor(es: seq<Event>, id: Id) {
    exists i :: 0 <= i < |es| && es[i].Issued? && es[i].user == id
  }

  predicate SetsPasswordOf(es: seq<Event>, id: Id) {
    exists i :: 0 <= i < |es| && es[i].PasswordSet? && es[i].user == id
  }

  /** A password change whose copy of the user is active, has a password, and passes the verification it asks for. */
  ghost predicate UpdateAccepted(cfg: Config, s: Store, call: Call, id: Id) {
    && call.UpdatePassword? && call.user.id == id && id in s.users
    && call.user.isActive && call.user.passwordHash.Some? && call.updateHash.Some?
    && (call.skipVerification || cfg.verify(call.currentPassword, call.user.passwordHash.value).Match?)
  }

  /** The call presents a credential of this user that is good at this instant. */
  ghost predicate Presents(cfg: Config, s: Store, call: Call, now: Time, id: Id) {
    && id in s.users
    && var row := s.users[id];
       match call
       case Login(username, password) =>
         && row.username == Some(Usernames.ToUsernameFormat(username))
         && row.isActive
         && row.password.Some?
         && cfg.verify(password, row.password.value).Match?
       case Refresh(t) => t in s.refresh && s.refresh[t].userId == id && row.isActive
       case CompleteRegister(t) =>
         && t in s.confirmations
         && s.confirmations[t].userId == id
         && now < s.confirmations[t].validUntil
         && row.requiresConfirmation
         && !row.isActive
       case ResetPassword(t, hash) =>
         && t in s.resets
         && s.resets[t].userId == id
         && now <= s.resets[t].validUntil
         && row.isActive
         && row.password.Some?
         && hash.Some?
       case UpdatePassword(_, _, _, _) => UpdateAccepted(cfg, s, call, id)
       case _ => false
  }

  ghost predicate FreshTokens(s: Store, env: Env) {
    env.access !in s.access && env.refresh !in s.refresh
  }

  /** The user with a username is found, and only that one. */
  lemma FindsExactly(cfg: Config, users: map<Id, User>, username: string, id: Id)
    requires PicksMember(cfg) && UsernamesUnique(users)
    ensures FindByUsername(cfg, users, username) == Some(id) <==>
      id in users && users[id].username == Some(Usernames.ToUsernameFormat(username))
  {
    var rows := set i | i in users && users[i].username == Some(Usernames.ToUsernameFormat(username));
    if id in users && users[id].username == Some(Usernames.ToUsernameFormat(username)) {
      assert id in rows && cfg.pick(rows) in rows;
    }
  }

  lemma LoginIssues(cfg: Config, s: Store, env: Env, username: string, password: string, id: Id)
    requires FreshTokens(s, env) && PicksMember(cfg) && UsernamesUnique(s.users)
    ensures IssuesFor(PerformLogin(cfg, s, env, username, password).events, id) <==>
      env.fate == Commits && Presents(cfg, s, Login(username, password), env.now, id)
  {
    FindsExactly(cfg, s.users, username, id);
    var es := PerformLogin(cfg, s, env, username, password).events;
    if env.fate == Commits && Presents(cfg, s, Login(username, password), env.now, id) {
      assert es[0].Issued? && es[0].user == id;
    }
  }

  lemma RefreshIssues(cfg: Config, s: Store, env: Env, token: Token, id: Id)
    requires FreshTokens(s, env)
    ensures IssuesFor(PerformRefresh(cfg, s, env, token).events, id) <==>
      env.fate == Commits && Presents(cfg, s, Refresh(token), env.now, id)
  {
    var es := PerformRefresh(cfg, s, env, token).events;
    if env.fate == Commits && Presents(cfg, s, Refresh(token), env.now, id) {
      assert es[0].Issued? && es[0].user == id;
    }
  }

  lemma CompleteRegisterIssues(cfg: Config, s: Store, env: Env, token: Token, id: Id)
    requires FreshTokens(s, env)
    ensures IssuesFor(PerformCompleteRegister(cfg, s, env, token).events, id) <==>
      env.fate == Commits && Presents(cfg, s, CompleteRegister(token), env.now, id)
  {
    var es := PerformCompleteRegister(cfg, s, env, token).events;
    if env.fate == Commits && Presents(cfg, s, CompleteRegister(token), env.now, id) {
      assert es[1].Issued? && es[1].user == id;
    }
  }

  lemma UpdatePasswordIssues(cfg: Config, s: Store, call: Call, env: Env, id: Id)
    requires call.UpdatePassword? && FreshTokens(s, env)
    ensures
      var es := Perform(cfg, s, call, env).events;
      && (IssuesFor(es, id) <==> env.fate == Commits && UpdateAccepted(cfg, s, call, id))
      && (SetsPasswordOf(es, id) <==> IssuesFor(es, id))
  {
    var es := Perform(cfg, s, call, env).events;
    if env.fate == Commits && UpdateAccepted(cfg, s, call, id) {
      assert es[0].PasswordSet? && es[0].user == id;
      assert es[1].Issued? && es[1].user == id;
    }
  }

  lemma ResetPasswordIssues(cfg: Config, s: Store, env: Env, token: Token, hash: Option<string>, id: Id)
    requires FreshTokens(s, env)
    ensures
      var es := PerformResetPassword(cfg, s, env, token, hash).events;
      && (IssuesFor(es, id) <==> env.fate == Commits && Presents(cfg, s, ResetPassword(token, hash), env.now, id))
      && (SetsPasswordOf(es, id) <==> IssuesFor(es, id))
  {
    if token in s.resets && env.now <= s.resets[token].validUntil && s.resets[token].userId in s.users {
      var owner := s.resets[token].userId;
      var update := UpdatePassword(ToDto(owner, s.users[owner]), "", true, hash);
      UpdatePasswordIssues(cfg, s, update, env, id);
    }
  }

  lemma OthersIssueNothing(cfg: Config, s: Store, call: Call, env: Env, id: Id)
    requires call.Logout? || call.Register? || call.InitPasswordReset? || call.DeleteUserAccount? || call.Deactivate?
    ensures !IssuesFor(Perform(cfg, s, call, env).events, id)
  {
  }

  /**
   A call issues tokens for a user if and only if it presents a good credential of that user and its
   transaction commits: the stored password, a live refresh token, an open confirmation, an open reset
   token, or an accepted password change.
   */
  lemma IssuesExactly(cfg: Config, w: World, call: Call, env: Env, id: Id)
    requires Inv(cfg, w) && EnvFits(w, env) && PicksMember(cfg)
    ensures IssuesFor(Perform(cfg, w.store, call, env).events, id) <==>
      env.fate == Commits && Presents(cfg, w.store, call, env.now, id)
  {
    match call
    case Login(username, password) => LoginIssues(cfg, w.store, env, username, password, id);
    case Refresh(token) => RefreshIssues(cfg, w.store, env, token, id);
    case CompleteRegister(token) => CompleteRegisterIssues(cfg, w.store, env, token, id);
    case ResetPassword(token, hash) => ResetPasswordIssues(cfg, w.store, env, token, hash, id);
    case UpdatePassword(_, _, _, _) => UpdatePasswordIssues(cfg, w.store, call, env, id);
    case _ => OthersIssueNothing(cfg, w.store, call, env, id);
  }

  /** Passwords are set exactly by the calls that then issue tokens for an accepted change or an open reset token. */
  lemma SetsPasswordExactly(cfg: Config, w: World, call: Call, env: Env, id: Id)
    requires Bounded(w) && EnvFits(w, env)
    ensures SetsPasswordOf(Perform(cfg, w.store, call, env).events, id) <==>
      && env.fate == Commits
      && (call.UpdatePassword? || call.ResetPassword?)
      && Presents(cfg, w.store, call, env.now, id)
  {
    match call
    case ResetPassword(token, hash) => ResetPasswordIssues(cfg, w.store, env, token, hash, id);
    case UpdatePassword(_, _, _, _) => UpdatePasswordIssues(cfg, w.store, call, env, id);
    case _ => OthersSetNothing(cfg, w.store, call, env, id);
  }

  lemma OthersSetNothing(cfg: Config, s: Store, call: Call, env: Env, id: Id)
    requires !call.UpdatePassword? && !call.ResetPassword?
    ensures !SetsPasswordOf(Perform(cfg, s, call, env).events, id)
  {
  }

  /** The tokens in the reply are the pair issued last, in the table, the access token valid for the configured time. */
  ghost predicate HandsOut(cfg: Config, env: Env, r: Effect) {
    (r.events != [] && r.reply.Ok? && r.reply.value.LoginResult?) ==>
      var pair, issued := r.reply.value, r.events[|r.events| - 1];
      && issued.Issued?
      && issued ==
        Issued(issued.user, pair.access, pair.refresh, issued.cause, env.now, env.now + cfg.accessTokenValidity)
      && pair.access in r.store.access
      && r.store.access[pair.access] == ExpiringToken(issued.user, env.now + cfg.accessTokenValidity, env.now)
      && pair.refresh in r.store.refresh
      && r.store.refresh[pair.refresh] == RefreshToken(issued.user, env.now)
  }

  lemma UpdateHandsOut(cfg: Config, s: Store, env: Env, user: UserDto, current: string, skip: bool,
                       hash: Option<string>)
    ensures HandsOut(cfg, env, PerformUpdatePassword(cfg, s, env, user, current, skip, hash))
  {
  }

  lemma LoginHandsOut(cfg: Config, s: Store, env: Env, username: string, password: string)
    ensures HandsOut(cfg, env, PerformLogin(cfg, s, env, username, password))
  {
  }

  lemma RefreshHandsOut(cfg: Config, s: Store, env: Env, token: Token)
    ensures HandsOut(cfg, env, PerformRefresh(cfg, s, env, token))
  {
  }

  lemma CompletionHandsOut(cfg: Config, s: Store, env: Env, token: Token)
    ensures HandsOut(cfg, env, PerformCompleteRegister(cfg, s, env, token))
  {
  }

  lemma HandsOutIssuedPair(cfg: Config, s: Store, call: Call, env: Env)
    ensures HandsOut(cfg, env, Perform(cfg, s, call, env))
  {
    match call
    case Login(username, password) => LoginHandsOut(cfg, s, env, username, password);
    case Refresh(token) => RefreshHandsOut(cfg, s, env, token);
    case CompleteRegister(token) => CompletionHandsOut(cfg, s, env, token);
    case UpdatePassword(user, current, skip, hash) => UpdateHandsOut(cfg, s, env, user, current, skip, hash);
    case ResetPassword(token, hash) =>
      if token in s.resets && s.resets[token].userId in s.users {
        var id := s.resets[token].userId;
        UpdateHandsOut(cfg, s, env, ToDto(id, s.users[id]), "", true, hash);
      }
    case _ =>
  }

  /**
   Exactly one kind of committed call still issues tokens for a retired user: a password change made
   with a stale active snapshot. With a current snapshot no call does.
   */
  lemma IssuesForRetired(cfg: Config, w: World, call: Call, env: Env, id: Id)
    requires Inv(cfg, w) && EnvFits(w, env) && PicksMember(cfg) && Retired(w, id)
    ensures IssuesFor(Perform(cfg, w.store, call, env).events, id) <==>
            env.fate == Commits && UpdateAccepted(cfg, w.store, call, id)
  {
    IssuesExactly(cfg, w, call, env, id);
  }

  /** Every request about this user carries the user as the table has it at that moment. */
  ghost predicate CurrentSnapshots(cfg: Config, w: World, calls: seq<(Call, Env)>, id: Id)
    decreases |calls|
  {
    calls == [] ||
    (var snapshot := SnapshotOf(calls[0].0);
     && (snapshot.Some? && snapshot.value.id == id ==> snapshot.value in Snapshots(w.store))
     && CurrentSnapshots(cfg, Step(cfg, w, calls[0].0, calls[0].1), calls[1..], id))
  }

  lemma EventKeepsRetired(cfg: Config, w: World, e: Event, id: Id)
    requires Enabled(cfg, w, e) && Retired(w, id)
    ensures Retired(After(w, e), id)
  {
  }

  lemma {:induction false} EventsKeepRetired(cfg: Config, w: World, es: seq<Event>, id: Id)
    requires EnabledAll(cfg, w, es) && Retired(w, id)
    ensures Retired(AfterAll(w, es), id)
    decreases |es|
  {
    if es != [] {
      EventKeepsRetired(cfg, w, es[0], id);
      EventsKeepRetired(cfg, After(w, es[0]), es[1..], id);
    }
  }

  /** One call: the log grows by its events, the tables by their replay, and the retired stay so. */
  lemma OneStep(cfg: Config, w: World, call: Call, env: Env, id: Id)
    requires Inv(cfg, w) && Admissible(w, call, env) && PicksMember(cfg)
    ensures Step(cfg, w, call, env).log == w.log + Perform(cfg, w.store, call, env).events
    ensures Step(cfg, w, call, env).store == ApplyAll(w.store, Perform(cfg, w.store, call, env).events)
    ensures Retired(w, id) ==> Retired(Step(cfg, w, call, env), id)
  {
    var v := w.(clock := env.now);
    var es := Perform(cfg, w.store, call, env).events;
    StepIsEvents(cfg, w, call, env);
    EventsExtendLog(v, es);
    if Retired(w, id) {
      EventsKeepRetired(cfg, v, es, id);
    }
  }

  lemma Suffix(log: seq<Event>, es: seq<Event>, final: seq<Event>)
    requires log + es <= final
    ensures log <= final && final[|log|..] == es + final[|log + es|..]
  {
    assert (log + es)[..|log|] == log;
  }

  lemma NoneIssued(a: seq<Event>, b: seq<Event>, id: Id)
    requires !IssuesFor(a, id) && !IssuesFor(b, id)
    ensures !IssuesFor(a + b, id)
  {
  }

  /**
   Deactivation of a confirmed user is final: in no later state of any run is the user active again,
   and if requests carry current snapshots no later event issues tokens to them.
   */
  lemma {:induction false} RetiredForever(cfg: Config, w: World, calls: seq<(Call, Env)>, id: Id)
    requires Inv(cfg, w) && AdmissibleRun(cfg, w, calls) && PicksMember(cfg)
    requires Retired(w, id)
    ensures Retired(Run(cfg, w, calls), id)
    ensures w.log <= Run(cfg, w, calls).log
    ensures CurrentSnapshots(cfg, w, calls, id) ==> !IssuesFor(Run(cfg, w, calls).log[|w.log|..], id)
    decreases |calls|
  {
    if calls != [] {
      var (call, env) := calls[0];
      var next := Step(cfg, w, call, env);
      OneStep(cfg, w, call, env, id);
      StepKeepsInv(cfg, w, call, env);
      RetiredForever(cfg, next, calls[1..], id);
      RetiredLog(cfg, w, call, env, Run(cfg, w, calls).log, id);
    }
  }

  lemma RetiredLog(cfg: Config, w: World, call: Call, env: Env, final: seq<Event>, id: Id)
    requires Inv(cfg, w) && EnvFits(w, env) && PicksMember(cfg) && Retired(w, id)
    requires w.log + Perform(cfg, w.store, call, env).events <= final
    ensures w.log <= final
    ensures
      && (SnapshotOf(call).Some? && SnapshotOf(call).value.id == id ==> SnapshotOf(call).value in Snapshots(w.store))
      && !IssuesFor(final[|w.log + Perform(cfg, w.store, call, env).events|..], id)
      ==> !IssuesFor(final[|w.log|..], id)
  {
    var es := Perform(cfg, w.store, call, env).events;
    Suffix(w.log, es, final);
    IssuesForRetired(cfg, w, call, env, id);
    if !IssuesFor(es, id) && !IssuesFor(final[|w.log + es|..], id) {
      NoneIssued(es, final[|w.log + es|..], id);
    }
  }

  /** The tables are the replay of the log, in every run. */
  lemma {:induction false} StoreIsReplay(cfg: Config, w: World, calls: seq<(Call, Env)>)
    requires Inv(cfg, w) && AdmissibleRun(cfg, w, calls) && PicksMember(cfg)
    ensures w.log <= Run(cfg, w, calls).log
    ensures Run(cfg, w, calls).store == ApplyAll(w.store, Run(cfg, w, calls).log[|w.log|..])
    decreases |calls|
  {
    if calls == [] {
      assert w.log[|w.log|..] == [];
    } else {
      var (call, env) := calls[0];
      var es := Perform(cfg, w.store, call, env).events;
      OneStep(cfg, w, call, env, "");
      StepKeepsInv(cfg, w, call, env);
      StoreIsReplay(cfg, Step(cfg, w, call, env), calls[1..]);
      var final := Run(cfg, w, calls).log;
      Suffix(w.log, es, final);
      ReplayConcat(w.store, es, final[|w.log + es|..]);
    }
  }

  lemma {:induction false} ReplayConcat(s: Store, a: seq<Event>, b: seq<Event>)
    ensures ApplyAll(s, a + b) == ApplyAll(ApplyAll(s, a), b)
    decreases |a|
  {
    if a == [] {
      assert a + b == b;
    } else {
      ReplayConcat(Apply(s, a[0]), a[1..], b);
      assert (a + b)[1..] == a[1..] + b;
    }
  }

  /******* Reset tokens are not consumed *******/

  /** A reset succeeds with new tokens exactly for an open token of an active user with a password. */
  lemma ResetReplies(cfg: Config, s: Store, t: Token, hash: Option<string>, env: Env)
    requires OwnersExist(s) && env.fate == Commits && FreshTokens(s, env)
    ensures Perform(cfg, s, ResetPassword(t, hash), env).reply.Ok? <==>
      && t in s.resets
      && env.now <= s.resets[t].validUntil
      && s.users[s.resets[t].userId].isActive
      && s.users[s.resets[t].userId].password.Some?
      && hash.Some?
  {
  }

  lemma ResetKeepsOwners(cfg: Config, s: Store, t: Token, hash: Option<string>, env: Env)
    requires OwnersExist(s) && env.fate == Commits && Perform(cfg, s, ResetPassword(t, hash), env).reply.Ok?
    ensures OwnersExist(Perform(cfg, s, ResetPassword(t, hash), env).store)
  {
  }

  lemma ResetLeaves(cfg: Config, s: Store, t: Token, hash: Option<string>, env: Env)
    requires OwnersExist(s) && env.fate == Commits && Perform(cfg, s, ResetPassword(t, hash), env).reply.Ok?
    ensures
      var s' := Perform(cfg, s, ResetPassword(t, hash), env).store;
      && t in s.resets
      && s'.resets == s.resets
      && OwnersExist(s')
      && s'.users[s.resets[t].userId].isActive
      && s'.users[s.resets[t].userId].password == hash
  {
    ResetKeepsOwners(cfg, s, t, hash, env);
  }

  /**
   A reset token that has been used is as good as before: a second password change with it succeeds until it
   expires.
   */
  lemma ResetTokenWorksAgain(cfg: Config, s: Store, t: Token, hash: string, env: Env, hash': string, env': Env)
    requires OwnersExist(s) && env.fate == Commits && env'.fate == Commits
    requires Perform(cfg, s, ResetPassword(t, Some(hash)), env).reply.Ok?
    requires FreshTokens(Perform(cfg, s, ResetPassword(t, Some(hash)), env).store, env')
    ensures
      var s' := Perform(cfg, s, ResetPassword(t, Some(hash)), env).store;
      && t in s.resets
      && (Perform(cfg, s', ResetPassword(t, Some(hash')), env').reply.Ok? <==> env'.now <= s.resets[t].validUntil)
  {
    ResetLeaves(cfg, s, t, Some(hash), env);
    ResetReplies(cfg, Perform(cfg, s, ResetPassword(t, Some(hash)), env).store, t, Some(hash'), env');
  }

  /** The token is in the table as it was, unless its user is gone for good. */
  ghost predicate StaysOpen(w: World, t: Token, row: ExpiringToken) {
    && t in w.used
    && row.userId in w.used
    && (row.userId in w.store.users ==> t in w.store.resets && w.store.resets[t] == row)
  }

  lemma EventKeepsOpen(cfg: Config, w: World, e: Event, t: Token, row: ExpiringToken)
    requires Enabled(cfg, w, e) && StaysOpen(w, t, row)
    ensures StaysOpen(After(w, e), t, row)
  {
  }

  lemma {:induction false} EventsKeepOpen(cfg: Config, w: World, es: seq<Event>, t: Token, row: ExpiringToken)
    requires EnabledAll(cfg, w, es) && StaysOpen(w, t, row)
    ensures StaysOpen(AfterAll(w, es), t, row)
    decreases |es|
  {
    if es != [] {
      EventKeepsOpen(cfg, w, es[0], t, row);
      EventsKeepOpen(cfg, After(w, es[0]), es[1..], t, row);
    }
  }

  lemma {:induction false} RunKeepsOpen(cfg: Config, w: World, calls: seq<(Call, Env)>, t: Token, row: ExpiringToken)
    requires Inv(cfg, w) && AdmissibleRun(cfg, w, calls) && PicksMember(cfg) && StaysOpen(w, t, row)
    ensures StaysOpen(Run(cfg, w, calls), t, row)
    decreases |calls|
  {
    if calls != [] {
      var (call, env) := calls[0];
      StepIsEvents(cfg, w, call, env);
      EventsKeepOpen(cfg, w.(clock := env.now), Perform(cfg, w.store, call, env).events, t, row);
      StepKeepsInv(cfg, w, call, env);
      RunKeepsOpen(cfg, Step(cfg, w, call, env), calls[1..], t, row);
    }
  }

  lemma OpenTokenSets(cfg: Config, w: World, t: Token, row: ExpiringToken, hash: Option<string>, env: Env)
    requires StaysOpen(w, t, row) && row.userId in w.store.users
    requires Bounded(w) && EnvFits(w, env) && env.fate == Commits
    ensures t in w.store.resets && w.store.resets[t] == row
    ensures SetsPasswordOf(Perform(cfg, w.store, ResetPassword(t, hash), env).events, row.userId) <==>
      && env.now <= row.validUntil
      && w.store.users[row.userId].isActive
      && w.store.users[row.userId].password.Some?
      && hash.Some?
  {
    SetsPasswordExactly(cfg, w, ResetPassword(t, hash), env, row.userId);
  }

  /**
   After any run, however often it was used in it, a reset token whose user still exists sets the password
   if and only if it has not expired and the user is active with a password.
   */
  lemma ResetTokenStaysOpen(cfg: Config, w: World, calls: seq<(Call, Env)>, t: Token, hash: Option<string>, env: Env)
    requires Inv(cfg, w) && AdmissibleRun(cfg, w, calls) && PicksMember(cfg) && t in w.store.resets
    requires EnvFits(Run(cfg, w, calls), env) && env.fate == Commits
    requires w.store.resets[t].userId in Run(cfg, w, calls).store.users
    ensures
      var s, row := Run(cfg, w, calls).store, w.store.resets[t];
      && t in s.resets
      && s.resets[t] == row
      && (SetsPasswordOf(Perform(cfg, s, ResetPassword(t, hash), env).events, row.userId) <==>
        && env.now <= row.validUntil
        && s.users[row.userId].isActive
        && s.users[row.userId].password.Some?
        && hash.Some?)
  {
    RunKeepsInv(cfg, w, calls);
    RunKeepsOpen(cfg, w, calls, t, w.store.resets[t]);
    OpenTokenSets(cfg, Run(cfg, w, calls), t, w.store.resets[t], hash, env);
  }

  /******* Rate bounds *******/

  ghost predicate OfUserWithin(tokens: map<Token, ExpiringToken>, ts: set<Token>, user: Id, lo: Time, hi: Time) {
    forall t :: t in ts ==> t in tokens && tokens[t].userId == user && lo <= tokens[t].createdAt <= hi
  }

  lemma {:induction false} Youngest(tokens: map<Token, ExpiringToken>, ts: set<Token>) returns (m: Token)
    requires ts != {} && ts <= tokens.Keys
    ensures m in ts && forall t :: t in ts ==> tokens[t].createdAt <= tokens[m].createdAt
  {
    m :| m in ts;
    if ts != {m} {
      var n := Youngest(tokens, ts - {m});
      if tokens[m].createdAt < tokens[n].createdAt {
        m := n;
      }
    }
  }

  /** Spaced tokens of one user created in an interval: as many as fit into it. */
  lemma {:induction false} Packing(tokens: map<Token, ExpiringToken>, ts: set<Token>, user: Id, lo: Time, hi: Time,
                                   spacing: int)
    requires Spaced(tokens, spacing) && spacing > 0
    requires OfUserWithin(tokens, ts, user, lo, hi) && ts != {}
    ensures (|ts| - 1) * spacing <= hi - lo
    decreases |ts|
  {
    var m := Youngest(tokens, ts);
    var rest := ts - {m};
    assert |ts| == |rest| + 1;
    if rest != {} {
      Packing(tokens, rest, user, lo, tokens[m].createdAt - spacing, spacing);
      assert (|ts| - 1) * spacing == (|rest| - 1) * spacing + spacing;
    }
  }

  ghost function Unexpired(w: World, user: Id): set<Token> {
    set t | t in w.store.resets && w.store.resets[t].userId == user && w.clock < w.store.resets[t].validUntil
  }

  /** What ResetPassword still accepts: expiry is checked with After, so the last instant counts too. */
  ghost function Acceptable(w: World, user: Id): set<Token> {
    set t | t in w.store.resets && w.store.resets[t].userId == user && w.clock <= w.store.resets[t].validUntil
  }

  /** ceil(a / b) */
  function CeilDiv(a: int, b: int): int
    requires b > 0
  {
    (a + b - 1) / b
  }

  lemma DivBound(n: int, a: int, b: int)
    requires b > 0 && n * b <= a
    ensures n <= a / b
  {
    MulMonotone(a / b + 1, n, b);
    assert a < (a / b + 1) * b;
  }

  lemma MulMonotone(x: int, y: int, b: int)
    requires b > 0
    ensures x <= y ==> x * b <= y * b
  {
  }

  /** A set of spaced tokens of one user that all live for v, seen while the youngest window is open. */
  lemma PackingCount(tokens: map<Token, ExpiringToken>, ts: set<Token>, user: Id, lo: Time, hi: Time, spacing: int)
    requires Spaced(tokens, spacing) && spacing > 0 && lo <= hi + spacing
    requires OfUserWithin(tokens, ts, user, lo, hi)
    ensures |ts| <= (hi - lo + spacing) / spacing
  {
    if ts != {} {
      Packing(tokens, ts, user, lo, hi, spacing);
      assert |ts| * spacing == (|ts| - 1) * spacing + spacing;
    }
    DivBound(|ts|, hi - lo + spacing, spacing);
  }

  lemma LivingWindows(cfg: Config, w: World, user: Id)
    requires Timely(cfg, w)
    ensures OfUserWithin(w.store.resets, Unexpired(w, user), user, w.clock - cfg.resetValidity + 1, w.clock)
    ensures OfUserWithin(w.store.resets, Acceptable(w, user), user, w.clock - cfg.resetValidity, w.clock)
  {
  }

  lemma DivPlusOne(a: int, b: int)
    requires b > 0
    ensures (a + b) / b == a / b + 1
  {
    var p, q := (a + b) / b, a / b;
    assert p * b <= a + b && (p - 1) * b == p * b - b;
    DivBound(p - 1, a, b);
    assert q * b <= a && (q + 1) * b == q * b + b;
    DivBound(q + 1, a + b, b);
  }

  /** At most ceil(validity / S) reset tokens of a user are unexpired, and floor(validity / S) + 1 acceptable. */
  lemma ResetTokensBounded(cfg: Config, w: World, user: Id)
    requires Timely(cfg, w) && Spaced(w.store.resets, ResetSpacing(cfg)) && ResetSpacing(cfg) > 0
    ensures |Unexpired(w, user)| <= CeilDiv(cfg.resetValidity, ResetSpacing(cfg))
    ensures |Acceptable(w, user)| <= cfg.resetValidity / ResetSpacing(cfg) + 1
  {
    var s, v := ResetSpacing(cfg), cfg.resetValidity;
    LivingWindows(cfg, w, user);
    PackingCount(w.store.resets, Unexpired(w, user), user, w.clock - v + 1, w.clock, s);
    PackingCount(w.store.resets, Acceptable(w, user), user, w.clock - v, w.clock, s);
    DivPlusOne(v, s);
  }

  /** Any two reset tokens ever sent to one user are S apart, wherever the tokens are now. */
  lemma ResetsSentApartInRuns(cfg: Config, w: World, i: nat, j: nat)
    requires Inv(cfg, w) && i < j < |w.log|
    requires w.log[i].ResetSent? && w.log[j].ResetSent? && w.log[i].user == w.log[j].user
    ensures w.log[i].at + Min(Max(cfg.resetDebounce, cfg.resetReuse), cfg.resetValidity) <= w.log[j].at
  {
  }

  /** So are any two confirmation tokens, by the debounce time, or by the validity if that is shorter. */
  lemma ConfirmationsSentApartInRuns(cfg: Config, w: World, i: nat, j: nat)
    requires Inv(cfg, w) && i < j < |w.log|
    requires w.log[i].ConfirmationSent? && w.log[j].ConfirmationSent? && w.log[i].user == w.log[j].user
    ensures w.log[i].at + Min(cfg.confirmationDebounce, cfg.confirmationValidity) <= w.log[j].at
  {
  }
}
