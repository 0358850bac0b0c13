/**
 The authentication service as an object over mutable tables: each method runs the statements of
 its operation in order, inside a transaction where the source has one, and is proved to leave
 exactly the tables, the reply and the events that module Accounts specifies.
 */
module AuthService {
  import opened Wrappers
  import opened Accounts
  import Sessions

  class Service {
    const cfg: Config
    var users: map<Id, User>
    var profiles: map<Id, Profile>
    var access: map<Token, ExpiringToken>
    var refresh: map<Token, RefreshToken>
    var resets: map<Token, ExpiringToken>
    var confirmations: map<Token, ExpiringToken>
    ghost var log: seq<Event>

    constructor (cfg: Config, s: Store)
      ensures this.cfg == cfg && Tables() == s && log == []
    {
      this.cfg := cfg;
      users, profiles := s.users, s.profiles;
      access, refresh, resets, confirmations := s.access, s.refresh, s.resets, s.confirmations;
      log := [];
    }

    function Tables(): Store
      reads this
    {
      Store(users, profiles, access, refresh, resets, confirmations)
    }

    /** The object went from tables s0 and log l0 by this effect. */
    ghost predicate Performed(s0: Store, l0: seq<Event>, effect: Effect, reply: Result<Reply, Error>)
      reads this
    {
      Tables() == effect.store && reply == effect.reply && log == l0 + effect.events
    }

    method Rollback(saved: Store)
      modifies this
      ensures Tables() == saved && log == old(log)
    {
      users, profiles := saved.users, saved.profiles;
      access, refresh, resets, confirmations := saved.access, saved.refresh, saved.resets, saved.confirmations;
    }

    /** The deferred end of WithTransaction: roll back after an error or a failed commit. */
    method Finish(saved: Store, fate: Fate, ok: bool, ghost events: seq<Event>)
      modifies this
      ensures Tables() == if ok && fate.Commits? then old(Tables()) else saved
      ensures log == old(log) + if ok && fate.Commits? then events else []
    {
      if ok && fate.Commits? {
        log := log + events;
      } else {
        Rollback(saved);
      }
    }

    method AuthenticateUser(env: Env, user: UserDto, invalidateExisting: bool) returns (r: Result<Reply, Error>)
      modifies this
      ensures log == old(log)
      ensures var spec := Accounts.AuthenticateUser(cfg, old(Tables()), env, user, invalidateExisting);
        match spec
        case Ok((s, reply)) => r == Ok(reply) && Tables() == s
        case Err(e) => r == Err(e)
    {
      if invalidateExisting {
        access := NotOwnedBy(access, user.id);
        refresh := RefreshNotOwnedBy(refresh, user.id);
      }
      if user.id !in users {
        return Err(ForeignKeyViolation);
      }
      if env.access in access {
        return Err(UniqueViolation);
      }
      access := access[env.access := ExpiringToken(user.id, env.now + cfg.accessTokenValidity, env.now)];
      if env.refresh in refresh {
        return Err(UniqueViolation);
      }
      refresh := refresh[env.refresh := RefreshToken(user.id, env.now)];
      var values := ToModel(user).(lastAuthenticatedAt := Some(env.now));
      users := UpdateUser(users, user.id, values, {LastAuthenticatedAtColumn, UpdatedAtColumn}, env.now);
      return Ok(LoginResult(env.access, env.refresh, "bearer", WholeSeconds(cfg.accessTokenValidity)));
    }

    method UpdatePassword(env: Env, user: UserDto, current: string, skip: bool, newHash: Option<string>)
      returns (reply: Result<Reply, Error>)
      modifies this
      ensures Performed(old(Tables()), old(log),
                        PerformUpdatePassword(cfg, old(Tables()), env, user, current, skip, newHash), reply)
    {
      if !user.isActive {
        return Err(UserDeactivated);
      }
      if user.passwordHash.None? {
        return Err(NotLocalUser);
      }
      if !skip {
        var verdict := cfg.verify(current, user.passwordHash.value);
        if verdict.Unreadable? {
          return Err(UnreadableHash);
        }
        if !verdict.Match? {
          return Err(Unauthorized);
        }
      }
      if newHash.None? {
        return Err(InvalidPassword);
      }
      if env.fate.BeginFails? {
        return Err(TransactionNotStarted);
      }
      var saved := Tables();
      var changed := user.(passwordHash := newHash);
      users := UpdateUser(users, user.id, ToModel(changed), {PasswordColumn, UpdatedAtColumn}, env.now);
      reply := AuthenticateUser(env, changed, true);
      Finish(saved, env.fate, reply.Ok?,
             [PasswordSet(user.id, newHash.value, env.now), Issue(cfg, env, user.id, ByPasswordUpdate)]);
    }

    method ResetPassword(env: Env, token: Token, newHash: Option<string>) returns (reply: Result<Reply, Error>)
      modifies this
      ensures Performed(old(Tables()), old(log), PerformResetPassword(cfg, old(Tables()), env, token, newHash), reply)
    {
      if token !in resets {
        return Err(TokenNotFound);
      }
      var row := resets[token];
      if env.now > row.validUntil {
        return Err(TokenExpired);
      }
      if row.userId !in users {
        return Err(NilDereference);
      }
      reply := UpdatePassword(env, ToDto(row.userId, users[row.userId]), "", true, newHash);
    }

    method InitPasswordReset(env: Env, username: string) returns (reply: Result<Reply, Error>)
      modifies this
      ensures Performed(old(Tables()), old(log), PerformInitPasswordReset(cfg, old(Tables()), env, username), reply)
    {
      var found := FindByUsername(cfg, users, username);
      if found.None? || found.value !in users {
        return Ok(ResetResult(None));
      }
      var id := found.value;
      if !users[id].isActive {
        return Ok(ResetResult(None));
      }
      if users[id].password.None? {
        return Ok(ResetResult(None));
      }
      if cfg.resetDebounce > 0 {
        if RecentTokens(resets, id, env.now, cfg.resetDebounce) != {} {
          return Ok(ResetResult(None));
        }
      }
      if env.fate.BeginFails? {
        return Err(TransactionNotStarted);
      }
      var saved := Tables();
      ghost var sent := [];
      var reusable := RecentTokens(resets, id, env.now, cfg.resetReuse);
      if reusable != {} {
        reply := Ok(ResetResult(Some(cfg.pick(reusable))));
      } else if env.reset in resets {
        reply := Err(UniqueViolation);
      } else {
        resets := resets[env.reset := ExpiringToken(id, env.now + cfg.resetValidity, env.now)];
        sent := [ResetSent(id, env.reset, env.now, env.now + cfg.resetValidity)];
        reply := Ok(ResetResult(Some(env.reset)));
      }
      Finish(saved, env.fate, reply.Ok?, sent);
    }

    method Logout(env: Env, accessToken: Token, refreshToken: Option<Token>) returns (reply: Result<Reply, Error>)
      modifies this
      ensures Performed(old(Tables()), old(log), PerformLogout(old(Tables()), env, accessToken, refreshToken), reply)
    {
      if env.fate.BeginFails? {
        return Err(TransactionNotStarted);
      }
      var saved := Tables();
      access := access - {accessToken};
      if refreshToken.Some? {
        refresh := refresh - {refreshToken.value};
      }
      Finish(saved, env.fate, true, [LoggedOut(accessToken, refreshToken)]);
      return Ok(Done);
    }

    method Login(env: Env, username: string, password: string) returns (reply: Result<Reply, Error>)
      modifies this
      ensures Performed(old(Tables()), old(log), PerformLogin(cfg, old(Tables()), env, username, password), reply)
    {
      var found := FindByUsername(cfg, users, username);
      if found.None? || found.value !in users {
        return Err(Unauthorized);
      }
      var user := users[found.value];
      if !user.isActive {
        return Err(UserDeactivated);
      }
      if user.password.None? {
        return Err(Unauthorized);
      }
      if !cfg.verify(password, user.password.value).Match? {
        return Err(Unauthorized);
      }
      if env.fate.BeginFails? {
        return Err(TransactionNotStarted);
      }
      var saved := Tables();
      reply := AuthenticateUser(env, ToDto(found.value, user), false);
      Finish(saved, env.fate, reply.Ok?, [Issue(cfg, env, found.value, ByLogin)]);
    }

    method Refresh(env: Env, token: Token) returns (reply: Result<Reply, Error>)
      modifies this
      ensures Performed(old(Tables()), old(log), PerformRefresh(cfg, old(Tables()), env, token), reply)
    {
      if token !in refresh {
        return Err(Unauthorized);
      }
      var id := refresh[token].userId;
      if id !in users {
        return Err(NilDereference);
      }
      if !users[id].isActive {
        return Err(UserDeactivated);
      }
      if env.fate.BeginFails? {
        return Err(TransactionNotStarted);
      }
      var saved := Tables();
      refresh := refresh - {token};
      reply := AuthenticateUser(env, ToDto(id, users[id]), false);
      Finish(saved, env.fate, reply.Ok?, [Issue(cfg, env, id, ByRotation(token))]);
    }

    method Register(env: Env, username: string, newHash: Option<string>) returns (reply: Result<Reply, Error>)
      modifies this
      ensures Performed(old(Tables()), old(log), PerformRegister(cfg, old(Tables()), env, username, newHash), reply)
    {
      var found := FindByUsername(cfg, users, username);
      if found.Some? && found.value in users {
        if !users[found.value].requiresConfirmation {
          return Err(UserAlreadyExists);
        }
        reply := RepeatedRegister(env, found.value);
        return;
      }
      if newHash.None? {
        return Err(InvalidPassword);
      }
      if env.fate.BeginFails? {
        return Err(TransactionNotStarted);
      }
      var saved := Tables();
      reply := InsertUser(env, username, newHash.value);
      Finish(saved, env.fate, reply.Ok?, RegistrationEvents(env, username, newHash.value));
    }

    ghost function RegistrationEvents(env: Env, username: string, hash: string): seq<Event> {
      [Registered(env.userId, NewUser(cfg, env.now, username, hash))] +
      if cfg.registrationRequiresConfirmation then
        [ConfirmationSent(env.userId, env.confirmation, env.now, env.now + cfg.confirmationValidity)]
      else []
    }

    method RepeatedRegister(env: Env, id: Id) returns (reply: Result<Reply, Error>)
      modifies this
      ensures Performed(old(Tables()), old(log), PerformRepeatedRegister(cfg, old(Tables()), env, id), reply)
    {
      if RecentTokens(confirmations, id, env.now, cfg.confirmationDebounce) != {} {
        return Ok(RegisterResult(true, None));
      }
      if env.confirmation in confirmations {
        return Err(UniqueViolation);
      }
      var row := ExpiringToken(id, env.now + cfg.confirmationValidity, env.now);
      confirmations := confirmations[env.confirmation := row];
      log := log + [ConfirmationSent(id, env.confirmation, env.now, env.now + cfg.confirmationValidity)];
      return Ok(RegisterResult(true, Some(env.confirmation)));
    }

    /** The handler of the registration transaction. */
    method InsertUser(env: Env, username: string, hash: string) returns (reply: Result<Reply, Error>)
      modifies this
      ensures log == old(log)
      ensures var committed := PerformRegister(cfg, old(Tables()), env.(fate := Commits), username, Some(hash));
        var found := FindByUsername(cfg, old(users), username);
        found.None? || found.value !in old(users) ==>
          reply == committed.reply && (reply.Ok? ==> Tables() == committed.store)
    {
      if env.userId in users {
        return Err(UniqueViolation);
      }
      users := users[env.userId := NewUser(cfg, env.now, username, hash)];
      if env.userId in profiles {
        return Err(UniqueViolation);
      }
      profiles := profiles[env.userId := Profile(None)];
      if !cfg.registrationRequiresConfirmation {
        return Ok(RegisterResult(false, None));
      }
      if env.confirmation in confirmations {
        return Err(UniqueViolation);
      }
      var row := ExpiringToken(env.userId, env.now + cfg.confirmationValidity, env.now);
      confirmations := confirmations[env.confirmation := row];
      return Ok(RegisterResult(true, Some(env.confirmation)));
    }

    method DeleteUserAccount(env: Env, user: UserDto, password: string) returns (reply: Result<Reply, Error>)
      modifies this
      ensures Performed(old(Tables()), old(log),
                        PerformDeleteUserAccount(cfg, old(Tables()), env, user, password), reply)
    {
      if !user.isActive {
        return Err(UserDeactivated);
      }
      if user.passwordHash.None? {
        return Err(NotLocalUser);
      }
      if !cfg.verify(password, user.passwordHash.value).Match? {
        return Err(Unauthorized);
      }
      if env.fate.BeginFails? {
        return Err(TransactionNotStarted);
      }
      var saved := Tables();
      var left := DeleteUser(saved, user.id);
      users, profiles := left.users, left.profiles;
      access, refresh, resets, confirmations := left.access, left.refresh, left.resets, left.confirmations;
      Finish(saved, env.fate, true, [Deleted(user.id)]);
      return Ok(Done);
    }

    method CompleteRegister(env: Env, token: Token) returns (reply: Result<Reply, Error>)
      modifies this
      ensures Performed(old(Tables()), old(log), PerformCompleteRegister(cfg, old(Tables()), env, token), reply)
    {
      if env.fate.BeginFails? {
        return Err(TransactionNotStarted);
      }
      var saved := Tables();
      ghost var happened := [];
      if token !in confirmations || confirmations[token].validUntil <= env.now {
        reply := Err(TokenNotFound);
      } else if confirmations[token].userId !in users {
        reply := Err(NilDereference);
      } else {
        var id := confirmations[token].userId;
        if users[id].isActive || !users[id].requiresConfirmation {
          reply := Ok(NO_LOGIN);
        } else {
          var user := users[id].(isActive := true, requiresConfirmation := false);
          users := UpdateUser(users, id, user, {IsActiveColumn, RequiresConfirmationColumn, UpdatedAtColumn}, env.now);
          confirmations := confirmations - {token};
          reply := AuthenticateUser(env, ToDto(id, user), false);
          happened := [Confirmed(id, token, env.now), Issue(cfg, env, id, ByCompletion)];
        }
      }
      Finish(saved, env.fate, reply.Ok?, happened);
    }

    /** Any operation, chosen by the call. */
    method Serve(env: Env, call: Call) returns (reply: Result<Reply, Error>)
      modifies this
      ensures Performed(old(Tables()), old(log), Perform(cfg, old(Tables()), call, env), reply)
    {
      match call
      case Login(username, password) => reply := Login(env, username, password);
      case Refresh(token) => reply := Refresh(env, token);
      case Logout(accessToken, refreshToken) => reply := Logout(env, accessToken, refreshToken);
      case Register(username, hash) => reply := Register(env, username, hash);
      case CompleteRegister(token) => reply := CompleteRegister(env, token);
      case InitPasswordReset(username) => reply := InitPasswordReset(env, username);
      case ResetPassword(token, hash) => reply := ResetPassword(env, token, hash);
      case UpdatePassword(user, current, skip, hash) => reply := UpdatePassword(env, user, current, skip, hash);
      case DeleteUserAccount(user, password) => reply := DeleteUserAccount(env, user, password);
      case Deactivate(id) =>
        if id in users {
          users := users[id := users[id].(isActive := false)];
          log := log + [Deactivated(id)];
        }
        reply := Ok(Done);
    }

    /**
     Serving calls one after the other is a run: tables and log end where the run ends, and each reply is the
     run's.
     */
    method ServeAll(calls: seq<(Call, Env)>, ghost w: Sessions.World) returns (replies: seq<Result<Reply, Error>>)
      requires Tables() == w.store && log == w.log
      modifies this
      ensures Tables() == Sessions.Run(cfg, w, calls).store && log == Sessions.Run(cfg, w, calls).log
      ensures |replies| == |calls|
      ensures forall i :: 0 <= i < |calls| ==> replies[i] == ReplyInRun(cfg, w, calls, i)
    {
      replies := [];
      for i := 0 to |calls|
        invariant Tables() == Sessions.Run(cfg, w, calls[..i]).store && log == Sessions.Run(cfg, w, calls[..i]).log
        invariant |replies| == i && forall k :: 0 <= k < i ==> replies[k] == ReplyInRun(cfg, w, calls, k)
      {
        var (call, env) := calls[i];
        ghost var s, l := Tables(), log;
        var reply := Serve(env, call);
        RunServes(cfg, w, calls, i, s, l, Tables(), log, reply);
        replies := replies + [reply];
      }
      assert calls[..|calls|] == calls;
    }
  }

  /** What the i-th call replies in the world that the calls before it lead to. */
  ghost function ReplyInRun(cfg: Config, w: Sessions.World, calls: seq<(Call, Env)>, i: nat): Result<Reply, Error>
    requires i < |calls|
  {
    Perform(cfg, Sessions.Run(cfg, w, calls[..i]).store, calls[i].0, calls[i].1).reply
  }

  /** What a call makes of the tables and the log of a run is what the run makes of them. */
  lemma RunServes(cfg: Config, w: Sessions.World, calls: seq<(Call, Env)>, i: nat, s: Store, l: seq<Event>, s': Store,
                  l': seq<Event>, reply: Result<Reply, Error>)
    requires i < |calls|
    requires s == Sessions.Run(cfg, w, calls[..i]).store && l == Sessions.Run(cfg, w, calls[..i]).log
    requires
      var effect := Perform(cfg, s, calls[i].0, calls[i].1);
      s' == effect.store && l' == l + effect.events && reply == effect.reply
    ensures s' == Sessions.Run(cfg, w, calls[..i + 1]).store && l' == Sessions.Run(cfg, w, calls[..i + 1]).log
    ensures reply == ReplyInRun(cfg, w, calls, i)
  {
    RunNext(cfg, w, calls, i);
    StepPerforms(cfg, Sessions.Run(cfg, w, calls[..i]), calls[i].0, calls[i].1);
  }

  lemma RunNext(cfg: Config, w: Sessions.World, calls: seq<(Call, Env)>, i: nat)
    requires i < |calls|
    ensures Sessions.Run(cfg, w, calls[..i + 1]) ==
            Sessions.Step(cfg, Sessions.Run(cfg, w, calls[..i]), calls[i].0, calls[i].1)
  {
    assert calls[..i + 1] == calls[..i] + [(calls[i].0, calls[i].1)];
    Sessions.RunSnoc(cfg, w, calls[..i], calls[i].0, calls[i].1);
  }

  lemma StepPerforms(cfg: Config, w: Sessions.World, call: Call, env: Env)
    ensures
      var effect := Perform(cfg, w.store, call, env);
      Sessions.Step(cfg, w, call, env).store == effect.store &&
      Sessions.Step(cfg, w, call, env).log == w.log + effect.events
  {
    Sessions.StepExtendsLog(cfg, w, call, env);
  }
}
