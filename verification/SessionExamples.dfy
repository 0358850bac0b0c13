/** Two runs that show the exceptions in the theorems on sessions to be reachable. */
module SessionExamples {
  import opened Wrappers
  import opened Accounts
  import opened History
  import opened Sessions
  import SessionTheorems
  import Gate
  import Usernames

  /** Hashing that keeps the password as it is. */
  function Plain(password: string, hash: string): Verdict {
    if password == hash then Match else Mismatch
  }

  ghost function Choose(rows: set<string>): string {
    if rows == {} then "" else var row :| row in rows; row
  }

  ghost function Cfg(): Config {
    Config(1000, 1000, 0, 0, 1000, 0, false, [], Plain, Choose)
  }

  const ROW := User(Some("u"), Some("p"), true, [], None, 0, false)

  /** One active user, who has no tokens yet. */
  ghost function Start(): World {
    var s := Store(map["u" := ROW], map["u" := Profile(None)], map[], map[], map[], map[]);
    World(s, [], 0, {"u"}, Snapshots(s))
  }

  function At(now: Time, access: Token, refresh: Token): Env {
    Env(now, Commits, "new user", access, refresh, "reset", "confirmation")
  }

  lemma StartIsInit()
    ensures Init(Start()) && PicksMember(Cfg())
    ensures Snapshots(Start().store) == {ToDto("u", ROW)}
  {
    Usernames.FormatNormalises("u");
    assert Usernames.NormalForm("u");
    assert ToDto("u", Start().store.users["u"]) in Snapshots(Start().store);
  }

  /** A world from which one call leads to the next. */
  lemma TwoSteps(cfg: Config, w: World, call: Call, env: Env, call': Call, env': Env)
    requires Admissible(w, call, env) && Admissible(Step(cfg, w, call, env), call', env')
    ensures
      var calls := [(call, env), (call', env')];
      && AdmissibleRun(cfg, w, calls)
      && Run(cfg, w, calls) == Step(cfg, Step(cfg, w, call, env), call', env')
  {
    var calls := [(call, env), (call', env')];
    var rest := calls[1..];
    assert rest == [(call', env')] && rest[1..] == [];
    var mid := Step(cfg, w, call, env);
    var end := Step(cfg, mid, call', env');
    assert Run(cfg, end, rest[1..]) == end && AdmissibleRun(cfg, end, rest[1..]);
    assert AdmissibleRun(cfg, mid, rest) && Run(cfg, mid, rest) == end;
  }

  /** The call is admissible and leads to this world. */
  ghost predicate Leads(w: World, call: Call, env: Env, w': World) {
    Admissible(w, call, env) && w' == Step(Cfg(), w, call, env)
  }

  lemma OneEventStep(cfg: Config, w: World, call: Call, env: Env, e: Event)
    requires Perform(cfg, w.store, call, env).events == [e]
    ensures Step(cfg, w, call, env) ==
      After(w.(clock := env.now), e).(store := Perform(cfg, w.store, call, env).store)
  {
    var es := Perform(cfg, w.store, call, env).events;
    var v := w.(clock := env.now);
    assert es[1..] == [];
    assert AfterAll(v, es) == AfterAll(After(v, e), es[1..]);
  }

  lemma DeactivationStep() returns (w: World)
    ensures w == Step(Cfg(), Start(), Deactivate("u"), At(0, "a0", "r0"))
    ensures w.store == Start().store.(users := map["u" := ROW.(isActive := false)])
    ensures w.clock == 0 && w.used == {"u"} && ToDto("u", ROW) in w.seen
  {
    StartIsInit();
    OneEventStep(Cfg(), Start(), Deactivate("u"), At(0, "a0", "r0"), Deactivated("u"));
    w := Step(Cfg(), Start(), Deactivate("u"), At(0, "a0", "r0"));
  }

  /** The password change of the second call, on the tables after the deactivation. */
  lemma StaleUpdateEffect(s: Store)
    requires s == Start().store.(users := map["u" := ROW.(isActive := false)])
    ensures
      var r := Perform(Cfg(), s, UpdatePassword(ToDto("u", ROW), "p", false, Some("q")), At(1, "a", "r"));
      && r.store.access == map["a" := ExpiringToken("u", 1001, 1)]
      && "u" in r.store.users
      && !r.store.users["u"].isActive
      && !r.store.users["u"].requiresConfirmation
  {
  }

  /**
   A password change that carries the user as read before a deactivation, though admissible, gives the
   deactivated user tokens.
   */
  lemma StaleUpdateIssues() returns (calls: seq<(Call, Env)>)
    ensures Init(Start()) && PicksMember(Cfg()) && AdmissibleRun(Cfg(), Start(), calls)
    ensures |calls| == 2 && calls[1].0.UpdatePassword?
    ensures SessionTheorems.Retired(Step(Cfg(), Start(), calls[0].0, calls[0].1), "u")
    ensures SessionTheorems.Retired(Run(Cfg(), Start(), calls), "u")
    ensures Run(Cfg(), Start(), calls).store.access == map["a" := ExpiringToken("u", 1001, 1)]
  {
    StartIsInit();
    var off, change := Deactivate("u"), UpdatePassword(ToDto("u", ROW), "p", false, Some("q"));
    var env, env' := At(0, "a0", "r0"), At(1, "a", "r");
    calls := [(off, env), (change, env')];
    var mid := DeactivationStep();
    StaleUpdateEffect(mid.store);
    SessionTheorems.OnlyGrows(mid.(clock := env'.now), Perform(Cfg(), mid.store, change, env').events);
    TwoSteps(Cfg(), Start(), off, env, change, env');
  }

  const LOGGED_IN := Issued("u", "a", "r", ByLogin, 0, 1000)
  const REFRESHED := Issued("u", "a'", "r'", ByRotation("r"), 100, 1100)

  lemma LoginEffect()
    ensures Perform(Cfg(), Start().store, Login("u", "p"), At(0, "a", "r")) ==
      Effect(Apply(Start().store, LOGGED_IN), Ok(LoginResult("a", "r", "bearer", 0)), [LOGGED_IN])
  {
    StartIsInit();
    Usernames.FormatNormalises("u");
    assert Usernames.NormalForm("u");
    SessionTheorems.FindsExactly(Cfg(), Start().store.users, "u", "u");
    AuthenticateIsIssued(Cfg(), Start().store, At(0, "a", "r"), ToDto("u", ROW), ByLogin);
  }

  lemma RefreshEffect(s: Store)
    requires s == Apply(Start().store, LOGGED_IN)
    ensures Perform(Cfg(), s, Refresh("r"), At(100, "a'", "r'")) ==
      Effect(Apply(s, REFRESHED), Ok(LoginResult("a'", "r'", "bearer", 0)), [REFRESHED])
  {
    AuthenticateIsIssued(Cfg(), s, At(100, "a'", "r'"), ToDto("u", s.users["u"]), ByRotation("r"));
  }

  lemma LoginStep() returns (w: World)
    ensures Leads(Start(), Login("u", "p"), At(0, "a", "r"), w)
    ensures w.store == Apply(Start().store, LOGGED_IN)
    ensures w.log == [LOGGED_IN] && w.clock == 0 && w.used == {"u", "a", "r"}
  {
    LoginEffect();
    OneEventStep(Cfg(), Start(), Login("u", "p"), At(0, "a", "r"), LOGGED_IN);
    w := Step(Cfg(), Start(), Login("u", "p"), At(0, "a", "r"));
  }

  lemma RefreshStep(mid: World) returns (w: World)
    requires mid.store == Apply(Start().store, LOGGED_IN) && mid.log == [LOGGED_IN]
    requires mid.clock == 0 && mid.used == {"u", "a", "r"}
    ensures Leads(mid, Refresh("r"), At(100, "a'", "r'"), w)
    ensures w.store == Apply(mid.store, REFRESHED)
    ensures w.log == [LOGGED_IN, REFRESHED] && w.clock == 100
  {
    RefreshEffect(mid.store);
    OneEventStep(Cfg(), mid, Refresh("r"), At(100, "a'", "r'"), REFRESHED);
    w := Step(Cfg(), mid, Refresh("r"), At(100, "a'", "r'"));
  }

  ghost predicate Reachable(w: World) {
    exists calls :: AdmissibleRun(Cfg(), Start(), calls) && Run(Cfg(), Start(), calls) == w
  }

  lemma ReachableInTwo(call: Call, env: Env, mid: World, call': Call, env': Env, w: World)
    requires Leads(Start(), call, env, mid) && Leads(mid, call', env', w)
    ensures Reachable(w)
  {
    TwoSteps(Cfg(), Start(), call, env, call', env');
  }

  /** One user logs in at 0 and refreshes at 100. */
  lemma LoginAndRefresh() returns (w: World)
    ensures Reachable(w)
    ensures w.clock == 100 && w.log == [LOGGED_IN, REFRESHED]
    ensures w.store == Apply(Apply(Start().store, LOGGED_IN), REFRESHED)
  {
    var mid := LoginStep();
    w := RefreshStep(mid);
    ReachableInTwo(Login("u", "p"), At(0, "a", "r"), mid, Refresh("r"), At(100, "a'", "r'"), w);
  }

  lemma RefreshedRow(s: Store)
    requires s == Apply(Apply(Start().store, LOGGED_IN), REFRESHED)
    ensures "u" in s.users && s.users["u"] == ROW.(lastAuthenticatedAt := Some(100), updatedAt := 100)
    ensures "a'" in s.access && s.access["a'"] == ExpiringToken("u", 1100, 100)
  {
  }

  function TenServer(): Gate.Server {
    Gate.Server(10, (t: string) => true)
  }

  const SECURE := Gate.AuthConfig(Gate.Secure, Gate.FailUnauthorized, Gate.Header, "", "", None, None, [])

  /**
   Secure mode with a threshold of 10 admits the refreshed token, though only a rotation lies within the
   threshold.
   */
  lemma OnlyRotationsInWindow() returns (w: World, r: Gate.Request, credentials: Gate.Credentials)
    ensures Init(Start()) && PicksMember(Cfg()) && Reachable(w)
    ensures TenServer().lastAuthenticatedAtThreshold == 10
    ensures Gate.Admits(TenServer(), SECURE, Gate.Secure, r, w.store, w.clock, credentials)
    ensures !Gate.CredentialWithin(w.log, credentials.user.id, w.clock, 10)
  {
    StartIsInit();
    w := LoginAndRefresh();
    RefreshedRow(w.store);
    credentials := Gate.Credentials(ToDto("u", w.store.users["u"]), "a'");
    r := Gate.Request(map["Authorization" := "Bearer a'"], map[], map[]);
    assert Gate.RawToken(Gate.Header, r, "Authorization") == "Bearer" + [' '] + "a'";
    Gate.ExtractExactly(Gate.Header, r, "Authorization", "Bearer", "a'");
  }
}
