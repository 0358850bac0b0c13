/**
 Runs of the authentication service. A world is the tables together with their history; a run is
 any finite sequence of admissible calls. One invariant ties the tables to the event log, every
 event keeps it, and every operation is a sequence of enabled events.
 */
module Sessions {
  import opened Wrappers
  import opened Accounts
  import opened History
  import Usernames

  /** used: every id and token ever generated. seen: every user snapshot anyone can have read. */
  datatype World = World(store: Store, log: seq<Event>, clock: Time, used: set<string>, seen: set<UserDto>)

  ghost function Snapshots(s: Store): set<UserDto> {
    set id | id in s.users :: ToDto(id, s.users[id])
  }

  ghost function Names(e: Event): set<string> {
    match e
    case Registered(user, _) => {user}
    case ConfirmationSent(_, token, _, _) => {token}
    case ResetSent(_, token, _, _) => {token}
    case Issued(_, access, refresh, _, _, _) => {access, refresh}
    case _ => {}
  }

  ghost function After(w: World, e: Event): World {
    var s := Apply(w.store, e);
    World(s, w.log + [e], w.clock, w.used + Names(e), w.seen + Snapshots(s))
  }

  ghost function AfterAll(w: World, es: seq<Event>): World
    decreases |es|
  {
    if es == [] then w else AfterAll(After(w, es[0]), es[1..])
  }

  /** The tables come from the operation itself; the history is what its events say. */
  ghost function Step(cfg: Config, w: World, call: Call, env: Env): World {
    var effect := Perform(cfg, w.store, call, env);
    AfterAll(w.(clock := env.now), effect.events).(store := effect.store)
  }

  ghost predicate EnvFits(w: World, env: Env) {
    && w.clock <= env.now
    && env.userId !in w.used && env.access !in w.used && env.refresh !in w.used
    && env.reset !in w.used && env.confirmation !in w.used
    && env.access != env.refresh && env.userId != env.confirmation
  }

  function SnapshotOf(call: Call): Option<UserDto> {
    if call.UpdatePassword? then Some(call.user)
    else if call.DeleteUserAccount? then Some(call.deletedUser)
    else None
  }

  /** Time does not run back, generated values are new, and a request's user was read from the table once. */
  ghost predicate Admissible(w: World, call: Call, env: Env) {
    EnvFits(w, env) && (SnapshotOf(call).Some? ==> SnapshotOf(call).value in w.seen)
  }

  ghost predicate AdmissibleRun(cfg: Config, w: World, calls: seq<(Call, Env)>)
    decreases |calls|
  {
    calls == [] || (Admissible(w, calls[0].0, calls[0].1) &&
                    AdmissibleRun(cfg, Step(cfg, w, calls[0].0, calls[0].1), calls[1..]))
  }

  ghost function Run(cfg: Config, w: World, calls: seq<(Call, Env)>): World
    decreases |calls|
  {
    if calls == [] then w else Run(cfg, Step(cfg, w, calls[0].0, calls[0].1), calls[1..])
  }

  /** Any users with their profiles, and no tokens yet. */
  ghost predicate Init(w: World) {
    && WellFormed(w.store)
    && w.store.access == map[] && w.store.refresh == map[]
    && w.store.resets == map[] && w.store.confirmations == map[]
    && w.log == []
    && w.store.users.Keys <= w.used
    && w.seen == Snapshots(w.store)
  }

  /******* The invariant *******/

  ghost predicate Bounded(w: World) {
    && w.store.users.Keys <= w.used
    && w.store.access.Keys <= w.used && w.store.refresh.Keys <= w.used
    && w.store.resets.Keys <= w.used && w.store.confirmations.Keys <= w.used
    && (forall dto :: dto in w.seen ==> dto.id in w.used)
    && (forall i :: 0 <= i < |w.log| ==> Names(w.log[i]) <= w.used)
  }

  ghost predicate AccessAgrees(w: World, t: Token) {
    if t in w.store.access then
      LiveAccess(w.log, t) ==
        Some(Grant(w.store.access[t].userId, w.store.access[t].createdAt, w.store.access[t].validUntil))
    else LiveAccess(w.log, t) == None
  }

  ghost predicate RefreshAgrees(w: World, t: Token) {
    if t in w.store.refresh then
      && LiveRefresh(w.log, t).Some?
      && LiveRefresh(w.log, t).value.user == w.store.refresh[t].userId
      && LiveRefresh(w.log, t).value.at == w.store.refresh[t].createdAt
    else LiveRefresh(w.log, t) == None
  }

  /** The token tables hold exactly what the log leaves alive. */
  ghost predicate GrantsAgree(w: World) {
    && (forall t :: AccessAgrees(w, t))
    && (forall t :: RefreshAgrees(w, t))
  }

  ghost predicate Rooted(w: World, t: Token) {
    && t in w.store.refresh && Root(w.log, t).Some? && Root(w.log, t).value < |w.log|
    && w.log[Root(w.log, t).value].Issued?
    && w.log[Root(w.log, t).value].user == w.store.refresh[t].userId
  }

  /** Live refresh tokens have a root, issued to the same user, and no two of them the same one. */
  ghost predicate RootsApart(w: World) {
    && TokensUnique(w.log)
    && (forall t :: t in w.store.refresh ==> Rooted(w, t))
    && (forall t, u :: t in w.store.refresh && u in w.store.refresh && Root(w.log, t) == Root(w.log, u) ==> t == u)
  }

  ghost predicate Unconfirmed(w: World, id: Id) {
    id in w.store.users && w.store.users[id].requiresConfirmation
  }

  /** Nobody unconfirmed owns an access or a refresh token, or was ever seen active. */
  ghost predicate UnconfirmedHaveNothing(w: World) {
    && (forall t :: t in w.store.access ==> !Unconfirmed(w, w.store.access[t].userId))
    && (forall t :: t in w.store.refresh ==> !Unconfirmed(w, w.store.refresh[t].userId))
    && (forall dto :: dto in w.seen && dto.isActive ==> !Unconfirmed(w, dto.id))
  }

  /** Users are confirmed at most once, for good. */
  ghost predicate ConfirmedOnce(w: World) {
    && (forall i :: 0 <= i < |w.log| && w.log[i].Confirmed? ==>
          w.log[i].user in w.used && !Unconfirmed(w, w.log[i].user))
    && (forall i, j :: 0 <= i < j < |w.log| && w.log[i].Confirmed? && w.log[j].Confirmed? ==>
          w.log[i].user != w.log[j].user)
  }

  ghost predicate CompletionsConfirmed(log: seq<Event>) {
    forall i :: 0 <= i < |log| && log[i].Issued? && log[i].cause.ByCompletion? ==>
      i > 0 && log[i - 1].Confirmed? && log[i - 1].user == log[i].user
  }

  function EventTime(e: Event): Option<Time> {
    match e
    case ConfirmationSent(_, _, at, _) => Some(at)
    case Confirmed(_, _, at) => Some(at)
    case ResetSent(_, _, at, _) => Some(at)
    case PasswordSet(_, _, at) => Some(at)
    case Issued(_, _, _, _, at, _) => Some(at)
    case _ => None
  }

  ghost predicate Timely(cfg: Config, w: World) {
    && (forall i :: 0 <= i < |w.log| && EventTime(w.log[i]).Some? ==> EventTime(w.log[i]).value <= w.clock)
    && (forall i, j :: 0 <= i < j < |w.log| && EventTime(w.log[i]).Some? && EventTime(w.log[j]).Some? ==>
          EventTime(w.log[i]).value <= EventTime(w.log[j]).value)
    && (forall i :: 0 <= i < |w.log| && w.log[i].Issued? ==>
          w.log[i].validUntil == w.log[i].at + cfg.accessTokenValidity)
    && (forall t :: t in w.store.resets ==>
          w.store.resets[t].createdAt <= w.clock &&
          w.store.resets[t].validUntil == w.store.resets[t].createdAt + cfg.resetValidity)
    && (forall t :: t in w.store.confirmations ==>
          w.store.confirmations[t].createdAt <= w.clock &&
          w.store.confirmations[t].validUntil == w.store.confirmations[t].createdAt + cfg.confirmationValidity)
  }

  function Min(a: int, b: int): int { if a <= b then a else b }

  function Max(a: int, b: int): int { if a <= b then b else a }

  /** How far apart two reset tokens of one user are at least. */
  function ResetSpacing(cfg: Config): int {
    Min(Max(cfg.resetDebounce, cfg.resetReuse), cfg.resetValidity)
  }

  function ConfirmationSpacing(cfg: Config): int {
    Min(cfg.confirmationDebounce, cfg.confirmationValidity)
  }

  ghost predicate Spaced(tokens: map<Token, ExpiringToken>, spacing: int) {
    forall t, u :: t in tokens && u in tokens && t != u && tokens[t].userId == tokens[u].userId ==>
      tokens[t].createdAt + spacing <= tokens[u].createdAt || tokens[u].createdAt + spacing <= tokens[t].createdAt
  }

  /** Reset tokens stay in the table as long as their user does. */
  ghost predicate ResetsKept(w: World) {
    forall i :: 0 <= i < |w.log| && w.log[i].ResetSent? ==>
      && w.log[i].user in w.used
      && (w.log[i].user in w.store.users ==>
            && w.log[i].token in w.store.resets
            && w.store.resets[w.log[i].token].userId == w.log[i].user
            && w.store.resets[w.log[i].token].createdAt == w.log[i].at)
  }

  ghost predicate ResetsSentApart(cfg: Config, log: seq<Event>) {
    forall i, j :: 0 <= i < j < |log| && log[i].ResetSent? && log[j].ResetSent? && log[i].user == log[j].user ==>
      log[i].at + ResetSpacing(cfg) <= log[j].at
  }

  /** A confirmation token stays in the table until its user is confirmed or gone. */
  ghost predicate ConfirmationsKept(w: World) {
    forall i :: 0 <= i < |w.log| && w.log[i].ConfirmationSent? ==>
      && w.log[i].user in w.used
      && (Unconfirmed(w, w.log[i].user) ==>
            && w.log[i].token in w.store.confirmations
            && w.store.confirmations[w.log[i].token].userId == w.log[i].user
            && w.store.confirmations[w.log[i].token].createdAt == w.log[i].at)
  }

  ghost predicate ConfirmationsSentApart(cfg: Config, log: seq<Event>) {
    forall i, j ::
      0 <= i < j < |log| && log[i].ConfirmationSent? && log[j].ConfirmationSent? && log[i].user == log[j].user ==>
      log[i].at + ConfirmationSpacing(cfg) <= log[j].at
  }

  ghost predicate RecencyAgrees(w: World, id: Id) {
    id in w.store.users && LastIssue(w.log, id).Some? ==>
      w.store.users[id].lastAuthenticatedAt == Some(w.log[LastIssue(w.log, id).value].at)
  }

  /** last_authenticated_at is the time of the user's latest issue, once there is one. */
  ghost predicate Recency(w: World) {
    && (forall i :: 0 <= i < |w.log| && w.log[i].Issued? ==> w.log[i].user in w.used)
    && (forall id :: RecencyAgrees(w, id))
  }

  /** Whoever was issued tokens has shown a credential at some time. */
  ghost predicate CredentialsFirst(log: seq<Event>) {
    forall i :: 0 <= i < |log| && log[i].Issued? ==> LastCredential(log, log[i].user).Some?
  }

  ghost predicate Inv(cfg: Config, w: World) {
    && WellFormed(w.store)
    && Bounded(w)
    && GrantsAgree(w)
    && RootsApart(w)
    && UnconfirmedHaveNothing(w)
    && ConfirmedOnce(w)
    && CompletionsConfirmed(w.log)
    && Timely(cfg, w)
    && ResetsKept(w)
    && ResetsSentApart(cfg, w.log)
    && Spaced(w.store.resets, ResetSpacing(cfg))
    && Spaced(w.store.confirmations, ConfirmationSpacing(cfg))
    && ConfirmationsKept(w)
    && ConfirmationsSentApart(cfg, w.log)
    && Recency(w)
    && CredentialsFirst(w.log)
  }

  /******* Events that may happen *******/

  ghost predicate NoRecent(tokens: map<Token, ExpiringToken>, user: Id, now: Time, window: int) {
    forall t :: t in tokens && tokens[t].userId == user ==>
      tokens[t].createdAt <= now - window || tokens[t].validUntil <= now
  }

  ghost predicate RotatesOwn(w: World, e: Event)
    requires e.Issued? && e.cause.ByRotation?
  {
    e.cause.parent in w.store.refresh && w.store.refresh[e.cause.parent].userId == e.user
  }

  ghost predicate Enabled(cfg: Config, w: World, e: Event) {
    match e
    case Registered(user, row) =>
      && user !in w.used && RowOk(row)
      && (row.username.Some? ==> forall id :: id in w.store.users ==> w.store.users[id].username != row.username)
    case ConfirmationSent(user, token, at, validUntil) =>
      && Unconfirmed(w, user) && token !in w.used
      && at == w.clock && validUntil == at + cfg.confirmationValidity
      && NoRecent(w.store.confirmations, user, at, cfg.confirmationDebounce)
    case Confirmed(user, token, at) =>
      && Unconfirmed(w, user) && at == w.clock
      && token in w.store.confirmations && w.store.confirmations[token].userId == user
    case ResetSent(user, token, at, validUntil) =>
      && user in w.store.users && token !in w.used
      && at == w.clock && validUntil == at + cfg.resetValidity
      && NoRecent(w.store.resets, user, at, Max(cfg.resetDebounce, cfg.resetReuse))
    case PasswordSet(user, _, at) => user in w.store.users && at == w.clock
    case Issued(user, access, refresh, cause, at, validUntil) =>
      && user in w.store.users && !w.store.users[user].requiresConfirmation
      && access !in w.used && refresh !in w.used && access != refresh
      && at == w.clock && validUntil == at + cfg.accessTokenValidity
      && (cause.ByRotation? ==> RotatesOwn(w, e))
      && (cause.ByCompletion? ==> w.log != [] && w.log[|w.log| - 1].Confirmed? && w.log[|w.log| - 1].user == user)
    case _ => true
  }

  ghost predicate EnabledAll(cfg: Config, w: World, es: seq<Event>)
    decreases |es|
  {
    es == [] || (Enabled(cfg, w, es[0]) && EnabledAll(cfg, After(w, es[0]), es[1..]))
  }

  /******* Events keep the invariant *******/

  lemma EventKeepsOwners(cfg: Config, w: World, e: Event)
    requires OwnersExist(w.store) && Enabled(cfg, w, e)
    ensures OwnersExist(Apply(w.store, e))
  {
  }

  lemma EventKeepsUsernames(cfg: Config, w: World, e: Event)
    requires UsernamesUnique(w.store.users) && Enabled(cfg, w, e)
    ensures UsernamesUnique(Apply(w.store, e).users)
  {
  }

  lemma EventKeepsRows(cfg: Config, w: World, e: Event)
    requires Enabled(cfg, w, e)
    requires w.store.profiles.Keys == w.store.users.Keys
    requires forall id :: id in w.store.users ==> RowOk(w.store.users[id])
    ensures Apply(w.store, e).profiles.Keys == Apply(w.store, e).users.Keys
    ensures forall id :: id in Apply(w.store, e).users ==> RowOk(Apply(w.store, e).users[id])
  {
  }

  lemma EventKeepsBounded(cfg: Config, w: World, e: Event)
    requires Bounded(w) && Enabled(cfg, w, e)
    ensures Bounded(After(w, e))
  {
  }

  lemma EventKeepsAccess(cfg: Config, w: World, e: Event, t: Token)
    requires AccessAgrees(w, t)
    ensures AccessAgrees(After(w, e), t)
  {
    LogExtends(w.log, e, t);
  }

  lemma EventKeepsRefresh(cfg: Config, w: World, e: Event, t: Token)
    requires RefreshAgrees(w, t)
    requires e.Issued? ==> e.cause != ByRotation(e.refresh)
    ensures RefreshAgrees(After(w, e), t)
  {
    LogExtends(w.log, e, t);
  }

  lemma EventKeepsUnique(w: World, e: Event)
    requires Bounded(w) && TokensUnique(w.log)
    requires e.Issued? ==> e.access !in w.used && e.refresh !in w.used
    ensures TokensUnique(w.log + [e])
  {
    if e.Issued? {
      forall i | 0 <= i < |w.log| && w.log[i].Issued?
        ensures w.log[i].access != e.access && w.log[i].refresh != e.refresh
      {
        assert Names(w.log[i]) <= w.used;
      }
    }
  }

  /** One event and one token: a root is new, inherited from the rotated parent, or what it was. */
  lemma RootAfterEvent(w: World, e: Event, t: Token)
    requires e.Issued? && e.cause.ByRotation? ==> RotatesOwn(w, e)
    requires forall u :: u in w.store.refresh ==> Rooted(w, u)
    requires t in After(w, e).store.refresh
    ensures Rooted(After(w, e), t)
    ensures Root(After(w, e).log, t) ==
      if e.Issued? && t == e.refresh && e.cause.ByRotation? then Root(w.log, e.cause.parent)
      else if e.Issued? && t == e.refresh then Some(|w.log|)
      else Root(w.log, t)
    ensures !(e.Issued? && t == e.refresh) ==> t in w.store.refresh && (e.Issued? ==> e.cause != ByRotation(t))
  {
    LogExtends(w.log, e, t);
  }

  lemma EventKeepsRoots(w: World, e: Event)
    requires RootsApart(w)
    requires TokensUnique(w.log + [e])
    requires e.Issued? && e.cause.ByRotation? ==> RotatesOwn(w, e)
    ensures RootsApart(After(w, e))
  {
    var w' := After(w, e);
    forall t | t in w'.store.refresh ensures Rooted(w', t) {
      RootAfterEvent(w, e, t);
    }
    forall t, u | t in w'.store.refresh && u in w'.store.refresh && Root(w'.log, t) == Root(w'.log, u)
      ensures t == u
    {
      RootAfterEvent(w, e, t);
      RootAfterEvent(w, e, u);
    }
  }

  lemma EventKeepsUnconfirmed(cfg: Config, w: World, e: Event)
    requires UnconfirmedHaveNothing(w) && Enabled(cfg, w, e) && OwnersExist(w.store)
    requires forall dto :: dto in w.seen ==> dto.id in w.used
    requires forall id :: id in Apply(w.store, e).users ==> RowOk(Apply(w.store, e).users[id])
    requires w.store.users.Keys <= w.used
    ensures UnconfirmedHaveNothing(After(w, e))
  {
    assert forall id :: Unconfirmed(After(w, e), id) ==> Unconfirmed(w, id) || id !in w.used;
  }

  lemma EventKeepsConfirmedOnce(cfg: Config, w: World, e: Event)
    requires ConfirmedOnce(w) && Enabled(cfg, w, e)
    requires w.store.users.Keys <= w.used
    ensures ConfirmedOnce(After(w, e))
  {
    assert forall id :: Unconfirmed(After(w, e), id) ==> Unconfirmed(w, id) || id !in w.used;
  }

  lemma EventKeepsCompletions(cfg: Config, w: World, e: Event)
    requires CompletionsConfirmed(w.log) && Enabled(cfg, w, e)
    ensures CompletionsConfirmed(w.log + [e])
  {
  }

  lemma EventKeepsTimely(cfg: Config, w: World, e: Event)
    requires Timely(cfg, w) && Enabled(cfg, w, e)
    ensures Timely(cfg, After(w, e))
  {
  }

  lemma EventKeepsResets(cfg: Config, w: World, e: Event)
    requires ResetsKept(w) && Enabled(cfg, w, e)
    requires w.store.users.Keys <= w.used && w.store.resets.Keys <= w.used
    ensures ResetsKept(After(w, e))
  {
  }

  lemma EventKeepsSentApart(cfg: Config, w: World, e: Event)
    requires ResetsSentApart(cfg, w.log) && ResetsKept(w) && Timely(cfg, w) && Enabled(cfg, w, e)
    ensures ResetsSentApart(cfg, w.log + [e])
  {
  }

  lemma EventKeepsConfirmations(cfg: Config, w: World, e: Event)
    requires ConfirmationsKept(w) && Enabled(cfg, w, e)
    requires w.store.users.Keys <= w.used && w.store.confirmations.Keys <= w.used
    ensures ConfirmationsKept(After(w, e))
  {
    assert forall id :: Unconfirmed(After(w, e), id) ==> Unconfirmed(w, id) || id !in w.used;
  }

  lemma EventKeepsConfirmationsApart(cfg: Config, w: World, e: Event)
    requires ConfirmationsSentApart(cfg, w.log) && ConfirmationsKept(w) && Timely(cfg, w) && Enabled(cfg, w, e)
    ensures ConfirmationsSentApart(cfg, w.log + [e])
  {
  }

  lemma EventKeepsRecency(cfg: Config, w: World, e: Event, id: Id)
    requires Recency(w) && Enabled(cfg, w, e) && w.store.users.Keys <= w.used
    ensures RecencyAgrees(After(w, e), id)
  {
    LatestExtends(w.log, e, id);
    assert RecencyAgrees(w, id);
  }

  lemma EventKeepsCredentials(w: World, e: Event)
    requires CredentialsFirst(w.log) && RootsApart(w)
    requires e.Issued? && e.cause.ByRotation? ==> RotatesOwn(w, e)
    ensures CredentialsFirst(w.log + [e])
  {
    if e.Issued? && e.cause.ByRotation? {
      assert Rooted(w, e.cause.parent);
      var chain := RootIsLineage(w.log, e.cause.parent);
      assert CredentialOf(w.log[chain[0]], e.user);
    }
    forall i | 0 <= i <= |w.log| && (w.log + [e])[i].Issued?
      ensures LastCredential(w.log + [e], (w.log + [e])[i].user).Some?
    {
      LatestExtends(w.log, e, (w.log + [e])[i].user);
    }
  }

  lemma NewTokenSpaced(tokens: map<Token, ExpiringToken>, t: Token, row: ExpiringToken, window: int, validity: int)
    requires t !in tokens && Spaced(tokens, Min(window, validity))
    requires forall u :: u in tokens ==> tokens[u].validUntil == tokens[u].createdAt + validity
    requires NoRecent(tokens, row.userId, row.createdAt, window)
    ensures Spaced(tokens[t := row], Min(window, validity))
  {
  }

  lemma EventKeepsSpacing(cfg: Config, w: World, e: Event)
    requires Spaced(w.store.resets, ResetSpacing(cfg)) && Spaced(w.store.confirmations, ConfirmationSpacing(cfg))
    requires Timely(cfg, w) && Enabled(cfg, w, e)
    requires w.store.resets.Keys <= w.used && w.store.confirmations.Keys <= w.used
    ensures Spaced(Apply(w.store, e).resets, ResetSpacing(cfg))
    ensures Spaced(Apply(w.store, e).confirmations, ConfirmationSpacing(cfg))
  {
    match e
    case ResetSent(user, token, at, validUntil) =>
      NewTokenSpaced(w.store.resets, token, ExpiringToken(user, validUntil, at),
                     Max(cfg.resetDebounce, cfg.resetReuse), cfg.resetValidity);
    case ConfirmationSent(user, token, at, validUntil) =>
      NewTokenSpaced(w.store.confirmations, token, ExpiringToken(user, validUntil, at),
                     cfg.confirmationDebounce, cfg.confirmationValidity);
    case _ =>
  }

  lemma EventKeepsTables(cfg: Config, w: World, e: Event)
    requires WellFormed(w.store) && Bounded(w) && Enabled(cfg, w, e)
    ensures WellFormed(Apply(w.store, e)) && Bounded(After(w, e))
  {
    EventKeepsOwners(cfg, w, e);
    EventKeepsUsernames(cfg, w, e);
    EventKeepsRows(cfg, w, e);
    EventKeepsBounded(cfg, w, e);
  }

  lemma EventKeepsGrants(cfg: Config, w: World, e: Event)
    requires GrantsAgree(w) && RootsApart(w) && Bounded(w) && Enabled(cfg, w, e)
    ensures GrantsAgree(After(w, e)) && RootsApart(After(w, e))
  {
    forall t ensures AccessAgrees(After(w, e), t) { EventKeepsAccess(cfg, w, e, t); }
    forall t ensures RefreshAgrees(After(w, e), t) { EventKeepsRefresh(cfg, w, e, t); }
    EventKeepsUnique(w, e);
    EventKeepsRoots(w, e);
  }

  lemma EventKeepsIssues(cfg: Config, w: World, e: Event)
    requires Recency(w) && CredentialsFirst(w.log) && RootsApart(w) && w.store.users.Keys <= w.used
    requires Enabled(cfg, w, e)
    ensures Recency(After(w, e)) && CredentialsFirst(After(w, e).log)
  {
    forall id ensures RecencyAgrees(After(w, e), id) { EventKeepsRecency(cfg, w, e, id); }
    EventKeepsCredentials(w, e);
  }

  lemma EventKeepsInv(cfg: Config, w: World, e: Event)
    requires Inv(cfg, w) && Enabled(cfg, w, e)
    ensures Inv(cfg, After(w, e))
  {
    EventKeepsTables(cfg, w, e);
    EventKeepsGrants(cfg, w, e);
    EventKeepsUnconfirmed(cfg, w, e);
    EventKeepsConfirmedOnce(cfg, w, e);
    EventKeepsCompletions(cfg, w, e);
    EventKeepsTimely(cfg, w, e);
    EventKeepsResets(cfg, w, e);
    EventKeepsSentApart(cfg, w, e);
    EventKeepsSpacing(cfg, w, e);
    EventKeepsConfirmations(cfg, w, e);
    EventKeepsConfirmationsApart(cfg, w, e);
    EventKeepsIssues(cfg, w, e);
  }

  /******* Operations are enabled events *******/

  /** The tables an operation leaves are what its events make of them, each enabled in its turn. */
  ghost predicate Faithful(cfg: Config, w: World, effect: Effect) {
    EnabledAll(cfg, w, effect.events) && AfterAll(w, effect.events).store == effect.store
  }

  lemma NoEventFaithful(cfg: Config, w: World, effect: Effect)
    requires effect.events == [] && effect.store == w.store
    ensures Faithful(cfg, w, effect)
  {
  }

  lemma OneEventFaithful(cfg: Config, w: World, effect: Effect, e: Event)
    requires effect.events == [e] && effect.store == Apply(w.store, e) && Enabled(cfg, w, e)
    ensures Faithful(cfg, w, effect)
  {
    assert effect.events[1..] == [];
  }

  lemma TwoEventsFaithful(cfg: Config, w: World, effect: Effect, a: Event, b: Event)
    requires effect.events == [a, b] && effect.store == Apply(Apply(w.store, a), b)
    requires Enabled(cfg, w, a) && Enabled(cfg, After(w, a), b)
    ensures Faithful(cfg, w, effect)
  {
    var rest := effect.events[1..];
    assert rest == [b] && rest[1..] == [];
    assert AfterAll(w, effect.events) == AfterAll(After(w, a), rest) == AfterAll(After(After(w, a), b), rest[1..]);
  }

  /** authenticateUser without invalidation, apart from the rotated parent, is one Issued event. */
  lemma AuthenticateIsIssued(cfg: Config, s: Store, env: Env, user: UserDto, cause: Cause)
    requires user.id in s.users && env.access !in s.access && env.refresh !in s.refresh
    ensures var kept := if cause.ByRotation? then s.(refresh := s.refresh - {cause.parent}) else s;
      AuthenticateUser(cfg, kept, env, user, false) ==
      Ok((Apply(s, Issue(cfg, env, user.id, cause)),
          LoginResult(env.access, env.refresh, "bearer", WholeSeconds(cfg.accessTokenValidity))))
  {
  }

  /** With invalidation, and after the new password was written, it is PasswordSet and then Issued. */
  lemma UpdateIsPasswordSetIssued(cfg: Config, s: Store, env: Env, user: UserDto)
    requires user.id in s.users && env.access !in s.access && env.refresh !in s.refresh && user.passwordHash.Some?
    ensures var users := UpdateUser(s.users, user.id, ToModel(user), {PasswordColumn, UpdatedAtColumn}, env.now);
      AuthenticateUser(cfg, s.(users := users), env, user, true) ==
      Ok((Apply(Apply(s, PasswordSet(user.id, user.passwordHash.value, env.now)),
                Issue(cfg, env, user.id, ByPasswordUpdate)),
          LoginResult(env.access, env.refresh, "bearer", WholeSeconds(cfg.accessTokenValidity))))
  {
  }

  lemma LoginFaithful(cfg: Config, w: World, env: Env, username: string, password: string)
    requires Ready(w, env)
    ensures Faithful(cfg, w, PerformLogin(cfg, w.store, env, username, password))
  {
    var effect := PerformLogin(cfg, w.store, env, username, password);
    if effect.events == [] {
      NoEventFaithful(cfg, w, effect);
    } else {
      var id := FindByUsername(cfg, w.store.users, username).value;
      AuthenticateIsIssued(cfg, w.store, env, ToDto(id, w.store.users[id]), ByLogin);
      assert RowOk(w.store.users[id]);
      OneEventFaithful(cfg, w, effect, Issue(cfg, env, id, ByLogin));
    }
  }

  lemma RefreshFaithful(cfg: Config, w: World, env: Env, token: Token)
    requires Ready(w, env)
    ensures Faithful(cfg, w, PerformRefresh(cfg, w.store, env, token))
  {
    var effect := PerformRefresh(cfg, w.store, env, token);
    if effect.events == [] {
      NoEventFaithful(cfg, w, effect);
    } else {
      var id := w.store.refresh[token].userId;
      AuthenticateIsIssued(cfg, w.store, env, ToDto(id, w.store.users[id]), ByRotation(token));
      assert RowOk(w.store.users[id]);
      OneEventFaithful(cfg, w, effect, Issue(cfg, env, id, ByRotation(token)));
    }
  }

  lemma CompleteRegisterFaithful(cfg: Config, w: World, env: Env, token: Token)
    requires Ready(w, env)
    ensures Faithful(cfg, w, PerformCompleteRegister(cfg, w.store, env, token))
  {
    var effect := PerformCompleteRegister(cfg, w.store, env, token);
    if effect.events == [] {
      NoEventFaithful(cfg, w, effect);
    } else {
      var id := w.store.confirmations[token].userId;
      var user := w.store.users[id].(isActive := true, requiresConfirmation := false);
      var e := Confirmed(id, token, env.now);
      AuthenticateIsIssued(cfg, Apply(w.store, e), env, ToDto(id, user), ByCompletion);
      TwoEventsFaithful(cfg, w, effect, e, Issue(cfg, env, id, ByCompletion));
    }
  }

  lemma UpdatePasswordFaithful(cfg: Config, w: World, env: Env, user: UserDto, current: string, skip: bool,
                               newHash: Option<string>)
    requires Ready(w, env) && (user.isActive ==> !Unconfirmed(w, user.id))
    ensures Faithful(cfg, w, PerformUpdatePassword(cfg, w.store, env, user, current, skip, newHash))
  {
    var effect := PerformUpdatePassword(cfg, w.store, env, user, current, skip, newHash);
    if effect.events == [] {
      NoEventFaithful(cfg, w, effect);
    } else {
      var e := PasswordSet(user.id, newHash.value, env.now);
      UpdateIsPasswordSetIssued(cfg, w.store, env, user.(passwordHash := newHash));
      TwoEventsFaithful(cfg, w, effect, e, Issue(cfg, env, user.id, ByPasswordUpdate));
    }
  }

  lemma ResetPasswordFaithful(cfg: Config, w: World, env: Env, token: Token, newHash: Option<string>)
    requires Ready(w, env)
    ensures Faithful(cfg, w, PerformResetPassword(cfg, w.store, env, token, newHash))
  {
    var effect := PerformResetPassword(cfg, w.store, env, token, newHash);
    if effect.events == [] {
      NoEventFaithful(cfg, w, effect);
    } else {
      var id := w.store.resets[token].userId;
      assert RowOk(w.store.users[id]);
      UpdatePasswordFaithful(cfg, w, env, ToDto(id, w.store.users[id]), "", true, newHash);
    }
  }

  lemma NothingRecent(tokens: map<Token, ExpiringToken>, user: Id, now: Time, window: int)
    requires RecentTokens(tokens, user, now, window) == {}
    ensures NoRecent(tokens, user, now, window)
  {
    forall t | t in tokens && tokens[t].userId == user
      ensures tokens[t].createdAt <= now - window || tokens[t].validUntil <= now
    {
      assert t !in RecentTokens(tokens, user, now, window);
    }
  }

  lemma InitPasswordResetFaithful(cfg: Config, w: World, env: Env, username: string)
    requires Ready(w, env)
    ensures Faithful(cfg, w, PerformInitPasswordReset(cfg, w.store, env, username))
  {
    var effect := PerformInitPasswordReset(cfg, w.store, env, username);
    if effect.events == [] {
      NoEventFaithful(cfg, w, effect);
    } else {
      var id := FindByUsername(cfg, w.store.users, username).value;
      NothingRecent(w.store.resets, id, env.now, cfg.resetReuse);
      if cfg.resetDebounce > 0 {
        NothingRecent(w.store.resets, id, env.now, cfg.resetDebounce);
      }
      OneEventFaithful(cfg, w, effect, ResetSent(id, env.reset, env.now, env.now + cfg.resetValidity));
    }
  }

  lemma RepeatedRegisterFaithful(cfg: Config, w: World, env: Env, id: Id)
    requires Ready(w, env) && Unconfirmed(w, id)
    ensures Faithful(cfg, w, PerformRepeatedRegister(cfg, w.store, env, id))
  {
    var effect := PerformRepeatedRegister(cfg, w.store, env, id);
    if effect.events == [] {
      NoEventFaithful(cfg, w, effect);
    } else {
      NothingRecent(w.store.confirmations, id, env.now, cfg.confirmationDebounce);
      OneEventFaithful(cfg, w, effect,
                       ConfirmationSent(id, env.confirmation, env.now, env.now + cfg.confirmationValidity));
    }
  }

  lemma UnknownUsername(cfg: Config, users: map<Id, User>, username: string)
    requires PicksMember(cfg)
    requires var found := FindByUsername(cfg, users, username); found.None? || found.value !in users
    ensures forall id :: id in users ==> users[id].username != Some(Usernames.ToUsernameFormat(username))
  {
    var rows := set id | id in users && users[id].username == Some(Usernames.ToUsernameFormat(username));
    assert rows == {};
    forall id | id in users ensures users[id].username != Some(Usernames.ToUsernameFormat(username)) {
      assert id !in rows;
    }
  }

  lemma NewUserFaithful(cfg: Config, w: World, env: Env, username: string, hash: string, effect: Effect)
    requires Ready(w, env)
    requires
      forall id :: id in w.store.users ==> w.store.users[id].username != Some(Usernames.ToUsernameFormat(username))
    requires effect == PerformRegister(cfg, w.store, env, username, Some(hash)) && effect.events != []
    requires effect.events[0] == Registered(env.userId, NewUser(cfg, env.now, username, hash))
    ensures Faithful(cfg, w, effect)
  {
    Usernames.FormatNormalises(username);
    var e := Registered(env.userId, NewUser(cfg, env.now, username, hash));
    if cfg.registrationRequiresConfirmation {
      var validUntil := env.now + cfg.confirmationValidity;
      TwoEventsFaithful(cfg, w, effect, e, ConfirmationSent(env.userId, env.confirmation, env.now, validUntil));
    } else {
      OneEventFaithful(cfg, w, effect, e);
    }
  }

  lemma RegisterFaithful(cfg: Config, w: World, env: Env, username: string, newHash: Option<string>)
    requires Ready(w, env) && PicksMember(cfg)
    ensures Faithful(cfg, w, PerformRegister(cfg, w.store, env, username, newHash))
  {
    var effect := PerformRegister(cfg, w.store, env, username, newHash);
    var found := FindByUsername(cfg, w.store.users, username);
    if effect.events == [] {
      NoEventFaithful(cfg, w, effect);
    } else if found.Some? && found.value in w.store.users {
      RepeatedRegisterFaithful(cfg, w, env, found.value);
    } else {
      UnknownUsername(cfg, w.store.users, username);
      NewUserFaithful(cfg, w, env, username, newHash.value, effect);
    }
  }

  /** Every admissible call is a faithful sequence of events. */
  lemma CallFaithful(cfg: Config, w: World, call: Call, env: Env)
    requires Inv(cfg, w) && Admissible(w, call, env) && PicksMember(cfg)
    ensures Faithful(cfg, w.(clock := env.now), Perform(cfg, w.store, call, env))
  {
    var v := w.(clock := env.now);
    InvReady(cfg, w, env);
    var effect := Perform(cfg, w.store, call, env);
    match call
    case Login(username, password) => LoginFaithful(cfg, v, env, username, password);
    case Refresh(token) => RefreshFaithful(cfg, v, env, token);
    case Register(username, hash) => RegisterFaithful(cfg, v, env, username, hash);
    case CompleteRegister(token) => CompleteRegisterFaithful(cfg, v, env, token);
    case InitPasswordReset(username) => InitPasswordResetFaithful(cfg, v, env, username);
    case ResetPassword(token, hash) => ResetPasswordFaithful(cfg, v, env, token, hash);
    case UpdatePassword(user, current, skip, hash) => UpdatePasswordFaithful(cfg, v, env, user, current, skip, hash);
    case _ =>
      if effect.events == [] {
        NoEventFaithful(cfg, v, effect);
      } else {
        OneEventFaithful(cfg, v, effect, effect.events[0]);
      }
  }

  /** What the operations need of the invariant. */
  ghost predicate Ready(w: World, env: Env) {
    && EnvFits(w, env) && w.clock == env.now
    && w.store.users.Keys <= w.used && w.store.profiles.Keys <= w.used
    && w.store.access.Keys <= w.used && w.store.refresh.Keys <= w.used
    && w.store.resets.Keys <= w.used && w.store.confirmations.Keys <= w.used
    && OwnersExist(w.store)
    && (forall id :: id in w.store.users ==> RowOk(w.store.users[id]))
    && (forall t :: t in w.store.resets ==> w.store.resets[t].createdAt <= w.clock)
  }

  lemma InvReady(cfg: Config, w: World, env: Env)
    requires Inv(cfg, w) && EnvFits(w, env)
    ensures Ready(w.(clock := env.now), env)
    ensures forall dto :: dto in w.seen && dto.isActive ==> !Unconfirmed(w.(clock := env.now), dto.id)
  {
    forall dto | dto in w.seen && dto.isActive ensures !Unconfirmed(w.(clock := env.now), dto.id) {
      assert !Unconfirmed(w, dto.id);
    }
  }

  /******* Steps and runs keep the invariant *******/

  lemma {:induction false} EventsExtendLog(w: World, es: seq<Event>)
    ensures AfterAll(w, es).log == w.log + es
    ensures AfterAll(w, es).store == ApplyAll(w.store, es)
    decreases |es|
  {
    if es != [] {
      EventsExtendLog(After(w, es[0]), es[1..]);
      assert es == [es[0]] + es[1..];
      assert w.log + es == (w.log + [es[0]]) + es[1..];
    }
  }

  lemma {:induction false} EventsKeepInv(cfg: Config, w: World, es: seq<Event>)
    requires Inv(cfg, w) && EnabledAll(cfg, w, es)
    ensures Inv(cfg, AfterAll(w, es))
    decreases |es|
  {
    if es != [] {
      EventKeepsInv(cfg, w, es[0]);
      EventsKeepInv(cfg, After(w, es[0]), es[1..]);
    }
  }

  lemma WaitingKeepsInv(cfg: Config, w: World, now: Time)
    requires Inv(cfg, w) && w.clock <= now
    ensures Inv(cfg, w.(clock := now))
  {
    var v := w.(clock := now);
    forall t ensures AccessAgrees(v, t) && RefreshAgrees(v, t) {
      assert AccessAgrees(w, t) && RefreshAgrees(w, t);
    }
    forall t | t in v.store.refresh ensures Rooted(v, t) {
      assert Rooted(w, t);
    }
    assert forall id :: Unconfirmed(v, id) <==> Unconfirmed(w, id);
    forall id ensures RecencyAgrees(v, id) {
      assert RecencyAgrees(w, id);
    }
  }

  lemma StepExtendsLog(cfg: Config, w: World, call: Call, env: Env)
    ensures Step(cfg, w, call, env).log == w.log + Perform(cfg, w.store, call, env).events
  {
    EventsExtendLog(w.(clock := env.now), Perform(cfg, w.store, call, env).events);
  }

  lemma {:induction false} RunSnoc(cfg: Config, w: World, calls: seq<(Call, Env)>, call: Call, env: Env)
    ensures Run(cfg, w, calls + [(call, env)]) == Step(cfg, Run(cfg, w, calls), call, env)
    decreases |calls|
  {
    var longer := calls + [(call, env)];
    if calls == [] {
      assert longer[1..] == [];
    } else {
      RunSnoc(cfg, Step(cfg, w, calls[0].0, calls[0].1), calls[1..], call, env);
      assert longer[1..] == calls[1..] + [(call, env)];
    }
  }

  /** The world after a call is the world after its events. */
  lemma StepIsEvents(cfg: Config, w: World, call: Call, env: Env)
    requires Inv(cfg, w) && Admissible(w, call, env) && PicksMember(cfg)
    ensures Step(cfg, w, call, env) == AfterAll(w.(clock := env.now), Perform(cfg, w.store, call, env).events)
    ensures EnabledAll(cfg, w.(clock := env.now), Perform(cfg, w.store, call, env).events)
  {
    CallFaithful(cfg, w, call, env);
  }

  /** Every admissible call, successful or not, keeps the invariant. */
  lemma StepKeepsInv(cfg: Config, w: World, call: Call, env: Env)
    requires Inv(cfg, w) && Admissible(w, call, env) && PicksMember(cfg)
    ensures Inv(cfg, Step(cfg, w, call, env))
  {
    StepIsEvents(cfg, w, call, env);
    WaitingKeepsInv(cfg, w, env.now);
    EventsKeepInv(cfg, w.(clock := env.now), Perform(cfg, w.store, call, env).events);
  }

  lemma InitInv(cfg: Config, w: World)
    requires Init(w)
    ensures Inv(cfg, w)
  {
    assert forall t :: AccessAgrees(w, t) && RefreshAgrees(w, t);
    assert forall dto :: dto in w.seen && dto.isActive ==> RowOk(w.store.users[dto.id]);
  }

  /** Every run from tables without tokens keeps the invariant. */
  lemma {:induction false} RunKeepsInv(cfg: Config, w: World, calls: seq<(Call, Env)>)
    requires Inv(cfg, w) && AdmissibleRun(cfg, w, calls) && PicksMember(cfg)
    ensures Inv(cfg, Run(cfg, w, calls))
    decreases |calls|
  {
    if calls != [] {
      StepKeepsInv(cfg, w, calls[0].0, calls[0].1);
      RunKeepsInv(cfg, Step(cfg, w, calls[0].0, calls[0].1), calls[1..]);
    }
  }
}
