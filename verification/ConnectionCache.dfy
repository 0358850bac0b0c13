/**
 The gRPC connection cache (internal/mpc/grpc/client.go) under concurrency: any number of threads run
 getOrCreateConnection, CloseConnection and Close, one atomic action at a time. The two maps are
 written by separate actions, so between them they may disagree; the lock keeps that private.
 */
module ConnectionCache {
  import opened Wrappers

  type Node = string
  type Thread = nat
  type Conn = nat

  datatype Client = Client(conn: Conn)

  /** The effect of an action on the cache seen as one atomic map from nodes to clients. */
  datatype Atomic =
    | Hit(thread: Thread, node: Node, client: Client)
    | Insert(thread: Thread, node: Node, client: Client)
    | Remove(node: Node)
    | Clear

  /** What getOrCreateConnection returns: a client and where in the log it took effect, or an error. */
  datatype Outcome = Served(client: Client, at: nat) | Failed

  /** How CloseConnection ended, and where in the log: the node was not cached, was removed, or its Close failed. */
  datatype CloseOutcome = Absent(at: nat) | Removed(at: nat) | Refused(at: nat)

  /** Where a thread is. since is the length of the log when its call began. */
  datatype Pc =
    | Idle
    | GetRLock(node: Node, since: nat)
    | GetRead(node: Node, since: nat)
    | GetRUnlock(node: Node, since: nat, hit: Option<Outcome>)
    | GetLookup(node: Node, since: nat)
    | GetLock(node: Node, since: nat)
    | GetCheck(node: Node, since: nat)
    | GetDial(node: Node, since: nat)
    | GetPutConn(node: Node, since: nat, conn: Conn)
    | GetPutClient(node: Node, since: nat, conn: Conn)
    | GetUnlock(node: Node, since: nat, result: Outcome)
    | GetDone(node: Node, since: nat, result: Outcome)
    | CloseLock(node: Node, since: nat)
    | CloseConn(node: Node, since: nat)
    | CloseDeleteConn(node: Node, since: nat)
    | CloseDeleteClient(node: Node, since: nat)
    | CloseUnlock(node: Node, since: nat, outcome: CloseOutcome)
    | CloseDone(node: Node, since: nat, outcome: CloseOutcome)
    | AllLock(since: nat)
    | AllLoop(since: nat, left: set<Node>)
    | AllResetConns(since: nat)
    | AllResetClients(since: nat)
    | AllUnlock(since: nat, at: nat)
    | AllDone(since: nat, at: nat)

  datatype State = State(
    conns: map<Node, Conn>,
    clients: map<Node, Client>,
    writer: Option<Thread>,
    readers: set<Thread>,
    pcs: map<Thread, Pc>,
    dialed: set<Conn>,
    closed: set<Conn>,     // Close was called on it
    refused: set<Conn>,    // CloseConnection called Close on it and got an error
    log: seq<Atomic>)

  /** One atomic action of a thread, with the choices the environment makes. */
  datatype Action =
    | CallGet(node: Node)
    | CallClose(node: Node)
    | CallCloseAll
    | Advance                       // the only thing the thread can do next
    | LookupFails
    | DialFails                     // bad TLS files or a bad endpoint
    | Dial(conn: Conn)
    | CloseFails
    | CloseOneOf(node: Node)        // the loop of Close visits the map in any order

  function PcOf(s: State, t: Thread): Pc {
    if t in s.pcs then s.pcs[t] else Idle
  }

  predicate IsCall(a: Action) {
    a.CallGet? || a.CallClose? || a.CallCloseAll?
  }

  predicate Can(s: State, t: Thread, a: Action) {
    match PcOf(s, t)
    case Idle => IsCall(a)
    case GetDone(_, _, _) => IsCall(a)
    case CloseDone(_, _, _) => IsCall(a)
    case AllDone(_, _) => IsCall(a)
    case GetRLock(_, _) => a.Advance? && s.writer.None?
    case GetLookup(_, _) => a.Advance? || a.LookupFails?
    case GetLock(_, _) => a.Advance? && s.writer.None? && s.readers == {}
    case CloseLock(_, _) => a.Advance? && s.writer.None? && s.readers == {}
    case AllLock(_) => a.Advance? && s.writer.None? && s.readers == {}
    case GetDial(_, _) => a.DialFails? || (a.Dial? && a.conn !in s.dialed)
    case CloseConn(node, _) => a.Advance? || (a.CloseFails? && node in s.conns)
    case AllLoop(_, left) => if left == {} then a.Advance? else a.CloseOneOf? && a.node in left && a.node in s.conns
    case _ => a.Advance?
  }

  function Goto(s: State, t: Thread, pc: Pc): State {
    s.(pcs := s.pcs[t := pc])
  }

  function Do(s: State, t: Thread, a: Action): State
    requires Can(s, t, a)
  {
    if a.CallGet? then Goto(s, t, GetRLock(a.node, |s.log|))
    else if a.CallClose? then Goto(s, t, CloseLock(a.node, |s.log|))
    else if a.CallCloseAll? then Goto(s, t, AllLock(|s.log|))
    else match PcOf(s, t)
      // the fast path, under the read lock
      case GetRLock(node, since) => Goto(s.(readers := s.readers + {t}), t, GetRead(node, since))
      case GetRead(node, since) =>
        if node in s.clients then
          Goto(s.(log := s.log + [Hit(t, node, s.clients[node])]), t,
               GetRUnlock(node, since, Some(Served(s.clients[node], |s.log|))))
        else Goto(s, t, GetRUnlock(node, since, None))
      case GetRUnlock(node, since, hit) =>
        Goto(s.(readers := s.readers - {t}), t,
             if hit.Some? then GetDone(node, since, hit.value) else GetLookup(node, since))
      // the node's endpoint, without any lock
      case GetLookup(node, since) =>
        Goto(s, t, if a.LookupFails? then GetDone(node, since, Failed) else GetLock(node, since))
      // the slow path, under the write lock
      case GetLock(node, since) => Goto(s.(writer := Some(t)), t, GetCheck(node, since))
      case GetCheck(node, since) =>
        if node in s.clients then
          Goto(s.(log := s.log + [Hit(t, node, s.clients[node])]), t,
               GetUnlock(node, since, Served(s.clients[node], |s.log|)))
        else Goto(s, t, GetDial(node, since))
      case GetDial(node, since) =>
        if a.DialFails? then Goto(s, t, GetUnlock(node, since, Failed))
        else Goto(s.(dialed := s.dialed + {a.conn}), t, GetPutConn(node, since, a.conn))
      case GetPutConn(node, since, conn) =>
        Goto(s.(conns := s.conns[node := conn]), t, GetPutClient(node, since, conn))
      case GetPutClient(node, since, conn) =>
        Goto(s.(clients := s.clients[node := Client(conn)], log := s.log + [Insert(t, node, Client(conn))]), t,
             GetUnlock(node, since, Served(Client(conn), |s.log|)))
      case GetUnlock(node, since, result) => Goto(s.(writer := None), t, GetDone(node, since, result))
      // CloseConnection
      case CloseLock(node, since) => Goto(s.(writer := Some(t)), t, CloseConn(node, since))
      case CloseConn(node, since) =>
        if node !in s.conns then Goto(s, t, CloseUnlock(node, since, Absent(|s.log|)))
        else if a.CloseFails? then
          Goto(s.(closed := s.closed + {s.conns[node]}, refused := s.refused + {s.conns[node]}), t,
               CloseUnlock(node, since, Refused(|s.log|)))
        else Goto(s.(closed := s.closed + {s.conns[node]}), t, CloseDeleteConn(node, since))
      case CloseDeleteConn(node, since) => Goto(s.(conns := s.conns - {node}), t, CloseDeleteClient(node, since))
      case CloseDeleteClient(node, since) =>
        Goto(s.(clients := s.clients - {node}, log := s.log + [Remove(node)]), t,
             CloseUnlock(node, since, Removed(|s.log|)))
      case CloseUnlock(node, since, outcome) => Goto(s.(writer := None), t, CloseDone(node, since, outcome))
      // Close
      case AllLock(since) => Goto(s.(writer := Some(t)), t, AllLoop(since, s.conns.Keys))
      case AllLoop(since, left) =>
        if left == {} then Goto(s, t, AllResetConns(since))
        else Goto(s.(closed := s.closed + {s.conns[a.node]}), t, AllLoop(since, left - {a.node}))
      case AllResetConns(since) => Goto(s.(conns := map[]), t, AllResetClients(since))
      case AllResetClients(since) =>
        Goto(s.(clients := map[], log := s.log + [Clear]), t, AllUnlock(since, |s.log|))
      case AllUnlock(since, at) => Goto(s.(writer := None), t, AllDone(since, at))
      case Idle => s
      case GetDone(_, _, _) => s
      case CloseDone(_, _, _) => s
      case AllDone(_, _) => s
  }

  predicate Start(s: State) {
    s == State(map[], map[], None, {}, map[], {}, {}, {}, [])
  }

  predicate CanRun(s: State, run: seq<(Thread, Action)>)
    decreases |run|
  {
    run == [] || (Can(s, run[0].0, run[0].1) && CanRun(Do(s, run[0].0, run[0].1), run[1..]))
  }

  function Run(s: State, run: seq<(Thread, Action)>): State
    requires CanRun(s, run)
    decreases |run|
  {
    if run == [] then s else Run(Do(s, run[0].0, run[0].1), run[1..])
  }

  /******* The atomic cache *******/

  function AtomicDo(cache: map<Node, Client>, e: Atomic): map<Node, Client> {
    match e
    case Hit(_, _, _) => cache
    case Insert(_, node, client) => cache[node := client]
    case Remove(node) => cache - {node}
    case Clear => map[]
  }

  /** A hit returns what is cached; an insert finds nothing cached. */
  predicate AtomicCan(cache: map<Node, Client>, e: Atomic) {
    match e
    case Hit(_, node, client) => node in cache && cache[node] == client
    case Insert(_, node, _) => node !in cache
    case _ => true
  }

  function Replay(log: seq<Atomic>): map<Node, Client> {
    if log == [] then map[] else AtomicDo(Replay(log[..|log| - 1]), log[|log| - 1])
  }

  predicate Legal(log: seq<Atomic>) {
    log == [] || (Legal(log[..|log| - 1]) && AtomicCan(Replay(log[..|log| - 1]), log[|log| - 1]))
  }

  lemma LogGrows(log: seq<Atomic>, e: Atomic)
    ensures Replay(log + [e]) == AtomicDo(Replay(log), e)
    ensures Legal(log + [e]) <==> Legal(log) && AtomicCan(Replay(log), e)
  {
    assert (log + [e])[..|log|] == log;
  }

  /******* The invariant *******/

  predicate HoldsRead(pc: Pc) {
    pc.GetRead? || pc.GetRUnlock?
  }

  predicate HoldsWrite(pc: Pc) {
    pc.GetCheck? || pc.GetDial? || pc.GetPutConn? || pc.GetPutClient? || pc.GetUnlock? ||
    pc.CloseConn? || pc.CloseDeleteConn? || pc.CloseDeleteClient? || pc.CloseUnlock? ||
    pc.AllLoop? || pc.AllResetConns? || pc.AllResetClients? || pc.AllUnlock?
  }

  ghost predicate LockOk(s: State, t: Thread) {
    && (HoldsWrite(PcOf(s, t)) <==> s.writer == Some(t))
    && (HoldsRead(PcOf(s, t)) <==> t in s.readers)
  }

  ghost predicate Locks(s: State) {
    && (forall t :: LockOk(s, t))
    && (s.writer.Some? ==> s.readers == {})
  }

  /** The two maps have the same keys and each client wraps the connection beside it. */
  ghost predicate InStep(conns: map<Node, Conn>, clients: map<Node, Client>) {
    && conns.Keys == clients.Keys
    && forall n :: n in conns ==> clients[n] == Client(conns[n])
  }

  function WriterPc(s: State): Pc {
    if s.writer.Some? then PcOf(s, s.writer.value) else Idle
  }

  /** What a thread in the critical section may have left half done. */
  ghost predicate MapsAt(pc: Pc, conns: map<Node, Conn>, clients: map<Node, Client>) {
    match pc
    case GetDial(n, _) => InStep(conns, clients) && n !in conns
    case GetPutConn(n, _, c) => InStep(conns, clients) && n !in conns
    case GetPutClient(n, _, c) => n !in clients && n in conns && conns[n] == c && InStep(conns - {n}, clients)
    case CloseDeleteConn(n, _) => InStep(conns, clients) && n in conns
    case CloseDeleteClient(n, _) => n !in conns && n in clients && InStep(conns, clients - {n})
    case AllLoop(_, left) => InStep(conns, clients) && left <= conns.Keys
    case AllResetClients(_) => conns == map[]
    case _ => InStep(conns, clients)
  }

  ghost predicate Maps(s: State) {
    MapsAt(WriterPc(s), s.conns, s.clients)
  }

  /** Cached connections are distinct and were dialed. */
  ghost predicate DistinctAt(pc: Pc, conns: map<Node, Conn>, dialed: set<Conn>, closed: set<Conn>, refused: set<Conn>) {
    && (forall n :: n in conns ==> conns[n] in dialed)
    && (forall n, m :: n in conns && m in conns && conns[n] == conns[m] ==> n == m)
    && (pc.GetPutConn? ==>
          && pc.conn in dialed && pc.conn !in closed
          && (forall n :: n in conns ==> conns[n] != pc.conn))
    && refused <= closed <= dialed
  }

  ghost predicate Distinct(s: State) {
    DistinctAt(WriterPc(s), s.conns, s.dialed, s.closed, s.refused)
  }

  ghost predicate Cached(s: State, c: Conn) {
    exists n :: n in s.conns && s.conns[n] == c
  }

  /** No connection is lost: each dialed one is cached, closed, or in the hands of the dialing thread. */
  ghost predicate NoLeak(s: State) {
    forall c :: c in s.dialed ==> Cached(s, c) || c in s.closed || (WriterPc(s).GetPutConn? && WriterPc(s).conn == c)
  }

  /** A connection that is closed and still cached is being removed, or its Close failed. */
  ghost predicate StaleAt(pc: Pc, conns: map<Node, Conn>, closed: set<Conn>, refused: set<Conn>) {
    forall n :: n in conns ==>
      if (pc.CloseDeleteConn? && pc.node == n) || (pc.AllLoop? && n !in pc.left) || pc.AllResetConns?
      then conns[n] in closed
      else conns[n] !in closed || conns[n] in refused
  }

  ghost predicate Stale(s: State) {
    StaleAt(WriterPc(s), s.conns, s.closed, s.refused)
  }

  predicate Serves(e: Atomic, node: Node, client: Client) {
    (e.Hit? || e.Insert?) && e.node == node && e.client == client
  }

  function ResultOf(pc: Pc): Option<Outcome> {
    match pc
    case GetRUnlock(_, _, hit) => hit
    case GetUnlock(_, _, result) => Some(result)
    case GetDone(_, _, result) => Some(result)
    case _ => None
  }

  predicate InGet(pc: Pc) {
    pc.GetRLock? || pc.GetRead? || pc.GetRUnlock? || pc.GetLookup? || pc.GetLock? || pc.GetCheck? || pc.GetDial? ||
    pc.GetPutConn? || pc.GetPutClient? || pc.GetUnlock? || pc.GetDone?
  }

  /** A result was taken from the atomic cache by this thread, within its call. */
  ghost predicate ResultOk(s: State, t: Thread) {
    var pc := PcOf(s, t);
    && (InGet(pc) ==> pc.since <= |s.log|)
    && (ResultOf(pc).Some? && ResultOf(pc).value.Served? ==>
          var r := ResultOf(pc).value;
          pc.since <= r.at < |s.log| && Serves(s.log[r.at], pc.node, r.client) && s.log[r.at].thread == t)
  }

  ghost predicate Linear(s: State) {
    && Legal(s.log)
    && Replay(s.log) == s.clients
    && (forall t :: ResultOk(s, t))
  }

  /** What a half-done close still has to remove is closed already. */
  ghost predicate ClosingAt(pc: Pc, clients: map<Node, Client>, closed: set<Conn>) {
    && (pc.CloseDeleteClient? ==> pc.node in clients && clients[pc.node].conn in closed)
    && (pc.AllResetClients? ==> forall n :: n in clients ==> clients[n].conn in closed)
  }

  ghost predicate Closing(s: State) {
    ClosingAt(WriterPc(s), s.clients, s.closed)
  }

  /** What the outcome of a CloseConnection says about the log and the connections, at a point within its call. */
  ghost predicate Recorded(log: seq<Atomic>, closed: set<Conn>, refused: set<Conn>, node: Node, since: nat,
                           outcome: CloseOutcome)
  {
    since <= outcome.at <= |log| &&
    var cache := Replay(log[..outcome.at]);
    match outcome
    case Absent(_) => node !in cache
    case Removed(at) => at < |log| && log[at] == Remove(node) && node in cache && cache[node].conn in closed
    case Refused(_) => node in cache && cache[node].conn in refused
  }

  /** Close emptied the cache at this point of the log, and all that was in it is closed. */
  ghost predicate Cleared(log: seq<Atomic>, closed: set<Conn>, since: nat, at: nat) {
    && since <= at < |log|
    && log[at] == Clear
    && forall n :: n in Replay(log[..at]) ==> Replay(log[..at])[n].conn in closed
  }

  predicate InClose(pc: Pc) {
    pc.CloseLock? || pc.CloseConn? || pc.CloseDeleteConn? || pc.CloseDeleteClient? || pc.CloseUnlock? ||
    pc.CloseDone? || pc.AllLock? || pc.AllLoop? || pc.AllResetConns? || pc.AllResetClients? || pc.AllUnlock? ||
    pc.AllDone?
  }

  ghost predicate CloseOk(s: State, t: Thread) {
    var pc := PcOf(s, t);
    && (InClose(pc) ==> pc.since <= |s.log|)
    && (pc.CloseUnlock? || pc.CloseDone? ==> Recorded(s.log, s.closed, s.refused, pc.node, pc.since, pc.outcome))
    && (pc.AllUnlock? || pc.AllDone? ==> Cleared(s.log, s.closed, pc.since, pc.at))
  }

  ghost predicate Closings(s: State) {
    Closing(s) && forall t :: CloseOk(s, t)
  }

  /** No client enters the cache twice. */
  predicate InsertedOnce(log: seq<Atomic>) {
    forall i, j :: 0 <= i < j < |log| && log[i].Insert? && log[j].Insert? ==> log[i].client != log[j].client
  }

  /** The connection that a thread is about to cache was never cached before. */
  ghost predicate FreshAt(pc: Pc, log: seq<Atomic>, dialed: set<Conn>) {
    && InsertedOnce(log)
    && (forall i :: 0 <= i < |log| && log[i].Insert? ==> log[i].client.conn in dialed)
    && (pc.GetPutConn? || pc.GetPutClient? ==>
          pc.conn in dialed && forall i :: 0 <= i < |log| && log[i].Insert? ==> log[i].client != Client(pc.conn))
  }

  ghost predicate Fresh(s: State) {
    FreshAt(WriterPc(s), s.log, s.dialed)
  }

  ghost predicate Inv(s: State) {
    Locks(s) && Maps(s) && Distinct(s) && NoLeak(s) && Stale(s) && Linear(s) && Closings(s) && Fresh(s)
  }

  /******* Every action keeps it *******/

  /** An action is the business of one thread, and the log only grows. */
  lemma OneThreadMoves(s: State, t: Thread, a: Action)
    requires Can(s, t, a)
    ensures forall u :: u != t ==> PcOf(Do(s, t, a), u) == PcOf(s, u)
    ensures forall u :: u != t ==> (u in Do(s, t, a).readers <==> u in s.readers)
    ensures s.log <= Do(s, t, a).log
  {
  }

  lemma MoverKeepsLocks(s: State, t: Thread, a: Action)
    requires Can(s, t, a) && LockOk(s, t) && (s.writer.Some? ==> s.readers == {})
    ensures LockOk(Do(s, t, a), t)
    ensures Do(s, t, a).writer.Some? ==> Do(s, t, a).readers == {}
    ensures s.writer != Some(t) && s.writer.Some? ==> Do(s, t, a).writer == s.writer
    ensures s.writer == Some(t) || s.writer == None ==> Do(s, t, a).writer in {Some(t), None}
  {
  }

  lemma ActionKeepsLocks(s: State, t: Thread, a: Action)
    requires Locks(s) && Can(s, t, a)
    ensures Locks(Do(s, t, a))
    ensures s.writer.Some? && s.writer != Some(t) ==> WriterPc(Do(s, t, a)) == WriterPc(s)
  {
    assert LockOk(s, t);
    OneThreadMoves(s, t, a);
    MoverKeepsLocks(s, t, a);
    forall u ensures LockOk(Do(s, t, a), u) {
      assert LockOk(s, u);
    }
  }

  /** Only the thread that holds the write lock, before or after the action, changes anything shared but the log. */
  lemma OthersChangeNothing(s: State, t: Thread, a: Action)
    requires Locks(s) && Can(s, t, a) && s.writer != Some(t) && Do(s, t, a).writer != Some(t)
    ensures var s' := Do(s, t, a);
      && s'.conns == s.conns && s'.clients == s.clients && s'.dialed == s.dialed
      && s'.closed == s.closed && s'.refused == s.refused && s'.writer == s.writer
      && WriterPc(s') == WriterPc(s)
  {
    assert LockOk(s, t);
  }

  function Critical(pc: Pc): Pc {
    if HoldsWrite(pc) then pc else Idle
  }

  lemma WriterIsMover(s: State, t: Thread, a: Action)
    requires Locks(s) && Can(s, t, a) && (s.writer == Some(t) || Do(s, t, a).writer == Some(t))
    ensures WriterPc(s) == Critical(PcOf(s, t)) && WriterPc(Do(s, t, a)) == Critical(PcOf(Do(s, t, a), t))
  {
    assert LockOk(s, t);
    MoverKeepsLocks(s, t, a);
  }

  lemma GetKeepsMaps(s: State, t: Thread, a: Action)
    requires MapsAt(Critical(PcOf(s, t)), s.conns, s.clients) && Can(s, t, a) && InGet(PcOf(s, t))
    ensures MapsAt(Critical(PcOf(Do(s, t, a), t)), Do(s, t, a).conns, Do(s, t, a).clients)
  {
  }

  predicate InCloseAll(pc: Pc) {
    pc.AllLock? || pc.AllLoop? || pc.AllResetConns? || pc.AllResetClients? || pc.AllUnlock? || pc.AllDone?
  }

  lemma CloseKeepsMaps(s: State, t: Thread, a: Action)
    requires MapsAt(Critical(PcOf(s, t)), s.conns, s.clients) && Can(s, t, a)
    requires !InGet(PcOf(s, t)) && !InCloseAll(PcOf(s, t))
    ensures MapsAt(Critical(PcOf(Do(s, t, a), t)), Do(s, t, a).conns, Do(s, t, a).clients)
  {
  }

  lemma CloseAllKeepsMaps(s: State, t: Thread, a: Action)
    requires MapsAt(Critical(PcOf(s, t)), s.conns, s.clients) && Can(s, t, a) && InCloseAll(PcOf(s, t))
    ensures MapsAt(Critical(PcOf(Do(s, t, a), t)), Do(s, t, a).conns, Do(s, t, a).clients)
  {
  }

  lemma ActionKeepsMaps(s: State, t: Thread, a: Action)
    requires Locks(s) && Maps(s) && Can(s, t, a)
    ensures Maps(Do(s, t, a))
  {
    if s.writer != Some(t) && Do(s, t, a).writer != Some(t) {
      OthersChangeNothing(s, t, a);
    } else {
      WriterIsMover(s, t, a);
      if InGet(PcOf(s, t)) {
        GetKeepsMaps(s, t, a);
      } else if InCloseAll(PcOf(s, t)) {
        CloseAllKeepsMaps(s, t, a);
      } else {
        CloseKeepsMaps(s, t, a);
      }
    }
  }

  lemma GetKeepsDistinct(s: State, t: Thread, a: Action)
    requires DistinctAt(Critical(PcOf(s, t)), s.conns, s.dialed, s.closed, s.refused)
    requires Can(s, t, a) && InGet(PcOf(s, t))
    ensures
      var s' := Do(s, t, a);
      DistinctAt(Critical(PcOf(s', t)), s'.conns, s'.dialed, s'.closed, s'.refused)
  {
  }

  lemma CloseKeepsDistinct(s: State, t: Thread, a: Action)
    requires DistinctAt(Critical(PcOf(s, t)), s.conns, s.dialed, s.closed, s.refused)
    requires MapsAt(Critical(PcOf(s, t)), s.conns, s.clients) && Can(s, t, a) && !InGet(PcOf(s, t))
    ensures
      var s' := Do(s, t, a);
      DistinctAt(Critical(PcOf(s', t)), s'.conns, s'.dialed, s'.closed, s'.refused)
  {
  }

  lemma ActionKeepsDistinct(s: State, t: Thread, a: Action)
    requires Locks(s) && Maps(s) && Distinct(s) && Can(s, t, a)
    ensures Distinct(Do(s, t, a))
  {
    if s.writer != Some(t) && Do(s, t, a).writer != Some(t) {
      OthersChangeNothing(s, t, a);
    } else {
      WriterIsMover(s, t, a);
      if InGet(PcOf(s, t)) {
        GetKeepsDistinct(s, t, a);
      } else {
        CloseKeepsDistinct(s, t, a);
      }
    }
  }

  lemma ActionKeepsNoLeak(s: State, t: Thread, a: Action)
    requires Locks(s) && Maps(s) && Distinct(s) && Stale(s) && NoLeak(s) && Can(s, t, a)
    ensures NoLeak(Do(s, t, a))
  {
    var s' := Do(s, t, a);
    if s.writer != Some(t) && s'.writer != Some(t) {
      OthersChangeNothing(s, t, a);
      assert forall c :: Cached(s, c) ==> Cached(s', c);
    } else {
      WriterIsMover(s, t, a);
      forall c | c in s'.dialed
        ensures Cached(s', c) || c in s'.closed || (WriterPc(s').GetPutConn? && WriterPc(s').conn == c)
      {
        if Cached(s, c) {
          var n :| n in s.conns && s.conns[n] == c;
          assert n in s'.conns ==> s'.conns[n] == c;
        } else if PcOf(s, t).GetPutConn? && PcOf(s, t).conn == c {
          assert s'.conns[PcOf(s, t).node] == c;
        }
      }
    }
  }

  lemma GetKeepsStale(s: State, t: Thread, a: Action)
    requires Can(s, t, a) && InGet(PcOf(s, t))
    requires StaleAt(Critical(PcOf(s, t)), s.conns, s.closed, s.refused)
    requires forall n, m :: n in s.conns && m in s.conns && s.conns[n] == s.conns[m] ==> n == m
    requires PcOf(s, t).GetPutConn? ==> PcOf(s, t).conn !in s.closed
    ensures StaleAt(Critical(PcOf(Do(s, t, a), t)), Do(s, t, a).conns, Do(s, t, a).closed, Do(s, t, a).refused)
  {
  }

  lemma CloseKeepsStale(s: State, t: Thread, a: Action)
    requires MapsAt(Critical(PcOf(s, t)), s.conns, s.clients) && Can(s, t, a) && !InGet(PcOf(s, t))
    requires StaleAt(Critical(PcOf(s, t)), s.conns, s.closed, s.refused)
    requires forall n, m :: n in s.conns && m in s.conns && s.conns[n] == s.conns[m] ==> n == m
    ensures StaleAt(Critical(PcOf(Do(s, t, a), t)), Do(s, t, a).conns, Do(s, t, a).closed, Do(s, t, a).refused)
  {
  }

  lemma ActionKeepsStale(s: State, t: Thread, a: Action)
    requires Locks(s) && Maps(s) && Distinct(s) && Stale(s) && Can(s, t, a)
    ensures Stale(Do(s, t, a))
  {
    if s.writer != Some(t) && Do(s, t, a).writer != Some(t) {
      OthersChangeNothing(s, t, a);
    } else {
      WriterIsMover(s, t, a);
      if InGet(PcOf(s, t)) {
        GetKeepsStale(s, t, a);
      } else {
        CloseKeepsStale(s, t, a);
      }
    }
  }

  /** The clients map changes exactly as the atomic cache does. */
  lemma ActionIsAtomic(s: State, t: Thread, a: Action)
    requires LockOk(s, t) && Maps(s) && Can(s, t, a)
    ensures var s' := Do(s, t, a);
      || (s'.log == s.log && s'.clients == s.clients)
      || exists e :: s'.log == s.log + [e] && AtomicCan(s.clients, e) && s'.clients == AtomicDo(s.clients, e)
  {
    var s' := Do(s, t, a);
    if s'.log != s.log {
      assert s'.log == s.log + [s'.log[|s.log|]];
    }
  }

  lemma GetResult(s: State, t: Thread, a: Action)
    requires ResultOk(s, t) && Can(s, t, a) && InGet(PcOf(s, t)) && !IsCall(a)
    ensures ResultOk(Do(s, t, a), t)
  {
  }

  lemma NoResult(s: State, t: Thread, a: Action)
    requires Can(s, t, a) && (IsCall(a) || !InGet(PcOf(s, t)))
    ensures ResultOk(Do(s, t, a), t)
  {
  }

  lemma MoverResult(s: State, t: Thread, a: Action)
    requires ResultOk(s, t) && Can(s, t, a)
    ensures ResultOk(Do(s, t, a), t)
  {
    if InGet(PcOf(s, t)) && !IsCall(a) {
      GetResult(s, t, a);
    } else {
      NoResult(s, t, a);
    }
  }

  lemma ActionKeepsLinear(s: State, t: Thread, a: Action)
    requires Locks(s) && Maps(s) && Linear(s) && Can(s, t, a)
    ensures Linear(Do(s, t, a))
  {
    assert LockOk(s, t) && ResultOk(s, t);
    ActionIsAtomic(s, t, a);
    OneThreadMoves(s, t, a);
    MoverResult(s, t, a);
    var s' := Do(s, t, a);
    forall u ensures ResultOk(s', u) {
      assert ResultOk(s, u);
    }
    if s'.log != s.log {
      LogGrows(s.log, s'.log[|s.log|]);
    }
  }

  lemma ClosedGrows(s: State, t: Thread, a: Action)
    requires Can(s, t, a)
    ensures s.closed <= Do(s, t, a).closed && s.refused <= Do(s, t, a).refused && s.dialed <= Do(s, t, a).dialed
  {
  }

  lemma CloseKeepsClosing(s: State, t: Thread, a: Action)
    requires Can(s, t, a) && MapsAt(Critical(PcOf(s, t)), s.conns, s.clients)
    requires StaleAt(Critical(PcOf(s, t)), s.conns, s.closed, s.refused)
    requires ClosingAt(Critical(PcOf(s, t)), s.clients, s.closed)
    ensures ClosingAt(Critical(PcOf(Do(s, t, a), t)), Do(s, t, a).clients, Do(s, t, a).closed)
  {
  }

  lemma ActionKeepsClosing(s: State, t: Thread, a: Action)
    requires Locks(s) && Maps(s) && Stale(s) && Closing(s) && Can(s, t, a)
    ensures Closing(Do(s, t, a))
  {
    if s.writer != Some(t) && Do(s, t, a).writer != Some(t) {
      OthersChangeNothing(s, t, a);
    } else {
      WriterIsMover(s, t, a);
      CloseKeepsClosing(s, t, a);
    }
  }

  /** What was recorded stays so while the log and the closed connections grow. */
  lemma RecordStays(s: State, s': State, t: Thread)
    requires CloseOk(s, t) && s.log <= s'.log && s.closed <= s'.closed && s.refused <= s'.refused
    requires PcOf(s', t) == PcOf(s, t)
    ensures CloseOk(s', t)
  {
    var pc := PcOf(s, t);
    if pc.CloseUnlock? || pc.CloseDone? {
      assert s'.log[..pc.outcome.at] == s.log[..pc.outcome.at];
    } else if pc.AllUnlock? || pc.AllDone? {
      assert s'.log[..pc.at] == s.log[..pc.at];
    }
  }

  /** The thread that moves records what it did. */
  lemma CallRecords(s: State, t: Thread, a: Action)
    requires Can(s, t, a) && (IsCall(a) || InGet(PcOf(s, t)))
    ensures CloseOk(Do(s, t, a), t)
  {
  }

  lemma CloseRecords(s: State, t: Thread, a: Action)
    requires Can(s, t, a) && CloseOk(s, t) && Replay(s.log) == s.clients
    requires PcOf(s, t).CloseLock? || PcOf(s, t).CloseConn? || PcOf(s, t).CloseDeleteConn? ||
             PcOf(s, t).CloseDeleteClient? || PcOf(s, t).CloseUnlock?
    requires HoldsWrite(PcOf(s, t)) ==>
      MapsAt(PcOf(s, t), s.conns, s.clients) && ClosingAt(PcOf(s, t), s.clients, s.closed)
    ensures CloseOk(Do(s, t, a), t)
  {
    var s' := Do(s, t, a);
    assert s.log <= s'.log && s'.log[..|s.log|] == s.log;
    if PcOf(s, t).CloseUnlock? {
      assert s'.log == s.log;
    }
  }

  lemma CloseAllRecords(s: State, t: Thread, a: Action)
    requires Can(s, t, a) && CloseOk(s, t) && Replay(s.log) == s.clients
    requires PcOf(s, t).AllLock? || PcOf(s, t).AllLoop? || PcOf(s, t).AllResetConns? || PcOf(s, t).AllResetClients? ||
             PcOf(s, t).AllUnlock?
    requires PcOf(s, t).AllResetClients? ==> ClosingAt(PcOf(s, t), s.clients, s.closed)
    ensures CloseOk(Do(s, t, a), t)
  {
    var s' := Do(s, t, a);
    assert s.log <= s'.log && s'.log[..|s.log|] == s.log;
  }

  lemma MoverRecords(s: State, t: Thread, a: Action)
    requires Can(s, t, a) && CloseOk(s, t) && Replay(s.log) == s.clients
    requires HoldsWrite(PcOf(s, t)) ==>
      MapsAt(PcOf(s, t), s.conns, s.clients) && ClosingAt(PcOf(s, t), s.clients, s.closed)
    ensures CloseOk(Do(s, t, a), t)
  {
    var pc := PcOf(s, t);
    if IsCall(a) || InGet(pc) {
      CallRecords(s, t, a);
    } else if pc.AllLock? || pc.AllLoop? || pc.AllResetConns? || pc.AllResetClients? || pc.AllUnlock? {
      CloseAllRecords(s, t, a);
    } else {
      CloseRecords(s, t, a);
    }
  }

  lemma ActionKeepsClosings(s: State, t: Thread, a: Action)
    requires Locks(s) && Maps(s) && Stale(s) && Closings(s) && Replay(s.log) == s.clients && Can(s, t, a)
    ensures Closings(Do(s, t, a))
  {
    ActionKeepsClosing(s, t, a);
    OneThreadMoves(s, t, a);
    ClosedGrows(s, t, a);
    assert LockOk(s, t) && CloseOk(s, t);
    MoverRecords(s, t, a);
    forall u ensures CloseOk(Do(s, t, a), u) {
      if u != t {
        assert CloseOk(s, u);
        RecordStays(s, Do(s, t, a), u);
      }
    }
  }

  lemma InsertKeepsFresh(s: State, t: Thread, a: Action)
    requires Can(s, t, a) && FreshAt(Critical(PcOf(s, t)), s.log, s.dialed) && PcOf(s, t).GetPutClient?
    ensures FreshAt(Critical(PcOf(Do(s, t, a), t)), Do(s, t, a).log, Do(s, t, a).dialed)
  {
  }

  /** No other step of a thread logs an insert. */
  lemma OthersInsertNothing(s: State, t: Thread, a: Action)
    requires Can(s, t, a) && !PcOf(s, t).GetPutClient?
    ensures forall i :: |s.log| <= i < |Do(s, t, a).log| ==> !Do(s, t, a).log[i].Insert?
    ensures s.log <= Do(s, t, a).log && s.dialed <= Do(s, t, a).dialed
  {
  }

  /** What a thread is about to cache it has just dialed. */
  lemma PutsWhatItDialed(s: State, t: Thread, a: Action)
    requires Can(s, t, a) && !PcOf(s, t).GetPutClient?
    ensures
      var pc, pc' := PcOf(s, t), PcOf(Do(s, t, a), t);
      pc'.GetPutConn? || pc'.GetPutClient? ==>
        && pc'.conn in Do(s, t, a).dialed + (if pc.GetPutConn? then {pc.conn} else {})
        && (pc'.conn !in s.dialed || (pc.GetPutConn? && pc.conn == pc'.conn))
  {
  }

  lemma MoverKeepsFresh(s: State, t: Thread, a: Action)
    requires Can(s, t, a) && FreshAt(Critical(PcOf(s, t)), s.log, s.dialed)
    ensures FreshAt(Critical(PcOf(Do(s, t, a), t)), Do(s, t, a).log, Do(s, t, a).dialed)
  {
    if PcOf(s, t).GetPutClient? {
      InsertKeepsFresh(s, t, a);
    } else {
      OthersInsertNothing(s, t, a);
      PutsWhatItDialed(s, t, a);
    }
  }

  lemma ActionKeepsFresh(s: State, t: Thread, a: Action)
    requires Locks(s) && Fresh(s) && Can(s, t, a)
    ensures Fresh(Do(s, t, a))
  {
    if s.writer != Some(t) && Do(s, t, a).writer != Some(t) {
      OthersChangeNothing(s, t, a);
      assert LockOk(s, t);
      OthersInsertNothing(s, t, a);
    } else {
      WriterIsMover(s, t, a);
      MoverKeepsFresh(s, t, a);
    }
  }

  lemma ActionKeepsInv(s: State, t: Thread, a: Action)
    requires Inv(s) && Can(s, t, a)
    ensures Inv(Do(s, t, a))
  {
    ActionKeepsLocks(s, t, a);
    ActionKeepsMaps(s, t, a);
    ActionKeepsDistinct(s, t, a);
    ActionKeepsNoLeak(s, t, a);
    ActionKeepsStale(s, t, a);
    ActionKeepsLinear(s, t, a);
    ActionKeepsClosings(s, t, a);
    ActionKeepsFresh(s, t, a);
  }

  /** Any interleaving of any number of calls keeps the invariant. */
  lemma {:induction false} InterleavingKeepsInv(s: State, run: seq<(Thread, Action)>)
    requires Inv(s) && CanRun(s, run)
    ensures Inv(Run(s, run))
    decreases |run|
  {
    if run != [] {
      ActionKeepsInv(s, run[0].0, run[0].1);
      InterleavingKeepsInv(Do(s, run[0].0, run[0].1), run[1..]);
    }
  }

  lemma StartInv(s: State)
    requires Start(s)
    ensures Inv(s)
  {
    assert forall t :: LockOk(s, t) && ResultOk(s, t) && CloseOk(s, t);
  }

  /******* What callers may rely on *******/

  /**
   Outside the critical section the maps are in step and nothing is lost: each connection dialed is cached
   under one node, or closed; and a cached one is closed if and only if CloseConnection got an error from its Close.
   */
  lemma BetweenCalls(start: State, run: seq<(Thread, Action)>)
    requires Start(start) && CanRun(start, run) && Run(start, run).writer == None
    ensures var s := Run(start, run);
      && InStep(s.conns, s.clients)
      && (forall n, m :: n in s.conns && m in s.conns && s.conns[n] == s.conns[m] ==> n == m)
      && (forall c :: c in s.dialed ==> Cached(s, c) || c in s.closed)
      && (forall n :: n in s.conns ==> (s.conns[n] in s.closed <==> s.conns[n] in s.refused))
  {
    StartInv(start);
    InterleavingKeepsInv(start, run);
  }

  /** Some interleaving leads from start to s. */
  ghost predicate Reaches(start: State, s: State) {
    exists run :: CanRun(start, run) && Run(start, run) == s
  }

  lemma {:induction false} RunSnoc(start: State, run: seq<(Thread, Action)>, t: Thread, a: Action)
    requires CanRun(start, run) && Can(Run(start, run), t, a)
    ensures CanRun(start, run + [(t, a)]) && Run(start, run + [(t, a)]) == Do(Run(start, run), t, a)
    decreases |run|
  {
    var longer := run + [(t, a)];
    if run == [] {
      assert longer[1..] == [];
    } else {
      RunSnoc(Do(start, run[0].0, run[0].1), run[1..], t, a);
      assert longer[1..] == run[1..] + [(t, a)];
    }
  }

  lemma ReachesNext(start: State, s: State, t: Thread, a: Action) returns (s': State)
    requires Reaches(start, s) && Can(s, t, a)
    ensures s' == Do(s, t, a) && Reaches(start, s')
  {
    var run :| CanRun(start, run) && Run(start, run) == s;
    RunSnoc(start, run, t, a);
    s' := Do(s, t, a);
    assert Run(start, run + [(t, a)]) == s';
  }

  /** Where thread 0 is, what is cached and what was closed or refused, while no other thread runs. */
  ghost predicate Alone(s: State, pc: Pc, conns: map<Node, Conn>, clients: map<Node, Client>, closed: set<Conn>,
                        refused: set<Conn>)
  {
    && PcOf(s, 0) == pc
    && s.conns == conns
    && s.clients == clients
    && s.closed == closed
    && s.refused == refused
    && s.readers == {}
    && s.writer == (if HoldsWrite(pc) then Some(0) else None)
  }

  lemma ReadRun(start: State, node: Node) returns (s: State)
    requires Start(start)
    ensures Reaches(start, s) && PcOf(s, 0) == GetRUnlock(node, 0, None) && s.writer == None && s.readers == {0}
    ensures s.conns == map[] && s.clients == map[] && s.closed == {} && s.refused == {} && s.dialed == {}
  {
    assert CanRun(start, []) && Run(start, []) == start;
    s := ReachesNext(start, start, 0, CallGet(node));
    s := ReachesNext(start, s, 0, Advance);
    s := ReachesNext(start, s, 0, Advance);
  }

  lemma MissedRun(start: State, node: Node) returns (s: State)
    requires Start(start)
    ensures Reaches(start, s) && Alone(s, GetLock(node, 0), map[], map[], {}, {}) && s.dialed == {}
  {
    s := ReadRun(start, node);
    s := ReachesNext(start, s, 0, Advance);
    s := ReachesNext(start, s, 0, Advance);
  }

  lemma DialedRun(start: State, node: Node, conn: Conn) returns (s: State)
    requires Start(start)
    ensures Reaches(start, s) && Alone(s, GetPutConn(node, 0, conn), map[], map[], {}, {})
  {
    s := MissedRun(start, node);
    s := ReachesNext(start, s, 0, Advance);
    s := ReachesNext(start, s, 0, Advance);
    s := ReachesNext(start, s, 0, Dial(conn));
  }

  lemma CachedRun(start: State, node: Node, conn: Conn) returns (s: State)
    requires Start(start)
    ensures Reaches(start, s) && PcOf(s, 0).GetDone?
    ensures Alone(s, PcOf(s, 0), map[node := conn], map[node := Client(conn)], {}, {})
  {
    s := DialedRun(start, node, conn);
    s := ReachesNext(start, s, 0, Advance);
    s := ReachesNext(start, s, 0, Advance);
    s := ReachesNext(start, s, 0, Advance);
  }

  /** A node is dialed, its Close fails, and between calls the closed connection is still in the cache. */
  lemma RefusedStaysCached(start: State, node: Node, conn: Conn) returns (s: State)
    requires Start(start)
    ensures Reaches(start, s) && s.writer == None && PcOf(s, 0).CloseDone? && PcOf(s, 0).outcome.Refused?
    ensures s.conns == map[node := conn] && s.clients == map[node := Client(conn)] && conn in s.closed
  {
    s := CachedRun(start, node, conn);
    s := ReachesNext(start, s, 0, CallClose(node));
    s := ReachesNext(start, s, 0, Advance);
    s := ReachesNext(start, s, 0, CloseFails);
    s := ReachesNext(start, s, 0, Advance);
  }

  /** A cached entry stays what it is until it is removed. */
  lemma NothingOverwritten(s: State, t: Thread, a: Action)
    requires Inv(s) && Can(s, t, a)
    ensures forall n :: n in s.conns && n in Do(s, t, a).conns ==> Do(s, t, a).conns[n] == s.conns[n]
    ensures forall n :: n in s.clients && n in Do(s, t, a).clients ==> Do(s, t, a).clients[n] == s.clients[n]
  {
    assert LockOk(s, t);
  }

  predicate Closes(e: Atomic, node: Node) {
    e.Clear? || (e.Remove? && e.node == node)
  }

  lemma {:induction false} ServedStays(log: seq<Atomic>, i: nat, node: Node, client: Client)
    requires Legal(log) && i < |log| && Serves(log[i], node, client)
    requires forall k :: i < k < |log| ==> !Closes(log[k], node)
    ensures node in Replay(log) && Replay(log)[node] == client
  {
    var last := |log| - 1;
    if i < last {
      ServedStays(log[..last], i, node, client);
    }
  }

  lemma {:induction false} LegalPrefix(log: seq<Atomic>, n: nat)
    requires Legal(log) && n <= |log|
    ensures Legal(log[..n])
  {
    if n < |log| {
      LegalPrefix(log[..|log| - 1], n);
      assert log[..|log| - 1][..n] == log[..n];
    } else {
      assert log[..n] == log;
    }
  }

  /**
   Any two answers for one node in the log, with no close of the node between them, are the same client, and the
   second is a hit.
   */
  lemma ServedAgree(log: seq<Atomic>, i: nat, j: nat, node: Node, c: Client, d: Client)
    requires Legal(log) && i < j < |log| && Serves(log[i], node, c) && Serves(log[j], node, d)
    requires forall k :: i < k < j ==> !Closes(log[k], node)
    ensures c == d && log[j].Hit?
  {
    LegalPrefix(log, j + 1);
    var upTo := log[..j + 1];
    assert upTo[..|upTo| - 1] == log[..j];
    ServedStays(log[..j], i, node, c);
  }

  /**
   Two calls for one node, finished in any threads of any interleaving, return the same client unless
   the node was closed between the points where they took effect; and each point lies within its call.
   */
  lemma SameClient(s: State, t: Thread, u: Thread)
    requires Inv(s)
    requires PcOf(s, t).GetDone? && PcOf(s, t).result.Served?
    requires PcOf(s, u).GetDone? && PcOf(s, u).result.Served?
    requires PcOf(s, t).node == PcOf(s, u).node && PcOf(s, t).result.at < PcOf(s, u).result.at
    requires
      forall k ::
        PcOf(s, t).result.at < k < PcOf(s, u).result.at && k < |s.log| ==> !Closes(s.log[k], PcOf(s, t).node)
    ensures PcOf(s, t).result.client == PcOf(s, u).result.client
    ensures PcOf(s, u).since <= PcOf(s, u).result.at < |s.log|
    ensures s.log[PcOf(s, u).result.at] == Hit(u, PcOf(s, u).node, PcOf(s, u).result.client)
  {
    var p, q := PcOf(s, t), PcOf(s, u);
    assert ResultOk(s, t) && ResultOk(s, u);
    ServedAgree(s.log, p.result.at, q.result.at, p.node, p.result.client, q.result.client);
  }

  lemma {:induction false} RunGrowsLog(s: State, run: seq<(Thread, Action)>)
    requires CanRun(s, run)
    ensures s.log <= Run(s, run).log
    decreases |run|
  {
    if run != [] {
      OneThreadMoves(s, run[0].0, run[0].1);
      RunGrowsLog(Do(s, run[0].0, run[0].1), run[1..]);
    }
  }

  /** The thread's call has returned this client, which it took from the cache at this point of the log. */
  predicate Returned(s: State, t: Thread, node: Node, client: Client, at: nat) {
    PcOf(s, t).GetDone? && PcOf(s, t).node == node && PcOf(s, t).result == Served(client, at)
  }

  /**
   Any two results given along a run, at any two moments and by the same thread or different ones, are the
   same client unless the node was closed between the points where they took effect, in whichever order.
   */
  lemma SameClientInRun(start: State, first: seq<(Thread, Action)>, second: seq<(Thread, Action)>, t: Thread, u: Thread,
                        node: Node, c: Client, i: nat, d: Client, j: nat)
    requires Start(start) && CanRun(start, first) && CanRun(Run(start, first), second)
    requires Returned(Run(start, first), t, node, c, i) && Returned(Run(Run(start, first), second), u, node, d, j)
    ensures
      var log := Run(Run(start, first), second).log;
      && i < |log|
      && j < |log|
      && ((forall k :: (i < k < j || j < k < i) ==> !Closes(log[k], node)) ==> c == d)
  {
    var s := Run(start, first);
    var s' := Run(s, second);
    StartInv(start);
    InterleavingKeepsInv(start, first);
    InterleavingKeepsInv(s, second);
    RunGrowsLog(s, second);
    assert ResultOk(s, t) && ResultOk(s', u);
    assert s'.log[i] == s.log[i];
    if forall k :: (i < k < j || j < k < i) ==> !Closes(s'.log[k], node) {
      if i < j {
        ServedAgree(s'.log, i, j, node, c, d);
      } else if j < i {
        ServedAgree(s'.log, j, i, node, d, c);
      }
    }
  }

  /******* The same calls, one at a time, on the object itself *******/

  datatype NodeInfo = NodeInfo(id: Node, endpoint: string)

  /** First match of an id. */
  ghost predicate FirstMatch(nodes: seq<NodeInfo>, id: Node, found: Option<NodeInfo>) {
    match found
    case None => forall k :: 0 <= k < |nodes| ==> nodes[k].id != id
    case Some(n) =>
      exists k :: 0 <= k < |nodes| && nodes[k] == n && n.id == id && forall j :: 0 <= j < k ==> nodes[j].id != id
  }

  /**
   The unlocked lookup: the database, else the participants, else the coordinators that discovery lists.
   A discovery error matters only when it came with no nodes, and then there is nothing to search.
   */
  method LookupNode(nodeId: Node, database: Option<NodeInfo>, discovery: Option<seq<seq<NodeInfo>>>)
    returns (info: Option<NodeInfo>)
    ensures database.Some? ==> info == database
    ensures database.None? && discovery.None? ==> info.None?
    ensures database.None? && discovery.Some? ==>
      if info.None? then forall k :: 0 <= k < |discovery.value| ==> FirstMatch(discovery.value[k], nodeId, None)
      else exists k :: 0 <= k < |discovery.value| && FirstMatch(discovery.value[k], nodeId, info)
             && forall j :: 0 <= j < k ==> FirstMatch(discovery.value[j], nodeId, None)
  {
    info := database;
    if info.None? && discovery.Some? {
      var lists := discovery.value;
      for k := 0 to |lists|
        invariant info.None? && forall j :: 0 <= j < k ==> FirstMatch(lists[j], nodeId, None)
      {
        var nodes := lists[k];
        if |nodes| == 0 {
          continue;
        }
        for i := 0 to |nodes|
          invariant info.None? && forall j :: 0 <= j < i ==> nodes[j].id != nodeId
        {
          if nodes[i].id == nodeId {
            info := Some(nodes[i]);
            break;
          }
        }
        if info.Some? {
          break;
        }
      }
    }
  }

  class GrpcClient {
    var conns: map<Node, Conn>
    var clients: map<Node, Client>
    ghost var closed: set<Conn>

    constructor ()
      ensures conns == map[] && clients == map[] && closed == {}
    {
      conns, clients, closed := map[], map[], {};
    }

    ghost predicate Valid()
      reads this
    {
      InStep(conns, clients)
    }

    /** The locked half of getOrCreateConnection: check again, else dial and store in both maps. */
    method GetOrDial(node: Node, dialed: Option<Conn>, ghost thread: Thread) returns (client: Option<Client>)
      requires Valid()
      modifies this`conns, this`clients
      ensures Valid()
      ensures node in old(clients) ==>
        client == Some(old(clients)[node]) && clients == old(clients) && conns == old(conns)
      ensures node !in old(clients) && dialed.Some? ==>
        client == Some(Client(dialed.value))
        && clients == AtomicDo(old(clients), Insert(thread, node, Client(dialed.value)))
        && conns == old(conns)[node := dialed.value]
      ensures node !in old(clients) && dialed.None? ==> client == None && clients == old(clients) && conns == old(conns)
    {
      if node in clients {
        return Some(clients[node]);
      }
      if dialed.None? {
        return None;
      }
      var created := Client(dialed.value);
      conns := conns[node := dialed.value];
      clients := clients[node := created];
      return Some(created);
    }

    /** A cached client, or else a new one when the node is known and the dial succeeds. */
    method GetOrCreateConnection(node: Node, database: Option<NodeInfo>, discovery: Option<seq<seq<NodeInfo>>>,
                                 dialed: Option<Conn>, ghost thread: Thread)
      returns (client: Option<Client>)
      requires Valid()
      modifies this`conns, this`clients
      ensures Valid()
      ensures node in old(clients) ==> client == Some(old(clients)[node])
      ensures client.Some? ==> AtomicCan(old(clients),
        if node in old(clients) then Hit(thread, node, client.value) else Insert(thread, node, client.value))
      ensures client.Some? ==> clients == AtomicDo(old(clients),
        if node in old(clients) then Hit(thread, node, client.value) else Insert(thread, node, client.value))
      ensures client.None? ==> clients == old(clients) && conns == old(conns)
      ensures client.None? && database.Some? ==> dialed.None?
    {
      if node in clients {
        return Some(clients[node]);
      }
      var info := LookupNode(node, database, discovery);
      if info.None? {
        return None;
      }
      client := GetOrDial(node, dialed, thread);
    }

    /** Removes the node unless its Close fails; then the closed connection stays cached. */
    method CloseConnection(node: Node, closeFails: bool) returns (ok: bool)
      requires Valid()
      modifies this
      ensures Valid()
      ensures ok <==> !(node in old(conns) && closeFails)
      ensures clients == if ok then AtomicDo(old(clients), Remove(node)) else old(clients)
      ensures closed == old(closed) + if node in old(conns) then {old(conns)[node]} else {}
    {
      if node in conns {
        closed := closed + {conns[node]};
        if closeFails {
          return false;
        }
        conns := conns - {node};
        clients := clients - {node};
      }
      return true;
    }

    /** Calls Close on every cached connection, whatever fails, and empties the cache. */
    method Close(failing: set<Conn>) returns (ok: bool)
      requires Valid()
      modifies this
      ensures Valid() && conns == map[] && clients == AtomicDo(old(clients), Clear)
      ensures forall n :: n in old(conns) ==> old(conns)[n] in closed
      ensures forall c :: c in closed ==> c in old(closed) || exists n :: n in old(conns) && old(conns)[n] == c
      ensures ok <==> forall n :: n in old(conns) ==> old(conns)[n] !in failing
    {
      ok := true;
      var left := conns.Keys;
      while left != {}
        invariant left <= conns.Keys && conns == old(conns)
        invariant forall n :: n in conns && n !in left ==> conns[n] in closed
        invariant forall c :: c in closed ==> c in old(closed) || exists n :: n in conns && conns[n] == c
        invariant ok <==> forall n :: n in conns && n !in left ==> conns[n] !in failing
        decreases left
      {
        var n :| n in left;
        if conns[n] in failing {
          ok := false;
        }
        closed := closed + {conns[n]};
        left := left - {n};
      }
      conns := map[];
      clients := map[];
    }
  }
}
