/**
 What the calls on the gRPC connection cache (internal/mpc/grpc/client.go) come to in every interleaving: what
 closing does, when a call fails, and that every call comes to an end.
 */
module ConnectionCalls {
  import opened Wrappers
  import opened ConnectionCache

  /******* What closing does *******/

  /**
   A finished CloseConnection took effect at a point within its call: there the node was not cached, or it was
   removed and its connection is closed, or its Close failed.
   */
  lemma CloseTookEffect(start: State, run: seq<(Thread, Action)>, t: Thread)
    requires Start(start) && CanRun(start, run) && PcOf(Run(start, run), t).CloseDone?
    ensures
      var s := Run(start, run);
      var pc := PcOf(s, t);
      && Recorded(s.log, s.closed, s.refused, pc.node, pc.since, pc.outcome)
      && (pc.outcome.Refused? <==> Met(run, t, true))
  {
    StartInv(start);
    InterleavingKeepsInv(start, run);
    assert CloseOk(Run(start, run), t);
    FailureExactly(start, run, t, true);
  }

  /** A finished Close emptied the cache at a point within its call, and everything it emptied is closed. */
  lemma CloseAllTookEffect(start: State, run: seq<(Thread, Action)>, t: Thread)
    requires Start(start) && CanRun(start, run) && PcOf(Run(start, run), t).AllDone?
    ensures
      var end := Run(start, run);
      Cleared(end.log, end.closed, PcOf(end, t).since, PcOf(end, t).at)
  {
    StartInv(start);
    InterleavingKeepsInv(start, run);
    assert CloseOk(Run(start, run), t);
  }

  /** Was the client inserted? */
  ghost predicate Inserted(log: seq<Atomic>, node: Node, client: Client) {
    exists i :: 0 <= i < |log| && log[i].Insert? && log[i].node == node && log[i].client == client
  }

  lemma {:induction false} CachedWasInserted(log: seq<Atomic>, node: Node)
    requires node in Replay(log)
    ensures Inserted(log, node, Replay(log)[node])
  {
    var last := |log| - 1;
    var front := log[..last];
    if log[last].Insert? && log[last].node == node {
      assert log[last].client == Replay(log)[node];
    } else {
      CachedWasInserted(front, node);
      var i :| 0 <= i < |front| && front[i].Insert? && front[i].node == node && front[i].client == Replay(front)[node];
      assert log[i] == front[i];
    }
  }

  ghost predicate NotCached(cache: map<Node, Client>, client: Client) {
    forall n :: n in cache ==> cache[n] != client
  }

  /** A client that was inserted and has left the cache never comes back to it. */
  lemma {:induction false} GoneStaysGone(log: seq<Atomic>, i: nat, node: Node, client: Client)
    requires InsertedOnce(log) && i <= |log| && Inserted(log[..i], node, client)
    requires NotCached(Replay(log[..i]), client)
    ensures NotCached(Replay(log), client)
    decreases |log|
  {
    if i < |log| {
      var last := |log| - 1;
      var k :| 0 <= k < i && log[..i][k].Insert? && log[..i][k].client == client;
      assert log[k] == log[..i][k];
      assert log[..last][..i] == log[..i];
      GoneStaysGone(log[..last], i, node, client);
    } else {
      assert log[..i] == log;
    }
  }

  /** A client is cached under one node at most. */
  lemma CachedUnderOne(log: seq<Atomic>, n: Node, m: Node)
    requires InsertedOnce(log) && n in Replay(log) && m in Replay(log) && Replay(log)[n] == Replay(log)[m]
    ensures n == m
  {
    CachedWasInserted(log, n);
    CachedWasInserted(log, m);
    var i :| 0 <= i < |log| && log[i].Insert? && log[i].node == n && log[i].client == Replay(log)[n];
    var j :| 0 <= j < |log| && log[j].Insert? && log[j].node == m && log[j].client == Replay(log)[m];
  }

  /** The entry of a node that is closed leaves the cache. */
  lemma ClosedLeaves(before: seq<Atomic>, e: Atomic, node: Node)
    requires InsertedOnce(before) && Closes(e, node) && node in Replay(before)
    ensures Inserted(before + [e], node, Replay(before)[node])
    ensures NotCached(Replay(before + [e]), Replay(before)[node])
  {
    var client := Replay(before)[node];
    LogGrows(before, e);
    CachedWasInserted(before, node);
    var k :| 0 <= k < |before| && before[k].Insert? && before[k].node == node && before[k].client == client;
    assert (before + [e])[k] == before[k];
    forall m | m in Replay(before) && m != node ensures Replay(before)[m] != client {
      if Replay(before)[m] == client {
        CachedUnderOne(before, node, m);
      }
    }
  }

  lemma AnswerIsCached(log: seq<Atomic>, j: nat, node: Node, client: Client)
    requires Legal(log) && j < |log| && Serves(log[j], node, client)
    ensures log[j].Insert? || (node in Replay(log[..j]) && Replay(log[..j])[node] == client)
  {
    LegalPrefix(log, j + 1);
    var upTo := log[..j + 1];
    assert upTo[..j] == log[..j] && upTo[j] == log[j];
  }

  lemma InsertIsNew(log: seq<Atomic>, i: nat, j: nat, node: Node, client: Client)
    requires InsertedOnce(log) && i <= j < |log| && Inserted(log[..i], node, client) && log[j].Insert?
    ensures log[j].client != client
  {
    var k :| 0 <= k < i && log[..i][k].Insert? && log[..i][k].client == client;
    assert log[k] == log[..i][k];
  }

  lemma NeverServedAfterClose(log: seq<Atomic>, i: nat, j: nat, node: Node, other: Node, client: Client)
    requires Legal(log) && InsertedOnce(log) && i < j < |log|
    requires Closes(log[i], node) && node in Replay(log[..i]) && Serves(log[j], other, client)
    ensures client != Replay(log[..i])[node]
  {
    var gone := Replay(log[..i])[node];
    assert log[..i + 1] == log[..i] + [log[i]];
    ClosedLeaves(log[..i], log[i], node);
    assert log[..j][..i + 1] == log[..i + 1];
    GoneStaysGone(log[..j], i + 1, node, gone);
    AnswerIsCached(log, j, other, client);
    if log[j].Insert? {
      InsertIsNew(log, i + 1, j, node, gone);
    }
  }

  /**
   A get that starts after a CloseConnection has removed a node never returns the client that was removed,
   for this node or any other.
   */
  lemma ClosedClientNotReturned(start: State, first: seq<(Thread, Action)>, second: seq<(Thread, Action)>,
                                t: Thread, u: Thread, node: Node, client: Client, j: nat)
    requires Start(start) && CanRun(start, first) && CanRun(Run(start, first), second)
    requires PcOf(Run(start, first), t).CloseDone? && PcOf(Run(start, first), t).outcome.Removed?
    requires Returned(Run(Run(start, first), second), u, node, client, j)
    requires PcOf(Run(Run(start, first), second), u).since >= |Run(start, first).log|
    ensures
      var pc := PcOf(Run(start, first), t);
      && pc.outcome.at < |Run(start, first).log|
      && var cache := Replay(Run(start, first).log[..pc.outcome.at]);
         && pc.node in cache
         && cache[pc.node] != client
         && cache[pc.node].conn in Run(start, first).closed
  {
    var s, s' := Run(start, first), Run(Run(start, first), second);
    StartInv(start);
    InterleavingKeepsInv(start, first);
    InterleavingKeepsInv(s, second);
    RunGrowsLog(s, second);
    assert CloseOk(s, t) && ResultOk(s', u);
    var i := PcOf(s, t).outcome.at;
    assert s'.log[i] == s.log[i] && s'.log[..i] == s.log[..i];
    NeverServedAfterClose(s'.log, i, j, PcOf(s, t).node, node, client);
  }

  /** Nor does a get that starts after a Close return any client that was cached when it emptied the cache. */
  lemma ClearedClientsNotReturned(start: State, first: seq<(Thread, Action)>, second: seq<(Thread, Action)>,
                                  t: Thread, u: Thread, node: Node, client: Client, j: nat)
    requires Start(start) && CanRun(start, first) && CanRun(Run(start, first), second)
    requires PcOf(Run(start, first), t).AllDone?
    requires Returned(Run(Run(start, first), second), u, node, client, j)
    requires PcOf(Run(Run(start, first), second), u).since >= |Run(start, first).log|
    ensures
      var at := PcOf(Run(start, first), t).at;
      at < |Run(start, first).log| && NotCached(Replay(Run(start, first).log[..at]), client)
  {
    var s, s' := Run(start, first), Run(Run(start, first), second);
    StartInv(start);
    InterleavingKeepsInv(start, first);
    InterleavingKeepsInv(s, second);
    RunGrowsLog(s, second);
    assert CloseOk(s, t) && ResultOk(s', u);
    var i := PcOf(s, t).at;
    assert s'.log[i] == s.log[i] && s'.log[..i] == s.log[..i];
    forall n | n in Replay(s.log[..i]) ensures Replay(s.log[..i])[n] != client {
      NeverServedAfterClose(s'.log, i, j, n, node, client);
    }
  }

  /** since is where the log stood when the call began: a call sets it, and the steps of the call keep it. */
  lemma SinceIsStart(s: State, t: Thread, a: Action)
    requires Can(s, t, a)
    ensures !PcOf(Do(s, t, a), t).Idle?
    ensures IsCall(a) ==> PcOf(Do(s, t, a), t).since == |s.log|
    ensures !IsCall(a) ==> !PcOf(s, t).Idle? && PcOf(Do(s, t, a), t).since == PcOf(s, t).since
  {
  }

  /******* Failures, progress *******/

  /** What makes a get fail, or a CloseConnection. */
  predicate Cause(a: Action, closing: bool) {
    if closing then a.CloseFails? else a.LookupFails? || a.DialFails?
  }

  predicate Failing(pc: Pc, closing: bool) {
    if closing then (pc.CloseUnlock? || pc.CloseDone?) && pc.outcome.Refused? else ResultOf(pc) == Some(Failed)
  }

  /** The thread met such a failure since it last began a call. */
  ghost predicate Met(run: seq<(Thread, Action)>, t: Thread, closing: bool) {
    exists k :: 0 <= k < |run| && MetAt(run, t, closing, k)
  }

  ghost predicate MetAt(run: seq<(Thread, Action)>, t: Thread, closing: bool, k: nat)
    requires k < |run|
  {
    && run[k].0 == t
    && Cause(run[k].1, closing)
    && forall j :: k < j < |run| && run[j].0 == t ==> !IsCall(run[j].1)
  }

  lemma MoverFails(s: State, t: Thread, a: Action, closing: bool)
    requires Can(s, t, a)
    ensures Failing(PcOf(Do(s, t, a), t), closing) <==>
      !IsCall(a) && (Cause(a, closing) || Failing(PcOf(s, t), closing))
  {
  }

  lemma {:induction false} RunLast(s: State, run: seq<(Thread, Action)>)
    requires CanRun(s, run) && run != []
    ensures
      var front, last := run[..|run| - 1], run[|run| - 1];
      CanRun(s, front) && Can(Run(s, front), last.0, last.1) && Run(s, run) == Do(Run(s, front), last.0, last.1)
    decreases |run|
  {
    if |run| > 1 {
      RunLast(Do(s, run[0].0, run[0].1), run[1..]);
      assert run[1..][..|run| - 2] == run[..|run| - 1][1..];
    } else {
      assert run[1..] == [] && run[..0] == [];
    }
  }

  lemma MetNext(front: seq<(Thread, Action)>, u: Thread, a: Action, t: Thread, closing: bool)
    ensures Met(front + [(u, a)], t, closing) <==>
      if u == t then !IsCall(a) && (Cause(a, closing) || Met(front, t, closing)) else Met(front, t, closing)
  {
    var run := front + [(u, a)];
    if Met(run, t, closing) {
      var k :| 0 <= k < |run| && MetAt(run, t, closing, k);
      if k < |front| {
        assert run[|front|] == (u, a);
        assert forall j :: k < j < |front| ==> run[j] == front[j];
        assert MetAt(front, t, closing, k);
      }
    }
    if u == t && !IsCall(a) && Cause(a, closing) {
      assert MetAt(run, t, closing, |front|);
    } else if Met(front, t, closing) && (u == t ==> !IsCall(a)) {
      var k :| 0 <= k < |front| && MetAt(front, t, closing, k);
      assert MetAt(run, t, closing, k);
    }
  }

  /** In every interleaving a call fails exactly if it met a failure itself: of the lookup, the dial, or the Close. */
  lemma {:induction false} FailureExactly(start: State, run: seq<(Thread, Action)>, t: Thread, closing: bool)
    requires Start(start) && CanRun(start, run)
    ensures Failing(PcOf(Run(start, run), t), closing) <==> Met(run, t, closing)
    decreases |run|
  {
    if run != [] {
      var front, last := run[..|run| - 1], run[|run| - 1];
      RunLast(start, run);
      FailureExactly(start, front, t, closing);
      assert run == front + [last];
      MetNext(front, last.0, last.1, t, closing);
      if last.0 == t {
        MoverFails(Run(start, front), t, last.1, closing);
      } else {
        OneThreadMoves(Run(start, front), last.0, last.1);
      }
    }
  }

  /** The thread has not found the node under the read lock, and will not return a client it saw there. */
  predicate SawMiss(pc: Pc) {
    || (pc.GetRUnlock? && !(pc.hit.Some? && pc.hit.value.Served?))
    || pc.GetLookup?
    || pc.GetLock?
    || pc.GetCheck?
    || pc.GetDial?
    || pc.GetPutConn?
    || pc.GetPutClient?
    || ((pc.GetUnlock? || pc.GetDone?) && pc.result == Failed)
  }

  /** The node was not cached at some point since. */
  ghost predicate Missing(log: seq<Atomic>, node: Node, since: nat) {
    exists k :: since <= k <= |log| && node !in Replay(log[..k])
  }

  lemma MissingStays(log: seq<Atomic>, log': seq<Atomic>, node: Node, since: nat)
    requires log <= log' && Missing(log, node, since)
    ensures Missing(log', node, since)
  {
    var k :| since <= k <= |log| && node !in Replay(log[..k]);
    assert log'[..k] == log[..k];
  }

  /** The miss was seen before, or is seen now, by the read of the map. */
  ghost predicate SeenBy(s: State, t: Thread, a: Action)
    requires Can(s, t, a) && InGet(PcOf(Do(s, t, a), t))
  {
    var pc, pc' := PcOf(s, t), PcOf(Do(s, t, a), t);
    && InGet(pc)
    && pc.node == pc'.node
    && pc.since == pc'.since
    && (SawMiss(pc) || (pc.GetRead? && pc.node !in s.clients && Do(s, t, a).log == s.log))
  }

  lemma ReadSeesMiss(s: State, t: Thread, a: Action)
    requires Can(s, t, a) && SawMiss(PcOf(Do(s, t, a), t)) && (PcOf(s, t).GetRead? || PcOf(s, t).GetRUnlock?)
    ensures SeenBy(s, t, a)
  {
  }

  lemma CloseSeesNothing(s: State, t: Thread, a: Action)
    requires Can(s, t, a) && !InGet(PcOf(s, t))
    ensures !SawMiss(PcOf(Do(s, t, a), t))
  {
  }

  lemma GetRemembers(s: State, t: Thread, a: Action)
    requires Can(s, t, a) && SawMiss(PcOf(Do(s, t, a), t)) && InGet(PcOf(s, t))
    requires !PcOf(s, t).GetRead? && !PcOf(s, t).GetRUnlock?
    ensures SeenBy(s, t, a)
  {
  }

  lemma OthersSawMiss(s: State, t: Thread, a: Action)
    requires Can(s, t, a) && SawMiss(PcOf(Do(s, t, a), t)) && !PcOf(s, t).GetRead? && !PcOf(s, t).GetRUnlock?
    ensures SeenBy(s, t, a)
  {
    if InGet(PcOf(s, t)) {
      GetRemembers(s, t, a);
    } else {
      CloseSeesNothing(s, t, a);
    }
  }

  lemma MissIsSeen(s: State, t: Thread, a: Action)
    requires Can(s, t, a) && SawMiss(PcOf(Do(s, t, a), t))
    ensures SeenBy(s, t, a)
  {
    if PcOf(s, t).GetRead? || PcOf(s, t).GetRUnlock? {
      ReadSeesMiss(s, t, a);
    } else {
      OthersSawMiss(s, t, a);
    }
  }

  /** A get that failed did not find the node cached at some point within its call: a cached client is always served. */
  lemma {:induction false} FailedGetMissed(start: State, run: seq<(Thread, Action)>, t: Thread)
    requires Start(start) && CanRun(start, run) && SawMiss(PcOf(Run(start, run), t))
    ensures Missing(Run(start, run).log, PcOf(Run(start, run), t).node, PcOf(Run(start, run), t).since)
    decreases |run|
  {
    if run != [] {
      var front, last := run[..|run| - 1], run[|run| - 1];
      RunLast(start, run);
      var s, s' := Run(start, front), Run(start, run);
      StartInv(start);
      InterleavingKeepsInv(start, front);
      OneThreadMoves(s, last.0, last.1);
      var pc := PcOf(s, t);
      if last.0 == t {
        MissIsSeen(s, t, last.1);
      }
      if SawMiss(pc) && pc.node == PcOf(s', t).node && pc.since == PcOf(s', t).since {
        FailedGetMissed(start, front, t);
        MissingStays(s.log, s'.log, pc.node, pc.since);
      } else {
        assert ResultOk(s, t);
        assert s.log[..|s.log|] == s.log;
      }
    }
  }

  predicate AtRest(pc: Pc) {
    pc.Idle? || pc.GetDone? || pc.CloseDone? || pc.AllDone?
  }

  /** No deadlock: while some call is under way, some thread can go on with its own. */
  lemma SomeoneCanMove(s: State, t: Thread) returns (u: Thread, a: Action)
    requires Inv(s) && !AtRest(PcOf(s, t))
    ensures Can(s, u, a) && !IsCall(a) && !AtRest(PcOf(s, u))
  {
    if s.writer.Some? {
      u := s.writer.value;
      assert LockOk(s, u);
      var pc := PcOf(s, u);
      if pc.GetDial? {
        a := DialFails;
      } else if pc.AllLoop? && pc.left != {} {
        var n :| n in pc.left;
        a := CloseOneOf(n);
      } else {
        a := Advance;
      }
    } else if s.readers != {} {
      u :| u in s.readers;
      assert LockOk(s, u);
      a := Advance;
    } else {
      u, a := t, Advance;
      assert LockOk(s, t);
    }
  }

  /** How far the thread still has to go. */
  function Phase(pc: Pc): nat {
    match pc
    case GetRLock(_, _) => 10
    case GetRead(_, _) => 9
    case GetRUnlock(_, _, _) => 8
    case GetLookup(_, _) => 7
    case GetLock(_, _) => 6
    case GetCheck(_, _) => 5
    case GetDial(_, _) => 4
    case GetPutConn(_, _, _) => 3
    case GetPutClient(_, _, _) => 2
    case GetUnlock(_, _, _) => 1
    case CloseLock(_, _) => 5
    case CloseConn(_, _) => 4
    case CloseDeleteConn(_, _) => 3
    case CloseDeleteClient(_, _) => 2
    case CloseUnlock(_, _, _) => 1
    case AllLock(_) => 5
    case AllLoop(_, _) => 4
    case AllResetConns(_) => 3
    case AllResetClients(_) => 2
    case AllUnlock(_, _) => 1
    case _ => 0
  }

  function Left(pc: Pc): nat {
    if pc.AllLoop? then |pc.left| else 0
  }

  predicate Nearer(pc: Pc, pc': Pc) {
    Phase(pc') < Phase(pc) || (Phase(pc') == Phase(pc) && Left(pc') < Left(pc))
  }

  lemma GetSteps(s: State, t: Thread, a: Action)
    requires Can(s, t, a) && !IsCall(a) && InGet(PcOf(s, t))
    ensures Nearer(PcOf(s, t), PcOf(Do(s, t, a), t))
  {
  }

  lemma CloseSteps(s: State, t: Thread, a: Action)
    requires Can(s, t, a) && !IsCall(a) && InClose(PcOf(s, t)) && !InCloseAll(PcOf(s, t))
    ensures Nearer(PcOf(s, t), PcOf(Do(s, t, a), t))
  {
  }

  lemma LoopSteps(s: State, t: Thread, a: Action)
    requires Can(s, t, a) && PcOf(s, t).AllLoop?
    ensures Nearer(PcOf(s, t), PcOf(Do(s, t, a), t))
  {
    var left := PcOf(s, t).left;
    if left != {} {
      assert left == (left - {a.node}) + {a.node};
    }
  }

  lemma CloseAllSteps(s: State, t: Thread, a: Action)
    requires Can(s, t, a) && !IsCall(a) && InCloseAll(PcOf(s, t)) && !PcOf(s, t).AllLoop?
    ensures Nearer(PcOf(s, t), PcOf(Do(s, t, a), t))
  {
  }

  /** Every step brings the thread nearer to the end of its call, so no call goes on for ever. */
  lemma StepsEnd(s: State, t: Thread, a: Action)
    requires Can(s, t, a) && !IsCall(a)
    ensures Nearer(PcOf(s, t), PcOf(Do(s, t, a), t)) && !AtRest(PcOf(s, t))
    ensures AtRest(PcOf(s, t)) <==> Phase(PcOf(s, t)) == 0
  {
    if InGet(PcOf(s, t)) {
      GetSteps(s, t, a);
    } else if PcOf(s, t).AllLoop? {
      LoopSteps(s, t, a);
    } else if InCloseAll(PcOf(s, t)) {
      CloseAllSteps(s, t, a);
    } else {
      CloseSteps(s, t, a);
    }
  }
}
