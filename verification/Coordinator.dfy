/**
 Creating a DKG session (internal/mpc/coordinator/service.go): the participants are given or discovered,
 a session is stored (internal/mpc/session/manager.go), and the first participant is told to start.
 The session store is a database table and a cache in front of it, each of which can fail.
 */
module Coordinator {
  import opened Wrappers
  import opened SortedStrings
  import opened NodeDiscovery
  import Discovery

  datatype Request = Request(
    keyId: string, algorithm: string, curve: string, protocol: string,
    threshold: int, totalNodes: int, nodeIds: seq<string>)

  datatype Status = Pending | Active | Completed | Cancelled

  datatype Session = Session(
    sessionId: string, keyId: string, protocol: string, status: Status,
    threshold: int, totalNodes: int, participatingNodes: seq<string>)

  /** The StartDKG message and the node that gets it. */
  datatype StartDKG = StartDKG(
    leader: string, sessionId: string, keyId: string, algorithm: string, curve: string,
    threshold: int, totalNodes: int, nodeIds: seq<string>)

  datatype Failure = DiscoveryFailed | Insufficient | NotSaved | NotVerified | NotNotified

  /** Sessions by id in the database and in the cache, and the StartDKG calls made, in order. */
  datatype State = State(db: map<string, Session>, cache: map<string, Session>, calls: seq<StartDKG>)

  const MAX_RETRIES := 3

  /** How the stores answer during one call. */
  datatype Env = Env(
    save1: bool, save2: bool, save3: bool,  // the attempts to save the session
    verify: bool,                           // reading it back
    cacheSave: bool,
    cacheRead: bool, dbRead: bool,          // while cancelling
    dbUpdate: bool, cacheUpdate: bool)

  function Saves(env: Env, attempt: int): bool {
    if attempt == 1 then env.save1 else if attempt == 2 then env.save2 else env.save3
  }

  /** int32(x): the low 32 bits, as a signed number. */
  function ToInt32(x: int): int {
    (x + 0x8000_0000) % 0x1_0000_0000 - 0x8000_0000
  }

  /******* What a call does *******/

  /** The participants: as given, or all those discovered, sorted. */
  function Participants(req: Request, discovered: Result<seq<Node>, Error>): Result<seq<string>, Failure> {
    if req.nodeIds != [] then Ok(req.nodeIds)
    else if discovered.Err? then Err(DiscoveryFailed)
    else if |discovered.value| < req.totalNodes then Err(Insufficient)
    else Ok(Sort(Ids(discovered.value)))
  }

  function NewSession(req: Request, defaultProtocol: string, nodeIds: seq<string>): Session {
    var protocol := if req.protocol == "" then defaultProtocol else req.protocol;
    Session(req.keyId, req.keyId, if protocol == "" then "keygen" else protocol, Pending,
            req.threshold, req.totalNodes, nodeIds)
  }

  function Message(req: Request, nodeIds: seq<string>): StartDKG
    requires nodeIds != []
  {
    StartDKG(nodeIds[0], req.keyId, req.keyId, req.algorithm, req.curve,
             ToInt32(req.threshold), ToInt32(req.totalNodes), nodeIds)
  }

  /** The session that CancelSession finds: from the cache if it answers and has one, else from the database. */
  function Lookup(s: State, id: string, env: Env): Option<Session> {
    if env.cacheRead && id in s.cache then Some(s.cache[id])
    else if env.dbRead && id in s.db then Some(s.db[id])
    else None
  }

  function Cancel(s: State, id: string, env: Env): State {
    var found := Lookup(s, id, env);
    if found.None? || !env.dbUpdate then s
    else
      var cancelled := found.value.(status := Cancelled);
      s.(db := if id in s.db then s.db[id := cancelled] else s.db,
         cache := if env.cacheUpdate then s.cache[id := cancelled] else s.cache)
  }

  function Create(s: State, req: Request, defaultProtocol: string, discovered: Result<seq<Node>, Error>, env: Env)
    : (State, Result<Session, Failure>)
  {
    var participants := Participants(req, discovered);
    if participants.Err? then (s, Err(participants.error))
    else
      var session := NewSession(req, defaultProtocol, participants.value);
      if !(env.save1 || env.save2 || env.save3) then (s, Err(NotSaved))
      else
        var saved := s.(db := s.db[session.sessionId := session]);
        if !env.verify then (saved, Err(NotVerified))
        else
          var cached := if env.cacheSave then saved.(cache := saved.cache[session.sessionId := session]) else saved;
          if participants.value == [] then (Cancel(cached, session.sessionId, env), Err(NotNotified))
          else (cached.(calls := cached.calls + [Message(req, participants.value)]), Ok(session))
  }

  /******* The service *******/

  class Service {
    var db: map<string, Session>
    var cache: map<string, Session>
    var calls: seq<StartDKG>
    const defaultProtocol: string

    constructor (defaultProtocol: string)
      ensures Contents() == State(map[], map[], []) && this.defaultProtocol == defaultProtocol
    {
      db, cache, calls, this.defaultProtocol := map[], map[], [], defaultProtocol;
    }

    ghost function Contents(): State
      reads this
    {
      State(db, cache, calls)
    }

    /** What the nested discovery returns is a parameter; NodeDiscovery says what that can be. */
    method CreateDKGSession(req: Request, discovered: Result<seq<Node>, Error>, env: Env)
      returns (r: Result<Session, Failure>)
      modifies this
      ensures (Contents(), r) == Create(old(Contents()), req, defaultProtocol, discovered, env)
    {
      var nodeIds: seq<string>;
      if |req.nodeIds| > 0 {
        nodeIds := req.nodeIds;
      } else {
        if discovered.Err? {
          return Err(DiscoveryFailed);
        }
        var participants := discovered.value;
        if |participants| < req.totalNodes {
          return Err(Insufficient);
        }
        nodeIds := [];
        for i := 0 to |participants|
          invariant nodeIds == Ids(participants)[..i]
        {
          nodeIds := nodeIds + [participants[i].nodeId];
        }
        assert nodeIds == Ids(participants);
        nodeIds := Sort(nodeIds);
      }
      var protocol := req.protocol;
      if protocol == "" {
        protocol := defaultProtocol;
      }
      var created := CreateKeyGenSession(req.keyId, protocol, req.threshold, req.totalNodes, nodeIds, env);
      if created.Err? {
        return created;
      }
      var notified := NotifyParticipantsForDKG(req, nodeIds);
      if !notified {
        CancelSession(created.value.sessionId, env);
        return Err(NotNotified);
      }
      return created;
    }

    /** Saving is tried three times; the session is read back; the cache may fail. */
    method CreateKeyGenSession(keyId: string, protocol: string, threshold: int, totalNodes: int,
                               nodeIds: seq<string>, env: Env)
      returns (r: Result<Session, Failure>)
      modifies this`db, this`cache
      ensures
        var p := if protocol == "" then "keygen" else protocol;
        var session := Session(keyId, keyId, p, Pending, threshold, totalNodes, nodeIds);
        var stored := env.save1 || env.save2 || env.save3;
        && db == (if stored then old(db)[keyId := session] else old(db))
        && cache == (if stored && env.verify && env.cacheSave then old(cache)[keyId := session] else old(cache))
        && r == if !stored then Err(NotSaved) else if !env.verify then Err(NotVerified) else Ok(session)
    {
      var session := Session(keyId, keyId, if protocol == "" then "keygen" else protocol, Pending,
                             threshold, totalNodes, nodeIds);
      var attempt := 1;
      var stored := false;
      while attempt <= MAX_RETRIES
        invariant 1 <= attempt <= MAX_RETRIES + 1
        invariant stored ==> db == old(db)[keyId := session] && (env.save1 || env.save2 || env.save3)
        invariant !stored ==> db == old(db) && forall a :: 1 <= a < attempt ==> !Saves(env, a)
        decreases MAX_RETRIES + 1 - attempt, !stored
      {
        if Saves(env, attempt) {
          db := db[keyId := session];
          stored := true;
          break;
        }
        attempt := attempt + 1;
      }
      assert !stored ==> !Saves(env, 1) && !Saves(env, 2) && !Saves(env, 3);
      if !stored {
        return Err(NotSaved);
      }
      if !env.verify {
        return Err(NotVerified);
      }
      if env.cacheSave {
        cache := cache[keyId := session];
      }
      return Ok(session);
    }

    /** The call itself runs in a goroutine; whether it succeeds is not looked at. */
    method NotifyParticipantsForDKG(req: Request, nodeIds: seq<string>) returns (ok: bool)
      modifies this`calls
      ensures ok <==> nodeIds != []
      ensures calls == if ok then old(calls) + [Message(req, nodeIds)] else old(calls)
    {
      if |nodeIds| == 0 {
        return false;
      }
      var leaderNodeId := nodeIds[0];
      calls := calls + [
        StartDKG(leaderNodeId, req.keyId, req.keyId, req.algorithm, req.curve,
                 ToInt32(req.threshold), ToInt32(req.totalNodes), nodeIds)];
      return true;
    }

    /** Its error is thrown away by the caller. An update of a row that is gone changes nothing. */
    method CancelSession(id: string, env: Env)
      modifies this`db, this`cache
      ensures Contents() == Cancel(old(Contents()), id, env)
    {
      var session: Session;
      if env.cacheRead && id in cache {
        session := cache[id];
      } else if env.dbRead && id in db {
        session := db[id];
      } else {
        return;
      }
      session := session.(status := Cancelled);
      if !env.dbUpdate {
        return;
      }
      if id in db {
        db := db[id := session];
      }
      if env.cacheUpdate {
        cache := cache[id := session];
      }
    }
  }

  /******* Order independence *******/

  lemma SameParticipants(req: Request, a: seq<Node>, b: seq<Node>)
    requires multiset(Ids(a)) == multiset(Ids(b))
    ensures Participants(req, Ok(a)) == Participants(req, Ok(b))
  {
    assert |a| == |multiset(Ids(a))| == |multiset(Ids(b))| == |b|;
    SortForgetsOrder(Ids(a), Ids(b));
  }

  /**
   Two discoveries of the same nodes, in whatever order, lead to the same state, the same session and
   the same StartDKG message to the same leader.
   */
  lemma OrderIndependent(s: State, req: Request, defaultProtocol: string, a: seq<Node>, b: seq<Node>, env: Env)
    requires multiset(Ids(a)) == multiset(Ids(b))
    ensures Create(s, req, defaultProtocol, Ok(a), env) == Create(s, req, defaultProtocol, Ok(b), env)
  {
    SameParticipants(req, a, b);
  }

  /** So the outcome depends on the database and the registry alone, not on the order of Go's map. */
  lemma DeterminedByStores(s: State, req: Request, defaultProtocol: string, rows: Option<seq<Node>>, configured: bool,
                           answer: Option<seq<Discovery.ServiceInfo>>,
                           a: Result<seq<Node>, Error>, b: Result<seq<Node>, Error>, env: Env)
    requires Discovered(rows, configured, answer, req.totalNodes, a)
    requires Discovered(rows, configured, answer, req.totalNodes, b)
    ensures Create(s, req, defaultProtocol, a, env) == Create(s, req, defaultProtocol, b, env)
  {
    DiscoveryUpToOrder(rows, configured, answer, req.totalNodes, a, b);
    if a.Ok? {
      OrderIndependent(s, req, defaultProtocol, a.value, b.value, env);
    }
  }

  /** Discovered participants are listed in order, and the leader is the least of them. */
  lemma LeaderIsLeast(s: State, req: Request, defaultProtocol: string, nodes: seq<Node>, env: Env, id: string)
    requires req.nodeIds == []
    requires Create(s, req, defaultProtocol, Ok(nodes), env).1.Ok? && id in Ids(nodes)
    ensures
      var (s', r) := Create(s, req, defaultProtocol, Ok(nodes), env);
      var call := s'.calls[|s.calls|];
      && s'.calls == s.calls + [call]
      && call.leader == call.nodeIds[0] == r.value.participatingNodes[0]
      && call.leader in Ids(nodes)
      && Le(call.leader, id)
      && Sorted(call.nodeIds)
      && multiset(call.nodeIds) == multiset(Ids(nodes))
      && |call.nodeIds| >= req.totalNodes
  {
    var sorted := Sort(Ids(nodes));
    SortSorts(Ids(nodes));
    assert id in multiset(sorted) && sorted[0] in multiset(sorted);
    LeastFirst(sorted, id);
    assert |multiset(sorted)| == |nodes|;
  }

  /******* What a successful call sends and stores *******/

  /** x fits into a signed 32-bit number. */
  predicate FitsInt32(x: int) {
    -0x8000_0000 <= x < 0x8000_0000
  }

  lemma Int32Keeps(x: int)
    ensures ToInt32(x) == x <==> FitsInt32(x)
    ensures FitsInt32(ToInt32(x)) && (ToInt32(x) - x) % 0x1_0000_0000 == 0
  {
  }

  /**
   A successful call sends the leader the request's key, algorithm, curve and participants, and its threshold and
   total as far as they fit into 32 bits; and stores and returns the session that the message speaks of.
   */
  lemma SendsWhatItStores(s: State, req: Request, defaultProtocol: string, discovered: Result<seq<Node>, Error>,
                          env: Env)
    requires Create(s, req, defaultProtocol, discovered, env).1.Ok?
    ensures
      var (s', r) := Create(s, req, defaultProtocol, discovered, env);
      && |s'.calls| == |s.calls| + 1
      && s'.calls[..|s.calls|] == s.calls
      && var call, session := s'.calls[|s.calls|], r.value;
         && call.keyId == call.sessionId == session.keyId == session.sessionId == req.keyId
         && call.algorithm == req.algorithm
         && call.curve == req.curve
         && (FitsInt32(req.threshold) ==> call.threshold == req.threshold)
         && (FitsInt32(req.totalNodes) ==> call.totalNodes == req.totalNodes)
         && session.threshold == req.threshold
         && session.totalNodes == req.totalNodes
         && call.nodeIds == session.participatingNodes != []
         && call.leader == call.nodeIds[0]
         && (req.nodeIds != [] ==> call.nodeIds == req.nodeIds)
         && session.status == Pending
         && session.protocol ==
            (if req.protocol != "" then req.protocol else if defaultProtocol != "" then defaultProtocol else "keygen")
         && s'.db == s.db[req.keyId := session]
         && s'.cache == (if env.cacheSave then s.cache[req.keyId := session] else s.cache)
  {
    Int32Keeps(req.threshold);
    Int32Keeps(req.totalNodes);
  }

  /** Each error has its one cause, in this order; only from the third on is anything stored. */
  lemma FailsExactly(s: State, req: Request, defaultProtocol: string, discovered: Result<seq<Node>, Error>, env: Env)
    ensures
      var (s', r) := Create(s, req, defaultProtocol, discovered, env);
      var given := req.nodeIds != [];
      var enough := given || (discovered.Ok? && |discovered.value| >= req.totalNodes);
      var saved := env.save1 || env.save2 || env.save3;
      && (r == Err(DiscoveryFailed) <==> !given && discovered.Err?)
      && (r == Err(Insufficient) <==> !given && discovered.Ok? && |discovered.value| < req.totalNodes)
      && (r == Err(NotSaved) <==> enough && !saved)
      && (r == Err(NotVerified) <==> enough && saved && !env.verify)
      && (r == Err(NotNotified) ==> enough && saved && env.verify)
      && (!enough || !saved ==> s' == s)
  {
  }

  /******* Sessions that are created but not returned *******/

  /** The session was saved under this key by the call. */
  predicate Stored(req: Request, discovered: Result<seq<Node>, Error>, env: Env) {
    Participants(req, discovered).Ok? && (env.save1 || env.save2 || env.save3)
  }

  /**
   A failed call leaves a pending session behind in the database if and only if it saved one and either
   reading it back failed, or there was nobody to notify and cancelling failed as well. In the first
   case CancelSession is not even called.
   */
  lemma LeftPending(s: State, req: Request, defaultProtocol: string, discovered: Result<seq<Node>, Error>, env: Env)
    requires Stored(req, discovered, env) && Create(s, req, defaultProtocol, discovered, env).1.Err?
    ensures
      var s' := Create(s, req, defaultProtocol, discovered, env).0;
      var found := env.dbRead || (env.cacheRead && (env.cacheSave || req.keyId in s.cache));
      && req.keyId in s'.db
      && (s'.db[req.keyId].status == Pending <==> !env.verify || !found || !env.dbUpdate)
      && (s'.db[req.keyId].status != Pending ==> s'.db[req.keyId].status == Cancelled)
  {
  }

  /** The session CancelSession goes by: a cached one, be it left from an earlier session of this key, or the stored. */
  function Cancellable(s: State, stored: Session, env: Env): Option<Session> {
    if env.cacheRead && env.cacheSave then Some(stored)
    else if env.cacheRead && stored.sessionId in s.cache then Some(s.cache[stored.sessionId])
    else if env.dbRead then Some(stored)
    else None
  }

  /**
   What a call that finds nobody to notify leaves under its key. The row is the session just stored, cancelled,
   except that a cache that could not be written may answer with an older session of the key, which then replaces
   it; and if cancelling fails, the row and the cache are as the creation left them.
   */
  lemma NotNotifiedLeaves(s: State, req: Request, defaultProtocol: string, discovered: Result<seq<Node>, Error>,
                          env: Env)
    requires Create(s, req, defaultProtocol, discovered, env).1 == Err(NotNotified)
    ensures
      var s' := Create(s, req, defaultProtocol, discovered, env).0;
      var protocol :=
        if req.protocol != "" then req.protocol else if defaultProtocol != "" then defaultProtocol else "keygen";
      var stored := Session(req.keyId, req.keyId, protocol, Pending, req.threshold, req.totalNodes, []);
      var found := Cancellable(s, stored, env);
      var cancelled := found.Some? && env.dbUpdate;
      && s'.db == s.db[req.keyId := if cancelled then found.value.(status := Cancelled) else stored]
      && s'.cache ==
         (if cancelled && env.cacheUpdate then s.cache[req.keyId := found.value.(status := Cancelled)]
          else if env.cacheSave then s.cache[req.keyId := stored]
          else s.cache)
      && s'.calls == s.calls
  {
  }

  /** There is nobody to notify only if no nodes were asked for and none were found. */
  lemma NobodyToNotify(s: State, req: Request, defaultProtocol: string, discovered: Result<seq<Node>, Error>, env: Env)
    ensures Create(s, req, defaultProtocol, discovered, env).1 == Err(NotNotified) <==>
      && Stored(req, discovered, env)
      && env.verify
      && req.nodeIds == []
      && req.totalNodes <= 0
      && discovered.Ok?
      && discovered.value == []
  {
    if req.nodeIds == [] && discovered.Ok? {
      assert |multiset(Sort(Ids(discovered.value)))| == |discovered.value|;
    }
  }

  /**
   One StartDKG call for each session returned, none for a failed call, and no session of another key is
   touched, whatever fails.
   */
  lemma OneCallPerSession(s: State, req: Request, defaultProtocol: string, discovered: Result<seq<Node>, Error>,
                          env: Env)
    ensures
      var (s', r) := Create(s, req, defaultProtocol, discovered, env);
      && (r.Ok? <==> |s'.calls| == |s.calls| + 1)
      && (r.Err? <==> s'.calls == s.calls)
      && (r.Ok? ==>
        && s'.db == s.db[req.keyId := r.value]
        && r.value.status == Pending
        && s'.calls[|s.calls|].nodeIds == r.value.participatingNodes
        && s'.calls[|s.calls|].sessionId == r.value.sessionId == req.keyId)
      && (forall id :: id != req.keyId ==>
        && (id in s'.db <==> id in s.db)
        && (id in s'.cache <==> id in s.cache)
        && (id in s.db ==> s'.db[id] == s.db[id])
        && (id in s.cache ==> s'.cache[id] == s.cache[id]))
  {
  }
}
