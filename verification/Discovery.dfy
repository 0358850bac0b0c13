/**
 Service discovery for MPC nodes (internal/mpc/discovery/service.go, consul.go). A node is registered
 under a name built from its type and id; discovery has only that name and the tags to get the id back.
 */
module Discovery {
  import opened Wrappers

  datatype ServiceInfo = ServiceInfo(
    id: string, name: string, address: string, port: int, tags: seq<string>, nodeType: string)

  type Registry = map<string, ServiceInfo>

  function ServiceId(nodeType: string, nodeId: string): string {
    "mpc-" + nodeType + "-" + nodeId
  }

  function ServiceName(nodeType: string): string {
    "mpc-" + nodeType
  }

  function TypeTag(nodeType: string): string {
    "node-type:" + nodeType
  }

  function IdTag(nodeId: string): string {
    "node-id:" + nodeId
  }

  /** What RegisterNode sends. */
  function Describe(nodeId: string, nodeType: string, address: string, port: int): ServiceInfo {
    ServiceInfo(ServiceId(nodeType, nodeId), ServiceName(nodeType), address, port,
                [TypeTag(nodeType), IdTag(nodeId), "protocol:v1"], nodeType)
  }

  /******* Names *******/

  /** strings.HasPrefix and strings.TrimPrefix. */
  predicate HasPrefix(s: string, prefix: string) {
    prefix <= s
  }

  function TrimPrefix(s: string, prefix: string): string {
    if HasPrefix(s, prefix) then s[|prefix|..] else s
  }

  /** Go's guard in extractNodeType asks for something after the prefix as well. */
  method ExtractNodeType(tags: seq<string>) returns (r: string)
    ensures r == TypeOf(tags)
  {
    for i := 0 to |tags|
      invariant TypeOf(tags) == TypeOf(tags[i..])
    {
      if |tags[i]| > 10 && tags[i][..10] == "node-type:" {
        return tags[i][10..];
      }
    }
    return "";
  }

  function TypeOf(tags: seq<string>): string {
    if tags == [] then ""
    else if |tags[0]| > 10 && tags[0][..10] == "node-type:" then tags[0][10..]
    else TypeOf(tags[1..])
  }

  /** The id in the first tag that carries one. */
  function TaggedId(tags: seq<string>): Option<string> {
    if tags == [] then None
    else if HasPrefix(tags[0], "node-id:") then Some(TrimPrefix(tags[0], "node-id:"))
    else TaggedId(tags[1..])
  }

  /** The id in a service id of one of the two known types; empty for any other. */
  function NamedId(serviceId: string): string {
    if HasPrefix(serviceId, "mpc-participant-") then TrimPrefix(serviceId, "mpc-participant-")
    else if HasPrefix(serviceId, "mpc-coordinator-") then TrimPrefix(serviceId, "mpc-coordinator-")
    else ""
  }

  function NodeIdOf(svc: ServiceInfo): string {
    if TaggedId(svc.tags).Some? then TaggedId(svc.tags).value else NamedId(svc.id)
  }

  method ExtractNodeID(svc: ServiceInfo) returns (r: string)
    ensures r == NodeIdOf(svc)
  {
    for i := 0 to |svc.tags|
      invariant TaggedId(svc.tags) == TaggedId(svc.tags[i..])
    {
      if HasPrefix(svc.tags[i], "node-id:") {
        return TrimPrefix(svc.tags[i], "node-id:");
      }
    }
    if HasPrefix(svc.id, "mpc-participant-") {
      return TrimPrefix(svc.id, "mpc-participant-");
    } else if HasPrefix(svc.id, "mpc-coordinator-") {
      return TrimPrefix(svc.id, "mpc-coordinator-");
    }
    return "";
  }

  lemma PrefixOfConcat(a: string, b: string)
    ensures HasPrefix(a + b, a) && TrimPrefix(a + b, a) == b
  {
  }

  /** The id and the type both come back from the tags, whatever they are. */
  lemma TagsRoundTrip(nodeId: string, nodeType: string, address: string, port: int)
    ensures NodeIdOf(Describe(nodeId, nodeType, address, port)) == nodeId
    ensures TypeOf(Describe(nodeId, nodeType, address, port).tags) == nodeType
  {
    var tags := Describe(nodeId, nodeType, address, port).tags;
    var typeTag, idTag, version := tags[0], tags[1], tags[2];
    assert typeTag[5] == 't' && idTag[5] == 'i' && version[0] == 'p';
    assert "node-id:"[5] == 'i' && "node-type:"[5] == 't' && "node-type:"[0] == 'n';
    PrefixOfConcat("node-id:", nodeId);
    PrefixOfConcat("node-type:", nodeType);
    assert TaggedId(tags) == TaggedId(tags[1..]);
    assert tags[1..][0] == idTag && tags[1..][1..] == [version];
    if nodeType == "" {
      assert |typeTag| == 10;
      assert |idTag| > 10 ==> idTag[..10][5] == 'i';
      assert |version| > 10 ==> version[..10][0] == 'p';
      assert TypeOf([version]) == "" && TypeOf(tags[1..]) == TypeOf([version]);
    }
  }

  /** A dash-free word is the first part of a dashed name exactly if it is the type or the type goes on with a dash. */
  lemma FirstPart(word: string, nodeType: string, nodeId: string)
    requires '-' !in word
    ensures HasPrefix(nodeType + "-" + nodeId, word + "-") <==> nodeType == word || HasPrefix(nodeType, word + "-")
    ensures HasPrefix(nodeType, word + "-") ==> |nodeType| > |word|
  {
    var name, front := nodeType + "-" + nodeId, word + "-";
    assert name[|nodeType|] == '-' && front[|word|] == '-';
    if HasPrefix(name, front) {
      assert forall i :: 0 <= i < |front| ==> name[i] == front[i];
      assert |nodeType| >= |word|;
      assert name[..|word|] == nodeType[..|word|] && front[..|word|] == word;
      assert nodeType[..|word|] == word;
      if |nodeType| > |word| {
        assert nodeType[..|word| + 1] == front;
      }
    }
  }

  /** What a service id keeps after the front of a known type is cut off. */
  lemma NameWithFront(known: string, nodeType: string, nodeId: string)
    requires '-' !in known
    ensures
      var name, front := ServiceId(nodeType, nodeId), "mpc-" + known + "-";
      && (HasPrefix(name, front) <==> nodeType == known || HasPrefix(nodeType, known + "-"))
      && (HasPrefix(name, front) ==> (TrimPrefix(name, front) == nodeId <==> nodeType == known))
  {
    var name, front := ServiceId(nodeType, nodeId), "mpc-" + known + "-";
    var name', front' := nodeType + "-" + nodeId, known + "-";
    FirstPart(known, nodeType, nodeId);
    assert name == "mpc-" + name' && front == "mpc-" + front';
    assert name[4..] == name' && front[4..] == front';
    if HasPrefix(name', front') {
      assert name == front + name'[|front'|..];
    }
  }

  /**
   Without an id tag only the service id is left. It gives the id back exactly for the two known types,
   and for the empty id of a type that does not itself begin like one of them.
   */
  lemma NameRoundTrip(nodeId: string, nodeType: string)
    ensures NamedId(ServiceId(nodeType, nodeId)) == nodeId <==>
      || nodeType == "participant"
      || nodeType == "coordinator"
      || (nodeId == "" && !HasPrefix(nodeType, "participant-") && !HasPrefix(nodeType, "coordinator-"))
  {
    NameWithFront("participant", nodeType, nodeId);
    NameWithFront("coordinator", nodeType, nodeId);
    assert "mpc-" + "participant" + "-" == "mpc-participant-" && "participant" + "-" == "participant-";
    assert "mpc-" + "coordinator" + "-" == "mpc-coordinator-" && "coordinator" + "-" == "coordinator-";
  }

  /** Two types can share a service id exactly if one is the other, a dash, and more. */
  lemma ServiceIdsCollide(t1: string, t2: string)
    requires t1 != t2
    ensures (exists i1, i2 :: ServiceId(t1, i1) == ServiceId(t2, i2)) <==>
      HasPrefix(t2, t1 + "-") || HasPrefix(t1, t2 + "-")
  {
    if HasPrefix(t2, t1 + "-") {
      Collides(t1, t2);
    } else if HasPrefix(t1, t2 + "-") {
      Collides(t2, t1);
    }
    forall i1, i2 | ServiceId(t1, i1) == ServiceId(t2, i2)
      ensures HasPrefix(t2, t1 + "-") || HasPrefix(t1, t2 + "-")
    {
      SameService(t1, i1, t2, i2);
    }
  }

  lemma Collides(t1: string, t2: string)
    requires HasPrefix(t2, t1 + "-")
    ensures ServiceId(t1, t2[|t1| + 1..] + "-") == ServiceId(t2, "")
  {
    assert t2 == t1 + "-" + t2[|t1| + 1..];
  }

  lemma SameService(t1: string, i1: string, t2: string, i2: string)
    requires ServiceId(t1, i1) == ServiceId(t2, i2)
    ensures (t1 == t2 && i1 == i2) || HasPrefix(t2, t1 + "-") || HasPrefix(t1, t2 + "-")
  {
    var name1, name2 := t1 + "-" + i1, t2 + "-" + i2;
    assert name1 == ServiceId(t1, i1)[4..] && name2 == ServiceId(t2, i2)[4..];
    assert name1[..|t1|] == t1 && name1[|t1|] == '-' && name1[|t1| + 1..] == i1;
    assert name2[..|t2|] == t2 && name2[|t2|] == '-' && name2[|t2| + 1..] == i2;
    if |t1| < |t2| {
      assert t2[..|t1|] == t1 && t2[|t1|] == '-';
    } else if |t2| < |t1| {
      assert t1[..|t2|] == t2 && t1[|t2|] == '-';
    }
  }

  lemma DashInside(word: string, name: string)
    ensures HasPrefix(name, word + "-") ==> '-' in name
  {
    if HasPrefix(name, word + "-") {
      assert name[|word|] == (word + "-")[|word|];
    }
  }

  /** For types without a dash, as the program uses, a service id stands for one type and one id. */
  lemma ServiceIdInjective(t1: string, i1: string, t2: string, i2: string)
    requires '-' !in t1 && '-' !in t2
    ensures ServiceId(t1, i1) == ServiceId(t2, i2) <==> t1 == t2 && i1 == i2
  {
    if ServiceId(t1, i1) == ServiceId(t2, i2) {
      SameService(t1, i1, t2, i2);
      DashInside(t1, t2);
      DashInside(t2, t1);
    }
  }

  /******* The registry *******/

  datatype Op =
    | Register(nodeId: string, nodeType: string, address: string, port: int)
    | Deregister(nodeId: string, nodeType: string)
    | Expire(serviceId: string)  // the agent removes a service that stayed critical too long

  /** The registry after an operation that reached it. */
  function Apply(r: Registry, op: Op): Registry {
    match op
    case Register(nodeId, nodeType, address, port) =>
      r[ServiceId(nodeType, nodeId) := Describe(nodeId, nodeType, address, port)]
    case Deregister(nodeId, nodeType) => r - {ServiceId(nodeType, nodeId)}
    case Expire(serviceId) => r - {serviceId}
  }

  function Replay(ops: seq<Op>): Registry {
    if ops == [] then map[] else Apply(Replay(ops[..|ops| - 1]), ops[|ops| - 1])
  }

  /** The nodes registered and neither deregistered nor expired since, as (type, id). */
  function Live(ops: seq<Op>): set<(string, string)> {
    if ops == [] then {}
    else
      var live, op := Live(ops[..|ops| - 1]), ops[|ops| - 1];
      match op
      case Register(nodeId, nodeType, _, _) => live + {(nodeType, nodeId)}
      case Deregister(nodeId, nodeType) => live - {(nodeType, nodeId)}
      case Expire(serviceId) => set n | n in live && ServiceId(n.0, n.1) != serviceId
  }

  predicate DashFree(ops: seq<Op>) {
    forall op :: op in ops && !op.Expire? ==> '-' !in op.nodeType
  }

  /** A deregistration removes exactly the service that the registration of the same node created. */
  lemma {:induction false} RegistryTracksLive(ops: seq<Op>, nodeType: string, nodeId: string)
    requires DashFree(ops) && '-' !in nodeType
    ensures ServiceId(nodeType, nodeId) in Replay(ops) <==> (nodeType, nodeId) in Live(ops)
  {
    if ops != [] {
      var op := ops[|ops| - 1];
      RegistryTracksLive(ops[..|ops| - 1], nodeType, nodeId);
      assert op in ops;
      if !op.Expire? {
        ServiceIdInjective(op.nodeType, op.nodeId, nodeType, nodeId);
      }
    }
  }

  /** Every entry of the registry is what RegisterNode sent for some live node. */
  ghost predicate Genuine(ops: seq<Op>, svc: ServiceInfo) {
    exists nodeId, nodeType, address, port ::
      svc == Describe(nodeId, nodeType, address, port) && (nodeType, nodeId) in Live(ops) && '-' !in nodeType
  }

  lemma {:induction false} EntriesGenuine(ops: seq<Op>, key: string)
    requires DashFree(ops) && key in Replay(ops)
    ensures Replay(ops)[key].id == key && Genuine(ops, Replay(ops)[key])
  {
    var front, op := ops[..|ops| - 1], ops[|ops| - 1];
    assert op in ops;
    if op.Register? && key == ServiceId(op.nodeType, op.nodeId) {
      assert Replay(ops)[key] == Describe(op.nodeId, op.nodeType, op.address, op.port);
    } else {
      EntriesGenuine(front, key);
      var nodeId, nodeType, address, port :|
        && Replay(front)[key] == Describe(nodeId, nodeType, address, port)
        && (nodeType, nodeId) in Live(front)
        && '-' !in nodeType;
      if op.Deregister? {
        ServiceIdInjective(op.nodeType, op.nodeId, nodeType, nodeId);
      }
      assert Replay(ops)[key] == Describe(nodeId, nodeType, address, port) && (nodeType, nodeId) in Live(ops);
    }
  }

  /** What the registry answers to a query: the healthy services of that name with that tag, in any order. */
  ghost predicate Answers(services: seq<ServiceInfo>, r: Registry, healthy: set<string>, nodeType: string) {
    && (forall i, j :: 0 <= i < j < |services| ==> services[i].id != services[j].id)
    && (forall svc :: svc in services <==> svc.id in r && Selected(r, healthy, nodeType, svc))
  }

  predicate Selected(r: Registry, healthy: set<string>, nodeType: string, svc: ServiceInfo)
    requires svc.id in r
  {
    && r[svc.id] == svc
    && svc.id in healthy
    && svc.name == ServiceName(nodeType)
    && TypeTag(nodeType) in svc.tags
  }

  /** A registration of another type is never selected. */
  lemma SelectedType(nodeId: string, nodeType: string, address: string, port: int, wanted: string)
    ensures Describe(nodeId, nodeType, address, port).name == ServiceName(wanted) <==> nodeType == wanted
  {
    assert ServiceName(nodeType)[4..] == nodeType && ServiceName(wanted)[4..] == wanted;
  }

  /**
   The name round trip over whole runs: the ids extracted from what a query for a type returns are
   distinct, and are exactly those of the nodes of that type registered, not deregistered, and healthy.
   */
  lemma DiscoveredAreLive(ops: seq<Op>, healthy: set<string>, nodeType: string, services: seq<ServiceInfo>)
    requires DashFree(ops) && '-' !in nodeType && Answers(services, Replay(ops), healthy, nodeType)
    ensures forall i, j :: 0 <= i < j < |services| ==> NodeIdOf(services[i]) != NodeIdOf(services[j])
    ensures
      forall nodeId ::
        (exists svc :: svc in services && NodeIdOf(svc) == nodeId) <==>
        (nodeType, nodeId) in Live(ops) && ServiceId(nodeType, nodeId) in healthy
  {
    forall svc | svc in services
      ensures svc.id == ServiceId(nodeType, NodeIdOf(svc)) && (nodeType, NodeIdOf(svc)) in Live(ops)
    {
      DiscoveredIsLive(ops, healthy, nodeType, svc);
    }
    forall nodeId | (nodeType, nodeId) in Live(ops) && ServiceId(nodeType, nodeId) in healthy
      ensures exists svc :: svc in services && NodeIdOf(svc) == nodeId
    {
      var svc := LiveIsDiscovered(ops, healthy, nodeType, nodeId);
    }
  }

  lemma DiscoveredIsLive(ops: seq<Op>, healthy: set<string>, wanted: string, svc: ServiceInfo)
    requires DashFree(ops) && svc.id in Replay(ops) && Selected(Replay(ops), healthy, wanted, svc)
    ensures svc.id == ServiceId(wanted, NodeIdOf(svc)) && (wanted, NodeIdOf(svc)) in Live(ops)
  {
    EntriesGenuine(ops, svc.id);
    var nodeId, nodeType, address, port :|
      svc == Describe(nodeId, nodeType, address, port) && (nodeType, nodeId) in Live(ops) && '-' !in nodeType;
    SelectedType(nodeId, nodeType, address, port, wanted);
    TagsRoundTrip(nodeId, nodeType, address, port);
  }

  lemma LiveIsDiscovered(ops: seq<Op>, healthy: set<string>, wanted: string, nodeId: string) returns (svc: ServiceInfo)
    requires DashFree(ops) && '-' !in wanted
    requires (wanted, nodeId) in Live(ops) && ServiceId(wanted, nodeId) in healthy
    ensures svc.id in Replay(ops) && Selected(Replay(ops), healthy, wanted, svc) && NodeIdOf(svc) == nodeId
  {
    RegistryTracksLive(ops, wanted, nodeId);
    svc := Replay(ops)[ServiceId(wanted, nodeId)];
    EntriesGenuine(ops, ServiceId(wanted, nodeId));
    var nodeId', nodeType, address, port :|
      svc == Describe(nodeId', nodeType, address, port) && (nodeType, nodeId') in Live(ops) && '-' !in nodeType;
    ServiceIdInjective(nodeType, nodeId', wanted, nodeId);
    TagsRoundTrip(nodeId', nodeType, address, port);
  }

  /** The operation ends the registration of this node, or replaces it. */
  predicate Touches(op: Op, nodeType: string, nodeId: string) {
    if op.Expire? then op.serviceId == ServiceId(nodeType, nodeId) else op.nodeType == nodeType && op.nodeId == nodeId
  }

  /** The registration at k is the last thing that happened to this node. */
  predicate LatestIs(ops: seq<Op>, k: nat, nodeType: string, nodeId: string) {
    && k < |ops|
    && ops[k].Register?
    && Touches(ops[k], nodeType, nodeId)
    && forall m :: k < m < |ops| ==> !Touches(ops[m], nodeType, nodeId)
  }

  /** A node is live exactly if the last thing that happened to it is a registration. */
  lemma {:induction false} LiveIsRegisteredLast(ops: seq<Op>, nodeType: string, nodeId: string)
    ensures (nodeType, nodeId) in Live(ops) <==> exists k: nat :: LatestIs(ops, k, nodeType, nodeId)
  {
    if ops != [] {
      var last := |ops| - 1;
      LiveIsRegisteredLast(ops[..last], nodeType, nodeId);
      if Touches(ops[last], nodeType, nodeId) {
        assert ops[last].Register? ==> LatestIs(ops, last, nodeType, nodeId);
        assert forall k: nat :: LatestIs(ops, k, nodeType, nodeId) ==> k == last;
      } else {
        forall k: nat ensures LatestIs(ops, k, nodeType, nodeId) <==> LatestIs(ops[..last], k, nodeType, nodeId) {
          LatestBefore(ops, k, nodeType, nodeId);
        }
      }
    }
  }

  lemma LatestBefore(ops: seq<Op>, k: nat, nodeType: string, nodeId: string)
    requires ops != [] && !Touches(ops[|ops| - 1], nodeType, nodeId)
    ensures LatestIs(ops, k, nodeType, nodeId) <==> LatestIs(ops[..|ops| - 1], k, nodeType, nodeId)
  {
    var last := |ops| - 1;
    assert forall m :: k < m < |ops| ==> m == last || ops[m] == ops[..last][m];
    assert forall m :: 0 <= m < last ==> ops[m] == ops[..last][m];
  }

  /** The registry has that registration's address, port and type. */
  lemma {:induction false} RegisteredLast(ops: seq<Op>, k: nat, nodeType: string, nodeId: string)
    requires DashFree(ops) && '-' !in nodeType && LatestIs(ops, k, nodeType, nodeId)
    ensures
      && ServiceId(nodeType, nodeId) in Replay(ops)
      && var svc := Replay(ops)[ServiceId(nodeType, nodeId)];
         svc.address == ops[k].address && svc.port == ops[k].port && svc.nodeType == nodeType
  {
    var last := |ops| - 1;
    if k < last {
      assert !Touches(ops[last], nodeType, nodeId) && ops[last] in ops;
      LatestBefore(ops, k, nodeType, nodeId);
      RegisteredLast(ops[..last], k, nodeType, nodeId);
      if !ops[last].Expire? {
        ServiceIdInjective(ops[last].nodeType, ops[last].nodeId, nodeType, nodeId);
      }
    }
  }

  /** A query answers with the address and port that its node registered last. */
  lemma DiscoveredWhereRegistered(ops: seq<Op>, healthy: set<string>, nodeType: string, services: seq<ServiceInfo>,
                                  svc: ServiceInfo, k: nat)
    requires DashFree(ops) && '-' !in nodeType && Answers(services, Replay(ops), healthy, nodeType) && svc in services
    requires LatestIs(ops, k, nodeType, NodeIdOf(svc))
    ensures svc.address == ops[k].address && svc.port == ops[k].port && svc.nodeType == nodeType
  {
    DiscoveredIsLive(ops, healthy, nodeType, svc);
    RegisteredLast(ops, k, nodeType, NodeIdOf(svc));
  }

  /** What DiscoverParticipants returns. The error comes with the services that were found. */
  datatype Found = Enough(services: seq<ServiceInfo>) | Insufficient(services: seq<ServiceInfo>) | Failed | Panic

  class Service {
    var consul: Registry

    constructor ()
      ensures consul == map[]
    {
      consul := map[];
    }

    /** reached: the agent took the registration. */
    method RegisterNode(nodeId: string, nodeType: string, address: string, port: int, reached: bool)
      returns (ok: bool)
      modifies this
      ensures ok == reached
      ensures consul == if ok then Apply(old(consul), Register(nodeId, nodeType, address, port)) else old(consul)
      ensures ok ==> ServiceId(nodeType, nodeId) in consul
    {
      var service := ServiceInfo(
        "mpc-" + nodeType + "-" + nodeId,
        "mpc-" + nodeType,
        address,
        port,
        ["node-type:" + nodeType, "node-id:" + nodeId, "protocol:v1"],
        nodeType);
      if reached {
        consul := consul[service.id := service];
      }
      return reached;
    }

    /** A service that is not registered is no error. */
    method DeregisterNode(nodeId: string, nodeType: string, reached: bool) returns (ok: bool)
      modifies this
      ensures ok == reached
      ensures consul == if ok then Apply(old(consul), Deregister(nodeId, nodeType)) else old(consul)
      ensures ok ==> ServiceId(nodeType, nodeId) !in consul
    {
      var serviceId := "mpc-" + nodeType + "-" + nodeId;
      if reached {
        consul := consul - {serviceId};
      }
      return reached;
    }
  }

  /** answer: what the registry said, if it could be reached. A negative count makes the slice expression panic. */
  method DiscoverParticipants(answer: Option<seq<ServiceInfo>>, count: int) returns (r: Found)
    ensures answer.None? <==> r.Failed?
    ensures
      answer.Some? ==>
        && (r.Insufficient? <==> |answer.value| < count)
        && (r.Panic? <==> count < 0)
        && (r.Insufficient? ==> r.services == answer.value)
        && (r.Enough? ==> r.services <= answer.value && |r.services| == count)
  {
    if answer.None? {
      return Failed;
    }
    var services := answer.value;
    if |services| < count {
      return Insufficient(services);
    }
    if |services| > count {
      if count < 0 {
        return Panic;
      }
      return Enough(services[..count]);
    }
    return Enough(services);
  }
}
