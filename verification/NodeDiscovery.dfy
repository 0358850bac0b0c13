/**
 Discovering the participants of a DKG (internal/mpc/node/discovery.go): the database first, and the
 service registry when the database has too few. The merged nodes pass through a Go map, so they come
 out in no particular order.
 */
module NodeDiscovery {
  import opened Wrappers
  import Discovery
  import CacheKey

  datatype Node = Node(nodeId: string, endpoint: string)

  const DEFAULT_LIMIT := 50

  /**
   rows: the active participants in the database, latest registration first. No limit, or a negative one, means
   50.
   */
  function ListNodes(rows: seq<Node>, limit: int): (r: seq<Node>)
    ensures r <= rows
    ensures |r| >= limit <==> limit <= 0 || |rows| >= limit
  {
    var n := if limit <= 0 then DEFAULT_LIMIT else limit;
    if |rows| <= n then rows else rows[..n]
  }

  /** The nodes of the services whose id can be extracted. */
  function ConsulNodes(services: seq<Discovery.ServiceInfo>): seq<Node> {
    if services == [] then []
    else
      var front, svc := ConsulNodes(services[..|services| - 1]), services[|services| - 1];
      var nodeId := Discovery.NodeIdOf(svc);
      if nodeId == "" then front else front + [Node(nodeId, svc.address + ":" + CacheKey.Itoa(svc.port))]
  }

  /** One node for each id; the last one wins. */
  function Merge(nodes: seq<Node>): map<string, Node> {
    if nodes == [] then map[]
    else
      var last := nodes[|nodes| - 1];
      Merge(nodes[..|nodes| - 1])[last.nodeId := last]
  }

  function Ids(nodes: seq<Node>): (r: seq<string>)
    ensures |r| == |nodes| && forall i :: 0 <= i < |nodes| ==> r[i] == nodes[i].nodeId
  {
    seq(|nodes|, i requires 0 <= i < |nodes| => nodes[i].nodeId)
  }

  function IdSet(nodes: seq<Node>): set<string> {
    set id | id in Ids(nodes)
  }

  /** The ids that the services give away, one for each. */
  function ServiceIds(services: seq<Discovery.ServiceInfo>): (r: seq<string>)
    ensures |r| == |services| && forall i :: 0 <= i < |services| ==> r[i] == Discovery.NodeIdOf(services[i])
  {
    seq(|services|, i requires 0 <= i < |services| => Discovery.NodeIdOf(services[i]))
  }

  predicate Distinct<T(==)>(s: seq<T>) {
    forall i, j :: 0 <= i < j < |s| ==> s[i] != s[j]
  }

  /** The values of the map, each once, in some order. */
  ghost predicate Enumerates(nodes: seq<Node>, m: map<string, Node>) {
    && Distinct(Ids(nodes))
    && (forall id :: id in m <==> id in Ids(nodes))
    && (forall n :: n in nodes ==> n.nodeId in m && m[n.nodeId] == n)
  }

  datatype Error = DatabaseDown

  /**
   What DiscoverNodes may return. rows is missing if the database cannot be read; answer is missing if
   the registry cannot be reached. A registry with too few services changes nothing.
   */
  ghost predicate Discovered(rows: Option<seq<Node>>, configured: bool, answer: Option<seq<Discovery.ServiceInfo>>,
                             limit: int, r: Result<seq<Node>, Error>)
  {
    if rows.None? then r == Err(DatabaseDown)
    else
      var nodes := ListNodes(rows.value, limit);
      if |nodes| >= limit || !configured || answer.None? || |answer.value| < limit then r == Ok(nodes)
      else r.Ok? && Enumerates(r.value, Merge(nodes + ConsulNodes(answer.value[..limit])))
  }

  /** Each node sits under its own id. */
  lemma {:induction false} MergeKeys(nodes: seq<Node>)
    ensures Merge(nodes).Keys == IdSet(nodes)
    ensures forall id :: id in Merge(nodes) ==> Merge(nodes)[id].nodeId == id && Merge(nodes)[id] in nodes
  {
    if nodes != [] {
      MergeKeys(nodes[..|nodes| - 1]);
      assert nodes == nodes[..|nodes| - 1] + [nodes[|nodes| - 1]];
      assert Ids(nodes) == Ids(nodes[..|nodes| - 1]) + [nodes[|nodes| - 1].nodeId];
    }
  }

  method DiscoverNodes(rows: Option<seq<Node>>, configured: bool, answer: Option<seq<Discovery.ServiceInfo>>,
                       limit: int)
    returns (r: Result<seq<Node>, Error>)
    ensures Discovered(rows, configured, answer, limit, r)
  {
    if rows.None? {
      return Err(DatabaseDown);
    }
    var nodes := ListNodes(rows.value, limit);
    if |nodes| >= limit {
      return Ok(nodes);
    }
    if !configured {
      return Ok(nodes);
    }
    var found := Discovery.DiscoverParticipants(answer, limit);
    assert !found.Panic?;
    if !found.Enough? {
      return Ok(nodes);
    }
    var consulNodes := ToNodes(found.services);
    var uniqueNodes := Deduplicate(nodes + consulNodes);
    MergeKeys(nodes + consulNodes);
    var result := ValuesOf(uniqueNodes);
    assert found.services == answer.value[..limit];
    return Ok(result);
  }

  method ToNodes(services: seq<Discovery.ServiceInfo>) returns (consulNodes: seq<Node>)
    ensures consulNodes == ConsulNodes(services)
  {
    consulNodes := [];
    for i := 0 to |services|
      invariant consulNodes == ConsulNodes(services[..i])
    {
      assert services[..i + 1][..i] == services[..i];
      var nodeId := Discovery.ExtractNodeID(services[i]);
      if nodeId == "" {
        continue;
      }
      var endpoint := services[i].address + ":" + CacheKey.Itoa(services[i].port);
      consulNodes := consulNodes + [Node(nodeId, endpoint)];
    }
    assert services[..|services|] == services;
  }

  method Deduplicate(allNodes: seq<Node>) returns (uniqueNodes: map<string, Node>)
    ensures uniqueNodes == Merge(allNodes)
  {
    uniqueNodes := map[];
    for i := 0 to |allNodes|
      invariant uniqueNodes == Merge(allNodes[..i])
    {
      assert allNodes[..i + 1][..i] == allNodes[..i];
      uniqueNodes := uniqueNodes[allNodes[i].nodeId := allNodes[i]];
    }
    assert allNodes[..|allNodes|] == allNodes;
  }

  /** Ranging over a Go map: each entry once, in an order nobody chooses. */
  method ValuesOf(uniqueNodes: map<string, Node>) returns (result: seq<Node>)
    requires forall id :: id in uniqueNodes ==> uniqueNodes[id].nodeId == id
    ensures Enumerates(result, uniqueNodes)
  {
    result := [];
    var left := uniqueNodes.Keys;
    while left != {}
      invariant left <= uniqueNodes.Keys
      invariant Distinct(Ids(result))
      invariant forall id :: id in Ids(result) <==> id in uniqueNodes && id !in left
      invariant forall n :: n in result ==> n.nodeId in uniqueNodes && uniqueNodes[n.nodeId] == n
      decreases |left|
    {
      var id :| id in left;
      assert Ids(result + [uniqueNodes[id]]) == Ids(result) + [id];
      result := result + [uniqueNodes[id]];
      left := left - {id};
    }
  }

  /******* How many there are, and that their order does not matter *******/

  lemma {:induction false} DistinctMultiset<T>(s: seq<T>)
    requires Distinct(s)
    ensures multiset(s) == multiset(set x | x in s)
    ensures |s| == |set x | x in s|
  {
    if s != [] {
      var last := |s| - 1;
      DistinctMultiset(s[..last]);
      assert s == s[..last] + [s[last]];
      assert (set x | x in s) == (set x | x in s[..last]) + {s[last]};
      assert s[last] !in s[..last];
    }
  }

  /** Two results for the same database and registry are permutations of each other. */
  lemma DiscoveryUpToOrder(rows: Option<seq<Node>>, configured: bool, answer: Option<seq<Discovery.ServiceInfo>>,
                           limit: int, a: Result<seq<Node>, Error>, b: Result<seq<Node>, Error>)
    requires Discovered(rows, configured, answer, limit, a) && Discovered(rows, configured, answer, limit, b)
    ensures a.Ok? <==> b.Ok?
    ensures a.Ok? ==> multiset(Ids(a.value)) == multiset(Ids(b.value))
  {
    if a.Ok? && a != b {
      DistinctMultiset(Ids(a.value));
      DistinctMultiset(Ids(b.value));
      assert (set id | id in Ids(a.value)) == (set id | id in Ids(b.value));
    }
  }

  lemma {:induction false} ConsulIds(services: seq<Discovery.ServiceInfo>)
    requires "" !in ServiceIds(services)
    ensures Ids(ConsulNodes(services)) == ServiceIds(services)
  {
    if services != [] {
      var last := |services| - 1;
      assert ServiceIds(services) == ServiceIds(services[..last]) + [Discovery.NodeIdOf(services[last])];
      ConsulIds(services[..last]);
    }
  }

  lemma UnionSize<T>(a: set<T>, c: set<T>)
    ensures |c| <= |a + c| <= |a| + |c|
    ensures |a + c| == |c| <==> a <= c
  {
    assert a + c == c + (a - c);
    assert |a + c| == |c| + |a - c|;
    assert a - c <= a;
    SubsetSize(a - c, a);
    if a - c == {} {
      assert a <= c;
    }
  }

  lemma {:induction false} SubsetSize<T>(a: set<T>, b: set<T>)
    requires a <= b
    ensures |a| <= |b|
  {
    assert b == a + (b - a);
  }

  /**
   A successful discovery of at least limit nodes can still have more: it has exactly limit if and only if
   the database alone had enough, or knew no node that the registry did not return.
   */
  lemma DiscoveredCount(rows: seq<Node>, configured: bool, answer: Option<seq<Discovery.ServiceInfo>>,
                        limit: int, nodes: seq<Node>)
    requires limit > 0 && |nodes| >= limit && Distinct(Ids(rows))
    requires Discovered(Some(rows), configured, answer, limit, Ok(nodes))
    requires answer.Some? ==> Distinct(ServiceIds(answer.value)) && "" !in ServiceIds(answer.value)
    ensures |nodes| == limit <==>
      || |rows| >= limit
      || (answer.Some? && |answer.value| >= limit && IdSet(rows) <= set id | id in ServiceIds(answer.value)[..limit])
    ensures |nodes| < 2 * limit
  {
    if |rows| < limit {
      var services := answer.value[..limit];
      assert ServiceIds(services) == ServiceIds(answer.value)[..limit];
      ConsulIds(services);
      MergedCount(rows, ConsulNodes(services), nodes);
      UnionSize(IdSet(rows), IdSet(ConsulNodes(services)));
      DistinctMultiset(Ids(rows));
      DistinctMultiset(ServiceIds(services));
    }
  }

  lemma MergedCount(a: seq<Node>, c: seq<Node>, nodes: seq<Node>)
    requires Enumerates(nodes, Merge(a + c))
    ensures |nodes| == |IdSet(a) + IdSet(c)|
  {
    MergeKeys(a + c);
    assert Ids(a + c) == Ids(a) + Ids(c);
    assert IdSet(a + c) == IdSet(a) + IdSet(c);
    DistinctMultiset(Ids(nodes));
    assert IdSet(nodes) == Merge(a + c).Keys;
  }

  /** Nodes with distinct ids are merged as they are. */
  lemma {:induction false} MergeDistinct(nodes: seq<Node>)
    requires Distinct(Ids(nodes))
    ensures Enumerates(nodes, Merge(nodes))
  {
    MergeKeys(nodes);
    forall n | n in nodes ensures n.nodeId in Merge(nodes) && Merge(nodes)[n.nodeId] == n {
      var i :| 0 <= i < |nodes| && nodes[i] == n;
      assert Ids(nodes)[i] == n.nodeId;
      var j :| 0 <= j < |nodes| && nodes[j] == Merge(nodes)[n.nodeId];
      assert Ids(nodes)[j] == n.nodeId;
    }
  }

  lemma TwoParticipants() returns (answer: seq<Discovery.ServiceInfo>)
    ensures |answer| == 2 && Ids(ConsulNodes(answer)) == ["b", "c"]
  {
    Discovery.TagsRoundTrip("b", "participant", "host", 1);
    Discovery.TagsRoundTrip("c", "participant", "host", 2);
    answer := [Discovery.Describe("b", "participant", "host", 1), Discovery.Describe("c", "participant", "host", 2)];
    assert ServiceIds(answer) == ["b", "c"];
    ConsulIds(answer);
  }

  /** One node in the database, two others in the registry, two asked for: three come back. */
  lemma MoreThanAskedFor() returns (rows: seq<Node>, answer: seq<Discovery.ServiceInfo>, nodes: seq<Node>)
    ensures Discovered(Some(rows), true, Some(answer), 2, Ok(nodes)) && |rows| == 1 && |nodes| == 3
    ensures Distinct(Ids(nodes))
  {
    rows := [Node("a", "host:0")];
    answer := TwoParticipants();
    nodes := rows + ConsulNodes(answer);
    assert Ids(nodes) == Ids(rows) + Ids(ConsulNodes(answer)) == ["a", "b", "c"];
    MergeDistinct(nodes);
    assert answer[..2] == answer;
  }

  /******* Which nodes, and at which endpoint *******/

  /** When the registry is not asked or does not help, the answer is what the database has, up to the limit. */
  lemma WithoutRegistry(rows: seq<Node>, configured: bool, answer: Option<seq<Discovery.ServiceInfo>>, limit: int,
                        nodes: seq<Node>)
    requires Discovered(Some(rows), configured, answer, limit, Ok(nodes))
    requires |rows| >= limit || !configured || answer.None? || |answer.value| < limit
    ensures nodes <= rows
    ensures limit > 0 ==> |nodes| == if |rows| < limit then |rows| else limit
    ensures limit <= 0 ==> |nodes| == if |rows| < 50 then |rows| else 50
  {
  }

  /** The last entry with its id. */
  ghost predicate LastRow(rows: seq<Node>, n: Node) {
    exists k ::
      && 0 <= k < |rows|
      && rows[k] == n
      && forall m :: k < m < |rows| ==> rows[m].nodeId != n.nodeId
  }

  ghost predicate LastService(services: seq<Discovery.ServiceInfo>, n: Node) {
    exists k ::
      && 0 <= k < |services|
      && Discovery.NodeIdOf(services[k]) == n.nodeId
      && n.endpoint == services[k].address + ":" + CacheKey.Itoa(services[k].port)
      && forall m :: k < m < |services| ==> Discovery.NodeIdOf(services[m]) != n.nodeId
  }

  lemma {:induction false} MergeTakesLast(rows: seq<Node>, id: string)
    requires id in Merge(rows)
    ensures LastRow(rows, Merge(rows)[id]) && Merge(rows)[id].nodeId == id
  {
    var last := |rows| - 1;
    if rows[last].nodeId == id {
      assert Merge(rows)[id] == rows[last];
    } else {
      MergeTakesLast(rows[..last], id);
      var n := Merge(rows)[id];
      var k :| 0 <= k < last && rows[k] == n && forall m :: k < m < last ==> rows[..last][m].nodeId != id;
      assert forall m :: k < m < |rows| ==> m == last || rows[m] == rows[..last][m];
    }
  }

  predicate Named(services: seq<Discovery.ServiceInfo>, id: string) {
    id != "" && id in ServiceIds(services)
  }

  /** The merged node with this id is at the service's address, or as in the database. */
  ghost predicate RightPlace(rows: seq<Node>, services: seq<Discovery.ServiceInfo>, id: string, n: Node) {
    n.nodeId == id && if Named(services, id) then LastService(services, n) else LastRow(rows, n)
  }

  lemma {:induction false} MergeTakesService(rows: seq<Node>, services: seq<Discovery.ServiceInfo>, id: string)
    requires id in Merge(rows + ConsulNodes(services))
    ensures RightPlace(rows, services, id, Merge(rows + ConsulNodes(services))[id])
  {
    if services == [] {
      assert rows + ConsulNodes(services) == rows;
      MergeTakesLast(rows, id);
    } else {
      var last := |services| - 1;
      var front, nodeId := services[..last], Discovery.NodeIdOf(services[last]);
      MergeNext(rows, services);
      if nodeId == id && id != "" {
        LastIsLast(services, Merge(rows + ConsulNodes(services))[id]);
      } else {
        MergeTakesService(rows, front, id);
        SamePlace(rows, services, id, Merge(rows + ConsulNodes(front))[id]);
      }
    }
  }

  lemma MergeNext(rows: seq<Node>, services: seq<Discovery.ServiceInfo>)
    requires services != []
    ensures
      var last := |services| - 1;
      var before, after := Merge(rows + ConsulNodes(services[..last])), Merge(rows + ConsulNodes(services));
      if Discovery.NodeIdOf(services[last]) == "" then after == before
      else after == before[Discovery.NodeIdOf(services[last]) := NodeAt(services[last])]
  {
    var last := |services| - 1;
    ConsulNext(services);
    if Discovery.NodeIdOf(services[last]) != "" {
      MergeSnoc(rows, ConsulNodes(services[..last]), NodeAt(services[last]));
    }
  }

  lemma MergeSnoc(rows: seq<Node>, nodes: seq<Node>, n: Node)
    ensures Merge(rows + (nodes + [n])) == Merge(rows + nodes)[n.nodeId := n]
  {
    var all := rows + (nodes + [n]);
    assert all[..|all| - 1] == rows + nodes && all[|all| - 1] == n;
  }

  /** The node at the address and port the service registered. */
  function NodeAt(svc: Discovery.ServiceInfo): Node {
    Node(Discovery.NodeIdOf(svc), svc.address + ":" + CacheKey.Itoa(svc.port))
  }

  lemma ConsulNext(services: seq<Discovery.ServiceInfo>)
    requires services != []
    ensures
      var last := |services| - 1;
      ConsulNodes(services) ==
      if Discovery.NodeIdOf(services[last]) == "" then ConsulNodes(services[..last])
      else ConsulNodes(services[..last]) + [NodeAt(services[last])]
  {
  }

  lemma LastIsLast(services: seq<Discovery.ServiceInfo>, n: Node)
    requires services != [] && n.nodeId != ""
    requires n == NodeAt(services[|services| - 1])
    ensures Named(services, n.nodeId) && LastService(services, n)
  {
    var last := |services| - 1;
    assert ServiceIds(services)[last] == n.nodeId;
  }

  lemma SamePlace(rows: seq<Node>, services: seq<Discovery.ServiceInfo>, id: string, n: Node)
    requires services != [] && RightPlace(rows, services[..|services| - 1], id, n)
    requires id == "" || Discovery.NodeIdOf(services[|services| - 1]) != id
    ensures RightPlace(rows, services, id, n)
  {
    var last := |services| - 1;
    assert ServiceIds(services) == ServiceIds(services[..last]) + [Discovery.NodeIdOf(services[last])];
    if Named(services, id) {
      ServiceStaysLast(services, n);
    }
  }

  lemma ServiceStaysLast(services: seq<Discovery.ServiceInfo>, n: Node)
    requires services != [] && Discovery.NodeIdOf(services[|services| - 1]) != n.nodeId
    ensures LastService(services[..|services| - 1], n) ==> LastService(services, n)
  {
    var last := |services| - 1;
    var front := services[..last];
    if LastService(front, n) {
      var k :|
        && 0 <= k < last
        && Discovery.NodeIdOf(front[k]) == n.nodeId
        && n.endpoint == front[k].address + ":" + CacheKey.Itoa(front[k].port)
        && forall m :: k < m < last ==> Discovery.NodeIdOf(front[m]) != n.nodeId;
      assert services[k] == front[k];
      assert forall m :: k < m < |services| ==> m == last || services[m] == front[m];
    }
  }

  /**
   Where the registry helps, each node found is at the registered address of the last of the first limit services
   with its id, and only a node that none of them names is at the endpoint in the database.
   */
  lemma RegistryWins(rows: seq<Node>, answer: seq<Discovery.ServiceInfo>, limit: int, nodes: seq<Node>, n: Node)
    requires |rows| < limit <= |answer| && Discovered(Some(rows), true, Some(answer), limit, Ok(nodes))
    requires n in nodes
    ensures RightPlace(rows, answer[..limit], n.nodeId, n)
  {
    MergeTakesService(rows, answer[..limit], n.nodeId);
  }

  /** And every row and every service that names an id is represented. */
  lemma NobodyDropped(rows: seq<Node>, answer: seq<Discovery.ServiceInfo>, limit: int, nodes: seq<Node>, id: string)
    requires |rows| < limit <= |answer| && Discovered(Some(rows), true, Some(answer), limit, Ok(nodes))
    ensures id in Ids(nodes) <==> id in Ids(rows) || Named(answer[..limit], id)
  {
    var services := answer[..limit];
    MergeKeys(rows + ConsulNodes(services));
    assert Ids(rows + ConsulNodes(services)) == Ids(rows) + Ids(ConsulNodes(services));
    NamedIds(services, id);
  }

  lemma IdsSnoc(nodes: seq<Node>, n: Node)
    ensures Ids(nodes + [n]) == Ids(nodes) + [n.nodeId]
  {
  }

  lemma {:induction false} NamedIds(services: seq<Discovery.ServiceInfo>, id: string)
    ensures id in Ids(ConsulNodes(services)) <==> Named(services, id)
  {
    if services != [] {
      var last := |services| - 1;
      var front := services[..last];
      var nodeId := Discovery.NodeIdOf(services[last]);
      NamedIds(front, id);
      ConsulNext(services);
      assert ServiceIds(services) == ServiceIds(front) + [nodeId];
      if nodeId != "" {
        IdsSnoc(ConsulNodes(front), NodeAt(services[last]));
      }
    }
  }
}
