/** The earlier topology graph of a router (src/router/network.rs): a node table only,
    with no weights and no server set, searched breadth-first. Its updates are those of
    the current network restricted to the node table, except that a path trace is not
    linked to the root and a one-entry trace adds nothing. */
module LegacyNetwork {
  import opened Packets
  import opened Errors
  import opened Vecs
  import opened Graphs
  import opened RouterNetworkNode
  import opened RouterTopology
  import opened LabelSetting
  import opened ParentPaths
  import opened BreadthFirst

  /** A node table read as a topology with no weights and no servers. */
  function Bare(g: Nodes): Topology {
    Topology(g, map[], {})
  }

  /** The node table after `update_from_path_trace` on a non-empty trace: one pair step per
      consecutive pair of entries, with nothing linked to the root. */
  function Traced(g: Nodes, trace: seq<(NodeId, NodeType)>): Nodes {
    IngestFrom(Bare(g), trace, 0).nodes
  }

  /** What a trace records: with two entries or more every trace id is known, each
      consecutive pair is linked both ways and new nodes take a type the trace reported;
      nothing is lost or retyped and closed symmetric lists stay so. A one-entry trace
      leaves the table unchanged. */
  lemma TracedRecords(g: Nodes, trace: seq<(NodeId, NodeType)>)
    ensures var r := Bare(Traced(g, trace));
      && Grows(Bare(g), r)
      && (Closed(g) ==> Closed(r.nodes))
      && (Closed(g) && Symmetric(g) ==> Symmetric(r.nodes))
      && (|trace| <= 1 ==> Traced(g, trace) == g)
      && (|trace| > 1 ==> forall i :: 0 <= i < |trace| ==> trace[i].0 in r.nodes)
      && (forall i :: 0 <= i && i + 1 < |trace| ==> LinkedAt(r, trace, i))
      && (forall x :: x in r.nodes && x !in g ==> exists i :: 0 <= i < |trace| && trace[i] == (x, r.nodes[x].nodeType))
  {
    var t := IngestFrom(Bare(g), trace, 0);
    IngestFromNodes(t, Bare(t.nodes), [], 0);
    IngestFromKeeps(Bare(g), trace, 0, 0);
    IngestFromLinked(Bare(g), trace, 0);
    IngestFromTypes(Bare(g), trace, 0);
    if |trace| > 1 {
      IngestFromKnown(Bare(g), trace, 0);
    }
    forall i | 0 <= i && i + 1 < |trace| ensures LinkedAt(Bare(t.nodes), trace, i) {
      assert LinkedAt(t, trace, i);
    }
  }

  class Network {
    const root: NodeId
    var nodes: Nodes

    /** The root is a node, every listed neighbour is a node, and links are listed both ways. */
    ghost predicate Valid()
      reads this
    {
      root in nodes && Closed(nodes) && Symmetric(nodes)
    }

    /** `Network::new`: only the root, with no links. */
    constructor (root: NodeId, rootType: NodeType)
      ensures Valid() && this.root == root
      ensures nodes == map[root := Entry(rootType, [])]
    {
      this.root := root;
      nodes := map[root := Entry(rootType, [])];
    }

    /** `get` and `get_mut`: the entry of a known id, `IdNotFound` otherwise. */
    function Get(id: NodeId): (r: Result<Entry>)
      reads this
      ensures r.Ok? <==> id in nodes
      ensures r.Ok? ==> r.value == nodes[id]
      ensures r.Err? ==> r.error == IdNotFound(id)
    {
      if id in nodes then Ok(nodes[id]) else Err(IdNotFound(id))
    }

    /** `contains_id`: exactly the ids `get` finds. */
    function ContainsId(key: NodeId): (r: bool)
      reads this
      ensures r <==> Get(key).Ok?
    {
      key in nodes
    }

    /** `add_empty_node`: `IdAlreadyPresent` and no change for a known id; otherwise the id
        joins with no neighbours. */
    method AddEmptyNode(id: NodeId, nodeType: NodeType) returns (r: Result<()>)
      requires Valid()
      modifies this
      ensures Valid()
      ensures r == AddNodeResult(Bare(old(nodes)), id, nodeType)
      ensures nodes == WithNode(Bare(old(nodes)), id, nodeType).nodes
    {
      WithNodeFacts(Bare(nodes), id, nodeType, root);
      if id in nodes {
        return Err(IdAlreadyPresent(id, nodeType));
      }
      nodes := nodes[id := Entry(nodeType, [])];
      r := Ok(());
    }

    /** `add_link`: `IdNotFound` and no change unless both ids are known (`id2` is checked
        first); otherwise `id2` is pushed onto `id1`'s list and then `id1` onto `id2`'s. */
    method AddLink(id1: NodeId, id2: NodeId) returns (r: Result<()>)
      requires Valid()
      modifies this
      ensures Valid()
      ensures r == LinkResult(Bare(old(nodes)), id1, id2)
      ensures nodes == Linked(Bare(old(nodes)), id1, id2).nodes
    {
      LinkedKeepsShape(Bare(nodes), id1, id2, root);
      if !ContainsId(id2) {
        return Err(IdNotFound(id2));
      }
      if id1 !in nodes {
        return Err(IdNotFound(id1));
      }
      nodes := nodes[id1 := Pushed(nodes[id1], id2)];
      nodes := nodes[id2 := Pushed(nodes[id2], id1)];
      r := Ok(());
    }

    /** `update_from_path_trace`: panics on an empty trace, where `len() - 1` underflows;
        otherwise every consecutive pair of entries is created when unknown and linked. */
    method UpdateFromPathTrace(trace: seq<(NodeId, NodeType)>) returns (r: Run<()>)
      requires Valid()
      modifies this
      ensures Valid()
      ensures r == Panics <==> |trace| == 0
      ensures |trace| == 0 ==> nodes == old(nodes)
      ensures |trace| > 0 ==> nodes == Traced(old(nodes), trace)
    {
      if |trace| == 0 {
        return Panics;
      }
      var i := 0;
      while i < |trace| - 1
        invariant 0 <= i <= |trace| - 1
        invariant Valid()
        invariant IngestFrom(Bare(nodes), trace, i).nodes == Traced(old(nodes), trace)
      {
        ghost var before := nodes;
        IngestStep(trace[i], trace[i + 1]);
        IngestFromNodes(IngestPair(Bare(before), trace[i], trace[i + 1]), Bare(nodes), trace, i + 1);
        i := i + 1;
      }
      r := Returns(());
    }

    /** One iteration of that loop, on entries `first` and `second`: both are created when
        unknown, then linked. */
    method IngestStep(first: (NodeId, NodeType), second: (NodeId, NodeType))
      requires Valid()
      modifies this
      ensures Valid()
      ensures nodes == IngestPair(Bare(old(nodes)), first, second).nodes
    {
      var (id1, type1) := first;
      var (id2, type2) := second;
      if !ContainsId(id1) {
        var _ := AddEmptyNode(id1, type1);
      }
      if !ContainsId(id2) {
        var _ := AddEmptyNode(id2, type2);
      }
      assert nodes == PairNodes(Bare(old(nodes)), first, second).nodes;
      var _ := AddLink(id1, id2);
    }

    /** `remove_node`: `RemoveSelfErr` for the root and `IdNotFound` for an unknown id, with
        no change; otherwise the node is removed and every remaining node is asked to drop
        `id`. The first node that lists `id` panics; the removal returns `Ok(id)` when none
        does. */
    method RemoveNode(id: NodeId) returns (r: Run<Result<NodeId>>)
      requires Valid()
      modifies this
      ensures r.Returns? ==> Valid()
      ensures id == root ==> r == Returns(Err(RemoveSelfErr)) && nodes == old(nodes)
      ensures id != root && id !in old(nodes) ==> r == Returns(Err(IdNotFound(id))) && nodes == old(nodes)
      ensures id != root && id in old(nodes) ==>
        && nodes == old(nodes) - {id}
        && (r == Panics <==> RemovePanics(Bare(old(nodes)), id))
        && (r != Panics ==> r == Returns(Ok(id)))
    {
      if root == id {
        return Returns(Err(RemoveSelfErr));
      }
      if id !in nodes {
        return Returns(Err(IdNotFound(id)));
      }
      ghost var before := nodes;
      RemovedFacts(Bare(before), id, root);
      nodes := nodes - {id};
      var remaining := nodes.Keys;
      while remaining != {}
        invariant remaining <= nodes.Keys
        invariant nodes == before - {id}
        invariant forall y :: y in nodes && y !in remaining ==> id !in nodes[y].neighbours
        decreases remaining
      {
        var x :| x in remaining;
        var outcome := RemoveOutcome(nodes[x].neighbours, id);
        if outcome.Panics? {
          assert x in before && x != id && id in before[x].neighbours;
          return Panics;
        }
        remaining := remaining - {x};
      }
      assert !RemovePanics(Bare(before), id);
      r := Returns(Ok(id));
    }

    /** `bfs`: a breadth-first search from the root that gives each newly seen neighbour the
        popped node as parent. It fails exactly when it pops a node missing from the table,
        which happens exactly when a dangling id is reachable; otherwise its parent map is a
        tree of the reachable nodes whose labels are hop counts of fewest-hop walks. */
    method Bfs() returns (r: Result<map<NodeId, Option<NodeId>>>)
      requires root in nodes
      ensures r.Err? <==> DanglingReachable(nodes, root)
      ensures r.Err? ==> r.error.IdNotFound? && r.error.id !in nodes
      ensures r.Ok? ==> exists dist, rank :: ShortestTree(nodes, Hops(), root, r.value, dist, rank)
    {
      var queue: seq<NodeId> := [root];
      var visited: set<NodeId> := {root};
      var parents: map<NodeId, Option<NodeId>> := map[root := None];
      ghost var dist: map<NodeId, nat> := map[root := 0];
      ghost var rank: map<NodeId, nat> := map[root := 0];
      ghost var tick: nat := 1;
      ghost var settled: set<NodeId> := {};
      Start(nodes, Hops(), root);
      StartQueue(root);
      while |queue| > 0
        invariant Fifo(queue, dist)
        invariant Outer(nodes, Hops(), root, QueueMap(queue, dist), dist, parents, rank, tick, settled)
        invariant visited == dist.Keys
        decreases AllIds() - settled
      {
        var u := queue[0];
        ghost var popped := QueueMap(queue, dist);
        PopFront(queue, dist);
        queue := queue[1..];
        if u !in nodes {
          PopDangling(nodes, Hops(), root, popped, dist, parents, rank, tick, settled, u);
          return Err(IdNotFound(u));
        }
        queue, visited, parents, dist, rank, tick :=
          VisitNeighbours(u, popped, queue, visited, parents, dist, rank, tick, settled);
        settled := settled + {u};
      }
      Done(nodes, Hops(), root, dist, parents, rank, tick, settled);
      ShortestTreeSpansReachable(nodes, Hops(), root, parents, dist, rank);
      r := Ok(parents);
    }

    /** The inner loop of `bfs` for the node `u` just popped: each neighbour not yet seen is
        given `u` as parent, marked as seen and queued, in list order. Afterwards `u` is
        settled. */
    method VisitNeighbours(u: NodeId, ghost popped: map<NodeId, nat>,
                           queue0: seq<NodeId>, visited0: set<NodeId>, parents0: map<NodeId, Option<NodeId>>,
                           ghost dist0: map<NodeId, nat>, ghost rank0: map<NodeId, nat>, ghost tick0: nat,
                           ghost settled: set<NodeId>)
        returns (queue: seq<NodeId>, visited: set<NodeId>, parents: map<NodeId, Option<NodeId>>,
                 ghost dist: map<NodeId, nat>, ghost rank: map<NodeId, nat>, ghost tick: nat)
      requires Outer(nodes, Hops(), root, popped, dist0, parents0, rank0, tick0, settled)
      requires u in popped && u in nodes && forall x :: x in popped ==> popped[u] <= popped[x]
      requires FifoAfter(queue0, dist0, u) && QueueMap(queue0, dist0) == popped - {u}
      requires visited0 == dist0.Keys
      ensures u !in settled
      ensures Fifo(queue, dist)
      ensures Outer(nodes, Hops(), root, QueueMap(queue, dist), dist, parents, rank, tick, settled + {u})
      ensures visited == dist.Keys
    {
      Pop(nodes, Hops(), root, popped, dist0, parents0, rank0, tick0, settled, u);
      queue, visited, parents, dist, rank, tick := queue0, visited0, parents0, dist0, rank0, tick0;
      var neighbours := nodes[u].neighbours;
      var k := 0;
      while k < |neighbours|
        invariant 0 <= k <= |neighbours| && neighbours == nodes[u].neighbours
        invariant Visiting(nodes, root, queue, dist, parents, rank, tick, settled, u, k)
        invariant visited == dist.Keys
      {
        queue, visited, parents, dist, rank, tick := VisitEdge(u, k, queue, visited, parents, dist, rank, tick, settled);
        k := k + 1;
      }
      Finish(nodes, Hops(), root, QueueMap(queue, dist), dist, parents, rank, tick, settled, u);
      FinishQueue(queue, dist, u);
    }

    /** One pass of that loop, for the `k`-th neighbour `v` of `u`: an unseen `v` gets `u` as
        parent and goes to the back of the queue; a seen one is left alone. */
    method VisitEdge(u: NodeId, k: nat,
                     queue0: seq<NodeId>, visited0: set<NodeId>, parents0: map<NodeId, Option<NodeId>>,
                     ghost dist0: map<NodeId, nat>, ghost rank0: map<NodeId, nat>, ghost tick0: nat,
                     ghost settled: set<NodeId>)
        returns (queue: seq<NodeId>, visited: set<NodeId>, parents: map<NodeId, Option<NodeId>>,
                 ghost dist: map<NodeId, nat>, ghost rank: map<NodeId, nat>, ghost tick: nat)
      requires Visiting(nodes, root, queue0, dist0, parents0, rank0, tick0, settled, u, k)
      requires k < |nodes[u].neighbours| && visited0 == dist0.Keys
      ensures Visiting(nodes, root, queue, dist, parents, rank, tick, settled, u, k + 1)
      ensures visited == dist.Keys
    {
      var v := nodes[u].neighbours[k];
      if v !in visited0 {
        ghost var nd := dist0[u] + 1;
        Discover(nodes, root, queue0, dist0, parents0, rank0, tick0, settled, u, k, v, nd);
        queue, visited, parents := queue0 + [v], visited0 + {v}, parents0[v := Some(u)];
        dist, rank, tick := dist0[v := nd], rank0[v := tick0], tick0 + 1;
      } else {
        Revisit(nodes, root, queue0, dist0, parents0, rank0, tick0, settled, u, k);
        queue, visited, parents, dist, rank, tick := queue0, visited0, parents0, dist0, rank0, tick0;
      }
    }

    /** `get_routes`: a failed search becomes `RouteNotFound`, which happens exactly when a
        dangling id is reachable; otherwise the destination's parent chain is assembled,
        and an unreachable destination gives `ParentsMalformed`. A route is a walk from the
        root to the destination with the fewest hops, without repeated nodes. */
    method GetRoutes(destination: NodeId) returns (r: Result<Path>)
      requires root in nodes
      ensures DanglingReachable(nodes, root) ==> r == Err(RouteNotFound(destination))
      ensures !DanglingReachable(nodes, root) && !Reachable(nodes, root, destination) ==>
        r.Err? && r.error.ParentsMalformed? && r.error.destination == destination
      ensures r.Ok? <==> !DanglingReachable(nodes, root) && Reachable(nodes, root, destination)
      ensures r.Ok? ==> RootPath(nodes, root, r.value, destination) && Distinct(r.value)
      ensures r.Ok? ==> forall q :: RootPath(nodes, root, q, destination) ==> |r.value| <= |q|
      ensures Closed(nodes) ==> r != Err(RouteNotFound(destination))
    {
      if Closed(nodes) {
        ClosedNoDangling(nodes, root);
      }
      var search := Bfs();
      if search.Err? {
        return Err(RouteNotFound(destination));
      }
      var parents := search.value;
      ghost var dist, rank :| ShortestTree(nodes, Hops(), root, parents, dist, rank);
      ShortestTreeSpansReachable(nodes, Hops(), root, parents, dist, rank);
      TreeRanked(nodes, Hops(), root, parents, dist, rank);
      if destination in parents {
        TreeRoute(nodes, Hops(), root, parents, dist, rank, destination);
      }
      r := ParentsToPath(parents, destination, rank);
      if r.Ok? {
        assert ShortestRoute(nodes, Hops(), root, r.value, destination);
        FewestHops(nodes, root, r.value, destination);
      }
    }
  }

  /** The table the breadth-first test builds: nodes 1 (the client root), 2 and 3 (drones)
      and 4 (a server), linked 1-2, 2-3, 3-4, 2-4 and 3-1, in that order. */
  function BfsNodes(): Nodes {
    map[1 := Entry(Client, [2, 3]), 2 := Entry(Drone, [1, 3, 4]),
        3 := Entry(Drone, [2, 4, 1]), 4 := Entry(Server, [3, 2])]
  }

  /** In that table the fewest-hop routes from 1 to 4 without repeated nodes are 1, 2, 4
      and 1, 3, 4; none is shorter. */
  lemma BfsRoutes(p: Path)
    requires RootPath(BfsNodes(), 1, p, 4) && forall q :: RootPath(BfsNodes(), 1, q, 4) ==> |p| <= |q|
    ensures p == [1, 2, 4] || p == [1, 3, 4]
  {
    var g := BfsNodes();
    assert RootPath(g, 1, [1, 2, 4], 4);
    assert |p| <= 3;
    assert p[1] in g[1].neighbours;
    assert |p| == 3;
    assert p == [1, p[1], 4];
  }

  /** The table after the test's first two links, 1-2 and 2-3. */
  function BfsFirstLinks(): Nodes {
    map[1 := Entry(Client, [2]), 2 := Entry(Drone, [1, 3]), 3 := Entry(Drone, [2]), 4 := Entry(Server, [])]
  }

  /** The table after the next two links, 3-4 and 2-4. */
  function BfsMiddleLinks(): Nodes {
    map[1 := Entry(Client, [2]), 2 := Entry(Drone, [1, 3, 4]), 3 := Entry(Drone, [2, 4]), 4 := Entry(Server, [3, 2])]
  }

  lemma BfsFirstLinked(g: Nodes)
    requires g == map[1 := Entry(Client, []), 2 := Entry(Drone, []), 3 := Entry(Drone, []), 4 := Entry(Server, [])]
    ensures Linked(Bare(Linked(Bare(g), 1, 2).nodes), 2, 3).nodes == BfsFirstLinks()
  {
    assert [] + [2] == [2] && [] + [1] == [1] && [1] + [3] == [1, 3];
  }

  lemma BfsMiddleLinked(g: Nodes)
    requires g == BfsFirstLinks()
    ensures Linked(Bare(Linked(Bare(g), 3, 4).nodes), 2, 4).nodes == BfsMiddleLinks()
  {
    assert [2] + [4] == [2, 4] && [] + [3] == [3] && [1, 3] + [4] == [1, 3, 4] && [3] + [2] == [3, 2];
  }

  lemma BfsLastLinked(g: Nodes)
    requires g == BfsMiddleLinks()
    ensures Linked(Bare(g), 3, 1).nodes == BfsNodes()
  {
    assert [2, 4] + [1] == [2, 4, 1] && [2] + [3] == [2, 3];
  }

  /** The test's network, built by `Network::new`, three `add_empty_node` and five
      `add_link` calls. */
  method BfsNetwork() returns (network: Network)
    ensures fresh(network) && network.Valid() && network.root == 1 && network.nodes == BfsNodes()
  {
    network := new Network(1, Client);
    var _ := network.AddEmptyNode(2, Drone);
    var _ := network.AddEmptyNode(3, Drone);
    var _ := network.AddEmptyNode(4, Server);
    ghost var g := network.nodes;
    BfsFirstLinked(g);
    var _ := network.AddLink(1, 2);
    var _ := network.AddLink(2, 3);
    g := network.nodes;
    BfsMiddleLinked(g);
    var _ := network.AddLink(3, 4);
    var _ := network.AddLink(2, 4);
    g := network.nodes;
    BfsLastLinked(g);
    var _ := network.AddLink(3, 1);
  }

  /** `test_bfs`: the route to 4 in the test's network is Ok and takes two hops, through 2
      or through 3. */
  method BfsScenario() returns (route: Result<Path>)
    ensures route == Ok([1, 2, 4]) || route == Ok([1, 3, 4])
  {
    var network := BfsNetwork();
    assert RootPath(network.nodes, 1, [1, 2, 4], 4);
    route := network.GetRoutes(4);
    BfsRoutes(route.value);
  }
}
