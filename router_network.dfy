/** The current topology graph of a router (src/router/network/mod.rs): every known node
    with its type and neighbour list, the drop-penalty weight of each directed link, and
    the servers seen so far. Routes are found with Dijkstra's algorithm over the penalty
    weights; `multiple_paths` lists every simple path through drones by depth-first
    search. */
module RouterNetwork {
  import opened Packets
  import opened Errors
  import opened Vecs
  import opened Graphs
  import opened RouterNetworkNode
  import opened RouterTopology
  import opened LabelSetting
  import opened ParentPaths

  /** `p` is a walk from `root` to `d` that repeats no node and passes only through drones. */
  ghost predicate DroneRoute(g: Nodes, root: NodeId, p: Path, d: NodeId) {
    RootPath(g, root, p, d) && Distinct(p) && forall i :: 0 < i < |p| - 1 ==> g[p[i]].nodeType == Drone
  }

  /** The routes `found` holds past `paths` are the drone routes extending `cp` whose next
      hop is one of `ns`. */
  ghost predicate FoundThrough(g: Nodes, root: NodeId, d: NodeId, cp: Path, paths: seq<Path>, found: seq<Path>, ns: seq<NodeId>)
    requires |paths| <= |found|
  {
    forall p :: p in found[|paths|..] <==> DroneRoute(g, root, p, d) && cp <= p && |p| > |cp| && p[|cp|] in ns
  }

  /** The recursive call through `n` adds exactly the routes whose next hop is `n`. */
  lemma FoundTaken(g: Nodes, root: NodeId, d: NodeId, cp: Path, paths: seq<Path>, before: seq<Path>, after: seq<Path>,
                   ns: seq<NodeId>, n: NodeId)
    requires |paths| <= |before| <= |after| && after[..|before|] == before
    requires FoundThrough(g, root, d, cp, paths, before, ns)
    requires forall p :: p in after[|before|..] <==> DroneRoute(g, root, p, d) && cp + [n] <= p
    requires forall p :: cp <= p && |p| > |cp| && p[|cp|] == n <==> cp + [n] <= p
    ensures FoundThrough(g, root, d, cp, paths, after, ns + [n])
  {
    assert after[|paths|..] == before[|paths|..] + after[|before|..];
  }

  /** A neighbour that starts no route adds nothing. */
  lemma FoundSkipped(g: Nodes, root: NodeId, d: NodeId, cp: Path, paths: seq<Path>, found: seq<Path>,
                     ns: seq<NodeId>, n: NodeId)
    requires |paths| <= |found| && FoundThrough(g, root, d, cp, paths, found, ns)
    requires forall p :: DroneRoute(g, root, p, d) && cp <= p && |p| > |cp| ==> p[|cp|] != n
    ensures FoundThrough(g, root, d, cp, paths, found, ns + [n])
  {
  }

  /** What `dfs` holds on entry: `cp` is a walk from `root` without repeats, whose interior
      nodes are drones, that has not passed `d`, and whose last node, unless it is the
      root or `d`, is a drone too. */
  ghost predicate DfsPrefix(g: Nodes, root: NodeId, d: NodeId, cp: Path) {
    && |cp| >= 1 && RootPath(g, root, cp, cp[|cp| - 1]) && Distinct(cp)
    && (forall i :: 0 < i < |cp| - 1 ==> g[cp[i]].nodeType == Drone)
    && (|cp| > 1 && cp[|cp| - 1] != d ==> g[cp[|cp| - 1]].nodeType == Drone)
    && d !in cp[..|cp| - 1]
  }

  /** Arriving at `d`, the prefix is itself a drone route, and the only one extending it. */
  lemma DfsArrived(g: Nodes, root: NodeId, d: NodeId, cp: Path)
    requires DfsPrefix(g, root, d, cp) && cp[|cp| - 1] == d
    ensures DroneRoute(g, root, cp, d)
    ensures forall p :: DroneRoute(g, root, p, d) && cp <= p ==> p == cp
  {
    forall p | DroneRoute(g, root, p, d) && cp <= p ensures |p| == |cp| {
      assert p[|cp| - 1] == cp[|cp| - 1] == p[|p| - 1];
    }
  }

  /** Short of `d`, every drone route extending the prefix takes one more hop, to a
      neighbour of the prefix's last node. */
  lemma DfsOnward(g: Nodes, root: NodeId, d: NodeId, cp: Path, p: Path)
    requires DfsPrefix(g, root, d, cp) && cp[|cp| - 1] != d
    requires DroneRoute(g, root, p, d) && cp <= p
    ensures |p| > |cp| && p[|cp|] in g[cp[|cp| - 1]].neighbours
  {
  }

  /** A neighbour that is on the prefix, is not a node, or is neither a drone nor `d`
      starts no drone route extending the prefix. */
  lemma DfsBlocked(g: Nodes, root: NodeId, d: NodeId, cp: Path, n: NodeId, p: Path)
    requires DfsPrefix(g, root, d, cp)
    requires n in cp || n !in g || (g[n].nodeType != Drone && n != d)
    requires DroneRoute(g, root, p, d) && cp <= p && |p| > |cp|
    ensures p[|cp|] != n
  {
    if n in cp {
      var i :| 0 <= i < |cp| && cp[i] == n;
      assert p[i] == n;
    } else if n in g {
      assert p[|cp|] != d ==> |cp| < |p| - 1 && g[p[|cp|]].nodeType == Drone;
    }
  }

  /** Stepping to an unvisited neighbour that is a drone or `d` keeps the prefix shape, and
      the drone routes through that step are the ones extending the longer prefix. */
  lemma DfsChild(g: Nodes, root: NodeId, d: NodeId, cp: Path, n: NodeId)
    requires DfsPrefix(g, root, d, cp) && cp[|cp| - 1] != d
    requires n in g[cp[|cp| - 1]].neighbours && n in g && n !in cp && (g[n].nodeType == Drone || n == d)
    ensures DfsPrefix(g, root, d, cp + [n])
    ensures forall p :: cp <= p && |p| > |cp| && p[|cp|] == n <==> cp + [n] <= p
  {
    DfsChildWalk(g, root, cp, n);
    DfsChildDistinct(cp, n);
    var c := cp + [n];
    assert c[..|c| - 1] == cp;
    forall i | 0 < i < |c| - 1 ensures g[c[i]].nodeType == Drone {
      assert c[i] == cp[i];
    }
    forall p ensures cp <= p && |p| > |cp| && p[|cp|] == n <==> c <= p {
      DfsChildPrefixes(cp, n, p);
    }
  }

  lemma DfsChildWalk(g: Nodes, root: NodeId, cp: Path, n: NodeId)
    requires |cp| >= 1 && RootPath(g, root, cp, cp[|cp| - 1])
    requires n in g[cp[|cp| - 1]].neighbours && n in g
    ensures RootPath(g, root, cp + [n], n)
  {
    var c := cp + [n];
    forall i | 0 <= i < |c| - 1 ensures c[i + 1] in g[c[i]].neighbours {
      if i < |cp| - 1 {
        assert c[i] == cp[i] && c[i + 1] == cp[i + 1];
      }
    }
  }

  lemma DfsChildDistinct(cp: Path, n: NodeId)
    requires Distinct(cp) && n !in cp
    ensures Distinct(cp + [n])
  {
    var c := cp + [n];
    forall i, j | 0 <= i < j < |c| ensures c[i] != c[j] {
      if j < |cp| {
        assert c[i] == cp[i] && c[j] == cp[j];
      } else {
        assert c[i] == cp[i];
      }
    }
  }

  lemma DfsChildPrefixes(cp: Path, n: NodeId, p: Path)
    ensures cp <= p && |p| > |cp| && p[|cp|] == n <==> cp + [n] <= p
  {
    var c := cp + [n];
    if c <= p {
      assert p[..|cp|] == c[..|cp|] == cp;
    }
    if cp <= p && |p| > |cp| && p[|cp|] == n {
      assert p[..|c|] == p[..|cp|] + [n];
    }
  }

  class Network {
    const root: NodeId
    var nodes: Nodes
    var weight: Weights
    var serverList: set<NodeId>

    /** The root is a node, every listed neighbour is a node, links are listed both ways,
        every non-root Server node is a known server, and both directions of a link carry
        the same weight. */
    ghost predicate Valid()
      reads this
    {
      && root in nodes
      && Closed(nodes) && Symmetric(nodes)
      && ServersIndexed(Model(), root)
      && WeightSymmetric(weight)
    }

    function Model(): Topology
      reads this
    {
      Topology(nodes, weight, serverList)
    }

    /** `Network::new`: only the root, with no links, weights or servers. */
    constructor (root: NodeId, rootType: NodeType)
      ensures Valid() && this.root == root
      ensures Model() == Initial(root, rootType)
    {
      this.root := root;
      nodes := map[root := Entry(rootType, [])];
      weight := map[];
      serverList := {};
    }

    /** `contains_id`: exactly the ids `get` finds. */
    function ContainsId(key: NodeId): (r: bool)
      reads this
      ensures r <==> Get(key).Ok?
    {
      key in nodes
    }

    /** `get`: the entry of a known id, `IdNotFound` otherwise. */
    function Get(id: NodeId): (r: Result<Entry>)
      reads this
      ensures r.Ok? <==> id in nodes
      ensures r.Ok? ==> r.value == nodes[id]
      ensures r.Err? ==> r.error == IdNotFound(id)
    {
      if id in nodes then Ok(nodes[id]) else Err(IdNotFound(id))
    }

    /** `get_server_list`: every non-root node of type Server is in it. */
    function GetServerList(): (r: set<NodeId>)
      reads this
      requires Valid()
      ensures r == Model().servers
      ensures forall x :: x in nodes && x != root && nodes[x].nodeType == Server ==> x in r
    {
      serverList
    }

    /** `get_weight`: the penalty of the link whichever direction recorded it, 0 for a link
        never penalised; on a well-formed network the same both ways, and the hop cost
        Dijkstra's algorithm uses. */
    function GetWeight(id1: NodeId, id2: NodeId): (r: nat)
      reads this
      ensures (id1, id2) !in weight && (id2, id1) !in weight ==> r == 0
      ensures WeightSymmetric(weight) ==> r == WeightOf(weight, id2, id1)
      ensures r == EdgeWeights(weight)(id1, id2)
    {
      WeightOfSymmetric(weight, id1, id2);
      WeightOf(weight, id1, id2)
    }

    /** `add_empty_node`: `IdAlreadyPresent` and no change for a known id; otherwise the
        id joins with no neighbours, and the server set when its type is Server. */
    method AddEmptyNode(id: NodeId, nodeType: NodeType) returns (r: Result<()>)
      requires Valid()
      modifies this
      ensures Valid()
      ensures r == AddNodeResult(old(Model()), id, nodeType)
      ensures Model() == WithNode(old(Model()), id, nodeType)
    {
      WithNodeFacts(Model(), id, nodeType, root);
      if id in nodes {
        return Err(IdAlreadyPresent(id, nodeType));
      }
      if nodeType == Server {
        serverList := serverList + {id};
      }
      nodes := nodes[id := Entry(nodeType, [])];
      r := Ok(());
    }

    /** `add_link`: `IdNotFound` and no change unless both ids are known (`id2` is checked
        first); otherwise `id2` is pushed onto `id1`'s list and then `id1` onto `id2`'s. */
    method AddLink(id1: NodeId, id2: NodeId) returns (r: Result<()>)
      requires Valid()
      modifies this
      ensures Valid()
      ensures r == LinkResult(old(Model()), id1, id2)
      ensures Model() == Linked(old(Model()), id1, id2)
    {
      LinkedKeepsShape(Model(), id1, id2, root);
      if !ContainsId(id2) {
        return Err(IdNotFound(id2));
      }
      if id1 !in nodes {
        return Err(IdNotFound(id1));
      }
      nodes := nodes[id1 := Pushed(nodes[id1], id2)];
      nodes := nodes[id2 := Pushed(nodes[id2], id1)];
      r := Ok(());
    }

    /** `add_neighbour`: a new Drone linked with the root; `IdAlreadyPresent` and no
        change for a known id. */
    method AddNeighbour(id: NodeId) returns (r: Result<()>)
      requires Valid()
      modifies this
      ensures Valid()
      ensures r == AddNodeResult(old(Model()), id, Drone)
      ensures Model() == WithNeighbour(old(Model()), root, id)
    {
      r := AddEmptyNode(id, Drone);
      if r.Err? {
        return;
      }
      var _ := AddLink(id, root);
      r := Ok(());
    }

    /** `update_from_path_trace`: panics on an empty trace, where `len() - 1` underflows;
        otherwise the network becomes `Ingested` of the trace. */
    method UpdateFromPathTrace(trace: seq<(NodeId, NodeType)>) returns (r: Run<()>)
      requires Valid()
      modifies this
      ensures Valid()
      ensures r == Panics <==> |trace| == 0
      ensures |trace| == 0 ==> Model() == old(Model())
      ensures |trace| > 0 ==> Model() == Ingested(old(Model()), root, trace)
    {
      if |trace| > 0 {
        var (firstId, firstType) := trace[0];
        if !ContainsId(firstId) {
          var _ := AddEmptyNode(firstId, firstType);
        }
        var _ := AddLink(root, firstId);
      }
      if |trace| == 0 {
        return Panics;
      }
      var i := 0;
      while i < |trace| - 1
        invariant 0 <= i <= |trace| - 1
        invariant Valid()
        invariant IngestFrom(Model(), trace, i) == Ingested(old(Model()), root, trace)
      {
        IngestStep(trace[i], trace[i + 1]);
        i := i + 1;
      }
      r := Returns(());
    }

    /** One iteration of `update_from_path_trace`'s loop, on entries `first` and `second`:
        both are marked as servers when their type says so, created when unknown, and
        linked. */
    method IngestStep(first: (NodeId, NodeType), second: (NodeId, NodeType))
      requires Valid()
      modifies this
      ensures Valid()
      ensures Model() == IngestPair(old(Model()), first, second)
    {
      var (id1, type1) := first;
      if type1 == Server {
        MarkServer(id1);
      }
      var (id2, type2) := second;
      if type2 == Server {
        MarkServer(id2);
      }
      assert Model() == Mark(Mark(old(Model()), id1, type1), id2, type2);
      if !ContainsId(id1) {
        var _ := AddEmptyNode(id1, type1);
      }
      if !ContainsId(id2) {
        var _ := AddEmptyNode(id2, type2);
      }
      assert Model() == PairNodes(old(Model()), first, second);
      var _ := AddLink(id1, id2);
    }

    /** `server_list.insert(id)`. */
    method MarkServer(id: NodeId)
      requires Valid()
      modifies this
      ensures Valid()
      ensures Model() == Mark(old(Model()), id, Server)
    {
      MarkFacts(Model(), id, Server, root);
      serverList := serverList + {id};
    }

    /** `remove_node`: `RemoveSelfErr` for the root and `IdNotFound` for an unknown id,
        with no change; otherwise the node is removed (leaving the server set if it is a
        Server) and every remaining node is asked to drop `id`, in the map's order. The
        first node that lists `id` panics; the removal returns `Ok(id)` when none does. */
    method RemoveNode(id: NodeId) returns (r: Run<Result<NodeId>>)
      requires Valid()
      modifies this
      ensures r.Returns? ==> Valid()
      ensures id == root ==> r == Returns(Err(RemoveSelfErr)) && Model() == old(Model())
      ensures id != root && id !in old(nodes) ==> r == Returns(Err(IdNotFound(id))) && Model() == old(Model())
      ensures id != root && id in old(nodes) ==>
        && Model() == Removed(old(Model()), id)
        && (r == Panics <==> RemovePanics(old(Model()), id))
        && (r != Panics ==> r == Returns(Ok(id)))
    {
      if root == id {
        return Returns(Err(RemoveSelfErr));
      }
      var entry := Get(id);
      if entry.Err? {
        return Returns(Err(entry.error));
      }
      ghost var before := Model();
      RemovedFacts(before, id, root);
      if entry.value.nodeType == Server {
        serverList := serverList - {id};
      }
      nodes := nodes - {id};
      var remaining := nodes.Keys;
      while remaining != {}
        invariant remaining <= nodes.Keys
        invariant Model() == Removed(before, id)
        invariant forall y :: y in nodes && y !in remaining ==> id !in nodes[y].neighbours
        decreases remaining
      {
        var x :| x in remaining;
        var outcome := RemoveOutcome(nodes[x].neighbours, id);
        if outcome.Panics? {
          assert x in before.nodes && x != id && id in before.nodes[x].neighbours;
          return Panics;
        }
        remaining := remaining - {x};
      }
      assert !RemovePanics(before, id);
      r := Returns(Ok(id));
    }

    /** `increment_weight`: `IdNotFound` for an unknown id; otherwise both directions of
        every listed link of `id` are penalised, in list order. */
    method IncrementWeight(id: NodeId) returns (r: Result<()>)
      requires Valid()
      modifies this
      ensures Valid()
      ensures nodes == old(nodes) && serverList == old(serverList)
      ensures id !in nodes ==> r == Err(IdNotFound(id)) && weight == old(weight)
      ensures id in nodes ==> r == Ok(()) && weight == Penalized(old(weight), id, nodes[id].neighbours)
    {
      var entry := Get(id);
      if entry.Err? {
        return Err(entry.error);
      }
      var neighbours := entry.value.neighbours;
      var k := 0;
      while k < |neighbours|
        invariant 0 <= k <= |neighbours|
        invariant nodes == old(nodes) && serverList == old(serverList)
        invariant weight == Penalized(old(weight), id, neighbours[..k])
      {
        var neighbour := neighbours[k];
        weight := Bump(weight, (id, neighbour));
        weight := Bump(weight, (neighbour, id));
        assert neighbours[..k + 1][..k] == neighbours[..k];
        k := k + 1;
      }
      assert neighbours[..k] == neighbours;
      PenalizedSymmetric(old(weight), id, neighbours);
      r := Ok(());
    }

    /** `dijkstra`: a search from the root over the penalty weights, relaxing a hop only
        on a strict improvement. It fails exactly when it pops a node missing from the
        table, which happens exactly when a dangling id is reachable; otherwise its parent
        map is a shortest tree of the reachable nodes. Which of several equally cheap nodes
        the queue pops first is left open. */
    method Dijkstra() returns (r: Result<map<NodeId, Option<NodeId>>>)
      requires root in nodes
      ensures r.Err? <==> DanglingReachable(nodes, root)
      ensures r.Err? ==> r.error.IdNotFound? && r.error.id !in nodes
      ensures r.Ok? ==> exists dist, rank :: ShortestTree(nodes, EdgeWeights(weight), root, r.value, dist, rank)
    {
      var queue: map<NodeId, nat> := map[root := 0];
      var insideQueue: set<NodeId> := {root};
      var distance: map<NodeId, nat> := map[root := 0];
      var parents: map<NodeId, Option<NodeId>> := map[root := None];
      ghost var rank: map<NodeId, nat> := map[root := 0];
      ghost var tick: nat := 1;
      ghost var settled: set<NodeId> := {};
      Start(nodes, EdgeWeights(weight), root);
      while |queue| > 0
        invariant Outer(nodes, EdgeWeights(weight), root, queue, distance, parents, rank, tick, settled)
        invariant insideQueue == queue.Keys
        decreases AllIds() - settled
      {
        MinimumExists(queue);
        var u :| u in queue && forall x :: x in queue ==> queue[u] <= queue[x];
        ghost var popped := queue;
        queue := queue - {u};
        PopKeys(popped, insideQueue, u);
        insideQueue := insideQueue - {u};
        if u !in nodes {
          PopDangling(nodes, EdgeWeights(weight), root, popped, distance, parents, rank, tick, settled, u);
          return Err(IdNotFound(u));
        }
        queue, insideQueue, distance, parents, rank, tick :=
          RelaxNeighbours(u, popped, queue, insideQueue, distance, parents, rank, tick, settled);
        settled := settled + {u};
      }
      Done(nodes, EdgeWeights(weight), root, distance, parents, rank, tick, settled);
      ShortestTreeSpansReachable(nodes, EdgeWeights(weight), root, parents, distance, rank);
      r := Ok(parents);
    }

    /** `get_routes`: a failed search becomes `RouteNotFound`, which happens exactly when a
        dangling id is reachable; otherwise the destination's parent chain is assembled,
        and an unreachable destination, absent from the parent map, gives
        `ParentsMalformed`. A route is a cheapest walk from the root to the destination,
        without repeated nodes. */
    method GetRoutes(destination: NodeId) returns (r: Result<Path>)
      requires Valid()
      ensures DanglingReachable(nodes, root) ==> r == Err(RouteNotFound(destination))
      ensures !DanglingReachable(nodes, root) && !Reachable(nodes, root, destination) ==>
        r.Err? && r.error.ParentsMalformed? && r.error.destination == destination
      ensures r.Ok? <==> !DanglingReachable(nodes, root) && Reachable(nodes, root, destination)
      ensures r.Ok? ==> ShortestRoute(nodes, EdgeWeights(weight), root, r.value, destination) && Distinct(r.value)
      ensures r != Err(RouteNotFound(destination))
    {
      ClosedNoDangling(nodes, root);
      var search := Dijkstra();
      if search.Err? {
        return Err(RouteNotFound(destination));
      }
      var parents := search.value;
      ghost var w := EdgeWeights(weight);
      ghost var dist, rank :| ShortestTree(nodes, w, root, parents, dist, rank);
      ShortestTreeSpansReachable(nodes, w, root, parents, dist, rank);
      TreeRanked(nodes, w, root, parents, dist, rank);
      if destination in parents {
        TreeRoute(nodes, w, root, parents, dist, rank, destination);
      }
      r := ParentsToPath(parents, destination, rank);
    }

    /** `dfs`: from the prefix `currentPath` ending at `current`, appends to `paths` every
        drone route to `destination` that extends the prefix; on arrival the prefix itself.
        `visited` holds the prefix but its last node; `dfs` restores both before it
        returns, so they are passed by value here. */
    method Dfs(current: NodeId, destination: NodeId, visited: set<NodeId>, currentPath: Path, paths: seq<Path>)
        returns (found: seq<Path>)
      requires DfsPrefix(nodes, root, destination, currentPath) && current == currentPath[|currentPath| - 1]
      requires forall x :: x in visited <==> x in currentPath[..|currentPath| - 1]
      ensures |found| >= |paths| && found[..|paths|] == paths
      ensures forall p :: p in found[|paths|..] <==> DroneRoute(nodes, root, p, destination) && currentPath <= p
      ensures current == destination ==> found == paths + [currentPath]
      decreases AllIds() - visited, 0
    {
      if current == destination {
        DfsArrived(nodes, root, destination, currentPath);
        found := paths + [currentPath];
        assert found[|paths|..] == [currentPath];
        return;
      }
      var seen := visited + {current};
      assert forall x :: x in seen <==> x in currentPath;
      // `current` is always a node: the root is one, and only nodes are stepped to.
      var neighbours := nodes[current].neighbours;
      found := paths;
      var k := 0;
      while k < |neighbours|
        invariant 0 <= k <= |neighbours|
        invariant |found| >= |paths| && found[..|paths|] == paths
        invariant FoundThrough(nodes, root, destination, currentPath, paths, found, neighbours[..k])
      {
        found := DfsNeighbour(current, destination, seen, currentPath, paths, found, k);
        k := k + 1;
      }
      forall p | DroneRoute(nodes, root, p, destination) && currentPath <= p
        ensures |p| > |currentPath| && p[|currentPath|] in neighbours
      {
        DfsOnward(nodes, root, destination, currentPath, p);
      }
      assert neighbours[..k] == neighbours;
    }

    /** One pass of `dfs`'s loop, on the `k`-th neighbour of `current`: a neighbour already
        on the path, missing from the table, or neither a drone nor the destination is
        skipped; any other is pushed and searched from. */
    method DfsNeighbour(current: NodeId, destination: NodeId, seen: set<NodeId>, currentPath: Path,
                        paths: seq<Path>, found0: seq<Path>, k: nat)
        returns (found: seq<Path>)
      requires DfsPrefix(nodes, root, destination, currentPath) && current == currentPath[|currentPath| - 1]
      requires current != destination && forall x :: x in seen <==> x in currentPath
      requires k < |nodes[current].neighbours|
      requires |found0| >= |paths| && found0[..|paths|] == paths
      requires FoundThrough(nodes, root, destination, currentPath, paths, found0, nodes[current].neighbours[..k])
      ensures |found| >= |paths| && found[..|paths|] == paths
      ensures FoundThrough(nodes, root, destination, currentPath, paths, found, nodes[current].neighbours[..k + 1])
      decreases AllIds() - seen, 1
    {
      var neighbour := nodes[current].neighbours[k];
      assert nodes[current].neighbours[..k + 1] == nodes[current].neighbours[..k] + [neighbour];
      found := found0;
      if neighbour !in seen && neighbour in nodes
         && (nodes[neighbour].nodeType == Drone || neighbour == destination) {
        DfsChild(nodes, root, destination, currentPath, neighbour);
        found := Dfs(neighbour, destination, seen, currentPath + [neighbour], found);
        FoundTaken(nodes, root, destination, currentPath, paths, found0, found, nodes[current].neighbours[..k], neighbour);
      } else {
        forall p | DroneRoute(nodes, root, p, destination) && currentPath <= p && |p| > |currentPath|
          ensures p[|currentPath|] != neighbour
        {
          DfsBlocked(nodes, root, destination, currentPath, neighbour, p);
        }
        FoundSkipped(nodes, root, destination, currentPath, paths, found, nodes[current].neighbours[..k], neighbour);
      }
    }

    /** `multiple_paths`: every walk from the root to the destination that repeats no node
        and passes only through drones; `[[root]]` when the destination is the root. A
        route appears once per way of reaching it through the neighbour lists. */
    method MultiplePaths(destination: NodeId) returns (paths: seq<Path>)
      requires Valid()
      ensures forall p :: p in paths <==> DroneRoute(nodes, root, p, destination)
      ensures destination == root ==> paths == [[root]]
    {
      assert [root][..0] == [];
      paths := Dfs(root, destination, {}, [root], []);
      assert paths[0..] == paths;
      forall p | DroneRoute(nodes, root, p, destination) ensures [root] <= p {
        assert p[..1] == [root];
      }
    }

    /** The inner loop of `dijkstra` for the node `u` just popped from `popped`: each neighbour is relaxed,
        in list order, when the hop through `u` strictly improves its label. Afterwards
        `u` is settled. */
    method RelaxNeighbours(u: NodeId, ghost popped: map<NodeId, nat>,
                           queue0: map<NodeId, nat>, insideQueue0: set<NodeId>,
                           distance0: map<NodeId, nat>, parents0: map<NodeId, Option<NodeId>>,
                           ghost rank0: map<NodeId, nat>, ghost tick0: nat, ghost settled: set<NodeId>)
        returns (queue: map<NodeId, nat>, insideQueue: set<NodeId>,
                 distance: map<NodeId, nat>, parents: map<NodeId, Option<NodeId>>,
                 ghost rank: map<NodeId, nat>, ghost tick: nat)
      requires Outer(nodes, EdgeWeights(weight), root, popped, distance0, parents0, rank0, tick0, settled)
      requires u in popped && u in nodes && forall x :: x in popped ==> popped[u] <= popped[x]
      requires queue0 == popped - {u} && insideQueue0 == queue0.Keys
      ensures u !in settled
      ensures Outer(nodes, EdgeWeights(weight), root, queue, distance, parents, rank, tick, settled + {u})
      ensures insideQueue == queue.Keys
    {
      Pop(nodes, EdgeWeights(weight), root, popped, distance0, parents0, rank0, tick0, settled, u);
      queue, insideQueue, distance, parents, rank, tick := queue0, insideQueue0, distance0, parents0, rank0, tick0;
      var neighbours := nodes[u].neighbours;
      var k := 0;
      while k < |neighbours|
        invariant 0 <= k <= |neighbours| && neighbours == nodes[u].neighbours
        invariant Inner(nodes, EdgeWeights(weight), root, queue, distance, parents, rank, tick, settled, u)
        invariant RelaxedUpTo(nodes, EdgeWeights(weight), distance, u, k)
        invariant insideQueue == queue.Keys
      {
        queue, insideQueue, distance, parents, rank, tick :=
          RelaxEdge(u, k, queue, insideQueue, distance, parents, rank, tick, settled);
        k := k + 1;
      }
      Finish(nodes, EdgeWeights(weight), root, queue, distance, parents, rank, tick, settled, u);
    }

    /** One pass of that loop, for the `k`-th neighbour `v` of `u`: when the hop through
        `u` is strictly cheaper than `v`'s label (absent meaning infinite), `v` is
        re-prioritised if queued and pushed otherwise, and gets `u` as parent. */
    method RelaxEdge(u: NodeId, k: nat,
                     queue0: map<NodeId, nat>, insideQueue0: set<NodeId>,
                     distance0: map<NodeId, nat>, parents0: map<NodeId, Option<NodeId>>,
                     ghost rank0: map<NodeId, nat>, ghost tick0: nat, ghost settled: set<NodeId>)
        returns (queue: map<NodeId, nat>, insideQueue: set<NodeId>,
                 distance: map<NodeId, nat>, parents: map<NodeId, Option<NodeId>>,
                 ghost rank: map<NodeId, nat>, ghost tick: nat)
      requires Inner(nodes, EdgeWeights(weight), root, queue0, distance0, parents0, rank0, tick0, settled, u)
      requires k < |nodes[u].neighbours| && RelaxedUpTo(nodes, EdgeWeights(weight), distance0, u, k)
      requires insideQueue0 == queue0.Keys
      ensures Inner(nodes, EdgeWeights(weight), root, queue, distance, parents, rank, tick, settled, u)
      ensures RelaxedUpTo(nodes, EdgeWeights(weight), distance, u, k + 1)
      ensures insideQueue == queue.Keys
    {
      queue, insideQueue, distance, parents, rank, tick := queue0, insideQueue0, distance0, parents0, rank0, tick0;
      var v := nodes[u].neighbours[k];
      var newDistance := distance[u] + GetWeight(u, v);
      if v !in distance || newDistance < distance[v] {
        Relax(nodes, EdgeWeights(weight), root, queue, distance, parents, rank, tick, settled, u, k, v, newDistance);
        PushKeys(queue, insideQueue, v, newDistance);
        if v !in insideQueue {
          insideQueue := insideQueue + {v};
        }
        queue, distance, parents, rank, tick :=
          queue[v := newDistance], distance[v := newDistance], parents[v := Some(u)], rank[v := tick], tick + 1;
      } else {
        Skip(nodes, EdgeWeights(weight), distance, u, k);
      }
    }
  }

  /** The five-node network of the penalty scenario: 1 => 2 => 4 => 5 and 1 => 3 => 5. */
  function PenaltyNodes(): Nodes {
    map[1 := Entry(Client, [2, 3]), 2 := Entry(Drone, [1, 4]), 3 := Entry(Drone, [1, 5]),
        4 := Entry(Drone, [2, 5]), 5 := Entry(Server, [4, 3])]
  }

  /** The weights after `n` calls of `increment_weight(3)` on that table: both directions
      of both links of node 3, recorded at 0 by the first call and raised by each later one. */
  ghost predicate PenaltyWeighted(w: Weights, n: nat) {
    && w.Keys == (if n == 0 then {} else {(3, 1), (1, 3), (3, 5), (5, 3)})
    && forall k :: k in w ==> w[k] == n - 1
  }

  /** After seven calls the hop between 1 and 3 costs 6 and the hops of 1, 2, 4, 5 nothing. */
  lemma PenaltyCosts(w: Weights)
    requires PenaltyWeighted(w, 7)
    ensures WeightOf(w, 1, 3) == 6
    ensures WeightOf(w, 1, 2) == 0 && WeightOf(w, 2, 4) == 0 && WeightOf(w, 4, 5) == 0
  {
    assert (1, 3) in w;
    assert (1, 2) !in w && (2, 1) !in w && (2, 4) !in w && (4, 2) !in w && (4, 5) !in w && (5, 4) !in w;
  }

  /** The route through 2 and 4 costs nothing. */
  lemma PenaltyFree(w: Weights)
    requires PenaltyWeighted(w, 7)
    ensures RootPath(PenaltyNodes(), 1, [1, 2, 4, 5], 5) && PathCost(EdgeWeights(w), [1, 2, 4, 5]) == 0
  {
    PenaltyCosts(w);
    var c := EdgeWeights(w);
    assert [1, 2, 4, 5][..3] == [1, 2, 4] && [1, 2, 4][..2] == [1, 2] && [1, 2][..1] == [1];
    assert PathCost(c, [1, 2]) == 0;
    assert PathCost(c, [1, 2, 4]) == 0;
  }

  /** In that network after seven penalties, the only cheapest route from 1 to 5 without
      repeated nodes is 1, 2, 4, 5. */
  lemma PenaltyRoute(w: Weights, p: Path)
    requires PenaltyWeighted(w, 7)
    requires ShortestRoute(PenaltyNodes(), EdgeWeights(w), 1, p, 5) && Distinct(p)
    ensures p == [1, 2, 4, 5]
  {
    var g, c := PenaltyNodes(), EdgeWeights(w);
    PenaltyFree(w);
    PenaltyCosts(w);
    assert PathCost(c, p) == 0;
    assert |p| >= 2 && p[1] in g[1].neighbours;
    PathCostPrefix(c, p, 2);
    assert p[..2][..1] == [1];
    assert PathCost(c, p[..2]) == c(1, p[1]);
    assert p[1] == 2;
    assert |p| >= 3 && p[2] in g[2].neighbours && p[2] != p[0];
    assert |p| >= 4 && p[3] in g[4].neighbours && p[3] != p[1];
    assert p[3] == 5 == p[|p| - 1];
    assert p == p[..4] == [1, 2, 4, 5];
  }

  /** The penalty scenario's network as the topology operations build it. */
  function PenaltyTopology(): Topology {
    var t := WithNode(WithNode(WithNode(WithNode(Initial(1, Client), 2, Drone), 3, Drone), 4, Drone), 5, Server);
    Linked(Linked(Linked(Linked(Linked(t, 1, 2), 2, 4), 4, 5), 1, 3), 3, 5)
  }

  lemma PenaltyNodesAdded()
    ensures WithNode(WithNode(WithNode(WithNode(Initial(1, Client), 2, Drone), 3, Drone), 4, Drone), 5, Server)
      == Topology(map[1 := Entry(Client, []), 2 := Entry(Drone, []), 3 := Entry(Drone, []),
                      4 := Entry(Drone, []), 5 := Entry(Server, [])], map[], {5})
  {
  }

  lemma PenaltyFirstLinks(t: Topology)
    requires t.nodes == map[1 := Entry(Client, []), 2 := Entry(Drone, []), 3 := Entry(Drone, []),
                            4 := Entry(Drone, []), 5 := Entry(Server, [])]
    ensures Linked(Linked(t, 1, 2), 2, 4).nodes
      == map[1 := Entry(Client, [2]), 2 := Entry(Drone, [1, 4]), 3 := Entry(Drone, []),
             4 := Entry(Drone, [2]), 5 := Entry(Server, [])]
  {
    assert [] + [2] == [2] && [] + [1] == [1] && [1] + [4] == [1, 4];
  }

  lemma PenaltyLastLinks(t: Topology)
    requires t.nodes == map[1 := Entry(Client, [2]), 2 := Entry(Drone, [1, 4]), 3 := Entry(Drone, []),
                            4 := Entry(Drone, [2]), 5 := Entry(Server, [])]
    ensures Linked(Linked(Linked(t, 4, 5), 1, 3), 3, 5).nodes == PenaltyNodes()
  {
    assert [2] + [5] == [2, 5] && [] + [4] == [4] && [2] + [3] == [2, 3] && [] + [1] == [1];
    assert [1] + [5] == [1, 5] && [4] + [3] == [4, 3];
  }

  /** The scenario's links give the table `PenaltyNodes`, with no weights yet. */
  lemma PenaltyBuilt()
    ensures PenaltyTopology().nodes == PenaltyNodes() && PenaltyTopology().weight == map[]
  {
    var t := WithNode(WithNode(WithNode(WithNode(Initial(1, Client), 2, Drone), 3, Drone), 4, Drone), 5, Server);
    PenaltyNodesAdded();
    PenaltyFirstLinks(t);
    PenaltyLastLinks(Linked(Linked(t, 1, 2), 2, 4));
  }

  /** Each call raises both links of node 3, whose neighbours are 1 and 5. */
  lemma PenaltyStep(w: Weights, n: nat)
    requires PenaltyWeighted(w, n)
    ensures PenaltyWeighted(Penalized(w, 3, [1, 5]), n + 1)
  {
    var r := Penalized(w, 3, [1, 5]);
    PenalizedValues(w, 3, [1, 5]);
    assert 1 in [1, 5] && 5 in [1, 5];
    PenaltyStepKeys(w, n, r);
    PenaltyStepValues(w, n, r);
  }

  lemma PenaltyStepKeys(w: Weights, n: nat, r: Weights)
    requires PenaltyWeighted(w, n)
    requires forall k :: k in r ==> k in w || Touches(k, 3, [1, 5])
    requires (3, 1) in r && (1, 3) in r && (3, 5) in r && (5, 3) in r
    ensures r.Keys == {(3, 1), (1, 3), (3, 5), (5, 3)}
  {
    forall k | k in r ensures k in {(3, 1), (1, 3), (3, 5), (5, 3)} {
      if k !in w {
        assert Touches(k, 3, [1, 5]);
        if k.0 == 3 {
          assert k.1 == 1 || k.1 == 5;
        } else {
          assert k.0 == 1 || k.0 == 5;
        }
      }
    }
  }

  lemma PenaltyStepValues(w: Weights, n: nat, r: Weights)
    requires PenaltyWeighted(w, n)
    requires r.Keys == {(3, 1), (1, 3), (3, 5), (5, 3)}
    requires r[(3, 1)] == Raised(w, (3, 1)) && r[(1, 3)] == Raised(w, (1, 3))
    requires r[(3, 5)] == Raised(w, (3, 5)) && r[(5, 3)] == Raised(w, (5, 3))
    ensures PenaltyWeighted(r, n + 1)
  {
    forall k | k in r ensures r[k] == n {
      if n > 0 {
        assert k in w.Keys;
      }
    }
  }

  /** The scenario's network, built by `Network::new`, four `add_empty_node` and five
      `add_link` calls. */
  method PenaltyNetwork() returns (network: Network)
    ensures fresh(network) && network.Valid() && network.root == 1
    ensures network.Model() == PenaltyTopology()
  {
    network := new Network(1, Client);
    var _ := network.AddEmptyNode(2, Drone);
    var _ := network.AddEmptyNode(3, Drone);
    var _ := network.AddEmptyNode(4, Drone);
    var _ := network.AddEmptyNode(5, Server);
    var _ := network.AddLink(1, 2);
    var _ := network.AddLink(2, 4);
    var _ := network.AddLink(4, 5);
    var _ := network.AddLink(1, 3);
    var _ := network.AddLink(3, 5);
  }

  /** The penalty scenario: seven `increment_weight(3)` calls make both links of node 3
      cost 6, so the route to 5 avoids node 3. */
  method PenaltyScenario() returns (route: Result<Path>)
    ensures route == Ok([1, 2, 4, 5])
  {
    var network := PenaltyNetwork();
    PenaltyBuilt();
    var i := 0;
    while i < 7
      invariant 0 <= i <= 7 && network.Valid() && network.root == 1
      invariant network.nodes == PenaltyNodes() && PenaltyWeighted(network.weight, i)
    {
      assert network.nodes[3].neighbours == [1, 5];
      PenaltyStep(network.weight, i);
      var _ := network.IncrementWeight(3);
      i := i + 1;
    }
    PenaltyFree(network.weight);
    route := network.GetRoutes(5);
    PenaltyRoute(network.weight, route.value);
  }
}
