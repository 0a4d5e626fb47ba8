/** Paths over a node table and the facts about shortest-path labels that both network
    snapshots rely on. A node table sends every known node id to its type and its
    neighbour list; a list may name ids that are not keys ("dangling" ids). */
module Graphs {
  import opened Packets
  import opened Errors

  /** A node as a network stores it: its type and its neighbour list. */
  datatype Entry = Entry(nodeType: NodeType, neighbours: seq<NodeId>)

  /** A node table: every known id with its entry. */
  type Nodes = map<NodeId, Entry>

  /** The cost of one hop, `get_weight` for Dijkstra and 1 for a breadth-first search. */
  type EdgeWeight = (NodeId, NodeId) -> nat

  /** Every possible node id; used as the bound of the searches' termination measures. */
  function AllIds(): (ids: set<NodeId>)
    ensures forall x: NodeId :: x in ids
  {
    IdsBelow(256)
  }

  /** The ids below `n`, which are `n` of them. */
  function IdsBelow(n: nat): (ids: set<NodeId>)
    requires n <= 256
    ensures forall x: NodeId :: x in ids <==> x < n
    ensures |ids| == n
  {
    if n == 0 then {} else
      assert n - 1 !in IdsBelow(n - 1);
      IdsBelow(n - 1) + {n - 1}
  }

  /** Every neighbour named in a list is itself a node. */
  ghost predicate Closed(g: Nodes) {
    forall a, b :: a in g && b in g[a].neighbours ==> b in g
  }

  /** Links are undirected: if `b` lists `a`, `a` lists `b`. */
  ghost predicate Symmetric(g: Nodes) {
    forall a, b :: a in g && b in g && b in g[a].neighbours ==> a in g[b].neighbours
  }

  /** `p` is a walk through known nodes whose every hop follows a neighbour list. */
  ghost predicate IsPath(g: Nodes, p: seq<NodeId>) {
    && |p| >= 1
    && (forall i :: 0 <= i < |p| ==> p[i] in g)
    && (forall i :: 0 <= i < |p| - 1 ==> p[i + 1] in g[p[i]].neighbours)
  }

  /** `p` is a walk from `root` to `x`. */
  ghost predicate RootPath(g: Nodes, root: NodeId, p: seq<NodeId>, x: NodeId) {
    IsPath(g, p) && p[0] == root && p[|p| - 1] == x
  }

  ghost predicate Reachable(g: Nodes, root: NodeId, x: NodeId) {
    exists p :: RootPath(g, root, p, x)
  }

  /** Some node reachable from `root` lists a neighbour that is not a node. */
  ghost predicate DanglingReachable(g: Nodes, root: NodeId) {
    exists x, v :: x in g && Reachable(g, root, x) && v in g[x].neighbours && v !in g
  }

  /** When every listed neighbour is a node, no dangling id is reachable. */
  lemma ClosedNoDangling(g: Nodes, root: NodeId)
    requires Closed(g)
    ensures !DanglingReachable(g, root)
  {
  }

  /** The sum of the hop weights along `p`. */
  ghost function PathCost(w: EdgeWeight, p: seq<NodeId>): nat
    decreases |p|
  {
    if |p| <= 1 then 0 else PathCost(w, p[..|p| - 1]) + w(p[|p| - 2], p[|p| - 1])
  }

  /** One unit per hop. */
  function Hops(): EdgeWeight {
    (a: NodeId, b: NodeId) => 1
  }

  lemma {:induction false} HopsCost(p: seq<NodeId>)
    requires |p| >= 1
    ensures PathCost(Hops(), p) == |p| - 1
    decreases |p|
  {
    if |p| > 1 {
      HopsCost(p[..|p| - 1]);
    }
  }

  /** Every walk from `root` stays inside a set that holds `root` and is closed under the
      neighbour lists. */
  lemma {:induction false} ClosedSetHoldsReachable(g: Nodes, root: NodeId, s: set<NodeId>, p: seq<NodeId>, x: NodeId)
    requires root in s
    requires forall a, b :: a in s && a in g && b in g[a].neighbours ==> b in s
    requires RootPath(g, root, p, x)
    ensures x in s
    decreases |p|
  {
    if |p| > 1 {
      var q := p[..|p| - 1];
      assert RootPath(g, root, q, q[|q| - 1]);
      ClosedSetHoldsReachable(g, root, s, q, q[|q| - 1]);
    }
  }

  /** The labels `dist` are final on `settled`: no walk from `root` to a settled node is
      cheaper than its label, and every hop out of a settled node has been relaxed. This is
      the invariant of a label-setting search (Dijkstra, and breadth-first search with
      unit weights). */
  ghost predicate SettledBelow(g: Nodes, w: EdgeWeight, root: NodeId, dist: map<NodeId, nat>, settled: set<NodeId>) {
    && settled <= dist.Keys
    && settled <= g.Keys
    && (forall p, v :: p in settled && v in g[p].neighbours ==> v in dist && dist[v] <= dist[p] + w(p, v))
    && (forall p, q :: p in settled && RootPath(g, root, q, p) ==> dist[p] <= PathCost(w, q))
  }

  /** A walk from `root` to an unsettled node meets an unsettled labelled node whose label
      is at most the walk's cost. */
  lemma {:induction false} FrontierBelow(g: Nodes, w: EdgeWeight, root: NodeId, dist: map<NodeId, nat>, settled: set<NodeId>, q: seq<NodeId>, x: NodeId)
      returns (y: NodeId)
    requires SettledBelow(g, w, root, dist, settled)
    requires root in dist && dist[root] == 0
    requires RootPath(g, root, q, x) && x !in settled
    ensures y in dist && y !in settled && dist[y] <= PathCost(w, q)
    decreases |q|
  {
    if |q| == 1 {
      y := root;
    } else {
      var q' := q[..|q| - 1];
      var x' := q'[|q'| - 1];
      assert RootPath(g, root, q', x');
      assert PathCost(w, q) == PathCost(w, q') + w(x', x);
      if x' in settled {
        assert x in g[x'].neighbours;
        y := x;
      } else {
        y := FrontierBelow(g, w, root, dist, settled, q', x');
      }
    }
  }

  /** The unsettled node of least label is final: settling it keeps `SettledBelow`'s lower
      bound. */
  lemma SettleMinimum(g: Nodes, w: EdgeWeight, root: NodeId, dist: map<NodeId, nat>, settled: set<NodeId>, u: NodeId)
    requires SettledBelow(g, w, root, dist, settled)
    requires root in dist && dist[root] == 0
    requires u in dist && u !in settled
    requires forall x :: x in dist && x !in settled ==> dist[u] <= dist[x]
    ensures forall q :: RootPath(g, root, q, u) ==> dist[u] <= PathCost(w, q)
  {
    forall q | RootPath(g, root, q, u) ensures dist[u] <= PathCost(w, q) {
      var y := FrontierBelow(g, w, root, dist, settled, q, u);
    }
  }

  /** A non-empty finite map has a key of least value: what a priority queue pops. */
  lemma MinimumExists(m: map<NodeId, nat>)
    requires |m| > 0
    ensures exists k :: k in m && forall j :: j in m ==> m[k] <= m[j]
  {
    var k :| k in m;
    var u := MinimumOn(m, m.Keys, k);
  }

  lemma {:induction false} MinimumOn(m: map<NodeId, nat>, s: set<NodeId>, k: NodeId) returns (u: NodeId)
    requires s <= m.Keys && k in s
    ensures u in s && forall j :: j in s ==> m[u] <= m[j]
    decreases |s|
  {
    var rest := s - {k};
    if rest == {} {
      u := k;
    } else {
      var k' :| k' in rest;
      var u' := MinimumOn(m, rest, k');
      u := if m[k] <= m[u'] then k else u';
    }
  }

  /** `parents` restricted to `s` is a tree hanging from `root`: every other member's parent
      is a member of lower rank that lists it. */
  ghost predicate ParentTree(g: Nodes, root: NodeId, parents: map<NodeId, Option<NodeId>>, s: set<NodeId>, rank: map<NodeId, nat>) {
    && root in s
    && s <= g.Keys
    && s <= rank.Keys
    && forall v :: v in s && v != root ==>
         && v in parents && parents[v].Some? && parents[v].value in s
         && v in g[parents[v].value].neighbours && rank[parents[v].value] < rank[v]
  }

  /** Climbing a parent tree yields a walk from its root. */
  lemma {:induction false} TreePath(g: Nodes, root: NodeId, parents: map<NodeId, Option<NodeId>>, s: set<NodeId>, rank: map<NodeId, nat>, x: NodeId)
      returns (p: seq<NodeId>)
    requires ParentTree(g, root, parents, s, rank) && x in s
    ensures RootPath(g, root, p, x)
    decreases rank[x]
  {
    if x == root {
      p := [root];
    } else {
      var u := parents[x].value;
      var p' := TreePath(g, root, parents, s, rank, u);
      p := p' + [x];
    }
  }

  /** `c` read root-first follows `parents` downwards: each entry's parent is the one before it. */
  ghost predicate DownwardChain(parents: map<NodeId, Option<NodeId>>, c: seq<NodeId>) {
    forall i :: 1 <= i < |c| ==> c[i] in parents && parents[c[i]] == Some(c[i - 1])
  }

  /** `c` starts at `c[0]` and climbs `parents`: each entry's parent is the next one. */
  ghost predicate UpwardChain(parents: map<NodeId, Option<NodeId>>, c: seq<NodeId>) {
    forall i :: 0 <= i < |c| - 1 ==> c[i] in parents && parents[c[i]] == Some(c[i + 1])
  }

  /** What a search hands to `parents_to_path`: a parent map labelled by `dist` in which
      only `root` has no parent, every parent lists its child, each label is its parent's
      plus the hop, and `rank` strictly decreases towards the root. */
  ghost predicate LabelledTree(g: Nodes, w: EdgeWeight, root: NodeId, parents: map<NodeId, Option<NodeId>>, dist: map<NodeId, nat>, rank: map<NodeId, nat>) {
    && parents.Keys == dist.Keys
    && parents.Keys <= g.Keys
    && parents.Keys <= rank.Keys
    && root in parents && parents[root] == None && dist[root] == 0
    && forall v :: v in parents && v != root ==>
         && parents[v].Some? && parents[v].value in parents
         && v in g[parents[v].value].neighbours
         && dist[v] == dist[parents[v].value] + w(parents[v].value, v)
         && rank[parents[v].value] < rank[v]
  }

  /** A labelled tree that holds exactly the nodes reachable from `root`, with every label
      the least cost of a walk to its node: the result of a complete label-setting search. */
  ghost predicate ShortestTree(g: Nodes, w: EdgeWeight, root: NodeId, parents: map<NodeId, Option<NodeId>>, dist: map<NodeId, nat>, rank: map<NodeId, nat>) {
    && LabelledTree(g, w, root, parents, dist, rank)
    && (forall x, v :: x in parents && v in g[x].neighbours ==> v in parents)
    && (forall x, q :: x in parents && RootPath(g, root, q, x) ==> dist[x] <= PathCost(w, q))
  }

  /** A shortest tree holds exactly the reachable nodes, and no dangling id is reachable. */
  lemma ShortestTreeSpansReachable(g: Nodes, w: EdgeWeight, root: NodeId, parents: map<NodeId, Option<NodeId>>, dist: map<NodeId, nat>, rank: map<NodeId, nat>)
    requires ShortestTree(g, w, root, parents, dist, rank)
    ensures forall x :: x in parents <==> Reachable(g, root, x)
    ensures !DanglingReachable(g, root)
  {
    forall x | x in parents ensures Reachable(g, root, x) {
      assert ParentTree(g, root, parents, parents.Keys, rank);
      var p := TreePath(g, root, parents, parents.Keys, rank, x);
    }
    forall x | Reachable(g, root, x) ensures x in parents {
      var p :| RootPath(g, root, p, x);
      ClosedSetHoldsReachable(g, root, parents.Keys, p, x);
    }
  }

  /** A downward chain of a labelled tree that starts at the parentless node is a walk from
      `root` whose cost is the label of its last node. */
  lemma {:induction false} ChainCost(g: Nodes, w: EdgeWeight, root: NodeId, parents: map<NodeId, Option<NodeId>>, dist: map<NodeId, nat>, rank: map<NodeId, nat>, c: seq<NodeId>)
    requires LabelledTree(g, w, root, parents, dist, rank)
    requires |c| >= 1 && c[0] in parents && parents[c[0]] == None && DownwardChain(parents, c)
    ensures RootPath(g, root, c, c[|c| - 1]) && PathCost(w, c) == dist[c[|c| - 1]]
    decreases |c|
  {
    if |c| == 1 {
      assert c[0] == root;
    } else {
      var c' := c[..|c| - 1];
      assert DownwardChain(parents, c');
      ChainCost(g, w, root, parents, dist, rank, c');
      var a, b := c[|c| - 2], c[|c| - 1];
      assert parents[b] == Some(a);
      assert b in g[a].neighbours && b in g;
      assert forall i :: 0 <= i < |c| - 1 ==> c[i] == c'[i];
      assert PathCost(w, c) == PathCost(w, c') + w(a, b);
    }
  }

  /** Climbing a labelled tree from one of its nodes never leaves it. */
  lemma {:induction false} UpwardChainStays(g: Nodes, w: EdgeWeight, root: NodeId, parents: map<NodeId, Option<NodeId>>, dist: map<NodeId, nat>, rank: map<NodeId, nat>, c: seq<NodeId>)
    requires LabelledTree(g, w, root, parents, dist, rank)
    requires |c| >= 1 && c[0] in parents && UpwardChain(parents, c)
    ensures c[|c| - 1] in parents
    decreases |c|
  {
    if |c| > 1 {
      UpwardChainStays(g, w, root, parents, dist, rank, c[1..]);
    }
  }

  /** Weights are never negative, so a walk costs at least as much as any of its prefixes. */
  lemma {:induction false} PathCostPrefix(w: EdgeWeight, p: seq<NodeId>, k: nat)
    requires 1 <= k <= |p|
    ensures PathCost(w, p[..k]) <= PathCost(w, p)
    decreases |p|
  {
    if k < |p| {
      PathCostPrefix(w, p[..|p| - 1], k);
      assert p[..|p| - 1][..k] == p[..k];
    } else {
      assert p[..k] == p;
    }
  }
}
