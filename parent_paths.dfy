/** Rebuilding a route from the parent map a search returns (`parents_to_path`, which
    both network snapshots define identically), and what such a route is. */
module ParentPaths {
  import opened Packets
  import opened Errors
  import opened Vecs
  import opened Graphs

  type Path = seq<NodeId>

  /** `p` is a walk from `root` to `d` that no other walk to `d` undercuts in cost. */
  ghost predicate ShortestRoute(g: Nodes, w: EdgeWeight, root: NodeId, p: Path, d: NodeId) {
    RootPath(g, root, p, d) && forall q :: RootPath(g, root, q, d) ==> PathCost(w, p) <= PathCost(w, q)
  }

  /** `rank` grows from every recorded parent to its child, so climbing terminates. */
  ghost predicate Ranked(parents: map<NodeId, Option<NodeId>>, rank: map<NodeId, nat>) {
    && parents.Keys <= rank.Keys
    && forall v :: v in parents && parents[v].Some? && parents[v].value in parents ==> rank[parents[v].value] < rank[v]
  }

  /** The nodes `parents_to_path` visits from `x`: `x`, its parent, its grandparent, and so
      on, up to a node with no entry or with no parent. */
  ghost function Climb(parents: map<NodeId, Option<NodeId>>, rank: map<NodeId, nat>, x: NodeId): seq<NodeId>
    requires Ranked(parents, rank)
    decreases if x in parents then rank[x] + 1 else 0
  {
    if x !in parents then [x]
    else match parents[x]
      case None => [x]
      case Some(p) => [x] + Climb(parents, rank, p)
  }

  /** A climb starts at `x`, follows parents, stops at the first node with no entry or no
      parent, and visits no node twice. */
  lemma {:induction false} ClimbFacts(parents: map<NodeId, Option<NodeId>>, rank: map<NodeId, nat>, x: NodeId)
    requires Ranked(parents, rank)
    ensures var c := Climb(parents, rank, x);
      && |c| >= 1 && c[0] == x && UpwardChain(parents, c)
      && (c[|c| - 1] !in parents || parents[c[|c| - 1]] == None)
      && Distinct(c)
      && (forall i :: 0 <= i < |c| && c[i] in parents ==> x in parents && rank[c[i]] <= rank[x])
    decreases if x in parents then rank[x] + 1 else 0
  {
    if x in parents && parents[x].Some? {
      var p := parents[x].value;
      ClimbFacts(parents, rank, p);
      var c, c' := Climb(parents, rank, x), Climb(parents, rank, p);
      assert c == [x] + c';
      forall i, j | 0 <= i < j < |c| ensures c[i] != c[j] {
        if i == 0 {
          assert c[j] == c'[j - 1];
          if c'[j - 1] in parents {
            assert rank[c'[j - 1]] <= rank[p] < rank[x];
          }
        } else {
          assert c[i] == c'[i - 1] && c[j] == c'[j - 1];
        }
      }
    }
  }

  /** `parents_to_path`: climbs from `destination` to a parentless node and returns the
      climb reversed; reaching an id with no entry is `ParentsMalformed`. `rank` is a
      ghost witness that the map has no cycle, on which the loop would not end. */
  method ParentsToPath(parents: map<NodeId, Option<NodeId>>, destination: NodeId, ghost rank: map<NodeId, nat>)
      returns (r: Result<Path>)
    requires Ranked(parents, rank)
    ensures var c := Climb(parents, rank, destination);
      && (c[|c| - 1] !in parents ==> r == Err(ParentsMalformed(parents, destination)))
      && (c[|c| - 1] in parents ==> r == Ok(Reversed(c)))
  {
    var path := [destination];
    var current := destination;
    while current in parents && parents[current].Some?
      invariant |path| >= 1 && path[|path| - 1] == current
      invariant path[..|path| - 1] + Climb(parents, rank, current) == Climb(parents, rank, destination)
      decreases if current in parents then rank[current] + 1 else 0
    {
      var parent := parents[current].value;
      ghost var above := path[..|path| - 1];
      assert path == above + [current];
      ClimbStep(parents, rank, above, current);
      path := path + [parent];
      assert path[..|path| - 1] == above + [current];
      current := parent;
    }
    assert path == Climb(parents, rank, destination);
    if current !in parents {
      return Err(ParentsMalformed(parents, destination));
    }
    path := Reversed(path);
    r := Ok(path);
  }

  /** One step of a climb, with what was climbed before it. */
  lemma ClimbStep(parents: map<NodeId, Option<NodeId>>, rank: map<NodeId, nat>, above: seq<NodeId>, x: NodeId)
    requires Ranked(parents, rank) && x in parents && parents[x].Some?
    ensures (above + [x]) + Climb(parents, rank, parents[x].value) == above + Climb(parents, rank, x)
  {
    assert Climb(parents, rank, x) == [x] + Climb(parents, rank, parents[x].value);
  }

  /** Read from the far end, a climb is a downward chain. */
  lemma ReversedUpIsDown(parents: map<NodeId, Option<NodeId>>, c: seq<NodeId>)
    requires UpwardChain(parents, c)
    ensures DownwardChain(parents, Reversed(c))
  {
    var r := Reversed(c);
    forall i | 1 <= i < |r| ensures r[i] in parents && parents[r[i]] == Some(r[i - 1]) {
      assert r[i] == c[|c| - 1 - i] && r[i - 1] == c[|c| - 1 - i + 1];
    }
  }

  lemma ReversedDistinct<T>(c: seq<T>)
    requires Distinct(c)
    ensures Distinct(Reversed(c))
  {
    var r := Reversed(c);
    forall i, j | 0 <= i < j < |r| ensures r[i] != r[j] {
      assert r[i] == c[|c| - 1 - i] && r[j] == c[|c| - 1 - j];
    }
  }

  /** In a labelled tree, the path `parents_to_path` assembles for a node of the tree is a
      walk from the root that repeats no node and costs exactly the node's label. */
  lemma TreeRoute(g: Nodes, w: EdgeWeight, root: NodeId, parents: map<NodeId, Option<NodeId>>,
                  dist: map<NodeId, nat>, rank: map<NodeId, nat>, d: NodeId)
    requires LabelledTree(g, w, root, parents, dist, rank) && d in parents
    ensures Ranked(parents, rank)
    ensures var c := Climb(parents, rank, d);
      && c[|c| - 1] in parents
      && RootPath(g, root, Reversed(c), d) && PathCost(w, Reversed(c)) == dist[d] && Distinct(Reversed(c))
  {
    var c := Climb(parents, rank, d);
    ClimbFacts(parents, rank, d);
    UpwardChainStays(g, w, root, parents, dist, rank, c);
    var r := Reversed(c);
    ReversedUpIsDown(parents, c);
    ReversedDistinct(c);
    assert r[0] == c[|c| - 1] && r[|r| - 1] == d;
    ChainCost(g, w, root, parents, dist, rank, r);
  }

  /** A labelled tree's rank orders every recorded parent before its child. */
  lemma TreeRanked(g: Nodes, w: EdgeWeight, root: NodeId, parents: map<NodeId, Option<NodeId>>,
                   dist: map<NodeId, nat>, rank: map<NodeId, nat>)
    requires LabelledTree(g, w, root, parents, dist, rank)
    ensures Ranked(parents, rank)
  {
  }
}
