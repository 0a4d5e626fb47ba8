/** The legacy network's breadth-first search seen as a label-setting search with unit
    hop weights. Its first-in first-out queue, read with each node's label (its hop
    count), is always sorted and spans at most one hop, so the node at its front is a
    queued node of least label, and a neighbour is new exactly when going through the
    popped node would strictly improve its label. */
module BreadthFirst {
  import opened Packets
  import opened Errors
  import opened Vecs
  import opened Graphs
  import opened ParentPaths
  import opened LabelSetting

  /** Every queued node is labelled, once. */
  ghost predicate Queued(q: seq<NodeId>, dist: map<NodeId, nat>) {
    Distinct(q) && forall i :: 0 <= i < |q| ==> q[i] in dist
  }

  /** The queue read as a priority map: each queued node with its label. */
  ghost function QueueMap(q: seq<NodeId>, dist: map<NodeId, nat>): (m: map<NodeId, nat>)
    requires Queued(q, dist)
    ensures m.Keys == set i | 0 <= i < |q| :: q[i]
    ensures forall x :: x in m ==> m[x] == dist[x]
  {
    map x | x in q :: dist[x]
  }

  /** Labels never decrease from the front of the queue to its back. */
  ghost predicate Sorted(q: seq<NodeId>, dist: map<NodeId, nat>)
    requires Queued(q, dist)
  {
    forall i, j :: 0 <= i <= j < |q| ==> dist[q[i]] <= dist[q[j]]
  }

  /** Between two pops: sorted, and no queued label exceeds the front one by more than a hop. */
  ghost predicate Fifo(q: seq<NodeId>, dist: map<NodeId, nat>) {
    && Queued(q, dist) && Sorted(q, dist)
    && forall i :: 0 <= i < |q| ==> dist[q[i]] <= dist[q[0]] + 1
  }

  /** While the neighbours of the popped node `u` are visited: sorted, and every queued
      label is `u`'s or one more. */
  ghost predicate FifoAfter(q: seq<NodeId>, dist: map<NodeId, nat>, u: NodeId) {
    && u in dist && Queued(q, dist) && Sorted(q, dist)
    && forall i :: 0 <= i < |q| ==> dist[u] <= dist[q[i]] <= dist[u] + 1
  }

  /** The queue holding only the root, labelled 0. */
  lemma StartQueue(root: NodeId)
    ensures Fifo([root], map[root := 0])
    ensures QueueMap([root], map[root := 0]) == map[root := 0]
  {
  }

  /** Popping the front: it is a queued node of least label, the rest of the queue is the
      priority map without it, and the rest lies within a hop above it. */
  lemma PopFront(q: seq<NodeId>, dist: map<NodeId, nat>)
    requires Fifo(q, dist) && |q| > 0
    ensures q[0] in QueueMap(q, dist)
    ensures forall x :: x in QueueMap(q, dist) ==> QueueMap(q, dist)[q[0]] <= QueueMap(q, dist)[x]
    ensures Queued(q[1..], dist) && QueueMap(q[1..], dist) == QueueMap(q, dist) - {q[0]}
    ensures FifoAfter(q[1..], dist, q[0])
  {
    PopLeast(q, dist);
    PopRest(q, dist);
  }

  lemma PopLeast(q: seq<NodeId>, dist: map<NodeId, nat>)
    requires Fifo(q, dist) && |q| > 0
    ensures q[0] in QueueMap(q, dist)
    ensures forall x :: x in QueueMap(q, dist) ==> QueueMap(q, dist)[q[0]] <= QueueMap(q, dist)[x]
  {
    var m := QueueMap(q, dist);
    forall x | x in m ensures m[q[0]] <= m[x] {
      var i :| 0 <= i < |q| && q[i] == x;
    }
  }

  lemma PopRest(q: seq<NodeId>, dist: map<NodeId, nat>)
    requires Fifo(q, dist) && |q| > 0
    ensures Queued(q[1..], dist) && QueueMap(q[1..], dist) == QueueMap(q, dist) - {q[0]}
    ensures FifoAfter(q[1..], dist, q[0])
  {
    var r := q[1..];
    assert forall i :: 0 <= i < |r| ==> r[i] == q[i + 1];
    PopMap(q, dist);
  }

  lemma PopMap(q: seq<NodeId>, dist: map<NodeId, nat>)
    requires |q| > 0 && Queued(q, dist) && Queued(q[1..], dist)
    ensures QueueMap(q[1..], dist) == QueueMap(q, dist) - {q[0]}
  {
    var m := QueueMap(q, dist);
    forall x ensures x in QueueMap(q[1..], dist) <==> x in m - {q[0]} {
      if x in q[1..] {
        var i :| 0 <= i < |q[1..]| && q[1..][i] == x;
        assert q[i + 1] == x && i + 1 != 0;
      }
      if x in m - {q[0]} {
        var i :| 0 <= i < |q| && q[i] == x;
        assert i != 0 && q[1..][i - 1] == x;
      }
    }
  }

  /** Every label is at most one hop above the popped node's: the settled ones are no
      larger than it and the queued ones at most one more. */
  lemma LabelsBelow(q: seq<NodeId>, dist: map<NodeId, nat>, settled: set<NodeId>, u: NodeId)
    requires FifoAfter(q, dist, u)
    requires dist.Keys == settled + QueueMap(q, dist).Keys + {u}
    requires forall s :: s in settled ==> dist[s] <= dist[u]
    ensures forall x :: x in dist ==> dist[x] <= dist[u] + 1
  {
    forall x | x in dist ensures dist[x] <= dist[u] + 1 {
      if x in QueueMap(q, dist) {
        var i :| 0 <= i < |q| && q[i] == x;
      }
    }
  }

  /** Pushing a new node labelled one hop above `u` at the back keeps the queue in order and
      adds it to the priority map. */
  lemma PushBack(q: seq<NodeId>, dist: map<NodeId, nat>, u: NodeId, v: NodeId)
    requires FifoAfter(q, dist, u) && v !in dist
    ensures Queued(q + [v], dist[v := dist[u] + 1])
    ensures QueueMap(q + [v], dist[v := dist[u] + 1]) == QueueMap(q, dist)[v := dist[u] + 1]
    ensures FifoAfter(q + [v], dist[v := dist[u] + 1], u)
  {
    PushQueued(q, dist, v, dist[u] + 1);
    PushMap(q, dist, v, dist[u] + 1);
    PushSorted(q, dist, u, v);
  }

  lemma PushQueued(q: seq<NodeId>, dist: map<NodeId, nat>, v: NodeId, nd: nat)
    requires Queued(q, dist) && v !in dist
    ensures Queued(q + [v], dist[v := nd])
  {
    var q' := q + [v];
    assert forall i :: 0 <= i < |q| ==> q'[i] == q[i] && q[i] != v;
  }

  lemma PushMap(q: seq<NodeId>, dist: map<NodeId, nat>, v: NodeId, nd: nat)
    requires Queued(q, dist) && Queued(q + [v], dist[v := nd]) && v !in dist
    ensures QueueMap(q + [v], dist[v := nd]) == QueueMap(q, dist)[v := nd]
  {
    var q' := q + [v];
    var m, m' := QueueMap(q, dist), QueueMap(q', dist[v := nd]);
    forall x ensures x in m' <==> x in m[v := nd] {
      if x in m' && x != v {
        var i :| 0 <= i < |q'| && q'[i] == x;
        assert i < |q| && q[i] == x;
      }
      if x in m {
        var i :| 0 <= i < |q| && q[i] == x;
        assert q'[i] == x;
      }
    }
  }

  lemma PushSorted(q: seq<NodeId>, dist: map<NodeId, nat>, u: NodeId, v: NodeId)
    requires FifoAfter(q, dist, u) && v !in dist && Queued(q + [v], dist[v := dist[u] + 1])
    ensures FifoAfter(q + [v], dist[v := dist[u] + 1], u)
  {
    var q', dist' := q + [v], dist[v := dist[u] + 1];
    assert forall i :: 0 <= i < |q| ==> q'[i] == q[i] && q[i] != v && dist'[q[i]] == dist[q[i]];
  }

  /** Once `u` is done the queue is again in the between-pops shape. */
  lemma FinishQueue(q: seq<NodeId>, dist: map<NodeId, nat>, u: NodeId)
    requires FifoAfter(q, dist, u)
    ensures Fifo(q, dist)
  {
  }

  /** While the `k`-th neighbour of the popped node `u` is next: the queue is in order, the
      label-setting search's inner invariant holds, and the first `k` neighbours are relaxed. */
  ghost predicate Visiting(g: Nodes, root: NodeId, q: seq<NodeId>, dist: map<NodeId, nat>,
                           parents: map<NodeId, Option<NodeId>>, rank: map<NodeId, nat>, tick: nat,
                           settled: set<NodeId>, u: NodeId, k: nat) {
    && FifoAfter(q, dist, u)
    && Inner(g, Hops(), root, QueueMap(q, dist), dist, parents, rank, tick, settled, u)
    && k <= |g[u].neighbours|
    && RelaxedUpTo(g, Hops(), dist, u, k)
  }

  /** Visiting a neighbour `v` of `u` not seen yet: labelled one hop above `u`, given `u` as
      parent and queued at the back, it is relaxed, and the search's invariant is kept. */
  lemma Discover(g: Nodes, root: NodeId, q: seq<NodeId>, dist: map<NodeId, nat>,
                 parents: map<NodeId, Option<NodeId>>, rank: map<NodeId, nat>, tick: nat,
                 settled: set<NodeId>, u: NodeId, k: nat, v: NodeId, nd: nat)
    requires Visiting(g, root, q, dist, parents, rank, tick, settled, u, k)
    requires k < |g[u].neighbours| && v == g[u].neighbours[k] && v !in dist && nd == dist[u] + 1
    ensures Visiting(g, root, q + [v], dist[v := nd], parents[v := Some(u)], rank[v := tick], tick + 1,
                     settled, u, k + 1)
  {
    PushBack(q, dist, u, v);
    DiscoverRelaxes(g, root, q, dist, parents, rank, tick, settled, u, k, v, nd, QueueMap(q + [v], dist[v := nd]));
  }

  lemma DiscoverRelaxes(g: Nodes, root: NodeId, q: seq<NodeId>, dist: map<NodeId, nat>,
                        parents: map<NodeId, Option<NodeId>>, rank: map<NodeId, nat>, tick: nat,
                        settled: set<NodeId>, u: NodeId, k: nat, v: NodeId, nd: nat, m: map<NodeId, nat>)
    requires Visiting(g, root, q, dist, parents, rank, tick, settled, u, k)
    requires k < |g[u].neighbours| && v == g[u].neighbours[k] && v !in dist && nd == dist[u] + 1
    requires m == QueueMap(q, dist)[v := nd]
    ensures Inner(g, Hops(), root, m, dist[v := nd], parents[v := Some(u)],
                  rank[v := tick], tick + 1, settled, u)
    ensures RelaxedUpTo(g, Hops(), dist[v := nd], u, k + 1)
  {
    Relax(g, Hops(), root, QueueMap(q, dist), dist, parents, rank, tick, settled, u, k, v, nd);
  }

  /** Visiting a neighbour already seen: its label is at most one hop above `u`'s, so the
      hop through `u` would not improve it. */
  lemma Revisit(g: Nodes, root: NodeId, q: seq<NodeId>, dist: map<NodeId, nat>,
                parents: map<NodeId, Option<NodeId>>, rank: map<NodeId, nat>, tick: nat,
                settled: set<NodeId>, u: NodeId, k: nat)
    requires Visiting(g, root, q, dist, parents, rank, tick, settled, u, k)
    requires k < |g[u].neighbours| && g[u].neighbours[k] in dist
    ensures Visiting(g, root, q, dist, parents, rank, tick, settled, u, k + 1)
  {
    LabelsBelow(q, dist, settled, u);
    Skip(g, Hops(), dist, u, k);
  }

  /** With unit weights a cheapest route is one with the fewest hops. */
  lemma FewestHops(g: Nodes, root: NodeId, p: Path, d: NodeId)
    requires ShortestRoute(g, Hops(), root, p, d)
    ensures forall q :: RootPath(g, root, q, d) ==> |p| <= |q|
  {
    HopsCost(p);
    forall q | RootPath(g, root, q, d) ensures |p| <= |q| {
      HopsCost(q);
    }
  }
}
