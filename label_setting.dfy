/** The loop invariants of the current network's Dijkstra search and the facts that carry
    them from one step to the next. The search keeps a priority queue of labelled nodes,
    a label (`distance`) and a parent for every node it has reached, and a set of settled
    nodes: those popped and fully relaxed. */
module LabelSetting {
  import opened Packets
  import opened Errors
  import opened Graphs

  /** Every queued node is labelled, with its label as its priority. */
  ghost predicate Frontier(queue: map<NodeId, nat>, dist: map<NodeId, nat>) {
    queue.Keys <= dist.Keys && forall x :: x in queue ==> queue[x] == dist[x]
  }

  /** The parent map hangs from `root` through parents in `done`: each child is listed by
      its parent, its label is its parent's plus the hop, and `rank` (below `tick`) grows
      from parent to child. */
  ghost predicate TreeOver(g: Nodes, w: EdgeWeight, root: NodeId, parents: map<NodeId, Option<NodeId>>,
                           dist: map<NodeId, nat>, rank: map<NodeId, nat>, tick: nat, done: set<NodeId>) {
    && parents.Keys == dist.Keys && rank.Keys == dist.Keys
    && root in dist && dist[root] == 0 && parents[root] == None
    && (forall x :: x in rank ==> rank[x] < tick)
    && forall v :: v in parents && v != root ==>
         && parents[v].Some? && parents[v].value in done && parents[v].value in g
         && parents[v].value in parents && v in g[parents[v].value].neighbours
         && dist[v] == dist[parents[v].value] + w(parents[v].value, v)
         && rank[parents[v].value] < rank[v]
  }

  /** Every labelled node is queued or settled, and no settled label exceeds a queued one. */
  ghost predicate OuterShape(queue: map<NodeId, nat>, dist: map<NodeId, nat>, settled: set<NodeId>) {
    && Frontier(queue, dist)
    && settled !! queue.Keys && dist.Keys == settled + queue.Keys
    && (forall s, q :: s in settled && q in queue ==> dist[s] <= dist[q])
  }

  /** The invariant of the outer loop: the shape above, a parent tree through settled
      parents, and final labels on the settled nodes. */
  ghost predicate Outer(g: Nodes, w: EdgeWeight, root: NodeId, queue: map<NodeId, nat>, dist: map<NodeId, nat>,
                        parents: map<NodeId, Option<NodeId>>, rank: map<NodeId, nat>, tick: nat, settled: set<NodeId>) {
    && root in g
    && OuterShape(queue, dist, settled)
    && TreeOver(g, w, root, parents, dist, rank, tick, settled)
    && SettledBelow(g, w, root, dist, settled)
  }

  /** While `u` is being relaxed: every labelled node is `u`, queued or settled, and `u`'s
      label lies between the settled labels and the queued ones. */
  ghost predicate InnerShape(queue: map<NodeId, nat>, dist: map<NodeId, nat>, settled: set<NodeId>, u: NodeId) {
    && Frontier(queue, dist)
    && u !in settled && u !in queue && settled !! queue.Keys
    && dist.Keys == settled + queue.Keys + {u}
    && (forall s :: s in settled ==> dist[s] <= dist[u])
    && (forall q :: q in queue ==> dist[u] <= dist[q])
  }

  /** `u`'s label is no larger than the cost of any walk from `root` to `u`. */
  ghost predicate FinalLabel(g: Nodes, w: EdgeWeight, root: NodeId, dist: map<NodeId, nat>, u: NodeId)
    requires u in dist
  {
    forall q :: RootPath(g, root, q, u) ==> dist[u] <= PathCost(w, q)
  }

  /** The invariant while the neighbours of the popped node `u` are relaxed. */
  ghost predicate Inner(g: Nodes, w: EdgeWeight, root: NodeId, queue: map<NodeId, nat>, dist: map<NodeId, nat>,
                        parents: map<NodeId, Option<NodeId>>, rank: map<NodeId, nat>, tick: nat, settled: set<NodeId>, u: NodeId) {
    && root in g && u in g
    && InnerShape(queue, dist, settled, u)
    && TreeOver(g, w, root, parents, dist, rank, tick, settled + {u})
    && SettledBelow(g, w, root, dist, settled)
    && FinalLabel(g, w, root, dist, u)
  }

  /** The first `k` neighbours of `u` are relaxed. */
  ghost predicate RelaxedUpTo(g: Nodes, w: EdgeWeight, dist: map<NodeId, nat>, u: NodeId, k: nat)
    requires u in g && u in dist && k <= |g[u].neighbours|
  {
    forall j :: 0 <= j < k ==> g[u].neighbours[j] in dist && dist[g[u].neighbours[j]] <= dist[u] + w(u, g[u].neighbours[j])
  }

  /** The search starts with only the root, labelled 0 and queued. */
  lemma Start(g: Nodes, w: EdgeWeight, root: NodeId)
    requires root in g
    ensures Outer(g, w, root, map[root := 0], map[root := 0], map[root := None], map[root := 0], 1, {})
  {
  }

  /** A popped node of least priority is final: the inner invariant holds for it. */
  lemma Pop(g: Nodes, w: EdgeWeight, root: NodeId, queue: map<NodeId, nat>, dist: map<NodeId, nat>,
            parents: map<NodeId, Option<NodeId>>, rank: map<NodeId, nat>, tick: nat, settled: set<NodeId>, u: NodeId)
    requires Outer(g, w, root, queue, dist, parents, rank, tick, settled)
    requires u in queue && u in g && forall x :: x in queue ==> queue[u] <= queue[x]
    ensures Inner(g, w, root, queue - {u}, dist, parents, rank, tick, settled, u)
    ensures RelaxedUpTo(g, w, dist, u, 0)
  {
    PopShape(queue, dist, settled, u);
    SettleMinimum(g, w, root, dist, settled, u);
  }

  lemma PopShape(queue: map<NodeId, nat>, dist: map<NodeId, nat>, settled: set<NodeId>, u: NodeId)
    requires OuterShape(queue, dist, settled)
    requires u in queue && forall x :: x in queue ==> queue[u] <= queue[x]
    ensures InnerShape(queue - {u}, dist, settled, u)
    ensures forall x :: x in dist && x !in settled ==> dist[u] <= dist[x]
  {
  }

  /** A popped node missing from the table is listed by a reachable settled node. */
  lemma PopDangling(g: Nodes, w: EdgeWeight, root: NodeId, queue: map<NodeId, nat>, dist: map<NodeId, nat>,
                    parents: map<NodeId, Option<NodeId>>, rank: map<NodeId, nat>, tick: nat, settled: set<NodeId>, u: NodeId)
    requires Outer(g, w, root, queue, dist, parents, rank, tick, settled)
    requires u in queue && u !in g
    ensures DanglingReachable(g, root)
  {
    var p := parents[u].value;
    assert ParentTree(g, root, parents, settled + {root}, rank);
    var path := TreePath(g, root, parents, settled + {root}, rank, p);
    assert Reachable(g, root, p) && u in g[p].neighbours;
  }

  /** Relaxing neighbour `k` of `u` (the node `v`) with the smaller label `nd` keeps the
      inner invariant. */
  lemma Relax(g: Nodes, w: EdgeWeight, root: NodeId, queue: map<NodeId, nat>, dist: map<NodeId, nat>,
              parents: map<NodeId, Option<NodeId>>, rank: map<NodeId, nat>, tick: nat, settled: set<NodeId>,
              u: NodeId, k: nat, v: NodeId, nd: nat)
    requires Inner(g, w, root, queue, dist, parents, rank, tick, settled, u)
    requires k < |g[u].neighbours| && RelaxedUpTo(g, w, dist, u, k)
    requires v == g[u].neighbours[k] && nd == dist[u] + w(u, v)
    requires v !in dist || nd < dist[v]
    ensures Inner(g, w, root, queue[v := nd], dist[v := nd], parents[v := Some(u)], rank[v := tick], tick + 1, settled, u)
    ensures RelaxedUpTo(g, w, dist[v := nd], u, k + 1)
  {
    RelaxShape(queue, dist, settled, u, v, nd);
    RelaxKeepsSettled(g, w, root, dist, dist[v := nd], settled);
    RelaxKeepsTree(g, w, root, parents, dist, rank, tick, settled + {u}, u, v, nd);
    RelaxExtends(g, w, dist, u, k, v, nd);
  }

  /** The relaxed node is neither `u` nor settled, so the shape survives the update. */
  lemma RelaxShape(queue: map<NodeId, nat>, dist: map<NodeId, nat>, settled: set<NodeId>, u: NodeId, v: NodeId, nd: nat)
    requires InnerShape(queue, dist, settled, u)
    requires dist[u] <= nd && (v !in dist || nd < dist[v])
    ensures v != u && v !in settled
    ensures InnerShape(queue[v := nd], dist[v := nd], settled, u)
    ensures dist[v := nd][u] == dist[u]
    ensures forall x :: x in dist ==> dist[v := nd][x] <= dist[x]
    ensures forall s :: s in settled ==> dist[v := nd][s] == dist[s]
  {
    assert v != u && v !in settled;
    FrontierUpdate(queue, dist, v, nd);
    PartitionUpdate(queue, dist, settled, u, v, nd);
  }

  lemma FrontierUpdate(queue: map<NodeId, nat>, dist: map<NodeId, nat>, v: NodeId, nd: nat)
    requires Frontier(queue, dist)
    ensures Frontier(queue[v := nd], dist[v := nd])
  {
  }

  lemma PartitionUpdate(queue: map<NodeId, nat>, dist: map<NodeId, nat>, settled: set<NodeId>, u: NodeId, v: NodeId, nd: nat)
    requires dist.Keys == settled + queue.Keys + {u}
    requires v != u && v !in settled
    ensures dist[v := nd].Keys == settled + queue[v := nd].Keys + {u}
  {
  }

  lemma RelaxExtends(g: Nodes, w: EdgeWeight, dist: map<NodeId, nat>, u: NodeId, k: nat, v: NodeId, nd: nat)
    requires u in g && u in dist && k < |g[u].neighbours| && RelaxedUpTo(g, w, dist, u, k)
    requires v == g[u].neighbours[k] && nd == dist[u] + w(u, v) && v != u
    requires v !in dist || nd < dist[v]
    ensures RelaxedUpTo(g, w, dist[v := nd], u, k + 1)
  {
  }

  lemma RelaxKeepsSettled(g: Nodes, w: EdgeWeight, root: NodeId, dist: map<NodeId, nat>, dist': map<NodeId, nat>, settled: set<NodeId>)
    requires SettledBelow(g, w, root, dist, settled)
    requires dist.Keys <= dist'.Keys
    requires forall x :: x in dist ==> dist'[x] <= dist[x]
    requires forall s :: s in settled ==> dist'[s] == dist[s]
    ensures SettledBelow(g, w, root, dist', settled)
  {
  }

  lemma RelaxKeepsTree(g: Nodes, w: EdgeWeight, root: NodeId, parents: map<NodeId, Option<NodeId>>,
                       dist: map<NodeId, nat>, rank: map<NodeId, nat>, tick: nat, done: set<NodeId>, u: NodeId, v: NodeId, nd: nat)
    requires TreeOver(g, w, root, parents, dist, rank, tick, done)
    requires u in done && u in g && u in dist && v in g[u].neighbours && nd == dist[u] + w(u, v)
    requires v !in done && v != root
    ensures TreeOver(g, w, root, parents[v := Some(u)], dist[v := nd], rank[v := tick], tick + 1, done)
  {
    var parents', dist', rank' := parents[v := Some(u)], dist[v := nd], rank[v := tick];
    RelaxTreeKeys(parents, dist, rank, tick, v, nd, u, rank');
    RelaxTreeLinks(g, w, root, parents, dist, rank, tick, done, u, v, nd);
  }

  lemma RelaxTreeKeys(parents: map<NodeId, Option<NodeId>>, dist: map<NodeId, nat>, rank: map<NodeId, nat>, tick: nat,
                      v: NodeId, nd: nat, u: NodeId, rank': map<NodeId, nat>)
    requires parents.Keys == dist.Keys && rank.Keys == dist.Keys
    requires forall x :: x in rank ==> rank[x] < tick
    requires rank' == rank[v := tick]
    ensures parents[v := Some(u)].Keys == dist[v := nd].Keys && rank'.Keys == dist[v := nd].Keys
    ensures forall x :: x in rank' ==> rank'[x] < tick + 1
  {
  }

  lemma RelaxTreeLinks(g: Nodes, w: EdgeWeight, root: NodeId, parents: map<NodeId, Option<NodeId>>,
                       dist: map<NodeId, nat>, rank: map<NodeId, nat>, tick: nat, done: set<NodeId>, u: NodeId, v: NodeId, nd: nat)
    requires TreeOver(g, w, root, parents, dist, rank, tick, done)
    requires u in done && u in g && u in dist && v in g[u].neighbours && nd == dist[u] + w(u, v)
    requires v !in done && v != root
    ensures var parents', dist', rank' := parents[v := Some(u)], dist[v := nd], rank[v := tick];
      forall x :: x in parents' && x != root ==>
         && parents'[x].Some? && parents'[x].value in done && parents'[x].value in g
         && parents'[x].value in parents' && x in g[parents'[x].value].neighbours
         && dist'[x] == dist'[parents'[x].value] + w(parents'[x].value, x)
         && rank'[parents'[x].value] < rank'[x]
  {
    var parents', dist', rank' := parents[v := Some(u)], dist[v := nd], rank[v := tick];
    forall x | x in parents' && x != root
      ensures && parents'[x].Some? && parents'[x].value in done && parents'[x].value in g
              && parents'[x].value in parents' && x in g[parents'[x].value].neighbours
              && dist'[x] == dist'[parents'[x].value] + w(parents'[x].value, x)
              && rank'[parents'[x].value] < rank'[x]
    {
      if x != v {
        assert parents'[x] == parents[x] && parents[x].value != v;
      }
    }
  }

  /** Skipping neighbour `k` of `u` when the new label is not smaller keeps the inner
      invariant. */
  lemma Skip(g: Nodes, w: EdgeWeight, dist: map<NodeId, nat>, u: NodeId, k: nat)
    requires u in g && u in dist && k < |g[u].neighbours| && RelaxedUpTo(g, w, dist, u, k)
    requires var v := g[u].neighbours[k]; v in dist && dist[v] <= dist[u] + w(u, v)
    ensures RelaxedUpTo(g, w, dist, u, k + 1)
  {
  }

  /** Once every neighbour of `u` is relaxed, `u` is settled. */
  lemma Finish(g: Nodes, w: EdgeWeight, root: NodeId, queue: map<NodeId, nat>, dist: map<NodeId, nat>,
               parents: map<NodeId, Option<NodeId>>, rank: map<NodeId, nat>, tick: nat, settled: set<NodeId>, u: NodeId)
    requires Inner(g, w, root, queue, dist, parents, rank, tick, settled, u)
    requires RelaxedUpTo(g, w, dist, u, |g[u].neighbours|)
    ensures Outer(g, w, root, queue, dist, parents, rank, tick, settled + {u})
  {
    FinishShape(queue, dist, settled, u);
    FinishSettled(g, w, root, dist, settled, u);
  }

  lemma FinishShape(queue: map<NodeId, nat>, dist: map<NodeId, nat>, settled: set<NodeId>, u: NodeId)
    requires InnerShape(queue, dist, settled, u)
    ensures OuterShape(queue, dist, settled + {u})
  {
  }

  lemma FinishSettled(g: Nodes, w: EdgeWeight, root: NodeId, dist: map<NodeId, nat>, settled: set<NodeId>, u: NodeId)
    requires u in g && u in dist && SettledBelow(g, w, root, dist, settled)
    requires FinalLabel(g, w, root, dist, u) && RelaxedUpTo(g, w, dist, u, |g[u].neighbours|)
    ensures SettledBelow(g, w, root, dist, settled + {u})
  {
    var s' := settled + {u};
    forall p, v | p in s' && v in g[p].neighbours
      ensures v in dist && dist[v] <= dist[p] + w(p, v)
    {
      if p == u {
        var j :| 0 <= j < |g[u].neighbours| && g[u].neighbours[j] == v;
      }
    }
  }

  /** With the queue empty every labelled node is settled, and the labelled parent map is
      a shortest tree. */
  lemma Done(g: Nodes, w: EdgeWeight, root: NodeId, dist: map<NodeId, nat>,
             parents: map<NodeId, Option<NodeId>>, rank: map<NodeId, nat>, tick: nat, settled: set<NodeId>)
    requires Outer(g, w, root, map[], dist, parents, rank, tick, settled)
    ensures ShortestTree(g, w, root, parents, dist, rank)
  {
    assert settled == dist.Keys;
    DoneLabelled(g, w, root, dist, parents, rank, tick, settled);
    DoneClosed(g, w, root, dist, parents, settled);
  }

  lemma DoneClosed(g: Nodes, w: EdgeWeight, root: NodeId, dist: map<NodeId, nat>,
                   parents: map<NodeId, Option<NodeId>>, settled: set<NodeId>)
    requires SettledBelow(g, w, root, dist, settled) && settled == dist.Keys && parents.Keys == dist.Keys
    ensures forall x, v :: x in parents && v in g[x].neighbours ==> v in parents
    ensures forall x, q :: x in parents && RootPath(g, root, q, x) ==> dist[x] <= PathCost(w, q)
  {
  }

  lemma DoneLabelled(g: Nodes, w: EdgeWeight, root: NodeId, dist: map<NodeId, nat>,
                     parents: map<NodeId, Option<NodeId>>, rank: map<NodeId, nat>, tick: nat, settled: set<NodeId>)
    requires TreeOver(g, w, root, parents, dist, rank, tick, settled) && settled == dist.Keys && settled <= g.Keys
    ensures LabelledTree(g, w, root, parents, dist, rank)
  {
  }

  /** `inside_queue` tracks the queue's keys through a pop. */
  lemma PopKeys(queue: map<NodeId, nat>, inside: set<NodeId>, u: NodeId)
    requires inside == queue.Keys
    ensures inside - {u} == (queue - {u}).Keys
  {
  }

  /** ... and through a push or a change of priority. */
  lemma PushKeys(queue: map<NodeId, nat>, inside: set<NodeId>, v: NodeId, p: nat)
    requires inside == queue.Keys
    ensures v in inside ==> inside == queue[v := p].Keys
    ensures inside + {v} == queue[v := p].Keys
  {
  }
}
