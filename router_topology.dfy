/** The value the current topology graph stands for, and what each of its updates does
    to that value: the node table, the penalty weights and the server set. The class in
    RouterNetwork keeps its fields equal to one of these values. */
module RouterTopology {
  import opened Packets
  import opened Errors
  import opened Graphs
  import opened Vecs

  type Weights = map<(NodeId, NodeId), nat>

  datatype Topology = Topology(nodes: Nodes, weight: Weights, servers: set<NodeId>)

  /** Every node other than the root whose type is Server is listed as a server. */
  ghost predicate ServersIndexed(t: Topology, root: NodeId) {
    forall x :: x in t.nodes && x != root && t.nodes[x].nodeType == Server ==> x in t.servers
  }

  /** `t` only grew into `r`: no node is lost or retyped, lists are only extended, servers
      are only added and the weights are untouched. */
  ghost predicate Grows(t: Topology, r: Topology) {
    && (forall x :: x in t.nodes ==> x in r.nodes && r.nodes[x].nodeType == t.nodes[x].nodeType)
    && (forall x :: x in t.nodes ==> x in r.nodes && t.nodes[x].neighbours <= r.nodes[x].neighbours)
    && t.servers <= r.servers
    && r.weight == t.weight
  }

  lemma GrowsTransitive(t: Topology, s: Topology, r: Topology)
    requires Grows(t, s) && Grows(s, r)
    ensures Grows(t, r)
  {
  }

  /** A listed neighbour stays listed as the network grows. */
  lemma GrowsKeepsLinks(t: Topology, r: Topology, x: NodeId, y: NodeId)
    requires Grows(t, r) && x in t.nodes && y in t.nodes[x].neighbours
    ensures x in r.nodes && y in r.nodes[x].neighbours
  {
    var i :| 0 <= i < |t.nodes[x].neighbours| && t.nodes[x].neighbours[i] == y;
    assert r.nodes[x].neighbours[i] == y;
  }

  /** A network that holds only the root. */
  function Initial(root: NodeId, rootType: NodeType): (t: Topology)
    ensures t.nodes.Keys == {root} && t.nodes[root] == Entry(rootType, [])
    ensures t.weight == map[] && t.servers == {}
  {
    Topology(map[root := Entry(rootType, [])], map[], {})
  }

  /** Records `id` as a server when the reported type says so. */
  function Mark(t: Topology, id: NodeId, ty: NodeType): Topology {
    if ty == Server then t.(servers := t.servers + {id}) else t
  }

  /** The network after `add_empty_node(id, ty)`: unchanged when `id` is known, otherwise
      `id` joins with no neighbours, and as a server when its type is Server. */
  function WithNode(t: Topology, id: NodeId, ty: NodeType): Topology {
    if id in t.nodes then t else Mark(t, id, ty).(nodes := t.nodes[id := Entry(ty, [])])
  }

  function AddNodeResult(t: Topology, id: NodeId, ty: NodeType): Result<()> {
    if id in t.nodes then Err(IdAlreadyPresent(id, ty)) else Ok(())
  }

  /** `id`'s entry with `n` pushed onto its list. */
  function Pushed(e: Entry, n: NodeId): Entry {
    e.(neighbours := e.neighbours + [n])
  }

  /** The network after `add_link(a, b)`: unchanged unless both ids are known; otherwise
      `b` is pushed onto `a`'s list and then `a` onto `b`'s. */
  function Linked(t: Topology, a: NodeId, b: NodeId): Topology {
    if b !in t.nodes || a !in t.nodes then t
    else
      var n1 := t.nodes[a := Pushed(t.nodes[a], b)];
      t.(nodes := n1[b := Pushed(n1[b], a)])
  }

  /** `b` is checked first, then `a`. */
  function LinkResult(t: Topology, a: NodeId, b: NodeId): Result<()> {
    if b !in t.nodes then Err(IdNotFound(b)) else if a !in t.nodes then Err(IdNotFound(a)) else Ok(())
  }

  lemma MarkFacts(t: Topology, id: NodeId, ty: NodeType, root: NodeId)
    ensures Grows(t, Mark(t, id, ty)) && Mark(t, id, ty).nodes == t.nodes
    ensures ty == Server ==> id in Mark(t, id, ty).servers
    ensures ServersIndexed(t, root) ==> ServersIndexed(Mark(t, id, ty), root)
  {
  }

  /** Adding an empty node keeps the lists closed, and symmetric when they were closed;
      an unknown id that some list already named would otherwise break symmetry. */
  lemma WithNodeFacts(t: Topology, id: NodeId, ty: NodeType, root: NodeId)
    ensures id in WithNode(t, id, ty).nodes && Grows(t, WithNode(t, id, ty))
    ensures Closed(t.nodes) ==> Closed(WithNode(t, id, ty).nodes)
    ensures Closed(t.nodes) && Symmetric(t.nodes) ==> Symmetric(WithNode(t, id, ty).nodes)
    ensures ServersIndexed(t, root) ==> ServersIndexed(WithNode(t, id, ty), root)
  {
    if id !in t.nodes {
      var r := WithNode(t, id, ty);
      assert forall x :: x in t.nodes ==> r.nodes[x] == t.nodes[x];
      if Closed(t.nodes) {
        forall x, y | x in r.nodes && y in r.nodes[x].neighbours
          ensures y in r.nodes
        {
          if x != id {
            assert y in t.nodes[x].neighbours;
          }
        }
        if Symmetric(t.nodes) {
          forall x, y | x in r.nodes && y in r.nodes && y in r.nodes[x].neighbours
            ensures x in r.nodes[y].neighbours
          {
            assert x != id && y in t.nodes[x].neighbours;
          }
        }
      }
    }
  }

  /** Adding a link of two known ids, in both directions. */
  lemma LinkedFacts(t: Topology, a: NodeId, b: NodeId)
    ensures var r := Linked(t, a, b);
      && (LinkResult(t, a, b).Ok? <==> a in t.nodes && b in t.nodes)
      && r.nodes.Keys == t.nodes.Keys && r.servers == t.servers && r.weight == t.weight
      && (forall x :: x in t.nodes ==> r.nodes[x].nodeType == t.nodes[x].nodeType)
      && (a in t.nodes && b in t.nodes ==> b in r.nodes[a].neighbours && a in r.nodes[b].neighbours)
      && (forall x :: x in t.nodes && x != a && x != b ==> r.nodes[x] == t.nodes[x])
  {
  }

  /** Each entry after linking: `b` is appended to `a`'s list, then `a` to `b`'s. */
  lemma LinkedEntry(t: Topology, a: NodeId, b: NodeId, x: NodeId)
    requires a in t.nodes && b in t.nodes && x in t.nodes
    ensures x in Linked(t, a, b).nodes
    ensures Linked(t, a, b).nodes[x] ==
      Entry(t.nodes[x].nodeType, t.nodes[x].neighbours + (if x == a then [b] else []) + (if x == b then [a] else []))
  {
  }

  /** Linking keeps the neighbour lists closed and symmetric and only extends them. */
  lemma LinkedKeepsShape(t: Topology, a: NodeId, b: NodeId, root: NodeId)
    ensures Closed(t.nodes) ==> Closed(Linked(t, a, b).nodes)
    ensures Symmetric(t.nodes) ==> Symmetric(Linked(t, a, b).nodes)
    ensures Grows(t, Linked(t, a, b))
    ensures ServersIndexed(t, root) ==> ServersIndexed(Linked(t, a, b), root)
  {
    if a in t.nodes && b in t.nodes {
      LinkedGrows(t, a, b);
      if Closed(t.nodes) {
        LinkedClosed(t, a, b);
      }
      if Symmetric(t.nodes) {
        LinkedSymmetric(t, a, b);
      }
    }
  }

  lemma LinkedGrows(t: Topology, a: NodeId, b: NodeId)
    requires a in t.nodes && b in t.nodes
    ensures Grows(t, Linked(t, a, b))
  {
    var r := Linked(t, a, b);
    forall x | x in t.nodes
      ensures x in r.nodes && r.nodes[x].nodeType == t.nodes[x].nodeType && t.nodes[x].neighbours <= r.nodes[x].neighbours
    {
      LinkedEntry(t, a, b, x);
    }
  }

  lemma LinkedClosed(t: Topology, a: NodeId, b: NodeId)
    requires a in t.nodes && b in t.nodes && Closed(t.nodes)
    ensures Closed(Linked(t, a, b).nodes)
  {
    var r := Linked(t, a, b);
    forall x, y | x in r.nodes && y in r.nodes[x].neighbours
      ensures y in r.nodes
    {
      LinkedEntry(t, a, b, x);
    }
  }

  lemma LinkedSymmetric(t: Topology, a: NodeId, b: NodeId)
    requires a in t.nodes && b in t.nodes && Symmetric(t.nodes)
    ensures Symmetric(Linked(t, a, b).nodes)
  {
    var r := Linked(t, a, b);
    forall x, y | x in r.nodes && y in r.nodes && y in r.nodes[x].neighbours
      ensures x in r.nodes[y].neighbours
    {
      LinkedEntry(t, a, b, x);
      LinkedEntry(t, a, b, y);
      if y in t.nodes[x].neighbours {
        assert x in t.nodes[y].neighbours;
      }
    }
  }

  /** The network after `add_neighbour(id)`: `id` joins as a Drone and is linked with the
      root (`id`'s list first); a known id changes nothing. */
  function WithNeighbour(t: Topology, root: NodeId, id: NodeId): Topology {
    if id in t.nodes then t else Linked(WithNode(t, id, Drone), id, root)
  }

  /** A new neighbour is a Drone linked with the root both ways. */
  lemma WithNeighbourFacts(t: Topology, root: NodeId, id: NodeId)
    requires root in t.nodes && id !in t.nodes
    ensures var r := WithNeighbour(t, root, id);
      && Grows(t, r) && id in r.nodes && r.nodes[id].nodeType == Drone
      && root in r.nodes[id].neighbours && id in r.nodes[root].neighbours
      && (ServersIndexed(t, root) ==> ServersIndexed(r, root))
      && (Closed(t.nodes) ==> Closed(r.nodes))
      && (Closed(t.nodes) && Symmetric(t.nodes) ==> Symmetric(r.nodes))
  {
    var t0 := WithNode(t, id, Drone);
    WithNodeFacts(t, id, Drone, root);
    LinkedKeepsShape(t0, id, root, root);
    LinkedFacts(t0, id, root);
    GrowsTransitive(t, t0, WithNeighbour(t, root, id));
  }

  /** The first entry of a trace is created if unknown and linked to the root (to itself
      when the trace starts at the root). */
  function LinkFirst(t: Topology, root: NodeId, first: (NodeId, NodeType)): Topology {
    Linked(WithNode(t, first.0, first.1), root, first.0)
  }

  /** The two nodes of a pair step, marked as servers and created when unknown. */
  function PairNodes(t: Topology, p1: (NodeId, NodeType), p2: (NodeId, NodeType)): Topology {
    WithNode(WithNode(Mark(Mark(t, p1.0, p1.1), p2.0, p2.1), p1.0, p1.1), p2.0, p2.1)
  }

  /** One loop step of `update_from_path_trace` on a consecutive pair of trace entries. */
  function IngestPair(t: Topology, p1: (NodeId, NodeType), p2: (NodeId, NodeType)): Topology {
    Linked(PairNodes(t, p1, p2), p1.0, p2.0)
  }

  /** The pair steps from pair `i` (entries `i` and `i + 1`) to the end of the trace. */
  function IngestFrom(t: Topology, trace: seq<(NodeId, NodeType)>, i: nat): Topology
    decreases |trace| - i
  {
    if i + 1 >= |trace| then t else IngestFrom(IngestPair(t, trace[i], trace[i + 1]), trace, i + 1)
  }

  /** The network after `update_from_path_trace` on a non-empty trace. */
  function Ingested(t: Topology, root: NodeId, trace: seq<(NodeId, NodeType)>): Topology
    requires |trace| > 0
  {
    IngestFrom(LinkFirst(t, root, trace[0]), trace, 0)
  }

  ghost predicate Keeps(t: Topology, r: Topology, root: NodeId) {
    && Grows(t, r)
    && (Closed(t.nodes) ==> Closed(r.nodes))
    && (Closed(t.nodes) && Symmetric(t.nodes) ==> Symmetric(r.nodes))
    && (ServersIndexed(t, root) ==> ServersIndexed(r, root))
  }

  lemma KeepsTransitive(t: Topology, s: Topology, r: Topology, root: NodeId)
    requires Keeps(t, s, root) && Keeps(s, r, root)
    ensures Keeps(t, r, root)
  {
    GrowsTransitive(t, s, r);
  }

  lemma PairNodesKeeps(t: Topology, p1: (NodeId, NodeType), p2: (NodeId, NodeType), root: NodeId)
    ensures Keeps(t, PairNodes(t, p1, p2), root)
  {
    var m1 := Mark(t, p1.0, p1.1);
    var m2 := Mark(m1, p2.0, p2.1);
    var n1 := WithNode(m2, p1.0, p1.1);
    MarkFacts(t, p1.0, p1.1, root);
    MarkFacts(m1, p2.0, p2.1, root);
    WithNodeFacts(m2, p1.0, p1.1, root);
    WithNodeFacts(n1, p2.0, p2.1, root);
    KeepsTransitive(t, m1, m2, root);
    KeepsTransitive(t, m2, n1, root);
    KeepsTransitive(t, n1, PairNodes(t, p1, p2), root);
  }

  /** One pair step keeps the invariants. */
  lemma IngestPairKeeps(t: Topology, p1: (NodeId, NodeType), p2: (NodeId, NodeType), root: NodeId)
    ensures Keeps(t, IngestPair(t, p1, p2), root)
  {
    PairNodesKeeps(t, p1, p2, root);
    LinkedKeepsShape(PairNodes(t, p1, p2), p1.0, p2.0, root);
    KeepsTransitive(t, PairNodes(t, p1, p2), IngestPair(t, p1, p2), root);
  }

  /** What one pair step records. */
  lemma IngestPairRecords(t: Topology, p1: (NodeId, NodeType), p2: (NodeId, NodeType))
    ensures var r := IngestPair(t, p1, p2);
      && p1.0 in r.nodes && p2.0 in r.nodes
      && p2.0 in r.nodes[p1.0].neighbours && p1.0 in r.nodes[p2.0].neighbours
      && (p1.1 == Server ==> p1.0 in r.servers)
      && (p2.1 == Server ==> p2.0 in r.servers)
      && (forall x :: x in r.nodes && x !in t.nodes ==>
            (x == p1.0 && r.nodes[x].nodeType == p1.1) || (x == p2.0 && r.nodes[x].nodeType == p2.1))
  {
    var s := PairNodes(t, p1, p2);
    LinkedFacts(s, p1.0, p2.0);
  }

  /** The remaining pair steps keep the invariants. */
  lemma {:induction false} IngestFromKeeps(t: Topology, trace: seq<(NodeId, NodeType)>, i: nat, root: NodeId)
    ensures Keeps(t, IngestFrom(t, trace, i), root)
    decreases |trace| - i
  {
    if i + 1 < |trace| {
      var s := IngestPair(t, trace[i], trace[i + 1]);
      IngestPairKeeps(t, trace[i], trace[i + 1], root);
      IngestFromKeeps(s, trace, i + 1, root);
      KeepsTransitive(t, s, IngestFrom(t, trace, i), root);
    }
  }

  /** The node tables the pair steps build depend only on the node table they start from,
      never on the weights or the servers. */
  lemma {:induction false} IngestFromNodes(t: Topology, s: Topology, trace: seq<(NodeId, NodeType)>, i: nat)
    requires t.nodes == s.nodes
    ensures IngestFrom(t, trace, i).nodes == IngestFrom(s, trace, i).nodes
    decreases |trace| - i
  {
    if i + 1 < |trace| {
      var t', s' := IngestPair(t, trace[i], trace[i + 1]), IngestPair(s, trace[i], trace[i + 1]);
      assert PairNodes(t, trace[i], trace[i + 1]).nodes == PairNodes(s, trace[i], trace[i + 1]).nodes;
      IngestFromNodes(t', s', trace, i + 1);
    }
  }

  /** A link already present survives the remaining steps. */
  lemma IngestFromKeepsLink(t: Topology, trace: seq<(NodeId, NodeType)>, i: nat, x: NodeId, y: NodeId)
    requires x in t.nodes && y in t.nodes[x].neighbours
    ensures x in IngestFrom(t, trace, i).nodes && y in IngestFrom(t, trace, i).nodes[x].neighbours
  {
    IngestFromKeeps(t, trace, i, 0);
    GrowsKeepsLinks(t, IngestFrom(t, trace, i), x, y);
  }

  /** Every entry from `i` on is known once some pair step is left to run. */
  lemma {:induction false} IngestFromKnown(t: Topology, trace: seq<(NodeId, NodeType)>, i: nat)
    requires i + 1 < |trace|
    ensures forall j :: i <= j < |trace| ==> trace[j].0 in IngestFrom(t, trace, i).nodes
    decreases |trace| - i
  {
    var s := IngestPair(t, trace[i], trace[i + 1]);
    var r := IngestFrom(t, trace, i);
    assert r == IngestFrom(s, trace, i + 1);
    IngestPairRecords(t, trace[i], trace[i + 1]);
    IngestFromKeeps(s, trace, i + 1, 0);
    if i + 2 < |trace| {
      IngestFromKnown(s, trace, i + 1);
    }
    forall j | i <= j < |trace|
      ensures trace[j].0 in r.nodes
    {
      if j == i {
        assert trace[j].0 in s.nodes;
      } else if j == i + 1 {
        assert trace[j].0 in s.nodes;
      }
    }
  }

  /** Entries `j` and `j + 1` of the trace are linked both ways in `r`. */
  ghost predicate LinkedAt(r: Topology, trace: seq<(NodeId, NodeType)>, j: nat)
    requires j + 1 < |trace|
  {
    var a, b := trace[j].0, trace[j + 1].0;
    a in r.nodes && b in r.nodes && b in r.nodes[a].neighbours && a in r.nodes[b].neighbours
  }

  /** Every consecutive pair from `i` on is linked both ways. */
  lemma {:induction false} IngestFromLinked(t: Topology, trace: seq<(NodeId, NodeType)>, i: nat)
    ensures forall j :: i <= j && j + 1 < |trace| ==> LinkedAt(IngestFrom(t, trace, i), trace, j)
    decreases |trace| - i
  {
    if i + 1 < |trace| {
      var s := IngestPair(t, trace[i], trace[i + 1]);
      var r := IngestFrom(t, trace, i);
      assert r == IngestFrom(s, trace, i + 1);
      IngestPairRecords(t, trace[i], trace[i + 1]);
      IngestFromLinked(s, trace, i + 1);
      forall j | i <= j && j + 1 < |trace|
        ensures LinkedAt(r, trace, j)
      {
        if j == i {
          IngestFromKeepsLink(s, trace, i + 1, trace[i].0, trace[i + 1].0);
          IngestFromKeepsLink(s, trace, i + 1, trace[i + 1].0, trace[i].0);
        }
      }
    }
  }

  /** Every Server entry from `i` on is a server once some pair step is left to run. */
  lemma {:induction false} IngestFromServers(t: Topology, trace: seq<(NodeId, NodeType)>, i: nat)
    requires i + 1 < |trace|
    ensures forall j :: i <= j < |trace| && trace[j].1 == Server ==> trace[j].0 in IngestFrom(t, trace, i).servers
    decreases |trace| - i
  {
    var s := IngestPair(t, trace[i], trace[i + 1]);
    var r := IngestFrom(t, trace, i);
    assert r == IngestFrom(s, trace, i + 1);
    IngestPairRecords(t, trace[i], trace[i + 1]);
    IngestFromKeeps(s, trace, i + 1, 0);
    if i + 2 < |trace| {
      IngestFromServers(s, trace, i + 1);
    }
    forall j | i <= j < |trace| && trace[j].1 == Server
      ensures trace[j].0 in r.servers
    {
      if j == i {
        assert trace[j].0 in s.servers;
      } else if j == i + 1 {
        assert trace[j].0 in s.servers;
      }
    }
  }

  /** New nodes take a type the trace reported for them. */
  lemma {:induction false} IngestFromTypes(t: Topology, trace: seq<(NodeId, NodeType)>, i: nat)
    ensures var r := IngestFrom(t, trace, i);
      forall x :: x in r.nodes && x !in t.nodes ==> exists j :: i <= j < |trace| && trace[j] == (x, r.nodes[x].nodeType)
    decreases |trace| - i
  {
    if i + 1 < |trace| {
      var s := IngestPair(t, trace[i], trace[i + 1]);
      var r := IngestFrom(t, trace, i);
      assert r == IngestFrom(s, trace, i + 1);
      IngestPairRecords(t, trace[i], trace[i + 1]);
      IngestFromKeeps(s, trace, i + 1, 0);
      IngestFromTypes(s, trace, i + 1);
      forall x | x in r.nodes && x !in t.nodes
        ensures exists j :: i <= j < |trace| && trace[j] == (x, r.nodes[x].nodeType)
      {
        if x !in s.nodes {
          var j :| i + 1 <= j < |trace| && trace[j] == (x, r.nodes[x].nodeType);
        } else if x == trace[i].0 && s.nodes[x].nodeType == trace[i].1 {
          assert trace[i] == (x, r.nodes[x].nodeType);
        } else {
          assert trace[i + 1] == (x, r.nodes[x].nodeType);
        }
      }
    }
  }

  lemma LinkFirstKeeps(t: Topology, root: NodeId, first: (NodeId, NodeType))
    ensures Keeps(t, LinkFirst(t, root, first), root)
  {
    var t0 := WithNode(t, first.0, first.1);
    WithNodeFacts(t, first.0, first.1, root);
    LinkedKeepsShape(t0, root, first.0, root);
    KeepsTransitive(t, t0, LinkFirst(t, root, first), root);
  }

  lemma LinkFirstRecords(t: Topology, root: NodeId, first: (NodeId, NodeType))
    requires root in t.nodes
    ensures var r := LinkFirst(t, root, first);
      && root in r.nodes && first.0 in r.nodes
      && first.0 in r.nodes[root].neighbours && root in r.nodes[first.0].neighbours
      && (first.1 == Server && first.0 !in t.nodes ==> first.0 in r.servers)
      && (forall x :: x in r.nodes && x !in t.nodes ==> x == first.0 && r.nodes[x].nodeType == first.1)
  {
    LinkedFacts(WithNode(t, first.0, first.1), root, first.0);
  }

  /** `update_from_path_trace` only grows the network and keeps its invariants: nothing
      is lost or retyped, lists are only extended, the weights are untouched, closed
      symmetric lists stay closed and symmetric, and every non-root Server node stays a
      server. */
  lemma IngestedKeeps(t: Topology, root: NodeId, trace: seq<(NodeId, NodeType)>)
    requires |trace| > 0
    ensures Keeps(t, Ingested(t, root, trace), root)
  {
    var t1 := LinkFirst(t, root, trace[0]);
    LinkFirstKeeps(t, root, trace[0]);
    IngestFromKeeps(t1, trace, 0, root);
    KeepsTransitive(t, t1, Ingested(t, root, trace), root);
  }

  lemma IngestedTypes(t: Topology, root: NodeId, trace: seq<(NodeId, NodeType)>)
    requires |trace| > 0 && root in t.nodes
    ensures var r := Ingested(t, root, trace);
      forall x :: x in r.nodes && x !in t.nodes ==> exists i :: 0 <= i < |trace| && trace[i] == (x, r.nodes[x].nodeType)
  {
    var t1 := LinkFirst(t, root, trace[0]);
    var r := Ingested(t, root, trace);
    LinkFirstRecords(t, root, trace[0]);
    IngestFromKeeps(t1, trace, 0, root);
    IngestFromTypes(t1, trace, 0);
    forall x | x in r.nodes && x !in t.nodes
      ensures exists i :: 0 <= i < |trace| && trace[i] == (x, r.nodes[x].nodeType)
    {
      if x in t1.nodes {
        assert trace[0] == (x, r.nodes[x].nodeType);
      }
    }
  }

  lemma IngestedKnown(t: Topology, root: NodeId, trace: seq<(NodeId, NodeType)>)
    requires |trace| > 0 && root in t.nodes
    ensures forall i :: 0 <= i < |trace| ==> trace[i].0 in Ingested(t, root, trace).nodes
  {
    var t1 := LinkFirst(t, root, trace[0]);
    LinkFirstRecords(t, root, trace[0]);
    if |trace| > 1 {
      IngestFromKnown(t1, trace, 0);
    } else {
      assert Ingested(t, root, trace) == t1;
    }
  }

  lemma IngestedLinks(t: Topology, root: NodeId, trace: seq<(NodeId, NodeType)>)
    requires |trace| > 0 && root in t.nodes
    ensures var r := Ingested(t, root, trace);
      && root in r.nodes && trace[0].0 in r.nodes
      && trace[0].0 in r.nodes[root].neighbours && root in r.nodes[trace[0].0].neighbours
      && (forall i :: 0 <= i && i + 1 < |trace| ==> LinkedAt(r, trace, i))
  {
    var t1 := LinkFirst(t, root, trace[0]);
    LinkFirstRecords(t, root, trace[0]);
    IngestFromKeepsLink(t1, trace, 0, root, trace[0].0);
    IngestFromKeepsLink(t1, trace, 0, trace[0].0, root);
    IngestFromLinked(t1, trace, 0);
  }

  lemma IngestedServers(t: Topology, root: NodeId, trace: seq<(NodeId, NodeType)>)
    requires |trace| > 0 && root in t.nodes
    ensures var r := Ingested(t, root, trace);
      forall i :: 0 <= i < |trace| && trace[i].1 == Server && (|trace| > 1 || trace[i].0 !in t.nodes) ==> trace[i].0 in r.servers
  {
    var t1 := LinkFirst(t, root, trace[0]);
    LinkFirstRecords(t, root, trace[0]);
    if |trace| > 1 {
      IngestFromServers(t1, trace, 0);
    } else {
      assert Ingested(t, root, trace) == t1;
    }
  }

  /** What `update_from_path_trace` records: every trace id is known afterwards, new
      nodes take a type the trace reported, the root is linked to the first entry, each
      consecutive pair is linked both ways, and Server entries become servers (an entry of
      a one-element trace only when it was unknown). */
  lemma IngestedRecords(t: Topology, root: NodeId, trace: seq<(NodeId, NodeType)>)
    requires |trace| > 0 && root in t.nodes
    ensures var r := Ingested(t, root, trace);
      && (forall i :: 0 <= i < |trace| ==> trace[i].0 in r.nodes)
      && (forall x :: x in r.nodes && x !in t.nodes ==> exists i :: 0 <= i < |trace| && trace[i] == (x, r.nodes[x].nodeType))
      && root in r.nodes && trace[0].0 in r.nodes
      && trace[0].0 in r.nodes[root].neighbours && root in r.nodes[trace[0].0].neighbours
      && (forall i :: 0 <= i && i + 1 < |trace| ==> LinkedAt(r, trace, i))
      && (forall i :: 0 <= i < |trace| && trace[i].1 == Server && (|trace| > 1 || trace[i].0 !in t.nodes) ==> trace[i].0 in r.servers)
  {
    IngestedKnown(t, root, trace);
    IngestedTypes(t, root, trace);
    IngestedLinks(t, root, trace);
    IngestedServers(t, root, trace);
  }

  /** The network after a `remove_node(id)` of a known non-root id that returns: the node
      is gone and leaves the server set if its type is Server. Neighbour lists are never
      edited, since each node's removal of `id` either finds nothing or panics. */
  function Removed(t: Topology, id: NodeId): Topology
    requires id in t.nodes
  {
    Topology(t.nodes - {id}, t.weight, if t.nodes[id].nodeType == Server then t.servers - {id} else t.servers)
  }

  /** Some remaining node lists `id`, so its `remove_neighbour` panics. */
  ghost predicate RemovePanics(t: Topology, id: NodeId) {
    exists x :: x in t.nodes && x != id && id in t.nodes[x].neighbours
  }

  /** A removal that returns drops exactly `id`, keeps every other entry, and names `id`
      in no remaining list; it keeps the lists closed and symmetric and the servers
      indexed. On a closed symmetric network it returns exactly when `id` has no neighbour
      but itself. */
  lemma RemovedFacts(t: Topology, id: NodeId, root: NodeId)
    requires id in t.nodes && id != root
    ensures var r := Removed(t, id);
      && r.nodes.Keys == t.nodes.Keys - {id}
      && (forall x :: x in r.nodes ==> r.nodes[x] == t.nodes[x])
      && r.weight == t.weight
      && (t.nodes[id].nodeType == Server ==> r.servers == t.servers - {id})
      && (t.nodes[id].nodeType != Server ==> r.servers == t.servers)
      && (!RemovePanics(t, id) ==> forall x :: x in r.nodes ==> id !in r.nodes[x].neighbours)
      && (!RemovePanics(t, id) && Closed(t.nodes) ==> Closed(r.nodes))
      && (Symmetric(t.nodes) ==> Symmetric(r.nodes))
      && (ServersIndexed(t, root) ==> ServersIndexed(r, root))
  {
  }

  lemma RemovePanicsExactly(t: Topology, id: NodeId)
    requires id in t.nodes && Closed(t.nodes) && Symmetric(t.nodes)
    ensures RemovePanics(t, id) <==> exists x :: x in t.nodes[id].neighbours && x != id
  {
    if RemovePanics(t, id) {
      var x :| x in t.nodes && x != id && id in t.nodes[x].neighbours;
      assert x in t.nodes[id].neighbours;
    }
    if exists x :: x in t.nodes[id].neighbours && x != id {
      var x :| x in t.nodes[id].neighbours && x != id;
      assert x in t.nodes && id in t.nodes[x].neighbours;
    }
  }

  /** The map after `increment_weight`'s update of one key: a recorded weight grows by one,
      a new key is recorded as 0. */
  function Bump(w: Weights, k: (NodeId, NodeId)): (r: Weights)
    ensures r.Keys == w.Keys + {k}
    ensures k in w ==> r[k] == w[k] + 1
    ensures k !in w ==> r[k] == 0
    ensures forall j :: j in w && j != k ==> r[j] == w[j]
  {
    if k in w then w[k := w[k] + 1] else w[k := 0]
  }

  /** The weights after `increment_weight(id)` with `id`'s neighbour list `nbrs`: both
      directions of every listed link are bumped, in list order. */
  function Penalized(w: Weights, id: NodeId, nbrs: seq<NodeId>): Weights
    decreases |nbrs|
  {
    if nbrs == [] then w
    else
      var n := nbrs[|nbrs| - 1];
      Bump(Bump(Penalized(w, id, nbrs[..|nbrs| - 1]), (id, n)), (n, id))
  }

  /** Both directions of a link always carry the same weight. */
  ghost predicate WeightSymmetric(w: Weights) {
    forall a, b :: (a, b) in w ==> (b, a) in w && w[(b, a)] == w[(a, b)]
  }

  /** Penalising never lowers or forgets a weight. */
  lemma {:induction false} PenalizedMonotone(w: Weights, id: NodeId, nbrs: seq<NodeId>)
    ensures forall k :: k in w ==> k in Penalized(w, id, nbrs) && Penalized(w, id, nbrs)[k] >= w[k]
    decreases |nbrs|
  {
    if nbrs != [] {
      PenalizedMonotone(w, id, nbrs[..|nbrs| - 1]);
    }
  }

  /** Penalising records both directions of every link of `id`. */
  lemma {:induction false} PenalizedCovers(w: Weights, id: NodeId, nbrs: seq<NodeId>)
    ensures forall n :: n in nbrs ==> (id, n) in Penalized(w, id, nbrs) && (n, id) in Penalized(w, id, nbrs)
    decreases |nbrs|
  {
    if nbrs != [] {
      var init := nbrs[..|nbrs| - 1];
      PenalizedCovers(w, id, init);
      assert forall n :: n in nbrs ==> n in init || n == nbrs[|nbrs| - 1];
    }
  }

  /** Penalising adds no key other than the two directions of a link of `id`. */
  lemma {:induction false} PenalizedOnly(w: Weights, id: NodeId, nbrs: seq<NodeId>)
    ensures forall k :: k in Penalized(w, id, nbrs) && k !in w ==> exists n :: n in nbrs && (k == (id, n) || k == (n, id))
    decreases |nbrs|
  {
    if nbrs != [] {
      var init := nbrs[..|nbrs| - 1];
      var last := nbrs[|nbrs| - 1];
      PenalizedOnly(w, id, init);
      forall k | k in Penalized(w, id, nbrs) && k !in w
        ensures exists n :: n in nbrs && (k == (id, n) || k == (n, id))
      {
        if k in Penalized(w, id, init) {
          var n :| n in init && (k == (id, n) || k == (n, id));
          assert n in nbrs;
        } else {
          assert last in nbrs && (k == (id, last) || k == (last, id));
        }
      }
    }
  }

  /** What one bump makes of the weight of `k`: one more if recorded, 0 if new. */
  function Raised(w: Weights, k: (NodeId, NodeId)): nat {
    if k in w then w[k] + 1 else 0
  }

  /** Bumping both directions of a link that is not a loop. */
  lemma BumpPair(s: Weights, a: NodeId, b: NodeId, r: Weights)
    requires a != b && r == Bump(Bump(s, (a, b)), (b, a))
    ensures r.Keys == s.Keys + {(a, b), (b, a)}
    ensures r[(a, b)] == Raised(s, (a, b)) && r[(b, a)] == Raised(s, (b, a))
    ensures forall k :: k in s && k != (a, b) && k != (b, a) ==> r[k] == s[k]
  {
  }

  /** `k` is one direction of a link between `id` and a listed neighbour. */
  predicate Touches(k: (NodeId, NodeId), id: NodeId, nbrs: seq<NodeId>) {
    (k.0 == id && k.1 in nbrs) || (k.1 == id && k.0 in nbrs)
  }

  /** With a neighbour list that repeats no id and does not hold `id` itself, each
      direction of each link is bumped exactly once, a recorded weight rising by one and a
      new one recorded at 0; every other weight is kept, and no other key appears. */
  lemma {:induction false} PenalizedValues(w: Weights, id: NodeId, nbrs: seq<NodeId>)
    requires Distinct(nbrs) && id !in nbrs
    ensures forall n :: n in nbrs ==>
      && (id, n) in Penalized(w, id, nbrs) && Penalized(w, id, nbrs)[(id, n)] == Raised(w, (id, n))
      && (n, id) in Penalized(w, id, nbrs) && Penalized(w, id, nbrs)[(n, id)] == Raised(w, (n, id))
    ensures forall k :: k in w && !Touches(k, id, nbrs) ==> k in Penalized(w, id, nbrs) && Penalized(w, id, nbrs)[k] == w[k]
    ensures forall k :: k in Penalized(w, id, nbrs) ==> k in w || Touches(k, id, nbrs)
    decreases |nbrs|
  {
    if nbrs != [] {
      var init, last := nbrs[..|nbrs| - 1], nbrs[|nbrs| - 1];
      assert nbrs == init + [last];
      assert Distinct(init) && last !in init by {
        forall i, j | 0 <= i < j < |init| ensures init[i] != init[j] {
          assert init[i] == nbrs[i] && init[j] == nbrs[j];
        }
        forall i | 0 <= i < |init| ensures init[i] != last {
          assert init[i] == nbrs[i];
        }
      }
      PenalizedValues(w, id, init);
      var s, r := Penalized(w, id, init), Penalized(w, id, nbrs);
      BumpPair(s, id, last, r);
      forall n | n in nbrs
        ensures (id, n) in r && r[(id, n)] == Raised(w, (id, n))
        ensures (n, id) in r && r[(n, id)] == Raised(w, (n, id))
      {
        if n != last {
          assert n in init;
        } else {
          assert !Touches((id, last), id, init) && !Touches((last, id), id, init);
        }
      }
      forall k | k in w && !Touches(k, id, nbrs) ensures k in r && r[k] == w[k] {
        assert !Touches(k, id, init);
      }
      forall k | k in r ensures k in w || Touches(k, id, nbrs) {
        if k in s {
          assert k in w || Touches(k, id, init);
        }
      }
    }
  }

  /** Penalising keeps the two directions of every link equal. */
  lemma {:induction false} PenalizedSymmetric(w: Weights, id: NodeId, nbrs: seq<NodeId>)
    requires WeightSymmetric(w)
    ensures WeightSymmetric(Penalized(w, id, nbrs))
    decreases |nbrs|
  {
    if nbrs != [] {
      var n := nbrs[|nbrs| - 1];
      var s := Penalized(w, id, nbrs[..|nbrs| - 1]);
      PenalizedSymmetric(w, id, nbrs[..|nbrs| - 1]);
      BumpBothSymmetric(s, id, n);
    }
  }

  lemma BumpBothSymmetric(w: Weights, a: NodeId, b: NodeId)
    requires WeightSymmetric(w)
    ensures WeightSymmetric(Bump(Bump(w, (a, b)), (b, a)))
  {
  }

  /** `get_weight`: the recorded weight of `(a, b)`, else that of `(b, a)`, else 0. */
  function WeightOf(w: Weights, a: NodeId, b: NodeId): (r: nat)
    ensures (a, b) in w ==> r == w[(a, b)]
    ensures (a, b) !in w && (b, a) in w ==> r == w[(b, a)]
    ensures (a, b) !in w && (b, a) !in w ==> r == 0
  {
    if (a, b) in w then w[(a, b)] else if (b, a) in w then w[(b, a)] else 0
  }

  /** The lookup is symmetric unless both directions are recorded with different weights,
      and so always symmetric on weights `increment_weight` produced. */
  lemma WeightOfSymmetric(w: Weights, a: NodeId, b: NodeId)
    ensures ((a, b) !in w || (b, a) !in w || w[(a, b)] == w[(b, a)]) <==> WeightOf(w, a, b) == WeightOf(w, b, a)
    ensures WeightSymmetric(w) ==> WeightOf(w, a, b) == WeightOf(w, b, a)
  {
  }

  /** The hop costs Dijkstra's algorithm uses. */
  function EdgeWeights(w: Weights): EdgeWeight {
    (a: NodeId, b: NodeId) => WeightOf(w, a, b)
  }
}
