/** The double-buffered topology of a router (src/router/network_holder/mod.rs): a primary
    network that answers route queries and a secondary one rebuilt from a fresh flood,
    with a three-state status that decides when the secondary is promoted. Both networks
    hear every flood response and every change report. The holder's own network module is
    not part of this model; the current router network stands in for it, and its node
    count is the number of nodes in its table. */
module NetworkHolder {
  import opened Packets
  import opened Errors
  import opened Vecs
  import opened Graphs
  import opened RouterTopology
  import opened ParentPaths
  import opened RouterNetwork

  /** `NetworkStatus`: a flood request went out, `count` responses were counted since, or
      the networks were just swapped. */
  datatype NetworkStatus = RequestSended | ResponseReceived(count: nat) | Swapped

  /** The number of counted responses a status must exceed before the next response
      promotes the secondary: 60% of the primary's nodes, rounded down. */
  function Threshold(nodeNumber: nat): nat {
    nodeNumber * 60 / 100
  }

  /** A response arriving in status `s`, with `nodeNumber` nodes in the primary, swaps the
      networks. */
  predicate Promotes(s: NetworkStatus, nodeNumber: nat) {
    s.ResponseReceived? && s.count > Threshold(nodeNumber)
  }

  /** The status after a response arriving in status `s`. The first response after a
      request is counted as one; later ones are counted until the threshold is passed and
      then promote; once swapped, responses leave the status alone. */
  function AfterResponse(s: NetworkStatus, nodeNumber: nat): NetworkStatus {
    match s
    case RequestSended => ResponseReceived(1)
    case ResponseReceived(c) => if c > Threshold(nodeNumber) then Swapped else ResponseReceived(c + 1)
    case Swapped => Swapped
  }

  /** The status after a run of responses, the `i`-th arriving when the primary has
      `nodeNumbers[i]` nodes. */
  function AfterResponses(s: NetworkStatus, nodeNumbers: seq<nat>): NetworkStatus
    decreases |nodeNumbers|
  {
    if nodeNumbers == [] then s else AfterResponses(AfterResponse(s, nodeNumbers[0]), nodeNumbers[1..])
  }

  /** `k` responses, each seeing a primary of `n` nodes. */
  function Steady(n: nat, k: nat): (r: seq<nat>)
    ensures |r| == k && forall i :: 0 <= i < k ==> r[i] == n
  {
    seq(k, _ => n)
  }

  /** Once swapped, the status stays swapped however many responses arrive. */
  lemma {:induction false} SwappedStays(nodeNumbers: seq<nat>)
    ensures AfterResponses(Swapped, nodeNumbers) == Swapped
    decreases |nodeNumbers|
  {
    if nodeNumbers != [] {
      SwappedStays(nodeNumbers[1..]);
    }
  }

  /** Counting never goes back to waiting for a request: after any run of responses a
      counting status has counted each of them or has swapped. */
  lemma {:induction false} CountsOrSwaps(c: nat, nodeNumbers: seq<nat>)
    ensures var r := AfterResponses(ResponseReceived(c), nodeNumbers);
      r == ResponseReceived(c + |nodeNumbers|) || r == Swapped
    decreases |nodeNumbers|
  {
    if nodeNumbers != [] {
      if c > Threshold(nodeNumbers[0]) {
        SwappedStays(nodeNumbers[1..]);
      } else {
        CountsOrSwaps(c + 1, nodeNumbers[1..]);
      }
    }
  }

  /** With a primary of steady size, responses are only counted while the count has not
      passed the threshold. */
  lemma {:induction false} CountsUp(c: nat, n: nat, k: nat)
    requires c + k <= Threshold(n) + 1
    ensures AfterResponses(ResponseReceived(c), Steady(n, k)) == ResponseReceived(c + k)
    decreases k
  {
    if k > 0 {
      assert Steady(n, k)[1..] == Steady(n, k - 1);
      CountsUp(c + 1, n, k - 1);
    }
  }

  /** With a primary of steady size `n` and a fresh count, the first `Threshold(n) + 1`
      responses are counted and the next one promotes the secondary: the swap comes on the
      response after the one that takes the count past the threshold. */
  lemma PromotesAfter(n: nat)
    ensures forall k :: 0 <= k <= Threshold(n) + 1 ==> AfterResponses(ResponseReceived(0), Steady(n, k)) == ResponseReceived(k)
    ensures AfterResponses(ResponseReceived(0), Steady(n, Threshold(n) + 2)) == Swapped
  {
    forall k | 0 <= k <= Threshold(n) + 1
      ensures AfterResponses(ResponseReceived(0), Steady(n, k)) == ResponseReceived(k)
    {
      CountsUp(0, n, k);
    }
    var t := Threshold(n) + 1;
    assert Steady(n, t + 1) == Steady(n, t) + [n];
    AfterResponsesAppend(ResponseReceived(0), Steady(n, t), n);
    CountsUp(0, n, t);
  }

  /** One more response after a run. */
  lemma {:induction false} AfterResponsesAppend(s: NetworkStatus, nodeNumbers: seq<nat>, n: nat)
    ensures AfterResponses(s, nodeNumbers + [n]) == AfterResponse(AfterResponses(s, nodeNumbers), n)
    decreases |nodeNumbers|
  {
    if nodeNumbers != [] {
      assert (nodeNumbers + [n])[1..] == nodeNumbers[1..] + [n];
      AfterResponsesAppend(AfterResponse(s, nodeNumbers[0]), nodeNumbers[1..], n);
    } else {
      assert [n][1..] == [];
    }
  }

  /** A primary of at most `bound` nodes is always promoted once enough responses arrive:
      `Threshold(bound) + 2` of them from a fresh count at the latest. */
  lemma {:induction false} PromotesWithin(c: nat, nodeNumbers: seq<nat>, bound: nat)
    requires forall i :: 0 <= i < |nodeNumbers| ==> nodeNumbers[i] <= bound
    requires |nodeNumbers| > 0 && c + |nodeNumbers| >= Threshold(bound) + 2
    ensures AfterResponses(ResponseReceived(c), nodeNumbers) == Swapped
    decreases |nodeNumbers|
  {
    var n := nodeNumbers[0];
    assert Threshold(n) <= Threshold(bound) by {
      assert n * 60 <= bound * 60;
    }
    if c > Threshold(n) {
      SwappedStays(nodeNumbers[1..]);
    } else {
      PromotesWithin(c + 1, nodeNumbers[1..], bound);
    }
  }

  /** Five nodes in the primary: the threshold is 3, four responses are counted and the
      fifth promotes the secondary. */
  lemma FiveNodePromotion()
    ensures AfterResponses(ResponseReceived(0), [5, 5, 5, 5]) == ResponseReceived(4)
    ensures AfterResponses(ResponseReceived(0), [5, 5, 5, 5, 5]) == Swapped
  {
    PromotesAfter(5);
    assert Steady(5, 4) == [5, 5, 5, 5] && Steady(5, 5) == [5, 5, 5, 5, 5];
  }

  /** What a network makes of a response's trace: its `update_from_path_trace`, which
      does nothing before it panics on an empty trace. */
  ghost function Applied(t: Topology, root: NodeId, trace: seq<(NodeId, NodeType)>): Topology {
    if |trace| == 0 then t else Ingested(t, root, trace)
  }

  /** The network's `remove_node` of `x` panics: `x` is a known non-root node that some
      other node lists. */
  ghost predicate CrashPanics(t: Topology, root: NodeId, x: NodeId) {
    x != root && x in t.nodes && RemovePanics(t, x)
  }

  /** The network after its `remove_node` of `x`, whether or not it panics part-way:
      unchanged for the root or an unknown id. */
  ghost function AfterCrash(t: Topology, root: NodeId, x: NodeId): Topology {
    if x != root && x in t.nodes then Removed(t, x) else t
  }

  /** The network after its `increment_weight` of `x`: unchanged for an unknown id. */
  ghost function AfterDrop(t: Topology, x: NodeId): Topology {
    if x in t.nodes then t.(weight := Penalized(t.weight, x, t.nodes[x].neighbours)) else t
  }

  /** What a holder network must be for the holder to stay well formed: the conditions of
      `Network.Valid` on its value. */
  ghost predicate Sound(t: Topology, root: NodeId) {
    && root in t.nodes
    && Closed(t.nodes) && Symmetric(t.nodes)
    && ServersIndexed(t, root)
    && WeightSymmetric(t.weight)
  }

  class NetworkHolder {
    const id: NodeId
    const nodeType: NodeType
    var primary: Network
    var secondary: Network
    var status: NetworkStatus

    /** Both networks are well formed, rooted at the holder's id, and distinct objects. */
    ghost predicate Valid()
      reads this, primary, secondary
    {
      && primary != secondary
      && primary.Valid() && secondary.Valid()
      && primary.root == id && secondary.root == id
    }

    /** `NetworkHolder::new`: two root-only networks and no response counted yet. */
    constructor (root: NodeId, rootType: NodeType)
      ensures Valid() && id == root && nodeType == rootType
      ensures status == ResponseReceived(0)
      ensures primary.Model() == Initial(root, rootType) && secondary.Model() == Initial(root, rootType)
    {
      id, nodeType := root, rootType;
      primary := new Network(root, rootType);
      secondary := new Network(root, rootType);
      status := ResponseReceived(0);
    }

    /** `get_node_number` of the primary: the number of nodes it knows. A well-formed
        primary knows at least its root, and with `u8` ids it cannot know more than 256
        nodes, so the promotion threshold is at most 153. */
    function NodeNumber(): (r: nat)
      reads this, primary
      ensures r == |primary.nodes.Keys|
      ensures primary.Valid() ==> 1 <= r
      ensures r <= 256 && Threshold(r) <= 153
    {
      IdsBounded(primary.nodes.Keys);
      assert |primary.nodes| * 60 <= 256 * 60;
      |primary.nodes|
    }

    /** `swap_network`: the networks trade places and the status becomes `Swapped`. */
    method SwapNetwork()
      modifies this
      ensures primary == old(secondary) && secondary == old(primary) && status == Swapped
    {
      primary, secondary := secondary, primary;
      status := Swapped;
    }

    /** `received_flood_response`: the status moves on as `AfterResponse` says, judged by
        the primary's size before the response; the first response after a request
        replaces the secondary with a root-only network, and a promoting one swaps the
        networks. Then the trace goes to the primary and, unless that panicked on an empty
        trace, to the secondary, so every id of a non-empty trace is known to both. */
    method ReceivedFloodResponse(trace: seq<(NodeId, NodeType)>) returns (r: Run<()>)
      requires Valid()
      modifies this, primary, secondary
      ensures Valid()
      ensures r == Panics <==> |trace| == 0
      ensures status == AfterResponse(old(status), old(NodeNumber()))
      ensures old(status).RequestSended? ==> primary == old(primary) && fresh(secondary)
      ensures Promotes(old(status), old(NodeNumber())) ==> primary == old(secondary) && secondary == old(primary)
      ensures !old(status).RequestSended? && !Promotes(old(status), old(NodeNumber())) ==>
        primary == old(primary) && secondary == old(secondary)
      ensures primary.Model() ==
        Applied(if Promotes(old(status), old(NodeNumber())) then old(secondary.Model()) else old(primary.Model()), id, trace)
      ensures secondary.Model() ==
        Applied(if old(status).RequestSended? then Initial(id, nodeType)
                else if Promotes(old(status), old(NodeNumber())) then old(primary.Model())
                else old(secondary.Model()), id, trace)
      ensures forall i :: 0 <= i < |trace| ==> trace[i].0 in primary.nodes && trace[i].0 in secondary.nodes
    {
      AdvanceStatus();
      if |trace| > 0 {
        IngestedKnown(primary.Model(), id, trace);
        IngestedKnown(secondary.Model(), id, trace);
      }
      r := primary.UpdateFromPathTrace(trace);
      if r.Panics? {
        return;
      }
      r := secondary.UpdateFromPathTrace(trace);
    }

    /** The status step of `received_flood_response`, taken before the trace is applied. */
    method AdvanceStatus()
      requires Valid()
      modifies this
      ensures Valid()
      ensures status == AfterResponse(old(status), old(NodeNumber()))
      ensures old(status).RequestSended? ==>
        primary == old(primary) && fresh(secondary) && secondary.Model() == Initial(id, nodeType)
      ensures Promotes(old(status), old(NodeNumber())) ==> primary == old(secondary) && secondary == old(primary)
      ensures !old(status).RequestSended? && !Promotes(old(status), old(NodeNumber())) ==>
        primary == old(primary) && secondary == old(secondary)
    {
      var n := NodeNumber();
      match status {
        case RequestSended =>
          status := ResponseReceived(1);
          secondary := new Network(id, nodeType);
        case ResponseReceived(c) =>
          if c > n * 60 / 100 {
            SwapNetwork();
          } else {
            status := ResponseReceived(c + 1);
          }
        case Swapped =>
      }
    }

    /** `asked_flood_request`: unless just swapped, the networks trade places; the status
        becomes `RequestSended`. Neither network changes. */
    method AskedFloodRequest()
      requires Valid()
      modifies this
      ensures Valid() && status == RequestSended
      ensures old(status).Swapped? ==> primary == old(primary) && secondary == old(secondary)
      ensures !old(status).Swapped? ==> primary == old(secondary) && secondary == old(primary)
    {
      if !status.Swapped? {
        SwapNetwork();
      }
      status := RequestSended;
    }

    /** `drone_crashed`: `remove_node` on the primary, then on the secondary, errors
        ignored. It panics exactly when the crashed node is a non-root node of one of them
        with a neighbour other than itself (the secondary is then left alone when the
        primary panicked). */
    method DroneCrashed(node: NodeId) returns (r: Run<()>)
      requires Valid()
      modifies primary, secondary
      ensures r.Returns? ==> Valid()
      ensures r == Panics <==>
        || (node != id && node in old(primary.nodes) && exists x :: x in old(primary.nodes)[node].neighbours && x != node)
        || (node != id && node in old(secondary.nodes) && exists x :: x in old(secondary.nodes)[node].neighbours && x != node)
      ensures primary.Model() == AfterCrash(old(primary.Model()), id, node)
      ensures !CrashPanics(old(primary.Model()), id, node) ==> secondary.Model() == AfterCrash(old(secondary.Model()), id, node)
    {
      CrashExactly(primary.Model(), id, node);
      CrashExactly(secondary.Model(), id, node);
      var first := primary.RemoveNode(node);
      if first.Panics? {
        return Panics;
      }
      var second := secondary.RemoveNode(node);
      if second.Panics? {
        return Panics;
      }
      r := Returns(());
    }

    /** `dropped_fragment`: `increment_weight` on both networks, errors ignored. No weight
        of either network is lowered or forgotten. */
    method DroppedFragment(node: NodeId)
      requires Valid()
      modifies primary, secondary
      ensures Valid()
      ensures primary.Model() == AfterDrop(old(primary.Model()), node)
      ensures secondary.Model() == AfterDrop(old(secondary.Model()), node)
      ensures forall k :: k in old(primary.weight) ==> k in primary.weight && primary.weight[k] >= old(primary.weight)[k]
      ensures forall k :: k in old(secondary.weight) ==> k in secondary.weight && secondary.weight[k] >= old(secondary.weight)[k]
    {
      if node in primary.nodes {
        PenalizedMonotone(primary.weight, node, primary.nodes[node].neighbours);
      }
      if node in secondary.nodes {
        PenalizedMonotone(secondary.weight, node, secondary.nodes[node].neighbours);
      }
      var _ := primary.IncrementWeight(node);
      var _ := secondary.IncrementWeight(node);
    }

    /** `add_neighbour`: the network's `add_neighbour` on both, errors ignored. */
    method AddNeighbour(node: NodeId)
      requires Valid()
      modifies primary, secondary
      ensures Valid()
      ensures primary.Model() == WithNeighbour(old(primary.Model()), id, node)
      ensures secondary.Model() == WithNeighbour(old(secondary.Model()), id, node)
    {
      var _ := primary.AddNeighbour(node);
      var _ := secondary.AddNeighbour(node);
    }

    /** `remove_neighbour`: the holder network's `remove_neighbour_link` on both networks,
        errors ignored. That operation belongs to the holder's own network module, which
        is not part of this model, so it is the parameter `unlink`: what it makes of a
        network's value and the id. The holder stays well formed when `unlink` leaves both
        networks sound; the status and which network is primary do not change. */
    method RemoveNeighbour(node: NodeId, unlink: (Topology, NodeId) -> Topology)
      requires Valid()
      requires Sound(unlink(primary.Model(), node), id) && Sound(unlink(secondary.Model(), node), id)
      modifies primary, secondary
      ensures Valid()
      ensures primary.Model() == unlink(old(primary.Model()), node)
      ensures secondary.Model() == unlink(old(secondary.Model()), node)
      ensures unchanged(this)
    {
      var p := unlink(primary.Model(), node);
      var q := unlink(secondary.Model(), node);
      primary.nodes, primary.weight, primary.serverList := p.nodes, p.weight, p.servers;
      secondary.nodes, secondary.weight, secondary.serverList := q.nodes, q.weight, q.servers;
    }

    /** `get_server_list`: the servers of either network; so every non-root Server node of
        either is in it. */
    function GetServerList(): (r: set<NodeId>)
      reads this, primary, secondary
      requires Valid()
      ensures forall x :: x in r <==> x in primary.serverList || x in secondary.serverList
      ensures forall x :: x in primary.nodes && x != id && primary.nodes[x].nodeType == Server ==> x in r
      ensures forall x :: x in secondary.nodes && x != id && secondary.nodes[x].nodeType == Server ==> x in r
    {
      primary.GetServerList() + secondary.GetServerList()
    }

    /** `get_path`: the primary's route when it has one, a cheapest one over its weights;
        otherwise, whatever the primary's error, the secondary's answer. */
    method GetPath(destination: NodeId) returns (r: Result<Path>)
      requires Valid()
      ensures Reachable(primary.nodes, id, destination) ==>
        r.Ok? && ShortestRoute(primary.nodes, EdgeWeights(primary.weight), id, r.value, destination)
      ensures !Reachable(primary.nodes, id, destination) ==>
        && (r.Ok? <==> Reachable(secondary.nodes, id, destination))
        && (r.Ok? ==> ShortestRoute(secondary.nodes, EdgeWeights(secondary.weight), id, r.value, destination))
        && (r.Err? ==> r.error.ParentsMalformed? && r.error.destination == destination)
      ensures r.Ok? ==> Distinct(r.value)
      ensures r != Err(RouteNotFound(destination))
    {
      ClosedNoDangling(primary.nodes, id);
      ClosedNoDangling(secondary.nodes, id);
      r := primary.GetRoutes(destination);
      if r.Ok? {
        return;
      }
      r := secondary.GetRoutes(destination);
    }

    /** `get_multiple_paths`: the primary's drone routes only. */
    method GetMultiplePaths(destination: NodeId) returns (paths: seq<Path>)
      requires Valid()
      ensures forall p :: p in paths <==> DroneRoute(primary.nodes, id, p, destination)
      ensures destination == id ==> paths == [[id]]
    {
      paths := primary.MultiplePaths(destination);
    }
  }

  /** On a well-formed network, `remove_node` of `x` panics exactly when `x` is a known
      non-root node with a neighbour other than itself. */
  lemma CrashExactly(t: Topology, root: NodeId, x: NodeId)
    requires Closed(t.nodes) && Symmetric(t.nodes)
    ensures CrashPanics(t, root, x) <==> x != root && x in t.nodes && exists y :: y in t.nodes[x].neighbours && y != x
  {
    if x != root && x in t.nodes {
      RemovePanicsExactly(t, x);
    }
  }

  /** A subset is no larger than the set holding it. */
  lemma {:induction false} SubsetSize(a: set<NodeId>, b: set<NodeId>)
    requires a <= b
    ensures |a| <= |b|
    decreases a
  {
    if a != {} {
      var x :| x in a;
      SubsetSize(a - {x}, b - {x});
    }
  }

  /** No table holds more than 256 `u8` ids. */
  lemma IdsBounded(s: set<NodeId>)
    ensures |s| <= 256
  {
    SubsetSize(s, IdsBelow(256));
  }
}
