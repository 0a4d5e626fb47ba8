# Source-routing topology of a Rustastic node, in Dafny

This project models the part of the `source_routing` library that keeps a client's or
server's picture of the drone network and builds flood requests to refresh it:

- **The current topology graph** (`RouterNetwork`, src/router/network/mod.rs). It holds
  every known node with its type and neighbour list, a drop-penalty weight per directed
  link, and the servers seen so far. It grows from flood-response path traces and
  neighbour reports and shrinks when a drone crashes. Routes come from Dijkstra's
  algorithm over the penalty weights. `multiple_paths` lists every simple drone-only
  route by depth-first search.
- **The earlier topology graph** (`LegacyNetwork`, src/router/network.rs). It has a
  node table only, searched breadth-first, and its path traces are not linked to the
  root.
- **The two adjacency entries**:
  - `RouterNetworkNode` (src/router/network/network_node.rs) always pushes new
    neighbours. Its `remove_neighbour` panics on a listed id. The `NetworkNode` inside
    src/router/network.rs (lines 156-194) has the same code and is modelled by this
    module too.
  - `HolderNetworkNode` (src/router/network_holder/network/network_node.rs) pushes only
    new ids and swap-removes.
- **The double-buffered holder** (`NetworkHolder`, src/router/network_holder/mod.rs). A
  primary network answers route queries and a secondary one is rebuilt from a fresh
  flood. A three-state status decides when the secondary is promoted: after a request
  unless the networks were just swapped, or after more than 60% of the primary's node
  count in responses.
- **The three flood requesters**, which share one id rule (`FloodIds`: 0 first, then the
  last id plus one, every id recorded):
  - `RouterFloodRequester` (src/router/flood_requester/mod.rs);
  - `FloodRequester` (src/flood_requester/mod.rs);
  - `LegacyFloodRequester` (src/flood_requester.rs).

Helper modules:

- `Packets` and `Errors` hold the node ids (`u8`), node types, flood requests, packets
  and the library's error kinds (src/error.rs).
- `Vecs` holds the `Vec` operations the code relies on.
- `Graphs`, `LabelSetting`, `BreadthFirst` and `ParentPaths` hold the facts about walks,
  shortest labels and parent maps that both searches share.
- `RouterTopology` holds the value a network stands for and what each update does to it.

How the model represents the source:

- **Panics are values.** An operation that can panic returns `Run<T>`, which is
  `Returns(value)` or `Panics`. This covers:
  - `update_from_path_trace` on an empty trace, where `len() - 1` underflows;
  - a node's `remove_neighbour` of a listed id, where a `RefCell` is borrowed twice;
  - the `todo!()` that ends src/flood_requester.rs's `flood_neighbours`.
- **Networks are classes.** Each network is a class with a `nodes` map from id to
  (type, neighbour list). Network methods state their new state as a function of the
  old one (`Model() == Linked(old(Model()), id1, id2)`). The facts about those functions
  are lemmas in `RouterTopology`.
- **Sends are recorded.** A send on a neighbour's channel is appended to the requester's
  `sent` list as (position of the neighbour, packet). Sends always succeed.

Behaviour of the code worth knowing:

- `asked_flood_request` (src/router/network_holder/mod.rs:65-70) swaps the networks
  unless the status is `Swapped` (lines 66-68), then sets the status to `RequestSended`;
  it leaves both networks as they are. The secondary is replaced by a
  root-only network on the next response (src/router/network_holder/mod.rs:46-49).
- A response swaps the networks when the count it finds is greater than the primary's
  node count times 60, divided by 100 in integer arithmetic (src/router/network_holder/mod.rs:50-54).
  Every other counted response adds one (lines 55-57).
- `get_path` asks the secondary whenever the primary's `get_routes` returns any error
  (src/router/network_holder/mod.rs:104-110).
- `get_routes` returns `RouteNotFound` only when `dijkstra` fails
  (src/router/network/mod.rs:280), which happens exactly when a reachable node lists an
  unknown id; a well-formed network never does. An unreachable destination has no entry
  in the parent map, so `parents_to_path` returns `ParentsMalformed`
  (src/router/network/mod.rs:323-326).
- The first `increment_weight` of a link records weight 0, and each later one adds one
  (src/router/network/mod.rs:106-116).

## Model

| member | source | states |
|---|---|---|
| Vecs.Position | src/router/network/network_node.rs:44 | `None` exactly when the element is absent; otherwise the first index holding it |
| Vecs.SwapRemove | src/router/network_holder/network/network_node.rs:41 | one element shorter, the last one fills the hole, every other index keeps its value, and the multiset loses exactly the removed element |
| Vecs.SwapRemoveDistinct | src/router/network_holder/network/network_node.rs:37-44 | removing from a list without repeats leaves it without repeats and without the removed id |
| Vecs.Reversed | src/router/network/mod.rs:330 | same length, element `k` is element `len-1-k` of the input |
| RouterNetworkNode.NetworkNode.constructor | src/router/network/network_node.rs:17-22 | a node of the given type with no neighbours |
| RouterNetworkNode.NetworkNode.AddNeighbour | src/router/network/network_node.rs:29-31 | the id is appended even if already listed |
| RouterNetworkNode.NetworkNode.BulkAddNeighbours | src/router/network/network_node.rs:35-40 | all ids are appended, in order |
| RouterNetworkNode.NetworkNode.RemoveNeighbour | src/router/network/network_node.rs:43-47 | changes nothing; the outcome is the one `RemoveOutcome` gives |
| RouterNetworkNode.RemoveOutcome | src/router/network/network_node.rs:43-47 | panics exactly when the id is listed (the shared borrow is still alive when `borrow_mut` is called); otherwise returns normally |
| RouterNetworkNode.RemoveAbsentScenario | src/router/network/test.rs:24-35 | the node test keeps the duplicate 2 (`[1, 2, 2, 3, 2]`), and removing the absent 12 returns normally |
| HolderNetworkNode.WithNeighbour | src/router/network_holder/network/network_node.rs:30-34 | the id is listed afterwards and nothing is lost |
| HolderNetworkNode.WithoutNeighbour | src/router/network_holder/network/network_node.rs:37-44 | an absent id changes nothing; a present id is removed once, and the list shrinks by one |
| HolderNetworkNode.WithNeighbourIdempotent | src/router/network_holder/network/network_node.rs:30-34 | adding twice is adding once, and adding never creates a duplicate |
| HolderNetworkNode.WithNeighbourAppends | src/router/network_holder/network/network_node.rs:30-34 | a new id goes to the end and the other entries keep their places |
| HolderNetworkNode.WithoutNeighbourGone | src/router/network_holder/network/network_node.rs:37-44 | on a list without repeats the id is gone, the rest stay distinct, and every other id stays |
| HolderNetworkNode.AddThenRemove | src/router/network_holder/network/network_node.rs:30-44 | removing an id just added gives the list back |
| HolderNetworkNode.NetworkNode.constructor | src/router/network_holder/network/network_node.rs:18-23 | a node of the given type with no neighbours |
| HolderNetworkNode.NetworkNode.AddNeighbour | src/router/network_holder/network/network_node.rs:30-34 | the list becomes `WithNeighbour` of the old one and stays free of repeats |
| HolderNetworkNode.NetworkNode.RemoveNeighbour | src/router/network_holder/network/network_node.rs:37-44 | the list becomes `WithoutNeighbour` of the old one (the borrow is released before `try_borrow_mut`) and stays free of repeats |
| HolderNetworkNode.RemoveAbsentScenario | src/router/network_holder/network/test.rs:53-63 | the node test stores `[1, 2, 3]`: the second 2 is refused and removing 12 changes nothing |
| RouterTopology.Initial | src/router/network/mod.rs:32-41 | only the root, with no neighbours, weights or servers |
| RouterTopology.WithNodeFacts | src/router/network/mod.rs:197-206 | adding a node only grows the network, keeps the lists closed, keeps them symmetric when they were closed, and keeps every Server indexed |
| RouterTopology.LinkedFacts | src/router/network/mod.rs:210-223 | linking succeeds exactly when both ids are known; it then lists each id in the other's list, changes no other entry, and keeps keys, types, weights and servers |
| RouterTopology.LinkedEntry | src/router/network/mod.rs:214-221 | each entry after a link is the old one with `b` appended to `a`'s list and then `a` to `b`'s |
| RouterTopology.LinkedKeepsShape | src/router/network/mod.rs:210-223 | linking keeps the lists closed and symmetric, only grows the network, and keeps servers indexed |
| RouterTopology.WithNeighbourFacts | src/router/network/mod.rs:96-100 | a new neighbour joins as a Drone linked with the root both ways; closedness and symmetry are kept |
| RouterTopology.IngestedKeeps | src/router/network/mod.rs:49-73 | a path trace only grows the network; it loses and retypes nothing, leaves the weights alone, and keeps closedness, symmetry and the server index |
| RouterTopology.IngestedRecords | src/router/network/mod.rs:49-73 | after a trace every trace id is known; new nodes take a reported type; the root is linked to the first entry; consecutive entries are linked both ways; Server entries are servers |
| RouterTopology.RemovedFacts | src/router/network/mod.rs:79-93 | a removal drops exactly that id and keeps every other entry and the weights; a Server leaves the server set; a removal that returns leaves the id in no list |
| RouterTopology.RemovePanicsExactly | src/router/network/mod.rs:88-90 | on a closed symmetric table the neighbour clean-up panics exactly when the removed node has a neighbour other than itself |
| RouterTopology.PenalizedMonotone | src/router/network/mod.rs:104-118 | penalising never lowers or forgets a weight |
| RouterTopology.PenalizedCovers | src/router/network/mod.rs:104-118 | both directions of every link of the node are recorded afterwards |
| RouterTopology.PenalizedOnly | src/router/network/mod.rs:104-118 | no key is added other than a direction of a link of the node |
| RouterTopology.PenalizedValues | src/router/network/mod.rs:104-118 | on a list without repeats or self-links, each direction of each link is raised by one (recorded as 0 when new), and every other weight is unchanged |
| RouterTopology.PenalizedSymmetric | src/router/network/mod.rs:104-118 | both directions of every link keep equal weights |
| RouterTopology.WeightOfSymmetric | src/router/network/mod.rs:180-193 | the lookup gives the same value both ways exactly when the two directions do not disagree |
| Graphs.ShortestTreeSpansReachable | src/router/network/mod.rs:146-179 | a complete label-setting tree holds exactly the nodes reachable from the root, and then no dangling id is reachable |
| LabelSetting.Relax | src/router/network/mod.rs:164-175 | relaxing a neighbour on a strict improvement keeps the inner-loop invariant |
| LabelSetting.Done | src/router/network/mod.rs:161-178 | once the queue is empty the labels and parents form a shortest tree |
| ParentPaths.ClimbFacts | src/router/network/mod.rs:320-332 | the parent chain from `x` starts at `x`, follows parents, repeats no node, and stops at the first node without an entry or without a parent |
| ParentPaths.ParentsToPath | src/router/network/mod.rs:320-332 | the reversed parent chain when it ends at a parentless node; `ParentsMalformed` when it reaches an id with no entry |
| ParentPaths.TreeRoute | src/router/network/mod.rs:281 | in a labelled tree, the assembled path to a tree node is a walk from the root without repeats whose cost is the node's label |
| RouterNetwork.Network.constructor | src/router/network/mod.rs:32-41 | the network is `Initial(root, rootType)` |
| RouterNetwork.Network.Get | src/router/network/mod.rs:272-274 | the entry of a known id; otherwise `IdNotFound` of that id |
| RouterNetwork.Network.GetServerList | src/router/network/mod.rs:284-286 | exactly the recorded server set that `add_empty_node`, `update_from_path_trace` and `remove_node` maintain, which holds every non-root node of type Server |
| RouterNetwork.Network.AddEmptyNode | src/router/network/mod.rs:197-206 | `IdAlreadyPresent` with no change for a known id; otherwise the node joins with no neighbours, and joins the server set if it is a Server |
| RouterNetwork.Network.AddLink | src/router/network/mod.rs:210-223 | `IdNotFound(id2)`, then `IdNotFound(id1)`, with no change; otherwise the link is pushed both ways |
| RouterNetwork.Network.AddNeighbour | src/router/network/mod.rs:96-100 | `IdAlreadyPresent` with no change for a known id; otherwise a Drone linked to the root |
| RouterNetwork.Network.UpdateFromPathTrace | src/router/network/mod.rs:49-73 | panics with no change exactly when the trace is empty; otherwise the network is `Ingested` of the trace, and the invariant is kept |
| RouterNetwork.Network.IngestStep | src/router/network/mod.rs:57-71 | one pair step: servers marked, unknown ids created, the pair linked |
| RouterNetwork.Network.MarkServer | src/router/network/mod.rs:59 | the id joins the server set |
| RouterNetwork.Network.RemoveNode | src/router/network/mod.rs:79-93 | `RemoveSelfErr` for the root and `IdNotFound` for an unknown id, both with no change; otherwise the node is removed, the call panics exactly when another node lists it, and returns `Ok(id)` otherwise |
| RouterNetwork.Network.IncrementWeight | src/router/network/mod.rs:104-118 | `IdNotFound` with no change for an unknown id; otherwise the weights become `Penalized` over the node's list; nodes and servers are untouched |
| RouterNetwork.Network.Dijkstra | src/router/network/mod.rs:146-179 | fails with `IdNotFound` of a missing id exactly when a dangling id is reachable; otherwise returns a shortest tree over the penalty weights |
| RouterNetwork.Network.RelaxNeighbours | src/router/network/mod.rs:164-176 | relaxing every neighbour of the popped node restores the outer-loop invariant with that node settled |
| RouterNetwork.Network.RelaxEdge | src/router/network/mod.rs:165-175 | one neighbour relaxed on a strict improvement: queued or re-prioritised, parent and label updated |
| RouterNetwork.Network.GetRoutes | src/router/network/mod.rs:277-283 | `RouteNotFound` exactly when a dangling id is reachable, which a well-formed network rules out, so never; `ParentsMalformed` for an unreachable destination; otherwise a cheapest walk from the root without repeats |
| RouterNetwork.Network.ContainsId | src/router/network/mod.rs:46-48 | true exactly for the ids `get` finds |
| RouterNetwork.Network.GetWeight | src/router/network/mod.rs:180-193 | the penalty recorded for the link in either direction, 0 when none is; the same both ways on a well-formed network, and the hop cost `dijkstra` uses |
| RouterNetwork.Network.Dfs | src/router/network/mod.rs:226-265 | appends exactly the drone routes extending the current prefix, and the prefix itself on arrival |
| RouterNetwork.Network.DfsNeighbour | src/router/network/mod.rs:242-260 | one neighbour: skipped when visited, missing, or neither a drone nor the destination; otherwise searched |
| RouterNetwork.Network.MultiplePaths | src/router/network/mod.rs:290-302 | a path is listed exactly when it is a walk from the root without repeats whose interior is all drones; `[[root]]` when the destination is the root |
| RouterNetwork.PenaltyRoute | src/router/network_holder/network/test.rs:3-31 | on the stand-in network (the current router network in place of the holder's own), in the penalty test's network after seven penalties of node 3, the only cheapest repeat-free route to 5 is `[1, 2, 4, 5]` |
| RouterNetwork.PenaltyScenario | src/router/network_holder/network/test.rs:3-31 | on the stand-in network (the current router network in place of the holder's own), the penalty test's `get_routes(5)` is `Ok([1, 2, 4, 5])` |
| LegacyNetwork.TracedRecords | src/router/network.rs:39-51 | a trace only grows the table and keeps it closed and symmetric; a one-entry trace changes nothing; longer traces make every id known and link consecutive entries, and new nodes take a reported type |
| LegacyNetwork.Network.constructor | src/router/network.rs:21-25 | the root alone |
| LegacyNetwork.Network.Get | src/router/network.rs:28-30 | the entry of a known id; otherwise `IdNotFound` of that id |
| LegacyNetwork.Network.AddEmptyNode | src/router/network.rs:96-102 | `IdAlreadyPresent` with no change for a known id; otherwise the node joins with no neighbours |
| LegacyNetwork.Network.AddLink | src/router/network.rs:106-119 | `IdNotFound(id2)`, then `IdNotFound(id1)`, with no change; otherwise the link is pushed both ways |
| LegacyNetwork.Network.UpdateFromPathTrace | src/router/network.rs:39-51 | panics with no change exactly when the trace is empty; otherwise the table is `Traced` of the trace |
| LegacyNetwork.Network.IngestStep | src/router/network.rs:41-49 | one pair step: unknown ids created, the pair linked |
| LegacyNetwork.Network.RemoveNode | src/router/network.rs:125-134 | `RemoveSelfErr` and `IdNotFound` with no change; otherwise the node is removed, the call panics exactly when another node lists it, and returns `Ok(id)` otherwise |
| LegacyNetwork.Network.Bfs | src/router/network.rs:71-92 | fails with `IdNotFound` of a missing id exactly when a dangling id is reachable; otherwise returns a parent tree of fewest hops |
| LegacyNetwork.Network.VisitNeighbours | src/router/network.rs:83-89 | visiting every neighbour of the dequeued node keeps the queue in label order and restores the outer-loop invariant |
| LegacyNetwork.Network.VisitEdge | src/router/network.rs:84-88 | an unvisited neighbour gets the parent, the next hop count, and a place at the back of the queue; a visited one changes nothing |
| BreadthFirst.Discover | src/router/network.rs:84-88 | enqueueing a newly seen neighbour keeps the visiting invariant |
| BreadthFirst.Revisit | src/router/network.rs:84 | skipping a visited neighbour keeps the visiting invariant |
| BreadthFirst.PopFront | src/router/network.rs:82 | the front of a FIFO queue holds a least label, and the rest is still in order |
| BreadthFirst.FewestHops | src/router/network.rs:52-56 | with unit weights a cheapest route is one with the fewest hops |
| LegacyNetwork.Network.GetRoutes | src/router/network.rs:52-56 | `RouteNotFound` exactly when a dangling id is reachable, so never when every listed neighbour is known; `ParentsMalformed` for an unreachable destination; otherwise a fewest-hop walk from the root without repeats |
| LegacyNetwork.Network.ContainsId | src/router/network.rs:36-38 | true exactly for the ids `get` finds |
| LegacyNetwork.BfsRoutes | src/router/network/test.rs:3-22 | in the breadth-first test's network, the fewest-hop routes from 1 to 4 are `[1, 2, 4]` and `[1, 3, 4]` |
| LegacyNetwork.BfsScenario | src/router/network/test.rs:3-22 | the test's `get_routes(4)` is `Ok([1, 2, 4])` or `Ok([1, 3, 4])` |
| NetworkHolder.PromotesAfter | src/router/network_holder/mod.rs:50-57 | with a steady primary of `n` nodes, the first `n*60/100 + 1` responses are counted and the next one swaps |
| NetworkHolder.CountsUp | src/router/network_holder/mod.rs:55-57 | responses are counted one by one while the count has not passed the threshold |
| NetworkHolder.CountsOrSwaps | src/router/network_holder/mod.rs:50-58 | from a count, any run of responses ends with the count raised by their number, or swapped |
| NetworkHolder.SwappedStays | src/router/network_holder/mod.rs:58 | once swapped, the status stays swapped under any number of responses |
| NetworkHolder.AfterResponsesAppend | src/router/network_holder/mod.rs:45-59 | a run of responses followed by one more is that one more response after the run |
| NetworkHolder.PromotesWithin | src/router/network_holder/mod.rs:50-54 | a primary of at most `bound` nodes is always promoted once `bound*60/100 + 2` responses have been counted |
| NetworkHolder.FiveNodePromotion | src/router/network_holder/mod.rs:50-57 | with five nodes, four responses are counted and the fifth swaps |
| NetworkHolder.CrashExactly | src/router/network_holder/mod.rs:71-74 | on a well-formed stand-in network (the current router network) `remove_node` panics exactly when the node is a known non-root node with a neighbour other than itself |
| NetworkHolder.NetworkHolder.constructor | src/router/network_holder/mod.rs:31-39 | two root-only networks and the status `ResponseReceived(0)` |
| NetworkHolder.NetworkHolder.SwapNetwork | src/router/network_holder/mod.rs:96-99 | the networks trade places and the status is `Swapped` |
| NetworkHolder.NetworkHolder.AdvanceStatus | src/router/network_holder/mod.rs:45-59 | the status step: `RequestSended` counts 1 and replaces the secondary with a root-only network; a count past the threshold swaps; a lower count goes up by one; `Swapped` stays |
| NetworkHolder.NetworkHolder.ReceivedFloodResponse | src/router/network_holder/mod.rs:44-64 | the status step, then the trace is applied to both networks; panics exactly on an empty trace; afterwards every trace id is known to both networks |
| NetworkHolder.NetworkHolder.AskedFloodRequest | src/router/network_holder/mod.rs:65-70 | swaps unless just swapped; the status becomes `RequestSended` |
| NetworkHolder.NetworkHolder.DroneCrashed | src/router/network_holder/mod.rs:71-74 | `remove_node` on the primary, then on the secondary, in the stand-in network; panics exactly when either has the node (not the root) with a neighbour other than itself |
| NetworkHolder.NetworkHolder.DroppedFragment | src/router/network_holder/mod.rs:75-78 | both networks are penalised at the node; no weight drops |
| NetworkHolder.NetworkHolder.AddNeighbour | src/router/network_holder/mod.rs:79-82 | both networks gain the node as a Drone linked with the root, unless they know it already |
| NetworkHolder.NetworkHolder.GetServerList | src/router/network_holder/mod.rs:89-95 | exactly the union of the two server sets, so every non-root Server node of either network |
| NetworkHolder.NetworkHolder.GetPath | src/router/network_holder/mod.rs:104-110 | the primary's cheapest route when the destination is reachable in it; otherwise the secondary's cheapest route, or `ParentsMalformed` when neither reaches it; never `RouteNotFound`; a route never repeats a node |
| NetworkHolder.NetworkHolder.RemoveNeighbour | src/router/network_holder/mod.rs:83-86 | both networks become what `remove_neighbour_link` (a parameter) makes of them, errors ignored; the status and the roles of the networks do not change |
| NetworkHolder.NetworkHolder.NodeNumber | src/router/network_holder/mod.rs:51 | the number of nodes the primary knows: at least one (the root) when it is well formed, at most 256 with `u8` ids, so the promotion threshold is at most 153 |
| NetworkHolder.NetworkHolder.GetMultiplePaths | src/router/network_holder/mod.rs:111-113 | exactly the primary's drone routes |
| FloodIds.NextFresh | src/router/flood_requester/mod.rs:93-102 | on a history `0..n-1` the next id is `n`, was never issued, and recording it keeps the history counting |
| FloodIds.IssuedCounts | src/router/flood_requester/mod.rs:93-102 | after `n` requests from an empty history, the history is exactly `0, ..., n-1` |
| FloodIds.CountingIncreasing | src/router/flood_requester/mod.rs:93-102 | a counting history is strictly increasing, so no id repeats |
| RouterFloodRequester.FloodRequestFactory.constructor | src/router/flood_requester/mod.rs:25-31 | no id issued yet |
| RouterFloodRequester.FloodRequestFactory.CreateRequest | src/router/flood_requester/mod.rs:93-102 | the request carries the next id and this router as initiator; the id is recorded, and on a valid history it is the number of earlier requests and is fresh |
| RouterFloodRequester.FloodRequestFactory.FloodRequestToPacket | src/router/flood_requester/mod.rs:103-109 | the packet carries the request unchanged, on a route whose first hop is this router, with session 0 |
| RouterFloodRequester.FloodRequestFactory.GetFloodRequest | src/router/flood_requester/mod.rs:51-53 | a packet routed from this router, session 0, carrying a request with a fresh id |
| RouterFloodRequester.ThreeRequests | src/router/flood_requester/mod.rs:93-102 | a new factory issues ids 0, 1 and 2 and its history is then `Issued(3)` |
| FloodRequester.FloodRequestToPacket | src/flood_requester/mod.rs:54-60 | the packet carries the request unchanged, with an empty route and session 0 |
| FloodRequester.Broadcast | src/flood_requester/mod.rs:26-32 | one packet per neighbour, in order, with consecutive ids and an empty route |
| FloodRequester.BroadcastFresh | src/flood_requester/mod.rs:26-32 | a flood's packets have strictly increasing ids and go to different neighbours |
| FloodRequester.FloodRequester.constructor | src/flood_requester/mod.rs:19-25 | no id issued and nothing sent |
| FloodRequester.FloodRequester.CreateRequest | src/flood_requester/mod.rs:42-51 | the next id is recorded and used with this node as initiator; on a valid history it is fresh |
| FloodRequester.FloodRequester.FloodNeighbours | src/flood_requester/mod.rs:26-32 | every neighbour receives, in order, one packet with the next consecutive id |
| FloodRequester.FloodRequester.FloodWithId | src/flood_requester/mod.rs:35-41 | `None`, with nothing used or sent, exactly when no neighbour has the id; otherwise the first such neighbour receives one request with the next id |
| LegacyFloodRequester.Requests | src/flood_requester.rs:40-44 | one request per neighbour, in order, with consecutive ids |
| LegacyFloodRequester.RequestsIncreasing | src/flood_requester.rs:40-44 | a flood's requests have strictly increasing ids and go to different neighbours |
| LegacyFloodRequester.FloodRequester.constructor | src/flood_requester.rs:33-39 | no id issued and nothing sent |
| LegacyFloodRequester.FloodRequester.CreateRequest | src/flood_requester.rs:48-57 | the next id is recorded and used; on a valid history ids strictly increase |
| LegacyFloodRequester.FloodRequester.FloodNeighbours | src/flood_requester.rs:40-47 | every neighbour receives its request with consecutive ids, and then the call panics |

## Left out

- Node aliasing: neighbour lists are plain values in each network's table, not shared `RefCell` objects. The nodes' own classes model the node files on their own.
- Integer width: flood ids, penalty weights and Dijkstra distances are `u64` in the source and unbounded here, so wrap-around past 2^64 - 1 is not modelled. The `u64::MAX` default label of an unseen node is modelled as "no label".
- The holder's own network module (src/router/network_holder/network/) is not part of this model. The holder uses the current router network in its place, with `get_node_number` as the size of the primary's table, and its `remove_neighbour_link` is a parameter of `NetworkHolder.RemoveNeighbour`.
- Channels: a send always succeeds and is recorded in `sent`. The `todo!("send to sim controller")` on a failed send is never reached.
- `log_network`, `println!`, `info!` and the `Debug` output are left out because they are only logging.
- The unused `bfs` of src/router/network/mod.rs is left out. `get_routes` uses `dijkstra` instead, and the earlier network's breadth-first search is modelled.
- `try_fix_network` of src/router/network.rs is left out because nothing calls it.
- `get_mut` of src/router/network.rs is not modelled on its own; it is the mutable form of `get`.
- The commented-out operations are left out: the commented-out `flood_neighbours`, `flood_with_id`, `add_neighbour`, `remove_neighbour` and `contains_id` of src/router/flood_requester/mod.rs, and the weight reset in `get_weight`.
- The router facade (src/router/mod.rs) is left out. It forwards to the holder and the factory, and wraps paths in routing headers (`with_first_hop(path).without_loops()` and `SourceRoutingHeader::initialize`), whose crate is not part of this model.
- RouterNetwork.Network.Dijkstra: states a shortest tree, not which of several equally cheap nodes the priority queue pops first.
- LegacyNetwork.Network.Bfs: states a fewest-hop tree, not which of several equally short trees the FIFO order builds.
- LegacyNetwork.BfsScenario: proves the test's route is one of its two fewest-hop routes, not exactly the `[1, 2, 4]` the source returns. The source is deterministic: node 1 lists 2 before 3, so 2 leaves the queue first and becomes 4's parent. The `Bfs` contract does not say which fewest-hop tree is built, so the scenario cannot tell the two routes apart.
- RouterNetwork.Network.MultiplePaths: states which routes are listed, not how many times or in which order.
- NetworkHolder.NetworkHolder.DroneCrashed: the panic comes from the stand-in network's node, whose `remove_neighbour` panics on a listed id. So crashing any drone known from a trace panics. The holder's own node (src/router/network_holder/network/network_node.rs:37-44, modelled as `HolderNetworkNode`) has no such panic. The removal is not rebuilt on that node because the holder network's `remove_node` is not part of this model.
- NetworkHolder.NetworkHolder.DroneCrashed: after the primary panics, the secondary's state is not stated, since the source never reaches its `remove_node`.
