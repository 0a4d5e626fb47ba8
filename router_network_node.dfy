/** The adjacency entry of the current topology graph: a node type and a neighbour list
    that `add_neighbour` always pushes onto, keeping duplicates. */
module RouterNetworkNode {
  import opened Packets
  import opened Errors
  import opened Vecs

  class NetworkNode {
    var neighbours: seq<NodeId>
    const nodeType: NodeType

    /** A node of the given type with no neighbours. */
    constructor (nodeType: NodeType)
      ensures this.nodeType == nodeType && neighbours == []
    {
      this.nodeType := nodeType;
      neighbours := [];
    }

    /** Appends `id`, whether or not it is already listed. */
    method AddNeighbour(id: NodeId)
      modifies this
      ensures neighbours == old(neighbours) + [id]
    {
      neighbours := neighbours + [id];
    }

    /** Appends every id of `ids`, in order. */
    method BulkAddNeighbours(ids: seq<NodeId>)
      modifies this
      ensures neighbours == old(neighbours) + ids
    {
      var k := 0;
      while k < |ids|
        invariant 0 <= k <= |ids|
        invariant neighbours == old(neighbours) + ids[..k]
      {
        AddNeighbour(ids[k]);
        k := k + 1;
      }
    }

    /** An absent id leaves the list alone. For a present id the shared borrow taken to
        find its first position is still held when the exclusive borrow for `swap_remove`
        is requested, so the call panics before anything changes. */
    method RemoveNeighbour(id: NodeId) returns (r: Run<()>)
      ensures r == RemoveOutcome(neighbours, id)
    {
      var index := Position(neighbours, id);
      if index.Some? {
        r := Panics;
      } else {
        r := Returns(());
      }
    }
  }

  /** How `remove_neighbour(id)` ends on a node listing `neighbours`: it panics exactly
      when `id` is listed, and returns without a change otherwise. */
  function RemoveOutcome(neighbours: seq<NodeId>, id: NodeId): (r: Run<()>)
    ensures r.Panics? <==> id in neighbours
    ensures r.Returns? ==> r == Returns(())
  {
    if Position(neighbours, id).Some? then Panics else Returns(())
  }

  /** The unit test of the node: pushes keep the duplicate 2, and removing the absent
      id 12 returns normally. */
  method RemoveAbsentScenario() returns (neighbours: seq<NodeId>, outcome: Run<()>)
    ensures neighbours == [1, 2, 2, 3, 2] && outcome == Returns(())
  {
    var node := new NetworkNode(Drone);
    node.AddNeighbour(1);
    node.AddNeighbour(2);
    node.AddNeighbour(2);
    node.AddNeighbour(3);
    assert node.neighbours == [1, 2, 2, 3];
    assert 12 !in node.neighbours;
    outcome := node.RemoveNeighbour(12);
    node.AddNeighbour(2);
    neighbours := node.neighbours;
  }
}
