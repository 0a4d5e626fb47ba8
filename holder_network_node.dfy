/** The adjacency entry used by the double-buffered holder: `add_neighbour` pushes only
    ids not yet listed, and `remove_neighbour` swap-removes. */
module HolderNetworkNode {
  import opened Packets
  import opened Errors
  import opened Vecs

  /** The list after `add_neighbour(id)`. */
  function WithNeighbour(s: seq<NodeId>, id: NodeId): (r: seq<NodeId>)
    ensures id in r
    ensures multiset(s) <= multiset(r)
  {
    if id in s then s else s + [id]
  }

  /** The list after `remove_neighbour(id)`: the first occurrence is replaced by the last
      entry and the list shrinks by one. */
  function WithoutNeighbour(s: seq<NodeId>, id: NodeId): (r: seq<NodeId>)
    ensures id !in s ==> r == s
    ensures id in s ==> |r| == |s| - 1 && multiset(r) == multiset(s) - multiset{id}
  {
    match Position(s, id)
    case None => s
    case Some(i) => SwapRemove(s, i)
  }

  /** Adding is idempotent, and never creates a duplicate. */
  lemma WithNeighbourIdempotent(s: seq<NodeId>, id: NodeId)
    ensures WithNeighbour(WithNeighbour(s, id), id) == WithNeighbour(s, id)
    ensures Distinct(s) ==> Distinct(WithNeighbour(s, id))
  {
  }

  /** A new id goes to the end and every other entry keeps its place. */
  lemma WithNeighbourAppends(s: seq<NodeId>, id: NodeId)
    requires id !in s
    ensures |WithNeighbour(s, id)| == |s| + 1
    ensures WithNeighbour(s, id)[..|s|] == s && WithNeighbour(s, id)[|s|] == id
  {
  }

  /** On a duplicate-free list a removed id is gone for good and the rest stay distinct;
      the hole is filled by the former last entry. */
  lemma WithoutNeighbourGone(s: seq<NodeId>, id: NodeId)
    requires Distinct(s)
    ensures id !in WithoutNeighbour(s, id)
    ensures Distinct(WithoutNeighbour(s, id))
    ensures forall x :: x in s && x != id ==> x in WithoutNeighbour(s, id)
  {
    match Position(s, id)
    case None =>
    case Some(i) => SwapRemoveDistinct(s, i);
  }

  /** Removing an id that was just added gives the list back. */
  lemma AddThenRemove(s: seq<NodeId>, id: NodeId)
    requires id !in s
    ensures WithoutNeighbour(WithNeighbour(s, id), id) == s
  {
    var t := s + [id];
    assert Position(t, id) == Some(|s|) by {
      assert t[|s|] == id;
      assert t[..|s|] == s;
    }
  }

  class NetworkNode {
    var neighbours: seq<NodeId>
    const nodeType: NodeType

    ghost predicate Valid()
      reads this
    {
      Distinct(neighbours)
    }

    /** A node of the given type with no neighbours. */
    constructor (nodeType: NodeType)
      ensures Valid()
      ensures this.nodeType == nodeType && neighbours == []
    {
      this.nodeType := nodeType;
      neighbours := [];
    }

    method AddNeighbour(id: NodeId)
      requires Valid()
      modifies this
      ensures Valid()
      ensures neighbours == WithNeighbour(old(neighbours), id)
    {
      if id !in neighbours {
        neighbours := neighbours + [id];
      }
    }

    /** The position is found before the exclusive borrow is taken, so that borrow never
        fails here and a present id is swap-removed. */
    method RemoveNeighbour(id: NodeId)
      requires Valid()
      modifies this
      ensures Valid()
      ensures neighbours == WithoutNeighbour(old(neighbours), id)
    {
      var index := Position(neighbours, id);
      if index.Some? {
        SwapRemoveDistinct(neighbours, index.value);
        neighbours := SwapRemove(neighbours, index.value);
      }
    }
  }

  /** The unit test of the node: the second 2 is not stored, removing the absent id 12
      changes nothing, and re-adding 2 changes nothing either. */
  method RemoveAbsentScenario() returns (neighbours: seq<NodeId>)
    ensures neighbours == [1, 2, 3]
  {
    var node := new NetworkNode(Drone);
    node.AddNeighbour(1);
    node.AddNeighbour(2);
    assert node.neighbours == [1, 2];
    node.AddNeighbour(2);
    assert node.neighbours == [1, 2];
    node.AddNeighbour(3);
    assert node.neighbours == [1, 2, 3];
    node.RemoveNeighbour(12);
    assert node.neighbours == [1, 2, 3];
    node.AddNeighbour(2);
    neighbours := node.neighbours;
  }
}
