/** The flood requester of src/flood_requester.rs: it sends bare flood requests, with
    fresh ids, to each neighbour's channel, and its `flood_neighbours` ends in an
    unfinished `todo!()`. A send is recorded in `sent` as the position of the neighbour
    whose channel carried the request, and the request. */
module LegacyFloodRequester {
  import opened Packets
  import opened Errors
  import opened FloodIds

  /** What flooding `count` neighbours sends: to the `k`-th, in order, a request with the
      id `first + k` started by `initiator`. */
  function Requests(count: nat, first: nat, initiator: NodeId): (r: seq<(nat, FloodRequest)>)
    ensures |r| == count
    ensures forall k :: 0 <= k < count ==> r[k] == (k, FloodRequest(first + k, initiator))
  {
    seq(count, k requires 0 <= k < count => (k as nat, FloodRequest(first + k, initiator)))
  }

  /** A flood's requests carry strictly increasing ids, one per neighbour. */
  lemma RequestsIncreasing(count: nat, first: nat, initiator: NodeId)
    ensures var r := Requests(count, first, initiator);
      forall i, j :: 0 <= i < j < count ==> r[i].1.floodId < r[j].1.floodId && r[i].0 != r[j].0
  {
  }

  class FloodRequester {
    const neighbours: seq<NodeId>
    var floodIds: seq<nat>
    const id: NodeId
    var sent: seq<(nat, FloodRequest)>

    /** Every id issued so far is recorded, in order, from 0. */
    ghost predicate Valid()
      reads this
    {
      Counting(floodIds)
    }

    /** `FloodRequester::new`: no id issued and nothing sent yet. */
    constructor (neighbours: seq<NodeId>, id: NodeId)
      ensures Valid() && this.neighbours == neighbours && this.id == id
      ensures floodIds == [] && sent == []
    {
      this.neighbours := neighbours;
      this.id := id;
      floodIds := [];
      sent := [];
    }

    /** `create_request`: the next id, recorded, with this node as the initiator. On a
        valid history that id is the number of requests made so far, so ids strictly
        increase from call to call. */
    method CreateRequest() returns (request: FloodRequest)
      modifies this
      ensures request == FloodRequest(NextId(old(floodIds)), id)
      ensures floodIds == old(floodIds) + [request.floodId] && sent == old(sent)
      ensures old(Valid()) ==> Valid() && request.floodId == |old(floodIds)| && Increasing(floodIds)
    {
      var floodId := if |floodIds| == 0 then 0 else floodIds[|floodIds| - 1] + 1;
      if Counting(floodIds) {
        NextFresh(floodIds);
        CountingIncreasing(floodIds + [floodId]);
      }
      floodIds := floodIds + [floodId];
      request := FloodRequest(floodId, id);
    }

    /** `flood_neighbours`: one request per neighbour, in list order, each with the next
        consecutive id; then `todo!()` panics, so it never returns normally. */
    method FloodNeighbours() returns (r: Run<()>)
      requires Valid()
      modifies this
      ensures r == Panics
      ensures Valid() && |floodIds| == |old(floodIds)| + |neighbours|
      ensures sent == old(sent) + Requests(|neighbours|, |old(floodIds)|, id)
    {
      var k := 0;
      while k < |neighbours|
        invariant 0 <= k <= |neighbours|
        invariant Valid() && |floodIds| == |old(floodIds)| + k
        invariant sent == old(sent) + Requests(k, |old(floodIds)|, id)
      {
        var request := CreateRequest();
        assert Requests(k + 1, |old(floodIds)|, id) == Requests(k, |old(floodIds)|, id) + [(k, request)];
        sent := sent + [(k, request)];
        k := k + 1;
      }
      return Panics;
    }
  }
}
