/** The flood requester of src/flood_requester/mod.rs: it floods every neighbour, or one
    chosen neighbour, with flood requests carrying fresh ids. Each neighbour is known by
    its id and reached through its own channel; a send is recorded in `sent` as the
    position of the neighbour whose channel carried the packet, and the packet. */
module FloodRequester {
  import opened Packets
  import opened Errors
  import opened Vecs
  import opened FloodIds

  /** `flood_request_to_packet`: the request in a packet with an empty route and session 0. */
  function FloodRequestToPacket(request: FloodRequest): (r: Packet)
    ensures r.packType.request == request
    ensures r.routingHeader == EmptyRoute && r.sessionId == 0
  {
    Packet(EmptyRoute, 0, FloodRequestPacket(request))
  }

  /** What flooding `count` neighbours sends: to the `k`-th, in order, a packet whose
      request carries the id `first + k` and the initiator `initiator`. */
  function Broadcast(count: nat, first: nat, initiator: NodeId): (r: seq<(nat, Packet)>)
    ensures |r| == count
    ensures forall k :: 0 <= k < count ==> r[k].0 == k && r[k].1 == FloodRequestToPacket(FloodRequest(first + k, initiator))
  {
    seq(count, k requires 0 <= k < count => (k as nat, FloodRequestToPacket(FloodRequest(first + k, initiator))))
  }

  /** No two packets of a flood share a flood id, and each neighbour gets exactly one. */
  lemma BroadcastFresh(count: nat, first: nat, initiator: NodeId)
    ensures var r := Broadcast(count, first, initiator);
      forall i, j :: 0 <= i < j < count ==>
        r[i].1.packType.request.floodId < r[j].1.packType.request.floodId && r[i].0 != r[j].0
  {
  }

  class FloodRequester {
    const neighbours: seq<NodeId>
    var floodIds: seq<nat>
    const id: NodeId
    var sent: seq<(nat, Packet)>

    /** Every id issued so far is recorded, in order, from 0. */
    ghost predicate Valid()
      reads this
    {
      Counting(floodIds)
    }

    /** `FloodRequester::new`: no id issued and nothing sent yet. */
    constructor (neighbours: seq<NodeId>, id: NodeId)
      ensures Valid() && this.neighbours == neighbours && this.id == id
      ensures floodIds == [] && sent == []
    {
      this.neighbours := neighbours;
      this.id := id;
      floodIds := [];
      sent := [];
    }

    /** `create_request`: the next id, recorded, with this node as the initiator. On a
        valid history that id is the number of requests made so far. */
    method CreateRequest() returns (request: FloodRequest)
      modifies this
      ensures request == FloodRequest(NextId(old(floodIds)), id)
      ensures floodIds == old(floodIds) + [request.floodId] && sent == old(sent)
      ensures old(Valid()) ==> Valid() && request.floodId == |old(floodIds)| && request.floodId !in old(floodIds)
    {
      var floodId := if |floodIds| == 0 then 0 else floodIds[|floodIds| - 1] + 1;
      if Counting(floodIds) {
        NextFresh(floodIds);
      }
      floodIds := floodIds + [floodId];
      request := FloodRequest(floodId, id);
    }

    /** `flood_neighbours`: one request per neighbour, in list order, each with the next
        consecutive id. */
    method FloodNeighbours()
      requires Valid()
      modifies this
      ensures Valid() && |floodIds| == |old(floodIds)| + |neighbours|
      ensures sent == old(sent) + Broadcast(|neighbours|, |old(floodIds)|, id)
    {
      var k := 0;
      while k < |neighbours|
        invariant 0 <= k <= |neighbours|
        invariant Valid() && |floodIds| == |old(floodIds)| + k
        invariant sent == old(sent) + Broadcast(k, |old(floodIds)|, id)
      {
        var request := CreateRequest();
        var packet := FloodRequestToPacket(request);
        assert Broadcast(k + 1, |old(floodIds)|, id) == Broadcast(k, |old(floodIds)|, id) + [(k, packet)];
        sent := sent + [(k, packet)];
        k := k + 1;
      }
    }

    /** `flood_with_id`: `None`, with no id used and nothing sent, when no neighbour has
        the id `target`; otherwise one request with the next id goes to the first
        neighbour that has it. */
    method FloodWithId(target: NodeId) returns (r: Option<()>)
      requires Valid()
      modifies this
      ensures Valid()
      ensures r.None? <==> target !in neighbours
      ensures r.None? ==> floodIds == old(floodIds) && sent == old(sent)
      ensures r.Some? ==> floodIds == old(floodIds) + [|old(floodIds)|]
      ensures r.Some? ==>
        exists i :: 0 <= i < |neighbours| && neighbours[i] == target && target !in neighbours[..i] &&
                    sent == old(sent) + [(i, FloodRequestToPacket(FloodRequest(|old(floodIds)|, id)))]
    {
      var index := Position(neighbours, target);
      if index.None? {
        return None;
      }
      var request := CreateRequest();
      var packet := FloodRequestToPacket(request);
      sent := sent + [(index.value, packet)];
      r := Some(());
    }
  }
}
