/** The router's flood-request factory (src/router/flood_requester/mod.rs): it stamps
    each flood request with a fresh id and wraps it in a packet whose route starts at the
    router itself. */
module RouterFloodRequester {
  import opened Packets
  import opened FloodIds

  class FloodRequestFactory {
    var floodIds: seq<nat>
    const id: NodeId

    /** Every id issued so far is recorded, in order, from 0. */
    ghost predicate Valid()
      reads this
    {
      Counting(floodIds)
    }

    /** `FloodRequestFactory::new`: no id issued yet. */
    constructor (id: NodeId)
      ensures Valid() && this.id == id && floodIds == []
    {
      this.id := id;
      floodIds := [];
    }

    /** `create_request`: the next id, recorded, with this router as the initiator. On a
        valid history that id is the number of requests made so far. */
    method CreateRequest() returns (request: FloodRequest)
      modifies this
      ensures request == FloodRequest(NextId(old(floodIds)), id)
      ensures floodIds == old(floodIds) + [request.floodId]
      ensures old(Valid()) ==> Valid() && request.floodId == |old(floodIds)| && request.floodId !in old(floodIds)
    {
      var floodId := if |floodIds| == 0 then 0 else floodIds[|floodIds| - 1] + 1;
      if Counting(floodIds) {
        NextFresh(floodIds);
      }
      floodIds := floodIds + [floodId];
      request := FloodRequest(floodId, id);
    }

    /** `flood_request_to_packet`: the request in a packet routed from this router, with
        session 0. */
    function FloodRequestToPacket(request: FloodRequest): (r: Packet)
      reads this
      ensures r.packType.request == request
      ensures r.routingHeader.WithFirstHop? && r.routingHeader.hops == [id]
      ensures r.sessionId == 0
    {
      Packet(WithFirstHop([id]), 0, FloodRequestPacket(request))
    }

    /** `get_flood_request`: a packet from this router carrying a request with a fresh id,
        which is recorded. */
    method GetFloodRequest() returns (packet: Packet)
      requires Valid()
      modifies this
      ensures Valid() && floodIds == old(floodIds) + [|old(floodIds)|]
      ensures packet == Packet(WithFirstHop([id]), 0, FloodRequestPacket(FloodRequest(|old(floodIds)|, id)))
    {
      var request := CreateRequest();
      packet := FloodRequestToPacket(request);
    }
  }

  /** Three requests from a new factory carry the ids 0, 1 and 2, each started by it, and
      leave the history `Issued(3)`. */
  method ThreeRequests(id: NodeId) returns (first: FloodRequest, second: FloodRequest, third: FloodRequest, history: seq<nat>)
    ensures first == FloodRequest(0, id) && second == FloodRequest(1, id) && third == FloodRequest(2, id)
    ensures history == Issued(3) && history == [0, 1, 2]
  {
    var factory := new FloodRequestFactory(id);
    first := factory.CreateRequest();
    second := factory.CreateRequest();
    third := factory.CreateRequest();
    history := factory.floodIds;
  }
}
