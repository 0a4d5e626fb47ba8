/** The types of the `wg_2024` crate that the routing core uses: node identifiers, node
    categories and the flood-request packet. The crate itself is not part of this model;
    only the fields the core reads or writes are kept. */
module Packets {

  /** `NodeId` is a `u8`. */
  type NodeId = x: int | 0 <= x < 256

  /** `NodeType`: only a `Drone` may relay packets on a path. */
  datatype NodeType = Client | Drone | Server

  /** `FloodRequest::new(flood_id, initiator_id)`: the flood id and the node that started the flood. */
  datatype FloodRequest = FloodRequest(floodId: nat, initiatorId: NodeId)

  /** `SourceRoutingHeader`, kept as the constructor that built it and its hop list. */
  datatype SourceRoutingHeader = WithFirstHop(hops: seq<NodeId>) | EmptyRoute

  datatype PacketType = FloodRequestPacket(request: FloodRequest)

  datatype Packet = Packet(routingHeader: SourceRoutingHeader, sessionId: nat, packType: PacketType)
}
