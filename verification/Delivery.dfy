/** From one node to the next: the datagram that a node sends is read by the receiver as exactly one
    request, and running the command it names is exactly the delivery of the message
    (src/sw/gossip-net/gossip_net.cpp, src/sw/gossip-net/resp.cpp, src/sw/gossip-net/command.cpp). */
module Delivery {
  import opened Wrappers
  import opened Stores
  import opened Resp
  import opened Messages
  import opened Protocol
  import opened GossipNets
  import opened Commands
  import opened Clusters

  lemma AnsweringIsDelivery(packet: Packet, p: Peer, p': Peer, sent: seq<Packet>)
    requires Inv(p.store)
    requires ParseArguments(Name(packet.msg), ArgTokens(packet.msg)) == Some(Received(packet.msg))
    ensures Answers(Name(packet.msg), ArgTokens(packet.msg), p, p', sent) <==> PeerStep(p, Deliver(packet), p', sent)
  {
    hide Handles;
  }

  lemma DatagramIsDelivered(packet: Packet, bound: Bound, p: Peer, p': Peer, sent: seq<Packet>)
    requires Inv(p.store) && RespProperties.Encodable(Tokens(packet.msg))
    ensures
      var data := WireOf(packet).data;
      var read := Parse(data, bound);
      && read.Requests? && |read.requests| == 1 && read.bytes == |data|
      && (Answers(read.requests[0].name, read.requests[0].args, p, p', sent)
          <==> PeerStep(p, Deliver(packet), p', sent))
  {
    hide Answers;
    hide PeerStep;
    hide Parse;
    DatagramRoundTrip(packet.msg, bound);
    AnsweringIsDelivery(packet, p, p', sent);
  }
}
