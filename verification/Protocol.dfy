/** What one node does when it handles a message: the commands ping, ping-req and ack as steps
    (src/sw/gossip-net/command.cpp, src/sw/gossip-net/gossip_net.cpp, src/sw/gossip-net/task.cpp). */
module Protocol {
  import opened Nodes
  import opened Stores
  import opened Messages
  import opened PendingTasks

  /** A node: its own record, how many rumors it puts in a message, its store and its pending tasks. */
  datatype Peer = Peer(self: Node, max: nat, store: Store, pending: TaskIndex)

  /** A message on its way to an address. */
  datatype Packet = Packet(ip: string, port: Port, msg: Message)

  /** update. */
  function Hears(p: Peer, rumors: seq<Node>): Peer
    requires Inv(p.store)
  {
    p.(store := ReceiveAll(p.store, rumors))
  }

  /** Building rumors and sending them in one message, with any limit on spreading. */
  ghost predicate Emits(p: Peer, dest: Node, p': Peer, sent: Packet) {
    && p' == p.(store := p'.store)
    && sent.ip == dest.ip && sent.port == dest.port
    && exists limit :: Builds(p.store, p.max, limit, sent.msg.rumors, p'.store)
  }

  ghost predicate EmitsAck(p: Peer, dest: Node, self: Node, p': Peer, sent: Packet) {
    Emits(p, dest, p', sent) && sent.msg == Ack(self, sent.msg.rumors)
  }

  ghost predicate EmitsPing(p: Peer, dest: Node, p': Peer, sent: Packet) {
    Emits(p, dest, p', sent) && sent.msg == Ping(p.self, sent.msg.rumors)
  }

  /** Pending tasks run one after the other, each relaying an ack. */
  ghost predicate Relays(path: seq<Peer>, tasks: seq<Task>, sent: seq<Packet>) {
    && |path| == |tasks| + 1 && |sent| == |tasks|
    && forall i :: 0 <= i < |tasks| ==> EmitsAck(path[i], tasks[i].dest, tasks[i].peer, path[i + 1], sent[i])
  }

  ghost predicate RunsTasks(p: Peer, tasks: seq<Task>, p': Peer, sent: seq<Packet>) {
    exists path :: Relays(path, tasks, sent) && path[0] == p && path[|tasks|] == p'
  }

  function TakesTasks(p: Peer, id: string): Peer {
    p.(pending := p.pending - {id})
  }

  /** Handling a message that has been read: the sender's own record is heard last. */
  ghost predicate Handles(p: Peer, m: Message, p': Peer, sent: seq<Packet>)
    requires Inv(p.store)
  {
    var heard := Hears(p, m.rumors + [m.self]);
    match m
    case Ping(self, _) => |sent| == 1 && EmitsAck(heard, self, p.self, p', sent[0])
    case PingReq(self, peer, _) =>
      && |sent| == 1 && EmitsPing(heard, peer, p'.(pending := p.pending), sent[0])
      && exists deadline :: p'.pending == WithEntry(p.pending, Entry(PingReqTask(self, peer), deadline))
    case Ack(self, _) => RunsTasks(TakesTasks(heard, self.id), TasksOf(EntriesOf(p.pending, self.id)), p', sent)
  }
}
