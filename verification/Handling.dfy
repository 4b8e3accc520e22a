/** What handling a message comes to, packet by packet and address by address: pings are answered to
    their sender, ping-reqs forwarded to the peer, and an ack runs every task that waits for it
    (src/sw/gossip-net/command.cpp, src/sw/gossip-net/gossip_net.cpp, src/sw/gossip-net/task.cpp). */
module Handling {
  import opened Nodes
  import opened Views
  import opened Stores
  import opened PendingTasks
  import opened Messages
  import opened Protocol
  import opened Clusters
  import opened Causality
  import PendingEntries

  // ----- One act -----

  /** The packet goes to the address of this node. */
  predicate GoesTo(s: Packet, n: Node) {
    s.ip == n.ip && s.port == n.port
  }

  /** A node that handles a ping sends one packet: an ack naming itself, to the sender of the ping. */
  lemma PingIsAnswered(p: Peer, packet: Packet, p': Peer, sent: seq<Packet>)
    requires Inv(p.store) && PeerStep(p, Deliver(packet), p', sent) && packet.msg.Ping?
    ensures p'.pending == p.pending
    ensures |sent| == 1 && sent[0].msg.Ack? && sent[0].msg.self == p.self && GoesTo(sent[0], packet.msg.self)
  {
  }

  /** A node that handles a ping-req sends one packet: a ping naming itself, to the peer. It holds one task
      more, for that peer, which answers the sender of the ping-req. */
  lemma PingReqIsForwarded(p: Peer, packet: Packet, p': Peer, sent: seq<Packet>) returns (deadline: nat)
    requires Inv(p.store) && PeerStep(p, Deliver(packet), p', sent) && packet.msg.PingReq?
    ensures |sent| == 1 && sent[0].msg.Ping? && sent[0].msg.self == p.self && GoesTo(sent[0], packet.msg.peer)
    ensures EntriesOf(p'.pending, packet.msg.peer.id) == EntriesOf(p.pending, packet.msg.peer.id) +
      [Entry(PingReqTask(Bare(packet.msg.self), Bare(packet.msg.peer)), deadline)]
    ensures forall id :: id != packet.msg.peer.id ==> EntriesOf(p'.pending, id) == EntriesOf(p.pending, id)
  {
    var m := Received(packet.msg);
    deadline :| p'.pending == WithEntry(p.pending, Entry(PingReqTask(m.self, m.peer), deadline));
  }

  /** The i-th packet relays an ack for the i-th entry: it names the peer probed and goes to the node that
      asked. */
  ghost predicate RelaysEach(es: seq<Entry>, sent: seq<Packet>) {
    && |sent| == |es|
    && forall i :: 0 <= i < |es| ==>
         sent[i].msg.Ack? && sent[i].msg.self == es[i].task.peer && GoesTo(sent[i], es[i].task.dest)
  }

  /** A node that handles an ack relays it once for each task that it holds for the node named, in order,
      and holds none of them any more; its other tasks stay. */
  lemma AckRunsItsTasks(p: Peer, packet: Packet, p': Peer, sent: seq<Packet>)
    requires Inv(p.store) && PeerStep(p, Deliver(packet), p', sent) && packet.msg.Ack?
    ensures p'.pending == p.pending - {packet.msg.self.id}
    ensures RelaysEach(EntriesOf(p.pending, packet.msg.self.id), sent)
  {
    var m := Received(packet.msg);
    var es := EntriesOf(p.pending, m.self.id);
    var heard := TakesTasks(Hears(p, m.rumors + [m.self]), m.self.id);
    HeardIsMerged(p, m.rumors + [m.self]);
    RunsTasksFacts(heard, TasksOf(es), p', sent);
    TasksAreRelayed(heard, es, p', sent);
  }

  lemma TasksAreRelayed(p: Peer, es: seq<Entry>, p': Peer, sent: seq<Packet>)
    requires RunsTasks(p, TasksOf(es), p', sent)
    ensures RelaysEach(es, sent)
  {
    var tasks := TasksOf(es);
    var path :| Relays(path, tasks, sent) && path[0] == p && path[|tasks|] == p';
    forall i | 0 <= i < |es|
      ensures sent[i].msg.Ack? && sent[i].msg.self == es[i].task.peer && GoesTo(sent[i], es[i].task.dest)
    {
      assert EmitsAck(path[i], tasks[i].dest, tasks[i].peer, path[i + 1], sent[i]);
    }
  }

  /** In every act that handles a message, its rumors are merged in order and its sender after them; what
      is known afterwards is that, but for failures forgotten. */
  lemma SenderIsHeardLast(p: Peer, packet: Packet, p': Peer, sent: seq<Packet>)
    requires Inv(p.store) && PeerStep(p, Deliver(packet), p', sent)
    ensures Views.Keyed(ViewOf(p.store))
    ensures Forgets(Merge(MergeAll(ViewOf(p.store), packet.msg.rumors), Bare(packet.msg.self)), ViewOf(p'.store))
  {
    PeerStepFacts(p, Deliver(packet), p', sent);
    ViewKeyed(p.store);
    var rumors := packet.msg.rumors;
    assert (rumors + [Bare(packet.msg.self)])[..|rumors|] == rumors;
    assert Hearing(Deliver(packet)) == rumors + [Bare(packet.msg.self)];
  }

  /** A probe is one ping to the node probed, a probe through a relay one ping-req to the relay that names
      the peer; what the application tells, and tasks that time out, are followed by no packet. */
  lemma OtherActs(p: Peer, act: Act, p': Peer, sent: seq<Packet>)
    requires Inv(p.store) && PeerStep(p, act, p', sent) && !act.Deliver?
    ensures act.Probe? ==>
      |sent| == 1 && sent[0].msg.Ping? && sent[0].msg.self == p.self && GoesTo(sent[0], act.dest)
    ensures act.ProbeVia? ==>
      |sent| == 1 && sent[0].msg.PingReq? && sent[0].msg.self == p.self && sent[0].msg.peer == act.peer &&
      GoesTo(sent[0], act.relay)
    ensures act.Told? || act.Expire? ==> sent == []
    ensures !act.Expire? ==> p'.pending == p.pending
  {
  }

  /** What the application tells is merged in order; other acts that hear nothing leave what is known,
      but for failures forgotten. */
  lemma OtherActsHear(p: Peer, act: Act, p': Peer, sent: seq<Packet>)
    requires Inv(p.store) && PeerStep(p, act, p', sent) && !act.Deliver?
    ensures Views.Keyed(ViewOf(p.store))
    ensures act.Told? ==> ViewOf(p'.store) == MergeAll(ViewOf(p.store), act.rumors)
    ensures act.Probe? || act.ProbeVia? ==> Forgets(ViewOf(p.store), ViewOf(p'.store))
    ensures act.Expire? ==> p'.store == p.store
  {
    PeerStepFacts(p, act, p', sent);
    ViewKeyed(p.store);
    if act.Told? {
      UpdateRefinesMergeAll(p.store, act.rumors);
    }
  }

  /** A timeout drops exactly the tasks that are due. */
  lemma TimeoutDropsDue(p: Peer, act: Act, p': Peer, sent: seq<Packet>, e: Entry)
    requires Inv(p.store) && PeerStep(p, act, p', sent) && act.Expire?
    ensures PendingEntries.HeldEntry(p'.pending, e)
         == if (if act.how.Inclusive? then e.deadline <= act.now else e.deadline < act.now) then 0
            else PendingEntries.HeldEntry(p.pending, e)
  {
    PendingEntries.RemainingCount(p.pending, act.now, act.how, e);
  }

  // ----- Whole runs -----

  /** Event k is the handling by node j of an ack naming id. */
  ghost predicate AckedAt(es: seq<Event>, k: nat, j: nat, id: string) {
    && k < |es| && es[k].Acts? && es[k].i == j && es[k].act.Deliver?
    && es[k].act.packet.msg.Ack? && es[k].act.packet.msg.self.id == id
  }

  /** In every run, right after a node has handled an ack it holds no task for the node named; the act
      has relayed one ack for each that it held; and if none has timed out, each ping-req for that node
      has been answered, as often as it was handled. */
  lemma AckSettlesAllAsked(cs: seq<Cluster>, es: seq<Event>, k: nat, j: nat, id: string)
    requires Clusters.Run(cs, es) && AckedAt(es, k, j, id)
    ensures j < |cs[k].peers| == |cs[k + 1].peers|
    ensures id !in cs[k + 1].peers[j].pending
    ensures RelaysEach(EntriesOf(cs[k].peers[j].pending, id), es[k].sent)
    ensures Relayed(es, k + 1, j, id) <= Asked(es, k + 1, j, id)
    ensures NoneTimedOut(es, k + 1, j) ==> Relayed(es, k + 1, j, id) == Asked(es, k + 1, j, id)
  {
    RunStep(cs, es, k);
    EachPingReqAnsweredOnce(cs, es, k + 1, j, id);
    AckRunsItsTasks(cs[k].peers[j], es[k].act.packet, cs[k + 1].peers[j], es[k].sent);
  }

  /** In every run, a ping that a node handles is answered by that node at once, and to the address that
      the ping gives for its sender. */
  lemma EveryPingIsAnswered(cs: seq<Cluster>, es: seq<Event>, k: nat)
    requires Clusters.Run(cs, es) && k < |es| && es[k].Acts? && es[k].act.Deliver? && es[k].act.packet.msg.Ping?
    ensures es[k].i < |cs[0].peers| && |es[k].sent| == 1
    ensures
      var s := es[k].sent[0];
      && s.msg.Ack? && s.msg.self == cs[0].peers[es[k].i].self && GoesTo(s, es[k].act.packet.msg.self)
      && s in cs[k + 1].network
  {
    RunStep(cs, es, k);
    RunIsSound(cs, es, k);
    PingIsAnswered(cs[k].peers[es[k].i], es[k].act.packet, cs[k + 1].peers[es[k].i], es[k].sent);
  }

  /** In every run, a ping-req that a node handles is forwarded at once as a ping to the peer it names. */
  lemma EveryPingReqIsForwarded(cs: seq<Cluster>, es: seq<Event>, k: nat)
    requires Clusters.Run(cs, es) && k < |es| && es[k].Acts? && es[k].act.Deliver? && es[k].act.packet.msg.PingReq?
    ensures es[k].i < |cs[0].peers| && |es[k].sent| == 1
    ensures
      var s := es[k].sent[0];
      && s.msg.Ping? && s.msg.self == cs[0].peers[es[k].i].self && GoesTo(s, es[k].act.packet.msg.peer)
      && s in cs[k + 1].network
  {
    RunStep(cs, es, k);
    RunIsSound(cs, es, k);
    var deadline :=
      PingReqIsForwarded(cs[k].peers[es[k].i], es[k].act.packet, cs[k + 1].peers[es[k].i], es[k].sent);
  }
}
