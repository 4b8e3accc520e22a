/** Where messages come from, over whole runs: an ack naming a node means that this node has handled a
    ping, and a relayed ack answers a ping-req (src/sw/gossip-net/command.cpp,
    src/sw/gossip-net/gossip_net.cpp, src/sw/gossip-net/task.cpp). */
module Causality {
  import opened Nodes
  import opened Stores
  import opened PendingTasks
  import opened Messages
  import opened Protocol
  import opened Clusters

  // ----- One act -----

  /** Where an ack that a node sends comes from: it answers a ping, naming the node and going to the
      sender of the ping; or it relays an ack, on behalf of a pending task for the peer named. */
  ghost predicate AckOrigin(p: Peer, act: Act, s: Packet) {
    act.Deliver? &&
    var m := Received(act.packet.msg);
    || (m.Ping? && s.msg.self == p.self && s.ip == m.self.ip && s.port == m.self.port)
    || (m.Ack? && exists e :: e in EntriesOf(p.pending, m.self.id) && RelaysFor(e.task, s))
  }

  ghost predicate RelaysFor(t: Task, s: Packet) {
    s.msg.self == t.peer && s.ip == t.dest.ip && s.port == t.dest.port
  }

  lemma RelayOrigin(p: Peer, es: seq<Entry>, p': Peer, sent: seq<Packet>, s: Packet)
    requires RunsTasks(p, TasksOf(es), p', sent) && s in sent
    ensures s.msg.Ack? && exists e :: e in es && RelaysFor(e.task, s)
  {
    var tasks := TasksOf(es);
    var path :| Relays(path, tasks, sent) && path[0] == p && path[|tasks|] == p';
    var i :| 0 <= i < |sent| && sent[i] == s;
    assert EmitsAck(path[i], tasks[i].dest, tasks[i].peer, path[i + 1], sent[i]);
    assert es[i] in es && RelaysFor(es[i].task, s);
  }

  lemma SentBy(p: Peer, act: Act, p': Peer, sent: seq<Packet>, s: Packet)
    requires Inv(p.store) && PeerStep(p, act, p', sent) && s in sent
    ensures !s.msg.Ack? ==> s.msg.self == p.self
    ensures s.msg.PingReq? ==> act.ProbeVia? && s.msg.peer == act.peer
    ensures s.msg.Ack? ==> AckOrigin(p, act, s)
    ensures act.Deliver? && act.packet.msg.Ack? ==> s.msg.Ack?
  {
    if act.Deliver? && act.packet.msg.Ack? {
      var m := Received(act.packet.msg);
      var heard := Hears(p, m.rumors + [m.self]);
      RelayOrigin(TakesTasks(heard, m.self.id), EntriesOf(p.pending, m.self.id), p', sent, s);
    }
  }

  /** A task that a node holds was held before, or comes from the ping-req just handled. */
  lemma PendingFrom(p: Peer, act: Act, p': Peer, sent: seq<Packet>, id: string, e: Entry)
    requires Inv(p.store) && PendingTasks.Keyed(p.pending)
    requires PeerStep(p, act, p', sent) && e in EntriesOf(p'.pending, id)
    ensures e in EntriesOf(p.pending, id) || (act.Deliver? && Asks(act.packet, e.task) && id == TaskId(e.task))
  {
    match act
    case Told(rumors) =>
    case Probe(dest) =>
    case ProbeVia(relay, peer) =>
    case Expire(now, how) =>
      if id in p.pending {
        ExpiryKeepsIds(p.pending[id], now, how, id);
      }
    case Deliver(packet) =>
      var m := Received(packet.msg);
      if m.PingReq? {
        var deadline :| p'.pending == WithEntry(p.pending, Entry(PingReqTask(m.self, m.peer), deadline));
      } else if m.Ack? {
        var heard := Hears(p, m.rumors + [m.self]);
        RunsTasksFacts(TakesTasks(heard, m.self.id), TasksOf(EntriesOf(p.pending, m.self.id)), p', sent);
      }
  }

  /** The packet is a ping-req that this task serves. */
  ghost predicate Asks(packet: Packet, t: Task) {
    packet.msg.PingReq? && t == PingReqTask(Bare(packet.msg.self), Bare(packet.msg.peer))
  }

  lemma PendingStaysKeyed(p: Peer, act: Act, p': Peer, sent: seq<Packet>)
    requires Inv(p.store) && PendingTasks.Keyed(p.pending) && PeerStep(p, act, p', sent)
    ensures PendingTasks.Keyed(p'.pending)
  {
    if act.Expire? {
      RemainingStaysKeyed(p.pending, act.now, act.how);
    } else if act.Deliver? {
      HandlingStaysKeyed(p, Received(act.packet.msg), p', sent);
    }
  }

  lemma HandlingStaysKeyed(p: Peer, m: Message, p': Peer, sent: seq<Packet>)
    requires Inv(p.store) && PendingTasks.Keyed(p.pending) && Handles(p, m, p', sent)
    ensures PendingTasks.Keyed(p'.pending)
  {
    if m.PingReq? {
      var deadline :| p'.pending == WithEntry(p.pending, Entry(PingReqTask(m.self, m.peer), deadline));
    } else if m.Ack? {
      HeardIsMerged(p, m.rumors + [m.self]);
      var heard := TakesTasks(Hears(p, m.rumors + [m.self]), m.self.id);
      RunsTasksFacts(heard, TasksOf(EntriesOf(p.pending, m.self.id)), p', sent);
    }
  }

  // ----- Whole runs -----

  ghost predicate AllKeyed(c: Cluster) {
    forall j :: 0 <= j < |c.peers| ==> PendingTasks.Keyed(c.peers[j].pending)
  }

  lemma {:induction false} PendingKeyed(cs: seq<Cluster>, es: seq<Event>, k: nat)
    requires Clusters.Run(cs, es) && k <= |es|
    ensures |cs[k].peers| == |cs[0].peers| && AllKeyed(cs[k])
  {
    if k > 0 {
      PendingKeyed(cs, es, k - 1);
      RunStep(cs, es, k - 1);
      var c, e, c' := cs[k - 1], es[k - 1], cs[k];
      if e.Acts? {
        PendingStaysKeyed(c.peers[e.i], e.act, c'.peers[e.i], e.sent);
      }
    }
  }

  /** Event t is the handling by node j of a ping-req that this task serves. */
  ghost predicate AskedAt(es: seq<Event>, t: nat, j: nat, task: Task) {
    t < |es| && es[t].Acts? && es[t].i == j && es[t].act.Deliver? && Asks(es[t].act.packet, task)
  }

  /** A pending task comes from a ping-req that its holder handled earlier. */
  lemma {:induction false} PendingWasAsked(cs: seq<Cluster>, es: seq<Event>, k: nat, j: nat, id: string, e: Entry)
    requires Clusters.Run(cs, es) && k <= |es| && j < |cs[0].peers|
    requires |cs[k].peers| == |cs[0].peers| && e in EntriesOf(cs[k].peers[j].pending, id)
    ensures TaskId(e.task) == id
    ensures exists t :: 0 <= t < k && AskedAt(es, t, j, e.task)
  {
    PendingKeyed(cs, es, k);
    if k > 0 {
      RunStep(cs, es, k - 1);
      PendingKeyed(cs, es, k - 1);
      var ev := es[k - 1];
      if ev.Acts? && ev.i == j {
        PendingFrom(cs[k - 1].peers[j], ev.act, cs[k].peers[j], ev.sent, id, e);
      }
      if e in EntriesOf(cs[k - 1].peers[j].pending, id) {
        PendingWasAsked(cs, es, k - 1, j, id, e);
      } else {
        assert AskedAt(es, k - 1, j, e.task);
      }
    }
  }

  /** Event t is the handling of a ping by a node whose own id is this. */
  ghost predicate PingedAt(cs: seq<Cluster>, es: seq<Event>, t: nat, id: string)
    requires |cs| > 0
  {
    && t < |es| && es[t].Acts? && es[t].i < |cs[0].peers|
    && es[t].act.Deliver? && es[t].act.packet.msg.Ping?
    && cs[0].peers[es[t].i].self.id == id
  }

  /** An ack that is new in the network answers a ping to the node it names, or another ack naming it. */
  lemma NewAck(cs: seq<Cluster>, es: seq<Event>, k: nat, packet: Packet)
    requires Clusters.Run(cs, es) && k < |es| && packet.msg.Ack?
    requires packet in cs[k + 1].network && packet !in cs[k].network
    ensures es[k].Acts? && es[k].act.Deliver? && es[k].act.packet in cs[k].network
    ensures PingedAt(cs, es, k, packet.msg.self.id)
         || (es[k].act.packet.msg.Ack? && es[k].act.packet.msg.self.id == packet.msg.self.id)
  {
    RunIsSound(cs, es, k);
    RunStep(cs, es, k);
    var c, e := cs[k], es[k];
    SentBy(c.peers[e.i], e.act, cs[k + 1].peers[e.i], e.sent, packet);
    if e.act.packet.msg.Ack? {
      var m := Received(e.act.packet.msg);
      var entry :| entry in EntriesOf(c.peers[e.i].pending, m.self.id) && RelaysFor(entry.task, packet);
      PendingWasAsked(cs, es, k, e.i, m.self.id, entry);
    }
  }

  /** Every ack in the network, direct or relayed any number of times, traces back to a ping that the
      node it names has handled. */
  lemma {:induction false} AckMeansPinged(cs: seq<Cluster>, es: seq<Event>, k: nat, packet: Packet)
    requires Clusters.Run(cs, es) && k <= |es| && packet in cs[k].network && packet.msg.Ack?
    ensures exists t :: 0 <= t < k && PingedAt(cs, es, t, packet.msg.self.id)
  {
    if k > 0 {
      if packet in cs[k - 1].network {
        AckMeansPinged(cs, es, k - 1, packet);
      } else {
        NewAck(cs, es, k - 1, packet);
        if !PingedAt(cs, es, k - 1, packet.msg.self.id) {
          AckMeansPinged(cs, es, k - 1, es[k - 1].act.packet);
        }
      }
    }
  }

  /** A node that handles an ack sends only acks naming the same node, each for a task it still held,
      which came from a ping-req for that node it had handled earlier, and each to the address of the
      node that sent the ping-req. */
  lemma RelayAnswersPingReq(cs: seq<Cluster>, es: seq<Event>, k: nat, s: Packet)
    requires Clusters.Run(cs, es) && k < |es| && es[k].Acts? && s in es[k].sent
    requires es[k].act.Deliver? && es[k].act.packet.msg.Ack?
    ensures es[k].i < |cs[k].peers| == |cs[0].peers|
    ensures s.msg.Ack? && s.msg.self.id == es[k].act.packet.msg.self.id
    ensures exists e, t ::
      && e in EntriesOf(cs[k].peers[es[k].i].pending, s.msg.self.id) && RelaysFor(e.task, s)
      && 0 <= t < k && AskedAt(es, t, es[k].i, e.task)
  {
    RunStep(cs, es, k);
    var c, ev := cs[k], es[k];
    SentBy(c.peers[ev.i], ev.act, cs[k + 1].peers[ev.i], ev.sent, s);
    var m := Received(ev.act.packet.msg);
    var e :| e in EntriesOf(c.peers[ev.i].pending, m.self.id) && RelaysFor(e.task, s);
    PendingWasAsked(cs, es, k, ev.i, m.self.id, e);
  }

  // ----- How often a ping-req is answered -----

  lemma {:induction false} UnexpiredAreFewer(es: seq<Entry>, now: nat, how: Comparison)
    ensures |Unexpired(es, now, how)| <= |es|
  {
    if es != [] {
      UnexpiredAreFewer(es[..|es| - 1], now, how);
    }
  }

  /** The acks naming id that this act relays. */
  function RelaysIn(act: Act, sent: seq<Packet>, id: string): nat {
    if act.Deliver? && act.packet.msg.Ack? && act.packet.msg.self.id == id then |sent| else 0
  }

  /** The ping-reqs for id that this act handles. */
  function AsksIn(act: Act, id: string): nat {
    if act.Deliver? && act.packet.msg.PingReq? && act.packet.msg.peer.id == id then 1 else 0
  }

  lemma RelaysUseUpTasks(p: Peer, act: Act, p': Peer, sent: seq<Packet>, id: string)
    requires Inv(p.store) && PeerStep(p, act, p', sent)
    ensures |EntriesOf(p'.pending, id)| + RelaysIn(act, sent, id) <= |EntriesOf(p.pending, id)| + AsksIn(act, id)
    ensures !act.Expire? ==>
      |EntriesOf(p'.pending, id)| + RelaysIn(act, sent, id) == |EntriesOf(p.pending, id)| + AsksIn(act, id)
  {
    hide Handles;
    match act
    case Told(rumors) =>
    case Probe(dest) =>
    case ProbeVia(relay, peer) =>
    case Expire(now, how) => UnexpiredAreFewer(EntriesOf(p.pending, id), now, how);
    case Deliver(packet) => HandlingUsesUpTasks(p, Received(packet.msg), p', sent, id);
  }

  lemma HandlingUsesUpTasks(p: Peer, m: Message, p': Peer, sent: seq<Packet>, id: string)
    requires Inv(p.store) && Handles(p, m, p', sent)
    ensures |EntriesOf(p'.pending, id)| + (if m.Ack? && m.self.id == id then |sent| else 0)
         == |EntriesOf(p.pending, id)| + (if m.PingReq? && m.peer.id == id then 1 else 0)
  {
    if m.Ack? {
      var heard := TakesTasks(Hears(p, m.rumors + [m.self]), m.self.id);
      HeardIsMerged(p, m.rumors + [m.self]);
      RunsTasksFacts(heard, TasksOf(EntriesOf(p.pending, m.self.id)), p', sent);
    }
  }

  function Relayed(es: seq<Event>, k: nat, j: nat, id: string): nat
    requires k <= |es|
  {
    if k == 0 then 0
    else
      var e := es[k - 1];
      Relayed(es, k - 1, j, id) + if e.Acts? && e.i == j then RelaysIn(e.act, e.sent, id) else 0
  }

  function Asked(es: seq<Event>, k: nat, j: nat, id: string): nat
    requires k <= |es|
  {
    if k == 0 then 0
    else
      var e := es[k - 1];
      Asked(es, k - 1, j, id) + if e.Acts? && e.i == j then AsksIn(e.act, id) else 0
  }

  /** No task of node j has timed out in the first k events. */
  ghost predicate NoneTimedOut(es: seq<Event>, k: nat, j: nat)
    requires k <= |es|
  {
    forall t :: 0 <= t < k && es[t].Acts? && es[t].i == j ==> !es[t].act.Expire?
  }

  lemma StepUsesUpTasks(c: Cluster, e: Event, c': Cluster, j: nat, id: string)
    requires Sound(c) && Clusters.Step(c, e, c') && j < |c.peers|
    ensures |EntriesOf(c'.peers[j].pending, id)| + (if e.Acts? && e.i == j then RelaysIn(e.act, e.sent, id) else 0)
         <= |EntriesOf(c.peers[j].pending, id)| + (if e.Acts? && e.i == j then AsksIn(e.act, id) else 0)
    ensures !(e.Acts? && e.i == j && e.act.Expire?) ==>
      |EntriesOf(c'.peers[j].pending, id)| + (if e.Acts? && e.i == j then RelaysIn(e.act, e.sent, id) else 0)
      == |EntriesOf(c.peers[j].pending, id)| + (if e.Acts? && e.i == j then AsksIn(e.act, id) else 0)
  {
    if e.Acts? && e.i == j {
      RelaysUseUpTasks(c.peers[j], e.act, c'.peers[j], e.sent, id);
    }
  }

  /** However often acks are duplicated, a node relays no more acks naming a peer than it was asked to;
      what it still owes is pending, and exactly that when nothing timed out. */
  lemma {:induction false} EachPingReqAnsweredOnce(cs: seq<Cluster>, es: seq<Event>, k: nat, j: nat, id: string)
    requires Clusters.Run(cs, es) && k <= |es| && j < |cs[0].peers|
    ensures |cs[k].peers| == |cs[0].peers|
    ensures Relayed(es, k, j, id) + |EntriesOf(cs[k].peers[j].pending, id)| <= Asked(es, k, j, id)
    ensures NoneTimedOut(es, k, j) ==>
      Relayed(es, k, j, id) + |EntriesOf(cs[k].peers[j].pending, id)| == Asked(es, k, j, id)
  {
    if k > 0 {
      RunStep(cs, es, k - 1);
      EachPingReqAnsweredOnce(cs, es, k - 1, j, id);
      StepUsesUpTasks(cs[k - 1], es[k - 1], cs[k], j, id);
    }
  }
}
