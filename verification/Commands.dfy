/** The command handlers: read the arguments, update the membership, answer
    (src/sw/gossip-net/command.h, src/sw/gossip-net/command.cpp).

    An argument error is caught in the source before anything has changed. A ping-req task is
    keyed by the peer being probed and answers the requester, as the ack handler looks it up; the
    source passes its arguments the other way round. */
module Commands {
  import opened Wrappers
  import opened Nodes
  import opened Stores
  import opened PendingTasks
  import opened Messages
  import opened Protocol
  import opened GossipNets
  import opened Clusters
  import opened Handling

  /** Running a command on these arguments: nothing on an error, else the message is handled. */
  ghost predicate Answers(name: string, args: seq<string>, p: Peer, p': Peer, sent: seq<Packet>)
    requires Inv(p.store)
  {
    var m := ParseArguments(name, args);
    if m.None? then p' == p && sent == [] else Handles(p, m.value, p', sent)
  }

  /** Arguments of ping and of ack: the sender, then rumors. */
  method ParseSelfAndRumors(args: seq<string>) returns (ok: bool, self: Option<Node>, rumors: seq<Node>)
    ensures ok ==> self.Some?
    ensures ParseArguments("ping", args) == if ok then Some(Ping(self.value, rumors)) else None
    ensures ParseArguments("ack", args) == if ok then Some(Ack(self.value, rumors)) else None
  {
    assert args[0..] == args;
    var first;
    self, first := ReadNode("self", args, 0);
    if self.None? {
      return false, None, [];
    }
    var rest := ReadRumors(args, first);
    if rest.None? {
      return false, None, [];
    }
    return true, self, rest.value;
  }

  method ParsePingReq(args: seq<string>) returns (r: Option<Message>)
    ensures r == ParseArguments("ping-req", args)
    ensures r.Some? ==> r.value.PingReq?
  {
    assert args[0..] == args;
    var self, afterSelf := ReadNode("self", args, 0);
    if self.None? {
      return None;
    }
    var peer, afterPeer := ReadNode("peer", args, afterSelf);
    if peer.None? {
      return None;
    }
    assert args[afterSelf..][afterPeer - afterSelf..] == args[afterPeer..];
    var rumors := ReadRumors(args, afterPeer);
    if rumors.None? {
      return None;
    }
    return Some(PingReq(self.value, peer.value, rumors.value));
  }

  // ----- What is sent, as datagrams -----

  /** One datagram has been sent: an ack naming this node, to the sender of the ping. */
  ghost predicate PingReply(m: Message, self: Node, sent: seq<Packet>, before: seq<Datagram>, after: seq<Datagram>) {
    && |sent| == 1 && sent[0].msg == Ack(self, sent[0].msg.rumors)
    && after == before + [Datagram(m.self.ip, m.self.port, EncodeMessage(sent[0].msg))]
  }

  /** One datagram has been sent: a ping naming this node, to the peer. */
  ghost predicate PingReqReply(m: Message, self: Node, sent: seq<Packet>, before: seq<Datagram>, after: seq<Datagram>)
    requires m.PingReq?
  {
    && |sent| == 1 && sent[0].msg == Ping(self, sent[0].msg.rumors)
    && after == before + [Datagram(m.peer.ip, m.peer.port, EncodeMessage(sent[0].msg))]
  }

  /** One datagram has been sent for each of these entries, in order: an ack naming the peer probed, to the
      node that asked. */
  ghost predicate AckReplies(es: seq<Entry>, sent: seq<Packet>, before: seq<Datagram>, after: seq<Datagram>) {
    && |sent| == |es| && |after| == |before| + |es| && before <= after
    && forall i :: 0 <= i < |es| ==>
         && sent[i].msg == Ack(es[i].task.peer, sent[i].msg.rumors)
         && after[|before| + i]
            == Datagram(es[i].task.dest.ip, es[i].task.dest.port, EncodeMessage(sent[i].msg))
  }

  lemma {:induction false} WireAt(sent: seq<Packet>, i: nat)
    requires i < |sent|
    ensures |Wire(sent)| == |sent| && Wire(sent)[i] == WireOf(sent[i])
  {
    WireSize(sent);
    if i < |sent| - 1 {
      WireAt(sent[..|sent| - 1], i);
    } else {
      WireSize(sent[..|sent| - 1]);
    }
  }

  lemma {:induction false} WireSize(sent: seq<Packet>)
    ensures |Wire(sent)| == |sent|
  {
    if sent != [] {
      WireSize(sent[..|sent| - 1]);
    }
  }

  lemma AcksInOutbox(p: Peer, es: seq<Entry>, p': Peer, sent: seq<Packet>, before: seq<Datagram>)
    requires RunsTasks(p, TasksOf(es), p', sent)
    ensures AckReplies(es, sent, before, before + Wire(sent))
  {
    TasksAreRelayed(p, es, p', sent);
    WireSize(sent);
    forall i | 0 <= i < |es|
      ensures sent[i].msg == Ack(es[i].task.peer, sent[i].msg.rumors)
      ensures (before + Wire(sent))[|before| + i]
           == Datagram(es[i].task.dest.ip, es[i].task.dest.port, EncodeMessage(sent[i].msg))
    {
      WireAt(sent, i);
    }
  }

  // ----- The handlers -----

  method RunPing(net: GossipNet, args: seq<string>) returns (ghost sent: seq<Packet>)
    requires net.Valid()
    modifies net`outbox, net.members, net.recent
    ensures net.Valid()
    ensures Answers("ping", args, old(net.State()), net.State(), sent)
    ensures net.outbox == old(net.outbox) + Wire(sent)
    ensures ParseArguments("ping", args).None? ==> net.State() == old(net.State()) && net.outbox == old(net.outbox)
    ensures ParseArguments("ping", args).Some? ==>
      PingReply(ParseArguments("ping", args).value, net.self, sent, old(net.outbox), net.outbox)
  {
    hide EncodeMessage;
    var ok, self, rumors := ParseSelfAndRumors(args);
    sent := [];
    if ok {
      net.Update(rumors + [self.value]);
      ghost var one := net.SendAck(self.value, net.self);
      WireOfOne(one);
      sent := [one];
    }
  }

  lemma PingReqAnswered(args: seq<string>, m: Message, p: Peer, heard: Peer, sent: Packet, p': Peer, deadline: nat)
    requires Inv(p.store) && m.PingReq? && ParseArguments("ping-req", args) == Some(m)
    requires heard == Hears(p, m.rumors + [m.self]) && EmitsPing(heard, m.peer, p'.(pending := p.pending), sent)
    requires p'.pending == WithEntry(p.pending, Entry(PingReqTask(m.self, m.peer), deadline))
    ensures Answers("ping-req", args, p, p', [sent])
  {
  }

  /** The pending tasks gain exactly one entry: the ack that a ping-req waits for is to be relayed to its
      sender until the deadline. */
  ghost predicate KeepsTask(m: Message, index: TaskIndex, index': TaskIndex, deadline: nat)
    requires m.PingReq?
  {
    && EntriesOf(index', m.peer.id) == EntriesOf(index, m.peer.id) + [Entry(PingReqTask(m.self, m.peer), deadline)]
    && forall id :: id != m.peer.id ==> EntriesOf(index', id) == EntriesOf(index, id)
  }

  lemma TaskKept(m: Message, index: TaskIndex, deadline: nat)
    requires m.PingReq?
    ensures KeepsTask(m, index, WithEntry(index, Entry(PingReqTask(m.self, m.peer), deadline)), deadline)
  {
  }

  lemma NotAnswered(name: string, args: seq<string>, p: Peer)
    requires Inv(p.store) && ParseArguments(name, args).None?
    ensures Answers(name, args, p, p, [])
  {
  }

  method RunPingReq(net: GossipNet, args: seq<string>, now: nat) returns (ghost sent: seq<Packet>)
    requires net.Valid()
    modifies net`outbox, net.members, net.recent, net.tasks
    ensures net.Valid()
    ensures Answers("ping-req", args, old(net.State()), net.State(), sent)
    ensures net.outbox == old(net.outbox) + Wire(sent)
    ensures ParseArguments("ping-req", args).None? ==> net.State() == old(net.State()) && net.outbox == old(net.outbox)
    ensures ParseArguments("ping-req", args).Some? ==>
      var m := ParseArguments("ping-req", args).value;
      && m.PingReq? && PingReqReply(m, net.self, sent, old(net.outbox), net.outbox)
      && KeepsTask(m, old(net.tasks.taskIndex), net.tasks.taskIndex, now + net.tasks.timeout)
  {
    hide EncodeMessage;
    hide Answers;
    hide KeepsTask;
    hide ParseArguments;
    var m := ParsePingReq(args);
    sent := [];
    if m.None? {
      NotAnswered("ping-req", args, net.State());
    } else {
      net.Update(m.value.rumors + [m.value.self]);
      ghost var heard := net.State();
      // Probe the peer on the sender's behalf.
      ghost var one := net.SendPing(m.value.peer);
      net.AddTask(PingReqTask(m.value.self, m.value.peer), now);
      PingReqAnswered(args, m.value, old(net.State()), heard, one, net.State(), now + net.tasks.timeout);
      TaskKept(m.value, old(net.tasks.taskIndex), now + net.tasks.timeout);
      WireOfOne(one);
      sent := [one];
    }
  }

  method RunAck(net: GossipNet, args: seq<string>) returns (ghost sent: seq<Packet>)
    requires net.Valid()
    modifies net`outbox, net.members, net.recent, net.tasks
    ensures net.Valid()
    ensures Answers("ack", args, old(net.State()), net.State(), sent)
    ensures net.outbox == old(net.outbox) + Wire(sent)
    ensures ParseArguments("ack", args).None? ==> net.State() == old(net.State()) && net.outbox == old(net.outbox)
    ensures ParseArguments("ack", args).Some? ==>
      var id := ParseArguments("ack", args).value.self.id;
      && net.tasks.taskIndex == old(net.tasks.taskIndex) - {id}
      && AckReplies(EntriesOf(old(net.tasks.taskIndex), id), sent, old(net.outbox), net.outbox)
  {
    hide EncodeMessage;
    hide Inv;
    var ok, self, rumors := ParseSelfAndRumors(args);
    sent := [];
    if ok {
      net.Update(rumors + [self.value]);
      ghost var heard := TakesTasks(net.State(), self.value.id);
      ghost var es := EntriesOf(net.tasks.taskIndex, self.value.id);
      sent := net.DoTask(self.value.id);
      RunsTasksFacts(heard, TasksOf(es), net.State(), sent);
      AcksInOutbox(heard, es, net.State(), sent, old(net.outbox));
    }
  }
}
