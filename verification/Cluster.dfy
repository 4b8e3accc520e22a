/** Many nodes over a network that may lose, duplicate, reorder and misdeliver messages: the acts of one
    node, the steps of the cluster, and what every run keeps
    (src/sw/gossip-net/gossip_net.cpp, src/sw/gossip-net/command.cpp, src/sw/gossip-net/task.cpp). */
module Clusters {
  import opened Nodes
  import opened Views
  import opened Stores
  import opened PendingTasks
  import opened Messages
  import opened Protocol

  /** What one node does: the application tells it records, it probes another node directly or through
      a relay, it handles a message, or pending tasks time out. */
  datatype Act =
    | Told(rumors: seq<Node>)
    | Probe(dest: Node)
    | ProbeVia(relay: Node, peer: Node)
    | Deliver(packet: Packet)
    | Expire(now: nat, how: Comparison)

  /** The records a node hears in an act, in order. */
  function Hearing(act: Act): seq<Node> {
    match act
    case Told(rumors) => rumors
    case Deliver(packet) => Received(packet.msg).rumors + [Received(packet.msg).self]
    case _ => []
  }

  ghost predicate PeerStep(p: Peer, act: Act, p': Peer, sent: seq<Packet>)
    requires Inv(p.store)
  {
    match act
    case Told(rumors) => p' == Hears(p, rumors) && sent == []
    case Probe(dest) => |sent| == 1 && EmitsPing(p, dest, p', sent[0])
    case ProbeVia(relay, peer) =>
      |sent| == 1 && Emits(p, relay, p', sent[0]) && sent[0].msg == PingReq(p.self, peer, sent[0].msg.rumors)
    case Deliver(packet) => Handles(p, Received(packet.msg), p', sent)
    case Expire(now, how) => p' == p.(pending := Remaining(p.pending, now, how)) && sent == []
  }

  // ----- One node -----

  /** A view that has only forgotten failures. */
  ghost predicate Forgets(v: View, v': View) {
    && v'.Keys <= v.Keys
    && (forall id :: id in v' ==> v'[id] == v[id])
    && forall id :: id in v && id !in v' ==> v[id].status.Failed?
  }

  lemma BuildFacts(s: Store, max: nat, limit: nat, rumors: seq<Node>, s': Store)
    requires Inv(s) && Builds(s, max, limit, rumors, s')
    ensures Inv(s') && Forgets(ViewOf(s), ViewOf(s'))
    ensures ToSet(rumors) <= ViewOf(s).Values
  {
    BuildForgetsOnlyFailures(s, max, limit, rumors, s');
    BatchCarriesTheView(s, max, limit, rumors, s');
  }

  lemma EmitsFacts(p: Peer, dest: Node, p': Peer, sent: Packet)
    requires Inv(p.store) && Emits(p, dest, p', sent)
    ensures Inv(p'.store) && Forgets(ViewOf(p.store), ViewOf(p'.store))
    ensures ToSet(sent.msg.rumors) <= ViewOf(p.store).Values
  {
    var limit :| Builds(p.store, p.max, limit, sent.msg.rumors, p'.store);
    BuildFacts(p.store, p.max, limit, sent.msg.rumors, p'.store);
  }

  lemma ForgetsTwice(a: View, b: View, c: View)
    requires Forgets(a, b) && Forgets(b, c)
    ensures Forgets(a, c) && b.Values <= a.Values
  {
  }

  lemma {:induction false} RelaysFacts(path: seq<Peer>, tasks: seq<Task>, sent: seq<Packet>, i: nat)
    requires Relays(path, tasks, sent) && Inv(path[0].store) && i <= |tasks|
    ensures Inv(path[i].store) && Forgets(ViewOf(path[0].store), ViewOf(path[i].store))
    ensures path[i] == path[0].(store := path[i].store)
    ensures forall k :: 0 <= k < i ==> ToSet(sent[k].msg.rumors) <= ViewOf(path[0].store).Values
  {
    if i > 0 {
      RelaysFacts(path, tasks, sent, i - 1);
      var p, t := path[i - 1], tasks[i - 1];
      assert EmitsAck(p, t.dest, t.peer, path[i], sent[i - 1]);
      EmitsFacts(p, t.dest, path[i], sent[i - 1]);
      ForgetsTwice(ViewOf(path[0].store), ViewOf(p.store), ViewOf(path[i].store));
    }
  }

  /** The view of a node right after it has heard these records. */
  function Merged(p: Peer, heard: seq<Node>): View
    requires Inv(p.store)
  {
    ViewKeyed(p.store);
    MergeAll(ViewOf(p.store), heard)
  }

  lemma RunsTasksFacts(p: Peer, tasks: seq<Task>, p': Peer, sent: seq<Packet>)
    requires Inv(p.store) && RunsTasks(p, tasks, p', sent)
    ensures Inv(p'.store) && Forgets(ViewOf(p.store), ViewOf(p'.store)) && p' == p.(store := p'.store)
    ensures forall s :: s in sent ==> ToSet(s.msg.rumors) <= ViewOf(p.store).Values
  {
    var path :| Relays(path, tasks, sent) && path[0] == p && path[|tasks|] == p';
    RelaysFacts(path, tasks, sent, |tasks|);
  }

  /** What every act keeps: the invariants, and a view that is the merged one but for failures
      forgotten; what is sent comes from the merged view. */
  lemma PeerStepFacts(p: Peer, act: Act, p': Peer, sent: seq<Packet>)
    requires Inv(p.store) && PeerStep(p, act, p', sent)
    ensures Inv(p'.store) && p'.self == p.self
    ensures Forgets(Merged(p, Hearing(act)), ViewOf(p'.store))
    ensures forall s :: s in sent ==> ToSet(s.msg.rumors) <= Merged(p, Hearing(act)).Values
  {
    UpdateRefinesMergeAll(p.store, Hearing(act));
    match act
    case Told(rumors) =>
    case Probe(dest) => OneSentFacts(p, dest, p', sent);
    case ProbeVia(relay, peer) => OneSentFacts(p, relay, p', sent);
    case Deliver(packet) => HandlesFacts(p, Received(packet.msg), p', sent);
    case Expire(now, how) =>
  }

  lemma HeardIsMerged(p: Peer, rumors: seq<Node>)
    requires Inv(p.store)
    ensures ViewOf(Hears(p, rumors).store) == Merged(p, rumors)
  {
    UpdateRefinesMergeAll(p.store, rumors);
  }

  lemma HandlesFacts(p: Peer, m: Message, p': Peer, sent: seq<Packet>)
    requires Inv(p.store) && Handles(p, m, p', sent)
    ensures Inv(p'.store) && p'.self == p.self
    ensures Forgets(Merged(p, m.rumors + [m.self]), ViewOf(p'.store))
    ensures forall s :: s in sent ==> ToSet(s.msg.rumors) <= Merged(p, m.rumors + [m.self]).Values
  {
    var heard := Hears(p, m.rumors + [m.self]);
    HeardIsMerged(p, m.rumors + [m.self]);
    match m
    case Ping(self, _) => OneSentFacts(heard, self, p', sent);
    case PingReq(self, peer, _) => OneSentFacts(heard, peer, p'.(pending := p.pending), sent);
    case Ack(self, _) =>
      RunsTasksFacts(TakesTasks(heard, self.id), TasksOf(EntriesOf(p.pending, self.id)), p', sent);
  }

  lemma OneSentFacts(p: Peer, dest: Node, p': Peer, sent: seq<Packet>)
    requires Inv(p.store) && |sent| == 1 && Emits(p, dest, p', sent[0])
    ensures Inv(p'.store) && Forgets(ViewOf(p.store), ViewOf(p'.store)) && p'.self == p.self
    ensures forall s :: s in sent ==> ToSet(s.msg.rumors) <= ViewOf(p.store).Values
  {
    EmitsFacts(p, dest, p', sent[0]);
  }

  // ----- Many nodes -----

  datatype Cluster = Cluster(peers: seq<Peer>, network: set<Packet>)

  /** An act of node i with the packets it sent, or the loss of a packet. A delivered packet stays in the
      network, so it may be delivered again, at any later time and in any order, to any node. */
  datatype Event = Acts(i: nat, act: Act, sent: seq<Packet>) | Lose(packet: Packet)

  ghost predicate Sound(c: Cluster) {
    forall i :: 0 <= i < |c.peers| ==> Inv(c.peers[i].store)
  }

  ghost predicate Step(c: Cluster, e: Event, c': Cluster)
    requires Sound(c)
  {
    && |c'.peers| == |c.peers|
    && match e
       case Lose(packet) => c' == c.(network := c.network - {packet})
       case Acts(i, act, sent) =>
         && i < |c.peers| && (act.Deliver? ==> act.packet in c.network)
         && (forall j :: 0 <= j < |c.peers| && j != i ==> c'.peers[j] == c.peers[j])
         && PeerStep(c.peers[i], act, c'.peers[i], sent)
         && c'.network == c.network + ToSet(sent)
  }

  /** Nodes that know nobody and have asked for nothing, and an empty network. */
  ghost predicate Initial(c: Cluster) {
    && c.network == {}
    && forall i :: 0 <= i < |c.peers| ==> c.peers[i].store == EMPTY && c.peers[i].pending == map[]
  }

  ghost predicate StepAt(cs: seq<Cluster>, es: seq<Event>, k: nat)
    requires |cs| == |es| + 1 && k < |es|
  {
    Sound(cs[k]) ==> Step(cs[k], es[k], cs[k + 1])
  }

  ghost predicate Run(cs: seq<Cluster>, es: seq<Event>) {
    && |cs| == |es| + 1 && Initial(cs[0])
    && forall k :: 0 <= k < |es| ==> StepAt(cs, es, k)
  }

  /** What node j hears in an event. */
  function HeardBy(e: Event, j: nat): seq<Node> {
    if e.Acts? && e.i == j then Hearing(e.act) else []
  }

  lemma StepFacts(c: Cluster, e: Event, c': Cluster, j: nat)
    requires Sound(c) && Step(c, e, c') && j < |c.peers|
    ensures Inv(c'.peers[j].store) && c'.peers[j].self == c.peers[j].self
    ensures Forgets(Merged(c.peers[j], HeardBy(e, j)), ViewOf(c'.peers[j].store))
  {
    if e.Acts? && e.i == j {
      PeerStepFacts(c.peers[j], e.act, c'.peers[j], e.sent);
    }
  }

  /** In every run every node's store keeps its invariant, and nodes keep their identity. */
  lemma {:induction false} RunIsSound(cs: seq<Cluster>, es: seq<Event>, k: nat)
    requires Run(cs, es) && k <= |es|
    ensures Sound(cs[k]) && |cs[k].peers| == |cs[0].peers|
    ensures forall j :: 0 <= j < |cs[0].peers| ==> cs[k].peers[j].self == cs[0].peers[j].self
  {
    if k > 0 {
      RunIsSound(cs, es, k - 1);
      assert StepAt(cs, es, k - 1);
      var c, e, c' := cs[k - 1], es[k - 1], cs[k];
      forall j: nat | j < |c'.peers|
        ensures Inv(c'.peers[j].store) && c'.peers[j].self == c.peers[j].self
      {
        StepFacts(c, e, c', j);
      }
    }
  }

  lemma RunStep(cs: seq<Cluster>, es: seq<Event>, k: nat)
    requires Run(cs, es) && k < |es|
    ensures Sound(cs[k]) && Step(cs[k], es[k], cs[k + 1])
    ensures |cs[k].peers| == |cs[k + 1].peers| == |cs[0].peers|
  {
    RunIsSound(cs, es, k);
    assert StepAt(cs, es, k);
  }
}
