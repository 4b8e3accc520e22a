/** What one delivery achieves: when a sender's view fits into a batch, the receiver afterwards ranks
    every id at least as high as the sender did (src/sw/gossip-net/gossip_net.cpp, ack, ping and
    update; src/sw/gossip-net/command.cpp). */
module Synchrony {
  import opened Nodes
  import opened Views
  import opened Stores
  import opened PendingTasks
  import opened Messages
  import opened Protocol
  import opened Clusters
  import opened Membership

  // ----- What is sent -----

  /** A batch into which the view fits carries all that the sender still knows. */
  lemma EmitsView(p: Peer, dest: Node, p': Peer, sent: Packet)
    requires Inv(p.store) && Emits(p, dest, p', sent) && |ViewOf(p.store)| <= p.max
    ensures Inv(p'.store) && |ViewOf(p'.store)| <= p'.max && ViewOf(p'.store).Values <= ViewOf(p.store).Values
    ensures ViewOf(p'.store).Values <= ToSet(sent.msg.rumors)
  {
    var limit :| Builds(p.store, p.max, limit, sent.msg.rumors, p'.store);
    BuildCarriesView(p.store, p.max, limit, sent.msg.rumors, p'.store);
  }

  lemma BuildCarriesView(s: Store, max: nat, limit: nat, rumors: seq<Node>, s': Store)
    requires Inv(s) && Builds(s, max, limit, rumors, s') && |ViewOf(s)| <= max
    ensures Inv(s') && |ViewOf(s')| <= max && ViewOf(s').Values <= ViewOf(s).Values
    ensures ViewOf(s').Values <= ToSet(rumors)
  {
    BuildFacts(s, max, limit, rumors, s');
    ForgetsShrinks(ViewOf(s), ViewOf(s'));
    BatchCarriesTheView(s, max, limit, rumors, s');
  }

  lemma ForgetsShrinks(v: View, v': View)
    requires Forgets(v, v')
    ensures |v'| <= |v| && v'.Values <= v.Values
  {
    assert |v.Keys| == |v| && |v'.Keys| == |v'|;
    SubsetSize(v'.Keys, v.Keys);
  }

  /** The same of every ack of a row of relays, by what is known at its end. */
  lemma {:induction false} RelaysView(path: seq<Peer>, tasks: seq<Task>, sent: seq<Packet>, i: nat)
    requires Relays(path, tasks, sent) && Inv(path[0].store) && i <= |tasks|
    requires |ViewOf(path[0].store)| <= path[0].max
    ensures Inv(path[i].store) && |ViewOf(path[i].store)| <= path[i].max
    ensures forall k :: 0 <= k < i ==> ViewOf(path[i].store).Values <= ToSet(sent[k].msg.rumors)
  {
    hide Builds;
    hide ViewOf;
    hide Inv;
    if i > 0 {
      RelaysView(path, tasks, sent, i - 1);
      var p, t := path[i - 1], tasks[i - 1];
      assert EmitsAck(p, t.dest, t.peer, path[i], sent[i - 1]);
      EmitsView(p, t.dest, path[i], sent[i - 1]);
    }
  }

  lemma RunsTasksView(p: Peer, tasks: seq<Task>, p': Peer, sent: seq<Packet>, s: Packet)
    requires Inv(p.store) && RunsTasks(p, tasks, p', sent) && s in sent && |ViewOf(p.store)| <= p.max
    ensures ViewOf(p'.store).Values <= ToSet(s.msg.rumors)
  {
    var path :| Relays(path, tasks, sent) && path[0] == p && path[|tasks|] == p';
    RelaysView(path, tasks, sent, |tasks|);
  }

  lemma HandlesView(p: Peer, m: Message, p': Peer, sent: seq<Packet>, s: Packet)
    requires Inv(p.store) && Handles(p, m, p', sent) && s in sent
    requires |Merged(p, m.rumors + [m.self])| <= p.max
    ensures ViewOf(p'.store).Values <= ToSet(s.msg.rumors)
  {
    hide Emits;
    hide ViewOf;
    var heard := Hears(p, m.rumors + [m.self]);
    HeardIsMerged(p, m.rumors + [m.self]);
    match m
    case Ping(self, _) => EmitsView(heard, self, p', s);
    case PingReq(self, peer, _) => EmitsView(heard, peer, p'.(pending := p.pending), s);
    case Ack(self, _) =>
      RunsTasksView(TakesTasks(heard, self.id), TasksOf(EntriesOf(p.pending, self.id)), p', sent, s);
  }

  /** If what a node knows in an act fits into a batch, each packet it sends carries all that it knows
      afterwards. */
  lemma SentCarriesView(p: Peer, act: Act, p': Peer, sent: seq<Packet>, s: Packet)
    requires Inv(p.store) && PeerStep(p, act, p', sent) && s in sent
    requires |Merged(p, Hearing(act))| <= p.max
    ensures ViewOf(p'.store).Values <= ToSet(s.msg.rumors)
  {
    UpdateRefinesMergeAll(p.store, Hearing(act));
    match act
    case Probe(dest) => EmitsView(p, dest, p', s);
    case ProbeVia(relay, peer) => EmitsView(p, relay, p', s);
    case Deliver(packet) => HandlesView(p, Received(packet.msg), p', sent, s);
    case Told(rumors) =>
    case Expire(now, how) =>
  }

  // ----- What is received -----

  /** Whoever merges all of a view ranks every id at least as high. */
  lemma MergeDominates(v: View, w: View, rumors: seq<Node>, id: string)
    requires Views.Keyed(v) && Views.Keyed(w) && v.Values <= ToSet(rumors)
    ensures RankAt(v, id) <= RankAt(MergeAll(w, rumors), id)
  {
    MergeAllIsMaximum(w, rumors, id);
    if id in v {
      assert v[id] in v.Values;
      assert v[id] in ToSet(rumors);
    }
  }

  lemma DeliveryDominates(c: Cluster, e: Event, c': Cluster, v: View, id: string)
    requires Sound(c) && Clusters.Step(c, e, c') && e.Acts? && e.act.Deliver? && Views.Keyed(v)
    requires v.Values <= ToSet(e.act.packet.msg.rumors)
    ensures RankAt(v, id) <= RankAt(ViewOf(c'.peers[e.i].store), id) || Forgot(c, e, c', e.i, id)
  {
    var q := c.peers[e.i];
    StepFacts(c, e, c', e.i);
    ViewKeyed(q.store);
    var heard := Hearing(e.act);
    assert forall r :: r in e.act.packet.msg.rumors ==> r in heard by {
      assert heard == e.act.packet.msg.rumors + [Received(e.act.packet.msg).self];
    }
    MergeDominates(v, ViewOf(q.store), heard, id);
  }

  // ----- One delivery -----

  /** What the acting node knows in an event fits into its batches. */
  ghost predicate Fits(c: Cluster, e: Event) {
    && e.Acts? && e.i < |c.peers| && Inv(c.peers[e.i].store)
    && |Merged(c.peers[e.i], Hearing(e.act))| <= c.peers[e.i].max
  }

  /** What node i sends in event t and node j handles in event u, then or ever: if what i knows in the
      act fits into its batch, then right after the delivery j ranks every id at least as high as i did
      right after sending, unless j forgets a failure of that id in the same act. */
  lemma OneDeliverySynchronises(cs: seq<Cluster>, es: seq<Event>, t: nat, u: nat, id: string)
    requires Clusters.Run(cs, es) && t < |es| && u < |es|
    requires es[t].Acts? && es[u].Acts? && es[u].act.Deliver? && es[u].act.packet in es[t].sent
    requires Fits(cs[t], es[t])
    ensures es[t].i < |cs[t + 1].peers| && es[u].i < |cs[u + 1].peers|
    ensures RankAt(ViewAt(cs, t + 1, es[t].i), id) <= RankAt(ViewAt(cs, u + 1, es[u].i), id)
         || ForgetsAt(cs, es, u, es[u].i, id)
  {
    hide ViewOf;
    SentAt(cs, es, t, es[u].act.packet);
    ReceivedAt(cs, es, u, ViewAt(cs, t + 1, es[t].i), id);
  }

  lemma SentAt(cs: seq<Cluster>, es: seq<Event>, t: nat, s: Packet)
    requires Clusters.Run(cs, es) && t < |es| && es[t].Acts? && s in es[t].sent
    requires Fits(cs[t], es[t])
    ensures es[t].i < |cs[t + 1].peers| && Views.Keyed(ViewAt(cs, t + 1, es[t].i))
    ensures ViewAt(cs, t + 1, es[t].i).Values <= ToSet(s.msg.rumors)
  {
    RunStep(cs, es, t);
    RunIsSound(cs, es, t + 1);
    var p, e, p' := cs[t].peers[es[t].i], es[t], cs[t + 1].peers[es[t].i];
    ViewKeyed(p'.store);
    SentCarriesView(p, e.act, p', e.sent, s);
  }

  lemma ReceivedAt(cs: seq<Cluster>, es: seq<Event>, u: nat, v: View, id: string)
    requires Clusters.Run(cs, es) && u < |es| && es[u].Acts? && es[u].act.Deliver? && Views.Keyed(v)
    requires v.Values <= ToSet(es[u].act.packet.msg.rumors)
    ensures es[u].i < |cs[u + 1].peers|
    ensures RankAt(v, id) <= RankAt(ViewAt(cs, u + 1, es[u].i), id) || ForgetsAt(cs, es, u, es[u].i, id)
  {
    RunStep(cs, es, u);
    DeliveryDominates(cs[u], es[u], cs[u + 1], v, id);
  }

  // ----- There and back -----

  /** Node j does nothing in the events from first up to, and without, upTo. */
  ghost predicate Idle(es: seq<Event>, first: nat, upTo: nat, j: nat)
    requires upTo <= |es|
  {
    forall v :: first <= v < upTo && es[v].Acts? ==> es[v].i != j
  }

  lemma IdleStep(c: Cluster, e: Event, c': Cluster, j: nat)
    requires Sound(c) && Clusters.Step(c, e, c') && j < |c.peers| && (e.Acts? ==> e.i != j)
    ensures c'.peers[j] == c.peers[j]
  {
  }

  lemma {:induction false} IdleStays(cs: seq<Cluster>, es: seq<Event>, first: nat, upTo: nat, j: nat)
    requires Clusters.Run(cs, es) && first <= upTo <= |es| && Idle(es, first, upTo, j) && j < |cs[0].peers|
    ensures |cs[first].peers| == |cs[upTo].peers| == |cs[0].peers| && cs[upTo].peers[j] == cs[first].peers[j]
    decreases upTo
  {
    RunIsSound(cs, es, first);
    if first < upTo {
      RunStep(cs, es, upTo - 1);
      IdleStep(cs[upTo - 1], es[upTo - 1], cs[upTo], j);
      IdleStays(cs, es, first, upTo - 1, j);
    }
  }

  /** The rank of the sender's own record in a message, for this id; -1 for any other. */
  function OwnRank(m: Message, id: string): int {
    if Received(m).self.id == id then Rank(Received(m).self) else -1
  }

  function Max(a: int, b: int): int {
    if a < b then b else a
  }

  /** Merging all of a view that ranks no lower gives the ranks of that view, own record aside. */
  lemma MergeAnswer(v: View, w: View, rumors: seq<Node>, self: Node, id: string)
    requires Views.Keyed(v) && Views.Keyed(w) && ToSet(rumors) == w.Values && RankAt(v, id) <= RankAt(w, id)
    ensures RankAt(MergeAll(v, rumors + [self]), id)
         == Max(RankAt(w, id), if self.id == id then Rank(self) else -1)
  {
    var heard := rumors + [self];
    MergeAllIsMaximum(v, heard, id);
    assert forall r :: r in heard <==> r in rumors || r == self;
    assert forall r :: r in rumors <==> r in w.Values;
    if id in w {
      assert w[id] in w.Values;
    }
  }

  lemma SentFrom(p: Peer, act: Act, p': Peer, sent: seq<Packet>, s: Packet)
    requires Inv(p.store) && PeerStep(p, act, p', sent) && s in sent
    ensures ToSet(s.msg.rumors) <= Merged(p, Hearing(act)).Values
  {
    PeerStepFacts(p, act, p', sent);
  }

  /** A node that forgets nothing and whose knowledge fits sends exactly what it then knows. */
  lemma SentExactly(c: Cluster, e: Event, c': Cluster, s: Packet)
    requires Sound(c) && Clusters.Step(c, e, c') && Fits(c, e) && Remembers(c, e, c', e.i) && s in e.sent
    ensures ToSet(s.msg.rumors) == ViewOf(c'.peers[e.i].store).Values
  {
    hide ViewOf;
    NothingForgottenStep(c, e, c', e.i);
    SentFrom(c.peers[e.i], e.act, c'.peers[e.i], e.sent, s);
    SentCarriesView(c.peers[e.i], e.act, c'.peers[e.i], e.sent, s);
  }

  /** The rank that node j gives to id. */
  function RankOf(c: Cluster, j: nat, id: string): int {
    if j < |c.peers| then RankAt(ViewOf(c.peers[j].store), id) else -1
  }

  /** The message: whoever handles it ranks every id at least as high as a view that it carries. */
  lemma MessageHandled(c: Cluster, e: Event, c': Cluster, v: View, id: string)
    requires Sound(c) && Clusters.Step(c, e, c') && e.Acts? && e.act.Deliver? && Remembers(c, e, c', e.i)
    requires Views.Keyed(v) && v.Values <= ToSet(e.act.packet.msg.rumors)
    ensures RankAt(v, id) <= RankOf(c', e.i, id)
  {
    DeliveryDominates(c, e, c', v, id);
    assert !Forgot(c, e, c', e.i, id);
  }

  /** The answer: handling a message with all of a view that ranks no lower gives the ranks of that
      view, the record of the sender aside. */
  lemma AnswerHandled(c: Cluster, e: Event, c': Cluster, w: View, id: string)
    requires Sound(c) && Clusters.Step(c, e, c') && e.Acts? && e.act.Deliver? && Remembers(c, e, c', e.i)
    requires Views.Keyed(w) && ToSet(e.act.packet.msg.rumors) == w.Values && RankOf(c, e.i, id) <= RankAt(w, id)
    ensures RankOf(c', e.i, id) == Max(RankAt(w, id), OwnRank(e.act.packet.msg, id))
  {
    var p, m := c.peers[e.i], e.act.packet.msg;
    NothingForgottenStep(c, e, c', e.i);
    ViewKeyed(p.store);
    assert Hearing(e.act) == m.rumors + [Received(m).self];
    MergeAnswer(ViewOf(p.store), w, m.rumors, Received(m).self, id);
  }

  /** One message and its answer: node i sends in event t, node j handles the message in event u and
      answers, node i handles the answer in event w, and neither does anything else in between. What
      each sender knows fits into its batches, and neither forgets what it hears. */
  ghost predicate Exchange(cs: seq<Cluster>, es: seq<Event>, t: nat, u: nat, w: nat) {
    && Clusters.Run(cs, es) && t < u < w < |es| && Fits(cs[t], es[t]) && Fits(cs[u], es[u])
    && es[u].act.Deliver? && es[u].act.packet in es[t].sent
    && es[w].Acts? && es[w].act.Deliver? && es[w].act.packet in es[u].sent && es[w].i == es[t].i
    && Idle(es, t + 1, w, es[t].i) && Idle(es, u + 1, w, es[u].i)
    && RemembersAt(cs, es, u, es[u].i) && RemembersAt(cs, es, w, es[t].i)
  }

  lemma MessageAt(cs: seq<Cluster>, es: seq<Event>, t: nat, u: nat, w: nat, id: string)
    requires Exchange(cs, es, t, u, w)
    ensures RankOf(cs[t + 1], es[t].i, id) <= RankOf(cs[u + 1], es[u].i, id)
  {
    hide Merged;
    hide RemembersAt;
    hide Idle;
    hide Clusters.Step;
    SentAt(cs, es, t, es[u].act.packet);
    HandledAt(cs, es, u, ViewAt(cs, t + 1, es[t].i), id);
  }

  lemma HandledAt(cs: seq<Cluster>, es: seq<Event>, u: nat, v: View, id: string)
    requires Clusters.Run(cs, es) && u < |es| && es[u].Acts? && es[u].act.Deliver?
    requires RemembersAt(cs, es, u, es[u].i)
    requires Views.Keyed(v) && v.Values <= ToSet(es[u].act.packet.msg.rumors)
    ensures RankAt(v, id) <= RankOf(cs[u + 1], es[u].i, id)
  {
    RunStep(cs, es, u);
    MessageHandled(cs[u], es[u], cs[u + 1], v, id);
  }

  lemma AnswerSentAt(cs: seq<Cluster>, es: seq<Event>, u: nat, s: Packet)
    requires Clusters.Run(cs, es) && u < |es| && Fits(cs[u], es[u]) && RemembersAt(cs, es, u, es[u].i)
    requires s in es[u].sent
    ensures es[u].i < |cs[u + 1].peers| && Views.Keyed(ViewAt(cs, u + 1, es[u].i))
    ensures ToSet(s.msg.rumors) == ViewAt(cs, u + 1, es[u].i).Values
  {
    RunStep(cs, es, u);
    RunIsSound(cs, es, u + 1);
    SentExactly(cs[u], es[u], cs[u + 1], s);
    ViewKeyed(cs[u + 1].peers[es[u].i].store);
  }

  lemma {:induction false} IdleRank(cs: seq<Cluster>, es: seq<Event>, first: nat, upTo: nat, j: nat, id: string)
    requires Clusters.Run(cs, es) && first <= upTo <= |es| && Idle(es, first, upTo, j) && j < |cs[first].peers|
    ensures RankOf(cs[upTo], j, id) == RankOf(cs[first], j, id)
  {
    RunIsSound(cs, es, first);
    IdleStays(cs, es, first, upTo, j);
  }

  lemma PeersAt(cs: seq<Cluster>, es: seq<Event>, t: nat)
    requires Clusters.Run(cs, es) && t < |es| && es[t].Acts?
    ensures es[t].i < |cs[t + 1].peers|
  {
    RunStep(cs, es, t);
  }

  lemma IdleRanks(cs: seq<Cluster>, es: seq<Event>, t: nat, u: nat, w: nat, id: string)
    requires Clusters.Run(cs, es) && t < u < w < |es| && es[t].Acts? && es[u].Acts? && es[w].Acts?
    requires Idle(es, t + 1, w, es[t].i) && Idle(es, u + 1, w, es[u].i) && es[w].i == es[t].i
    ensures RankOf(cs[w], es[t].i, id) == RankOf(cs[t + 1], es[t].i, id)
    ensures RankOf(cs[w + 1], es[u].i, id) == RankOf(cs[u + 1], es[u].i, id)
  {
    PeersAt(cs, es, t);
    PeersAt(cs, es, u);
    assert es[u].i != es[t].i;
    hide RankOf;
    IdleRank(cs, es, t + 1, w, es[t].i, id);
    IdleRank(cs, es, u + 1, w + 1, es[u].i, id);
  }

  lemma AnswerAt(cs: seq<Cluster>, es: seq<Event>, w: nat, v: View, id: string)
    requires Clusters.Run(cs, es) && w < |es| && es[w].Acts? && es[w].act.Deliver?
    requires RemembersAt(cs, es, w, es[w].i) && Views.Keyed(v) && ToSet(es[w].act.packet.msg.rumors) == v.Values
    requires RankOf(cs[w], es[w].i, id) <= RankAt(v, id)
    ensures RankOf(cs[w + 1], es[w].i, id) == Max(RankAt(v, id), OwnRank(es[w].act.packet.msg, id))
  {
    RunStep(cs, es, w);
    AnswerHandled(cs[w], es[w], cs[w + 1], v, id);
  }

  /** After an exchange both nodes rank every id alike, but for the record with which the answer names
      its sender, which the other node takes in as well: so alike if and only if the answering node
      itself ranks that id at least as high. */
  lemma ExchangeSynchronises(cs: seq<Cluster>, es: seq<Event>, t: nat, u: nat, w: nat, id: string)
    requires Exchange(cs, es, t, u, w)
    ensures
      var own := OwnRank(es[w].act.packet.msg, id);
      && RankOf(cs[w + 1], es[t].i, id) == Max(RankOf(cs[w + 1], es[u].i, id), own)
      && (RankOf(cs[w + 1], es[t].i, id) == RankOf(cs[w + 1], es[u].i, id) <==> own <= RankOf(cs[w + 1], es[u].i, id))
  {
    hide Merged;
    assert es[t].Acts? && es[u].Acts?;
    hide RemembersAt;
    hide Idle;
    hide Fits;
    MessageAt(cs, es, t, u, w, id);
    IdleRanks(cs, es, t, u, w, id);
    AnswerSentAt(cs, es, u, es[w].act.packet);
    AnswerAt(cs, es, w, ViewAt(cs, u + 1, es[u].i), id);
  }
}
