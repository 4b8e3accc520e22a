/** What the nodes know, over whole runs: where records come from, how ranks move, and when views agree
    (src/sw/gossip-net/gossip_net.cpp, src/sw/gossip-net/command.cpp, src/sw/gossip-net/utils.cpp). */
module Membership {
  import opened Nodes
  import opened Views
  import opened Stores
  import opened PendingTasks
  import opened Messages
  import opened Protocol
  import opened Clusters
  import opened Causality

  // ----- Provenance -----

  /** The records that a message carries to its receiver. */
  function RecordsOf(m: Message): set<Node> {
    {Received(m).self} + ToSet(m.rumors) + if m.PingReq? then {Bare(m.peer)} else {}
  }

  /** The records that a node brings into the system in an act. */
  function IntroducedBy(act: Act): set<Node> {
    match act
    case Told(rumors) => ToSet(rumors)
    case ProbeVia(_, peer) => {Bare(peer)}
    case _ => {}
  }

  /** Every record that this node holds, and its own, is in s. */
  ghost predicate HoldsOnly(p: Peer, s: set<Node>) {
    && Bare(p.self) in s
    && ViewOf(p.store).Values <= s
    && forall id, e :: e in EntriesOf(p.pending, id) ==> Bare(e.task.peer) in s
  }

  lemma ActKeepsRecords(p: Peer, act: Act, p': Peer, sent: seq<Packet>, s: set<Node>)
    requires Inv(p.store) && PendingTasks.Keyed(p.pending) && PeerStep(p, act, p', sent) && HoldsOnly(p, s)
    requires act.Deliver? ==> RecordsOf(act.packet.msg) <= s
    ensures HoldsOnly(p', s + IntroducedBy(act))
  {
    var s' := s + IntroducedBy(act);
    PeerStepFacts(p, act, p', sent);
    MergedRecords(p, act, s);
    forall id, e | e in EntriesOf(p'.pending, id)
      ensures Bare(e.task.peer) in s'
    {
      PendingFrom(p, act, p', sent, id, e);
      if e !in EntriesOf(p.pending, id) {
        assert Bare(act.packet.msg.peer) in RecordsOf(act.packet.msg);
      }
    }
  }

  /** What a node knows right after hearing the records of an act. */
  lemma MergedRecords(p: Peer, act: Act, s: set<Node>)
    requires Inv(p.store) && ViewOf(p.store).Values <= s
    requires act.Deliver? ==> RecordsOf(act.packet.msg) <= s
    ensures Merged(p, Hearing(act)).Values <= s + IntroducedBy(act)
  {
    ViewKeyed(p.store);
    MergeAllRecords(ViewOf(p.store), Hearing(act));
    forall r | r in Hearing(act)
      ensures r in s + IntroducedBy(act)
    {
      if act.Deliver? {
        assert r in ToSet(act.packet.msg.rumors) || r == Received(act.packet.msg).self;
      }
    }
  }

  lemma SentKeepsRecords(p: Peer, act: Act, p': Peer, sent: seq<Packet>, s: set<Node>, one: Packet)
    requires Inv(p.store) && PeerStep(p, act, p', sent) && HoldsOnly(p, s) && one in sent
    requires act.Deliver? ==> RecordsOf(act.packet.msg) <= s
    ensures RecordsOf(one.msg) <= s + IntroducedBy(act)
  {
    PeerStepFacts(p, act, p', sent);
    MergedRecords(p, act, s);
    SentBy(p, act, p', sent, one);
    assert Received(one.msg).self == Bare(one.msg.self);
    if one.msg.Ack? && one.msg.self != p.self {
      var m := Received(act.packet.msg);
      var e :| e in EntriesOf(p.pending, m.self.id) && RelaysFor(e.task, one);
    }
  }

  /** The records introduced in the first k events: the nodes' own, those the application told them,
      and the peers they had probed through a relay. */
  function Introduced(c: Cluster, es: seq<Event>, k: nat): set<Node>
    requires k <= |es|
  {
    if k == 0 then set p | p in c.peers :: Bare(p.self)
    else Introduced(c, es, k - 1) + if es[k - 1].Acts? then IntroducedBy(es[k - 1].act) else {}
  }

  /** Every record that a node holds or a packet carries is in s. */
  ghost predicate ClusterHoldsOnly(c: Cluster, s: set<Node>) {
    && (forall j :: 0 <= j < |c.peers| ==> HoldsOnly(c.peers[j], s))
    && forall packet :: packet in c.network ==> RecordsOf(packet.msg) <= s
  }

  /** Every record held by a node or in flight was introduced by some node before. */
  lemma {:induction false} EveryRecordWasIntroduced(cs: seq<Cluster>, es: seq<Event>, k: nat)
    requires Clusters.Run(cs, es) && k <= |es|
    ensures ClusterHoldsOnly(cs[k], Introduced(cs[0], es, k))
  {
    if k == 0 {
      assert forall j :: 0 <= j < |cs[0].peers| ==> cs[0].peers[j] in cs[0].peers;
    } else {
      EveryRecordWasIntroduced(cs, es, k - 1);
      IntroducedAt(cs, es, k - 1, Introduced(cs[0], es, k - 1));
    }
  }

  lemma IntroducedAt(cs: seq<Cluster>, es: seq<Event>, k: nat, s: set<Node>)
    requires Clusters.Run(cs, es) && k < |es| && ClusterHoldsOnly(cs[k], s)
    ensures ClusterHoldsOnly(cs[k + 1], s + if es[k].Acts? then IntroducedBy(es[k].act) else {})
  {
    PendingKeyed(cs, es, k);
    RunStep(cs, es, k);
    IntroducedStep(cs[k], es[k], cs[k + 1], s);
  }

  lemma IntroducedStep(c: Cluster, e: Event, c': Cluster, s: set<Node>)
    requires Sound(c) && Clusters.Step(c, e, c') && AllKeyed(c) && ClusterHoldsOnly(c, s)
    ensures ClusterHoldsOnly(c', s + if e.Acts? then IntroducedBy(e.act) else {})
  {
    if e.Acts? {
      var p, p' := c.peers[e.i], c'.peers[e.i];
      ActKeepsRecords(p, e.act, p', e.sent, s);
      forall packet | packet in c'.network && packet !in c.network
        ensures RecordsOf(packet.msg) <= s + IntroducedBy(e.act)
      {
        SentKeepsRecords(p, e.act, p', e.sent, s, packet);
      }
    }
  }

  // ----- Ranks -----

  function ViewAt(cs: seq<Cluster>, k: nat, j: nat): View
    requires k < |cs| && j < |cs[k].peers|
  {
    ViewOf(cs[k].peers[j].store)
  }

  /** Node j forgets the record of id, which is a FAILED one. */
  ghost predicate Forgot(c: Cluster, e: Event, c': Cluster, j: nat, id: string) {
    && Sound(c) && j < |c.peers| && j < |c'.peers|
    && var known := Merged(c.peers[j], HeardBy(e, j));
       id in known && known[id].status.Failed? && id !in ViewOf(c'.peers[j].store)
  }

  ghost predicate ForgetsAt(cs: seq<Cluster>, es: seq<Event>, t: nat, j: nat, id: string)
    requires |cs| == |es| + 1 && t < |es|
  {
    Forgot(cs[t], es[t], cs[t + 1], j, id)
  }

  lemma RankStep(c: Cluster, e: Event, c': Cluster, j: nat, id: string)
    requires Sound(c) && Clusters.Step(c, e, c') && j < |c.peers|
    ensures RankAt(ViewOf(c.peers[j].store), id) <= RankAt(ViewOf(c'.peers[j].store), id) || Forgot(c, e, c', j, id)
  {
    StepFacts(c, e, c', j);
    ViewKeyed(c.peers[j].store);
    MergeAllIsMaximum(ViewOf(c.peers[j].store), HeardBy(e, j), id);
  }

  lemma RankStepAt(cs: seq<Cluster>, es: seq<Event>, t: nat, j: nat, id: string)
    requires Clusters.Run(cs, es) && t < |es| && j < |cs[0].peers|
    ensures |cs[t].peers| == |cs[t + 1].peers| == |cs[0].peers|
    ensures RankAt(ViewAt(cs, t, j), id) <= RankAt(ViewAt(cs, t + 1, j), id) || ForgetsAt(cs, es, t, j, id)
  {
    RunStep(cs, es, t);
    RankStep(cs[t], es[t], cs[t + 1], j, id);
  }

  /** A node's rank for an id falls between two moments of a run only if in between it has forgotten a
      FAILED record of that id. */
  lemma {:induction false} RankFallsOnlyByForgetting(cs: seq<Cluster>, es: seq<Event>, k: nat, l: nat,
                                                     j: nat, id: string)
    requires Clusters.Run(cs, es) && k <= l <= |es| && j < |cs[0].peers|
    ensures |cs[k].peers| == |cs[l].peers| == |cs[0].peers|
    ensures RankAt(ViewAt(cs, l, j), id) < RankAt(ViewAt(cs, k, j), id) ==>
      exists t :: k <= t < l && ForgetsAt(cs, es, t, j, id)
  {
    RunIsSound(cs, es, k);
    if k < l {
      RankFallsOnlyByForgetting(cs, es, k, l - 1, j, id);
      RankStepAt(cs, es, l - 1, j, id);
    }
  }

  // ----- Agreement -----

  /** Everything node j has heard in the first k events, in order. */
  function Heard(es: seq<Event>, k: nat, j: nat): seq<Node>
    requires k <= |es|
  {
    if k == 0 then [] else Heard(es, k - 1, j) + HeardBy(es[k - 1], j)
  }

  ghost predicate Remembers(c: Cluster, e: Event, c': Cluster, j: nat) {
    forall id :: !Forgot(c, e, c', j, id)
  }

  ghost predicate RemembersAt(cs: seq<Cluster>, es: seq<Event>, t: nat, j: nat)
    requires |cs| == |es| + 1 && t < |es|
  {
    Remembers(cs[t], es[t], cs[t + 1], j)
  }

  /** Node j has forgotten no record in the first k events. */
  ghost predicate ForgotNothing(cs: seq<Cluster>, es: seq<Event>, k: nat, j: nat)
    requires |cs| == |es| + 1 && k <= |es|
  {
    forall t :: 0 <= t < k ==> RemembersAt(cs, es, t, j)
  }

  lemma NothingForgottenStep(c: Cluster, e: Event, c': Cluster, j: nat)
    requires Sound(c) && Clusters.Step(c, e, c') && j < |c.peers|
    requires Remembers(c, e, c', j)
    ensures ViewOf(c'.peers[j].store) == Merged(c.peers[j], HeardBy(e, j))
  {
    hide ViewOf;
    StepFacts(c, e, c', j);
    var known, v := Merged(c.peers[j], HeardBy(e, j)), ViewOf(c'.peers[j].store);
    forall id | id in known
      ensures id in v
    {
      assert !Forgot(c, e, c', j, id);
    }
  }

  /** Node j knows exactly what merging these records gives. */
  ghost predicate Knows(c: Cluster, j: nat, heard: seq<Node>) {
    j < |c.peers| && ViewOf(c.peers[j].store) == MergeAll(map[], heard)
  }

  lemma FirstView(c: Cluster, j: nat)
    requires Initial(c) && j < |c.peers|
    ensures Knows(c, j, [])
  {
  }

  lemma KnowledgeGrows(cs: seq<Cluster>, es: seq<Event>, k: nat, j: nat, heard: seq<Node>)
    requires Clusters.Run(cs, es) && k < |es| && RemembersAt(cs, es, k, j) && Knows(cs[k], j, heard)
    ensures Knows(cs[k + 1], j, heard + HeardBy(es[k], j))
  {
    RunStep(cs, es, k);
    NothingForgottenStep(cs[k], es[k], cs[k + 1], j);
    MergeAllConcat(map[], heard, HeardBy(es[k], j));
  }

  /** A node that has forgotten nothing knows exactly what merging all it has heard gives. */
  lemma {:induction false} ViewIsAllHeard(cs: seq<Cluster>, es: seq<Event>, k: nat, j: nat)
    requires Clusters.Run(cs, es) && k <= |es| && j < |cs[0].peers| && ForgotNothing(cs, es, k, j)
    ensures Knows(cs[k], j, Heard(es, k, j))
  {
    hide RemembersAt;
    if k == 0 {
      FirstView(cs[0], j);
    } else {
      ViewIsAllHeard(cs, es, k - 1, j);
      KnowledgeGrows(cs, es, k - 1, j, Heard(es, k - 1, j));
    }
  }

  /** Nodes that have heard the same records, in whatever order and however often, at whatever moments
      and even in different runs, and have forgotten none, hold views of equal rank. */
  lemma SameRumorsSameRanks(cs: seq<Cluster>, es: seq<Event>, k: nat, i: nat,
                            cs': seq<Cluster>, es': seq<Event>, l: nat, j: nat)
    requires Clusters.Run(cs, es) && k <= |es| && i < |cs[0].peers| && ForgotNothing(cs, es, k, i)
    requires Clusters.Run(cs', es') && l <= |es'| && j < |cs'[0].peers| && ForgotNothing(cs', es', l, j)
    requires ToSet(Heard(es, k, i)) == ToSet(Heard(es', l, j))
    ensures |cs[k].peers| == |cs[0].peers| && |cs'[l].peers| == |cs'[0].peers|
    ensures SameRanks(ViewAt(cs, k, i), ViewAt(cs', l, j))
    ensures TopsAreUnique(map[], ToSet(Heard(es, k, i))) ==> ViewAt(cs, k, i) == ViewAt(cs', l, j)
  {
    RunIsSound(cs, es, k);
    RunIsSound(cs', es', l);
    ViewIsAllHeard(cs, es, k, i);
    ViewIsAllHeard(cs', es', l, j);
    var a, b := Heard(es, k, i), Heard(es', l, j);
    DeliveryOrderIsIrrelevant(map[], map[], a, b);
    if TopsAreUnique(map[], ToSet(a)) {
      DeliveryOrderFixesRecords(map[], a, b);
    }
  }
}
