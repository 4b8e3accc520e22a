/** A node in the cluster is a run of the store: in every run of the cluster each node's store is what a
    run of the store alone gives, on exactly the records the node has heard and with exactly the batches
    it has sent. So what holds over runs of one store holds of every node
    (src/sw/gossip-net/gossip_net.cpp, src/sw/gossip-net/command.cpp). */
module Histories {
  import opened Nodes
  import opened Stores
  import opened PendingTasks
  import opened Messages
  import opened Protocol
  import opened Clusters
  import opened Membership
  import opened Accounting

  /** A run of the store up to now. */
  datatype History = History(stores: seq<Store>, calls: seq<Stores.Call>)

  ghost predicate EndsIn(h: History, s: Store) {
    Stores.Run(h.stores, h.calls) && h.stores[|h.calls|] == s
  }

  ghost predicate Extends(h: History, h': History) {
    h.stores <= h'.stores && h.calls <= h'.calls
  }

  function With(h: History, c: Stores.Call, s: Store): History {
    History(h.stores + [s], h.calls + [c])
  }

  /** All that the calls hear, in order. */
  function HeardIn(calls: seq<Stores.Call>): seq<Node> {
    if calls == [] then []
    else
      var c := calls[|calls| - 1];
      HeardIn(calls[..|calls| - 1]) + if c.Update? then c.rumors else []
  }

  /** The batches that the calls build, in order. */
  function BatchesIn(calls: seq<Stores.Call>): seq<seq<Node>> {
    if calls == [] then []
    else
      var c := calls[|calls| - 1];
      BatchesIn(calls[..|calls| - 1]) + if c.Build? then [c.rumors] else []
  }

  function BatchesOf(sent: seq<Packet>): seq<seq<Node>> {
    if sent == [] then [] else BatchesOf(sent[..|sent| - 1]) + [sent[|sent| - 1].msg.rumors]
  }

  /** The batches that node j has sent in the first k events, in order. */
  function BatchesBy(es: seq<Event>, k: nat, j: nat): seq<seq<Node>>
    requires k <= |es|
  {
    if k == 0 then []
    else BatchesBy(es, k - 1, j) + if es[k - 1].Acts? && es[k - 1].i == j then BatchesOf(es[k - 1].sent) else []
  }

  // ----- One act -----

  lemma OneMoreCall(h: History, s: Store, c: Stores.Call, s': Store)
    requires EndsIn(h, s) && Inv(s) && Stores.Step(s, c, s')
    ensures EndsIn(With(h, c, s'), s') && Extends(h, With(h, c, s'))
    ensures HeardIn(With(h, c, s').calls) == HeardIn(h.calls) + if c.Update? then c.rumors else []
    ensures BatchesIn(With(h, c, s').calls) == BatchesIn(h.calls) + if c.Build? then [c.rumors] else []
  {
    var h' := With(h, c, s');
    assert h'.calls[..|h.calls|] == h.calls;
    forall i | 0 <= i < |h'.calls| && Inv(h'.stores[i])
      ensures Stores.Step(h'.stores[i], h'.calls[i], h'.stores[i + 1])
    {
      if i < |h.calls| {
        assert h'.stores[i] == h.stores[i] && h'.stores[i + 1] == h.stores[i + 1];
      }
    }
  }

  /** After hearing, these batches have been built. */
  ghost predicate Sends(h: History, h': History, batches: seq<seq<Node>>) {
    Extends(h, h') && HeardIn(h'.calls) == HeardIn(h.calls) && BatchesIn(h'.calls) == BatchesIn(h.calls) + batches
  }

  lemma EmitsRun(h: History, p: Peer, dest: Node, p': Peer, sent: Packet) returns (h': History)
    requires EndsIn(h, p.store) && Inv(p.store) && Emits(p, dest, p', sent)
    ensures EndsIn(h', p'.store) && Inv(p'.store) && Sends(h, h', [sent.msg.rumors])
  {
    var limit :| Builds(p.store, p.max, limit, sent.msg.rumors, p'.store);
    h' := With(h, Build(p.max, limit, sent.msg.rumors), p'.store);
    OneMoreCall(h, p.store, Build(p.max, limit, sent.msg.rumors), p'.store);
    EmitsFacts(p, dest, p', sent);
  }

  lemma OneSentRun(h: History, p: Peer, dest: Node, p': Peer, sent: seq<Packet>) returns (h': History)
    requires EndsIn(h, p.store) && Inv(p.store) && |sent| == 1 && Emits(p, dest, p', sent[0])
    ensures EndsIn(h', p'.store) && Sends(h, h', BatchesOf(sent))
  {
    h' := EmitsRun(h, p, dest, p', sent[0]);
    assert sent[..0] == [];
    assert BatchesOf(sent) == [] + [sent[0].msg.rumors];
  }

  lemma SendsAgain(h: History, h1: History, h2: History, a: seq<seq<Node>>, b: seq<seq<Node>>)
    requires Sends(h, h1, a) && Sends(h1, h2, b)
    ensures Sends(h, h2, a + b)
  {
    assert BatchesIn(h.calls) + a + b == BatchesIn(h.calls) + (a + b);
  }

  lemma {:induction false} RelaysRun(h: History, path: seq<Peer>, tasks: seq<Task>, sent: seq<Packet>, i: nat)
    returns (h': History)
    requires Relays(path, tasks, sent) && Inv(path[0].store) && EndsIn(h, path[0].store) && i <= |tasks|
    ensures EndsIn(h', path[i].store) && Inv(path[i].store) && Sends(h, h', BatchesOf(sent[..i]))
  {
    if i == 0 {
      h' := h;
    } else {
      var mid := RelaysRun(h, path, tasks, sent, i - 1);
      var p, t := path[i - 1], tasks[i - 1];
      assert EmitsAck(p, t.dest, t.peer, path[i], sent[i - 1]);
      h' := EmitsRun(mid, p, t.dest, path[i], sent[i - 1]);
      assert sent[..i][..i - 1] == sent[..i - 1];
      SendsAgain(h, mid, h', BatchesOf(sent[..i - 1]), [sent[i - 1].msg.rumors]);
    }
  }

  lemma RunsTasksRun(h: History, p: Peer, tasks: seq<Task>, p': Peer, sent: seq<Packet>) returns (h': History)
    requires EndsIn(h, p.store) && Inv(p.store) && RunsTasks(p, tasks, p', sent)
    ensures EndsIn(h', p'.store) && Sends(h, h', BatchesOf(sent))
  {
    var path :| Relays(path, tasks, sent) && path[0] == p && path[|tasks|] == p';
    h' := RelaysRun(h, path, tasks, sent, |tasks|);
    assert sent[..|tasks|] == sent;
  }

  /** The call with which a node takes in what it hears in an act. */
  function HearingCall(act: Act): Stores.Call {
    Stores.Call.Update(Hearing(act))
  }

  function AfterHearing(h: History, p: Peer, act: Act): History
    requires Inv(p.store)
  {
    With(h, HearingCall(act), Hears(p, Hearing(act)).store)
  }

  lemma HearingRun(h: History, p: Peer, act: Act)
    requires EndsIn(h, p.store) && Inv(p.store)
    ensures EndsIn(AfterHearing(h, p, act), Hears(p, Hearing(act)).store) && Extends(h, AfterHearing(h, p, act))
    ensures HeardIn(AfterHearing(h, p, act).calls) == HeardIn(h.calls) + Hearing(act)
    ensures BatchesIn(AfterHearing(h, p, act).calls) == BatchesIn(h.calls)
  {
    OneMoreCall(h, p.store, HearingCall(act), Hears(p, Hearing(act)).store);
    assert BatchesIn(h.calls) + [] == BatchesIn(h.calls);
  }

  /** An act is an update with what is heard, then one build for each packet sent. */
  lemma ActRun(h: History, p: Peer, act: Act, p': Peer, sent: seq<Packet>) returns (h': History)
    requires EndsIn(h, p.store) && Inv(p.store) && PeerStep(p, act, p', sent)
    ensures EndsIn(h', p'.store)
    ensures Sends(AfterHearing(h, p, act), h', BatchesOf(sent)) && Extends(h, AfterHearing(h, p, act))
    ensures HeardIn(AfterHearing(h, p, act).calls) == HeardIn(h.calls) + Hearing(act)
    ensures BatchesIn(AfterHearing(h, p, act).calls) == BatchesIn(h.calls)
  {
    HearingRun(h, p, act);
    assert act.Told? || act.Deliver? || Hears(p, Hearing(act)) == p;
    hide AfterHearing;
    hide HeardIn;
    hide BatchesIn;
    hide Sends;
    h' := AnswerRun(AfterHearing(h, p, act), Hears(p, Hearing(act)), p, act, p', sent);
  }

  lemma AnswerRun(mid: History, heard: Peer, p: Peer, act: Act, p': Peer, sent: seq<Packet>) returns (h': History)
    requires Inv(p.store) && heard == Hears(p, Hearing(act)) && PeerStep(p, act, p', sent)
    requires EndsIn(mid, heard.store)
    ensures EndsIn(h', p'.store) && Sends(mid, h', BatchesOf(sent))
  {
    match act
    case Told(rumors) => h' := mid;
    case Expire(now, how) => h' := mid;
    case Probe(dest) => h' := OneSentRun(mid, p, dest, p', sent);
    case ProbeVia(relay, peer) => h' := OneSentRun(mid, p, relay, p', sent);
    case Deliver(packet) => h' := HandlesRun(mid, heard, p, Received(packet.msg), p', sent);
  }

  lemma HandlesRun(mid: History, heard: Peer, p: Peer, m: Message, p': Peer, sent: seq<Packet>)
    returns (h': History)
    requires Inv(p.store) && heard == Hears(p, m.rumors + [m.self]) && Handles(p, m, p', sent)
    requires EndsIn(mid, heard.store)
    ensures EndsIn(h', p'.store) && Sends(mid, h', BatchesOf(sent))
  {
    match m
    case Ping(self, _) => h' := OneSentRun(mid, heard, self, p', sent);
    case PingReq(self, peer, _) => h' := OneSentRun(mid, heard, peer, p'.(pending := p.pending), sent);
    case Ack(self, _) =>
      h' := RunsTasksRun(mid, TakesTasks(heard, self.id), TasksOf(EntriesOf(p.pending, self.id)), p', sent);
  }

  // ----- Whole runs -----

  /** The history is that of node j after k events. */
  ghost predicate HistoryOf(h: History, cs: seq<Cluster>, es: seq<Event>, k: nat, j: nat) {
    && |cs| == |es| + 1 && k <= |es| && j < |cs[k].peers|
    && EndsIn(h, cs[k].peers[j].store)
    && HeardIn(h.calls) == Heard(es, k, j) && BatchesIn(h.calls) == BatchesBy(es, k, j)
  }

  lemma ActHistory(h: History, p: Peer, act: Act, p': Peer, sent: seq<Packet>) returns (h': History)
    requires EndsIn(h, p.store) && Inv(p.store) && PeerStep(p, act, p', sent)
    ensures EndsIn(h', p'.store) && Extends(h, h') && Extends(AfterHearing(h, p, act), h')
    ensures HeardIn(h'.calls) == HeardIn(h.calls) + Hearing(act)
    ensures BatchesIn(h'.calls) == BatchesIn(h.calls) + BatchesOf(sent)
  {
    hide PeerStep;
    hide EndsIn;
    hide AfterHearing;
    hide HeardIn;
    hide BatchesIn;
    h' := ActRun(h, p, act, p', sent);
  }

  lemma NextHistory(c: Cluster, e: Event, c': Cluster, j: nat, h: History) returns (h': History)
    requires Sound(c) && Clusters.Step(c, e, c') && j < |c.peers| && EndsIn(h, c.peers[j].store)
    ensures EndsIn(h', c'.peers[j].store) && Extends(h, h')
    ensures HeardIn(h'.calls) == HeardIn(h.calls) + HeardBy(e, j)
    ensures BatchesIn(h'.calls) == BatchesIn(h.calls) + if e.Acts? && e.i == j then BatchesOf(e.sent) else []
    ensures e.Acts? && e.i == j ==>
      Extends(AfterHearing(h, c.peers[j], e.act), h')
  {
    hide EndsIn;
    hide HeardIn;
    hide BatchesIn;
    hide PeerStep;
    h' := h;
    if e.Acts? && e.i == j {
      h' := ActHistory(h, c.peers[j], e.act, c'.peers[j], e.sent);
    }
  }

  /** In every run of the cluster the store of each node is the end of a run of the store, which hears
      exactly what the node has heard and builds exactly the batches that it has sent. */
  lemma {:induction false} NodeIsAStoreRun(cs: seq<Cluster>, es: seq<Event>, k: nat, j: nat) returns (h: History)
    requires Clusters.Run(cs, es) && k <= |es| && j < |cs[0].peers|
    ensures HistoryOf(h, cs, es, k, j)
  {
    if k == 0 {
      h := History([EMPTY], []);
    } else {
      var before := NodeIsAStoreRun(cs, es, k - 1, j);
      h := NextHistoryAt(cs, es, k - 1, j, before);
    }
  }

  lemma NextHistoryAt(cs: seq<Cluster>, es: seq<Event>, k: nat, j: nat, before: History) returns (h: History)
    requires Clusters.Run(cs, es) && k < |es| && HistoryOf(before, cs, es, k, j)
    ensures HistoryOf(h, cs, es, k + 1, j)
  {
    RunStep(cs, es, k);
    h := NextHistory(cs[k], es[k], cs[k + 1], j, before);
  }

  // ----- When a node forgets -----

  /** How many of the batches carry id. */
  function Carrying(batches: seq<seq<Node>>, id: string): nat {
    if batches == [] then 0
    else Carrying(batches[..|batches| - 1], id) + if id in IdSet(batches[|batches| - 1]) then 1 else 0
  }

  lemma CarryingOneMore(batches: seq<seq<Node>>, batch: seq<Node>, id: string)
    ensures Carrying(batches + [batch], id) == Carrying(batches, id) + if id in IdSet(batch) then 1 else 0
  {
    assert (batches + [batch])[..|batches|] == batches;
  }

  lemma {:induction false} CarriedByBatches(ss: seq<Store>, cs: seq<Stores.Call>, k: nat, id: string)
    requires |ss| == |cs| + 1 && k <= |cs|
    ensures CarriedSince(ss, cs, k, id) <= Carrying(BatchesIn(cs[..k]), id)
  {
    if k > 0 {
      CarriedByBatches(ss, cs, k - 1, id);
      BatchesNext(cs, k, id);
    }
  }

  lemma BatchesNext(cs: seq<Stores.Call>, k: nat, id: string)
    requires 0 < k <= |cs|
    ensures Carrying(BatchesIn(cs[..k]), id)
         == Carrying(BatchesIn(cs[..k - 1]), id) + if Carries(cs[k - 1], id) then 1 else 0
  {
    assert cs[..k][..k - 1] == cs[..k - 1];
    if cs[k - 1].Build? {
      CarryingOneMore(BatchesIn(cs[..k - 1]), cs[k - 1].rumors, id);
    } else {
      assert BatchesIn(cs[..k - 1]) + [] == BatchesIn(cs[..k - 1]);
    }
  }

  lemma {:induction false} BatchesGrow(cs: seq<Stores.Call>, i: nat, k: nat, id: string)
    requires i <= k <= |cs|
    ensures Carrying(BatchesIn(cs[..i]), id) <= Carrying(BatchesIn(cs[..k]), id)
  {
    if i < k {
      BatchesGrow(cs, i, k - 1, id);
      BatchesNext(cs, k, id);
    }
  }

  /** A record that is there at one moment and gone later has been lost in a call in between. */
  lemma {:induction false} LostInBetween(ss: seq<Store>, i: nat, k: nat, id: string) returns (b: nat)
    requires i <= k < |ss| && id in ViewOf(ss[i]) && id !in ViewOf(ss[k])
    ensures i <= b < k && id in ViewOf(ss[b]) && id !in ViewOf(ss[b + 1])
  {
    hide ViewOf;
    if id in ViewOf(ss[k - 1]) {
      b := k - 1;
    } else {
      b := LostInBetween(ss, i, k - 1, id);
    }
  }

  /** What a run loses it has carried in as many batches as the limit of the build that lost it. */
  lemma LostAfterCarrying(ss: seq<Store>, cs: seq<Stores.Call>, b: nat, id: string)
    requires Stores.Run(ss, cs) && b < |cs| && id in ViewOf(ss[b]) && id !in ViewOf(ss[b + 1])
    ensures cs[b].Build? && ViewOf(ss[b])[id].status.Failed?
    ensures cs[b].limit <= Carrying(BatchesIn(cs), id)
  {
    LostExactlyWhen(ss, cs, b, id);
    CarriedByBatches(ss, cs, b, id);
    BatchesGrow(cs, b, |cs|, id);
    assert cs[..|cs|] == cs;
  }

  /** A node that forgets a record has lost it in a build of the act at hand, and the batches that it has
      sent so far carry that id at least as often as the limit of that build says. */
  lemma NodeForgetsAfterSending(cs: seq<Cluster>, es: seq<Event>, k: nat, j: nat, id: string)
    returns (h: History, b: nat)
    requires Clusters.Run(cs, es) && k < |es| && ForgetsAt(cs, es, k, j, id)
    ensures HistoryOf(h, cs, es, k + 1, j)
    ensures |h.stores| == |h.calls| + 1 && b < |h.calls|
    ensures id in ViewOf(h.stores[b]) && id !in ViewOf(h.stores[b + 1]) && h.calls[b].Build?
    ensures h.calls[b].limit <= Carrying(BatchesBy(es, k + 1, j), id)
  {
    RunStep(cs, es, k);
    var before := NodeIsAStoreRun(cs, es, k, j);
    h := NextHistory(cs[k], es[k], cs[k + 1], j, before);
    OnlyWhoActsForgets(cs[k], es[k], cs[k + 1], j, id);
    ForgetsFrom(cs[k], es[k], cs[k + 1], id, before, h);
    b := LostInBetween(h.stores, |before.calls| + 1, |h.calls|, id);
    LostAfterCarrying(h.stores, h.calls, b, id);
  }

  lemma OnlyWhoActsForgets(c: Cluster, e: Event, c': Cluster, j: nat, id: string)
    requires Sound(c) && Clusters.Step(c, e, c') && Forgot(c, e, c', j, id)
    ensures e.Acts? && e.i == j
  {
  }

  lemma ForgetsFrom(c: Cluster, e: Event, c': Cluster, id: string, before: History, h: History)
    requires Sound(c) && Clusters.Step(c, e, c') && e.Acts? && Forgot(c, e, c', e.i, id)
    requires EndsIn(before, c.peers[e.i].store) && EndsIn(h, c'.peers[e.i].store)
    requires Extends(AfterHearing(before, c.peers[e.i], e.act), h)
    ensures |before.calls| + 1 <= |h.calls| < |h.stores|
    ensures id in ViewOf(h.stores[|before.calls| + 1]) && id !in ViewOf(h.stores[|h.calls|])
  {
    var p := c.peers[e.i];
    HeardIsMerged(p, Hearing(e.act));
    assert h.stores[|before.calls| + 1] == Hears(p, Hearing(e.act)).store;
  }
}
