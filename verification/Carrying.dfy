/** How soon a stable member is carried in a batch again, over runs of the whole store: the round-robin
    bound through every update and every build (src/sw/gossip-net/gossip_net.cpp, update and
    _build_rumors; src/sw/gossip-net/member_set.cpp). */
module Carrying {
  import opened Nodes
  import opened MemberSets
  import opened RecentlyUpdated
  import opened RoundRobin
  import opened Stores

  /** How many stable members a batch carries. */
  function StableCarried(c: Call, s': Store): nat {
    if c.Build? then |IdSet(c.rumors) * s'.stable.nodes.Keys| else 0
  }

  /** How many members have become stable in a call. */
  function Joining(s: Store, s': Store): nat {
    |s'.stable.nodes.Keys - s.stable.nodes.Keys|
  }

  /** How many stable members stand before id. */
  function Distance(s: Store, id: string): nat {
    Position(s.stable.queue, id)
  }

  function Carried(ss: seq<Store>, cs: seq<Call>, i: nat, k: nat): nat
    requires |ss| == |cs| + 1 && i <= k <= |cs|
  {
    if k == i then 0 else Carried(ss, cs, i, k - 1) + StableCarried(cs[k - 1], ss[k])
  }

  function Joined(ss: seq<Store>, cs: seq<Call>, i: nat, k: nat): nat
    requires |ss| == |cs| + 1 && i <= k <= |cs|
  {
    if k == i then 0 else Joined(ss, cs, i, k - 1) + Joining(ss[k - 1], ss[k])
  }

  // ----- update -----

  /** Nothing that is heard puts a stable member back, and none becomes stable by it. */
  lemma ReceiveWait(s: Store, rumor: Node, id: string)
    requires Inv(s) && id in Receive(s, rumor).stable.nodes
    ensures id in s.stable.nodes
    ensures Position(Receive(s, rumor).stable.queue, id) <= Position(s.stable.queue, id)
  {
    if rumor.id in s.stable.nodes && Less(s.stable.nodes[rumor.id], rumor) {
      assert id in ToSet(s.stable.queue);
      WaitWhileErased(s.stable.queue, rumor.id, id);
    }
  }

  lemma {:induction false} UpdateWait(s: Store, rumors: seq<Node>, id: string)
    requires Inv(s) && id in ReceiveAll(s, rumors).stable.nodes
    ensures Position(ReceiveAll(s, rumors).stable.queue, id) <= Position(s.stable.queue, id)
    ensures id in s.stable.nodes
  {
    if rumors != [] {
      var init := rumors[..|rumors| - 1];
      ReceiveWait(ReceiveAll(s, init), rumors[|rumors| - 1], id);
      UpdateWait(s, init, id);
    }
  }

  // ----- _build_rumors -----

  /** Each record that becomes stable may put a member back by one. */
  lemma {:induction false} AbsorbWait(path: seq<MemberState>, settled: seq<Node>, i: nat, id: string)
    requires Absorbs(path, settled) && Ordered(path[0]) && i <= |settled| && id in path[0].nodes
    requires NoDup(IdsOf(settled)) && path[0].nodes.Keys !! IdSet(settled)
    ensures id in path[i].nodes && Ordered(path[i])
    ensures |path[i].queue| == |path[0].queue| + i
    ensures Position(path[i].queue, id) <= Position(path[0].queue, id) + i
  {
    hide Ordered;
    hide Position;
    hide NoDup;
    if i > 0 {
      AbsorbWait(path, settled, i - 1, id);
      AbsorbedIsNew(path, settled, i - 1);
      AbsorbsOrdered(path, settled, i);
      JoinWait(path[i - 1], settled[i - 1], path[i], id);
    }
  }

  lemma JoinWait(m: MemberState, node: Node, m': MemberState, id: string)
    requires Ordered(m) && JoinsStable(m, node, m') && node.id !in m.nodes && id in m.nodes
    ensures id in m'.nodes && |m'.queue| == |m.queue| + 1
    ensures Position(m'.queue, id) <= Position(m.queue, id) + 1
  {
    assert id in ToSet(m.queue);
    WaitWhileJoined(m.queue, node.id, m'.queue, id);
  }

  /** The stable members that fill a batch up bring one that is not among them nearer by their number. */
  lemma FillWait(m: MemberState, max: nat, batch: seq<Node>, rumors: seq<Node>, m': MemberState, id: string)
    requires Ordered(m) && FillsUp(m, max, batch, rumors, m')
    requires id in m.nodes && id !in IdSet(rumors)
    ensures id in m'.nodes && |m'.queue| == |m.queue|
    ensures Position(m'.queue, id) + (|rumors| - |batch|) <= Position(m.queue, id)
  {
    hide Rotation;
    if |batch| < max {
      var out := rumors[|batch|..];
      assert forall j :: 0 <= j < |out| ==> out[j] in rumors && IdsOf(out)[j] == out[j].id;
      assert id in ToSet(m.queue);
      FilledSize(m.queue, max - |batch|, IdsOf(out), m'.queue);
      WaitWhileFetched(m.queue, max - |batch|, IdsOf(out), m'.queue, id);
    }
  }

  lemma FilledSize(q: seq<string>, num: nat, out: seq<string>, q': seq<string>)
    requires TakesTurns(q, num, out, q')
    ensures |q'| == |q|
  {
  }

  lemma BuildWait(s: Store, max: nat, limit: nat, rumors: seq<Node>, s': Store, id: string)
    requires Inv(s) && Builds(s, max, limit, rumors, s')
    requires id in s.stable.nodes && id !in IdSet(rumors)
    ensures id in s'.stable.nodes
    ensures StableCarried(Build(max, limit, rumors), s') + Position(s'.stable.queue, id)
         <= Position(s.stable.queue, id) + Joining(s, s')
  {
    var batch, settled, path :| BuildsVia(s, max, limit, rumors, s', batch, settled, path);
    var t := Tally(batch, settled, s'.recent);
    FetchSplits(s, max, limit, t);
    AbsorbWait(path, settled, |settled|, id);
    FillWait(path[|settled|], max, batch, rumors, s'.stable, id);
    SettledJoin(s, max, limit, t, path);
    StableAfterFill(path[|settled|], max, batch, rumors, s'.stable);
    CarriedFillsUp(s, max, limit, rumors, s', batch, settled, path);
  }

  /** The members that become stable are those settled. */
  lemma SettledJoin(s: Store, max: nat, limit: nat, t: Tally, path: seq<MemberState>)
    requires Inv(s) && Selects(s.recent, max, limit, t)
    requires Absorbs(path, t.stable) && path[0] == s.stable
    ensures Ordered(path[|t.stable|]) && |path[|t.stable|].nodes.Keys - s.stable.nodes.Keys| == |t.stable|
  {
    FetchSplits(s, max, limit, t);
    AbsorbsOrdered(path, t.stable, |t.stable|);
    assert t.stable[..|t.stable|] == t.stable;
    ListsSize(t.stable, s.recent, Settled(s.recent, max, limit));
    assert path[|t.stable|].nodes.Keys - s.stable.nodes.Keys == IdSet(t.stable);
  }

  /** The stable members in a batch are those it was filled up with. */
  lemma CarriedFillsUp(s: Store, max: nat, limit: nat, rumors: seq<Node>, s': Store,
                       batch: seq<Node>, settled: seq<Node>, path: seq<MemberState>)
    requires Inv(s) && BuildsVia(s, max, limit, rumors, s', batch, settled, path)
    ensures StableCarried(Build(max, limit, rumors), s') == |rumors| - |batch|
  {
    hide Selects;
    var t, m := Tally(batch, settled, s'.recent), path[|settled|];
    assert Builds(s, max, limit, rumors, s');
    BuildForgetsOnlyFailures(s, max, limit, rumors, s');
    BatchSize(s.recent, max, limit, t);
    PathEnd(s, max, limit, t, path);
    FilledIds(m, max, batch, rumors, s'.stable);
    IdsOfBoth(batch, rumors, s'.recent.Keys, s'.stable.nodes.Keys);
  }

  lemma IdsOfBoth(batch: seq<Node>, rumors: seq<Node>, recent: set<string>, stable: set<string>)
    requires batch <= rumors && recent !! stable
    requires IdSet(batch) <= recent && IdSet(rumors[|batch|..]) <= stable
    ensures IdSet(rumors) * stable == IdSet(rumors[|batch|..])
  {
    var out := rumors[|batch|..];
    assert rumors == batch + out;
    assert IdSet(rumors) == IdSet(batch) + IdSet(out);
  }

  lemma FilledIds(m: MemberState, max: nat, batch: seq<Node>, rumors: seq<Node>, m': MemberState)
    requires Ordered(m) && FillsUp(m, max, batch, rumors, m')
    ensures IdSet(rumors[|batch|..]) <= m'.nodes.Keys
    ensures |IdSet(rumors[|batch|..])| == |rumors| - |batch|
  {
    hide NoDup;
    hide Rotation;
    var out := rumors[|batch|..];
    if |batch| < max {
      TakesTurnsOrdered(m.queue, max - |batch|, IdsOf(out), m'.queue);
      DistinctIds(out);
    } else {
      assert out == [];
    }
  }

  // ----- Whole runs -----

  lemma StepWait(s: Store, c: Call, s': Store, id: string)
    requires Inv(s) && Stores.Step(s, c, s') && id in s.stable.nodes && id in s'.stable.nodes
    requires c.Build? ==> id !in IdSet(c.rumors)
    ensures StableCarried(c, s') + Position(s'.stable.queue, id) <= Position(s.stable.queue, id) + Joining(s, s')
  {
    match c
    case Update(rumors) => UpdateWait(s, rumors, id);
    case Build(max, limit, rumors) => BuildWait(s, max, limit, rumors, s', id);
  }

  /** In call t the member has come nearer by the stable members carried, but for those that joined. */
  ghost predicate ComesNearer(ss: seq<Store>, cs: seq<Call>, t: nat, id: string)
    requires |ss| == |cs| + 1 && t < |cs|
  {
    StableCarried(cs[t], ss[t + 1]) + Distance(ss[t + 1], id) <= Distance(ss[t], id) + Joining(ss[t], ss[t + 1])
  }

  lemma StepWaitAt(ss: seq<Store>, cs: seq<Call>, t: nat, id: string)
    requires Stores.Run(ss, cs) && t < |cs|
    requires id in ss[t].stable.nodes && id in ss[t + 1].stable.nodes
    requires cs[t].Build? ==> id !in IdSet(cs[t].rumors)
    ensures ComesNearer(ss, cs, t, id)
  {
    StepOfRun(ss, cs, t);
    StepWait(ss[t], cs[t], ss[t + 1], id);
  }

  lemma {:induction false} NearerInAll(ss: seq<Store>, cs: seq<Call>, i: nat, k: nat, id: string)
    requires |ss| == |cs| + 1 && i <= k <= |cs|
    requires forall t :: i <= t < k ==> ComesNearer(ss, cs, t, id)
    ensures Carried(ss, cs, i, k) + Distance(ss[k], id) <= Distance(ss[i], id) + Joined(ss, cs, i, k)
  {
    hide Distance;
    hide Joining;
    hide StableCarried;
    if i < k {
      NearerInAll(ss, cs, i, k - 1, id);
      assert ComesNearer(ss, cs, k - 1, id);
    }
  }

  /** As long as a member stays stable and no batch carries it, the batches carry no more other stable
      members than stood before it at the start and have become stable since. So once they have carried
      more, it has been carried. */
  lemma StableIsCarried(ss: seq<Store>, cs: seq<Call>, i: nat, k: nat, id: string)
    requires Stores.Run(ss, cs) && i <= k <= |cs|
    requires forall t :: i <= t <= k ==> id in ss[t].stable.nodes
    requires forall t :: i <= t < k && cs[t].Build? ==> id !in IdSet(cs[t].rumors)
    ensures Carried(ss, cs, i, k) + Distance(ss[k], id) <= Distance(ss[i], id) + Joined(ss, cs, i, k)
  {
    hide ComesNearer;
    forall t | i <= t < k
      ensures ComesNearer(ss, cs, t, id)
    {
      StepWaitAt(ss, cs, t, id);
    }
    NearerInAll(ss, cs, i, k, id);
  }
}
