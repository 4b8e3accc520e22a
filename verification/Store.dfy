/** The two-tier membership store: the stable set and the recently updated set together, and the one
    map they stand for (src/sw/gossip-net/gossip_net.cpp, update and _build_rumors). */
module Stores {
  import opened Nodes
  import opened Views
  import opened MemberSets
  import opened RecentlyUpdated
  import opened RoundRobin

  datatype Store = Store(stable: MemberState, recent: Members)

  /** The invariant across both sets: a member lives in exactly one of them, each record under its
      own id, and a FAILED record never among the stable ones. */
  ghost predicate Inv(s: Store) {
    && Ordered(s.stable) && MembersKeyed(s.recent)
    && s.stable.nodes.Keys !! s.recent.Keys
    && NoneFailed(s.stable.nodes)
  }

  ghost predicate NoneFailed(v: View) {
    forall id :: id in v ==> !v[id].status.Failed?
  }

  function ViewOf(s: Store): View {
    s.stable.nodes + NodesOf(s.recent)
  }

  const EMPTY := Store(MemberState(map[], []), map[])

  // ----- update -----

  lemma WithoutOrdered(m: MemberState, id: string)
    requires Ordered(m) && id in m.nodes
    ensures Ordered(Without(m, id))
  {
    assert id in ToSet(m.queue);
    assert m.queue[..|m.queue|] == m.queue;
    var p := Position(m.queue, id);
    NoDupErase(m.queue, p);
  }

  /** One rumor through try_update and, when that hands it on, add. */
  function Receive(s: Store, rumor: Node): Store
    requires Inv(s)
  {
    if rumor.id !in s.stable.nodes then Store(s.stable, Added(s.recent, rumor))
    else if Less(s.stable.nodes[rumor.id], rumor) then
      Store(Without(s.stable, rumor.id), Added(s.recent, rumor))
    else s
  }

  /** The two sets together behave as one map that merges the rumor. */
  lemma ReceiveRefinesMerge(s: Store, rumor: Node)
    requires Inv(s)
    ensures Inv(Receive(s, rumor))
    ensures Keyed(ViewOf(s))
    ensures ViewOf(Receive(s, rumor)) == Merge(ViewOf(s), rumor)
  {
    AddedMerges(s.recent, rumor);
    var a, b := s.stable.nodes, NodesOf(s.recent);
    assert Keyed(b);
    if rumor.id !in a {
      MergeOnTheRight(a, b, rumor);
    } else {
      WithoutOrdered(s.stable, rumor.id);
      if Less(a[rumor.id], rumor) {
        MergeAcross(a, b, rumor);
      }
    }
  }

  function ReceiveAll(s: Store, rumors: seq<Node>): (s': Store)
    requires Inv(s)
    ensures Inv(s')
  {
    if rumors == [] then s
    else
      var mid := ReceiveAll(s, rumors[..|rumors| - 1]);
      ReceiveRefinesMerge(mid, rumors[|rumors| - 1]);
      Receive(mid, rumors[|rumors| - 1])
  }

  lemma {:induction false} UpdateRefinesMergeAll(s: Store, rumors: seq<Node>)
    requires Inv(s)
    ensures Keyed(ViewOf(s))
    ensures ViewOf(ReceiveAll(s, rumors)) == MergeAll(ViewOf(s), rumors)
  {
    if rumors != [] {
      UpdateRefinesMergeAll(s, rumors[..|rumors| - 1]);
      ReceiveRefinesMerge(ReceiveAll(s, rumors[..|rumors| - 1]), rumors[|rumors| - 1]);
    }
  }

  // ----- _build_rumors -----

  /** MemberSet::add without its assertion: a record whose id is there already changes nothing. */
  ghost predicate JoinsStable(m: MemberState, node: Node, m': MemberState) {
    if node.id in m.nodes then m' == m
    else m'.nodes == m.nodes[node.id := node] && Inserted(m.queue, node.id, m'.queue)
  }

  /** The records join the stable set one by one. */
  ghost predicate Absorbs(path: seq<MemberState>, settled: seq<Node>) {
    && |path| == |settled| + 1
    && forall i :: 0 <= i < |settled| ==> JoinsStable(path[i], settled[i], path[i + 1])
  }

  ghost predicate FetchesStable(m: MemberState, num: nat, out: seq<Node>, m': MemberState) {
    && m'.nodes == m.nodes
    && TakesTurns(m.queue, num, IdsOf(out), m'.queue)
    && forall r :: r in out ==> r.id in m.nodes && m.nodes[r.id] == r
  }

  /** A short batch is filled up with stable members in turn. */
  ghost predicate FillsUp(m: MemberState, max: nat, batch: seq<Node>, rumors: seq<Node>, m': MemberState) {
    && batch <= rumors
    && if |batch| < max then FetchesStable(m, max - |batch|, rumors[|batch|..], m')
       else rumors == batch && m' == m
  }

  ghost predicate Builds(s: Store, max: nat, limit: nat, rumors: seq<Node>, s': Store) {
    exists batch, settled, path :: BuildsVia(s, max, limit, rumors, s', batch, settled, path)
  }

  ghost predicate BuildsVia(s: Store, max: nat, limit: nat, rumors: seq<Node>, s': Store,
                            batch: seq<Node>, settled: seq<Node>, path: seq<MemberState>) {
    && Selects(s.recent, max, limit, Tally(batch, settled, s'.recent))
    && Absorbs(path, settled) && path[0] == s.stable
    && FillsUp(path[|settled|], max, batch, rumors, s'.stable)
  }

  /** The FAILED records that have been spread enough, when a short batch takes them out. */
  function Forgotten(s: Store, max: nat, limit: nat): set<string> {
    if |Eligible(s.recent, limit)| >= max then {}
    else set id | id in s.recent && limit <= s.recent[id].counter && s.recent[id].node.status.Failed?
  }

  lemma InsertedOrdered(q: seq<string>, id: string, q': seq<string>)
    requires NoDup(q) && id !in q && Inserted(q, id, q')
    ensures NoDup(q') && ToSet(q') == ToSet(q) + {id}
  {
    var p :| 0 <= p <= |q| && q' == q[..p] + [id] + q[p..];
    NoDupInsert(q, p, id);
  }

  lemma JoinsStableOrdered(m: MemberState, node: Node, m': MemberState)
    requires Ordered(m) && JoinsStable(m, node, m')
    ensures Ordered(m')
  {
    if node.id !in m.nodes {
      assert node.id !in ToSet(m.queue);
      InsertedOrdered(m.queue, node.id, m'.queue);
    }
  }

  lemma {:induction false} AbsorbsOrdered(path: seq<MemberState>, settled: seq<Node>, i: nat)
    requires Absorbs(path, settled) && Ordered(path[0]) && i <= |settled|
    ensures Ordered(path[i])
    ensures path[i].nodes.Keys == path[0].nodes.Keys + IdSet(settled[..i])
    ensures forall id :: id in path[0].nodes ==> path[i].nodes[id] == path[0].nodes[id]
  {
    hide NoDup;
    if i > 0 {
      AbsorbsOrdered(path, settled, i - 1);
      assert JoinsStable(path[i - 1], settled[i - 1], path[i]);
      JoinsStableOrdered(path[i - 1], settled[i - 1], path[i]);
      assert settled[..i] == settled[..i - 1] + [settled[i - 1]];
      assert IdSet(settled[..i]) == IdSet(settled[..i - 1]) + {settled[i - 1].id};
    }
  }

  lemma NotAmongEarlier(settled: seq<Node>, i: nat)
    requires NoDup(IdsOf(settled)) && i < |settled|
    ensures settled[i].id in IdSet(settled) && settled[i].id !in IdSet(settled[..i])
  {
    assert settled[i] in settled;
    assert IdsOf(settled)[i] == settled[i].id;
    forall r | r in settled[..i]
      ensures r.id != settled[i].id
    {
      var k :| 0 <= k < i && settled[k] == r;
      assert IdsOf(settled)[k] == r.id;
    }
  }

  /** Records with distinct ids, none of them a stable one, all find their ids new. */
  lemma AbsorbedIsNew(path: seq<MemberState>, settled: seq<Node>, i: nat)
    requires Absorbs(path, settled) && Ordered(path[0]) && i < |settled|
    requires NoDup(IdsOf(settled)) && path[0].nodes.Keys !! IdSet(settled)
    ensures settled[i].id !in path[i].nodes
  {
    AbsorbsOrdered(path, settled, i);
    NotAmongEarlier(settled, i);
  }

  lemma {:induction false} AbsorbsRecords(path: seq<MemberState>, settled: seq<Node>, i: nat)
    requires Absorbs(path, settled) && Ordered(path[0]) && i <= |settled|
    requires NoDup(IdsOf(settled)) && path[0].nodes.Keys !! IdSet(settled)
    ensures forall r :: r in settled[..i] ==> r.id in path[i].nodes && path[i].nodes[r.id] == r
  {
    hide NoDup;
    if i > 0 {
      AbsorbsRecords(path, settled, i - 1);
      AbsorbedIsNew(path, settled, i - 1);
      assert JoinsStable(path[i - 1], settled[i - 1], path[i]);
      assert settled[..i] == settled[..i - 1] + [settled[i - 1]];
    }
  }

  /** The records of the members in ids. */
  function Part(ms: Members, ids: set<string>): View {
    map id | id in ids && id in ms :: ms[id].node
  }

  /** Absorbing the records of these members adds exactly them. */
  lemma AbsorbsPart(path: seq<MemberState>, settled: seq<Node>, ms: Members, ids: set<string>)
    requires Absorbs(path, settled) && Ordered(path[0])
    requires Lists(settled, ms, ids) && path[0].nodes.Keys !! ids
    ensures Ordered(path[|settled|])
    ensures path[|settled|].nodes == path[0].nodes + Part(ms, ids)
  {
    AbsorbsOrdered(path, settled, |settled|);
    AbsorbsRecords(path, settled, |settled|);
    assert settled[..|settled|] == settled;
    AddedPart(path[0].nodes, path[|settled|].nodes, settled, ms, ids);
  }

  lemma AddedPart(v: View, w: View, settled: seq<Node>, ms: Members, ids: set<string>)
    requires Lists(settled, ms, ids) && v.Keys !! ids
    requires w.Keys == v.Keys + ids && forall id :: id in v ==> w[id] == v[id]
    requires forall r :: r in settled ==> r.id in w && w[r.id] == r
    ensures w == v + Part(ms, ids)
  {
    forall id | id in ids
      ensures id in ms && w[id] == ms[id].node
    {
      var r :| r in settled && r.id == id;
    }
  }

  lemma TakesTurnsOrdered(q: seq<string>, num: nat, out: seq<string>, q': seq<string>)
    requires NoDup(q) && TakesTurns(q, num, out, q')
    ensures NoDup(q') && ToSet(q') == ToSet(q)
    ensures NoDup(out) && ToSet(out) <= ToSet(q)
    ensures |out| == if num <= |q| then num else |q|
  {
    if num <= |q| {
      assert q == q[..num] + q[num..];
    } else {
      SameOccurrences(q, out);
    }
  }

  lemma SameOccurrences(q: seq<string>, out: seq<string>)
    requires NoDup(q) && multiset(out) == multiset(q)
    ensures NoDup(out) && ToSet(out) == ToSet(q) && |out| == |q|
  {
    assert |multiset(out)| == |multiset(q)|;
    assert forall x :: x in multiset(q) <==> x in q;
    assert forall x :: x in multiset(out) <==> x in out;
    forall i, j | 0 <= i < j < |out|
      ensures out[i] != out[j]
    {
      if out[i] == out[j] {
        assert out == out[..i] + [out[i]] + out[i + 1..j] + [out[j]] + out[j + 1..];
        assert multiset(out)[out[i]] >= 2;
        var k :| 0 <= k < |q| && q[k] == out[i];
        OccursOnce(q, k);
      }
    }
  }

  /** The ids of the records that a fetch turns stable. */
  function Settled(ms: Members, max: nat, limit: nat): set<string> {
    if |Eligible(ms, limit)| >= max then {} else Settling(ms, limit)
  }

  /** A fetch splits the recent members into those kept, those settled and those forgotten. */
  lemma FetchSplits(s: Store, max: nat, limit: nat, t: Tally)
    requires MembersKeyed(s.recent) && Selects(s.recent, max, limit, t)
    ensures MembersKeyed(t.members)
    ensures Lists(t.stable, s.recent, Settled(s.recent, max, limit))
    ensures t.members.Keys == s.recent.Keys - Settled(s.recent, max, limit) - Forgotten(s, max, limit)
    ensures NodesOf(t.members) == Part(s.recent, t.members.Keys)
  {
    ListsSize(t.recent, s.recent, IdSet(t.recent));
    SubsetSize(IdSet(t.recent), Eligible(s.recent, limit));
    if |Eligible(s.recent, limit)| >= max {
      assert Lists([], s.recent, {});
    }
  }

  lemma BatchSize(ms: Members, max: nat, limit: nat, t: Tally)
    requires Selects(ms, max, limit, t)
    ensures |t.recent| == Min(max, |t.members|)
    ensures IdSet(t.recent) <= t.members.Keys
  {
    var emitted := IdSet(t.recent);
    ListsSize(t.recent, ms, emitted);
    if |Eligible(ms, limit)| < max {
      ShortKeepsEligible(ms, max, limit, t);
    } else {
      SubsetSize(emitted, t.members.Keys);
    }
    assert |t.members.Keys| == |t.members|;
  }

  /** The records a fetch emits stay in the recent set; a short batch holds all that are left there. */
  lemma BatchIsRecent(ms: Members, max: nat, limit: nat, t: Tally)
    requires Selects(ms, max, limit, t)
    ensures |t.recent| == Min(max, |t.members|)
    ensures NoDup(IdsOf(t.recent)) && IdSet(t.recent) <= t.members.Keys
    ensures forall r :: r in t.recent ==> NodesOf(t.members)[r.id] == r
  {
    BatchSize(ms, max, limit, t);
    var emitted := IdSet(t.recent);
    forall r | r in t.recent
      ensures r.id in t.members && t.members[r.id].node == r
    {
      assert r.id in emitted;
    }
  }

  /** Building rumors keeps the invariant and leaves the view as it is, but for the FAILED records
      that have been spread enough, which a short batch deletes. */
  lemma BuildForgetsOnlyFailures(s: Store, max: nat, limit: nat, rumors: seq<Node>, s': Store)
    requires Inv(s) && Builds(s, max, limit, rumors, s')
    ensures Inv(s')
    ensures ViewOf(s') == ViewOf(s) - Forgotten(s, max, limit)
  {
    hide Selects;
    var batch, settled, path :| BuildsVia(s, max, limit, rumors, s', batch, settled, path);
    var ids := Settled(s.recent, max, limit);
    FetchSplits(s, max, limit, Tally(batch, settled, s'.recent));
    AbsorbsPart(path, settled, s.recent, ids);
    var m := path[|settled|];
    StableAfterFill(m, max, batch, rumors, s'.stable);
    ViewAfterFetch(s.stable.nodes, s.recent, ids, Forgotten(s, max, limit), s'.recent);
    assert NoneFailed(m.nodes);
  }

  lemma StableAfterFill(m: MemberState, max: nat, batch: seq<Node>, rumors: seq<Node>, m': MemberState)
    requires Ordered(m) && FillsUp(m, max, batch, rumors, m')
    ensures Ordered(m') && m'.nodes == m.nodes
  {
    if |batch| < max {
      TakesTurnsOrdered(m.queue, max - |batch|, IdsOf(rumors[|batch|..]), m'.queue);
    }
  }

  lemma ViewAfterFetch(stable: View, ms: Members, ids: set<string>, gone: set<string>, ms': Members)
    requires stable.Keys !! ms.Keys && ids <= ms.Keys && gone <= ms.Keys && ids !! gone
    requires ms'.Keys == ms.Keys - ids - gone && NodesOf(ms') == Part(ms, ms'.Keys)
    ensures (stable + Part(ms, ids)).Keys !! ms'.Keys
    ensures stable + Part(ms, ids) + NodesOf(ms') == (stable + NodesOf(ms)) - gone
  {
  }

  lemma PathEnd(s: Store, max: nat, limit: nat, t: Tally, path: seq<MemberState>)
    requires Inv(s) && Selects(s.recent, max, limit, t)
    requires Absorbs(path, t.stable) && path[0] == s.stable
    ensures Ordered(path[|t.stable|])
  {
    FetchSplits(s, max, limit, t);
    AbsorbsPart(path, t.stable, s.recent, Settled(s.recent, max, limit));
  }

  /** The assertions of MemberSet::add and _build_rumors: every record that becomes stable is new to
      the stable set when its turn comes, and a batch is never larger than asked for. */
  lemma AssertionsHold(s: Store, max: nat, limit: nat, t: Tally, path: seq<MemberState>)
    requires Inv(s) && Selects(s.recent, max, limit, t)
    requires Absorbs(path, t.stable) && path[0] == s.stable
    ensures forall i :: 0 <= i < |t.stable| ==> t.stable[i].id !in path[i].nodes
    ensures |t.recent| <= max
  {
    FetchSplits(s, max, limit, t);
    forall i | 0 <= i < |t.stable|
      ensures t.stable[i].id !in path[i].nodes
    {
      AbsorbedIsNew(path, t.stable, i);
    }
  }

  /** The assertion at the head of MemberSet::_fetch, as it is written, wants fewer members than there
      are. A build trips over it if and only if there are fewer records to spread than the batch holds,
      and the view, without the failures that the build forgets, is exactly as large as the batch. */
  lemma WrittenBoundFails(s: Store, max: nat, limit: nat, rumors: seq<Node>, s': Store,
                          batch: seq<Node>, settled: seq<Node>, path: seq<MemberState>)
    requires Inv(s) && BuildsVia(s, max, limit, rumors, s', batch, settled, path)
    ensures |batch| < max && max - |batch| == |path[|settled|].nodes|
      <==> |Eligible(s.recent, limit)| < max == |ViewOf(s)| - |Forgotten(s, max, limit)|
  {
    var t, m := Tally(batch, settled, s'.recent), path[|settled|];
    BatchSize(s.recent, max, limit, t);
    PathEnd(s, max, limit, t, path);
    StableAfterFill(m, max, batch, rumors, s'.stable);
    assert Builds(s, max, limit, rumors, s');
    BuildForgetsOnlyFailures(s, max, limit, rumors, s');
    ForgottenAreFailed(s, max, limit);
    SizeWithout(ViewOf(s), Forgotten(s, max, limit));
    ViewSize(s');
    CardinalityOfSet(s'.stable.queue);
    assert |m.nodes.Keys| == |m.nodes|;
  }

  lemma SizeWithout(v: View, gone: set<string>)
    requires gone <= v.Keys
    ensures |v - gone| == |v| - |gone|
  {
    assert (v - gone).Keys == v.Keys - gone;
    assert |(v - gone).Keys| == |v - gone| && |v.Keys| == |v|;
  }

  lemma BatchVia(s: Store, max: nat, limit: nat, rumors: seq<Node>, s': Store,
                 batch: seq<Node>, settled: seq<Node>, path: seq<MemberState>)
    requires Inv(s) && Inv(s') && BuildsVia(s, max, limit, rumors, s', batch, settled, path)
    ensures NoDup(IdsOf(rumors))
    ensures forall r :: r in rumors ==> r.id in ViewOf(s') && ViewOf(s')[r.id] == r
    ensures |rumors| == Min(max, |s'.stable.queue| + |s'.recent|)
  {
    var t := Tally(batch, settled, s'.recent);
    assert Ordered(path[|settled|]) by { PathEnd(s, max, limit, t, path); }
    BatchIsRecent(s.recent, max, limit, t);
    BatchOrFilled(path[|settled|], max, batch, rumors, s');
  }

  lemma BatchOrFilled(m: MemberState, max: nat, batch: seq<Node>, rumors: seq<Node>, s': Store)
    requires Inv(s') && Ordered(m) && FillsUp(m, max, batch, rumors, s'.stable)
    requires NoDup(IdsOf(batch)) && IdSet(batch) <= s'.recent.Keys && |batch| == Min(max, |s'.recent|)
    requires forall r :: r in batch ==> NodesOf(s'.recent)[r.id] == r
    ensures NoDup(IdsOf(rumors))
    ensures forall r :: r in rumors ==> r.id in ViewOf(s') && ViewOf(s')[r.id] == r
    ensures |rumors| == Min(max, |s'.stable.queue| + |s'.recent|)
  {
    hide Inv;
    if |batch| < max {
      FilledBatch(m, max - |batch|, batch, rumors, s');
    } else {
      BatchInView(batch, s');
    }
  }

  /** The contract of a rumor batch: records with pairwise distinct ids, each as the view now has it,
      as many as were asked for or all there are. */
  lemma BatchCarriesTheView(s: Store, max: nat, limit: nat, rumors: seq<Node>, s': Store)
    requires Inv(s) && Builds(s, max, limit, rumors, s')
    ensures NoDup(IdsOf(rumors))
    ensures forall r :: r in rumors ==> r.id in ViewOf(s') && ViewOf(s')[r.id] == r
    ensures |rumors| == Min(max, |ViewOf(s')|)
    ensures |ViewOf(s')| <= max ==> ToSet(rumors) == ViewOf(s').Values
  {
    hide BuildsVia;
    BuildForgetsOnlyFailures(s, max, limit, rumors, s');
    var batch, settled, path :| BuildsVia(s, max, limit, rumors, s', batch, settled, path);
    BatchVia(s, max, limit, rumors, s', batch, settled, path);
    ViewSize(s');
    if |ViewOf(s')| <= max {
      WholeView(rumors, ViewOf(s'));
    }
  }

  lemma ViewSize(s: Store)
    requires Inv(s)
    ensures |ViewOf(s)| == |s.stable.queue| + |s.recent|
  {
    CardinalityOfSet(s.stable.queue);
    assert ViewOf(s).Keys == s.stable.nodes.Keys + s.recent.Keys;
    assert |ViewOf(s)| == |ViewOf(s).Keys| && |s.recent.Keys| == |s.recent|;
  }

  lemma SizeOfBoth(s: Store)
    requires Inv(s)
    ensures |ViewOf(s)| == |s.stable.nodes| + |s.recent|
  {
    ViewSize(s);
    CardinalityOfSet(s.stable.queue);
    assert |s.stable.nodes.Keys| == |s.stable.nodes|;
  }

  lemma BatchInView(batch: seq<Node>, s: Store)
    requires Inv(s) && IdSet(batch) <= s.recent.Keys
    requires forall r :: r in batch ==> NodesOf(s.recent)[r.id] == r
    ensures forall r :: r in batch ==> r.id in ViewOf(s) && ViewOf(s)[r.id] == r
  {
  }

  lemma FilledBatch(m: MemberState, num: nat, batch: seq<Node>, rumors: seq<Node>, s': Store)
    requires Inv(s') && Ordered(m) && batch <= rumors && FetchesStable(m, num, rumors[|batch|..], s'.stable)
    requires NoDup(IdsOf(batch)) && IdSet(batch) <= s'.recent.Keys
    requires forall r :: r in batch ==> NodesOf(s'.recent)[r.id] == r
    ensures NoDup(IdsOf(rumors))
    ensures |rumors| == |batch| + Min(num, |s'.stable.queue|)
    ensures forall r :: r in rumors ==> r.id in ViewOf(s') && ViewOf(s')[r.id] == r
  {
    var out := rumors[|batch|..];
    TakesTurnsOrdered(m.queue, num, IdsOf(out), s'.stable.queue);
    CardinalityOfSet(m.queue);
    CardinalityOfSet(s'.stable.queue);
    assert rumors == batch + out;
    BatchInView(batch, s');
    assert forall r :: r in out ==> r.id in s'.stable.nodes;
    NoDupAcross(batch, out);
  }

  lemma NoDupAcross(a: seq<Node>, b: seq<Node>)
    requires NoDup(IdsOf(a)) && NoDup(IdsOf(b)) && IdSet(a) !! IdSet(b)
    ensures NoDup(IdsOf(a + b))
  {
    assert IdsOf(a + b) == IdsOf(a) + IdsOf(b);
    assert forall i :: 0 <= i < |a| ==> a[i] in a && IdsOf(a)[i] in IdSet(a);
    assert forall i :: 0 <= i < |b| ==> b[i] in b && IdsOf(b)[i] in IdSet(b);
  }

  lemma WholeView(rumors: seq<Node>, v: View)
    requires NoDup(IdsOf(rumors)) && |rumors| == |v|
    requires forall r :: r in rumors ==> r.id in v && v[r.id] == r
    ensures ToSet(rumors) == v.Values
  {
    var ids := ToSet(IdsOf(rumors));
    CardinalityOfSet(IdsOf(rumors));
    assert ids <= v.Keys by {
      assert forall i :: 0 <= i < |rumors| ==> rumors[i] in rumors;
    }
    assert |v.Keys| == |v|;
    SubsetSize(ids, v.Keys);
    forall x | x in v.Values
      ensures x in rumors
    {
      var id :| id in v && v[id] == x;
      assert id in ids;
      var i :| 0 <= i < |rumors| && IdsOf(rumors)[i] == id;
      assert rumors[i] in rumors;
    }
  }

  /** A forgotten failure is no tombstone: any record of that id that arrives afterwards, however
      old, is taken in again. */
  lemma ForgottenMayReturn(s: Store, max: nat, limit: nat, rumors: seq<Node>, s': Store, r: Node)
    requires Inv(s) && Builds(s, max, limit, rumors, s')
    requires r.id in Forgotten(s, max, limit)
    ensures ViewOf(s)[r.id].status.Failed?
    ensures Inv(s') && ViewOf(Receive(s', r)) == ViewOf(s')[r.id := r]
    ensures !r.status.Failed? ==> RankAt(ViewOf(Receive(s', r)), r.id) < RankAt(ViewOf(s), r.id)
  {
    hide BuildsVia;
    BuildForgetsOnlyFailures(s, max, limit, rumors, s');
    ReceiveRefinesMerge(s', r);
  }

  // ----- Whole runs -----

  datatype Call = Update(rumors: seq<Node>) | Build(max: nat, limit: nat, rumors: seq<Node>)

  ghost predicate Step(s: Store, c: Call, s': Store)
    requires Inv(s)
  {
    match c
    case Update(rumors) => s' == ReceiveAll(s, rumors)
    case Build(max, limit, rumors) => Builds(s, max, limit, rumors, s')
  }

  /** The same calls on one plain map: merge, or send a batch and forget some FAILED records. */
  ghost predicate MapStep(v: View, c: Call, v': View)
    requires Keyed(v)
  {
    match c
    case Update(rumors) => v' == MergeAll(v, rumors)
    case Build(max, limit, rumors) =>
      && v' == v - (v.Keys - v'.Keys)
      && (forall id :: id in v && id !in v' ==> v[id].status.Failed?)
      && NoDup(IdsOf(rumors)) && |rumors| == Min(max, |v'|)
      && forall r :: r in rumors ==> r.id in v' && v'[r.id] == r
  }

  lemma ViewKeyed(s: Store)
    requires Inv(s)
    ensures Keyed(ViewOf(s))
  {
  }

  lemma BuildRefines(s: Store, max: nat, limit: nat, rumors: seq<Node>, s': Store)
    requires Inv(s) && Keyed(ViewOf(s)) && Builds(s, max, limit, rumors, s')
    ensures Inv(s') && MapStep(ViewOf(s), Build(max, limit, rumors), ViewOf(s'))
  {
    BatchCarriesTheView(s, max, limit, rumors, s');
    BuildForgetsOnlyFailures(s, max, limit, rumors, s');
    ForgottenAreFailed(s, max, limit);
    OnlyDropped(ViewOf(s), Forgotten(s, max, limit), ViewOf(s'));
  }

  lemma ForgottenAreFailed(s: Store, max: nat, limit: nat)
    requires Inv(s)
    ensures forall id :: id in Forgotten(s, max, limit) ==> id in ViewOf(s) && ViewOf(s)[id].status.Failed?
  {
  }

  lemma OnlyDropped(v: View, gone: set<string>, v': View)
    requires v' == v - gone && forall id :: id in gone ==> id in v && v[id].status.Failed?
    ensures v' == v - (v.Keys - v'.Keys)
    ensures forall id :: id in v && id !in v' ==> v[id].status.Failed?
  {
    assert v.Keys - v'.Keys == gone;
  }

  lemma StepRefinesMapStep(s: Store, c: Call, s': Store)
    requires Inv(s) && Step(s, c, s')
    ensures Inv(s')
    ensures Keyed(ViewOf(s)) && MapStep(ViewOf(s), c, ViewOf(s'))
  {
    ViewKeyed(s);
    match c
    case Update(rumors) => UpdateRefinesMergeAll(s, rumors);
    case Build(max, limit, rumors) => BuildRefines(s, max, limit, rumors, s');
  }

  /** A run from the empty store. */
  ghost predicate Run(ss: seq<Store>, cs: seq<Call>) {
    && |ss| == |cs| + 1 && ss[0] == EMPTY
    && forall i :: 0 <= i < |cs| ==> Inv(ss[i]) ==> Step(ss[i], cs[i], ss[i + 1])
  }

  lemma {:induction false} RunInv(ss: seq<Store>, cs: seq<Call>, k: nat)
    requires Run(ss, cs) && k <= |cs|
    ensures Inv(ss[k])
  {
    if k > 0 {
      RunInv(ss, cs, k - 1);
      StepKeepsInv(ss[k - 1], cs[k - 1], ss[k]);
    }
  }

  lemma StepKeepsInv(s: Store, c: Call, s': Store)
    requires Inv(s) && Step(s, c, s')
    ensures Inv(s')
  {
    StepRefinesMapStep(s, c, s');
  }

  lemma StepOfRun(ss: seq<Store>, cs: seq<Call>, k: nat)
    requires Run(ss, cs) && k < |cs|
    ensures Inv(ss[k]) && Step(ss[k], cs[k], ss[k + 1])
  {
    RunInv(ss, cs, k);
  }

  lemma StepRefines(ss: seq<Store>, cs: seq<Call>, k: nat)
    requires Run(ss, cs) && k < |cs|
    ensures Keyed(ViewOf(ss[k])) && MapStep(ViewOf(ss[k]), cs[k], ViewOf(ss[k + 1]))
    ensures cs[k].Build? ==> ViewOf(ss[k + 1]) == ViewOf(ss[k]) - Forgotten(ss[k], cs[k].max, cs[k].limit)
  {
    StepOfRun(ss, cs, k);
    StepRefinesMapStep(ss[k], cs[k], ss[k + 1]);
    BuildInStep(ss[k], cs[k], ss[k + 1]);
  }

  /** At every moment of every run, whatever is built next: the assertions hold. */
  lemma AssertionsNeverFail(ss: seq<Store>, cs: seq<Call>, k: nat, max: nat, limit: nat, t: Tally,
                            path: seq<MemberState>)
    requires Run(ss, cs) && k <= |cs|
    requires Selects(ss[k].recent, max, limit, t) && Absorbs(path, t.stable) && path[0] == ss[k].stable
    ensures forall i :: 0 <= i < |t.stable| ==> t.stable[i].id !in path[i].nodes
    ensures |t.recent| <= max
  {
    RunInv(ss, cs, k);
    AssertionsHold(ss[k], max, limit, t, path);
  }

  /** Over every run the invariant holds and the two-tier store refines the one map. */
  lemma RunRefinesMap(ss: seq<Store>, cs: seq<Call>, k: nat)
    requires Run(ss, cs) && k <= |cs|
    ensures Inv(ss[k])
    ensures forall i :: 0 <= i < k ==>
      Keyed(ViewOf(ss[i])) && MapStep(ViewOf(ss[i]), cs[i], ViewOf(ss[i + 1]))
    ensures forall i :: 0 <= i < k && cs[i].Build? ==>
      ViewOf(ss[i + 1]) == ViewOf(ss[i]) - Forgotten(ss[i], cs[i].max, cs[i].limit)
  {
    RunInv(ss, cs, k);
    hide ViewOf;
    hide Step;
    forall i | 0 <= i < k
      ensures Keyed(ViewOf(ss[i])) && MapStep(ViewOf(ss[i]), cs[i], ViewOf(ss[i + 1]))
      ensures cs[i].Build? ==> ViewOf(ss[i + 1]) == ViewOf(ss[i]) - Forgotten(ss[i], cs[i].max, cs[i].limit)
    {
      StepRefines(ss, cs, i);
    }
  }

  lemma BuildInStep(s: Store, c: Call, s': Store)
    requires Inv(s) && Step(s, c, s')
    ensures c.Build? ==> ViewOf(s') == ViewOf(s) - Forgotten(s, c.max, c.limit)
  {
    if c.Build? {
      BuildForgetsOnlyFailures(s, c.max, c.limit, c.rumors, s');
    }
  }

  // ----- The input at which the assertion of MemberSet::_fetch fails -----

  lemma FirstBuild(a: Node)
    ensures Receive(EMPTY, a) == Store(MemberState(map[], []), map[a.id := Member(a, 0)])
    ensures
      var s := Store(MemberState(map[], []), map[a.id := Member(a, 0)]);
      Builds(s, 1, 1, [a], Store(s.stable, map[a.id := Member(a, 1)]))
  {
    var ms := map[a.id := Member(a, 0)];
    var s := Store(MemberState(map[], []), ms);
    assert Eligible(ms, 1) == {a.id};
    assert IdSet([a]) == {a.id} && Lists([a], ms, {a.id});
    assert Counted(ms, {a.id}) == map[a.id := Member(a, 1)];
    assert BuildsVia(s, 1, 1, [a], Store(s.stable, map[a.id := Member(a, 1)]), [a], [], [s.stable]);
  }

  lemma SecondBuild(a: Node)
    requires !a.status.Failed?
    ensures
      var s, stable := Store(MemberState(map[], []), map[a.id := Member(a, 1)]), MemberState(map[a.id := a], [a.id]);
      BuildsVia(s, 1, 1, [a], Store(stable, map[]), [], [a], [s.stable, stable])
  {
    hide Selects;
    hide Absorbs;
    hide FillsUp;
    SettlesOne(a);
    AbsorbsOne(a);
    FillOfOne(a);
  }

  lemma SettlesOne(a: Node)
    requires !a.status.Failed?
    ensures Selects(map[a.id := Member(a, 1)], 1, 1, Tally([], [a], map[]))
  {
    var ms := map[a.id := Member(a, 1)];
    assert Eligible(ms, 1) == {} && Settling(ms, 1) == {a.id};
    assert IdSet([a]) == {a.id} && Lists([a], ms, {a.id}) && Lists([], ms, {});
  }

  lemma AbsorbsOne(a: Node)
    ensures Absorbs([MemberState(map[], []), MemberState(map[a.id := a], [a.id])], [a])
  {
    InsertedBetween([], a.id, []);
    assert [] + [a.id] + [] == [a.id];
  }

  lemma FillOfOne(a: Node)
    ensures FillsUp(MemberState(map[a.id := a], [a.id]), 1, [], [a], MemberState(map[a.id := a], [a.id]))
  {
    var rumors, q := [a], [a.id];
    assert rumors[0..] == rumors && IdsOf(rumors) == q;
    assert Rotation(q, 1) == q && q[..1] == q;
  }

  /** One live record and batches of one, each record spread once: the second build finds it spread
      enough, makes it stable, and asks the stable set for as many members as it then has. */
  lemma WrittenBoundFailsAt(a: Node)
    returns (ss: seq<Store>, cs: seq<Call>, batch: seq<Node>, settled: seq<Node>, path: seq<MemberState>)
    requires !a.status.Failed?
    ensures cs == [Update([a]), Build(1, 1, [a]), Build(1, 1, [a])] && Run(ss, cs)
    ensures BuildsVia(ss[2], 1, 1, [a], ss[3], batch, settled, path)
    ensures |batch| < 1 && 1 - |batch| == |path[|settled|].nodes|
  {
    var stable := MemberState(map[a.id := a], [a.id]);
    var s1 := Store(MemberState(map[], []), map[a.id := Member(a, 0)]);
    var s2 := Store(MemberState(map[], []), map[a.id := Member(a, 1)]);
    ss, cs := [EMPTY, s1, s2, Store(stable, map[])], [Update([a]), Build(1, 1, [a]), Build(1, 1, [a])];
    batch, settled, path := [], [a], [s2.stable, stable];
    assert [a][..0] == [];
    assert ReceiveAll(EMPTY, [a]) == Receive(EMPTY, a);
    FirstBuild(a);
    SecondBuild(a);
    assert Builds(s2, 1, 1, [a], Store(stable, map[]));
    assert Step(EMPTY, cs[0], s1);
    assert forall i :: 0 <= i < 3 ==> Inv(ss[i]) ==> Step(ss[i], cs[i], ss[i + 1]);
  }
}
