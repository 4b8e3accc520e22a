/** What the contract of RecentlyUpdatedSet::fetch gives over whole runs: how soon the set drains,
    what comes out, how evenly records are spread, and what the counters count
    (src/sw/gossip-net/recently_updated_set.cpp). */
module Spreading {
  import opened Arithmetic
  import opened Nodes
  import opened RecentlyUpdated

  // ----- Runs of fetches and nothing added -----

  /** One call on the set, with what it yielded. */
  datatype Event = Noted(node: Node) | Spread(n: nat, limit: nat, t: Tally)

  /** Fetches with any n and any limits, one after the other, and nothing added. */
  ghost predicate Fetches(mss: seq<Members>, es: seq<Event>) {
    && |mss| == |es| + 1
    && forall i :: 0 <= i < |es| ==>
         es[i].Spread? && Selects(mss[i], es[i].n, es[i].limit, es[i].t) && mss[i + 1] == es[i].t.members
  }

  // ----- Runs of fetches with fixed n and limit -----

  ghost predicate Run(ms: Members, ts: seq<Tally>, n: nat, limit: nat) {
    ts == [] || (Selects(ms, n, limit, ts[0]) && Run(ts[0].members, ts[1..], n, limit))
  }

  function Last(ms: Members, ts: seq<Tally>): Members {
    if ts == [] then ms else ts[|ts| - 1].members
  }

  /** The records that became stable, in order. */
  function StableOf(ts: seq<Tally>): seq<Node> {
    if ts == [] then [] else StableOf(ts[..|ts| - 1]) + ts[|ts| - 1].stable
  }

  /** How often a record still has to be emitted. */
  function Owed(m: Member, limit: nat): nat {
    if m.counter < limit then limit - m.counter else 0
  }

  ghost function OwedBy(ms: Members, ids: set<string>, limit: nat): nat
    requires ids <= ms.Keys
  {
    if ids == {} then 0
    else
      var id :| id in ids;
      Owed(ms[id], limit) + OwedBy(ms, ids - {id}, limit)
  }

  ghost function Deficit(ms: Members, limit: nat): nat {
    OwedBy(ms, ms.Keys, limit)
  }

  lemma {:induction false} OwedBySplit(ms: Members, ids: set<string>, limit: nat, x: string)
    requires ids <= ms.Keys && x in ids
    ensures OwedBy(ms, ids, limit) == Owed(ms[x], limit) + OwedBy(ms, ids - {x}, limit)
  {
    var id :| id in ids && OwedBy(ms, ids, limit) == Owed(ms[id], limit) + OwedBy(ms, ids - {id}, limit);
    if id != x {
      OwedBySplit(ms, ids - {id}, limit, x);
      OwedBySplit(ms, ids - {x}, limit, id);
      assert ids - {id} - {x} == ids - {x} - {id};
    }
  }

  /** Emitting records lowers the deficit by exactly their number. */
  lemma {:induction false} OwedByCounted(ms: Members, ids: set<string>, emitted: set<string>, limit: nat)
    requires ids <= ms.Keys && emitted <= Eligible(ms, limit)
    ensures OwedBy(Counted(ms, emitted), ids, limit) + |emitted * ids| == OwedBy(ms, ids, limit)
  {
    if ids == {} {
      assert emitted * ids == {};
    } else {
      var x :| x in ids;
      OwedByCounted(ms, ids - {x}, emitted, limit);
      OwedBySplit(ms, ids, limit, x);
      OwedBySplit(Counted(ms, emitted), ids, limit, x);
      OneEmitted(ms, emitted, ids, limit, x);
    }
  }

  lemma OneEmitted(ms: Members, emitted: set<string>, ids: set<string>, limit: nat, x: string)
    requires ids <= ms.Keys && emitted <= Eligible(ms, limit) && x in ids
    ensures Owed(Counted(ms, emitted)[x], limit) + |emitted * ids| == Owed(ms[x], limit) + |emitted * (ids - {x})|
  {
    if x in emitted {
      assert x in Eligible(ms, limit);
      assert emitted * ids == emitted * (ids - {x}) + {x};
    } else {
      assert emitted * ids == emitted * (ids - {x});
    }
  }

  lemma FullCall(ms: Members, n: nat, limit: nat, t: Tally)
    requires Selects(ms, n, limit, t) && n <= |Eligible(ms, limit)|
    ensures Deficit(t.members, limit) + n == Deficit(ms, limit)
  {
    var emitted := IdSet(t.recent);
    ListsSize(t.recent, ms, emitted);
    OwedByCounted(ms, ms.Keys, emitted, limit);
    assert t.members.Keys == ms.Keys;
    assert emitted * ms.Keys == emitted;
  }

  ghost predicate AtLeast(ms: Members, k: nat) {
    forall id :: id in ms ==> k <= ms[id].counter
  }

  lemma ShortCallShape(ms: Members, n: nat, limit: nat, t: Tally)
    requires Selects(ms, n, limit, t) && |Eligible(ms, limit)| < n
    ensures t.members.Keys == Eligible(ms, limit)
    ensures forall id :: id in t.members ==> t.members[id] == Bump(ms[id])
  {
    ShortKeepsEligible(ms, n, limit, t);
  }

  lemma ShortCall(ms: Members, n: nat, limit: nat, t: Tally, k: nat)
    requires t.members.Keys == Eligible(ms, limit) && |Eligible(ms, limit)| < n
    requires forall id :: id in t.members ==> t.members[id] == Bump(ms[id])
    requires AtLeast(ms, k) && k <= limit
    ensures AtLeast(t.members, k + 1)
    ensures |Eligible(t.members, limit)| < n
    ensures k == limit ==> t.members == map[]
  {
    SubsetSize(Eligible(t.members, limit), Eligible(ms, limit));
    if k == limit {
      assert Eligible(ms, limit) == {};
    }
  }

  lemma {:induction false} EmptyStaysEmpty(ts: seq<Tally>, n: nat, limit: nat)
    requires Run(map[], ts, n, limit)
    ensures Last(map[], ts) == map[]
  {
    if ts != [] {
      assert Eligible(map[], limit) == {};
      assert ts[0].members == map[] by {
        assert ts[0].members.Keys <= {};
      }
      EmptyStaysEmpty(ts[1..], n, limit);
    }
  }

  lemma ShortCallStep(ms: Members, n: nat, limit: nat, t: Tally, k: nat)
    requires Selects(ms, n, limit, t) && |Eligible(ms, limit)| < n && AtLeast(ms, k) && k <= limit
    ensures AtLeast(t.members, k + 1) && |Eligible(t.members, limit)| < n
    ensures k == limit ==> t.members == map[]
  {
    ShortCallShape(ms, n, limit, t);
    ShortCall(ms, n, limit, t, k);
  }

  lemma {:induction false} ShortCallsDrain(ms: Members, ts: seq<Tally>, n: nat, limit: nat, k: nat)
    requires Run(ms, ts, n, limit) && |Eligible(ms, limit)| < n
    requires AtLeast(ms, k) && k <= limit && |ts| + k >= limit + 1
    ensures Last(ms, ts) == map[]
    decreases |ts|
  {
    var next, rest := ts[0].members, ts[1..];
    ShortCallStep(ms, n, limit, ts[0], k);
    if k == limit {
      EmptyStaysEmpty(rest, n, limit);
    } else {
      ShortCallsDrain(next, rest, n, limit, k + 1);
    }
    assert Last(ms, ts) == Last(next, rest);
  }

  /** How many full batches the deficit can still feed. */
  ghost function FullBatches(ms: Members, n: nat, limit: nat): nat
    requires n >= 1
  {
    Deficit(ms, limit) / n
  }

  lemma FullCallUsesABatch(ms: Members, n: nat, limit: nat, t: Tally)
    requires n >= 1 && Selects(ms, n, limit, t) && n <= |Eligible(ms, limit)|
    ensures FullBatches(t.members, n, limit) == FullBatches(ms, n, limit) - 1
  {
    FullCall(ms, n, limit, t);
    DivideOff(Deficit(ms, limit), n);
  }

  /** With nothing added, Deficit / n + limit + 1 fetches of n empty the set. */
  lemma {:induction false} DrainBound(ms: Members, ts: seq<Tally>, n: nat, limit: nat)
    requires n >= 1 && Run(ms, ts, n, limit)
    requires |ts| >= FullBatches(ms, n, limit) + limit + 1
    ensures Last(ms, ts) == map[]
    decreases |ts|
  {
    hide Selects;
    assert Selects(ms, n, limit, ts[0]);
    if n <= |Eligible(ms, limit)| {
      FullCallUsesABatch(ms, n, limit, ts[0]);
      DrainBound(ts[0].members, ts[1..], n, limit);
    } else {
      ShortCallsDrain(ms, ts, n, limit, 0);
    }
  }

  // ----- What comes out -----

  /** The members that are not FAILED. */
  function Live(ms: Members): set<string> {
    set id | id in ms && !ms[id].node.status.Failed?
  }

  lemma ListsConcat(a: seq<Node>, b: seq<Node>, ms: Members, x: set<string>, y: set<string>)
    requires Lists(a, ms, x) && Lists(b, ms, y) && x !! y
    ensures Lists(a + b, ms, x + y)
  {
    assert IdsOf(a + b) == IdsOf(a) + IdsOf(b);
    assert forall i :: 0 <= i < |a| ==> IdsOf(a)[i] in x by {
      assert forall i :: 0 <= i < |a| ==> a[i] in a && a[i].id in IdSet(a);
    }
    assert forall i :: 0 <= i < |b| ==> IdsOf(b)[i] in y by {
      assert forall i :: 0 <= i < |b| ==> b[i] in b && b[i].id in IdSet(b);
    }
    assert IdSet(a + b) == IdSet(a) + IdSet(b);
  }

  /** A fetch leaves every record as it is, and the live ones it takes out are the stable ones. */
  lemma LiveStep(ms: Members, n: nat, limit: nat, t: Tally)
    requires Selects(ms, n, limit, t)
    ensures t.members.Keys <= ms.Keys
    ensures forall id :: id in t.members ==> t.members[id].node == ms[id].node
    ensures Lists(t.stable, ms, Live(ms) - Live(t.members))
  {
    if |t.recent| == n {
      assert Live(t.members) == Live(ms);
      assert Lists([], ms, {});
    } else {
      assert Settling(ms, limit) == Live(ms) - Live(t.members);
    }
  }

  function StableIn(es: seq<Event>, k: nat): seq<Node>
    requires k <= |es| && forall i :: 0 <= i < |es| ==> es[i].Spread?
  {
    if k == 0 then [] else StableIn(es, k - 1) + es[k - 1].t.stable
  }

  /** Over any run of fetches, whatever n and limit each is given, the records turned stable are, each
      once and unchanged, the records not FAILED that have left. */
  lemma {:induction false} LiveLeaveOnce(mss: seq<Members>, es: seq<Event>, k: nat)
    requires Fetches(mss, es) && k <= |es|
    ensures mss[k].Keys <= mss[0].Keys && forall id :: id in mss[k] ==> mss[k][id].node == mss[0][id].node
    ensures Lists(StableIn(es, k), mss[0], Live(mss[0]) - Live(mss[k]))
  {
    if k == 0 {
      assert Lists([], mss[0], {});
      assert Live(mss[0]) - Live(mss[0]) == {};
    } else {
      LiveLeaveOnce(mss, es, k - 1);
      var e := es[k - 1];
      assert Selects(mss[k - 1], e.n, e.limit, e.t) && mss[k] == e.t.members;
      LeftSoFar(mss[0], mss[k - 1], StableIn(es, k - 1), e.n, e.limit, e.t);
    }
  }

  lemma LeftSoFar(ms: Members, mid: Members, before: seq<Node>, n: nat, limit: nat, t: Tally)
    requires mid.Keys <= ms.Keys && forall id :: id in mid ==> mid[id].node == ms[id].node
    requires Lists(before, ms, Live(ms) - Live(mid)) && Selects(mid, n, limit, t)
    ensures t.members.Keys <= ms.Keys && forall id :: id in t.members ==> t.members[id].node == ms[id].node
    ensures Lists(before + t.stable, ms, Live(ms) - Live(t.members))
  {
    hide Lists;
    hide Selects;
    LiveStep(mid, n, limit, t);
    ListsCarries(t.stable, mid, ms, Live(mid) - Live(t.members));
    ListsConcat(before, t.stable, ms, Live(ms) - Live(mid), Live(mid) - Live(t.members));
    assert (Live(ms) - Live(mid)) + (Live(mid) - Live(t.members)) == Live(ms) - Live(t.members);
  }

  lemma ListsCarries(ns: seq<Node>, mid: Members, ms: Members, ids: set<string>)
    requires Lists(ns, mid, ids) && mid.Keys <= ms.Keys
    requires forall id :: id in mid ==> mid[id].node == ms[id].node
    ensures Lists(ns, ms, ids)
  {
  }

  // ----- Runs with fixed n and limit as runs of fetches -----

  function EventsOf(ts: seq<Tally>, n: nat, limit: nat): (es: seq<Event>)
    ensures |es| == |ts| && forall i :: 0 <= i < |ts| ==> es[i] == Spread(n, limit, ts[i])
  {
    seq(|ts|, i requires 0 <= i < |ts| => Spread(n, limit, ts[i]))
  }

  function MembersAt(ms: Members, ts: seq<Tally>, i: nat): Members
    requires i <= |ts|
  {
    if i == 0 then ms else ts[i - 1].members
  }

  lemma {:induction false} RunAt(ms: Members, ts: seq<Tally>, n: nat, limit: nat, i: nat)
    requires Run(ms, ts, n, limit) && i < |ts|
    ensures Selects(MembersAt(ms, ts, i), n, limit, ts[i])
  {
    if i > 0 {
      RunAt(ts[0].members, ts[1..], n, limit, i - 1);
      assert MembersAt(ts[0].members, ts[1..], i - 1) == MembersAt(ms, ts, i);
    }
  }

  lemma {:induction false} SameStable(ts: seq<Tally>, n: nat, limit: nat, k: nat)
    requires k <= |ts|
    ensures StableIn(EventsOf(ts, n, limit), k) == StableOf(ts[..k])
  {
    if k > 0 {
      SameStable(ts, n, limit, k - 1);
      assert ts[..k][..k - 1] == ts[..k - 1];
    }
  }

  lemma RunIsFetches(ms: Members, ts: seq<Tally>, n: nat, limit: nat) returns (mss: seq<Members>)
    requires Run(ms, ts, n, limit)
    ensures Fetches(mss, EventsOf(ts, n, limit)) && mss[0] == ms && mss[|ts|] == Last(ms, ts)
  {
    hide Selects;
    mss := seq(|ts| + 1, i requires 0 <= i <= |ts| => MembersAt(ms, ts, i));
    forall i | 0 <= i < |ts|
      ensures Selects(mss[i], n, limit, ts[i])
    {
      RunAt(ms, ts, n, limit, i);
    }
  }

  lemma RunLeavesOnce(ms: Members, ts: seq<Tally>, n: nat, limit: nat)
    requires Run(ms, ts, n, limit)
    ensures Lists(StableOf(ts), ms, Live(ms) - Live(Last(ms, ts)))
  {
    hide Lists;
    var mss := RunIsFetches(ms, ts, n, limit);
    LiveLeaveOnce(mss, EventsOf(ts, n, limit), |ts|);
    SameStable(ts, n, limit, |ts|);
    assert ts[..|ts|] == ts;
  }

  /** Once drained, every record that is not FAILED has come out as stable exactly once, unchanged. */
  lemma DrainedExactlyOnce(ms: Members, ts: seq<Tally>, n: nat, limit: nat)
    requires n >= 1 && Run(ms, ts, n, limit)
    requires |ts| >= FullBatches(ms, n, limit) + limit + 1
    ensures Lists(StableOf(ts), ms, Live(ms))
  {
    hide Lists;
    DrainBound(ms, ts, n, limit);
    RunLeavesOnce(ms, ts, n, limit);
    assert Live(ms) - Live(map[]) == Live(ms);
  }

  // ----- How evenly -----

  /** No record has been spread more than once oftener than another. */
  ghost predicate Even(ms: Members) {
    forall a, b :: a in ms && b in ms ==> ms[a].counter <= ms[b].counter + 1
  }

  /** Least-spread-first keeps the counters within one of each other, for any n and limit. */
  lemma FetchKeepsEven(ms: Members, n: nat, limit: nat, t: Tally)
    requires Selects(ms, n, limit, t) && Even(ms)
    ensures Even(t.members)
  {
    var emitted := IdSet(t.recent);
    forall a, b | a in t.members && b in t.members
      ensures t.members[a].counter <= t.members[b].counter + 1
    {
      if a in emitted && b !in emitted {
        assert a in Eligible(ms, limit);
        if b in Eligible(ms, limit) {
          assert b in Eligible(ms, limit) - emitted;
        }
      }
    }
  }

  /** Counters within one of each other stay so throughout, whatever n and limit each fetch is given. */
  lemma {:induction false} EvenThroughout(mss: seq<Members>, es: seq<Event>, k: nat)
    requires Fetches(mss, es) && k <= |es| && Even(mss[0])
    ensures Even(mss[k])
  {
    if k > 0 {
      EvenThroughout(mss, es, k - 1);
      FetchKeepsEven(mss[k - 1], es[k - 1].n, es[k - 1].limit, es[k - 1].t);
    }
  }

  // ----- What the counters count -----

  ghost predicate Step(ms: Members, e: Event, ms': Members)
    requires MembersKeyed(ms)
  {
    match e
    case Noted(node) => ms' == Added(ms, node)
    case Spread(n, limit, t) => Selects(ms, n, limit, t) && ms' == t.members
  }

  /** A run from the empty set, with any mix of additions and fetches and any limits. */
  ghost predicate History(mss: seq<Members>, es: seq<Event>) {
    && |mss| == |es| + 1 && mss[0] == map[]
    && forall i :: 0 <= i < |es| ==> MembersKeyed(mss[i]) ==> Step(mss[i], es[i], mss[i + 1])
  }

  lemma StepKeyed(ms: Members, e: Event, ms': Members)
    requires MembersKeyed(ms) && Step(ms, e, ms')
    ensures MembersKeyed(ms')
  {
  }

  /** At every moment each record is held under its own id. */
  lemma {:induction false} HistoryKeyed(mss: seq<Members>, es: seq<Event>, k: nat)
    requires History(mss, es) && k <= |es|
    ensures MembersKeyed(mss[k])
    ensures k < |es| ==> Step(mss[k], es[k], mss[k + 1])
  {
    if k > 0 {
      HistoryKeyed(mss, es, k - 1);
      StepKeyed(mss[k - 1], es[k - 1], mss[k]);
    }
  }

  /** The event sets the record of id: it inserts it or overrides the old one. */
  predicate Sets(ms: Members, e: Event, id: string)
    requires MembersKeyed(ms)
  {
    e.Noted? && e.node.id == id && (id in ms ==> Less(ms[id].node, e.node))
  }

  /** How often id has been emitted in the first k events since its record was last set. */
  function Emissions(mss: seq<Members>, es: seq<Event>, k: nat, id: string): nat
    requires History(mss, es) && k <= |es|
  {
    if k == 0 || (HistoryKeyed(mss, es, k - 1); Sets(mss[k - 1], es[k - 1], id)) then 0
    else
      Emissions(mss, es, k - 1, id) +
        if es[k - 1].Spread? && id in IdSet(es[k - 1].t.recent) then 1 else 0
  }

  /** The largest limit passed in the first k events since the record of id was last set. */
  function LargestLimit(mss: seq<Members>, es: seq<Event>, k: nat, id: string): nat
    requires History(mss, es) && k <= |es|
  {
    if k == 0 || (HistoryKeyed(mss, es, k - 1); Sets(mss[k - 1], es[k - 1], id)) then 0
    else
      var before := LargestLimit(mss, es, k - 1, id);
      if es[k - 1].Spread? && before < es[k - 1].limit then es[k - 1].limit else before
  }

  lemma SpreadStep(ms: Members, n: nat, limit: nat, t: Tally, id: string)
    requires Selects(ms, n, limit, t) && id in t.members
    ensures id in ms
    ensures t.members[id].counter == ms[id].counter + if id in IdSet(t.recent) then 1 else 0
    ensures id in IdSet(t.recent) ==> ms[id].counter < limit
  {
    if id in IdSet(t.recent) {
      assert id in Eligible(ms, limit);
    }
  }

  /** At every moment of a run with varying limits, a counter is the number of emissions of its
      record since it was last set, and at most the largest limit passed since then. */
  lemma {:induction false} CountersCountEmissions(mss: seq<Members>, es: seq<Event>, k: nat, id: string)
    requires History(mss, es) && k <= |es| && id in mss[k]
    ensures mss[k][id].counter == Emissions(mss, es, k, id)
    ensures mss[k][id].counter <= LargestLimit(mss, es, k, id)
  {
    hide Selects;
    if k > 0 {
      var ms, e := mss[k - 1], es[k - 1];
      HistoryKeyed(mss, es, k - 1);
      if !Sets(ms, e, id) {
        if e.Spread? {
          SpreadStep(ms, e.n, e.limit, e.t, id);
        }
        CountersCountEmissions(mss, es, k - 1, id);
      }
    }
  }

  /** A record leaves the set only in a fetch and only when it has been emitted at least as often
      as the limit passed then; exactly as often when no larger limit was passed before. */
  lemma LeavesOnlyWhenSpread(mss: seq<Members>, es: seq<Event>, k: nat, id: string)
    requires History(mss, es) && k < |es| && id in mss[k] && id !in mss[k + 1]
    ensures es[k].Spread? && es[k].limit <= Emissions(mss, es, k, id)
    ensures LargestLimit(mss, es, k, id) <= es[k].limit ==> Emissions(mss, es, k, id) == es[k].limit
  {
    HistoryKeyed(mss, es, k);
    CountersCountEmissions(mss, es, k, id);
    if es[k].Spread? {
      EligibleStay(mss[k], es[k].n, es[k].limit, es[k].t);
      assert id !in Eligible(mss[k], es[k].limit);
    }
  }

  lemma EligibleStay(ms: Members, n: nat, limit: nat, t: Tally)
    requires Selects(ms, n, limit, t)
    ensures Eligible(ms, limit) <= t.members.Keys
  {
  }
}
