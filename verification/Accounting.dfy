/** What the counters of the recent set mean for the whole store: how often a record has been carried
    before it is forgotten, and how soon builds alone leave every record stable
    (src/sw/gossip-net/gossip_net.cpp, update and _build_rumors;
    src/sw/gossip-net/recently_updated_set.cpp). */
module Accounting {
  import opened Nodes
  import opened Views
  import opened RecentlyUpdated
  import opened Stores
  import Carrying
  import Spreading

  // ----- One call -----

  /** The call sets the record of id: what is held for it now overrides what was held before. */
  predicate Sets(s: Store, c: Call, s': Store, id: string) {
    c.Update? && RankAt(ViewOf(s), id) < RankAt(ViewOf(s'), id)
  }

  /** The call is a build whose batch carries id. */
  predicate Carries(c: Call, id: string) {
    c.Build? && id in IdSet(c.rumors)
  }

  /** Where the store keeps a record: nowhere, among the stable ones, or among the recent ones with the
      number of times it has been spread. */
  datatype Place = Nowhere | InStable(node: Node) | InRecent(node: Node, counter: nat)

  function PlaceOf(s: Store, id: string): Place {
    if id in s.stable.nodes then InStable(s.stable.nodes[id])
    else if id in s.recent then InRecent(s.recent[id].node, s.recent[id].counter)
    else Nowhere
  }

  lemma ReceivePlaces(s: Store, rumor: Node, id: string)
    requires Inv(s)
    ensures
      var s' := Receive(s, rumor);
      && RankAt(ViewOf(s), id) <= RankAt(ViewOf(s'), id)
      && (RankAt(ViewOf(s), id) < RankAt(ViewOf(s'), id) ==>
            rumor.id == id && PlaceOf(s', id) == InRecent(rumor, 0))
      && (RankAt(ViewOf(s), id) == RankAt(ViewOf(s'), id) ==> PlaceOf(s', id) == PlaceOf(s, id))
  {
    if rumor.id in ViewOf(s) {
      ViewKeyed(s);
      LessIsRankOrder(ViewOf(s)[rumor.id], rumor);
    }
  }

  /** What is heard moves a record exactly when it overrides it or is the first of its id: it is then
      recent, no longer stable, and has not been spread. Every other record stays where it is. */
  lemma {:induction false} UpdatePlaces(s: Store, rumors: seq<Node>, id: string)
    requires Inv(s)
    ensures
      var s' := ReceiveAll(s, rumors);
      && RankAt(ViewOf(s), id) <= RankAt(ViewOf(s'), id)
      && (RankAt(ViewOf(s), id) < RankAt(ViewOf(s'), id) ==>
            id in ViewOf(s') && ViewOf(s')[id] in rumors && PlaceOf(s', id) == InRecent(ViewOf(s')[id], 0))
      && (RankAt(ViewOf(s), id) == RankAt(ViewOf(s'), id) ==> PlaceOf(s', id) == PlaceOf(s, id))
  {
    if rumors != [] {
      var init, last := rumors[..|rumors| - 1], rumors[|rumors| - 1];
      UpdatePlaces(s, init, id);
      ReceivePlaces(ReceiveAll(s, init), last, id);
      PlaceInView(ReceiveAll(s, init), id);
      PlaceInView(ReceiveAll(s, rumors), id);
      hide Receive;
      hide ViewOf;
      hide PlaceOf;
    }
  }

  /** A record whose rank has risen is recent, with nothing counted; any other one is where it was. */
  ghost predicate MovesIfSet(s: Store, s': Store, id: string) {
    if RankAt(ViewOf(s), id) < RankAt(ViewOf(s'), id) then
      id in ViewOf(s') && PlaceOf(s', id) == InRecent(ViewOf(s')[id], 0)
    else PlaceOf(s', id) == PlaceOf(s, id)
  }

  lemma UpdateMoves(s: Store, rumors: seq<Node>)
    requires Inv(s)
    ensures forall id :: MovesIfSet(s, ReceiveAll(s, rumors), id)
  {
    forall id
      ensures MovesIfSet(s, ReceiveAll(s, rumors), id)
    {
      UpdatePlaces(s, rumors, id);
    }
  }

  lemma PlaceInView(s: Store, id: string)
    requires Inv(s)
    ensures id in ViewOf(s) <==> !PlaceOf(s, id).Nowhere?
    ensures id in ViewOf(s) ==> ViewOf(s)[id] == PlaceOf(s, id).node
    ensures PlaceOf(s, id).InStable? <==> id in s.stable.nodes
    ensures PlaceOf(s, id).InRecent? <==> id in s.recent
  {
  }

  lemma BuildCounter(s: Store, max: nat, limit: nat, rumors: seq<Node>, s': Store, id: string)
    requires Inv(s) && Builds(s, max, limit, rumors, s') && id in s'.recent
    ensures id in s.recent && s'.recent[id].node == s.recent[id].node
    ensures s'.recent[id].counter == s.recent[id].counter + if Carries(Build(max, limit, rumors), id) then 1 else 0
  {
    var batch, settled, path :| BuildsVia(s, max, limit, rumors, s', batch, settled, path);
    var t := Tally(batch, settled, s'.recent);
    BuildForgetsOnlyFailures(s, max, limit, rumors, s');
    PathEnd(s, max, limit, t, path);
    Carrying.FilledIds(path[|settled|], max, batch, rumors, s'.stable);
    FilledUpWith(batch, rumors);
    Spreading.SpreadStep(s.recent, max, limit, t, id);
  }

  lemma FilledUpWith(batch: seq<Node>, rumors: seq<Node>)
    requires batch <= rumors
    ensures IdSet(rumors) == IdSet(batch) + IdSet(rumors[|batch|..])
  {
    assert rumors == batch + rumors[|batch|..];
  }

  /** Which records a build keeps recent: all but, when its batch is short, those spread enough. */
  lemma BuildKeepsRecent(s: Store, max: nat, limit: nat, rumors: seq<Node>, s': Store, id: string)
    requires Inv(s) && Builds(s, max, limit, rumors, s')
    ensures id in s'.recent <==>
      id in s.recent && (s.recent[id].counter < limit || |Eligible(s.recent, limit)| >= max)
  {
    var batch, settled, path :| BuildsVia(s, max, limit, rumors, s', batch, settled, path);
    FetchSplits(s, max, limit, Tally(batch, settled, s'.recent));
  }

  /** Where a record is after a build that carries it or not. */
  function Onwards(place: Place, short: bool, limit: nat, carried: bool): Place {
    match place
    case Nowhere => Nowhere
    case InStable(node) => InStable(node)
    case InRecent(node, counter) =>
      if !short || counter < limit then InRecent(node, counter + if carried then 1 else 0)
      else if node.status.Failed? then Nowhere
      else InStable(node)
  }

  /** A build moves a record exactly when its batch is short and the record is recent and spread enough:
      it is then stable, or nowhere if it is FAILED. A record that stays recent counts the batch that
      carries it, and a stable one stays as it is. */
  lemma BuildPlaces(s: Store, max: nat, limit: nat, rumors: seq<Node>, s': Store, id: string)
    requires Inv(s) && Builds(s, max, limit, rumors, s')
    ensures PlaceOf(s', id)
         == Onwards(PlaceOf(s, id), |Eligible(s.recent, limit)| < max, limit, Carries(Build(max, limit, rumors), id))
  {
    BuildForgetsOnlyFailures(s, max, limit, rumors, s');
    BuildKeepsRecent(s, max, limit, rumors, s', id);
    PlaceInView(s, id);
    PlaceInView(s', id);
    if id in s'.recent {
      BuildCounter(s, max, limit, rumors, s', id);
    } else if id in s.stable.nodes {
      StableStays(s, max, limit, rumors, s', id);
    }
  }

  lemma StableStays(s: Store, max: nat, limit: nat, rumors: seq<Node>, s': Store, id: string)
    requires Inv(s) && Builds(s, max, limit, rumors, s') && id in s.stable.nodes
    ensures id in ViewOf(s') && ViewOf(s')[id] == s.stable.nodes[id]
  {
    BuildForgetsOnlyFailures(s, max, limit, rumors, s');
    assert id !in Forgotten(s, max, limit);
  }

  // ----- Whole runs -----

  /** How many batches have carried id in the first k calls since its record was last set. */
  function CarriedSince(ss: seq<Store>, cs: seq<Call>, k: nat, id: string): nat
    requires |ss| == |cs| + 1 && k <= |cs|
  {
    if k == 0 || Sets(ss[k - 1], cs[k - 1], ss[k], id) then 0
    else CarriedSince(ss, cs, k - 1, id) + if Carries(cs[k - 1], id) then 1 else 0
  }

  /** A call that sets a record makes it recent, with no batch counted yet, whether it was stable, recent
      or unknown before; any other call leaves the count of a recent record as it is, but for the batch
      it carries it in. */
  lemma CounterStep(s: Store, c: Call, s': Store, id: string)
    requires Inv(s) && Stores.Step(s, c, s')
    ensures Sets(s, c, s', id) ==> id in s'.recent && s'.recent[id].counter == 0 && id !in s'.stable.nodes
    ensures !Sets(s, c, s', id) && id in s'.recent ==>
      id in s.recent && s'.recent[id].counter == s.recent[id].counter + if Carries(c, id) then 1 else 0
  {
    match c
    case Update(rumors) =>
      UpdatePlaces(s, rumors, id);
      PlaceInView(s, id);
      PlaceInView(s', id);
    case Build(max, limit, rumors) =>
      if id in s'.recent {
        BuildCounter(s, max, limit, rumors, s', id);
      }
  }

  /** In every run the counter of a recent record is the number of batches that have carried it since it
      was last set. */
  lemma {:induction false} RecentCountsBatches(ss: seq<Store>, cs: seq<Call>, k: nat, id: string)
    requires Stores.Run(ss, cs) && k <= |cs| && id in ss[k].recent
    ensures ss[k].recent[id].counter == CarriedSince(ss, cs, k, id)
  {
    hide Sets;
    hide Carries;
    if k > 0 {
      StepOfRun(ss, cs, k - 1);
      CounterStep(ss[k - 1], cs[k - 1], ss[k], id);
      if !Sets(ss[k - 1], cs[k - 1], ss[k], id) {
        RecentCountsBatches(ss, cs, k - 1, id);
      }
    }
  }

  /** A record has been spread enough for a build whose batch is short: it is recent, and at least as many
      batches as the limit says have carried it since it was set. */
  ghost predicate SpentBy(ss: seq<Store>, cs: seq<Call>, k: nat, id: string)
    requires |ss| == |cs| + 1 && k < |cs|
  {
    && cs[k].Build? && |Eligible(ss[k].recent, cs[k].limit)| < cs[k].max
    && id in ss[k].recent && cs[k].limit <= CarriedSince(ss, cs, k, id)
  }

  /** The life of a record in every run, call by call. It becomes recent exactly when a call sets it; it
      leaves the recent ones exactly when a build with a short batch finds it spread enough, for the
      stable ones, or for good if it is FAILED; and it stays what and where it is otherwise. */
  lemma LifeOfARecord(ss: seq<Store>, cs: seq<Call>, k: nat, id: string)
    requires Stores.Run(ss, cs) && k < |cs|
    ensures Sets(ss[k], cs[k], ss[k + 1], id) ==> PlaceOf(ss[k + 1], id) == InRecent(ViewOf(ss[k + 1])[id], 0)
    ensures SpentBy(ss, cs, k, id) ==>
      var node := ViewOf(ss[k])[id];
      PlaceOf(ss[k + 1], id) == if node.status.Failed? then Nowhere else InStable(node)
    ensures !Sets(ss[k], cs[k], ss[k + 1], id) && !SpentBy(ss, cs, k, id) ==>
      PlaceOf(ss[k + 1], id) ==
        match PlaceOf(ss[k], id)
        case InRecent(node, counter) => InRecent(node, counter + if Carries(cs[k], id) then 1 else 0)
        case other => other
  {
    StepOfRun(ss, cs, k);
    if id in ss[k].recent {
      RecentCountsBatches(ss, cs, k, id);
    }
    PlaceInView(ss[k], id);
    LifeInStep(ss[k], cs[k], ss[k + 1], id);
  }

  lemma LifeInStep(s: Store, c: Call, s': Store, id: string)
    requires Inv(s) && Stores.Step(s, c, s')
    ensures Sets(s, c, s', id) ==> id in ViewOf(s') && PlaceOf(s', id) == InRecent(ViewOf(s')[id], 0)
    ensures c.Update? && !Sets(s, c, s', id) ==> PlaceOf(s', id) == PlaceOf(s, id)
    ensures c.Build? ==>
      PlaceOf(s', id) == Onwards(PlaceOf(s, id), |Eligible(s.recent, c.limit)| < c.max, c.limit, Carries(c, id))
  {
    match c
    case Update(rumors) => UpdatePlaces(s, rumors, id);
    case Build(max, limit, rumors) => BuildPlaces(s, max, limit, rumors, s', id);
  }

  /** In every run a record is lost exactly when a build whose batch is short finds it FAILED and carried
      by at least as many batches as its limit says. */
  lemma LostExactlyWhen(ss: seq<Store>, cs: seq<Call>, k: nat, id: string)
    requires Stores.Run(ss, cs) && k < |cs| && id in ViewOf(ss[k])
    ensures id !in ViewOf(ss[k + 1]) <==> SpentBy(ss, cs, k, id) && ViewOf(ss[k])[id].status.Failed?
  {
    StepOfRun(ss, cs, k);
    RunInv(ss, cs, k + 1);
    LifeOfARecord(ss, cs, k, id);
    PlaceInView(ss[k], id);
    PlaceInView(ss[k + 1], id);
  }

  // ----- Builds alone -----

  /** Builds with fixed size and limit, and nothing heard in between. */
  ghost predicate BuildsAlone(ss: seq<Store>, rs: seq<seq<Node>>, n: nat, limit: nat) {
    && |ss| == |rs| + 1
    && forall i :: 0 <= i < |rs| ==> Builds(ss[i], n, limit, rs[i], ss[i + 1])
  }

  lemma {:induction false} BuildsFetch(ss: seq<Store>, rs: seq<seq<Node>>, n: nat, limit: nat) returns (ts: seq<Tally>)
    requires BuildsAlone(ss, rs, n, limit)
    ensures |ts| == |rs| && Spreading.Run(ss[0].recent, ts, n, limit)
    ensures Spreading.Last(ss[0].recent, ts) == ss[|rs|].recent
  {
    if rs == [] {
      ts := [];
    } else {
      assert Builds(ss[0], n, limit, rs[0], ss[1]);
      var batch, settled, path :| BuildsVia(ss[0], n, limit, rs[0], ss[1], batch, settled, path);
      assert BuildsAlone(ss[1..], rs[1..], n, limit) by {
        forall i | 0 <= i < |rs[1..]|
          ensures Builds(ss[1..][i], n, limit, rs[1..][i], ss[1..][i + 1])
        {
          assert Builds(ss[i + 1], n, limit, rs[i + 1], ss[i + 2]);
        }
      }
      var later := BuildsFetch(ss[1..], rs[1..], n, limit);
      ts := [Tally(batch, settled, ss[1].recent)] + later;
      assert ts[1..] == later;
    }
  }

  /** What builds alone keep: the invariant, every record as it is, and all that are not FAILED. */
  lemma {:induction false} BuildsKeepLive(ss: seq<Store>, rs: seq<seq<Node>>, n: nat, limit: nat, k: nat)
    requires BuildsAlone(ss, rs, n, limit) && Inv(ss[0]) && k <= |rs|
    ensures Inv(ss[k]) && ViewOf(ss[k]).Keys <= ViewOf(ss[0]).Keys
    ensures forall id :: id in ViewOf(ss[k]) ==> ViewOf(ss[k])[id] == ViewOf(ss[0])[id]
    ensures forall id :: id in ViewOf(ss[0]) && !ViewOf(ss[0])[id].status.Failed? ==> id in ViewOf(ss[k])
  {
    hide ViewOf;
    hide Inv;
    if k > 0 {
      BuildsKeepLive(ss, rs, n, limit, k - 1);
      assert Builds(ss[k - 1], n, limit, rs[k - 1], ss[k]);
      LiveStays(ss[k - 1], n, limit, rs[k - 1], ss[k]);
    }
  }

  lemma LiveStays(s: Store, n: nat, limit: nat, rumors: seq<Node>, s': Store)
    requires Inv(s) && Builds(s, n, limit, rumors, s')
    ensures Inv(s') && ViewOf(s').Keys <= ViewOf(s).Keys
    ensures forall id :: id in ViewOf(s') ==> ViewOf(s')[id] == ViewOf(s)[id]
    ensures forall id :: id in ViewOf(s) && !ViewOf(s)[id].status.Failed? ==> id in ViewOf(s')
  {
    BuildForgetsOnlyFailures(s, n, limit, rumors, s');
    ForgottenAreFailed(s, n, limit);
  }

  /** Within the drain bound builds alone make every record that is not FAILED stable, unchanged, forget
      every other one, and leave nothing to spread. */
  lemma BuildsSettleEverything(ss: seq<Store>, rs: seq<seq<Node>>, n: nat, limit: nat)
    requires n >= 1 && BuildsAlone(ss, rs, n, limit) && Inv(ss[0])
    requires |rs| >= Spreading.FullBatches(ss[0].recent, n, limit) + limit + 1
    ensures ss[|rs|].recent == map[]
    ensures ss[|rs|].stable.nodes
         == map id | id in ViewOf(ss[0]) && !ViewOf(ss[0])[id].status.Failed? :: ViewOf(ss[0])[id]
  {
    var ts := BuildsFetch(ss, rs, n, limit);
    Spreading.DrainBound(ss[0].recent, ts, n, limit);
    BuildsKeepLive(ss, rs, n, limit, |rs|);
    OnlyLiveAreStable(ss[0], ss[|rs|]);
  }

  lemma OnlyLiveAreStable(s: Store, s': Store)
    requires Inv(s') && s'.recent == map[] && ViewOf(s').Keys <= ViewOf(s).Keys
    requires forall id :: id in ViewOf(s') ==> ViewOf(s')[id] == ViewOf(s)[id]
    requires forall id :: id in ViewOf(s) && !ViewOf(s)[id].status.Failed? ==> id in ViewOf(s')
    ensures s'.stable.nodes == map id | id in ViewOf(s) && !ViewOf(s)[id].status.Failed? :: ViewOf(s)[id]
  {
    assert ViewOf(s') == s'.stable.nodes;
  }
}
