/** The recently updated members, each with the number of times it has been spread
    (src/sw/gossip-net/recently_updated_set.h, src/sw/gossip-net/recently_updated_set.cpp).

    The priority queue is modelled as repeated selection of a member with the least counter; which
    one is taken among equals, and the iteration order of the hash table, are left open. */
module RecentlyUpdated {
  import opened Nodes
  import opened Views

  datatype Member = Member(node: Node, counter: nat)

  type Members = map<string, Member>

  ghost predicate MembersKeyed(ms: Members) {
    forall id :: id in ms ==> ms[id].node.id == id
  }

  function NodesOf(ms: Members): View {
    map id | id in ms :: ms[id].node
  }

  function Bump(m: Member): Member {
    m.(counter := m.counter + 1)
  }

  /** Those that may still be spread. */
  function Eligible(ms: Members, limit: nat): set<string> {
    set id | id in ms && ms[id].counter < limit
  }

  /** Those that have been spread enough and are to become stable. */
  function Settling(ms: Members, limit: nat): set<string> {
    set id | id in ms && limit <= ms[id].counter && !ms[id].node.status.Failed?
  }

  function Added(ms: Members, node: Node): Members
    requires MembersKeyed(ms)
  {
    if node.id in ms && !Less(ms[node.id].node, node) then ms
    else ms[node.id := Member(node, 0)]
  }

  lemma AddedMerges(ms: Members, node: Node)
    requires MembersKeyed(ms)
    ensures MembersKeyed(Added(ms, node))
    ensures NodesOf(Added(ms, node)) == Merge(NodesOf(ms), node)
  {
  }

  /** ns lists the records of exactly these ids, each once. */
  ghost predicate Lists(ns: seq<Node>, ms: Members, ids: set<string>) {
    && NoDup(IdsOf(ns)) && IdSet(ns) == ids
    && forall n :: n in ns ==> n.id in ms && ms[n.id].node == n
  }

  function Min(a: nat, b: nat): nat {
    if a < b then a else b
  }

  /** What a fetch yields: the records to spread, those that became stable, and the members left. */
  datatype Tally = Tally(recent: seq<Node>, stable: seq<Node>, members: Members)

  /** A batch that only counts its members. */
  function Counted(ms: Members, ids: set<string>): Members {
    map id | id in ms :: if id in ids then Bump(ms[id]) else ms[id]
  }

  /** The contract of fetch(n, limit): exactly min(n, eligible) records are emitted, none of them
      spread more often than an eligible one left out. A full batch only counts its members; a
      short one also takes out every record that has been spread enough, the FAILED ones for good. */
  ghost predicate Selects(ms: Members, n: nat, limit: nat, t: Tally) {
    match t
    case Tally(recent, stable, left) =>
      var emitted, eligible := IdSet(recent), Eligible(ms, limit);
      && emitted <= eligible
      && Lists(recent, ms, emitted)
      && |recent| == Min(n, |eligible|)
      && (forall a, b :: a in emitted && b in eligible - emitted ==> ms[a].counter <= ms[b].counter)
      && if |recent| == n then
           stable == [] && left == Counted(ms, emitted)
         else
           Lists(stable, ms, Settling(ms, limit)) && left == Counted(ms, emitted) - (ms.Keys - eligible)
  }

  /** A short batch emits every eligible member and leaves no other. */
  lemma ShortKeepsEligible(ms: Members, n: nat, limit: nat, t: Tally)
    requires Selects(ms, n, limit, t) && |Eligible(ms, limit)| < n
    ensures IdSet(t.recent) == Eligible(ms, limit) == t.members.Keys
  {
    ListsSize(t.recent, ms, IdSet(t.recent));
    SubsetSize(IdSet(t.recent), Eligible(ms, limit));
  }

  // ----- The loops -----

  /** One turn of either loop: the counter goes up, and the member is emitted or taken out. */
  function Turn(t: Tally, id: string, limit: nat): Tally {
    if id !in t.members then t
    else
      var member := Bump(t.members[id]);
      if member.counter > limit then
        Tally(t.recent, if member.node.status.Failed? then t.stable else t.stable + [member.node], t.members - {id})
      else
        Tally(t.recent + [member.node], t.stable, t.members[id := member])
  }

  function Turns(ms: Members, order: seq<string>, limit: nat): Tally {
    if order == [] then Tally([], [], ms)
    else Turn(Turns(ms, order[..|order| - 1], limit), order[|order| - 1], limit)
  }

  /** Where a loop stands when it has dealt with the members in done. */
  ghost predicate Progress(ms: Members, done: set<string>, limit: nat, t: Tally) {
    && done <= ms.Keys
    && Lists(t.recent, ms, done * Eligible(ms, limit))
    && Lists(t.stable, ms, done * Settling(ms, limit))
    && t.members.Keys == (ms.Keys - done) + done * Eligible(ms, limit)
    && forall id :: id in t.members ==> t.members[id] == if id in done then Bump(ms[id]) else ms[id]
  }

  lemma ListsGrow(ns: seq<Node>, ms: Members, ids: set<string>, id: string)
    requires MembersKeyed(ms) && Lists(ns, ms, ids) && id in ms && id !in ids
    ensures Lists(ns + [ms[id].node], ms, ids + {id})
  {
    var more := ns + [ms[id].node];
    assert IdsOf(more) == IdsOf(ns) + [id];
    assert forall i :: 0 <= i < |ns| ==> IdsOf(ns)[i] == ns[i].id && ns[i] in ns && ns[i].id in IdSet(ns);
    assert IdSet(more) == IdSet(ns) + {id};
  }

  lemma ListsSize(ns: seq<Node>, ms: Members, ids: set<string>)
    requires Lists(ns, ms, ids)
    ensures |ns| == |ids|
  {
    DistinctIds(ns);
  }

  lemma ProgressStep(ms: Members, done: set<string>, limit: nat, t: Tally, id: string)
    requires MembersKeyed(ms) && Progress(ms, done, limit, t)
    requires id in ms && id !in done
    ensures Progress(ms, done + {id}, limit, Turn(t, id, limit))
  {
    hide Lists;
    var e, s := Eligible(ms, limit), Settling(ms, limit);
    if id in e {
      ListsGrow(t.recent, ms, done * e, id);
      assert (done + {id}) * e == done * e + {id} && (done + {id}) * s == done * s;
    } else if id in s {
      ListsGrow(t.stable, ms, done * s, id);
      assert (done + {id}) * e == done * e && (done + {id}) * s == done * s + {id};
    } else {
      assert (done + {id}) * e == done * e && (done + {id}) * s == done * s;
    }
  }

  lemma {:induction false} TurnsProgress(ms: Members, order: seq<string>, limit: nat)
    requires MembersKeyed(ms) && NoDup(order) && ToSet(order) <= ms.Keys
    ensures Progress(ms, ToSet(order), limit, Turns(ms, order, limit))
  {
    if order == [] {
      assert Progress(ms, {}, limit, Tally([], [], ms));
    } else {
      var n := |order| - 1;
      assert order == order[..n] + [order[n]];
      assert ToSet(order) == ToSet(order[..n]) + {order[n]};
      TurnsProgress(ms, order[..n], limit);
      ProgressStep(ms, ToSet(order[..n]), limit, Turns(ms, order[..n], limit), order[n]);
    }
  }

  /** Members not dealt with yet are as they were. */
  lemma Untouched(ms: Members, order: seq<string>, limit: nat)
    requires MembersKeyed(ms) && NoDup(order) && ToSet(order) <= ms.Keys
    ensures ms.Keys - ToSet(order) <= Turns(ms, order, limit).members.Keys
    ensures forall id :: id in ms.Keys - ToSet(order) ==> Turns(ms, order, limit).members[id] == ms[id]
  {
    TurnsProgress(ms, order, limit);
  }

  lemma Extended(order: seq<string>, id: string)
    requires NoDup(order) && id !in order
    ensures NoDup(order + [id]) && ToSet(order + [id]) == ToSet(order) + {id}
    ensures (order + [id])[..|order|] == order
  {
  }

  /** What a loop has produced when it has dealt with every member. */
  lemma AtTheEnd(ms: Members, limit: nat, t: Tally)
    requires Progress(ms, ms.Keys, limit, t)
    ensures Lists(t.recent, ms, Eligible(ms, limit)) && Lists(t.stable, ms, Settling(ms, limit))
    ensures t.members == Counted(ms, Eligible(ms, limit)) - (ms.Keys - Eligible(ms, limit))
  {
    assert ms.Keys * Eligible(ms, limit) == Eligible(ms, limit);
    assert ms.Keys * Settling(ms, limit) == Settling(ms, limit);
  }

  lemma EveryMemberEligible(ms: Members, limit: nat)
    requires |Eligible(ms, limit)| >= |ms|
    ensures Eligible(ms, limit) == ms.Keys && Settling(ms, limit) == {}
  {
    assert |ms.Keys| == |ms|;
    SubsetSize(Eligible(ms, limit), ms.Keys);
  }

  lemma {:induction false} TurnsKeyed(ms: Members, order: seq<string>, limit: nat)
    requires MembersKeyed(ms)
    ensures MembersKeyed(Turns(ms, order, limit).members)
  {
    if order != [] {
      TurnsKeyed(ms, order[..|order| - 1], limit);
    }
  }

  lemma FullAtTheEnd(ms: Members, n: nat, limit: nat, t: Tally)
    requires Lists(t.recent, ms, Eligible(ms, limit)) && Lists(t.stable, ms, Settling(ms, limit))
    requires |ms| <= n && |Eligible(ms, limit)| == n && |t.recent| == n
    requires t.members == Counted(ms, Eligible(ms, limit)) - (ms.Keys - Eligible(ms, limit))
    ensures Selects(ms, n, limit, t)
  {
    assert t.stable == [] && t.members == Counted(ms, Eligible(ms, limit)) by {
      EveryMemberEligible(ms, limit);
      ListsSize(t.stable, ms, {});
    }
  }

  lemma ShortAtTheEnd(ms: Members, n: nat, limit: nat, t: Tally)
    requires Lists(t.recent, ms, Eligible(ms, limit)) && Lists(t.stable, ms, Settling(ms, limit))
    requires |t.recent| == |Eligible(ms, limit)| < n
    requires t.members == Counted(ms, Eligible(ms, limit)) - (ms.Keys - Eligible(ms, limit))
    ensures Selects(ms, n, limit, t)
  {
  }

  /** A loop that has dealt with every member, having emitted at most n, meets the contract. */
  lemma AllDone(ms: Members, order: seq<string>, n: nat, limit: nat)
    requires MembersKeyed(ms) && NoDup(order) && ToSet(order) == ms.Keys
    requires |Turns(ms, order, limit).recent| < n || |ms| <= n
    ensures Selects(ms, n, limit, Turns(ms, order, limit))
  {
    var t := Turns(ms, order, limit);
    TurnsProgress(ms, order, limit);
    AtTheEnd(ms, limit, t);
    ListsSize(t.recent, ms, Eligible(ms, limit));
    EligibleSize(ms, limit);
    if |t.recent| == n {
      FullAtTheEnd(ms, n, limit, t);
    } else {
      ShortAtTheEnd(ms, n, limit, t);
    }
  }

  lemma EligibleSize(ms: Members, limit: nat)
    ensures |Eligible(ms, limit)| <= |ms|
  {
    assert |ms.Keys| == |ms|;
    SubsetSize(Eligible(ms, limit), ms.Keys);
  }

  /** What a loop has produced when every member it has dealt with was eligible. */
  lemma EmittedWhileFull(ms: Members, done: set<string>, limit: nat, t: Tally)
    requires Progress(ms, done, limit, t) && done <= Eligible(ms, limit)
    ensures Lists(t.recent, ms, done)
    ensures t.members == Counted(ms, done)
  {
    assert done * Eligible(ms, limit) == done;
  }

  lemma NothingStableWhileFull(ms: Members, done: set<string>, limit: nat, t: Tally)
    requires Progress(ms, done, limit, t) && done <= Eligible(ms, limit)
    ensures t.stable == []
  {
    assert done * Settling(ms, limit) == {};
    ListsSize(t.stable, ms, {});
  }

  /** Members in done have been spread no more often than the others. */
  ghost predicate LeastFirst(ms: Members, done: set<string>) {
    forall a, b :: a in done && a in ms && b in ms.Keys - done ==> ms[a].counter <= ms[b].counter
  }

  /** A loop that goes by least counter and stops at the n-th emission meets the contract: nothing
      can have been taken out before. */
  lemma StoppedFull(ms: Members, order: seq<string>, n: nat, limit: nat)
    requires MembersKeyed(ms) && NoDup(order) && ToSet(order) <= Eligible(ms, limit)
    requires LeastFirst(ms, ToSet(order))
    requires |Turns(ms, order, limit).recent| == n
    ensures Selects(ms, n, limit, Turns(ms, order, limit))
  {
    TurnsProgress(ms, order, limit);
    var t, done := Turns(ms, order, limit), ToSet(order);
    EmittedWhileFull(ms, done, limit, t);
    NothingStableWhileFull(ms, done, limit, t);
    ListsSize(t.recent, ms, done);
    SubsetSize(done, Eligible(ms, limit));
  }

  /** Taking a least member of the rest keeps the order; and if it is eligible, so are all before. */
  lemma TakeTop(ms: Members, order: seq<string>, id: string, limit: nat)
    requires MembersKeyed(ms) && NoDup(order) && ToSet(order) <= ms.Keys && LeastFirst(ms, ToSet(order))
    requires IsTop(Turns(ms, order, limit).members, ms.Keys - ToSet(order), id)
    ensures LeastFirst(ms, ToSet(order) + {id})
    ensures ms[id].counter < limit ==> ToSet(order) + {id} <= Eligible(ms, limit)
  {
    Untouched(ms, order, limit);
  }

  lemma AllQueued(ms: Members, order: seq<string>, limit: nat)
    requires MembersKeyed(ms) && NoDup(order) && ToSet(order) <= ms.Keys
    ensures ms.Keys - ToSet(order) <= Turns(ms, order, limit).members.Keys
  {
    Untouched(ms, order, limit);
  }

  /** The next turn of a loop. */
  lemma Advance(ms: Members, order: seq<string>, id: string, limit: nat)
    requires MembersKeyed(ms) && NoDup(order) && ToSet(order) <= ms.Keys && id in ms.Keys - ToSet(order)
    ensures id in Turns(ms, order, limit).members && Turns(ms, order, limit).members[id] == ms[id]
    ensures Turns(ms, order + [id], limit) == Turn(Turns(ms, order, limit), id, limit)
    ensures NoDup(order + [id]) && ToSet(order + [id]) == ToSet(order) + {id}
  {
    Untouched(ms, order, limit);
    Extended(order, id);
  }

  lemma NothingLeft(all: set<string>, done: set<string>)
    requires done <= all && all - done == {}
    ensures done == all
  {
    assert forall x :: x in all ==> x !in all - done;
  }

  /** How a fetch loop may end: every member dealt with, at most n emitted; or, going by least
      counter, stopped at the n-th emission. */
  ghost predicate Ends(ms: Members, order: seq<string>, n: nat, limit: nat) {
    var emitted := |Turns(ms, order, limit).recent|;
    || (ToSet(order) == ms.Keys && (emitted < n || |ms| <= n))
    || (ToSet(order) <= Eligible(ms, limit) && LeastFirst(ms, ToSet(order)) && emitted == n)
  }

  /** Both loops meet the one contract. */
  lemma LoopsSelect(ms: Members, order: seq<string>, n: nat, limit: nat)
    requires MembersKeyed(ms) && NoDup(order) && Ends(ms, order, n, limit)
    ensures Selects(ms, n, limit, Turns(ms, order, limit))
  {
    if ToSet(order) == ms.Keys && (|Turns(ms, order, limit).recent| < n || |ms| <= n) {
      AllDone(ms, order, n, limit);
    } else {
      StoppedFull(ms, order, n, limit);
    }
  }

  /** top: no member of the queue has a smaller counter. */
  predicate IsTop(ms: Members, queue: set<string>, id: string) {
    && id in queue && id in ms
    && forall o :: o in queue && o in ms ==> ms[id].counter <= ms[o].counter
  }

  lemma TopExists(ms: Members, queue: set<string>) returns (top: string)
    requires queue != {} && queue <= ms.Keys
    ensures IsTop(ms, queue, top)
  {
    var first :| first in queue;
    if queue == {first} {
      top := first;
    } else {
      var other := TopExists(ms, queue - {first});
      top := if ms[other].counter < ms[first].counter then other else first;
      forall o | o in queue
        ensures ms[top].counter <= ms[o].counter
      {
        assert o == first || o in queue - {first};
      }
    }
  }

  class RecentlyUpdatedSet {
    var members: Members

    ghost predicate Valid()
      reads this
    {
      MembersKeyed(members)
    }

    constructor ()
      ensures members == map[]
    {
      members := map[];
    }

    method Add(node: Node)
      requires Valid()
      modifies this
      ensures Valid()
      ensures members == Added(old(members), node)
    {
      var id := node.id;
      if id in members {
        var mem := members[id];
        // A record that overrides the one held has not been spread at all.
        if Less(mem.node, node) {
          members := members[id := Member(node, 0)];
        }
      } else {
        members := members[id := Member(node, 0)];
      }
    }

    method Fetch(n: nat, limit: nat) returns (recent: seq<Node>, stable: seq<Node>)
      requires Valid()
      modifies this
      ensures Valid()
      ensures Selects(old(members), n, limit, Tally(recent, stable, members))
    {
      if n == 0 {
        recent, stable := [], [];
        assert members == Counted(members, {});
        return;
      }
      ghost var order;
      if n >= |members| {
        recent, stable, order := FetchAll(limit);
      } else {
        recent, stable, order := FetchLeast(n, limit);
      }
      LoopsSelect(old(members), order, n, limit);
      TurnsKeyed(old(members), order, limit);
    }

    /** order: the ids in the order in which the loop dealt with them. */
    method FetchLeast(n: nat, limit: nat)
      returns (recent: seq<Node>, stable: seq<Node>, ghost order: seq<string>)
      requires Valid() && 0 < n < |members|
      modifies this
      ensures NoDup(order) && Ends(old(members), order, n, limit)
      ensures Tally(recent, stable, members) == Turns(old(members), order, limit)
    {
      hide IsTop;
      ghost var ms := members;
      var queue := members.Keys;
      recent, stable, order := [], [], [];
      while queue != {}
        invariant NoDup(order) && ToSet(order) <= ms.Keys && queue == ms.Keys - ToSet(order)
        invariant Tally(recent, stable, members) == Turns(ms, order, limit)
        invariant LeastFirst(ms, ToSet(order))
        invariant |recent| < n
      {
        AllQueued(ms, order, limit);
        ghost var top := TopExists(members, queue);
        var id :| id in queue && IsTop(members, queue, id);
        TakeTop(ms, order, id, limit);
        Advance(ms, order, id, limit);
        order := order + [id];
        var member := Bump(members[id]);
        if member.counter > limit {
          // Done with spreading: handed over to the stable members, but a failure is dropped.
          if !member.node.status.Failed? {
            stable := stable + [member.node];
          }
          members := members - {id};
        } else {
          recent := recent + [member.node];
          members := members[id := member];
          if |recent| == n {
            return;
          }
        }
        queue := queue - {id};
      }
      NothingLeft(ms.Keys, ToSet(order));
    }

    method FetchAll(limit: nat)
      returns (recent: seq<Node>, stable: seq<Node>, ghost order: seq<string>)
      requires Valid()
      modifies this
      ensures NoDup(order) && ToSet(order) == old(members).Keys
      ensures Tally(recent, stable, members) == Turns(old(members), order, limit)
    {
      ghost var ms := members;
      var todo := members.Keys;
      recent, stable, order := [], [], [];
      while todo != {}
        invariant NoDup(order) && ToSet(order) <= ms.Keys && todo == ms.Keys - ToSet(order)
        invariant Tally(recent, stable, members) == Turns(ms, order, limit)
      {
        var id :| id in todo;
        Advance(ms, order, id, limit);
        order := order + [id];
        var member := Bump(members[id]);
        if member.counter > limit {
          if !member.node.status.Failed? {
            stable := stable + [member.node];
          }
          members := members - {id};
        } else {
          recent := recent + [member.node];
          members := members[id := member];
        }
        todo := todo - {id};
      }
      NothingLeft(ms.Keys, ToSet(order));
    }
  }
}
