/** Fairness of the round-robin cursor of the stable set over whole runs
    (src/sw/gossip-net/member_set.cpp). */
module RoundRobin {
  import opened Arithmetic
  import opened Nodes
  import opened MemberSets

  /** One call on the stable set: a fetch with the ids it returned, an erasure, or an insertion. */
  datatype Turn =
    | Fetched(num: nat, out: seq<string>)
    | Erased(id: string)
    | Joined(id: string)

  ghost predicate Next(q: seq<string>, t: Turn, q': seq<string>) {
    match t
    case Fetched(num, out) => TakesTurns(q, num, out, q')
    case Erased(id) => q' == Removed(q, id)
    case Joined(id) => id !in q && Inserted(q, id, q')
  }

  ghost predicate Run(qs: seq<seq<string>>, turns: seq<Turn>) {
    && |qs| == |turns| + 1
    && forall i :: 0 <= i < |turns| ==> Next(qs[i], turns[i], qs[i + 1])
  }

  /** All ids returned in the run, in order. */
  function Served(turns: seq<Turn>): seq<string> {
    if turns == [] then []
    else
      var t := turns[|turns| - 1];
      Served(turns[..|turns| - 1]) + if t.Fetched? then t.out else []
  }

  function Joins(turns: seq<Turn>): nat {
    if turns == [] then 0
    else Joins(turns[..|turns| - 1]) + if turns[|turns| - 1].Joined? then 1 else 0
  }

  lemma PositionIs(q: seq<string>, id: string, p: nat)
    requires p < |q| && q[p] == id && id !in q[..p]
    ensures Position(q, id) == p
  {
    var r := Position(q, id);
    assert forall k :: 0 <= k < p ==> q[..p][k] == q[k];
    assert forall k :: 0 <= k < r ==> q[..r][k] == q[k];
  }

  lemma PositionOfMember(q: seq<string>, id: string)
    requires id in q
    ensures Position(q, id) < |q|
  {
    assert q[..|q|] == q;
  }

  lemma WaitWhileFetched(q: seq<string>, num: nat, out: seq<string>, q': seq<string>, id: string)
    requires TakesTurns(q, num, out, q') && id in q && id !in out
    ensures id in q' && Position(q', id) + |out| <= Position(q, id)
  {
    PositionOfMember(q, id);
    var p := Position(q, id);
    assert id in multiset(q) && id !in multiset(out);
    assert forall k :: 0 <= k < num ==> q[k] == out[k];
    assert q' == q[num..] + q[..num];
    assert q'[p - num] == id && q'[..p - num] == q[..p][num..];
    PositionIs(q', id, p - num);
  }

  lemma WaitWhileErased(q: seq<string>, other: string, id: string)
    requires id in q && id != other
    ensures id in Removed(q, other) && Position(Removed(q, other), id) <= Position(q, id)
  {
    hide Position;
    PositionOfMember(q, id);
    var p, r, q' := Position(q, id), Position(q, other), Removed(q, other);
    if r < p {
      assert q'[p - 1] == id && q'[..p - 1] == q[..p][..r] + q[..p][r + 1..];
      PositionIs(q', id, p - 1);
    } else if r < |q| {
      assert q'[p] == id && q'[..p] == q[..p];
      PositionIs(q', id, p);
    }
  }

  lemma PositionAfter(a: seq<string>, id: string, b: seq<string>)
    requires id !in a
    ensures Position(a + [id] + b, id) == |a|
  {
    PositionIs(a + [id] + b, id, |a|);
  }

  /** Joining behind id, or before it. */
  lemma WaitWhileJoinedParts(a: seq<string>, id: string, b: seq<string>, r: nat, other: string, q': seq<string>)
    requires id !in a && id != other && r <= |a + [id] + b|
    requires q' == (a + [id] + b)[..r] + [other] + (a + [id] + b)[r..]
    ensures id in q' && Position(q', id) <= |a| + 1
  {
    if r <= |a| {
      var front := a[..r] + [other] + a[r..];
      assert q' == front + [id] + b;
      PositionAfter(front, id, b);
    } else {
      var k := r - |a| - 1;
      var back := b[..k] + [other] + b[k..];
      assert q' == a + [id] + back;
      PositionAfter(a, id, back);
    }
  }

  lemma WaitWhileJoined(q: seq<string>, other: string, q': seq<string>, id: string)
    requires Inserted(q, other, q') && id in q && id != other
    ensures id in q' && Position(q', id) <= Position(q, id) + 1
  {
    hide Position;
    PositionOfMember(q, id);
    var p := Position(q, id);
    var r :| 0 <= r <= |q| && q' == q[..r] + [other] + q[r..];
    assert q == q[..p] + [id] + q[p + 1..];
    WaitWhileJoinedParts(q[..p], id, q[p + 1..], r, other, q');
  }

  /** One step that neither erases id nor returns it. */
  lemma WaitStep(q: seq<string>, t: Turn, q': seq<string>, id: string)
    requires Next(q, t, q') && id in q && t != Erased(id)
    requires t.Fetched? ==> id !in t.out
    ensures id in q'
    ensures Position(q', id) + (if t.Fetched? then |t.out| else 0)
         <= Position(q, id) + (if t.Joined? then 1 else 0)
  {
    match t
    case Fetched(num, out) => WaitWhileFetched(q, num, out, q', id);
    case Erased(other) => WaitWhileErased(q, other, id);
    case Joined(other) => WaitWhileJoined(q, other, q', id);
  }

  /** Bounded waiting while the set changes: as long as a member stays and has not been returned,
      the number of other items returned is at most its distance from the cursor at the start plus
      the number of insertions since, whatever else was erased, the element under the cursor
      included. */
  lemma {:induction false} BoundedWait(qs: seq<seq<string>>, turns: seq<Turn>, id: string)
    requires Run(qs, turns) && id in qs[0]
    requires Erased(id) !in turns && id !in Served(turns)
    ensures id in qs[|turns|]
    ensures |Served(turns)| + Position(qs[|turns|], id) <= Position(qs[0], id) + Joins(turns)
  {
    if turns != [] {
      var n := |turns| - 1;
      assert Run(qs[..n + 1], turns[..n]);
      BoundedWait(qs[..n + 1], turns[..n], id);
      WaitStep(qs[n], turns[n], qs[n + 1], id);
    }
  }

  /** In the batch that returns it a member comes after exactly those that stood before it. */
  lemma PlaceInBatch(q: seq<string>, num: nat, out: seq<string>, q': seq<string>, id: string)
    requires TakesTurns(q, num, out, q') && num <= |q| && id in out
    ensures Position(out, id) == Position(q, id) < num
  {
    PositionOfMember(out, id);
    var p := Position(out, id);
    assert out[..p] == q[..p];
    PositionIs(q, id, p);
  }

  /** Bounded waiting up to the very item: until a member that stays is returned, no more other items
      are returned than its distance from the cursor at the start plus the insertions since, those
      before it in its own batch included. When that batch is a fetch of everybody, whose order is the
      table's, only the items of earlier batches are so bounded. */
  lemma BoundedWaitToItem(qs: seq<seq<string>>, turns: seq<Turn>, num: nat, out: seq<string>, q': seq<string>,
                          id: string)
    requires Run(qs, turns) && id in qs[0]
    requires Erased(id) !in turns && id !in Served(turns)
    requires TakesTurns(qs[|turns|], num, out, q') && id in out
    ensures num <= |qs[|turns|]| ==>
      |Served(turns)| + Position(out, id) <= Position(qs[0], id) + Joins(turns)
    ensures |Served(turns)| <= Position(qs[0], id) + Joins(turns)
    ensures Position(out, id) < |out|
  {
    BoundedWait(qs, turns, id);
    PositionOfMember(out, id);
    if num <= |qs[|turns|]| {
      PlaceInBatch(qs[|turns|], num, out, q', id);
    }
  }

  /** A fetch of everybody may return any member last, however near the cursor it stood. */
  lemma LastOfEverybody(q: seq<string>, num: nat, id: string) returns (out: seq<string>)
    requires NoDup(q) && id in q && num > |q|
    ensures TakesTurns(q, num, out, q) && Position(out, id) == |q| - 1
  {
    hide Position;
    PositionOfMember(q, id);
    var p := Position(q, id);
    var others := q[..p] + q[p + 1..];
    out := others + [id];
    NoDupErase(q, p);
    PositionAfter(others, id, []);
    assert others + [id] + [] == out;
    assert q == q[..p] + [id] + q[p + 1..];
  }

  lemma {:induction false} OccursOnce(q: seq<string>, k: nat)
    requires NoDup(q) && k < |q|
    ensures multiset(q)[q[k]] == 1
  {
    var n := |q| - 1;
    assert q == q[..n] + [q[n]];
    if k < n {
      OccursOnce(q[..n], k);
    } else {
      assert q[n] !in q[..n];
    }
  }

  lemma OccursInPrefix(q: seq<string>, num: nat, k: nat)
    requires NoDup(q) && num <= |q| && k < |q|
    ensures multiset(q[..num])[q[k]] == if k < num then 1 else 0
  {
    if k < num {
      OccursOnce(q[..num], k);
    } else {
      assert q[k] !in q[..num];
    }
  }

  lemma RotationTwice(q: seq<string>, o: nat, num: nat)
    requires o < |q| && num <= |q|
    ensures Rotation(Rotation(q, o), num) == Rotation(q, if o + num < |q| then o + num else o + num - |q|)
  {
  }

  lemma RotationNoDup(q: seq<string>, o: nat)
    requires NoDup(q) && o < |q|
    ensures NoDup(Rotation(q, o))
    ensures multiset(Rotation(q, o)) == multiset(q)
  {
    var r := Rotation(q, o);
    assert forall k :: 0 <= k < |q| ==> r[k] == q[if k + o < |q| then k + o else k + o - |q|];
    assert q == q[..o] + q[o..];
  }

  /** Where a fetch leaves a cursor that stood o places into the queue, and whether it went round. */
  function Offset(size: nat, o: nat, num: nat): nat {
    if num > size then o else if o + num < size then o + num else o + num - size
  }

  function Wraps(size: nat, o: nat, num: nat): nat {
    if num > size || o + num >= size then 1 else 0
  }

  /** The turns a fetch gives to the j-th member of the initial queue, the cursor being at o. */
  lemma SharePerFetch(q: seq<string>, o: nat, num: nat, out: seq<string>, q': seq<string>, j: nat)
    requires NoDup(q) && o < |q| && j < |q|
    requires TakesTurns(Rotation(q, o), num, out, q')
    ensures multiset(out)[q[j]] + (if j < o then 1 else 0)
         == Wraps(|q|, o, num) + (if j < Offset(|q|, o, num) then 1 else 0)
  {
    RotationNoDup(q, o);
    if num <= |q| {
      var k := if o <= j then j - o else j - o + |q|;
      assert Rotation(q, o)[k] == q[j];
      OccursInPrefix(Rotation(q, o), num, k);
    } else {
      OccursOnce(q, j);
    }
  }

  lemma FetchAdvances(q: seq<string>, o: nat, num: nat, out: seq<string>, q': seq<string>)
    requires NoDup(q) && o < |q|
    requires TakesTurns(Rotation(q, o), num, out, q')
    ensures Offset(|q|, o, num) < |q| && q' == Rotation(q, Offset(|q|, o, num))
    ensures |out| + o == Offset(|q|, o, num) + if Wraps(|q|, o, num) == 1 then |q| else 0
  {
    if num <= |q| {
      RotationTwice(q, o, num);
    } else {
      assert |multiset(out)| == |multiset(Rotation(q, o))|;
    }
  }

  lemma LapStep(q: seq<string>, laps: nat, o: nat, t: Turn, q': seq<string>)
    requires NoDup(q) && o < |q| && t.Fetched? && Next(Rotation(q, o), t, q')
    ensures Offset(|q|, o, t.num) < |q| && q' == Rotation(q, Offset(|q|, o, t.num))
    ensures laps * |q| + o + |t.out| == (laps + Wraps(|q|, o, t.num)) * |q| + Offset(|q|, o, t.num)
  {
    FetchAdvances(q, o, t.num, t.out, q');
    assert (laps + 1) * |q| == laps * |q| + |q|;
  }

  /** The items served are whole laps of q and then its first o members, before which the cursor is. */
  ghost predicate LapsAt(q: seq<string>, served: seq<string>, now: seq<string>, laps: nat, o: nat) {
    && o < |q| && now == Rotation(q, o) && |served| == laps * |q| + o
    && forall j :: 0 <= j < |q| ==> multiset(served)[q[j]] == laps + if j < o then 1 else 0
  }

  lemma LapsNext(q: seq<string>, served: seq<string>, now: seq<string>, laps: nat, o: nat, t: Turn, next: seq<string>)
    requires NoDup(q) && LapsAt(q, served, now, laps, o) && t.Fetched? && Next(now, t, next)
    ensures LapsAt(q, served + t.out, next, laps + Wraps(|q|, o, t.num), Offset(|q|, o, t.num))
  {
    LapStep(q, laps, o, t, next);
    forall j | 0 <= j < |q|
      ensures multiset(served + t.out)[q[j]]
           == laps + Wraps(|q|, o, t.num) + if j < Offset(|q|, o, t.num) then 1 else 0
    {
      SharePerFetch(q, o, t.num, t.out, next, j);
    }
  }

  lemma ServedNext(turns: seq<Turn>, k: nat)
    requires k < |turns|
    ensures Served(turns[..k + 1]) == Served(turns[..k]) + if turns[k].Fetched? then turns[k].out else []
  {
    assert turns[..k + 1][..k] == turns[..k];
  }

  ghost predicate AllFetched(turns: seq<Turn>) {
    forall t :: t in turns ==> t.Fetched?
  }

  lemma LapsNextAt(qs: seq<seq<string>>, turns: seq<Turn>, k: nat, laps: nat, o: nat) returns (laps': nat, o': nat)
    requires Run(qs, turns) && AllFetched(turns) && k < |turns|
    requires NoDup(qs[0]) && LapsAt(qs[0], Served(turns[..k]), qs[k], laps, o)
    ensures LapsAt(qs[0], Served(turns[..k + 1]), qs[k + 1], laps', o')
  {
    hide Served;
    hide LapsAt;
    var t := turns[k];
    assert t in turns;
    ServedNext(turns, k);
    LapsNext(qs[0], Served(turns[..k]), qs[k], laps, o, t, qs[k + 1]);
    laps', o' := laps + Wraps(|qs[0]|, o, t.num), Offset(|qs[0]|, o, t.num);
  }

  /** In a run of fetches alone, the items returned are at every moment a number of whole laps and then
      the members from the start of the queue up to the cursor. */
  lemma {:induction false} Laps(qs: seq<seq<string>>, turns: seq<Turn>, k: nat) returns (laps: nat, o: nat)
    requires Run(qs, turns) && AllFetched(turns) && k <= |turns| && NoDup(qs[0]) && qs[0] != []
    ensures LapsAt(qs[0], Served(turns[..k]), qs[k], laps, o)
  {
    hide AllFetched;
    hide NoDup;
    hide Next;
    if k == 0 {
      laps, o := 0, 0;
      assert turns[..0] == [];
      NotRotated(qs[0]);
    } else {
      hide LapsAt;
      hide Served;
      laps, o := Laps(qs, turns, k - 1);
      laps, o := LapsNextAt(qs, turns, k - 1, laps, o);
    }
  }

  /** Exact balance: after any mix of fetches returning T items in all from N unchanging members,
      each member has been returned T / N times, and the T % N first in turn once more. */
  lemma ExactShare(qs: seq<seq<string>>, turns: seq<Turn>, j: nat)
    requires Run(qs, turns) && AllFetched(turns) && NoDup(qs[0]) && j < |qs[0]|
    ensures
      var total, size := |Served(turns)|, |qs[0]|;
      multiset(Served(turns))[qs[0][j]] == total / size + if j < total % size then 1 else 0
  {
    assert turns[..|turns|] == turns;
    var laps, o := Laps(qs, turns, |turns|);
    DivMod(|Served(turns)|, |qs[0]|, laps, o);
  }
}
