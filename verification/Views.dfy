/** The membership view as one plain map, and the join that merges rumors into it. */
module Views {
  import opened Nodes

  type View = map<string, Node>

  ghost predicate Keyed(v: View) {
    forall id :: id in v ==> v[id].id == id
  }

  /** Replace when the old record is overridden, insert when there is none. */
  function Merge(v: View, rumor: Node): View
    requires Keyed(v)
  {
    if rumor.id !in v || Less(v[rumor.id], rumor) then v[rumor.id := rumor] else v
  }

  function MergeAll(v: View, rumors: seq<Node>): (w: View)
    requires Keyed(v)
    ensures Keyed(w)
  {
    if rumors == [] then v
    else Merge(MergeAll(v, rumors[..|rumors| - 1]), rumors[|rumors| - 1])
  }

  /** The rank of the record held for id; -1 when there is none. */
  function RankAt(v: View, id: string): int {
    if id in v then Rank(v[id]) else -1
  }

  ghost predicate SameRanks(v: View, w: View) {
    forall id :: RankAt(v, id) == RankAt(w, id)
  }

  /** m is the maximum of the rank held for id in v and the ranks of the rumors about id. */
  ghost predicate IsMaxRank(m: int, v: View, rumors: seq<Node>, id: string) {
    && RankAt(v, id) <= m
    && (forall r :: r in rumors && r.id == id ==> Rank(r) <= m)
    && (m == RankAt(v, id) || exists r :: r in rumors && r.id == id && Rank(r) == m)
  }

  /** Merging a batch puts every id at the maximum of its old rank and the ranks of its rumors. */
  lemma {:induction false} MergeAllIsMaximum(v: View, rumors: seq<Node>, id: string)
    requires Keyed(v)
    ensures IsMaxRank(RankAt(MergeAll(v, rumors), id), v, rumors, id)
  {
    if rumors != [] {
      var n := |rumors| - 1;
      var init, last := rumors[..n], rumors[n];
      assert rumors == init + [last];
      MergeAllIsMaximum(v, init, id);
      var mid := MergeAll(v, init);
      assert IsMaxRank(RankAt(mid, id), v, init, id);
      if last.id == id {
        if id in mid {
          LessIsRankOrder(mid[id], last);
        }
        assert last in rumors;
        if RankAt(mid, id) < Rank(last) {
          assert RankAt(MergeAll(v, rumors), id) == Rank(last);
        } else {
          assert RankAt(MergeAll(v, rumors), id) == RankAt(mid, id);
        }
      }
    }
  }

  /** Every record of the merged view is an old one or one of the rumors, and no id is lost. */
  lemma {:induction false} MergeAllRecords(v: View, rumors: seq<Node>)
    requires Keyed(v)
    ensures MergeAll(v, rumors).Keys == v.Keys + IdSet(rumors)
    ensures MergeAll(v, rumors).Values <= v.Values + ToSet(rumors)
  {
    if rumors != [] {
      var n := |rumors| - 1;
      var init, last := rumors[..n], rumors[n];
      assert rumors == init + [last];
      MergeAllRecords(v, init);
      assert IdSet(rumors) == IdSet(init) + {last.id};
      assert MergeAll(v, rumors).Values <= MergeAll(v, init).Values + {last};
    }
  }

  /** Merging into one of two maps, the other of which does not know the id. */
  lemma MergeOnTheRight(a: View, b: View, rumor: Node)
    requires Keyed(a) && Keyed(b) && rumor.id !in a
    ensures Keyed(a + b) && a + Merge(b, rumor) == Merge(a + b, rumor)
  {
  }

  /** Moving an overridden record out of one map and its successor into the other. */
  lemma MergeAcross(a: View, b: View, rumor: Node)
    requires Keyed(a) && Keyed(b) && rumor.id in a && rumor.id !in b && Less(a[rumor.id], rumor)
    ensures Keyed(a + b) && (a - {rumor.id}) + Merge(b, rumor) == Merge(a + b, rumor)
  {
  }

  lemma {:induction false} MergeAllConcat(v: View, a: seq<Node>, b: seq<Node>)
    requires Keyed(v)
    ensures MergeAll(v, a + b) == MergeAll(MergeAll(v, a), b)
  {
    if b == [] {
      assert a + b == a;
    } else {
      var n := |b| - 1;
      assert (a + b)[..|a + b| - 1] == a + b[..n];
      MergeAllConcat(v, a, b[..n]);
    }
  }

  /** Order, repetition and batching of rumors do not matter: from views of equal rank, any two
      deliveries of the same records give every id the same rank. */
  lemma DeliveryOrderIsIrrelevant(v: View, w: View, a: seq<Node>, b: seq<Node>)
    requires Keyed(v) && Keyed(w) && SameRanks(v, w)
    requires ToSet(a) == ToSet(b)
    ensures SameRanks(MergeAll(v, a), MergeAll(w, b))
  {
    forall id
      ensures RankAt(MergeAll(v, a), id) == RankAt(MergeAll(w, b), id)
    {
      OneDeliveryDominates(v, w, a, b, id);
      OneDeliveryDominates(w, v, b, a, id);
    }
  }

  lemma OneDeliveryDominates(v: View, w: View, a: seq<Node>, b: seq<Node>, id: string)
    requires Keyed(v) && Keyed(w) && RankAt(v, id) == RankAt(w, id)
    requires ToSet(a) <= ToSet(b)
    ensures RankAt(MergeAll(v, a), id) <= RankAt(MergeAll(w, b), id)
  {
    MergeAllIsMaximum(v, a, id);
    MergeAllIsMaximum(w, b, id);
    var m := RankAt(MergeAll(v, a), id);
    if m != RankAt(v, id) {
      var r :| r in a && r.id == id && Rank(r) == m;
      assert r in ToSet(a);
    }
  }

  // ----- When the order leaves the records fixed -----

  /** x overrides what v holds for its id, and no record for that id ranks higher. */
  ghost predicate IsTopRecord(x: Node, v: View, records: set<Node>) {
    && x in records && RankAt(v, x.id) < Rank(x)
    && forall r :: r in records && r.id == x.id ==> Rank(r) <= Rank(x)
  }

  /** No id has two top records. */
  ghost predicate TopsAreUnique(v: View, records: set<Node>) {
    forall x, y :: IsTopRecord(x, v, records) && IsTopRecord(y, v, records) && x.id == y.id ==> x == y
  }

  /** Every delivery of exactly these records gives the same view. */
  ghost predicate OrderFixesRecords(v: View, records: set<Node>)
    requires Keyed(v)
  {
    forall a, b :: ToSet(a) == records && ToSet(b) == records ==> MergeAll(v, a) == MergeAll(v, b)
  }

  /** A merged record is the old one, or a rumor that overrides it. */
  lemma {:induction false} OldOrHigher(v: View, rumors: seq<Node>, id: string)
    requires Keyed(v) && id in MergeAll(v, rumors)
    ensures
      var x := MergeAll(v, rumors)[id];
      (id in v && x == v[id]) || (x in rumors && x.id == id && RankAt(v, id) < Rank(x))
  {
    if rumors != [] {
      var n := |rumors| - 1;
      var last, mid := rumors[n], MergeAll(v, rumors[..n]);
      if id in mid {
        OldOrHigher(v, rumors[..n], id);
        LessIsRankOrder(mid[id], if last.id == id then last else mid[id]);
      } else {
        MergeAllRecords(v, rumors[..n]);
      }
    }
  }

  /** A merged record is the old one or a top rumor. */
  lemma OldOrTop(v: View, rumors: seq<Node>, id: string)
    requires Keyed(v) && id in MergeAll(v, rumors)
    ensures
      var x := MergeAll(v, rumors)[id];
      (id in v && x == v[id]) || (x.id == id && IsTopRecord(x, v, ToSet(rumors)))
  {
    OldOrHigher(v, rumors, id);
    MergeAllIsMaximum(v, rumors, id);
  }

  /** Where no id has two top records, delivery order leaves even the records fixed. */
  lemma DeliveryOrderFixesRecords(v: View, a: seq<Node>, b: seq<Node>)
    requires Keyed(v) && ToSet(a) == ToSet(b) && TopsAreUnique(v, ToSet(a))
    ensures MergeAll(v, a) == MergeAll(v, b)
  {
    DeliveryOrderIsIrrelevant(v, v, a, b);
    var x, y := MergeAll(v, a), MergeAll(v, b);
    forall id
      ensures id in x <==> id in y
      ensures id in x ==> x[id] == y[id]
    {
      assert RankAt(x, id) == RankAt(y, id);
      if id in x {
        OldOrTop(v, a, id);
        OldOrTop(v, b, id);
      }
    }
  }

  /** A record that nothing delivered afterwards overrides stays. */
  lemma {:induction false} TopStays(v: View, x: Node, rumors: seq<Node>)
    requires Keyed(v) && x.id in v && v[x.id] == x
    requires forall r :: r in rumors && r.id == x.id ==> Rank(r) <= Rank(x)
    ensures x.id in MergeAll(v, rumors) && MergeAll(v, rumors)[x.id] == x
  {
    if rumors != [] {
      var last := rumors[|rumors| - 1];
      TopStays(v, x, rumors[..|rumors| - 1]);
      if last.id == x.id {
        LessIsRankOrder(x, last);
      }
    }
  }

  /** A top record that is delivered first is the one that is kept. */
  lemma FirstTopWins(v: View, x: Node, rumors: seq<Node>)
    requires Keyed(v) && IsTopRecord(x, v, ToSet(rumors))
    ensures x.id in MergeAll(v, [x] + rumors) && MergeAll(v, [x] + rumors)[x.id] == x
  {
    if x.id in v {
      LessIsRankOrder(v[x.id], x);
    }
    assert [x][..0] == [];
    assert MergeAll(v, [x]) == v[x.id := x];
    MergeAllConcat(v, [x], rumors);
    assert forall r :: r in rumors ==> r in ToSet(rumors);
    TopStays(v[x.id := x], x, rumors);
  }

  lemma {:induction false} InSomeOrder(records: set<Node>) returns (rumors: seq<Node>)
    ensures ToSet(rumors) == records
  {
    if records == {} {
      rumors := [];
    } else {
      var r :| r in records;
      var others := InSomeOrder(records - {r});
      rumors := others + [r];
      assert ToSet(rumors) == ToSet(others) + {r};
      assert records == records - {r} + {r};
    }
  }

  lemma FirstAgain(x: Node, rumors: seq<Node>)
    requires x in ToSet(rumors)
    ensures ToSet([x] + rumors) == ToSet(rumors)
  {
  }

  /** Delivery order leaves the records fixed if and only if no id has two top records. */
  lemma OrderFixesRecordsExactlyWhen(v: View, records: set<Node>)
    requires Keyed(v)
    ensures OrderFixesRecords(v, records) <==> TopsAreUnique(v, records)
  {
    if TopsAreUnique(v, records) {
      forall a, b | ToSet(a) == records && ToSet(b) == records
        ensures MergeAll(v, a) == MergeAll(v, b)
      {
        DeliveryOrderFixesRecords(v, a, b);
      }
    } else {
      var x, y :| IsTopRecord(x, v, records) && IsTopRecord(y, v, records) && x.id == y.id && x != y;
      TwoTopsTwoOutcomes(v, records, x, y);
    }
  }

  lemma TwoTopsTwoOutcomes(v: View, records: set<Node>, x: Node, y: Node)
    requires Keyed(v) && IsTopRecord(x, v, records) && IsTopRecord(y, v, records) && x.id == y.id && x != y
    ensures !OrderFixesRecords(v, records)
  {
    var rumors := InSomeOrder(records);
    FirstTopWins(v, x, rumors);
    FirstTopWins(v, y, rumors);
    FirstAgain(x, rumors);
    FirstAgain(y, rumors);
    assert MergeAll(v, [x] + rumors) != MergeAll(v, [y] + rumors);
  }

  /** The smallest case: of two records of one id and one rank that reach an empty view, the first one
      stays, so the order shows exactly when they differ. */
  lemma RecordsDependOnOrder(a: Node, b: Node)
    requires a.id == b.id && Rank(a) == Rank(b)
    ensures MergeAll(map[], [a, b]) == map[a.id := a]
    ensures MergeAll(map[], [b, a]) == map[b.id := b]
    ensures MergeAll(map[], [a, b]) == MergeAll(map[], [b, a]) <==> a == b
    ensures OrderFixesRecords(map[], {a, b}) <==> a == b
  {
    hide OrderFixesRecords;
    LessIsRankOrder(a, b);
    LessIsRankOrder(b, a);
    assert [a, b][..1] == [a] && [b, a][..1] == [b];
    assert [a][..0] == [] && [b][..0] == [];
    assert MergeAll(map[], [a]) == map[a.id := a];
    assert MergeAll(map[], [b]) == map[b.id := b];
    assert map[a.id := a][a.id] == a && map[b.id := b][a.id] == b;
    var none: View, both: set<Node> := map[], {a, b};
    OrderFixesRecordsExactlyWhen(none, both);
    assert forall r :: r in both ==> r == a || r == b;
    assert IsTopRecord(a, none, both) && IsTopRecord(b, none, both);
  }
}
