/** The stable members and their persistent round-robin cursor
    (src/sw/gossip-net/member_set.h, src/sw/gossip-net/member_set.cpp).

    The source iterates a hash table. Here `order` is the table's iteration order, into which an
    insertion goes at any place; rehashing is not part of this model, nor is the random key prefix. */
module MemberSets {
  import opened Wrappers
  import opened Nodes
  import opened Views

  /** The set as a caller sees it: the records, and the ids in the order in which the cursor will
      meet them, going round. */
  datatype MemberState = MemberState(nodes: View, queue: seq<string>)

  ghost predicate Ordered(m: MemberState) {
    Keyed(m.nodes) && NoDup(m.queue) && ToSet(m.queue) == m.nodes.Keys
  }

  /** find: the position of an id, or the length (end) when it is absent. */
  function Position(order: seq<string>, id: string): (p: nat)
    ensures p <= |order|
    ensures p < |order| ==> order[p] == id
    ensures id !in order[..p]
  {
    if order == [] || order[0] == id then 0
    else
      var p := 1 + Position(order[1..], id);
      assert order[..p] == [order[0]] + order[1..][..p - 1];
      p
  }

  /** The order without the given id. */
  function Removed(q: seq<string>, id: string): seq<string> {
    var p := Position(q, id);
    if p == |q| then q else q[..p] + q[p + 1..]
  }

  function Without(m: MemberState, id: string): MemberState {
    MemberState(m.nodes - {id}, Removed(m.queue, id))
  }

  /** id has joined q at some place. */
  ghost predicate Inserted(q: seq<string>, id: string, q': seq<string>) {
    exists p :: 0 <= p <= |q| && q' == q[..p] + [id] + q[p..]
  }

  /** The ids in the order in which a cursor will meet them. */
  function Rotation(order: seq<string>, cursor: nat): (q: seq<string>)
    requires cursor <= |order|
    ensures |q| == |order|
  {
    order[cursor..] + order[..cursor]
  }

  /** What fetch(num) may return: the next num ids, which go to the back of the queue, or, when
      more are wanted than there are, every id once in an order of the table's own. */
  ghost predicate TakesTurns(q: seq<string>, num: nat, out: seq<string>, q': seq<string>) {
    if num <= |q| then out == q[..num] && q' == Rotation(q, num)
    else multiset(out) == multiset(q) && q' == q
  }

  lemma RemovedAt(a: seq<string>, id: string, b: seq<string>)
    requires id !in a
    ensures Removed(a + [id] + b, id) == a + b
  {
    var q := a + [id] + b;
    var p := Position(q, id);
    assert forall k :: 0 <= k < p ==> q[..p][k] == q[k];
    assert forall k :: 0 <= k < |a| ==> q[k] == a[k];
    assert q[|a|] == id;
    assert p == |a|;
    assert q[..p] == a && q[p + 1..] == b;
  }

  /** Erasing position i: an iterator behind it keeps its element, one on it moves to the next. */
  function CursorAfterErase(cursor: nat, i: nat): nat {
    if i < cursor then cursor - 1 else cursor
  }

  lemma NoDupErase(order: seq<string>, i: nat)
    requires NoDup(order) && i < |order|
    ensures NoDup(order[..i] + order[i + 1..])
    ensures ToSet(order[..i] + order[i + 1..]) == ToSet(order) - {order[i]}
    ensures order[i] !in order[..i] && order[i] !in order[i + 1..]
  {
    var rest := order[..i] + order[i + 1..];
    assert forall k :: 0 <= k < |rest| ==> rest[k] == order[if k < i then k else k + 1];
    assert order == order[..i] + [order[i]] + order[i + 1..];
  }

  lemma RotationOf(a: seq<string>, b: seq<string>)
    ensures Rotation(a + b, |a|) == b + a
  {
  }

  lemma EraseBehindParts(a: seq<string>, x: string, b: seq<string>, c: seq<string>)
    requires x !in a && x !in c
    ensures Rotation(a + b + c, |a + b|) == Removed(Rotation(a + [x] + b + c, |a + [x] + b|), x)
  {
    hide Removed;
    RotationOf(a + b, c);
    RotationOf(a + [x] + b, c);
    RemovedAt(c + a, x, b);
    assert c + (a + [x] + b) == c + a + [x] + b;
    assert c + (a + b) == c + a + b;
  }

  lemma EraseAheadParts(a: seq<string>, b: seq<string>, x: string, c: seq<string>)
    requires x !in b
    ensures Rotation(a + (b + c), |a|) == Removed(Rotation(a + (b + [x] + c), |a|), x)
  {
    hide Removed;
    RotationOf(a, b + c);
    RotationOf(a, b + [x] + c);
    RemovedAt(b, x, c + a);
    assert b + [x] + c + a == b + [x] + (c + a);
    assert b + c + a == b + (c + a);
  }

  lemma EraseBehind(order: seq<string>, i: nat, cursor: nat)
    requires NoDup(order) && i < cursor <= |order|
    ensures Rotation(order[..i] + order[i + 1..], cursor - 1) == Removed(Rotation(order, cursor), order[i])
  {
    hide Removed;
    NoDupErase(order, i);
    var a, b, c := order[..i], order[i + 1..cursor], order[cursor..];
    assert order[i + 1..] == b + c;
    EraseBehindParts(a, order[i], b, c);
    assert order == a + [order[i]] + b + c;
    assert order[..i] + order[i + 1..] == a + b + c;
  }

  lemma EraseAhead(order: seq<string>, i: nat, cursor: nat)
    requires NoDup(order) && cursor <= i < |order|
    ensures Rotation(order[..i] + order[i + 1..], cursor) == Removed(Rotation(order, cursor), order[i])
  {
    hide Removed;
    NoDupErase(order, i);
    var a, b, c := order[..cursor], order[cursor..i], order[i + 1..];
    assert order[..i] == a + b;
    EraseAheadParts(a, b, order[i], c);
    assert order == a + (b + [order[i]] + c);
    assert order[..i] + order[i + 1..] == a + (b + c);
  }

  /** Inserting at a slot: the cursor stays on its element, and at the end when it was there. */
  function CursorAfterInsert(cursor: nat, slot: nat): nat {
    if slot <= cursor then cursor + 1 else cursor
  }

  lemma NoDupInsert(order: seq<string>, slot: nat, id: string)
    requires NoDup(order) && slot <= |order| && id !in order
    ensures NoDup(order[..slot] + [id] + order[slot..])
    ensures ToSet(order[..slot] + [id] + order[slot..]) == ToSet(order) + {id}
  {
    var more := order[..slot] + [id] + order[slot..];
    assert forall k :: 0 <= k < |more| && k != slot ==> more[k] == order[if k < slot then k else k - 1];
    assert order == order[..slot] + order[slot..];
  }

  lemma InsertedBetween(a: seq<string>, id: string, b: seq<string>)
    ensures Inserted(a + b, id, a + [id] + b)
  {
    assert (a + b)[..|a|] == a && (a + b)[|a|..] == b;
  }

  lemma InsertBehindParts(a: seq<string>, id: string, b: seq<string>, c: seq<string>)
    ensures Inserted(Rotation(a + b + c, |a + b|), id, Rotation(a + [id] + b + c, |a + [id] + b|))
  {
    RotationOf(a + b, c);
    RotationOf(a + [id] + b, c);
    InsertedBetween(c + a, id, b);
    hide Inserted;
    assert c + (a + [id] + b) == (c + a) + [id] + b;
    assert c + (a + b) == (c + a) + b;
  }

  lemma InsertAheadParts(a: seq<string>, b: seq<string>, id: string, c: seq<string>)
    ensures Inserted(Rotation(a + (b + c), |a|), id, Rotation(a + (b + [id] + c), |a|))
  {
    RotationOf(a, b + c);
    RotationOf(a, b + [id] + c);
    InsertedBetween(b, id, c + a);
    hide Inserted;
    assert b + [id] + c + a == b + [id] + (c + a);
    assert b + c + a == b + (c + a);
  }

  lemma InsertRotation(order: seq<string>, slot: nat, id: string, cursor: nat)
    requires slot <= |order| && cursor <= |order|
    ensures Inserted(Rotation(order, cursor), id,
                     Rotation(order[..slot] + [id] + order[slot..], CursorAfterInsert(cursor, slot)))
  {
    hide Inserted;
    hide Rotation;
    if slot <= cursor {
      var a, b, c := order[..slot], order[slot..cursor], order[cursor..];
      assert order == a + b + c && a + [id] + order[slot..] == a + [id] + b + c;
      InsertBehindParts(a, id, b, c);
    } else {
      var a, b, c := order[..cursor], order[cursor..slot], order[slot..];
      assert order == a + (b + c) && order[..slot] + [id] + c == a + (b + [id] + c);
      InsertAheadParts(a, b, id, c);
    }
  }

  lemma AdvanceRotation(order: seq<string>, cursor: nat)
    requires cursor < |order|
    ensures Rotation(order, cursor)[0] == order[cursor]
    ensures Rotation(order, cursor + 1) == Rotation(order, cursor)[1..] + [order[cursor]]
  {
  }

  lemma PositionFound(order: seq<string>, id: string)
    ensures Position(order, id) < |order| <==> id in ToSet(order)
  {
    assert order[..|order|] == order;
  }

  /** Erasing the element at i, with the iterator repaired. */
  lemma EraseAt(order: seq<string>, i: nat, cursor: nat)
    requires NoDup(order) && i < |order| && cursor <= |order|
    ensures Rotation(order[..i] + order[i + 1..], CursorAfterErase(cursor, i))
         == Removed(Rotation(order, cursor), order[i])
  {
    if i < cursor {
      EraseBehind(order, i, cursor);
    } else {
      EraseAhead(order, i, cursor);
    }
  }

  lemma NotRotated(q: seq<string>)
    ensures Rotation(q, 0) == q
  {
  }

  /** One step of the fetch loop: the iterator, wrapped around at the end, is on the next id due. */
  lemma FetchStep(order: seq<string>, cursor: nat, q: seq<string>, idx: nat)
    requires cursor <= |order| && idx < |q| == |order| && Rotation(order, cursor) == Rotation(q, idx)
    ensures var c := if cursor == |order| then 0 else cursor;
            order[c] == q[idx] && Rotation(order, c + 1) == Rotation(q, idx + 1)
  {
    var c := if cursor == |order| then 0 else cursor;
    if cursor == |order| {
      assert Rotation(order, cursor) == Rotation(order, 0);
    }
    AdvanceRotation(order, c);
    AdvanceRotation(q, idx);
  }

  lemma OneMoreId(result: seq<Node>, node: Node, q: seq<string>, idx: nat)
    requires idx < |q| && IdsOf(result) == q[..idx] && node.id == q[idx]
    ensures IdsOf(result + [node]) == q[..idx + 1]
  {
    assert q[..idx + 1] == q[..idx] + [q[idx]];
  }

  class MemberSet {
    var nodes: View
    var order: seq<string>
    var cursor: nat

    ghost predicate Valid()
      reads this
    {
      Keyed(nodes) && NoDup(order) && ToSet(order) == nodes.Keys && cursor <= |order|
    }

    ghost function State(): MemberState
      reads this
      requires Valid()
    {
      MemberState(nodes, Rotation(order, cursor))
    }

    constructor ()
      ensures Valid() && State() == MemberState(map[], [])
    {
      nodes, order, cursor := map[], [], 0;
    }

    /** Returns the node for the recently updated set, unless the record held overrides it. */
    method TryUpdate(node: Node) returns (r: Option<Node>)
      requires Valid()
      modifies this
      ensures Valid()
      ensures r == if node.id in old(nodes) && !Less(old(nodes)[node.id], node) then None else Some(node)
      ensures State() == if node.id in old(nodes) && Less(old(nodes)[node.id], node)
                         then Without(old(State()), node.id) else old(State())
    {
      var iter := Position(order, node.id);
      PositionFound(order, node.id);
      if iter == |order| {
        return Some(node);
      }
      if Less(nodes[node.id], node) {
        NoDupErase(order, iter);
        EraseAt(order, iter, cursor);
        cursor := CursorAfterErase(cursor, iter);
        nodes, order := nodes - {node.id}, order[..iter] + order[iter + 1..];
        return Some(node);
      }
      return None;
    }

    /** The source asserts that the id is new. */
    method Add(node: Node)
      requires Valid()
      requires node.id !in nodes
      modifies this
      ensures Valid()
      ensures nodes == old(nodes)[node.id := node]
      ensures Inserted(old(State()).queue, node.id, State().queue)
    {
      var slot :| 0 <= slot <= |order|;
      assert node.id !in ToSet(order);
      NoDupInsert(order, slot, node.id);
      InsertRotation(order, slot, node.id, cursor);
      cursor := CursorAfterInsert(cursor, slot);
      nodes, order := nodes[node.id := node], order[..slot] + [node.id] + order[slot..];
    }

    method Fetch(num: nat) returns (result: seq<Node>)
      requires Valid()
      modifies this
      ensures Valid() && nodes == old(nodes)
      ensures forall r :: r in result ==> r.id in nodes && nodes[r.id] == r
      ensures TakesTurns(old(State()).queue, num, IdsOf(result), State().queue)
    {
      if num > |order| {
        result := FetchEvery();
      } else {
        result := FetchNext(num);
      }
    }

    method FetchEvery() returns (result: seq<Node>)
      requires Valid()
      ensures forall r :: r in result ==> r.id in nodes && nodes[r.id] == r
      ensures multiset(IdsOf(result)) == multiset(State().queue)
    {
      result := [];
      for i := 0 to |order|
        invariant forall r :: r in result ==> r.id in nodes && nodes[r.id] == r
        invariant IdsOf(result) == order[..i]
      {
        assert order[i] in ToSet(order);
        result := result + [nodes[order[i]]];
      }
      assert IdsOf(result) == order == order[..cursor] + order[cursor..];
    }

    /** The source asserts num < size here, but its caller admits num == size, for which the loop is
        right as well; so the bound is <=. */
    method FetchNext(num: nat) returns (result: seq<Node>)
      requires Valid() && num <= |order|
      modifies this`cursor
      ensures Valid()
      ensures forall r :: r in result ==> r.id in nodes && nodes[r.id] == r
      ensures IdsOf(result) == old(State()).queue[..num]
      ensures State().queue == Rotation(old(State()).queue, num)
    {
      hide Rotation;
      ghost var q := Rotation(order, cursor);
      NotRotated(q);
      result := [];
      for idx := 0 to num
        invariant cursor <= |order|
        invariant Rotation(order, cursor) == Rotation(q, idx)
        invariant IdsOf(result) == q[..idx]
        invariant forall r :: r in result ==> r.id in nodes && nodes[r.id] == r
      {
        FetchStep(order, cursor, q, idx);
        if cursor == |order| {
          cursor := 0;
        }
        assert order[cursor] in ToSet(order);
        var node := nodes[order[cursor]];
        OneMoreId(result, node, q, idx);
        result := result + [node];
        cursor := cursor + 1;
      }
    }
  }
}
