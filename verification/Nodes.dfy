/** Member records and the order in which one record overrides another
    (src/sw/gossip-net/utils.h, src/sw/gossip-net/utils.cpp). */
module Nodes {
  const U64: int := 0x1_0000_0000_0000_0000
  const I32: int := 0x8000_0000
  const I64: int := 0x8000_0000_0000_0000

  type Version = v: int | 0 <= v < U64 witness 0
  type Port = p: int | -I32 <= p < I32 witness 0

  // NodeStatus::UNKNOWN only ever means "this token is no status"; no record carries it.
  datatype NodeStatus = Alive | Suspected | Failed

  datatype Node = Node(id: string, ip: string, port: Port, version: Version, status: NodeStatus)

  /** operator<: whether rhs overrides lhs. The source asserts that both name the same member. */
  predicate Less(lhs: Node, rhs: Node)
    requires lhs.id == rhs.id
  {
    match rhs.status
    case Alive =>
      rhs.version > lhs.version && (lhs.status.Suspected? || lhs.status.Alive?)
    case Suspected =>
      || (lhs.status.Suspected? && rhs.version > lhs.version)
      || (lhs.status.Alive? && rhs.version >= lhs.version)
    case Failed =>
      lhs.status.Alive? || lhs.status.Suspected?
  }

  /** ALIVE v ranks at 2v, SUSPECTED v just above it, FAILED above every version. */
  function Rank(n: Node): nat {
    match n.status
    case Alive => 2 * n.version
    case Suspected => 2 * n.version + 1
    case Failed => 2 * U64
  }

  /** The override order is the strict weak order of the rank. */
  lemma LessIsRankOrder(lhs: Node, rhs: Node)
    requires lhs.id == rhs.id
    ensures Less(lhs, rhs) <==> Rank(lhs) < Rank(rhs)
  {
  }

  /** What a receiver reads of a node that was sent without its status. */
  function Bare(n: Node): Node {
    n.(status := Alive)
  }

  function IdsOf(ns: seq<Node>): (ids: seq<string>)
    ensures |ids| == |ns|
    ensures forall i :: 0 <= i < |ns| ==> ids[i] == ns[i].id
  {
    seq(|ns|, i requires 0 <= i < |ns| => ns[i].id)
  }

  function IdSet(ns: seq<Node>): set<string> {
    set n | n in ns :: n.id
  }

  ghost predicate NoDup<T>(s: seq<T>) {
    forall i, j :: 0 <= i < j < |s| ==> s[i] != s[j]
  }

  function ToSet<T>(s: seq<T>): set<T> {
    set x | x in s
  }

  lemma {:induction false} CardinalityOfSet<T>(s: seq<T>)
    requires NoDup(s)
    ensures |ToSet(s)| == |s|
  {
    if s != [] {
      var n := |s| - 1;
      CardinalityOfSet(s[..n]);
      assert s == s[..n] + [s[n]];
      assert ToSet(s) == ToSet(s[..n]) + {s[n]};
    }
  }

  lemma SubsetSize<T>(a: set<T>, b: set<T>)
    requires a <= b
    ensures |a| <= |b|
    ensures |a| == |b| ==> a == b
  {
    assert b == a + (b - a);
  }

  lemma DistinctIds(ns: seq<Node>)
    requires NoDup(IdsOf(ns))
    ensures ToSet(IdsOf(ns)) == IdSet(ns) && |IdSet(ns)| == |ns|
  {
    CardinalityOfSet(IdsOf(ns));
    assert forall i :: 0 <= i < |ns| ==> IdsOf(ns)[i] == ns[i].id && ns[i] in ns;
  }
}
