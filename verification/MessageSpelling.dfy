/** Which token lists are messages: the grammar of ping, ping-req and ack above the handlers
    (src/sw/gossip-net/command.cpp), against which the reading is exact. */
module MessageSpelling {
  import opened Wrappers
  import opened Nodes
  import opened Decimals
  import opened Messages

  // ----- Numbers -----

  /** The longest run of digits at the front is not empty and has this value. */
  ghost predicate StartsWithNumeral(token: string, v: nat) {
    exists n :: IsNumeral(token, n, v)
  }

  ghost predicate IsNumeral(token: string, n: nat, v: nat) {
    && 0 < n <= |token| && AllDigits(token[..n]) && Value(token[..n]) == v
    && (n < |token| ==> !IsDigit(token[n]))
  }

  /** A number, after a minus sign if it is negative. */
  ghost predicate StartsWithSigned(token: string, v: int) {
    if token != "" && token[0] == '-' then v <= 0 && StartsWithNumeral(token[1..], -v)
    else v >= 0 && StartsWithNumeral(token, v)
  }

  lemma NumeralIsRun(token: string)
    ensures forall n, v :: IsNumeral(token, n, v) ==> n == DigitRun(token)
    ensures forall v: nat ::
      StartsWithNumeral(token, v) <==> DigitRun(token) > 0 && Value(token[..DigitRun(token)]) == v
  {
    forall n, v | IsNumeral(token, n, v)
      ensures n == DigitRun(token)
    {
      DigitRunIs(token, n);
    }
    var r := DigitRun(token);
    if r > 0 {
      assert IsNumeral(token, r, Value(token[..r]));
    }
  }

  /** A version is read if and only if the token starts with a numeral that fits. */
  lemma VersionExactlyWhen(token: string, v: Version)
    ensures ReadU64(token) == Read(v) <==> StartsWithNumeral(token, v)
  {
    NumeralIsRun(token);
  }

  /** A port is read if and only if the token starts with a signed numeral that fits. */
  lemma PortExactlyWhen(token: string, p: Port)
    ensures ReadI32(token) == Read(p) <==> StartsWithSigned(token, p)
  {
    NumeralIsRun(token);
    if token != "" {
      NumeralIsRun(token[1..]);
    }
  }

  // ----- Nodes, rumors and messages -----

  /** The kind, the id, the ip, the port and the version, then the status unless it is left to be ALIVE. */
  ghost predicate IsNode(ts: seq<string>, kind: string, n: Node) {
    && |ts| in {5, 6} && ts[..3] == [kind, n.id, n.ip]
    && StartsWithSigned(ts[3], n.port) && StartsWithNumeral(ts[4], n.version)
    && if |ts| == 6 then IsStatus(ts[5], n.status) else n.status.Alive?
  }

  predicate IsStatus(token: string, status: NodeStatus) {
    || (token == "ALIVE" && status.Alive?)
    || (token == "SUSPECTED" && status.Suspected?)
    || (token == "FAILED" && status.Failed?)
  }

  ghost predicate IsRumors(ts: seq<string>, rumors: seq<Node>) {
    if rumors == [] then ts == []
    else exists k :: 0 <= k <= |ts| && IsNode(ts[..k], "rumor", rumors[0]) && IsRumors(ts[k..], rumors[1..])
  }

  /** The name of the command; the sender, for a ping-req the peer, and the rumors. */
  ghost predicate IsMessage(name: string, ts: seq<string>, m: Message) {
    && name == (match m case Ping(_, _) => "ping" case PingReq(_, _, _) => "ping-req" case Ack(_, _) => "ack")
    && exists a, b :: 0 <= a <= b <= |ts| && Divides(ts, a, b, m)
  }

  ghost predicate Divides(ts: seq<string>, a: nat, b: nat, m: Message)
    requires a <= b <= |ts|
  {
    && IsNode(ts[..a], "self", m.self)
    && (if m.PingReq? then IsNode(ts[a..b], "peer", m.peer) else a == b)
    && IsRumors(ts[b..], m.rumors)
  }

  lemma NodeIsRead(ts: seq<string>, k: nat, kind: string, n: Node)
    requires k <= |ts| && IsNode(ts[..k], kind, n) && NoStatusFirst(ts[k..])
    ensures ParseNode(kind, ts) == NodeRead(n, k)
  {
    var piece := ts[..k];
    assert forall i :: 0 <= i < 3 ==> piece[..3][i] == ts[i];
    assert piece[3] == ts[3] && piece[4] == ts[4];
    PortExactlyWhen(ts[3], n.port);
    VersionExactlyWhen(ts[4], n.version);
    if k == 5 {
      assert 5 < |ts| ==> ts[5] == ts[k..][0];
    } else {
      assert piece[5] == ts[5];
    }
  }

  lemma NodeReadIs(kind: string, ts: seq<string>)
    requires ParseNode(kind, ts).NodeRead?
    ensures IsNode(ts[..ParseNode(kind, ts).taken], kind, ParseNode(kind, ts).node)
  {
    var r := ParseNode(kind, ts);
    var piece := ts[..r.taken];
    assert piece[..3] == [kind, r.node.id, r.node.ip];
    PortExactlyWhen(ts[3], r.node.port);
    VersionExactlyWhen(ts[4], r.node.version);
  }

  /** A node does not begin with a status, so what is read as one belongs to the node before. */
  lemma NodesStartWithKind(ts: seq<string>, k: nat, kind: string, n: Node)
    requires k <= |ts| && IsNode(ts[..k], kind, n)
    ensures ts != [] && ts[0] == kind
  {
    assert ts[..k][..3][0] == ts[0];
  }

  lemma RumorsStartWithKind(ts: seq<string>, rumors: seq<Node>)
    requires IsRumors(ts, rumors)
    ensures ts == [] || ts[0] == "rumor"
  {
    if rumors != [] {
      var k :| 0 <= k <= |ts| && IsNode(ts[..k], "rumor", rumors[0]) && IsRumors(ts[k..], rumors[1..]);
      NodesStartWithKind(ts, k, "rumor", rumors[0]);
    }
  }

  lemma {:induction false} RumorsAreRead(ts: seq<string>, rumors: seq<Node>)
    requires IsRumors(ts, rumors)
    ensures ParseRumors(ts) == Some(rumors)
  {
    hide ParseNode;
    hide IsNode;
    if rumors != [] {
      var k :| 0 <= k <= |ts| && IsNode(ts[..k], "rumor", rumors[0]) && IsRumors(ts[k..], rumors[1..]);
      RumorsStartWithKind(ts[k..], rumors[1..]);
      NodesStartWithKind(ts, k, "rumor", rumors[0]);
      NodeIsRead(ts, k, "rumor", rumors[0]);
      RumorsAreRead(ts[k..], rumors[1..]);
      assert [rumors[0]] + rumors[1..] == rumors;
    }
  }

  lemma {:induction false} RumorsReadAre(ts: seq<string>)
    requires ParseRumors(ts).Some?
    ensures IsRumors(ts, ParseRumors(ts).value)
    decreases |ts|
  {
    hide ParseNode;
    hide IsNode;
    if ts != [] {
      var first := ParseNode("rumor", ts);
      NodeReadIs("rumor", ts);
      RumorsReadAre(ts[first.taken..]);
      assert ParseRumors(ts).value[1..] == ParseRumors(ts[first.taken..]).value;
    }
  }

  lemma MessageIsRead(name: string, ts: seq<string>, m: Message)
    requires IsMessage(name, ts, m)
    ensures ParseArguments(name, ts) == Some(m)
  {
    hide ParseNode;
    hide IsNode;
    var a, b :| 0 <= a <= b <= |ts| && Divides(ts, a, b, m);
    RumorsStartWithKind(ts[b..], m.rumors);
    RumorsAreRead(ts[b..], m.rumors);
    if m.PingReq? {
      var more := ts[a..];
      assert more[..b - a] == ts[a..b];
      assert more[b - a..] == ts[b..];
      NodesStartWithKind(more, b - a, "peer", m.peer);
      NodeIsRead(more, b - a, "peer", m.peer);
    }
    NodeIsRead(ts, a, "self", m.self);
  }

  lemma MessageReadIs(name: string, ts: seq<string>)
    requires ParseArguments(name, ts).Some?
    ensures IsMessage(name, ts, ParseArguments(name, ts).value)
  {
    hide ParseNode;
    hide IsNode;
    var self, m := ParseNode("self", ts), ParseArguments(name, ts).value;
    var a := self.taken;
    NodeReadIs("self", ts);
    if name == "ping-req" {
      var peer := ParseNode("peer", ts[a..]);
      var b := a + peer.taken;
      NodeReadIs("peer", ts[a..]);
      assert ts[a..][..peer.taken] == ts[a..b];
      assert ts[a..][peer.taken..] == ts[b..];
      RumorsReadAre(ts[b..]);
      assert Divides(ts, a, b, m);
    } else {
      RumorsReadAre(ts[a..]);
      assert Divides(ts, a, a, m);
    }
  }

  /** Arguments are read as a message if and only if they are spelled as one; all others are an
      error. */
  lemma MessageExactlyWhen(name: string, ts: seq<string>)
    ensures forall m :: ParseArguments(name, ts) == Some(m) <==> IsMessage(name, ts, m)
    ensures ParseArguments(name, ts).None? <==> !exists m :: IsMessage(name, ts, m)
  {
    forall m | IsMessage(name, ts, m)
      ensures ParseArguments(name, ts) == Some(m)
    {
      MessageIsRead(name, ts, m);
    }
    if ParseArguments(name, ts).Some? {
      MessageReadIs(name, ts);
    }
  }
}
