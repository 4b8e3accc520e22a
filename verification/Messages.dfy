/** The token lists of ping, ping-req and ack: what the sender writes and what the receiver reads
    (src/sw/gossip-net/gossip_net.cpp, src/sw/gossip-net/utils.h, src/sw/gossip-net/command.cpp).

    The grammar is the one stated above the command handlers: after the five fields of a node an
    optional status, consumed when it is recognised. The source looks one token too far for it and
    advances on the wrong branch. It also sends simple strings where its parser expects bulk strings;
    messages here are arrays of bulk strings. */
module Messages {
  import opened Wrappers
  import opened Nodes
  import opened Decimals
  import opened Resp
  import RespProperties

  datatype Message =
    | Ping(self: Node, rumors: seq<Node>)
    | PingReq(self: Node, peer: Node, rumors: seq<Node>)
    | Ack(self: Node, rumors: seq<Node>)

  // ----- Writing -----

  function StatusName(status: NodeStatus): string {
    match status
    case Alive => "ALIVE"
    case Suspected => "SUSPECTED"
    case Failed => "FAILED"
  }

  /** _append_node. */
  function NodeTokens(kind: string, n: Node, withStatus: bool): seq<string> {
    [kind, n.id, n.ip, PrintInt(n.port), PrintNat(n.version)] + if withStatus then [StatusName(n.status)] else []
  }

  function RumorTokens(rumors: seq<Node>): (ts: seq<string>)
    ensures |ts| == 6 * |rumors|
  {
    if rumors == [] then []
    else RumorTokens(rumors[..|rumors| - 1]) + NodeTokens("rumor", rumors[|rumors| - 1], true)
  }

  function Name(m: Message): string {
    match m
    case Ping(_, _) => "ping"
    case PingReq(_, _, _) => "ping-req"
    case Ack(_, _) => "ack"
  }

  /** The arguments of a message, after its name. */
  function ArgTokens(m: Message): seq<string> {
    NodeTokens("self", m.self, false)
    + (if m.PingReq? then NodeTokens("peer", m.peer, false) else [])
    + RumorTokens(m.rumors)
  }

  function Tokens(m: Message): seq<string> {
    [Name(m)] + ArgTokens(m)
  }

  /** The array size that the sender declares. */
  function DeclaredSize(m: Message): nat {
    1 + 5 + (if m.PingReq? then 5 else 0) + |m.rumors| * 6
  }

  // ----- Reading -----

  function ParseStatus(token: string): Option<NodeStatus> {
    if token == "ALIVE" then Some(Alive)
    else if token == "SUSPECTED" then Some(Suspected)
    else if token == "FAILED" then Some(Failed)
    else None
  }

  /** parse_node from the front of the tokens: the node and how many tokens it takes, or an error. */
  datatype NodeRead = NoNode | NodeRead(node: Node, taken: nat)

  function ParseNode(kind: string, ts: seq<string>): (r: NodeRead)
    ensures r.NodeRead? ==> 5 <= r.taken <= |ts|
  {
    if |ts| < 5 || ts[0] != kind then NoNode
    else
      var port, version := ReadI32(ts[3]), ReadU64(ts[4]);
      if port.NotANumber? || version.NotANumber? then NoNode
      else
        var status := if |ts| > 5 then ParseStatus(ts[5]) else None;
        NodeRead(Node(ts[1], ts[2], port.value, version.value, if status.Some? then status.value else Alive),
                 if status.Some? then 6 else 5)
  }

  /** parse_rumors: all the tokens, or an error. */
  function ParseRumors(ts: seq<string>): Option<seq<Node>> {
    if ts == [] then Some([])
    else
      var first := ParseNode("rumor", ts);
      if first.NoNode? then None
      else
        var rest := ParseRumors(ts[first.taken..]);
        if rest.None? then None else Some([first.node] + rest.value)
  }

  /** _parse_args of the three commands. */
  function ParseArguments(name: string, ts: seq<string>): Option<Message> {
    var self := ParseNode("self", ts);
    if self.NoNode? then None
    else if name == "ping-req" then
      var peer := ParseNode("peer", ts[self.taken..]);
      if peer.NoNode? then None
      else
        var rumors := ParseRumors(ts[self.taken..][peer.taken..]);
        if rumors.None? then None else Some(PingReq(self.node, peer.node, rumors.value))
    else
      var rumors := ParseRumors(ts[self.taken..]);
      if rumors.None? then None
      else if name == "ping" then Some(Ping(self.node, rumors.value))
      else if name == "ack" then Some(Ack(self.node, rumors.value))
      else None
  }

  // ----- The loops of the source -----

  /** parse_node over an iterator into the arguments. */
  method ReadNode(kind: string, args: seq<string>, begin: nat) returns (r: Option<Node>, first: nat)
    requires begin <= |args|
    ensures first <= |args|
    ensures r == match ParseNode(kind, args[begin..]) case NoNode => None case NodeRead(node, _) => Some(node)
    ensures r.Some? ==> first == begin + ParseNode(kind, args[begin..]).taken
  {
    first := begin;
    var dist := |args| - first;
    if dist < 5 {
      return None, first;
    }
    if args[first] != kind {
      return None, first;
    }
    first := first + 1;
    var id := args[first];
    first := first + 1;
    var ip := args[first];
    first := first + 1;
    var port := ReadI32(args[first]);
    if port.NotANumber? {
      return None, first;
    }
    first := first + 1;
    var version := ReadU64(args[first]);
    if version.NotANumber? {
      return None, first;
    }
    first := first + 1;
    var node := Node(id, ip, port.value, version.value, Alive);
    if dist > 5 {
      var status := ParseStatus(args[first]);
      if status.Some? {
        node := node.(status := status.value);
        first := first + 1;
      }
    }
    r := Some(node);
  }

  method ReadRumors(args: seq<string>, begin: nat) returns (r: Option<seq<Node>>)
    requires begin <= |args|
    ensures r == ParseRumors(args[begin..])
  {
    var rumors: seq<Node>, first := [], begin;
    PrependedNone(ParseRumors(args[begin..]));
    while first != |args|
      invariant begin <= first <= |args|
      invariant ParseRumors(args[begin..]) == Prepended(rumors, ParseRumors(args[first..]))
      decreases |args| - first
    {
      ghost var rest := args[first..];
      var node, next := ReadNode("rumor", args, first);
      if node.None? {
        return None;
      }
      assert rest[next - first..] == args[next..];
      assert ParseRumors(rest) == Prepended([node.value], ParseRumors(args[next..]));
      PrependedTwice(rumors, node.value, ParseRumors(args[next..]));
      rumors := rumors + [node.value];
      first := next;
    }
    PrependedTo(rumors);
    r := Some(rumors);
  }

  function Prepended(rumors: seq<Node>, rest: Option<seq<Node>>): Option<seq<Node>> {
    if rest.None? then None else Some(rumors + rest.value)
  }

  lemma PrependedNone(rest: Option<seq<Node>>)
    ensures Prepended([], rest) == rest
  {
    if rest.Some? {
      assert [] + rest.value == rest.value;
    }
  }

  lemma PrependedTo(rumors: seq<Node>)
    ensures Prepended(rumors, Some([])) == Some(rumors)
  {
    assert rumors + [] == rumors;
  }

  lemma PrependedTwice(a: seq<Node>, n: Node, rest: Option<seq<Node>>)
    ensures Prepended(a, Prepended([n], rest)) == Prepended(a + [n], rest)
  {
    if rest.Some? {
      assert a + ([n] + rest.value) == a + [n] + rest.value;
    }
  }

  // ----- Writing, then reading -----

  /** The tokens of a node start with its kind, so a node without its status is followed by no status. */
  ghost predicate NoStatusFirst(ts: seq<string>) {
    ts == [] || ParseStatus(ts[0]).None?
  }

  lemma NodeRoundTrip(kind: string, n: Node, withStatus: bool, rest: seq<string>)
    requires !withStatus ==> NoStatusFirst(rest)
    ensures ParseNode(kind, NodeTokens(kind, n, withStatus) + rest)
         == NodeRead(if withStatus then n else Bare(n), if withStatus then 6 else 5)
    ensures (NodeTokens(kind, n, withStatus) + rest)[if withStatus then 6 else 5..] == rest
  {
    var ts := NodeTokens(kind, n, withStatus) + rest;
    ReadI32OfPrint(n.port);
    ReadU64OfPrint(n.version);
    assert ts[3] == PrintInt(n.port) && ts[4] == PrintNat(n.version);
  }

  lemma {:induction false} RumorsRoundTrip(rumors: seq<Node>)
    ensures ParseRumors(RumorTokens(rumors)) == Some(rumors)
    ensures NoStatusFirst(RumorTokens(rumors))
  {
    if rumors != [] {
      RumorTokensFromFront(rumors);
      var rest := RumorTokens(rumors[1..]);
      NodeRoundTrip("rumor", rumors[0], true, rest);
      RumorsRoundTrip(rumors[1..]);
      assert [rumors[0]] + rumors[1..] == rumors;
    }
  }

  lemma {:induction false} RumorTokensFromFront(rumors: seq<Node>)
    requires rumors != []
    ensures RumorTokens(rumors) == NodeTokens("rumor", rumors[0], true) + RumorTokens(rumors[1..])
  {
    if |rumors| > 1 {
      var n := |rumors| - 1;
      RumorTokensFromFront(rumors[..n]);
      assert rumors[..n][1..] == rumors[1..][..n - 1];
    } else {
      assert rumors[..0] == [];
    }
  }

  /** What the receiver makes of a message: nodes sent without their status are read as alive. */
  function Received(m: Message): Message {
    match m
    case Ping(self, rumors) => Ping(Bare(self), rumors)
    case PingReq(self, peer, rumors) => PingReq(Bare(self), Bare(peer), rumors)
    case Ack(self, rumors) => Ack(Bare(self), rumors)
  }

  /** A message is read exactly as it was sent if and only if the nodes it names without a status are
      alive. */
  lemma ReadAsSent(m: Message)
    ensures Received(m) == m <==> m.self.status.Alive? && (m.PingReq? ==> m.peer.status.Alive?)
    ensures ParseArguments(Name(m), ArgTokens(m)) == Some(m) <==>
      m.self.status.Alive? && (m.PingReq? ==> m.peer.status.Alive?)
  {
    TokensRoundTrip(m);
  }

  lemma SizeIsDeclared(m: Message)
    ensures |Tokens(m)| == DeclaredSize(m)
  {
  }

  lemma PingReqRoundTrip(m: Message, more: seq<string>, rest: seq<string>)
    requires m.PingReq? && more == NodeTokens("peer", m.peer, false) + rest
    requires ParseRumors(rest) == Some(m.rumors) && NoStatusFirst(rest)
    ensures ParseArguments("ping-req", NodeTokens("self", m.self, false) + more) == Some(Received(m))
  {
    NodeRoundTrip("self", m.self, false, more);
    NodeRoundTrip("peer", m.peer, false, rest);
  }

  /** The arguments written for a message are read back as the message. */
  lemma TokensRoundTrip(m: Message)
    ensures ParseArguments(Name(m), ArgTokens(m)) == Some(Received(m))
  {
    hide ParseNode;
    var rest := RumorTokens(m.rumors);
    RumorsRoundTrip(m.rumors);
    if m.PingReq? {
      var more := NodeTokens("peer", m.peer, false) + rest;
      assert ArgTokens(m) == NodeTokens("self", m.self, false) + more;
      PingReqRoundTrip(m, more, rest);
    } else {
      assert ArgTokens(m) == NodeTokens("self", m.self, false) + rest;
      NodeRoundTrip("self", m.self, false, rest);
    }
  }

  // ----- Down to the bytes -----

  /** The datagram of a message. */
  function EncodeMessage(m: Message): string {
    EncodeLine('*', PrintNat(DeclaredSize(m))) + EncodeBulks(Tokens(m))
  }

  /** A datagram is read as exactly one request, which is read as the message that was sent. */
  lemma DatagramRoundTrip(m: Message, bound: Bound)
    requires RespProperties.Encodable(Tokens(m))
    ensures Parse(EncodeMessage(m), bound)
         == Requests([RespRequest(Name(m), ArgTokens(m))], |EncodeMessage(m)|)
    ensures ParseArguments(Name(m), ArgTokens(m)) == Some(Received(m))
  {
    TokensRoundTrip(m);
    OneRequest(m, Tokens(m), bound);
  }

  lemma OneRequest(m: Message, tokens: seq<string>, bound: Bound)
    requires tokens == [Name(m)] + ArgTokens(m) && RespProperties.Encodable(tokens)
    ensures Parse(EncodeMessage(m), bound)
         == Requests([RespRequest(Name(m), ArgTokens(m))], |EncodeMessage(m)|)
  {
    SizeIsDeclared(m);
    RespProperties.RoundTrip(tokens, bound);
    assert tokens[1..] == ArgTokens(m);
    assert RespProperties.RequestOf(tokens) == RespRequest(Name(m), ArgTokens(m));
  }
}
