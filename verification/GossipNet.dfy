/** The node as the source has it, over its two member sets and its pending lists
    (src/sw/gossip-net/gossip_net.h, src/sw/gossip-net/gossip_net.cpp). */
module GossipNets {
  import opened Nodes
  import opened MemberSets
  import opened RecentlyUpdated
  import opened Stores
  import opened PendingTasks
  import opened Decimals
  import opened Resp
  import opened RespParser
  import opened Messages
  import opened Protocol
  import opened Accounting

  /** What is handed to the server's send. */
  datatype Datagram = Datagram(ip: string, port: Port, data: string)

  function WireOf(p: Packet): Datagram {
    Datagram(p.ip, p.port, EncodeMessage(p.msg))
  }

  function Wire(sent: seq<Packet>): seq<Datagram> {
    if sent == [] then [] else Wire(sent[..|sent| - 1]) + [WireOf(sent[|sent| - 1])]
  }

  lemma {:induction false} EncodeBulksConcat(a: seq<string>, b: seq<string>)
    ensures EncodeBulks(a + b) == EncodeBulks(a) + EncodeBulks(b)
  {
    if b == [] {
      assert a + b == a;
    } else {
      var n := |b| - 1;
      assert (a + b)[..|a + b| - 1] == a + b[..n];
      EncodeBulksConcat(a, b[..n]);
      var x, y, z := EncodeBulks(a), EncodeBulks(b[..n]), EncodeBulk(b[n]);
      assert EncodeBulks(b) == y + z;
      assert EncodeBulks(a + b) == (x + y) + z;
      assert (x + y) + z == x + (y + z);
    }
  }

  lemma OneMoreBulk(tokens: seq<string>, token: string)
    ensures EncodeBulks(tokens + [token]) == EncodeBulks(tokens) + EncodeBulk(token)
  {
    assert (tokens + [token])[..|tokens|] == tokens;
  }

  lemma BulkAfter(start: string, tokens: seq<string>, token: string)
    ensures start + EncodeBulks(tokens) + EncodeBulk(token) == start + EncodeBulks(tokens + [token])
  {
    OneMoreBulk(tokens, token);
    var x, y := EncodeBulks(tokens), EncodeBulk(token);
    assert start + x + y == start + (x + y);
  }

  lemma FiveBulks(start: string, a: string, b: string, c: string, d: string, e: string)
    ensures start + EncodeBulk(a) + EncodeBulk(b) + EncodeBulk(c) + EncodeBulk(d) + EncodeBulk(e)
         == start + EncodeBulks([a, b, c, d, e])
  {
    var none: seq<string> := [];
    assert start + EncodeBulks(none) == start;
    BulkAfter(start, none, a);
    BulkAfter(start, none + [a], b);
    BulkAfter(start, none + [a] + [b], c);
    BulkAfter(start, none + [a] + [b] + [c], d);
    BulkAfter(start, none + [a] + [b] + [c] + [d], e);
    assert none + [a] + [b] + [c] + [d] + [e] == [a, b, c, d, e];
  }

  lemma FieldBulks(start: string, kind: string, node: Node)
    ensures start + EncodeBulk(kind) + EncodeBulk(node.id) + EncodeBulk(node.ip) + EncodeBulk(PrintInt(node.port))
            + EncodeBulk(PrintNat(node.version))
         == start + EncodeBulks(NodeTokens(kind, node, false))
  {
    FiveBulks(start, kind, node.id, node.ip, PrintInt(node.port), PrintNat(node.version));
    assert NodeTokens(kind, node, false)
        == [kind, node.id, node.ip, PrintInt(node.port), PrintNat(node.version)];
  }

  lemma StatusBulk(start: string, kind: string, node: Node)
    ensures start + EncodeBulks(NodeTokens(kind, node, false)) + EncodeBulk(StatusName(node.status))
         == start + EncodeBulks(NodeTokens(kind, node, true))
  {
    BulkAfter(start, NodeTokens(kind, node, false), StatusName(node.status));
    assert NodeTokens(kind, node, true) == NodeTokens(kind, node, false) + [StatusName(node.status)];
  }

  /** _append_node. */
  method AppendNode(builder: RespReplyBuilder, kind: string, node: Node, withStatus: bool)
    modifies builder
    ensures builder.buffer == old(builder.buffer) + EncodeBulks(NodeTokens(kind, node, withStatus))
  {
    ghost var start := builder.buffer;
    builder.AppendBulkString(kind);
    builder.AppendBulkString(node.id);
    builder.AppendBulkString(node.ip);
    builder.AppendBulkString(PrintInt(node.port));
    builder.AppendBulkString(PrintNat(node.version));
    FieldBulks(start, kind, node);
    if withStatus {
      var status;
      match node.status {
        case Alive => status := "ALIVE";
        case Suspected => status := "SUSPECTED";
        case Failed => status := "FAILED";
      }
      builder.AppendBulkString(status);
      StatusBulk(start, kind, node);
    }
  }

  /** All the rumors of a message. */
  method AppendRumors(builder: RespReplyBuilder, rumors: seq<Node>)
    modifies builder
    ensures builder.buffer == old(builder.buffer) + EncodeBulks(RumorTokens(rumors))
  {
    ghost var start := builder.buffer;
    for i := 0 to |rumors|
      invariant builder.buffer == RumorBytes(start, rumors, i)
    {
      AppendNode(builder, "rumor", rumors[i], true);
      NextRumor(start, rumors, i);
    }
    assert rumors[..|rumors|] == rumors;
  }

  function RumorBytes(start: string, rumors: seq<Node>, i: nat): string
    requires i <= |rumors|
  {
    start + EncodeBulks(RumorTokens(rumors[..i]))
  }

  lemma NextRumor(start: string, rumors: seq<Node>, i: nat)
    requires i < |rumors|
    ensures RumorBytes(start, rumors, i + 1)
         == RumorBytes(start, rumors, i) + EncodeBulks(NodeTokens("rumor", rumors[i], true))
  {
    var x, y := EncodeBulks(RumorTokens(rumors[..i])), EncodeBulks(NodeTokens("rumor", rumors[i], true));
    assert rumors[..i + 1] == rumors[..i] + [rumors[i]];
    BulksOfRumor(rumors[..i], rumors[i]);
    assert start + (x + y) == start + x + y;
  }

  /** The body shared by ack and ping: the declared size, the name, the sender and the rumors. */
  method BuildMessage(name: string, self: Node, rumors: seq<Node>) returns (data: string)
    ensures data == MessageBytes(name, self, rumors)
  {
    var builder := new RespReplyBuilder();
    builder.AppendArray(1 + 5 + |rumors| * 6);
    builder.AppendBulkString(name);
    AppendNode(builder, "self", self, false);
    AppendRumors(builder, rumors);
    data := builder.buffer;
    assert data == "" + EncodeLine('*', PrintNat(1 + 5 + |rumors| * 6)) + EncodeBulk(name)
                   + EncodeBulks(NodeTokens("self", self, false)) + EncodeBulks(RumorTokens(rumors));
    MessagePieces(name, self, rumors);
  }

  lemma MessagePieces(name: string, self: Node, rumors: seq<Node>)
    ensures MessageBytes(name, self, rumors)
         == "" + EncodeLine('*', PrintNat(1 + 5 + |rumors| * 6)) + EncodeBulk(name)
            + EncodeBulks(NodeTokens("self", self, false)) + EncodeBulks(RumorTokens(rumors))
  {
    var a, b := EncodeLine('*', PrintNat(1 + 5 + |rumors| * 6)), EncodeBulk(name);
    var c, d := EncodeBulks(NodeTokens("self", self, false)), EncodeBulks(RumorTokens(rumors));
    BulksOfMessage(name, NodeTokens("self", self, false), RumorTokens(rumors));
    Regroup(a, b, c, d);
  }

  lemma Regroup(a: string, b: string, c: string, d: string)
    ensures a + (b + c + d) == "" + a + b + c + d
  {
  }

  lemma BulksOfRumor(rumors: seq<Node>, rumor: Node)
    ensures EncodeBulks(RumorTokens(rumors + [rumor]))
         == EncodeBulks(RumorTokens(rumors)) + EncodeBulks(NodeTokens("rumor", rumor, true))
  {
    assert (rumors + [rumor])[..|rumors|] == rumors;
    EncodeBulksConcat(RumorTokens(rumors), NodeTokens("rumor", rumor, true));
  }

  lemma BulksOfMessage(name: string, fields: seq<string>, rumors: seq<string>)
    ensures EncodeBulks([name] + fields + rumors) == EncodeBulk(name) + EncodeBulks(fields) + EncodeBulks(rumors)
  {
    EncodeBulksConcat([name] + fields, rumors);
    EncodeBulksConcat([name], fields);
    OneMoreBulk([], name);
    assert [] + [name] == [name];
    assert "" + EncodeBulk(name) == EncodeBulk(name);
  }

  function MessageBytes(name: string, self: Node, rumors: seq<Node>): string {
    EncodeLine('*', PrintNat(1 + 5 + |rumors| * 6))
    + EncodeBulks([name] + NodeTokens("self", self, false) + RumorTokens(rumors))
  }

  lemma MessageBytesEncode(self: Node, rumors: seq<Node>)
    ensures MessageBytes("ack", self, rumors) == EncodeMessage(Ack(self, rumors))
    ensures MessageBytes("ping", self, rumors) == EncodeMessage(Ping(self, rumors))
  {
    var fields := NodeTokens("self", self, false);
    assert Tokens(Ack(self, rumors)) == ["ack"] + fields + RumorTokens(rumors);
    assert Tokens(Ping(self, rumors)) == ["ping"] + fields + RumorTokens(rumors);
  }

  class GossipNet {
    const self: Node
    const maxRumorNum: nat
    // How often a record is spread before it is stable, by the number of members; the source takes a
    // logarithm here.
    const spreadLimit: nat -> nat
    const members: MemberSet
    const recent: RecentlyUpdatedSet
    const tasks: PendingLists
    var outbox: seq<Datagram>

    ghost predicate Valid()
      reads this, members, recent, tasks
    {
      members.Valid() && recent.Valid() && tasks.Valid() && Inv(Contents())
    }

    ghost function Contents(): Store
      reads this, members, recent
      requires members.Valid()
    {
      Store(members.State(), recent.members)
    }

    ghost function State(): Peer
      reads this, members, recent, tasks
      requires members.Valid()
    {
      Peer(self, maxRumorNum, Contents(), tasks.taskIndex)
    }

    constructor (self: Node, maxRumorNum: nat, spreadLimit: nat -> nat, timeout: nat)
      ensures Valid() && fresh(members) && fresh(recent) && fresh(tasks)
      ensures State() == Peer(self, maxRumorNum, EMPTY, map[]) && outbox == []
    {
      this.self, this.maxRumorNum, this.spreadLimit := self, maxRumorNum, spreadLimit;
      members := new MemberSet();
      recent := new RecentlyUpdatedSet();
      tasks := new PendingLists(timeout);
      outbox := [];
    }

    method Update(rumors: seq<Node>)
      requires Valid()
      modifies members, recent
      ensures Valid()
      ensures State() == Hears(old(State()), rumors)
      // A record that is set becomes recent, with nothing counted; every other one stays where it is.
      ensures forall id :: MovesIfSet(old(Contents()), Contents(), id)
    {
      ghost var before := Contents();
      for i := 0 to |rumors|
        invariant Valid() && Contents() == ReceiveAll(before, rumors[..i])
      {
        assert rumors[..i + 1][..i] == rumors[..i];
        ghost var s := Contents();
        ReceiveRefinesMerge(s, rumors[i]);
        var node := members.TryUpdate(rumors[i]);
        if node.Some? {
          recent.Add(node.value);
        }
        assert Contents() == Receive(s, rumors[i]);
      }
      assert rumors[..|rumors|] == rumors;
      UpdateMoves(before, rumors);
    }

    ghost function Limit(): nat
      reads members, recent
    {
      spreadLimit(|members.nodes| + |recent.members|)
    }

    /** The limit on spreading is by the number of all members known. */
    lemma LimitIsByTheView()
      requires Valid()
      ensures Limit() == spreadLimit(|ViewOf(Contents())|)
    {
      hide ViewOf;
      hide Rotation;
      SameLimit(spreadLimit, Contents());
    }

    method BuildRumors() returns (rumors: seq<Node>)
      requires Valid()
      modifies members, recent
      ensures Valid()
      ensures Builds(old(Contents()), maxRumorNum, old(Limit()), rumors, Contents())
    {
      ghost var s := Contents();
      var limit := spreadLimit(|members.nodes| + |recent.members|);
      var batch, settled := recent.Fetch(maxRumorNum, limit);
      ghost var path := Absorb(s, batch, settled, limit);
      rumors := FillUp(batch);
      Built(s, maxRumorNum, limit, rumors, Contents(), batch, settled, path);
    }

    /** The rest of a batch comes from the stable members. */
    method FillUp(batch: seq<Node>) returns (rumors: seq<Node>)
      requires members.Valid() && |batch| <= maxRumorNum
      modifies members
      ensures members.Valid()
      ensures FillsUp(old(members.State()), maxRumorNum, batch, rumors, members.State())
    {
      rumors := batch;
      if |batch| != maxRumorNum {
        var temp := members.Fetch(maxRumorNum - |batch|);
        rumors := rumors + temp;
        assert rumors[|batch|..] == temp;
      }
    }

    /** The loop that adds the records that became stable. */
    method Absorb(ghost s: Store, ghost batch: seq<Node>, settled: seq<Node>, ghost limit: nat)
      returns (ghost path: seq<MemberState>)
      requires members.Valid() && Inv(s) && members.State() == s.stable
      requires Selects(s.recent, maxRumorNum, limit, Tally(batch, settled, recent.members))
      modifies members
      ensures members.Valid()
      ensures Absorbs(path, settled) && path[0] == s.stable && path[|settled|] == members.State()
    {
      hide Selects;
      FetchSplits(s, maxRumorNum, limit, Tally(batch, settled, recent.members));
      path := [members.State()];
      for i := 0 to |settled|
        invariant members.Valid()
        invariant Absorbs(path, settled[..i]) && path[0] == s.stable && path[i] == members.State()
      {
        NewToStable(s, path, settled, i, Settled(s.recent, maxRumorNum, limit));
        members.Add(settled[i]);
        PathGrows(path, settled, i, members.State());
        path := path + [members.State()];
      }
      assert settled[..|settled|] == settled;
    }

    /** Send the datagram of a message to a node. */
    method Send(dest: Node, name: string, from: Node, rumors: seq<Node>)
      modifies this`outbox
      ensures outbox == old(outbox) + [Datagram(dest.ip, dest.port, MessageBytes(name, from, rumors))]
    {
      var data := BuildMessage(name, from, rumors);
      outbox := outbox + [Datagram(dest.ip, dest.port, data)];
    }

    /** ack, naming this node or the peer on whose behalf it is relayed. */
    method SendAck(dest: Node, from: Node) returns (ghost sent: Packet)
      requires Valid()
      modifies this`outbox, members, recent
      ensures Valid()
      ensures EmitsAck(old(State()), dest, from, State(), sent)
      ensures Builds(old(Contents()), maxRumorNum, old(Limit()), sent.msg.rumors, Contents())
      ensures outbox == old(outbox) + [WireOf(sent)]
    {
      var rumors := BuildRumors();
      Send(dest, "ack", from, rumors);
      MessageBytesEncode(from, rumors);
      sent := Packet(dest.ip, dest.port, Ack(from, rumors));
    }

    method SendPing(dest: Node) returns (ghost sent: Packet)
      requires Valid()
      modifies this`outbox, members, recent
      ensures Valid()
      ensures EmitsPing(old(State()), dest, State(), sent)
      ensures Builds(old(Contents()), maxRumorNum, old(Limit()), sent.msg.rumors, Contents())
      ensures outbox == old(outbox) + [WireOf(sent)]
    {
      var rumors := BuildRumors();
      Send(dest, "ping", self, rumors);
      MessageBytesEncode(self, rumors);
      sent := Packet(dest.ip, dest.port, Ping(self, rumors));
    }

    method AddTask(task: Task, now: nat)
      requires Valid()
      modifies tasks
      ensures Valid()
      ensures State() == old(State()).(pending :=
        WithEntry(old(State()).pending, Entry(task, now + tasks.timeout)))
    {
      tasks.Add(task, now);
    }

    /** Running a task relays one ack; no task follows it. */
    method DoTask(id: string) returns (ghost sent: seq<Packet>)
      requires Valid()
      modifies this`outbox, members, recent, tasks
      ensures Valid()
      ensures RunsTasks(TakesTasks(old(State()), id), TasksOf(EntriesOf(old(State()).pending, id)), State(), sent)
      ensures outbox == old(outbox) + Wire(sent)
    {
      hide EntriesOf;
      hide Builds;
      hide EncodeMessage;
      var due := tasks.Fetch(id);
      ghost var path: seq<Peer> := [State()];
      sent := [];
      for i := 0 to |due|
        invariant Valid()
        invariant Relays(path, due[..i], sent)
        invariant path[0] == TakesTasks(old(State()), id) && path[i] == State()
        invariant outbox == old(outbox) + Wire(sent)
      {
        ghost var one := SendAck(due[i].dest, due[i].peer);
        RelaysGrow(path, due, i, sent, State(), one);
        WireGrows(sent, one);
        path, sent := path + [State()], sent + [one];
      }
      assert due[..|due|] == due;
    }
  }

  lemma SameLimit(limit: nat -> nat, s: Store)
    requires Inv(s)
    ensures limit(|s.stable.nodes| + |s.recent|) == limit(|ViewOf(s)|)
  {
    SizeOfBoth(s);
  }

  lemma RelaysGrow(path: seq<Peer>, due: seq<Task>, i: nat, sent: seq<Packet>, p: Peer, one: Packet)
    requires i < |due| && Relays(path, due[..i], sent)
    requires EmitsAck(path[i], due[i].dest, due[i].peer, p, one)
    ensures Relays(path + [p], due[..i + 1], sent + [one])
  {
    assert forall k :: 0 <= k < i ==> due[..i + 1][k] == due[..i][k];
  }

  lemma WireGrows(sent: seq<Packet>, one: Packet)
    ensures Wire(sent + [one]) == Wire(sent) + [WireOf(one)]
  {
    assert (sent + [one])[..|sent|] == sent;
  }

  lemma WireOfOne(one: Packet)
    ensures Wire([one]) == [WireOf(one)]
  {
    WireGrows([], one);
    assert [] + [one] == [one];
  }

  lemma Built(s: Store, max: nat, limit: nat, rumors: seq<Node>, s': Store,
              batch: seq<Node>, settled: seq<Node>, path: seq<MemberState>)
    requires Inv(s) && BuildsVia(s, max, limit, rumors, s', batch, settled, path)
    ensures Inv(s') && Builds(s, max, limit, rumors, s')
  {
    assert Builds(s, max, limit, rumors, s');
    BuildForgetsOnlyFailures(s, max, limit, rumors, s');
  }

  lemma PathGrows(path: seq<MemberState>, settled: seq<Node>, i: nat, m: MemberState)
    requires i < |settled| && Absorbs(path, settled[..i]) && JoinsStable(path[i], settled[i], m)
    ensures Absorbs(path + [m], settled[..i + 1])
  {
    assert forall k :: 0 <= k < i ==> settled[..i + 1][k] == settled[..i][k];
  }

  lemma NewToStable(s: Store, path: seq<MemberState>, settled: seq<Node>, i: nat, ids: set<string>)
    requires Inv(s) && i < |settled| && Absorbs(path, settled[..i]) && path[0] == s.stable
    requires Lists(settled, s.recent, ids)
    ensures settled[i].id !in path[i].nodes
  {
    AbsorbsOrdered(path, settled[..i], i);
    assert settled[..i][..i] == settled[..i];
    NotAmongEarlier(settled, i);
  }
}
