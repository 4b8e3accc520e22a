/** The request parser and the reply builder as the source runs them: every reading advances the
    caller's view of the buffer, and the builder appends to its own
    (src/sw/gossip-net/resp.h, src/sw/gossip-net/resp.cpp). */
module RespParser {
  import opened Nodes
  import opened Decimals
  import opened Resp

  datatype Reading<+T> = Got(value: T) | Incomplete | Thrown

  /** What is left of a view from which a prefix has been removed. */
  ghost predicate IsSuffix(after: string, before: string) {
    |after| <= |before| && after == before[|before| - |after|..]
  }

  lemma SuffixOfSuffix(a: string, b: string, c: string)
    requires IsSuffix(a, b) && IsSuffix(b, c)
    ensures IsSuffix(a, c)
  {
  }

  /** What a reading reports, by the specification. */
  function AsReading<T>(p: Parsed<T>): Reading<T> {
    match p
    case Done(value, _) => Got(value)
    case More(_) => Incomplete
    case Bad => Thrown
  }

  /** By how much it advances the view; after an error the view is not used again. */
  function Advance<T>(p: Parsed<T>): nat {
    match p
    case Done(_, size) => size
    case More(skipped) => skipped
    case Bad => 0
  }

  method ReadNum(c: char, view: string) returns (r: Reading<nat>, buffer: string)
    ensures IsSuffix(buffer, view) && r == AsReading(ParseNum(c, view))
    ensures r.Thrown? || |view| - |buffer| == Advance(ParseNum(c, view))
  {
    buffer := view;
    if buffer == "" {
      return Incomplete, buffer;
    }
    if buffer[0] != c {
      return Thrown, buffer;
    }
    buffer := buffer[1..];
    if buffer == "" {
      return Incomplete, buffer;
    }
    var n := DigitRun(buffer);
    if n == 0 || Value(buffer[..n]) >= U64 {
      return Thrown, buffer;
    }
    if n + 2 > |buffer| {
      return Incomplete, buffer;
    }
    if buffer[n] != '\r' || buffer[n + 1] != '\n' {
      return Thrown, buffer;
    }
    r := Got(Value(buffer[..n]));
    buffer := buffer[n + 2..];
  }

  method ReadArgv(view: string) returns (r: Reading<string>, buffer: string)
    ensures IsSuffix(buffer, view) && r == AsReading(ParseArgv(view))
    ensures r.Thrown? || |view| - |buffer| == Advance(ParseArgv(view))
  {
    var num;
    num, buffer := ReadNum('$', view);
    if num.Thrown? {
      return Thrown, buffer;
    }
    if num.Incomplete? {
      return Incomplete, buffer;
    }
    assert buffer == Drop(view, ParseNum('$', view).size);
    var len := num.value;
    if |buffer| < len + 2 {
      return Incomplete, buffer;
    }
    if buffer[len] != '\r' || buffer[len + 1] != '\n' {
      return Thrown, buffer;
    }
    r := Got(buffer[..len]);
    buffer := buffer[len + 2..];
  }

  /** Once reading items in a row has stopped, asking for more of them changes nothing. */
  lemma {:induction false} RepeatStopped<T>(read: string -> Parsed<T>, s: string, few: nat, many: nat)
    requires few <= many && !Repeat(read, s, few).Done?
    ensures Repeat(read, s, many) == Repeat(read, s, few)
  {
    if few < many {
      RepeatStopped(read, s, few, many - 1);
    }
  }

  /** One more item, read from what is left. */
  lemma RepeatOnce<T>(read: string -> Parsed<T>, s: string, n: nat, items: seq<T>, rest: string)
    requires IsSuffix(rest, s) && Repeat(read, s, n) == Done(items, |s| - |rest|)
    ensures Repeat(read, s, n + 1) == Then(items, |s| - |rest|, read(rest))
  {
    assert Drop(s, |s| - |rest|) == rest;
  }

  lemma ItemsWithoutExtra(s: string, argc: nat, bound: Bound)
    requires argc >= 1 && (bound.Written? ==> !Repeat(ParseArgv, s, argc).Done?)
    ensures ParseItems(s, argc, bound) == Repeat(ParseArgv, s, argc)
  {
  }

  lemma ItemsWithExtra(s: string, argc: nat, items: seq<string>, taken: nat)
    requires argc >= 1 && Repeat(ParseArgv, s, argc) == Done(items, taken)
    ensures ParseItems(s, argc, Written) == WithExtra(items, taken, ParseArgv(Drop(s, taken)))
  {
  }

  /** The part of the parse loop that reads the name and the arguments. */
  method ReadItems(view: string, argc: nat, bound: Bound)
    returns (r: Reading<seq<string>>, buffer: string)
    requires argc >= 1
    ensures IsSuffix(buffer, view) && r == AsReading(ParseItems(view, argc, bound))
    ensures r.Thrown? || |view| - |buffer| == Advance(ParseItems(view, argc, bound))
  {
    r, buffer := ReadRow(view, argc);
    if bound.Intended? || !r.Got? {
      ItemsWithoutExtra(view, argc, bound);
      return;
    }
    // The loop as written asks for one argument more, and does without it when it is incomplete.
    var items, rest := r.value, buffer;
    ItemsWithExtra(view, argc, items, |view| - |rest|);
    assert Drop(view, |view| - |rest|) == rest;
    var extra;
    extra, buffer := ReadArgv(rest);
    SuffixOfSuffix(buffer, rest, view);
    if extra.Thrown? {
      r := Thrown;
    } else if extra.Got? {
      r := Got(items + [extra.value]);
    }
  }

  lemma RowGrows(view: string, idx: nat, items: seq<string>, rest: string, item: string, buffer: string)
    requires IsSuffix(rest, view) && IsSuffix(buffer, rest)
    requires Repeat(ParseArgv, view, idx) == Done(items, |view| - |rest|)
    requires ParseArgv(rest) == Done(item, |rest| - |buffer|)
    ensures IsSuffix(buffer, view)
    ensures Repeat(ParseArgv, view, idx + 1) == Done(items + [item], |view| - |buffer|)
  {
    SuffixOfSuffix(buffer, rest, view);
    RepeatOnce(ParseArgv, view, idx, items, rest);
  }

  lemma RowStops(view: string, num: nat, idx: nat, items: seq<string>, rest: string)
    requires IsSuffix(rest, view) && idx < num
    requires Repeat(ParseArgv, view, idx) == Done(items, |view| - |rest|) && !ParseArgv(rest).Done?
    ensures Repeat(ParseArgv, view, num)
         == if ParseArgv(rest).Bad? then Bad else More(|view| - |rest| + ParseArgv(rest).skipped)
  {
    RepeatOnce(ParseArgv, view, idx, items, rest);
    RepeatStopped(ParseArgv, view, idx + 1, num);
  }

  method ReadRow(view: string, num: nat) returns (r: Reading<seq<string>>, buffer: string)
    ensures IsSuffix(buffer, view) && r == AsReading(Repeat(ParseArgv, view, num))
    ensures r.Thrown? || |view| - |buffer| == Advance(Repeat(ParseArgv, view, num))
  {
    hide ParseArgv;
    var items: seq<string> := [];
    buffer := view;
    for idx := 0 to num
      invariant IsSuffix(buffer, view)
      invariant Repeat(ParseArgv, view, idx) == Done(items, |view| - |buffer|)
    {
      var rest := buffer;
      var argv;
      argv, buffer := ReadArgv(rest);
      if argv.Thrown? {
        RowStops(view, num, idx, items, rest);
        SuffixOfSuffix(buffer, rest, view);
        return Thrown, buffer;
      }
      if argv.Incomplete? {
        RowStops(view, num, idx, items, rest);
        SuffixOfSuffix(buffer, rest, view);
        return Incomplete, buffer;
      }
      RowGrows(view, idx, items, rest, argv.value, buffer);
      items := items + [argv.value];
    }
    r := Got(items);
  }

  /** The body of the parse loop. */
  method ReadRequest(view: string, bound: Bound) returns (r: Reading<RespRequest>, buffer: string)
    ensures IsSuffix(buffer, view) && r == AsReading(ParseRequest(view, bound))
    ensures r.Thrown? || |view| - |buffer| == Advance(ParseRequest(view, bound))
  {
    var argc;
    argc, buffer := ReadNum('*', view);
    if argc.Thrown? {
      return Thrown, buffer;
    }
    if argc.Incomplete? {
      return Incomplete, buffer;
    }
    if argc.value < 1 {
      return Thrown, buffer;
    }
    var rest := buffer;
    assert rest == Drop(view, ParseNum('*', view).size);
    var items;
    items, buffer := ReadItems(rest, argc.value, bound);
    SuffixOfSuffix(buffer, rest, view);
    if items.Thrown? {
      return Thrown, buffer;
    }
    if items.Incomplete? {
      return Incomplete, buffer;
    }
    r := Got(RespRequest(items.value[0], items.value[1..]));
  }

  lemma AppendTwice(a: seq<RespRequest>, m: nat, b: seq<RespRequest>, n: nat, o: Outcome)
    ensures Append(a, m, Append(b, n, o)) == Append(a + b, m + n, o)
  {
    if o.Requests? {
      assert a + (b + o.requests) == a + b + o.requests;
    }
  }

  lemma AppendNothing(o: Outcome)
    ensures Append([], 0, o) == o
  {
  }

  /** What the loop has established when its body has read from `rest` and left `buffer`. */
  lemma ParseNext(all: Outcome, bound: Bound, requests: seq<RespRequest>, bytes: nat, rest: string,
                  one: Reading<RespRequest>, buffer: string)
    requires IsSuffix(buffer, rest) && all == Append(requests, bytes, Parse(rest, bound))
    requires one == AsReading(ParseRequest(rest, bound))
    requires one.Thrown? || |rest| - |buffer| == Advance(ParseRequest(rest, bound))
    ensures one.Thrown? ==> all == Failure
    ensures one.Incomplete? ==> all == Requests(requests, bytes)
    ensures one.Got? ==> |buffer| < |rest|
    ensures one.Got? ==> all == Append(requests + [one.value], bytes + |rest| - |buffer|, Parse(buffer, bound))
  {
    RequestSize(rest, bound);
    if one.Got? {
      ParseGot(rest, bound, one.value, buffer);
      AppendTwice(requests, bytes, [one.value], |rest| - |buffer|, Parse(buffer, bound));
    } else {
      ParseStops(rest, bound);
    }
  }

  lemma ParseGot(rest: string, bound: Bound, value: RespRequest, buffer: string)
    requires IsSuffix(buffer, rest) && ParseRequest(rest, bound) == Done(value, |rest| - |buffer|)
    ensures Parse(rest, bound) == Append([value], |rest| - |buffer|, Parse(buffer, bound))
  {
    assert buffer == Drop(rest, |rest| - |buffer|);
  }

  lemma ParseStops(rest: string, bound: Bound)
    requires !ParseRequest(rest, bound).Done?
    ensures Parse(rest, bound) == if ParseRequest(rest, bound).Bad? then Failure else Requests([], 0)
  {
  }

  method ParseBuffer(data: string, bound: Bound) returns (r: Outcome)
    ensures r == Parse(data, bound)
  {
    var buffer, requests: seq<RespRequest>, bytesParsed: nat := data, [], 0;
    AppendNothing(Parse(data, bound));
    while true
      invariant IsSuffix(buffer, data) && bytesParsed == |data| - |buffer|
      invariant Parse(data, bound) == Append(requests, bytesParsed, Parse(buffer, bound))
      decreases |buffer|
    {
      var rest := buffer;
      var one;
      one, buffer := ReadRequest(rest, bound);
      ParseNext(Parse(data, bound), bound, requests, bytesParsed, rest, one, buffer);
      SuffixOfSuffix(buffer, rest, data);
      if one.Thrown? {
        return Failure;
      }
      if one.Incomplete? {
        return Requests(requests, bytesParsed);
      }
      requests := requests + [one.value];
      bytesParsed := |data| - |buffer|;
    }
  }

  // ----- The builder -----

  class RespReplyBuilder {
    var buffer: string

    constructor ()
      ensures buffer == ""
    {
      buffer := "";
    }

    method AppendString(kind: char, text: string)
      modifies this
      ensures buffer == old(buffer) + EncodeLine(kind, text)
    {
      var reply := [kind];
      reply := reply + text;
      reply := reply + "\r\n";
      buffer := buffer + reply;
    }

    method AppendArray(size: int)
      modifies this
      ensures buffer == old(buffer) + EncodeLine('*', PrintInt(size))
    {
      AppendString('*', PrintInt(size));
    }

    method AppendBulkString(text: string)
      modifies this
      ensures buffer == old(buffer) + EncodeBulk(text)
    {
      var len := PrintNat(|text|);
      var reply := ['$'];
      reply := reply + len;
      reply := reply + "\r\n";
      reply := reply + text;
      reply := reply + "\r\n";
      buffer := buffer + reply;
    }
  }
}
