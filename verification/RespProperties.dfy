/** Properties of the RESP format as this parser reads it and this builder writes it: parsing is
    incremental, and undoes building (src/sw/gossip-net/resp.cpp). */
module RespProperties {
  import opened Nodes
  import opened Decimals
  import opened Resp
  import RespParser

  // ----- A reading that did not run out of bytes is not changed by further bytes -----

  lemma NumStable(c: char, s: string, t: string)
    requires !ParseNum(c, s).More?
    ensures ParseNum(c, s + t) == ParseNum(c, s)
  {
    if s != "" && s[0] == c && |s| > 1 {
      var digits := s[1..];
      var n := DigitRun(digits);
      assert (s + t)[1..] == digits + t;
      RunOfExtension(digits, t);
      var m := DigitRun(digits + t);
      if n == |digits| {
        // Only an overflow can have stopped the reading here, and more digits keep it one.
        assert (digits + t)[..m] == digits[..n] + (digits + t)[n..m];
        ValueGrows(digits[..n], (digits + t)[n..m]);
      } else {
        assert m == n;
      }
    }
  }

  lemma BodyStable(body: string, len: nat, header: nat, t: string)
    requires !ParseBody(body, len, header).More?
    ensures ParseBody(body + t, len, header) == ParseBody(body, len, header)
  {
    assert (body + t)[..len] == body[..len];
  }

  lemma DropOfExtension(s: string, k: nat, t: string)
    requires k <= |s|
    ensures Drop(s + t, k) == Drop(s, k) + t
  {
  }

  lemma ArgvStable(s: string, t: string)
    requires !ParseArgv(s).More?
    ensures ParseArgv(s + t) == ParseArgv(s)
  {
    var n := ParseNum('$', s);
    NumStable('$', s, t);
    if n.Done? {
      DropOfExtension(s, n.size, t);
      BodyStable(Drop(s, n.size), n.value, n.size, t);
    }
  }

  ghost predicate Stable<T>(read: string -> Parsed<T>) {
    forall s, t :: !read(s).More? ==> read(s + t) == read(s)
  }

  lemma {:induction false} RepeatStable<T>(read: string -> Parsed<T>, s: string, t: string, num: nat)
    requires Bounded(read) && Stable(read)
    requires !Repeat(read, s, num).More?
    ensures Repeat(read, s + t, num) == Repeat(read, s, num)
  {
    if num > 0 {
      RepeatStable(read, s, t, num - 1);
      RepeatBounded(read, s, num - 1);
      var init := Repeat(read, s, num - 1);
      if init.Done? {
        DropOfExtension(s, init.size, t);
        assert read(Drop(s, init.size) + t) == read(Drop(s, init.size));
      }
    }
  }

  lemma ArgvReader()
    ensures Bounded(ParseArgv) && Stable(ParseArgv)
  {
    forall s: string, t: string | !ParseArgv(s).More?
      ensures ParseArgv(s + t) == ParseArgv(s)
    {
      ArgvStable(s, t);
    }
  }

  /** A request that is complete, or an error, stays what it is whatever arrives afterwards. */
  lemma RequestStable(s: string, t: string)
    requires !ParseRequest(s, Intended).More?
    ensures ParseRequest(s + t, Intended) == ParseRequest(s, Intended)
  {
    var n := ParseNum('*', s);
    NumStable('*', s, t);
    if n.Done? && n.value >= 1 {
      DropOfExtension(s, n.size, t);
      ArgvReader();
      RepeatStable(ParseArgv, Drop(s, n.size), t, n.value);
    }
  }

  // ----- Incremental parsing -----

  /** Parsing a buffer that has grown gives the requests it gave before, then what the bytes left over
      give together with the new ones; it fails exactly when these do. */
  lemma {:induction false} ParseIsIncremental(a: string, b: string)
    requires Parse(a, Intended).Requests?
    ensures Parse(a, Intended).bytes <= |a|
    ensures
      var done := Parse(a, Intended);
      Parse(a + b, Intended) == Append(done.requests, done.bytes, Parse(a[done.bytes..] + b, Intended))
    decreases |a|
  {
    hide ParseRequest;
    var p := ParseRequest(a, Intended);
    RequestSize(a, Intended);
    if p.More? {
      assert a[0..] == a;
      RespParser.AppendNothing(Parse(a + b, Intended));
    } else {
      var rest := Drop(a, p.size);
      RequestStable(a, b);
      DropOfExtension(a, p.size, b);
      ParseIsIncremental(rest, b);
      var later := Parse(rest, Intended);
      assert a[p.size + later.bytes..] == rest[later.bytes..];
      RespParser.AppendTwice([p.value], p.size, later.requests, later.bytes,
                             Parse(rest[later.bytes..] + b, Intended));
    }
  }

  /** A buffer that fails to parse fails however it goes on. */
  lemma {:induction false} FailureIsFinal(a: string, b: string)
    requires Parse(a, Intended).Failure?
    ensures Parse(a + b, Intended).Failure?
    decreases |a|
  {
    hide ParseRequest;
    var p := ParseRequest(a, Intended);
    RequestSize(a, Intended);
    RequestStable(a, b);
    if p.Done? {
      DropOfExtension(a, p.size, b);
      FailureIsFinal(Drop(a, p.size), b);
    }
  }

  /** No complete request is left among the bytes that a parse does not consume. */
  lemma {:induction false} RestIsIncomplete(a: string)
    requires Parse(a, Intended).Requests?
    ensures Parse(a, Intended).bytes <= |a|
    ensures ParseRequest(a[Parse(a, Intended).bytes..], Intended).More?
    decreases |a|
  {
    var p := ParseRequest(a, Intended);
    RequestSize(a, Intended);
    if p.More? {
      assert a[0..] == a;
    } else {
      var rest := Drop(a, p.size);
      RestIsIncomplete(rest);
      assert a[p.size + Parse(rest, Intended).bytes..] == rest[Parse(rest, Intended).bytes..];
    }
  }

  /** Every strict prefix of a complete request is incomplete: no request, and no error. */
  lemma PrefixIsIncomplete(s: string, j: nat)
    requires ParseRequest(s, Intended).Done? && j < ParseRequest(s, Intended).size <= |s|
    ensures ParseRequest(s[..j], Intended).More?
  {
    assert s == s[..j] + s[j..];
    RequestSize(s[..j], Intended);
    if !ParseRequest(s[..j], Intended).More? {
      RequestStable(s[..j], s[j..]);
    }
  }

  // ----- Building, then parsing -----

  lemma NumRoundTrip(c: char, n: nat, rest: string)
    requires n < U64
    ensures ParseNum(c, EncodeLine(c, PrintNat(n)) + rest) == Done(n, |EncodeLine(c, PrintNat(n))|)
  {
    var line := EncodeLine(c, PrintNat(n));
    var s, tail := line + rest, "\r\n" + rest;
    assert s[1..] == PrintNat(n) + tail;
    RunOfPrintNat(n, tail);
    ValueOfPrintNat(n);
    assert (PrintNat(n) + tail)[..|PrintNat(n)|] == PrintNat(n);
  }

  lemma ArgvRoundTrip(text: string, rest: string)
    requires |text| < U64
    ensures ParseArgv(EncodeBulk(text) + rest) == Done(text, |EncodeBulk(text)|)
  {
    var line := EncodeLine('$', PrintNat(|text|));
    var body := text + "\r\n" + rest;
    assert EncodeBulk(text) + rest == line + body;
    NumRoundTrip('$', |text|, body);
    assert Drop(line + body, |line|) == body;
    assert body[..|text|] == text;
  }

  /** Lengths that fit the builder's numbers: a signed array size, unsigned string lengths. */
  ghost predicate Encodable(texts: seq<string>) {
    |texts| < I64 && forall i :: 0 <= i < |texts| ==> |texts[i]| < U64
  }

  lemma RepeatOneMore<T>(read: string -> Parsed<T>, s: string, n: nat, items: seq<T>, k: nat,
                         tail: string, item: T, size: nat)
    requires Repeat(read, s, n) == Done(items, k) && Drop(s, k) == tail && read(tail) == Done(item, size)
    ensures Repeat(read, s, n + 1) == Done(items + [item], k + size)
  {
  }

  lemma AnotherArgument(s: string, init: seq<string>, taken: nat, tail: string, last: string, size: nat)
    requires Repeat(ParseArgv, s, |init|) == Done(init, taken) && Drop(s, taken) == tail
    requires ParseArgv(tail) == Done(last, size)
    ensures Repeat(ParseArgv, s, |init| + 1) == Done(init + [last], taken + size)
  {
    RepeatOneMore(ParseArgv, s, |init|, init, taken, tail, last, size);
  }

  lemma {:induction false} ArgsRoundTrip(texts: seq<string>, rest: string)
    requires Encodable(texts)
    ensures Repeat(ParseArgv, EncodeBulks(texts) + rest, |texts|) == Done(texts, |EncodeBulks(texts)|)
  {
    if texts != [] {
      var n := |texts| - 1;
      var init, last := texts[..n], texts[n];
      assert texts == init + [last];
      var before, tail := EncodeBulks(init), EncodeBulk(last) + rest;
      assert EncodeBulks(texts) + rest == before + tail;
      ArgsRoundTrip(init, tail);
      ArgvRoundTrip(last, rest);
      AnotherArgument(before + tail, init, |before|, tail, last, |EncodeBulk(last)|);
    }
  }

  lemma RequestRoundTrip(texts: seq<string>, rest: string)
    requires texts != [] && Encodable(texts)
    ensures ParseRequest(Encode(texts) + rest, Intended) == Done(RequestOf(texts), |Encode(texts)|)
  {
    var line := EncodeLine('*', PrintNat(|texts|));
    assert Encode(texts) + rest == line + (EncodeBulks(texts) + rest);
    NumRoundTrip('*', |texts|, EncodeBulks(texts) + rest);
    assert Drop(line + (EncodeBulks(texts) + rest), |line|) == EncodeBulks(texts) + rest;
    ArgsRoundTrip(texts, rest);
  }

  function RequestOf(texts: seq<string>): RespRequest
    requires texts != []
  {
    RespRequest(texts[0], texts[1..])
  }

  function EncodeStream(requests: seq<seq<string>>): string {
    if requests == [] then "" else Encode(requests[0]) + EncodeStream(requests[1..])
  }

  function RequestsOf(requests: seq<seq<string>>): seq<RespRequest>
    requires forall i :: 0 <= i < |requests| ==> requests[i] != []
  {
    if requests == [] then [] else [RequestOf(requests[0])] + RequestsOf(requests[1..])
  }

  lemma ParseAfter(first: string, rest: string, request: RespRequest)
    requires ParseRequest(first + rest, Intended) == Done(request, |first|)
    ensures Parse(first + rest, Intended) == Append([request], |first|, Parse(rest, Intended))
  {
    assert Drop(first + rest, |first|) == rest;
  }

  lemma StreamStep(texts: seq<string>, rest: string, later: seq<RespRequest>)
    requires texts != [] && Encodable(texts) && Parse(rest, Intended) == Requests(later, |rest|)
    ensures Parse(Encode(texts) + rest, Intended) == Requests([RequestOf(texts)] + later, |Encode(texts) + rest|)
  {
    RequestRoundTrip(texts, rest);
    ParseAfter(Encode(texts), rest, RequestOf(texts));
  }

  /** Pipelined requests are all read back, in order and with every byte consumed. */
  lemma {:induction false} StreamRoundTrip(requests: seq<seq<string>>)
    requires forall i :: 0 <= i < |requests| ==> requests[i] != [] && Encodable(requests[i])
    ensures Parse(EncodeStream(requests), Intended) == Requests(RequestsOf(requests), |EncodeStream(requests)|)
  {
    if requests != [] {
      StreamRoundTrip(requests[1..]);
      StreamStep(requests[0], EncodeStream(requests[1..]), RequestsOf(requests[1..]));
    }
  }

  // ----- The loop as written -----

  /** Whether a request has arrived completely does not depend on the bound. */
  lemma BoundsAgreeOnIncomplete(s: string)
    ensures ParseRequest(s, Written).More? <==> ParseRequest(s, Intended).More?
    ensures ParseRequest(s, Intended).Bad? ==> ParseRequest(s, Written).Bad?
  {
  }

  /** What follows the first complete request; nothing when there is none. */
  function RestAfterFirst(s: string): string {
    var p := ParseRequest(s, Intended);
    if p.Done? then Drop(s, p.size) else ""
  }

  /** A request with what reading one bulk string more gives: it is an argument too, it is done without
      when it is incomplete, and it is an error when it is none. */
  function WithOneMore(request: RespRequest, size: nat, extra: Parsed<string>): Parsed<RespRequest> {
    match extra
    case Bad => Bad
    case More(k) => Done(request, size + k)
    case Done(item, k) => Done(RespRequest(request.name, request.args + [item]), size + k)
  }

  lemma OneMoreItem(items: seq<string>, taken: nat, header: nat, extra: Parsed<string>)
    requires items != []
    ensures
      var more := WithExtra(items, taken, extra);
      && (more.Done? ==> more.value != [])
      && AsRequest(more, header) == WithOneMore(RespRequest(items[0], items[1..]), header + taken, extra)
  {
    if extra.Done? {
      assert (items + [extra.value])[1..] == items[1..] + [extra.value];
    }
  }

  lemma DropTwice(s: string, a: nat, b: nat)
    requires a + b <= |s|
    ensures Drop(Drop(s, a), b) == Drop(s, a + b)
  {
  }

  /** The loop as written reads one bulk string more from what follows a complete request. */
  lemma WrittenAfterFirst(s: string)
    requires ParseRequest(s, Intended).Done?
    ensures ParseRequest(s, Written)
         == WithOneMore(ParseRequest(s, Intended).value, ParseRequest(s, Intended).size, ParseArgv(RestAfterFirst(s)))
  {
    hide ParseNum;
    hide ParseArgv;
    var n := ParseNum('*', s);
    var rest := Drop(s, n.size);
    var all := Repeat(ParseArgv, rest, n.value);
    RequestSize(s, Intended);
    DropTwice(s, n.size, all.size);
    RespParser.ItemsWithExtra(rest, n.value, all.value, all.size);
    OneMoreItem(all.value, all.size, n.size, ParseArgv(Drop(rest, all.size)));
  }

  /** On a buffer that starts with a complete request, the loop as written agrees with the intended one
      when the request ends the buffer. */
  lemma WrittenAtTheEnd(s: string)
    requires ParseRequest(s, Intended).Done? && ParseRequest(s, Intended).size == |s|
    ensures ParseRequest(s, Written) == ParseRequest(s, Intended)
  {
    WrittenAfterFirst(s);
  }

  /** When another request follows, the loop as written takes its first byte for a bad bulk string. */
  lemma WrittenBeforeAnother(s: string)
    requires ParseRequest(s, Intended).Done? && ParseRequest(s, Intended).size < |s|
    requires s[ParseRequest(s, Intended).size] != '$'
    ensures ParseRequest(s, Written) == Bad
  {
    WrittenAfterFirst(s);
    assert RestAfterFirst(s)[0] == s[ParseRequest(s, Intended).size];
  }

  /** What follows the first request is accepted by the intended loop. */
  predicate Pipelined(s: string) {
    RestAfterFirst(s) != "" && Parse(RestAfterFirst(s), Intended).Requests?
  }

  /** What follows the first request is, as far as it has arrived, a bulk string, and the loop as
      written accepts what it leaves behind it. */
  predicate TakesForeign(s: string) {
    var rest := RestAfterFirst(s);
    var extra := ParseArgv(rest);
    rest != "" && !extra.Bad? && Parse(Drop(rest, RespParser.Advance(extra)), Written).Requests?
  }

  /** The two loops, on every buffer. They give the same result if and only if neither of two things
      holds: the intended loop accepts what follows a first complete request, which the loop as written
      always refuses; or the loop as written takes what follows for one argument more, where the
      intended loop fails. */
  lemma WrittenLoopAgrees(s: string)
    ensures Parse(s, Written) == Parse(s, Intended) <==> !Pipelined(s) && !TakesForeign(s)
    ensures Parse(s, Intended).Requests? && Parse(s, Written).Failure? <==> Pipelined(s)
    ensures Parse(s, Intended).Failure? && Parse(s, Written).Requests? <==> TakesForeign(s)
    ensures RestAfterFirst(s) == "" ==> Parse(s, Written) == Parse(s, Intended)
    ensures Parse(s, Intended).Requests? ==> (Parse(s, Written).Requests? <==> RestAfterFirst(s) == "")
    ensures TakesForeign(s) ==> RestAfterFirst(s)[0] == '$'
  {
    BoundsAgreeOnIncomplete(s);
    if ParseRequest(s, Intended).Done? {
      if RestAfterFirst(s) == "" {
        LoopsAgreeAtTheEnd(s);
      } else {
        LoopsBeforeMore(s);
      }
    }
  }

  lemma LoopsAgreeAtTheEnd(s: string)
    requires ParseRequest(s, Intended).Done? && RestAfterFirst(s) == ""
    ensures Parse(s, Written) == Parse(s, Intended) && Parse(s, Intended).Requests?
  {
    RequestSize(s, Intended);
    WrittenAtTheEnd(s);
    BoundsAgreeOnIncomplete("");
    ParseWhole(s, Intended, ParseRequest(s, Intended).value);
    ParseWhole(s, Written, ParseRequest(s, Intended).value);
  }

  lemma LoopsBeforeMore(s: string)
    requires ParseRequest(s, Intended).Done? && RestAfterFirst(s) != ""
    ensures Parse(s, Intended).Requests? <==> Pipelined(s)
    ensures Parse(s, Written).Requests? <==> TakesForeign(s)
    ensures Pipelined(s) ==> RestAfterFirst(s)[0] == '*'
    ensures TakesForeign(s) ==> RestAfterFirst(s)[0] == '$'
  {
    WrittenOnMore(s);
    StartsWithDollar(RestAfterFirst(s));
    if Pipelined(s) {
      StartsWithStar(RestAfterFirst(s));
    }
  }

  lemma WrittenOnMore(s: string)
    requires ParseRequest(s, Intended).Done? && RestAfterFirst(s) != ""
    ensures Parse(s, Written).Requests? <==> TakesForeign(s)
  {
    hide ParseItems;
    hide ParseNum;
    hide ParseArgv;
    var rest, p := RestAfterFirst(s), ParseRequest(s, Intended);
    var extra := ParseArgv(rest);
    RequestSize(s, Intended);
    WrittenAfterFirst(s);
    hide ParseRequest;
    if !extra.Bad? {
      DropTwice(s, p.size, RespParser.Advance(extra));
    }
  }

  lemma StartsWithDollar(s: string)
    requires s != ""
    ensures !ParseArgv(s).Bad? ==> s[0] == '$'
  {
  }

  lemma StartsWithStar(s: string)
    requires s != "" && Parse(s, Intended).Requests?
    ensures s[0] == '*'
  {
  }

  /** The input at which the loop as written accepts too much: a bulk string after a request that was
      built is an error, but it is taken as one argument more. */
  lemma ForeignBulkString(texts: seq<string>, extra: string)
    requires texts != [] && Encodable(texts) && |extra| < U64
    ensures
      var s, request := Encode(texts) + EncodeBulk(extra), RequestOf(texts);
      && Parse(s, Intended) == Failure
      && Parse(s, Written) == Requests([RespRequest(request.name, request.args + [extra])], |s|)
  {
    var first, more := Encode(texts), EncodeBulk(extra);
    assert more + "" == more;
    ArgvRoundTrip(extra, "");
    RequestRoundTrip(texts, more);
    ForeignAfterFirst(first, RequestOf(texts), more, extra);
  }

  /** The input at which it accepts too little: two requests that were built, one behind the other. */
  lemma PipelinedIsRefused(x: seq<string>, y: seq<string>)
    requires x != [] && Encodable(x) && y != [] && Encodable(y)
    ensures Parse(Encode(x) + Encode(y), Intended)
         == Requests([RequestOf(x), RequestOf(y)], |Encode(x)| + |Encode(y)|)
    ensures Parse(Encode(x) + Encode(y), Written) == Failure
  {
    StartsAsArray(y);
    hide Parse;
    hide ParseRequest;
    hide Encode;
    RoundTrip(y, Intended);
    assert [RequestOf(x)] + [RequestOf(y)] == [RequestOf(x), RequestOf(y)];
    StreamStep(x, Encode(y), [RequestOf(y)]);
    RequestRoundTrip(x, Encode(y));
    AnotherAfterFirst(Encode(x), RequestOf(x), Encode(y));
  }

  lemma StartsAsArray(texts: seq<string>)
    ensures Encode(texts) != "" && Encode(texts)[0] == '*'
  {
  }

  lemma AnotherAfterFirst(first: string, request: RespRequest, more: string)
    requires more != "" && more[0] != '$' && ParseRequest(first + more, Intended) == Done(request, |first|)
    ensures Parse(first + more, Written) == Failure
  {
    assert (first + more)[|first|] == more[0];
    WrittenBeforeAnother(first + more);
  }

  lemma ForeignAfterFirst(first: string, request: RespRequest, more: string, extra: string)
    requires more != "" && ParseArgv(more) == Done(extra, |more|)
    requires ParseRequest(first + more, Intended) == Done(request, |first|)
    ensures Parse(first + more, Intended) == Failure
    ensures Parse(first + more, Written)
         == Requests([RespRequest(request.name, request.args + [extra])], |first + more|)
  {
    hide ParseArgv;
    assert Drop(first + more, |first|) == more;
    WrittenAfterFirst(first + more);
    StartsWithDollar(more);
    ParseWhole(first + more, Written, RespRequest(request.name, request.args + [extra]));
    LoopsBeforeMore(first + more);
  }

  lemma ParseWhole(s: string, bound: Bound, request: RespRequest)
    requires ParseRequest(s, bound) == Done(request, |s|)
    ensures Parse(s, bound) == Requests([request], |s|)
  {
    assert Drop(s, |s|) == "";
    assert Parse("", bound) == Requests([], 0);
  }

  /** A request that was built is read back whole by either loop. */
  lemma RoundTrip(texts: seq<string>, bound: Bound)
    requires texts != [] && Encodable(texts)
    ensures Parse(Encode(texts), bound) == Requests([RequestOf(texts)], |Encode(texts)|)
  {
    var s := Encode(texts);
    assert s + "" == s;
    RequestRoundTrip(texts, "");
    WrittenAtTheEnd(s);
    ParseWhole(s, bound, RequestOf(texts));
  }

  /** Every strict prefix of it gives no request, consumes no byte and is no error, for either loop. */
  lemma StrictPrefix(texts: seq<string>, j: nat, bound: Bound)
    requires texts != [] && Encodable(texts) && j < |Encode(texts)|
    ensures Parse(Encode(texts)[..j], bound) == Requests([], 0)
  {
    var s := Encode(texts);
    assert s + "" == s;
    RequestRoundTrip(texts, "");
    PrefixIsIncomplete(s, j);
    BoundsAgreeOnIncomplete(s[..j]);
  }

  /** Items sent as simple strings, as the senders do in the source, are not accepted by this parser. */
  lemma SimpleStringsAreRejected(count: nat, first: string, rest: string, bound: Bound)
    requires 1 <= count < U64
    ensures Parse(EncodeLine('*', PrintNat(count)) + EncodeLine('+', first) + rest, bound) == Failure
  {
    var line, tail := EncodeLine('*', PrintNat(count)), EncodeLine('+', first) + rest;
    assert line + EncodeLine('+', first) + rest == line + tail;
    NumRoundTrip('*', count, tail);
    assert Drop(line + tail, |line|) == tail;
    assert Drop(tail, 0) == tail;
    assert tail[0] == '+';
    assert Repeat(ParseArgv, tail, 1) == Bad;
    RespParser.RepeatStopped(ParseArgv, tail, 1, count);
  }
}
