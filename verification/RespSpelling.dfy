/** What the buffers that the parser accepts look like, byte by byte: the grammar of the requests it
    takes, against which the reading of src/sw/gossip-net/resp.cpp is exact. */
module RespSpelling {
  import opened Nodes
  import opened Decimals
  import opened Resp
  import RespParser
  import RespProperties

  // ----- The grammar -----

  /** A type byte, at least one digit, CR LF. */
  ghost predicate IsNumLine(b: string, c: char, v: nat) {
    && 4 <= |b| && b[0] == c && b[|b| - 2..] == "\r\n"
    && AllDigits(b[1..|b| - 2]) && Value(b[1..|b| - 2]) == v < U64
  }

  /** `$`, the length of the text, CR LF, the text, CR LF. */
  ghost predicate IsBulk(b: string, text: string) {
    && |text| + 2 <= |b|
    && IsNumLine(b[..|b| - |text| - 2], '$', |text|)
    && b[|b| - |text| - 2..] == text + "\r\n"
  }

  ghost predicate IsBulks(b: string, texts: seq<string>)
    decreases |texts|
  {
    if texts == [] then b == ""
    else exists j :: 0 <= j <= |b| && IsBulks(b[..j], texts[..|texts| - 1]) && IsBulk(b[j..], texts[|texts| - 1])
  }

  /** `*`, the number of the items, CR LF, the items: the name and the arguments. */
  ghost predicate IsRequest(b: string, r: RespRequest) {
    exists h :: 0 <= h <= |b| && IsNumLine(b[..h], '*', 1 + |r.args|) && IsBulks(b[h..], [r.name] + r.args)
  }

  ghost predicate IsStream(b: string, rs: seq<RespRequest>) {
    if rs == [] then b == ""
    else exists k :: 0 <= k <= |b| && IsRequest(b[..k], rs[0]) && IsStream(b[k..], rs[1..])
  }

  // ----- What may stand at the end of a buffer without being an error -----

  /** Nothing, the type byte, or the type byte and a number that fits, with at most one byte after it. */
  ghost predicate OpenNum(c: char, s: string) {
    || s == ""
    || s == [c]
    || exists n :: OpenDigits(c, s, n)
  }

  ghost predicate OpenDigits(c: char, s: string, n: nat) {
    && 0 < n && 1 + n <= |s| <= 2 + n && s[0] == c
    && AllDigits(s[1..1 + n]) && Value(s[1..1 + n]) < U64
    && (|s| == 2 + n ==> !IsDigit(s[1 + n]))
  }

  /** A number line that is not complete, or one with fewer bytes after it than it asks for. */
  ghost predicate OpenBulk(s: string) {
    || OpenNum('$', s)
    || exists h, len: nat :: 0 <= h <= |s| && IsNumLine(s[..h], '$', len) && |s| - h < len + 2
  }

  /** Fewer bulk strings than asked for, then one that is not complete. */
  ghost predicate OpenItems(s: string, argc: nat) {
    exists texts, k :: 0 <= k <= |s| && |texts| < argc && IsBulks(s[..k], texts) && OpenBulk(s[k..])
  }

  ghost predicate OpenRequest(s: string) {
    || OpenNum('*', s)
    || exists h, argc: nat :: 0 <= h <= |s| && IsNumLine(s[..h], '*', argc) && OpenItems(s[h..], argc)
  }

  // ----- Numbers -----

  lemma NumLineIsRead(c: char, s: string, v: nat, k: nat)
    requires k <= |s| && IsNumLine(s[..k], c, v)
    ensures ParseNum(c, s) == Done(v, k)
  {
    var digits, n := s[1..], k - 3;
    assert digits[..n] == s[..k][1..k - 2];
    assert s[..k][k - 2..] == [s[k - 2], s[k - 1]];
    DigitRunIs(digits, n);
  }

  lemma NumReadIsLine(c: char, s: string)
    requires ParseNum(c, s).Done?
    ensures IsNumLine(s[..ParseNum(c, s).size], c, ParseNum(c, s).value)
  {
    var k := ParseNum(c, s).size;
    assert s[1..][..k - 3] == s[..k][1..k - 2];
    assert s[..k][k - 2..] == [s[k - 2], s[k - 1]];
  }

  /** A number is read if and only if the buffer starts with a number line. */
  lemma NumExactlyWhen(c: char, s: string, v: nat, k: nat)
    ensures ParseNum(c, s) == Done(v, k) <==> k <= |s| && IsNumLine(s[..k], c, v)
  {
    if k <= |s| && IsNumLine(s[..k], c, v) {
      NumLineIsRead(c, s, v, k);
    }
    if ParseNum(c, s).Done? {
      NumReadIsLine(c, s);
    }
  }

  /** More bytes are waited for if and only if the buffer may be the start of a number line; every other
      buffer is an error. */
  lemma NumOpenExactlyWhen(c: char, s: string)
    ensures ParseNum(c, s).More? <==> OpenNum(c, s)
  {
    if ParseNum(c, s).More? && 1 < |s| {
      var n := DigitRun(s[1..]);
      assert s[1..][..n] == s[1..1 + n];
      assert OpenDigits(c, s, n);
    }
    if n: nat :| OpenDigits(c, s, n) {
      assert s[1..][..n] == s[1..1 + n];
      DigitRunIs(s[1..], n);
    }
  }

  // ----- Bulk strings -----

  lemma BulkIsRead(s: string, text: string, k: nat)
    requires k <= |s| && IsBulk(s[..k], text)
    ensures ParseArgv(s) == Done(text, k)
  {
    var h := k - |text| - 2;
    assert s[..k][..h] == s[..h];
    NumLineIsRead('$', s, |text|, h);
    var body := Drop(s, h);
    assert body[..|text| + 2] == s[..k][h..] == text + "\r\n";
    assert body[..|text|] == body[..|text| + 2][..|text|];
    assert body[|text|] == body[..|text| + 2][|text|] && body[|text| + 1] == body[..|text| + 2][|text| + 1];
  }

  lemma BulkReadIs(s: string)
    requires ParseArgv(s).Done?
    ensures IsBulk(s[..ParseArgv(s).size], ParseArgv(s).value)
  {
    var n, r := ParseNum('$', s), ParseArgv(s);
    NumReadIsLine('$', s);
    assert s[..r.size][..n.size] == s[..n.size];
    assert s[..r.size][n.size..] == r.value + "\r\n";
  }

  /** A bulk string is read if and only if the buffer starts with one, terminator included. */
  lemma BulkExactlyWhen(s: string, text: string, k: nat)
    ensures ParseArgv(s) == Done(text, k) <==> k <= |s| && IsBulk(s[..k], text)
  {
    if k <= |s| && IsBulk(s[..k], text) {
      BulkIsRead(s, text, k);
    }
    if ParseArgv(s).Done? {
      BulkReadIs(s);
    }
  }

  lemma BulkOpenExactlyWhen(s: string)
    ensures ParseArgv(s).More? <==> OpenBulk(s)
  {
    NumOpenExactlyWhen('$', s);
    var n := ParseNum('$', s);
    if n.Done? {
      NumReadIsLine('$', s);
    }
    if h, len: nat :| 0 <= h <= |s| && IsNumLine(s[..h], '$', len) && |s| - h < len + 2 {
      NumLineIsRead('$', s, len, h);
    }
  }

  /** What follows a length line decides: too few bytes, a text and its terminator, or an error. */
  lemma AfterLengthLine(line: string, len: nat, body: string)
    requires IsNumLine(line, '$', len)
    ensures ParseArgv(line + body)
         == if |body| < len + 2 then More(|line|)
            else if body[len..len + 2] == "\r\n" then Done(body[..len], |line| + len + 2)
            else Bad
  {
    assert (line + body)[..|line|] == line;
    NumLineIsRead('$', line + body, len, |line|);
    assert Drop(line + body, |line|) == body;
    if len + 2 <= |body| {
      assert body[len..len + 2] == [body[len], body[len + 1]];
    }
  }

  // ----- The items of a request -----

  /** Where the last of the bulk strings at the front of a buffer begins. */
  lemma LastOfBulks(s: string, texts: seq<string>, k: nat) returns (j: nat)
    requires texts != [] && k <= |s| && IsBulks(s[..k], texts)
    ensures j <= k && IsBulks(s[..j], texts[..|texts| - 1]) && IsBulk(Drop(s, j)[..k - j], texts[|texts| - 1])
  {
    hide IsBulk;
    j :| 0 <= j <= k && IsBulks(s[..k][..j], texts[..|texts| - 1]) && IsBulk(s[..k][j..], texts[|texts| - 1]);
    assert s[..k][..j] == s[..j];
    assert s[..k][j..] == Drop(s, j)[..k - j];
  }

  lemma OneMoreBulk(s: string, init: seq<string>, j: nat, last: string, k: nat)
    requires j <= k <= |s| && IsBulks(s[..j], init) && IsBulk(Drop(s, j)[..k - j], last)
    ensures IsBulks(s[..k], init + [last])
  {
    hide IsBulk;
    var texts := init + [last];
    assert texts[..|texts| - 1] == init;
    assert s[..k][..j] == s[..j];
    assert s[..k][j..] == Drop(s, j)[..k - j];
  }

  lemma {:induction false} BulksAreRead(s: string, texts: seq<string>, k: nat)
    requires k <= |s| && IsBulks(s[..k], texts)
    ensures Repeat(ParseArgv, s, |texts|) == Done(texts, k)
  {
    hide IsBulk;
    hide ParseArgv;
    if texts != [] {
      var init, last := texts[..|texts| - 1], texts[|texts| - 1];
      var j := LastOfBulks(s, texts, k);
      BulksAreRead(s, init, j);
      BulkIsRead(Drop(s, j), last, k - j);
      RespProperties.AnotherArgument(s, init, j, Drop(s, j), last, k - j);
      assert init + [last] == texts;
    }
  }

  lemma {:induction false} BulksReadAre(s: string, num: nat)
    requires Repeat(ParseArgv, s, num).Done?
    ensures Repeat(ParseArgv, s, num).size <= |s|
    ensures IsBulks(s[..Repeat(ParseArgv, s, num).size], Repeat(ParseArgv, s, num).value)
  {
    hide IsBulk;
    hide ParseArgv;
    RepeatBounded(ParseArgv, s, num);
    if num > 0 {
      BulksReadAre(s, num - 1);
      var init, all := Repeat(ParseArgv, s, num - 1), Repeat(ParseArgv, s, num);
      var j, k := init.size, all.size;
      BulkReadIs(Drop(s, j));
      OneMoreBulk(s, init.value, j, all.value[num - 1], k);
      assert all.value == init.value + [all.value[num - 1]];
    }
  }

  lemma {:induction false} ItemsOpen(s: string, num: nat)
    requires Repeat(ParseArgv, s, num).More?
    ensures OpenItems(s, num)
  {
    var init := Repeat(ParseArgv, s, num - 1);
    if init.More? {
      ItemsOpen(s, num - 1);
    } else {
      BulksReadAre(s, num - 1);
      BulkOpenExactlyWhen(Drop(s, init.size));
    }
  }

  lemma ItemsStopOpen(s: string, num: nat, texts: seq<string>, k: nat)
    requires k <= |s| && |texts| < num && IsBulks(s[..k], texts) && OpenBulk(s[k..])
    ensures Repeat(ParseArgv, s, num).More?
  {
    BulksAreRead(s, texts, k);
    BulkOpenExactlyWhen(Drop(s, k));
    RespParser.RepeatStopped(ParseArgv, s, |texts| + 1, num);
  }

  // ----- Requests -----

  lemma RequestIsRead(s: string, r: RespRequest, k: nat)
    requires k <= |s| && IsRequest(s[..k], r)
    ensures ParseRequest(s, Intended) == Done(r, k)
  {
    hide ParseArgv;
    hide IsBulks;
    hide IsNumLine;
    hide ParseNum;
    var b := s[..k];
    var h :| 0 <= h <= k && IsNumLine(b[..h], '*', 1 + |r.args|) && IsBulks(b[h..], [r.name] + r.args);
    assert b[..h] == s[..h];
    NumLineIsRead('*', s, 1 + |r.args|, h);
    assert b[h..] == Drop(s, h)[..k - h];
    BulksAreRead(Drop(s, h), [r.name] + r.args, k - h);
    assert ([r.name] + r.args)[1..] == r.args;
  }

  lemma RequestReadIs(s: string)
    requires ParseRequest(s, Intended).Done?
    ensures ParseRequest(s, Intended).size <= |s|
    ensures IsRequest(s[..ParseRequest(s, Intended).size], ParseRequest(s, Intended).value)
  {
    hide ParseArgv;
    hide IsBulks;
    hide IsNumLine;
    hide ParseNum;
    RequestSize(s, Intended);
    var n, p := ParseNum('*', s), ParseRequest(s, Intended);
    var r, b := p.value, s[..p.size];
    NumReadIsLine('*', s);
    assert b[..n.size] == s[..n.size];
    BulksReadAre(Drop(s, n.size), n.value);
    var items := Repeat(ParseArgv, Drop(s, n.size), n.value);
    assert b[n.size..] == Drop(s, n.size)[..items.size];
    assert [r.name] + r.args == items.value;
  }

  /** A request is read if and only if the buffer starts with one. */
  lemma RequestExactlyWhen(s: string, r: RespRequest, k: nat)
    ensures ParseRequest(s, Intended) == Done(r, k) <==> k <= |s| && IsRequest(s[..k], r)
  {
    hide ParseRequest;
    if k <= |s| && IsRequest(s[..k], r) {
      RequestIsRead(s, r, k);
    }
    if ParseRequest(s, Intended).Done? {
      RequestReadIs(s);
    }
  }

  /** More bytes are waited for if and only if the buffer may be the start of a request. */
  lemma RequestOpenExactlyWhen(s: string)
    ensures ParseRequest(s, Intended).More? <==> OpenRequest(s)
  {
    hide ParseArgv;
    hide ParseNum;
    NumOpenExactlyWhen('*', s);
    var n := ParseNum('*', s);
    if n.Done? {
      NumReadIsLine('*', s);
      if ParseRequest(s, Intended).More? {
        ItemsOpen(Drop(s, n.size), n.value);
      }
    }
    if h, argc: nat :| 0 <= h <= |s| && IsNumLine(s[..h], '*', argc) && OpenItems(s[h..], argc) {
      NumLineIsRead('*', s, argc, h);
      var rest := Drop(s, h);
      var texts, k :| 0 <= k <= |rest| && |texts| < argc && IsBulks(rest[..k], texts) && OpenBulk(rest[k..]);
      ItemsStopOpen(rest, argc, texts, k);
    }
  }

  // ----- Buffers -----

  lemma {:induction false} StreamIsRead(s: string, rs: seq<RespRequest>, n: nat)
    requires n <= |s| && IsStream(s[..n], rs) && OpenRequest(s[n..])
    ensures Parse(s, Intended) == Requests(rs, n)
    decreases rs
  {
    hide OpenRequest;
    hide IsRequest;
    hide ParseRequest;
    if rs == [] {
      assert s[0..] == s;
      RequestOpenExactlyWhen(s);
    } else {
      var k :| 0 <= k <= n && IsRequest(s[..n][..k], rs[0]) && IsStream(s[..n][k..], rs[1..]);
      assert s[..n][..k] == s[..k];
      RequestIsRead(s, rs[0], k);
      var rest := Drop(s, k);
      assert s[..n][k..] == rest[..n - k];
      assert s[n..] == rest[n - k..];
      StreamIsRead(rest, rs[1..], n - k);
      assert [rs[0]] + rs[1..] == rs;
    }
  }

  lemma {:induction false} StreamReadIs(s: string)
    requires Parse(s, Intended).Requests?
    ensures Parse(s, Intended).bytes <= |s|
    ensures IsStream(s[..Parse(s, Intended).bytes], Parse(s, Intended).requests)
    ensures OpenRequest(s[Parse(s, Intended).bytes..])
    decreases |s|
  {
    hide ParseRequest;
    var p, all := ParseRequest(s, Intended), Parse(s, Intended);
    RequestSize(s, Intended);
    if p.More? {
      assert s[0..] == s;
      RequestOpenExactlyWhen(s);
    } else {
      var rest := Drop(s, p.size);
      StreamReadIs(rest);
      var later := Parse(rest, Intended);
      RequestReadIs(s);
      assert all.requests[1..] == later.requests;
      assert s[..all.bytes][..p.size] == s[..p.size];
      assert s[..all.bytes][p.size..] == rest[..later.bytes];
      assert s[all.bytes..] == rest[later.bytes..];
    }
  }

  /** A buffer gives these requests and takes so many bytes if and only if that many bytes at its front
      are the requests, written one behind the other, and what is left may be the start of another. */
  lemma ParseExactlyWhen(s: string, rs: seq<RespRequest>, n: nat)
    ensures Parse(s, Intended) == Requests(rs, n) <==> n <= |s| && IsStream(s[..n], rs) && OpenRequest(s[n..])
  {
    if n <= |s| && IsStream(s[..n], rs) && OpenRequest(s[n..]) {
      StreamIsRead(s, rs, n);
    }
    if Parse(s, Intended).Requests? {
      StreamReadIs(s);
    }
  }

  /** It is an error if and only if it cannot be divided in this way. */
  lemma FailsExactlyWhen(s: string)
    ensures Parse(s, Intended).Failure? <==>
      !exists rs, n :: 0 <= n <= |s| && IsStream(s[..n], rs) && OpenRequest(s[n..])
  {
    if rs, n :| 0 <= n <= |s| && IsStream(s[..n], rs) && OpenRequest(s[n..]) {
      StreamIsRead(s, rs, n);
    }
    if Parse(s, Intended).Requests? {
      StreamReadIs(s);
    }
  }
}
