/** The RESP request parser and reply builder (src/sw/gossip-net/resp.h, src/sw/gossip-net/resp.cpp),
    for the "Arrays" and "Bulk strings" of the Redis serialization protocol (RESP2).

    A `char` stands for a byte; nothing here depends on it being below 256. */
module Resp {
  import opened Nodes
  import opened Decimals

  /** What reading one item from the front of a buffer gives: the item and the bytes it takes; or
      that the buffer ends too early, with the bytes skipped before that was noticed; or an error. */
  datatype Parsed<+T> = Done(value: T, size: nat) | More(skipped: nat) | Bad

  /** remove_prefix. */
  function Drop(s: string, k: nat): string {
    if k <= |s| then s[k..] else ""
  }

  /** _parse_num: type byte, decimal 64-bit number, CR LF. */
  function ParseNum(c: char, s: string): (r: Parsed<nat>)
    ensures r.Done? ==> 0 < r.size <= |s|
    ensures r.More? ==> r.skipped <= |s|
  {
    if s == "" then More(0)
    else if s[0] != c then Bad
    else if |s| == 1 then More(1)
    else
      var digits := s[1..];
      var n := DigitRun(digits);
      if n == 0 || Value(digits[..n]) >= U64 then Bad
      else if n + 2 > |digits| then More(1)
      else if digits[n] != '\r' || digits[n + 1] != '\n' then Bad
      else Done(Value(digits[..n]), n + 3)
  }

  /** The bytes of a bulk string of the given length, after its header of so many bytes. */
  function ParseBody(body: string, len: nat, header: nat): (r: Parsed<string>)
    ensures r.Done? ==> header < r.size <= header + |body|
    ensures r.More? ==> r.skipped == header
  {
    if |body| < len + 2 then More(header)
    else if body[len] != '\r' || body[len + 1] != '\n' then Bad
    else Done(body[..len], header + len + 2)
  }

  /** _parse_argv: a bulk string. */
  function ParseArgv(s: string): (r: Parsed<string>)
    ensures r.Done? ==> 0 < r.size <= |s|
    ensures r.More? ==> r.skipped <= |s|
  {
    match ParseNum('$', s)
    case Bad => Bad
    case More(k) => More(k)
    case Done(len, k) => ParseBody(Drop(s, k), len, k)
  }

  /** Items already read, with the bytes they took, and what reading the next one gives. */
  function Then<T>(items: seq<T>, taken: nat, next: Parsed<T>): Parsed<seq<T>> {
    match next
    case Bad => Bad
    case More(k) => More(taken + k)
    case Done(item, k) => Done(items + [item], taken + k)
  }

  /** num items in a row, each read in the same way. */
  function Repeat<T>(read: string -> Parsed<T>, s: string, num: nat): (r: Parsed<seq<T>>)
    ensures r.Done? ==> |r.value| == num
    decreases num
  {
    if num == 0 then Done([], 0)
    else
      match Repeat(read, s, num - 1)
      case Bad => Bad
      case More(k) => More(k)
      case Done(items, k) => Then(items, k, read(Drop(s, k)))
  }

  /** The bound of the argument loop. Intended: the number of arguments that follow the name. Written:
      the whole array size, one more, as the loop condition in the source has it; the check after the
      loop then accepts a request whose extra argument has not arrived. */
  datatype Bound = Intended | Written

  /** The name and the arguments read, and what reading the extra argument gives. */
  function WithExtra(items: seq<string>, taken: nat, extra: Parsed<string>): Parsed<seq<string>> {
    if extra.More? then Done(items, taken + extra.skipped) else Then(items, taken, extra)
  }

  /** The name and the arguments of a request of argc items, as the argument loop leaves them. */
  function ParseItems(s: string, argc: nat, bound: Bound): (r: Parsed<seq<string>>)
    requires argc >= 1
    ensures r.Done? ==> r.value != []
  {
    var all := Repeat(ParseArgv, s, argc);
    if all.Done? && bound.Written? then WithExtra(all.value, all.size, ParseArgv(Drop(s, all.size))) else all
  }

  datatype RespRequest = RespRequest(name: string, args: seq<string>)

  /** A request of these items, after a header of so many bytes. */
  function AsRequest(items: Parsed<seq<string>>, header: nat): Parsed<RespRequest>
    requires items.Done? ==> items.value != []
  {
    match items
    case Bad => Bad
    case More(k) => More(header + k)
    case Done(value, k) => Done(RespRequest(value[0], value[1..]), header + k)
  }

  /** One request. */
  function ParseRequest(s: string, bound: Bound): Parsed<RespRequest> {
    match ParseNum('*', s)
    case Bad => Bad
    case More(k) => More(k)
    case Done(argc, k) => if argc < 1 then Bad else AsRequest(ParseItems(Drop(s, k), argc, bound), k)
  }

  /** What parse returns or that it throws. */
  datatype Outcome = Requests(requests: seq<RespRequest>, bytes: nat) | Failure

  /** Requests already parsed, with the bytes they took, before an outcome for what follows them. */
  function Append(requests: seq<RespRequest>, bytes: nat, rest: Outcome): Outcome {
    match rest
    case Failure => Failure
    case Requests(more, n) => Requests(requests + more, bytes + n)
  }

  /** Complete requests from the front, until the buffer ends too early. */
  function Parse(s: string, bound: Bound): Outcome
    decreases |s|
  {
    var p := ParseRequest(s, bound);
    RequestSize(s, bound);
    match p
    case Bad => Failure
    case More(_) => Requests([], 0)
    case Done(request, size) => Append([request], size, Parse(Drop(s, size), bound))
  }

  // ----- What the builder writes -----

  /** _append_string. */
  function EncodeLine(kind: char, text: string): string {
    [kind] + text + "\r\n"
  }

  function EncodeBulk(text: string): string {
    EncodeLine('$', PrintNat(|text|)) + text + "\r\n"
  }

  function EncodeBulks(texts: seq<string>): string {
    if texts == [] then ""
    else EncodeBulks(texts[..|texts| - 1]) + EncodeBulk(texts[|texts| - 1])
  }

  /** An array of bulk strings. */
  function Encode(texts: seq<string>): string {
    EncodeLine('*', PrintNat(|texts|)) + EncodeBulks(texts)
  }

  // ----- Readings stay inside their buffer -----

  /** Reading takes at least one byte and no more than there are. */
  ghost predicate Bounded<T>(read: string -> Parsed<T>) {
    forall s :: (read(s).Done? ==> 0 < read(s).size <= |s|) && (read(s).More? ==> read(s).skipped <= |s|)
  }

  lemma {:induction false} RepeatBounded<T>(read: string -> Parsed<T>, s: string, num: nat)
    requires Bounded(read)
    ensures Repeat(read, s, num).Done? ==> num <= Repeat(read, s, num).size <= |s|
    ensures Repeat(read, s, num).More? ==> Repeat(read, s, num).skipped <= |s|
  {
    if num > 0 {
      RepeatBounded(read, s, num - 1);
    }
  }

  lemma ItemsSize(s: string, argc: nat, bound: Bound)
    requires argc >= 1
    ensures ParseItems(s, argc, bound).Done? ==> ParseItems(s, argc, bound).size <= |s|
    ensures ParseItems(s, argc, bound).More? ==> ParseItems(s, argc, bound).skipped <= |s|
  {
    RepeatBounded(ParseArgv, s, argc);
  }

  lemma RequestSize(s: string, bound: Bound)
    ensures ParseRequest(s, bound).Done? ==> 0 < ParseRequest(s, bound).size <= |s|
    ensures ParseRequest(s, bound).More? ==> ParseRequest(s, bound).skipped <= |s|
  {
    var n := ParseNum('*', s);
    if n.Done? && n.value >= 1 {
      ItemsSize(Drop(s, n.size), n.value, bound);
    }
  }
}
