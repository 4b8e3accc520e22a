/** Decimal numerals: what std::to_string writes and std::from_chars reads. */
module Decimals {
  import opened Nodes

  predicate IsDigit(c: char) {
    '0' <= c <= '9'
  }

  function DigitValue(c: char): nat
    requires IsDigit(c)
  {
    c as int - '0' as int
  }

  function DigitChar(d: nat): (c: char)
    requires d < 10
    ensures IsDigit(c) && DigitValue(c) == d
  {
    ('0' as int + d) as char
  }

  predicate AllDigits(s: string) {
    forall i :: 0 <= i < |s| ==> IsDigit(s[i])
  }

  /** The length of the longest prefix of digits. */
  function DigitRun(s: string): (n: nat)
    ensures n <= |s| && AllDigits(s[..n])
    ensures n < |s| ==> !IsDigit(s[n])
  {
    if s == "" || !IsDigit(s[0]) then 0
    else
      var n := 1 + DigitRun(s[1..]);
      assert s[..n] == [s[0]] + s[1..][..n - 1];
      n
  }

  function Value(ds: string): nat
    requires AllDigits(ds)
  {
    if ds == "" then 0 else 10 * Value(ds[..|ds| - 1]) + DigitValue(ds[|ds| - 1])
  }

  /** std::to_string for a natural number. */
  function PrintNat(n: nat): (s: string)
    ensures s != "" && AllDigits(s)
  {
    if n < 10 then [DigitChar(n)] else PrintNat(n / 10) + [DigitChar(n % 10)]
  }

  /** std::to_string for a signed number. */
  function PrintInt(n: int): string {
    if n < 0 then "-" + PrintNat(-n) else PrintNat(n)
  }

  lemma {:induction false} ValueOfPrintNat(n: nat)
    ensures Value(PrintNat(n)) == n
  {
    if n < 10 {
      assert PrintNat(n)[..0] == "";
    } else {
      ValueOfPrintNat(n / 10);
      var s := PrintNat(n);
      assert s[..|s| - 1] == PrintNat(n / 10);
    }
  }

  /** A numeral of this value that does not start with a superfluous zero is the one that is printed. */
  lemma {:induction false} PrintNatIsTheOne(n: nat, ds: string)
    requires ds != "" && AllDigits(ds)
    ensures Value(ds) == n && (ds[0] == '0' ==> |ds| == 1) <==> ds == PrintNat(n)
  {
    ValueOfPrintNat(n);
    PrintNatStarts(n);
    if Value(ds) == n && (ds[0] == '0' ==> |ds| == 1) {
      var init, last := ds[..|ds| - 1], ds[|ds| - 1];
      assert ds == init + [last];
      if init == "" {
        assert DigitChar(DigitValue(last)) == last;
      } else {
        PrintNatIsTheOne(Value(init), init);
        PrintNatStarts(Value(init));
      }
    }
  }

  lemma {:induction false} PrintNatStarts(n: nat)
    ensures PrintNat(n)[0] == '0' <==> n == 0
    ensures n == 0 ==> |PrintNat(n)| == 1
  {
    if n >= 10 {
      PrintNatStarts(n / 10);
    }
  }

  lemma DigitRunIs(s: string, n: nat)
    requires n <= |s| && AllDigits(s[..n]) && (n < |s| ==> !IsDigit(s[n]))
    ensures DigitRun(s) == n
  {
    var r := DigitRun(s);
    assert forall k :: 0 <= k < n ==> s[..n][k] == s[k];
    assert forall k :: 0 <= k < r ==> s[..r][k] == s[k];
  }

  /** A numeral followed by anything that is not a digit is read back whole. */
  lemma RunOfPrintNat(n: nat, rest: string)
    requires rest != "" ==> !IsDigit(rest[0])
    ensures DigitRun(PrintNat(n) + rest) == |PrintNat(n)|
  {
    var s := PrintNat(n) + rest;
    assert s[..|PrintNat(n)|] == PrintNat(n);
    DigitRunIs(s, |PrintNat(n)|);
  }

  /** More digits never make a numeral smaller, so an overflow stays one. */
  lemma {:induction false} ValueGrows(ds: string, more: string)
    requires AllDigits(ds) && AllDigits(ds + more)
    ensures Value(ds) <= Value(ds + more)
  {
    if more == "" {
      assert ds + more == ds;
    } else {
      var all := ds + more;
      assert all[..|all| - 1] == ds + more[..|more| - 1];
      ValueGrows(ds, more[..|more| - 1]);
    }
  }

  /** Extending a text extends its run of digits only when the run reached its end. */
  lemma RunOfExtension(s: string, t: string)
    ensures DigitRun(s) <= DigitRun(s + t)
    ensures (s + t)[..DigitRun(s)] == s[..DigitRun(s)]
    ensures DigitRun(s) < |s| ==> DigitRun(s + t) == DigitRun(s)
  {
    var n := DigitRun(s);
    assert (s + t)[..n] == s[..n];
    if n < |s| {
      DigitRunIs(s + t, n);
    } else {
      var r := DigitRun(s + t);
      assert forall k :: 0 <= k < n ==> s[..n][k] == (s + t)[k];
      assert n <= r;
    }
  }

  // ----- from_chars into the two kinds of number a record holds -----

  datatype Read<T> = NotANumber | Read(value: T)

  /** from_chars into an unsigned 64-bit number; what follows the digits is ignored. */
  function ReadU64(s: string): Read<Version> {
    var n := DigitRun(s);
    if n == 0 || Value(s[..n]) >= U64 then NotANumber else Read(Value(s[..n]))
  }

  /** from_chars into a signed 32-bit number. */
  function ReadI32(s: string): Read<Port> {
    var negative := s != "" && s[0] == '-';
    var digits := if negative then s[1..] else s;
    var n := DigitRun(digits);
    if n == 0 then NotANumber
    else
      var m: int := Value(digits[..n]);
      var v: int := if negative then -m else m;
      if -I32 <= v < I32 then Read(v) else NotANumber
  }

  lemma ReadU64OfPrint(v: Version)
    ensures ReadU64(PrintNat(v)) == Read(v)
  {
    RunOfPrintNat(v, "");
    ValueOfPrintNat(v);
    assert PrintNat(v) + "" == PrintNat(v);
    assert PrintNat(v)[..|PrintNat(v)|] == PrintNat(v);
  }

  lemma ReadI32OfPrint(p: Port)
    ensures ReadI32(PrintInt(p)) == Read(p)
  {
    var i: int := p;
    var m: nat := if i < 0 then -i else i;
    RunOfPrintNat(m, "");
    ValueOfPrintNat(m);
    assert PrintNat(m) + "" == PrintNat(m);
    assert PrintNat(m)[..|PrintNat(m)|] == PrintNat(m);
    if p < 0 {
      assert PrintInt(p)[1..] == PrintNat(m);
    } else {
      assert IsDigit(PrintNat(m)[0]);
    }
  }
}
