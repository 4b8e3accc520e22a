/** The few facts about division that the counting arguments need. */
module Arithmetic {
  lemma MulLess(a: nat, b: nat, size: nat)
    requires a < b
    ensures a * size + size <= b * size
    decreases b
  {
    if a + 1 < b {
      MulLess(a, b - 1, size);
    }
    assert b * size == (b - 1) * size + size;
  }

  /** Quotient and remainder are the only such pair. */
  lemma DivMod(total: nat, size: nat, laps: nat, o: nat)
    requires o < size && total == laps * size + o
    ensures total / size == laps && total % size == o
  {
    var d := total / size;
    assert total == d * size + total % size;
    if laps < d {
      MulLess(laps, d, size);
    } else if d < laps {
      MulLess(d, laps, size);
    }
  }

  lemma DivideOff(d: nat, n: nat)
    requires 0 < n <= d
    ensures (d - n) / n == d / n - 1
  {
    var q, r := d / n, d % n;
    assert d == q * n + r;
    assert q != 0;
    assert (q - 1) * n + n == q * n;
    DivMod(d - n, n, q - 1, r);
  }
}
