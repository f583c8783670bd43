/** Integer operations as the source language defines them. */
module Numbers {
  import opened Bits

  function Max(a: int, b: int): int {
    if a > b then a else b
  }

  function Min(a: int, b: int): int {
    if a < b then a else b
  }

  /** Division that truncates toward zero. */
  function TruncDiv(a: int, b: int): int
    requires b > 0
  {
    if a >= 0 then a / b else -(-a / b)
  }

  lemma MulMonotone(a: int, b: int, c: int)
    requires a <= b && c >= 0
    ensures a * c <= b * c && c * a <= c * b
  {
  }

  lemma DivMonotone(a: int, b: int, d: int)
    requires d > 0 && a <= b
    ensures a / d <= b / d
  {
    var q, r := a / d, b / d;
    assert (r + 1) * d == r * d + d;
    if q > r {
      MulMonotone(r + 1, q, d);
    }
  }

  lemma DivExact(q: int, d: int)
    requires d > 0
    ensures q * d / d == q
  {
    DivModUnique(q * d, d, q, 0);
  }

  lemma TruncDivMonotone(a: int, b: int, d: int)
    requires d > 0 && a <= b
    ensures TruncDiv(a, d) <= TruncDiv(b, d)
  {
    DivExact(0, d);
    if a >= 0 {
      DivMonotone(a, b, d);
    } else if b < 0 {
      DivMonotone(-b, -a, d);
    } else {
      DivMonotone(0, -a, d);
      DivMonotone(0, b, d);
    }
  }

  lemma TruncDivBetween(a: int, b: int, d: int)
    requires d > 0 && 0 <= a <= b * d
    ensures 0 <= TruncDiv(a, d) <= b
  {
    DivExact(0, d);
    DivExact(b, d);
    DivMonotone(0, a, d);
    DivMonotone(a, b * d, d);
  }
}
