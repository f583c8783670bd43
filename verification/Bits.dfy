/** Shifts and masks on unbounded naturals, written bit by bit. */
module Bits {

  function Pow2(n: nat): (r: nat)
    ensures r >= 1
  {
    if n == 0 then 1 else 2 * Pow2(n - 1)
  }

  /** The bitwise and of two naturals. */
  function And(x: nat, y: nat): nat {
    if x == 0 || y == 0 then 0
    else (if x % 2 == 1 && y % 2 == 1 then 1 else 0) + 2 * And(x / 2, y / 2)
  }

  function Shr(x: nat, k: nat): nat {
    if k == 0 then x else Shr(x / 2, k - 1)
  }

  lemma {:induction false} MaskIsMod(x: nat, k: nat)
    ensures And(x, Pow2(k) - 1) == x % Pow2(k)
    decreases k
  {
    if k != 0 {
      var p := Pow2(k - 1);
      assert Pow2(k) - 1 == 2 * (p - 1) + 1;
      MaskIsMod(x / 2, k - 1);
      ModTwice(x, p);
      if x != 0 {
        assert (Pow2(k) - 1) / 2 == p - 1;
      }
    }
  }

  lemma ModTwice(x: nat, p: nat)
    requires p >= 1
    ensures x % (2 * p) == x % 2 + 2 * (x / 2 % p)
  {
    var q, r := x / 2 / p, x / 2 % p;
    assert x == 2 * (q * p + r) + x % 2;
    assert x == q * (2 * p) + (2 * r + x % 2);
    DivModUnique(x, 2 * p, q, 2 * r + x % 2);
  }

  lemma QuotientUnique(d: int, q: int, r: int, q': int, r': int)
    requires d > 0 && q * d + r == q' * d + r' && 0 <= r < d && 0 <= r' < d
    ensures q == q' && r == r'
  {
    var e := q - q';
    assert e * d == r' - r;
    MultipleBelow(e, d);
  }

  /** Zero is the only multiple of d strictly between -d and d. */
  lemma MultipleBelow(e: int, d: int)
    requires d > 0
    ensures -d < e * d < d ==> e == 0
  {
    if e >= 1 {
      assert e * d == (e - 1) * d + d && (e - 1) * d >= 0;
    } else if e <= -1 {
      assert e * d == (e + 1) * d - d && (-e - 1) * d >= 0;
    }
  }

  lemma DivModUnique(x: int, d: int, q: int, r: int)
    requires d > 0 && x == q * d + r && 0 <= r < d
    ensures x / d == q && x % d == r
  {
    QuotientUnique(d, q, r, x / d, x % d);
  }

  /** Reducing by twice the modulus keeps the residue or adds the modulus to it. */
  lemma HalfModulus(x: nat, n: nat)
    requires n >= 1
    ensures x % (2 * n) == x % n || x % (2 * n) == x % n + n
  {
    var q, r := x / (2 * n), x % (2 * n);
    assert x == q * (2 * n) + r;
    if r < n {
      DivModUnique(x, n, 2 * q, r);
    } else {
      assert x == (2 * q + 1) * n + (r - n);
      DivModUnique(x, n, 2 * q + 1, r - n);
    }
  }

  lemma CeilDiv(n: nat, d: nat)
    requires d >= 1
    ensures n / d + (if n % d != 0 then 1 else 0) == (n + d - 1) / d
  {
    var q, r := n / d, n % d;
    assert n == q * d + r;
    if r == 0 {
      DivModUnique(n + d - 1, d, q, d - 1);
    } else {
      assert n + d - 1 == (q + 1) * d + (r - 1);
      DivModUnique(n + d - 1, d, q + 1, r - 1);
    }
  }

  lemma {:induction false} ShrIsDiv(x: nat, k: nat)
    ensures Shr(x, k) == x / Pow2(k)
    decreases k
  {
    if k != 0 {
      ShrIsDiv(x / 2, k - 1);
      var p := Pow2(k - 1);
      var q := x / 2 / p;
      assert x / 2 == q * p + x / 2 % p;
      assert x == q * (2 * p) + (2 * (x / 2 % p) + x % 2);
      DivModUnique(x, 2 * p, q, 2 * (x / 2 % p) + x % 2);
    }
  }
}
