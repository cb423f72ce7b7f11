/** Integer powers, bit lengths and the facts about floor division that the other modules use. */
module Arithmetic {

  function Pow(b: int, e: nat): (r: int)
    ensures b >= 1 ==> r >= 1
  {
    if e == 0 then 1 else b * Pow(b, e - 1)
  }

  function Abs(a: int): (r: nat) {
    if a < 0 then -a else a
  }

  /** The `int.bit_length` of Python: the number of bits of the magnitude. */
  function BitLength(a: int): nat
    decreases Abs(a)
  {
    if a == 0 then 0 else 1 + BitLength(Abs(a) / 2)
  }

  lemma MulMonotone(x: int, y: int, z: int)
    requires x <= y && 0 <= z
    ensures x * z <= y * z
    ensures z * x <= z * y
  {
  }

  lemma MulEqual(x: int, x': int, y: int, y': int)
    requires x == x' && y == y'
    ensures x * y == x' * y'
  {
  }

  lemma MulAssoc(x: int, y: int, z: int)
    ensures (x * y) * z == x * (y * z)
  {
  }

  lemma MulDistributes(x: int, y: int, z: int)
    ensures x * (y + z) == x * y + x * z
    ensures (y + z) * x == y * x + z * x
  {
  }

  lemma DivModSpec(a: int, b: int)
    requires b > 0
    ensures a == b * (a / b) + a % b && 0 <= a % b < b
  {
  }

  lemma {:induction false} PowAdd(b: int, i: nat, j: nat)
    ensures Pow(b, i + j) == Pow(b, i) * Pow(b, j)
  {
    if i > 0 {
      PowAdd(b, i - 1, j);
      assert Pow(b, i) * Pow(b, j) == b * (Pow(b, i - 1) * Pow(b, j));
    }
  }

  lemma PowMonotone(b: int, i: nat, j: nat)
    requires b >= 1 && i <= j
    ensures Pow(b, i) <= Pow(b, j)
  {
    PowAdd(b, i, j - i);
    MulMonotone(1, Pow(b, j - i), Pow(b, i));
  }

  lemma MulSwap(b: int, c: int, x: int, y: int)
    ensures (b * c) * (x * y) == (b * x) * (c * y)
  {
    assert (b * c) * (x * y) == b * (c * (x * y));
    assert c * (x * y) == x * (c * y);
  }

  lemma {:induction false} PowMul(b: int, c: int, e: nat)
    ensures Pow(b * c, e) == Pow(b, e) * Pow(c, e)
  {
    if e > 0 {
      PowMul(b, c, e - 1);
      MulSwap(b, c, Pow(b, e - 1), Pow(c, e - 1));
    }
  }

  /** Division with remainder has one answer. */
  lemma DivModUnique(a: int, b: int, q: int, r: int)
    requires b > 0 && a == b * q + r && 0 <= r < b
    ensures q == a / b && r == a % b
  {
    var q', r' := a / b, a % b;
    assert b * (q - q') == r' - r;
    if q > q' {
      MulMonotone(1, q - q', b);
    } else if q < q' {
      MulMonotone(q - q', -1, b);
    }
  }

  lemma SmallDivMod(a: int, b: int)
    requires 0 <= a < b
    ensures a / b == 0 && a % b == a
  {
    DivModUnique(a, b, 0, a);
  }

  /** The remainder of a two-step division is below the product of the divisors. */
  lemma CombinedRemainder(p: int, q: int, m: int, l: int)
    requires p > 0 && 0 <= m < q && 0 <= l < p
    ensures 0 <= p * m + l < p * q
  {
    MulMonotone(m, q - 1, p);
    MulMonotone(0, m, p);
    MulDistributes(p, q, -1);
  }

  lemma DivDiv(a: int, p: int, q: int)
    requires p > 0 && q > 0
    ensures p * q > 0 && a / (p * q) == (a / p) / q
  {
    var u, l := a / p, a % p;
    var x, m := u / q, u % q;
    DivModSpec(a, p);
    DivModSpec(u, q);
    MulDistributes(p, q * x, m);
    MulAssoc(p, q, x);
    CombinedRemainder(p, q, m, l);
    DivModUnique(a, p * q, x, p * m + l);
  }

  lemma DivByDouble(w: nat, p: int)
    requires p >= 1
    ensures w / (2 * p) == (w / p) / 2
  {
    DivDiv(w, p, 2);
  }

  /** A product below a multiple: the quotient is below the factor. */
  lemma QuotientBelow(a: int, b: int, c: int)
    requires b > 0 && a < b * c
    ensures a / b < c
  {
    if a / b >= c {
      MulMonotone(c, a / b, b);
    }
  }

  /** The bit length is the least number of bits that hold the magnitude. */
  lemma {:induction false} BitLengthBound(a: int, n: nat)
    ensures BitLength(a) <= n <==> Abs(a) < Pow(2, n)
    decreases n
  {
    if a != 0 && n > 0 {
      BitLengthBound(Abs(a) / 2, n - 1);
    }
  }
}
