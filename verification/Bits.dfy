/** Python's bitwise operators on unbounded integers: infinite two's complement.

    The three operators share one recursion over the bits.  SplitAt is the lemma the rest of the project
    stands on: an operator acts separately on the part above and the part below any bit position. */
module Bits {
  import opened Arithmetic

  datatype Op = And | Or | Xor

  function BitOf(op: Op, x: int, y: int): (z: int)
    ensures 0 <= z <= 1
  {
    match op
    case And => if x == 0 || y == 0 then 0 else 1
    case Or => if x == 0 && y == 0 then 0 else 1
    case Xor => if x == y then 0 else 1
  }

  /** All bits of 0 are 0 and all bits of -1 are 1; every other integer has a last bit and a rest. */
  function Bitwise(op: Op, a: int, b: int): int
    decreases Abs(a) + Abs(b)
  {
    if -1 <= a <= 0 && -1 <= b <= 0 then -BitOf(op, -a, -b)
    else 2 * Bitwise(op, a / 2, b / 2) + BitOf(op, a % 2, b % 2)
  }

  function Shl(a: int, n: nat): int {
    if n == 0 then a else 2 * Shl(a, n - 1)
  }

  function Shr(a: int, n: nat): int {
    a / Pow(2, n)
  }

  /** `~a` */
  function Not(a: int): int {
    -a - 1
  }

  lemma Unfold(op: Op, a: int, b: int)
    ensures Bitwise(op, a, b) == 2 * Bitwise(op, a / 2, b / 2) + BitOf(op, a % 2, b % 2)
  {
  }

  lemma {:induction false} ShlIsMul(a: int, n: nat)
    ensures Shl(a, n) == Pow(2, n) * a
  {
    if n > 0 {
      ShlIsMul(a, n - 1);
    }
  }

  lemma {:induction false} ShlZero(n: nat)
    ensures Shl(0, n) == 0
  {
    if n > 0 {
      ShlZero(n - 1);
    }
  }

  /** Any integer is its part above bit n and its part below. */
  lemma ShrShl(a: int, n: nat)
    ensures a == Shl(Shr(a, n), n) + a % Pow(2, n)
  {
    ShlIsMul(Shr(a, n), n);
    DivModSpec(a, Pow(2, n));
  }

  lemma {:induction false} StaysBelow(op: Op, x: int, y: int, n: nat)
    requires 0 <= x < Pow(2, n) && 0 <= y < Pow(2, n)
    ensures 0 <= Bitwise(op, x, y) < Pow(2, n)
  {
    if n > 0 {
      StaysBelow(op, x / 2, y / 2, n - 1);
      Unfold(op, x, y);
    }
  }

  lemma {:induction false} SplitAt(op: Op, a: int, x: int, b: int, y: int, n: nat)
    requires 0 <= x < Pow(2, n) && 0 <= y < Pow(2, n)
    ensures Bitwise(op, Shl(a, n) + x, Shl(b, n) + y) == Shl(Bitwise(op, a, b), n) + Bitwise(op, x, y)
  {
    if n > 0 {
      SplitAt(op, a, x / 2, b, y / 2, n - 1);
      Unfold(op, Shl(a, n) + x, Shl(b, n) + y);
      Unfold(op, x, y);
    }
  }

  lemma {:induction false} Units(a: int)
    ensures Bitwise(Or, a, 0) == a && Bitwise(Or, 0, a) == a
    ensures Bitwise(Xor, a, 0) == a && Bitwise(Xor, 0, a) == a && Bitwise(Xor, a, a) == 0
    ensures Bitwise(And, a, 0) == 0 && Bitwise(And, a, -1) == a
    decreases Abs(a)
  {
    if !(-1 <= a <= 0) {
      Units(a / 2);
    }
  }

  /** `hi << n | lo` is an addition when `lo` fits in n bits. */
  lemma OrIsAdd(hi: int, lo: int, n: nat)
    requires 0 <= lo < Pow(2, n)
    ensures Bitwise(Or, Shl(hi, n), lo) == Shl(hi, n) + lo
  {
    SplitAt(Or, hi, 0, 0, lo, n);
    ShlZero(n);
    Units(hi);
    Units(lo);
  }

  /** `a & ((1 << n) - 1)` is the remainder modulo 2^n, for either sign of a. */
  lemma MaskIsMod(a: int, n: nat)
    ensures Bitwise(And, a, Shl(1, n) - 1) == a % Pow(2, n)
  {
    ShlIsMul(1, n);
    ShrShl(a, n);
    DivModSpec(a, Pow(2, n));
    SplitAt(And, Shr(a, n), a % Pow(2, n), 0, Pow(2, n) - 1, n);
    ShlZero(n);
    Units(Shr(a, n));
    MaskKeeps(a % Pow(2, n), n);
  }

  lemma {:induction false} MaskKeeps(x: int, n: nat)
    requires 0 <= x < Pow(2, n)
    ensures Bitwise(And, x, Pow(2, n) - 1) == x
    decreases n
  {
    if n > 0 {
      MaskKeeps(x / 2, n - 1);
      Unfold(And, x, Pow(2, n) - 1);
    }
  }

  /** `x ^ (x >> n << n)` clears everything above the low n bits. */
  lemma XorClearsHigh(x: int, n: nat)
    ensures Bitwise(Xor, x, Shl(Shr(x, n), n)) == x % Pow(2, n)
  {
    ShrShl(x, n);
    DivModSpec(x, Pow(2, n));
    SplitAt(Xor, Shr(x, n), x % Pow(2, n), Shr(x, n), 0, n);
    Units(Shr(x, n));
    ShlZero(n);
    Units(x % Pow(2, n));
  }

  lemma {:induction false} XorCommutes(a: int, b: int)
    ensures Bitwise(Xor, a, b) == Bitwise(Xor, b, a)
    decreases Abs(a) + Abs(b)
  {
    if !(-1 <= a <= 0 && -1 <= b <= 0) {
      XorCommutes(a / 2, b / 2);
    }
  }

  lemma {:induction false} XorAssociates(a: int, b: int, c: int)
    ensures Bitwise(Xor, Bitwise(Xor, a, b), c) == Bitwise(Xor, a, Bitwise(Xor, b, c))
    decreases Abs(a) + Abs(b) + Abs(c)
  {
    if !(-1 <= a <= 0 && -1 <= b <= 0 && -1 <= c <= 0) {
      XorAssociates(a / 2, b / 2, c / 2);
      XorLastBit(a, b, c);
      XorBits(a, b);
      XorBits(b, c);
      XorBits(Bitwise(Xor, a, b), c);
      XorBits(a, Bitwise(Xor, b, c));
      SameHalves(Bitwise(Xor, Bitwise(Xor, a, b), c), Bitwise(Xor, a, Bitwise(Xor, b, c)));
    }
  }

  lemma XorLastBit(a: int, b: int, c: int)
    ensures Bitwise(Xor, Bitwise(Xor, a, b), c) % 2 == Bitwise(Xor, a, Bitwise(Xor, b, c)) % 2
  {
    XorBits(a, b);
    XorBits(b, c);
    XorBits(Bitwise(Xor, a, b), c);
    XorBits(a, Bitwise(Xor, b, c));
  }

  lemma SameHalves(x: int, y: int)
    requires x / 2 == y / 2 && x % 2 == y % 2
    ensures x == y
  {
  }

  lemma XorBits(a: int, b: int)
    ensures Bitwise(Xor, a, b) / 2 == Bitwise(Xor, a / 2, b / 2)
    ensures Bitwise(Xor, a, b) % 2 == BitOf(Xor, a % 2, b % 2)
  {
    Unfold(Xor, a, b);
  }
}
