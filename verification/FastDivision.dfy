/** Burnikel-Ziegler division: `_div2n1n`, `_div3n2n`, `_divmod_pos` and `int_divmod`. */
module FastDivision {
  import opened Arithmetic
  import opened Bits
  import opened Digits

  // ----- What a division is -----

  /** Quotient and remainder of a division rounded down: the remainder is zero or has b's sign. */
  ghost predicate IsFloorDivision(a: int, b: int, q: int, r: int) {
    a == b * q + r && (if b > 0 then 0 <= r < b else b < r <= 0)
  }

  datatype Outcome = Ok(q: int, r: int) | ZeroDivisionError

  /** The quotient is the floor of the exact ratio, so the specification has one answer. */
  lemma FloorDivisionIsFloor(a: int, b: int, q: int, r: int)
    requires b != 0
    requires IsFloorDivision(a, b, q, r)
    ensures q == (a as real / b as real).Floor && r == a - b * q
  {
    var x := a as real / b as real;
    var f := r as real / b as real;
    assert a as real == b as real * q as real + r as real by {
      assert (b * q) as real == b as real * q as real;
    }
    assert x == q as real + f;
    assert 0.0 <= f < 1.0;
  }

  // ----- One estimate of _div3n2n -----

  /** The estimated quotient leaves a remainder below b and at most two divisors too low, because the upper
      half b1 of the divisor has its top bit set. */
  lemma {:induction false} EstimateIsClose(a12: int, a3: int, b: int, b1: int, b2: int, h: int, q: int, r1: int)
    requires h >= 1 && b == h * b1 + b2 && 0 <= b2 < h && h <= 2 * b1
    requires 0 <= a12 < b && 0 <= a3 < h
    requires a12 == b1 * q + r1 && 0 <= q < h && 0 <= r1
    requires r1 < b1 || q == h - 1
    ensures h * a12 + a3 == b * q + (h * r1 + a3 - q * b2)
    ensures -2 * b <= h * r1 + a3 - q * b2 < b
  {
    EstimateEquation(a12, b, b1, b2, h, q, r1);
    SmallCorrection(b, b1, b2, h, q);
    MulMonotone(0, r1, h);
    if r1 < b1 {
      CombinedRemainder(h, b1, r1, a3);
    } else {
      CombinedRemainder(h, b, a12, a3);
      MulDistributes(b, h, -1);
    }
  }

  lemma SmallCorrection(b: int, b1: int, b2: int, h: int, q: int)
    requires b == h * b1 + b2 && 0 <= b2 < h && h <= 2 * b1 && 0 <= q < h
    ensures 0 <= q * b2 <= 2 * b
  {
    MulMonotone(0, q, b2);
    MulMonotone(q, h, b2);
    MulMonotone(b2, h, h);
    MulMonotone(h, 2 * b1, h);
    MulAssoc(h, b1, 2);
  }

  lemma EstimateEquation(a12: int, b: int, b1: int, b2: int, h: int, q: int, r1: int)
    requires b == h * b1 + b2 && a12 == b1 * q + r1
    ensures h * a12 == b * q + h * r1 - q * b2
  {
    MulDistributes(h, b1 * q, r1);
    MulAssoc(h, b1, q);
    MulDistributes(q, h * b1, b2);
  }

  // ----- The two halves of _div2n1n -----

  /** Dividing the upper three quarters and then the rest divides the whole. */
  lemma TwoSteps(a: int, b: int, h: int, top: int, low: int, q1: int, r1: int, q2: int, r2: int)
    requires a == h * top + low && top == b * q1 + r1 && h * r1 + low == b * q2 + r2
    ensures a == b * (h * q1 + q2) + r2
  {
    MulDistributes(h, b * q1, r1);
    MulAssoc(h, b, q1);
    MulAssoc(b, h, q1);
    MulDistributes(b, h * q1, q2);
  }

  /** The quotient of a number below 2^n * b has at most n bits. */
  lemma QuotientFits(a: int, b: int, q: int, r: int, p: int)
    requires b > 0 && 0 <= a < p * b && a == b * q + r && 0 <= r < b
    ensures 0 <= q < p
  {
    if q >= p {
      MulMonotone(p, q, b);
    } else if q < 0 {
      MulMonotone(q, -1, b);
    }
  }

  lemma ExactBits(b: int, n: nat)
    requires b > 0 && BitLength(b) == n
    ensures n >= 1 && Pow(2, n - 1) <= b < Pow(2, n)
  {
    BitLengthBound(b, n);
    BitLengthBound(b, n - 1);
  }

  lemma BitsExact(b: int, n: nat)
    requires n >= 1 && Pow(2, n - 1) <= b < Pow(2, n)
    ensures BitLength(b) == n
  {
    BitLengthBound(b, n);
    BitLengthBound(b, n - 1);
  }

  /** A dividend too long for the direct case comes with a divisor of at least two bits. */
  lemma LongEnoughToHalve(a: int, b: int, n: nat)
    requires b > 0 && BitLength(b) == n && 0 <= a < Pow(2, n) * b
    requires BitLength(a) > n
    ensures n >= 2
  {
    ExactBits(b, n);
    if n == 1 {
      BitLengthBound(a, 1);
    }
  }

  /** Splitting an even-length divisor in the middle leaves an upper half with exactly half the bits. */
  lemma UpperHalfIsExact(b: int, half: nat)
    requires half >= 1 && b > 0 && BitLength(b) == 2 * half
    ensures BitLength(b / Pow(2, half)) == half && b / Pow(2, half) > 0
  {
    var h, t := Pow(2, half), Pow(2, half - 1);
    ExactBits(b, 2 * half);
    PowAdd(2, half, half);
    PowAdd(2, half, half - 1);
    assert h * t <= b < h * h;
    DivModSpec(b, h);
    QuotientBelow(b, h, h);
    if b / h < t {
      MulMonotone(b / h, t - 1, h);
      MulDistributes(h, t, -1);
    }
    BitsExact(b / h, half);
  }

  /** A number in three parts, at the bit positions half and 2 * half: h is 2^half and hh is 2^(2 * half). */
  lemma ThreeParts(a: int, h: int, hh: int)
    requires h > 0 && hh == h * h
    ensures hh > 0 && a == h * (h * (a / hh) + (a / h) % h) + a % h
  {
    DivDiv(a, h, h);
    DivModSpec(a, h);
    DivModSpec(a / h, h);
    assert h * (a / hh) + (a / h) % h == a / h;
  }

  /** b has exactly n bits and a < 2^n * b: the quotient and remainder, and a quotient of at most n bits. */
  method Div2n1n(a: int, b: int, n: nat, limit: nat) returns (q: int, r: int)
    requires b > 0 && BitLength(b) == n
    requires 0 <= a < Pow(2, n) * b
    ensures a == b * q + r && 0 <= r < b && 0 <= q < Pow(2, n)
    decreases n, 0
  {
    if BitLength(a) - n <= limit {
      q, r := a / b, a % b;
      DivModSpec(a, b);
      QuotientFits(a, b, q, r, Pow(2, n));
      return;
    }
    LongEnoughToHalve(a, b, n);
    var pad := Bitwise(And, n, 1);
    LastBit(n);
    var a', b', n' := a, b, n;
    if pad != 0 {
      a', b', n' := Shl(a, 1), Shl(b, 1), n + 1;
      PadKeepsBounds(a, b, n);
    }
    var half := n' / 2;
    assert 2 * half == n';
    q, r := Div2n1nEven(a', b', half, limit);
    if pad != 0 {
      r := Unpad(a, b, q, r);
    }
    QuotientFits(a, b, q, r, Pow(2, n));
  }

  /** `Lib/_pylong.py:447-448`: a doubled division has the same quotient and twice the remainder. */
  method Unpad(a: int, b: int, q: int, r2: int) returns (r: int)
    requires 2 * a == 2 * b * q + r2 && 0 <= r2 < 2 * b
    ensures a == b * q + r && 0 <= r < b
  {
    r := Shr(r2, 1);
    MulAssoc(2, b, q);
    assert Pow(2, 1) == 2;
  }

  lemma LastBit(n: nat)
    ensures Bitwise(And, n, 1) == n % 2
  {
    MaskIsMod(n, 1);
    assert Shl(1, 1) == 2 && Pow(2, 1) == 2;
  }

  lemma PadKeepsBounds(a: int, b: int, n: nat)
    requires b > 0 && BitLength(b) == n && 0 <= a < Pow(2, n) * b
    ensures Shl(a, 1) == 2 * a && Shl(b, 1) == 2 * b
    ensures BitLength(2 * b) == n + 1 && 2 * a < Pow(2, n + 1) * (2 * b)
  {
    var p := Pow(2, n);
    MulAssoc(2, p, b);
    MulDistributes(2 * p, b, b);
    ExactBits(b, n);
    BitsExact(2 * b, n + 1);
  }

  /** The recursive case, after padding: `Lib/_pylong.py:442-446` and 449. */
  method Div2n1nEven(a: int, b: int, half: nat, limit: nat) returns (q: int, r: int)
    requires half >= 1 && b > 0 && BitLength(b) == 2 * half
    requires 0 <= a < Pow(2, 2 * half) * b
    ensures a == b * q + r && 0 <= r < b
    decreases half, 2
  {
    var n := 2 * half;
    ghost var h := Pow(2, half);
    var mask := Shl(1, half) - 1;
    var b1, b2 := Shr(b, half), Bitwise(And, b, mask);
    PartsOfDivisor(b, half);
    PartsOfDividend(a, b, half);
    var q1, r1, c1 := Div3n2n(Shr(a, n), Bitwise(And, Shr(a, half), mask), b, b1, b2, half, limit);
    var q2, r2, c2 := Div3n2n(r1, Bitwise(And, a, mask), b, b1, b2, half, limit);
    q, r := Bitwise(Or, Shl(q1, half), q2), r2;
    OrIsAdd(q1, q2, half);
    ShlIsMul(q1, half);
    HalvesOfQuotient(a, b, h, Shr(a, n), Bitwise(And, Shr(a, half), mask), Bitwise(And, a, mask), q1, r1, q2, r2, q);
  }

  lemma HalvesOfQuotient(a: int, b: int, h: int, top: int, mid: int, low: int, q1: int, r1: int, q2: int, r2: int,
      q: int)
    requires a == h * (h * top + mid) + low
    requires h * top + mid == b * q1 + r1 && h * r1 + low == b * q2 + r2 && q == h * q1 + q2
    ensures a == b * q + r2
  {
    TwoSteps(a, b, h, h * top + mid, low, q1, r1, q2, r2);
  }

  lemma PartsOfDivisor(b: int, half: nat)
    requires half >= 1 && b > 0 && BitLength(b) == 2 * half
    ensures var b1, b2 := Shr(b, half), Bitwise(And, b, Shl(1, half) - 1);
      && b == Pow(2, half) * b1 + b2 && 0 <= b2 < Pow(2, half)
      && b1 > 0 && BitLength(b1) == half
  {
    MaskIsMod(b, half);
    DivModSpec(b, Pow(2, half));
    UpperHalfIsExact(b, half);
  }

  lemma PartsOfDividend(a: int, b: int, half: nat)
    requires half >= 1 && b > 0 && 0 <= a < Pow(2, 2 * half) * b
    ensures var h, mask := Pow(2, half), Shl(1, half) - 1;
      var top, mid, low := Shr(a, 2 * half), Bitwise(And, Shr(a, half), mask), Bitwise(And, a, mask);
      && a == h * (h * top + mid) + low
      && 0 <= top < b && 0 <= mid < h && 0 <= low < h
  {
    var h := Pow(2, half);
    MaskIsMod(a, half);
    MaskIsMod(Shr(a, half), half);
    PowAdd(2, half, half);
    assert half + half == 2 * half;
    ThreeParts(a, h, Pow(2, 2 * half));
    DivModSpec(a, h);
    DivModSpec(a / h, h);
    QuotientBelow(a, Pow(2, 2 * half), b);
    NonNegativeQuotient(a, Pow(2, 2 * half));
  }

  lemma NonNegativeQuotient(a: int, p: int)
    requires a >= 0 && p > 0
    ensures a / p >= 0
  {
    DivModSpec(a, p);
    if a / p < 0 {
      MulMonotone(a / p, -1, p);
    }
  }

  /** Divides a12 * 2^n + a3 by b = b1 * 2^n + b2.  The `while` loop corrects the estimate at most twice. */
  method Div3n2n(a12: int, a3: int, b: int, b1: int, b2: int, n: nat, limit: nat)
      returns (q: int, r: int, ghost corrections: nat)
    requires n >= 1 && b1 > 0 && BitLength(b1) == n
    requires b == Pow(2, n) * b1 + b2 && 0 <= b2 < Pow(2, n)
    requires 0 <= a12 < b && 0 <= a3 < Pow(2, n)
    ensures Pow(2, n) * a12 + a3 == b * q + r && 0 <= r < b && 0 <= q < Pow(2, n)
    ensures corrections <= 2
    decreases n, 1
  {
    ghost var h := Pow(2, n);
    ExactBits(b1, n);
    ShlIsMul(1, n);
    ShlIsMul(b1, n);
    TopPart(a12, b, b1, b2, h);
    if Shr(a12, n) == b1 {
      q, r := Shl(1, n) - 1, a12 - Shl(b1, n) + b1;
      MulDistributes(b1, h, -1);
    } else {
      q, r := Div2n1n(a12, b1, n, limit);
    }
    EstimateIsClose(a12, a3, b, b1, b2, h, q, r);
    OrIsAdd(r, a3, n);
    ShlIsMul(r, n);
    r := Bitwise(Or, Shl(r, n), a3) - q * b2;
    corrections := 0;
    while r < 0
      invariant h * a12 + a3 == b * q + r && r < b
      invariant corrections <= 2
      invariant r >= if corrections == 0 then -2 * b else if corrections == 1 then -b else 0
      decreases -r
    {
      MulDistributes(b, q, -1);
      q := q - 1;
      r := r + b;
      corrections := corrections + 1;
    }
    assert 0 <= h * a12 + a3 < h * b by {
      MulMonotone(a12, b - 1, h);
      MulMonotone(0, a12, h);
      MulDistributes(h, b, -1);
    }
    QuotientFits(h * a12 + a3, b, q, r, h);
  }

  /** The leading part of the dividend is at most b1, and below b1 the dividend is in range for _div2n1n. */
  lemma TopPart(a12: int, b: int, b1: int, b2: int, h: int)
    requires h >= 1 && b == h * b1 + b2 && 0 <= b2 < h && 0 <= a12 < b
    ensures a12 / h <= b1
    ensures a12 / h == b1 ==> a12 >= h * b1
    ensures a12 / h < b1 ==> a12 < h * b1
  {
    DivModSpec(a12, h);
    var t := a12 / h;
    if t > b1 {
      MulMonotone(b1 + 1, t, h);
      MulDistributes(h, b1, 1);
    } else if t < b1 {
      MulMonotone(t, b1 - 1, h);
      MulDistributes(h, b1, -1);
    }
  }

  // ----- Schoolbook division in base 2^n -----

  /** One step of the schoolbook loop: the new digit of the dividend gives one digit of the quotient. */
  lemma SchoolbookStep(b: int, base: int, high: int, qHigh: int, r: int, d: int, qd: int, r': int, a: int, q: int)
    requires high == b * qHigh + r && base * r + d == b * qd + r'
    requires a == d + base * high && q == qd + base * qHigh
    ensures a == b * q + r'
  {
    MulDistributes(base, b * qHigh, r);
    MulAssoc(base, b, qHigh);
    MulAssoc(b, base, qHigh);
    MulDistributes(b, qd, base * qHigh);
  }

  lemma NextDividendInRange(b: int, base: int, r: int, d: int)
    requires 0 <= r < b && 0 <= d < base
    ensures 0 <= base * r + d < base * b
  {
    MulMonotone(r, b - 1, base);
    MulMonotone(0, r, base);
    MulDistributes(base, b, -1);
  }

  method DivmodPos(a: int, b: int, limit: nat) returns (q: int, r: int)
    requires a >= 0 && b > 0
    ensures a == b * q + r && 0 <= r < b
  {
    var n := BitLength(b);
    ExactBits(b, n);
    ghost var base := Pow(2, n);
    var aDigits := Int2Digits(a, n);
    r := 0;
    var qDigits: seq<int> := [];
    var k := |aDigits|;
    assert aDigits[k..] == [];
    while k > 0
      invariant 0 <= k <= |aDigits|
      invariant 0 <= r < b
      invariant Value(aDigits[k..], base) == b * Value(Reverse(qDigits), base) + r
      invariant InRange(qDigits, base)
    {
      k := k - 1;
      ghost var r0, q0 := r, qDigits;
      ShlIsMul(r, n);
      NextDividendInRange(b, base, r, aDigits[k]);
      var qDigit;
      qDigit, r := Div2n1n(Shl(r, n) + aDigits[k], b, n, limit);
      qDigits := qDigits + [qDigit];
      AppendQuotientDigit(aDigits[k..], b, base, q0, r0, qDigit, r);
    }
    assert aDigits[0..] == aDigits;
    q := Digits2Int(Reverse(qDigits), n);
  }

  lemma AppendQuotientDigit(ds: seq<int>, b: int, base: int, qs: seq<int>, r0: int, qDigit: int, r: int)
    requires ds != [] && InRange(qs, base) && 0 <= qDigit < base
    requires Value(ds[1..], base) == b * Value(Reverse(qs), base) + r0
    requires base * r0 + ds[0] == b * qDigit + r
    ensures Value(ds, base) == b * Value(Reverse(qs + [qDigit]), base) + r
    ensures InRange(qs + [qDigit], base)
  {
    ReverseAppend(qs, qDigit);
    ValueCons(qDigit, Reverse(qs), base);
    ValueHeadTail(ds, base);
    SchoolbookStep(b, base, Value(ds[1..], base), Value(Reverse(qs), base), r0, ds[0], qDigit, r,
      Value(ds, base), Value(Reverse(qs + [qDigit]), base));
  }

  lemma ValueHeadTail(ds: seq<int>, base: int)
    requires ds != []
    ensures Value(ds, base) == ds[0] + base * Value(ds[1..], base)
  {
    assert ds == [ds[0]] + ds[1..];
    ValueCons(ds[0], ds[1..], base);
  }

  /** `divmod` on all integers: floor division, or ZeroDivisionError. */
  method IntDivmod(a: int, b: int, limit: nat) returns (o: Outcome)
    ensures o.ZeroDivisionError? <==> b == 0
    ensures o.Ok? ==> IsFloorDivision(a, b, o.q, o.r)
    decreases b < 0, a < 0
  {
    if b == 0 {
      return ZeroDivisionError;
    } else if b < 0 {
      var p := IntDivmod(-a, -b, limit);
      assert (-b) * p.q == -(b * p.q);
      return Ok(p.q, -p.r);
    } else if a < 0 {
      var p := IntDivmod(Not(a), b, limit);
      assert b * (-p.q - 1) == -(b * p.q) - b;
      return Ok(Not(p.q), b + Not(p.r));
    } else {
      var q, r := DivmodPos(a, b, limit);
      return Ok(q, r);
    }
  }
}
