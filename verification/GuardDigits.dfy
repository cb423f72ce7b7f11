/** How many guard digits `_dec_str_to_int_inner` needs: for every cut-off there is a numeral that makes it fall
    back to an exact division if it has only one. */
module GuardDigits {
  import opened Arithmetic
  import opened ChoppedDecimals
  import opened ReciprocalDivision
  import opened DecimalStrings
  import opened DecStrToInt

  // ----- The estimated number of bytes -----

  /** b is the whole part of L * log256(10). */
  predicate WholePart(L: nat, b: nat) {
    Pow(256, b) <= Pow(10, L) < Pow(256, b + 1)
  }

  /** The fraction that is lost exceeds 0.9: 256^(b + 0.9) < 10^L. */
  predicate LosesMuch(L: nat, b: nat) {
    Pow(256, 10 * b + 9) < Pow(10, 10 * L)
  }

  /** `Lib/_pylong.py:353-356` with an exact logarithm: the number of bytes that is set aside for L digits */
  ghost predicate EstimatedBytes(L: nat, w: nat) {
    exists b: nat :: WholePart(L, b) && w == b + 1 + (if LosesMuch(L, b) then 1 else 0)
  }

  /** The estimate is large enough for every string of L digits. */
  lemma EstimateSuffices(s: string, w: nat)
    requires AllDigits(s) && EstimatedBytes(|s|, w)
    ensures 0 <= DecValue(s) < Pow(256, w)
  {
    var b: nat :| WholePart(|s|, b) && w == b + 1 + (if LosesMuch(|s|, b) then 1 else 0);
    DecValueBound(s);
    PowMonotone(256, b + 1, w);
  }

  // ----- Powers of 256 that are slightly above a power of ten -----

  lemma Powers256()
    ensures Pow(256, 12) == 79228162514264337593543950336
    ensures Pow(256, 24) == 6277101735386680763835789423207666416102355444464034512896
  {
    assert Pow(256, 3) == 16777216;
    PowAdd(256, 3, 3);
    PowAdd(256, 6, 6);
    PowAdd(256, 12, 12);
  }

  lemma Powers10()
    ensures Pow(10, 59) == 100000000000000000000000000000000000000000000000000000000000
    ensures Pow(10, 65) == 1000000 * Pow(10, 59)
    ensures Pow(10, 118) == Pow(10, 59) * Pow(10, 59)
  {
    assert Pow(10, 3) == 1000;
    PowAdd(10, 3, 3);
    PowAdd(10, 6, 6);
    PowAdd(10, 12, 12);
    PowAdd(10, 24, 24);
    assert Pow(10, 5) == 100000;
    PowAdd(10, 6, 5);
    PowAdd(10, 48, 11);
    PowAdd(10, 6, 59);
    PowAdd(10, 59, 59);
  }

  /** 256^49 is 1.0086 to 1.0087 times 10^118. */
  lemma Step()
    ensures Close(49, 118)
  {
    Powers256();
    Powers10();
    PowAdd(256, 24, 24);
    PowAdd(256, 1, 48);
    assert Pow(256, 1) == 256;
  }

  /** 256^27 is 1.0531 to 1.05313 times 10^65. */
  lemma Start()
    ensures 10531 * Pow(10, 65) <= 10000 * Pow(256, 27)
    ensures 100000 * Pow(256, 27) <= 105313 * Pow(10, 65)
  {
    Powers256();
    Powers10();
    PowAdd(256, 3, 24);
    assert Pow(256, 3) == 16777216;
  }

  function Product(x: int, y: int): int {
    x * y
  }

  lemma PowProduct(b: int, i: nat, j: nat, k: nat)
    requires k == i + j
    ensures Pow(b, k) == Product(Pow(b, i), Pow(b, j))
  {
    PowAdd(b, i, j);
  }

  /** 256^up exceeds 10^down by 0.8 to 0.87 percent. */
  predicate Close(up: nat, down: nat) {
    1008 * Pow(10, down) <= 1000 * Pow(256, up) && 10000 * Pow(256, up) <= 10087 * Pow(10, down)
  }

  /** The ratio of 256^(up * i) to 10^(down * i) grows by at least 0.008 with every step. */
  lemma {:induction false} RatioGrows(up: nat, down: nat, i: nat)
    requires Close(up, down)
    ensures up * i >= 0 && down * i >= 0
    ensures Product(1000 + 8 * i, Pow(10, down * i)) <= 1000 * Pow(256, up * i)
  {
    if i > 0 {
      RatioGrows(up, down, i - 1);
      MulDistributes(up, i - 1, 1);
      MulDistributes(down, i - 1, 1);
      PowProduct(256, up, up * (i - 1), up * i);
      PowProduct(10, down, down * (i - 1), down * i);
      GrowOnce(Pow(256, up * (i - 1)), Pow(10, down * (i - 1)), Pow(256, up), Pow(10, down), i - 1);
    }
  }

  lemma GrowOnce(a: int, b: int, x: int, y: int, i: nat)
    requires b >= 0 && y >= 0 && x >= 0
    requires Product(1000 + 8 * i, b) <= 1000 * a && 1008 * y <= 1000 * x
    ensures Product(1000 + 8 * (i + 1), Product(y, b)) <= 1000 * Product(x, a)
  {
    var m, c := 1000 + 8 * i, y * b;
    MulMonotone(m * b, 1000 * a, x);
    MulMonotone(0, b, m);
    MulMonotone(1008 * y, 1000 * x, m * b);
    MulMonotone(0, y, b);
    MulRearrange(y, b, m);
    MulAssoc(1000, x, m * b);
    MulAssoc(1000, x, a);
    MulMonotone(1000 * (m + 8), 1008 * m, c);
    MulAssoc(1000, m + 8, c);
  }

  lemma MulRearrange(y: int, b: int, m: int)
    ensures (1008 * y) * (m * b) == 1008 * m * (y * b)
  {
    assert (1008 * y) * (m * b) == 1008 * (y * (m * b));
    assert y * (m * b) == m * (y * b);
    MulAssoc(1008, m, y * b);
  }

  lemma {:induction false} RatioBounded(up: nat, down: nat, i: nat)
    requires Close(up, down)
    ensures up * i >= 0 && down * i >= 0
    ensures Pow(256, up * i) <= Pow(10, down * i + i)
  {
    if i > 0 {
      RatioBounded(up, down, i - 1);
      MulDistributes(up, i - 1, 1);
      MulDistributes(down, i - 1, 1);
      PowProduct(256, up, up * (i - 1), up * i);
      PowProduct(10, down + 1, down * (i - 1) + (i - 1), down * i + i);
      assert Pow(10, down + 1) == 10 * Pow(10, down);
      ProductMonotone(Pow(256, up), Pow(10, down + 1), Pow(256, up * (i - 1)), Pow(10, down * (i - 1) + (i - 1)));
    }
  }

  lemma ProductMonotone(x: int, y: int, a: int, b: int)
    requires 0 <= x <= y && 0 <= a <= b
    ensures Product(x, a) <= Product(y, b)
  {
    MulMonotone(x, y, a);
    MulMonotone(a, b, y);
  }

  /** At step i the ratio has passed 10^J. */
  predicate Passed(up: nat, down: nat, i: nat, J: nat) {
    MulMonotone(0, up, i);
    MulMonotone(0, down, i);
    Pow(10, down * i + J) <= Pow(256, up * i)
  }

  lemma {:induction false} PassesEventually(up: nat, down: nat, J: nat)
    requires Close(up, down)
    ensures Passed(up, down, 1125 * J, J)
  {
    if J > 0 {
      PassesEventually(up, down, J - 1);
      PassesOnce(up, down);
      var i := 1125 * (J - 1);
      MulDistributes(up, i, 1125);
      MulDistributes(down, i, 1125);
      MulMonotone(0, up, i);
      MulMonotone(0, down, i);
      PowProduct(256, up * 1125, up * i, up * (1125 * J));
      PowProduct(10, down * 1125 + 1, down * i + (J - 1), down * (1125 * J) + J);
      ProductMonotone(Pow(10, down * 1125 + 1), Pow(256, up * 1125), Pow(10, down * i + (J - 1)), Pow(256, up * i));
    }
  }

  /** 1125 steps of at least 0.008 multiply the ratio by ten. */
  lemma PassesOnce(up: nat, down: nat)
    requires Close(up, down)
    ensures Pow(10, down * 1125 + 1) <= Pow(256, up * 1125)
  {
    RatioGrows(up, down, 1125);
    assert Pow(10, down * 1125 + 1) == 10 * Pow(10, down * 1125);
  }

  /** The first step at which it has. */
  lemma {:induction false} FirstPassed(up: nat, down: nat, i: nat, J: nat) returns (first: nat)
    requires J >= 1 && Passed(up, down, i, J)
    ensures 1 <= first <= i && Passed(up, down, first, J) && !Passed(up, down, first - 1, J)
  {
    NotPassedAtFirst(up, down, J);
    if Passed(up, down, i - 1, J) {
      first := FirstPassed(up, down, i - 1, J);
    } else {
      first := i;
    }
  }

  lemma NotPassedAtFirst(up: nat, down: nat, J: nat)
    requires J >= 1
    ensures !Passed(up, down, 0, J)
  {
    TenMore(0, J);
    assert up * 0 == 0 && down * 0 == 0;
  }

  lemma TenMore(i: nat, j: nat)
    requires i < j
    ensures Pow(10, i) < Pow(10, j)
  {
    PowMonotone(10, i + 1, j);
  }

  /** p is 1.0531 to 1.0623 times t. */
  predicate SlightlyAbove(p: int, t: int) {
    10531 * t <= 10000 * p < 10623 * t
  }

  /** Beyond every limit, and not far beyond it, a power of 256 is slightly above a power of ten. */
  lemma PowerBeyond(up: nat, down: nat, more: nat, zeros: nat, limit: nat) returns (k: nat, a: nat)
    requires Close(up, down) && up >= 1 && zeros >= 1
    requires 10531 * Pow(10, zeros) <= 10000 * Pow(256, more) && 100000 * Pow(256, more) <= 105313 * Pow(10, zeros)
    ensures limit < k && k <= up * (1125 * (limit / up + 1)) + more
    ensures a >= 1 && SlightlyAbove(Pow(256, k), Pow(10, a))
  {
    var J := limit / up + 1;
    PassesEventually(up, down, J);
    var i := FirstPassed(up, down, 1125 * J, J);
    FewSteps(up, down, i, J);
    MulMonotone(J, i, up);
    MulMonotone(i, 1125 * J, up);
    MulMonotone(0, down, i);
    DivModSpec(limit, up);
    MulDistributes(up, limit / up, 1);
    k, a := up * i + more, down * i + J + zeros;
    JustPassed(up, down, i, J);
    PowProduct(256, up * i, more, k);
    PowProduct(10, down * i + J, zeros, a);
    ProductSlightlyAbove(Pow(256, up * i), Pow(10, down * i + J), Pow(256, more), Pow(10, zeros));
  }

  lemma PowerSlightlyAbove(limit: nat) returns (k: nat, a: nat)
    ensures limit < k <= 1125 * (limit + 49) + 27 && a >= 1 && SlightlyAbove(Pow(256, k), Pow(10, a))
  {
    Step();
    Start();
    k, a := PowerBeyond(49, 118, 27, 65, limit);
  }

  lemma FewSteps(up: nat, down: nat, i: nat, J: nat)
    requires Close(up, down) && Passed(up, down, i, J)
    ensures i >= J
  {
    RatioBounded(up, down, i);
    if i < J {
      TenMore(down * i + i, down * i + J);
    }
  }

  lemma JustPassed(up: nat, down: nat, i: nat, J: nat)
    requires Close(up, down) && i >= 1 && !Passed(up, down, i - 1, J)
    ensures up * i >= 0 && down * i >= 0
    ensures 10000 * Pow(256, up * i) <= 10087 * Pow(10, down * i + J)
  {
    MulMonotone(0, up, i - 1);
    MulMonotone(0, down, i - 1);
    MulDistributes(up, i - 1, 1);
    MulDistributes(down, i - 1, 1);
    PowProduct(256, up, up * (i - 1), up * i);
    PowProduct(10, down, down * (i - 1) + J, down * i + J);
    ProductJustAbove(Pow(256, up * (i - 1)), Pow(10, down * (i - 1) + J), Pow(256, up), Pow(10, down));
  }

  lemma ProductJustAbove(q: int, t: int, x: int, z: int)
    requires 0 <= q <= t && 0 <= x && 10000 * x <= 10087 * z
    ensures 10000 * Product(x, q) <= 10087 * Product(z, t)
  {
    MulMonotone(q, t, x);
    MulMonotone(10000 * x, 10087 * z, t);
    MulAssoc(10000, x, t);
    MulAssoc(10087, z, t);
  }

  lemma ProductSlightlyAbove(q: int, t: int, x: int, z: int)
    requires 1 <= t <= q && 10000 * q <= 10087 * t
    requires 1 <= z && 10531 * z <= 10000 * x && 100000 * x <= 105313 * z
    ensures SlightlyAbove(Product(q, x), Product(t, z))
  {
    var c := t * z;
    MulMonotone(1, t, z);
    AtLeast(q, t, x, z);
    AtMost(q, t, x, z);
  }

  lemma AtLeast(q: int, t: int, x: int, z: int)
    requires 1 <= t <= q && 0 <= x && 10531 * z <= 10000 * x
    ensures 10531 * (t * z) <= 10000 * (q * x)
  {
    MulMonotone(t, q, x);
    MulMonotone(10531 * z, 10000 * x, t);
    assert t * (10531 * z) == 10531 * (t * z) && t * (10000 * x) == 10000 * (t * x);
  }

  lemma AtMost(q: int, t: int, x: int, z: int)
    requires 1 <= t && 0 <= x && 10000 * q <= 10087 * t && 100000 * x <= 105313 * z && 1 <= t * z
    ensures 10000 * (q * x) < 10623 * (t * z)
  {
    MulMonotone(10000 * q, 10087 * t, x);
    assert (10000 * q) * x == 10000 * (q * x) && (10087 * t) * x == 10087 * (t * x);
    MulMonotone(100000 * x, 105313 * z, t);
    assert t * (100000 * x) == 100000 * (t * x) && t * (105313 * z) == 105313 * (t * z);
  }

  // ----- A numeral that needs two guard digits -----

  /** Dividing 64 * p by p with one guard digit gives a quotient that is too small by two. */
  lemma OneGuardDigitMisses(p: nat, a: nat)
    requires a >= 1 && SlightlyAbove(p, Pow(10, a))
    ensures p >= 1 && !OneCorrectionSuffices(64 * p, p, 1)
  {
    TenIsPow(a);
    OneGuardDigitFails(p, a);
    var e := Estimate(64 * p, Reciprocal(p, 1), WorkingPrecision(64 * p, p, 1));
    assert e.Floor <= 62;
    MulMonotone(e.Floor, 62, p);
  }

  lemma {:induction false} LargestPowerOfTen(x: int) returns (L: nat)
    requires x >= 1
    ensures Pow(10, L) <= x < Pow(10, L + 1)
  {
    if x < 10 {
      L := 0;
      assert Pow(10, 1) == 10;
    } else {
      L := LargestPowerOfTen(x / 10);
      L := L + 1;
    }
  }

  /** From 2 * 10^L <= 256^v to the m-th powers of both sides. */
  lemma {:induction false} PowersCompare(m: nat, L: nat, v: nat)
    requires 2 * Pow(10, L) <= Pow(256, v)
    ensures m * L >= 0 && m * v >= 0
    ensures Product(Pow(2, m), Pow(10, m * L)) <= Pow(256, m * v)
  {
    if m > 0 {
      PowersCompare(m - 1, L, v);
      MulDistributes(L, m - 1, 1);
      MulDistributes(v, m - 1, 1);
      PowProduct(10, L, (m - 1) * L, m * L);
      PowProduct(256, v, (m - 1) * v, m * v);
      CompareOnce(Pow(2, m - 1), Pow(10, (m - 1) * L), Pow(256, (m - 1) * v), Pow(10, L), Pow(256, v));
      assert Pow(2, m) == 2 * Pow(2, m - 1);
    }
  }

  lemma CompareOnce(c: int, t: int, w: int, x: int, y: int)
    requires 0 <= c && 0 <= t && 0 <= x && Product(c, t) <= w && 2 * x <= y
    ensures Product(2 * c, Product(x, t)) <= Product(y, w)
  {
    MulMonotone(0, c, t);
    MulMonotone(c * t, w, y);
    MulMonotone(2 * x, y, c * t);
    assert (2 * c) * (x * t) == (2 * x) * (c * t);
  }

  /** The estimate for the largest L with 2 * 10^L <= 256^w is w. */
  lemma EstimateIs(L: nat, w: nat)
    requires w >= 1 && 2 * Pow(10, L) <= Pow(256, w) < 20 * Pow(10, L)
    ensures EstimatedBytes(L, w)
  {
    var b := w - 1;
    assert Pow(256, w) == 256 * Pow(256, b);
    assert WholePart(L, b);
    PowersCompare(10, L, w);
    KeepsMuch(L, b);
  }

  lemma KeepsMuch(L: nat, b: nat)
    requires Product(Pow(2, 10), Pow(10, 10 * L)) <= Pow(256, 10 * (b + 1))
    ensures !LosesMuch(L, b)
  {
    assert Pow(2, 10) == 1024 by { assert Pow(2, 5) == 32; PowAdd(2, 5, 5); }
    assert Pow(256, 10 * b + 10) == 256 * Pow(256, 10 * b + 9);
  }

  /** A dividend of 2k bytes at which the first division falls back */
  lemma QuotientFallsBack(k: nat, a: nat, limit: nat)
    requires 1 <= limit < k && a >= 1 && SlightlyAbove(Pow(256, k), Pow(10, a))
    ensures Fallbacks(64 * Pow(256, k), 2 * k, 1, limit) > 0
  {
    OneGuardDigitMisses(Pow(256, k), a);
  }

  lemma LowHalf(n: nat, high: nat, k: nat)
    requires k >= 1 && n == high * Pow(256, 2 * k) + 64 * Pow(256, k)
    ensures n / Pow(256, 2 * k) == high && n % Pow(256, 2 * k) == 64 * Pow(256, k)
  {
    var p, q := Pow(256, k), Pow(256, 2 * k);
    PowAdd(256, k, k);
    SixtyFourIsSmall(k);
    MulMonotone(64, p - 1, p);
    DivModUnique(n, q, high, 64 * p);
  }

  /** A number of 4k bytes whose low half is 64 * 256^k: the first division leaves that remainder, and the
      division of the remainder falls back. */
  lemma LowHalfFallsBack(n: nat, high: nat, k: nat, a: nat, limit: nat)
    requires 1 <= limit < k && a >= 1 && SlightlyAbove(Pow(256, k), Pow(10, a))
    requires n == high * Pow(256, 2 * k) + 64 * Pow(256, k)
    ensures Fallbacks(n, 4 * k, 1, limit) > 0
  {
    LowHalf(n, high, k);
    QuotientFallsBack(k, a, limit);
    LowPartCounts(n, 4 * k, 2 * k, 64 * Pow(256, k), 1, limit);
  }

  lemma LowPartCounts(n: nat, w: nat, w2: nat, low: nat, guard: nat, limit: nat)
    requires w > limit >= 1 && w2 == w - w / 2 && low == n % Pow(256, w2)
    ensures Fallbacks(n, w, guard, limit) >= Fallbacks(low, w2, guard, limit)
  {
    SplitDecimal(n, Pow(256, w2));
  }

  lemma SixtyFourIsSmall(k: nat)
    requires k >= 1
    ensures Pow(256, k) >= 256
  {
    PowMonotone(256, 1, k);
    assert Pow(256, 1) == 256;
  }

  /** n fills L digits, and its low part below q is the one given. */
  lemma WithLowPart(t: int, q: int, low: nat) returns (n: nat, high: nat)
    requires 256 <= q && q * q < 20 * t && low < q
    ensures n == high * q + low && t - 2 * q <= n < t && 10 * n >= t
  {
    MulMonotone(256, q, q);
    DivModSpec(t, q);
    if t / q < 1 {
      MulMonotone(t / q, 0, q);
    }
    high := t / q - 1;
    MulDistributes(q, t / q, -1);
    MulMonotone(0, high, q);
    n := high * q + low;
  }

  lemma PositiveLength(L: nat, w: nat)
    requires 256 <= Pow(256, w) < 20 * Pow(10, L)
    ensures L >= 1
  {
    assert Pow(10, 0) == 1;
  }

  lemma NumeralOfLength(n: nat, L: nat)
    requires L >= 1 && Pow(10, L) <= 10 * n && n < Pow(10, L)
    ensures AllDigits(Str(n)) && DecValue(Str(n)) == n && |Str(n)| == L
  {
    StrIsNumeral(n);
    StrLength(n, L);
    if L > 1 {
      assert Pow(10, L) == 10 * Pow(10, L - 1);
      StrLength(n, L - 1);
    }
  }

  /** For every cut-off there is a numeral, with the number of bytes that is set aside for its digits, that makes
      the conversion fall back if there is one guard digit only. */
  lemma OneGuardDigitFallsBack(limit: nat) returns (s: string, w: nat)
    requires limit >= 1
    ensures AllDigits(s) && EstimatedBytes(|s|, w) && w <= 4500 * (limit + 50)
    ensures DecValue(s) >= 0 && Fallbacks(DecValue(s), w, 1, limit) > 0
  {
    var k, a := PowerSlightlyAbove(limit);
    w := 4 * k;
    PowAdd(256, k, k);
    PowAdd(256, 2 * k, 2 * k);
    SixtyFourIsSmall(k);
    SixtyFourIsSmall(2 * k);
    SixtyFourIsSmall(w);
    MulMonotone(64, Pow(256, k) - 1, Pow(256, k));
    var L := LargestPowerOfTen(Pow(256, w) / 2);
    assert Pow(10, L + 1) == 10 * Pow(10, L);
    EstimateIs(L, w);
    var n, high := WithLowPart(Pow(10, L), Pow(256, 2 * k), 64 * Pow(256, k));
    LowHalfFallsBack(n, high, k, a, limit);
    PositiveLength(L, w);
    NumeralOfLength(n, L);
    s := Str(n);
  }

  /** No numeral falls back, whatever its length and with the bytes that are set aside for it. */
  ghost predicate NeverFallsBack(guard: nat, limit: nat)
    requires limit >= 1
  {
    forall s: string, w: nat {:trigger ConvertsDirectly(s, w, guard, limit)} ::
      AllDigits(s) && EstimatedBytes(|s|, w) ==> ConvertsDirectly(s, w, guard, limit)
  }

  ghost predicate ConvertsDirectly(s: string, w: nat, guard: nat, limit: nat)
    requires limit >= 1
  {
    DecValue(s) >= 0 && Fallbacks(DecValue(s), w, guard, limit) == 0
  }

  /** `Lib/_pylong.py:325-328`: at every cut-off the fallback cannot be reached exactly when there are at least two
      guard digits. */
  lemma FallbackUnreachable(guard: nat, limit: nat)
    requires guard >= 1 && limit >= 1
    ensures NeverFallsBack(guard, limit) <==> guard >= 2
  {
    if guard >= 2 {
      forall s: string, w: nat | AllDigits(s) && EstimatedBytes(|s|, w)
        ensures ConvertsDirectly(s, w, guard, limit)
      {
        EstimateSuffices(s, w);
        NoFallbacks(DecValue(s), w, guard, limit);
      }
    } else {
      var s, w := OneGuardDigitFallsBack(limit);
      assert !ConvertsDirectly(s, w, guard, limit);
    }
  }

  /** At the cut-off of the source such a numeral is not too long to be converted. */
  lemma FallbackAtTheCutOff() returns (s: string, w: nat)
    ensures AllDigits(s) && EstimatedBytes(|s|, w) && BitLength(w) < 46
    ensures DecValue(s) >= 0 && Fallbacks(DecValue(s), w, 1, 100000) > 0
  {
    s, w := OneGuardDigitFallsBack(100000);
    FewBits(w);
  }

  lemma FewBits(w: nat)
    requires w <= 500000000
    ensures BitLength(w) < 46
  {
    assert Pow(2, 15) == 32768;
    PowAdd(2, 15, 15);
    BitLengthBound(w, 30);
  }
}
