/** The part of the `decimal` context that `_dec_str_to_int_inner` uses: exact operations whose result is
    chopped to the working precision (ROUND_DOWN), on nonnegative numbers. */
module ChoppedDecimals {

  // ----- Products of reals -----

  function Times(x: real, y: real): real {
    x * y
  }

  lemma TimesMono(x: real, y: real, z: real)
    requires x <= y && 0.0 <= z
    ensures Times(x, z) <= Times(y, z) && Times(z, x) <= Times(z, y)
  {
  }

  lemma TimesStrict(x: real, y: real, z: real)
    requires x < y && 0.0 < z
    ensures Times(x, z) < Times(y, z)
  {
    assert (y - x) * z > 0.0;
  }

  lemma TimesLaws(x: real, y: real, z: real)
    ensures Times(Times(x, y), z) == Times(x, Times(y, z))
    ensures Times(x, y) == Times(y, x)
    ensures Times(x - y, z) == Times(x, z) - Times(y, z)
    ensures Times(x, y - z) == Times(x, y) - Times(x, z)
    ensures Times(1.0, x) == x == Times(x, 1.0) && Times(0.0, x) == 0.0
  {
    assert (x * y) * z == x * (y * z);
  }

  lemma TimesScale(c: real, x: real, y: real)
    ensures Times(c * x, y) == c * Times(x, y)
  {
    assert (c * x) * y == c * (x * y);
  }

  lemma QuotientTimes(x: real, y: real)
    requires y > 0.0
    ensures Times(x / y, y) == x && (x >= 0.0 ==> x / y >= 0.0)
  {
  }

  // ----- Powers of ten -----

  /** 10^e for any integer e */
  function Ten(e: int): (r: real)
    ensures r > 0.0
    decreases if e < 0 then -e else e
  {
    if e == 0 then 1.0 else if e > 0 then 10.0 * Ten(e - 1) else Ten(e + 1) / 10.0
  }

  lemma TenNext(e: int)
    ensures Ten(e + 1) == 10.0 * Ten(e)
  {
  }

  lemma {:induction false} TenAdd(i: int, j: int)
    ensures Ten(i + j) == Times(Ten(i), Ten(j))
    decreases if i < 0 then -i else i
  {
    if i > 0 {
      TenAdd(i - 1, j);
      TenNext(i - 1 + j);
      TimesScale(10.0, Ten(i - 1), Ten(j));
    } else if i < 0 {
      TenAdd(i + 1, j);
      TenNext(i + j);
      TenNext(i);
      TimesScale(10.0, Ten(i), Ten(j));
    } else {
      TimesLaws(Ten(j), 0.0, 0.0);
    }
  }

  lemma {:induction false} TenMonotone(i: int, j: int)
    requires i <= j
    ensures Ten(i) <= Ten(j)
    decreases j - i
  {
    if i < j {
      TenMonotone(i, j - 1);
      TenNext(j - 1);
    }
  }

  // ----- Orders of magnitude -----

  /** `x.adjusted()`: the exponent of the most significant digit; 0 for the integer 0. */
  function Adjusted(x: real): int
    requires x >= 0.0
    decreases x < 1.0, if x == 0.0 then 0 else if x < 1.0 then (1.0 / x).Floor else x.Floor
  {
    if x == 0.0 then 0
    else if x < 1.0 then ScaleUpEnds(x); Adjusted(10.0 * x) - 1
    else if x < 10.0 then 0
    else 1 + Adjusted(x / 10.0)
  }

  lemma ScaleUpEnds(x: real)
    requires 0.0 < x < 1.0
    ensures 10.0 * x < 1.0 ==> 0 <= (1.0 / (10.0 * x)).Floor < (1.0 / x).Floor
  {
    var y := 1.0 / x;
    assert 1.0 / (10.0 * x) == y / 10.0;
    if 10.0 * x < 1.0 {
      assert y > 10.0;
    }
  }

  lemma {:induction false} AdjustedBounds(x: real)
    requires x > 0.0
    ensures Ten(Adjusted(x)) <= x < Ten(Adjusted(x) + 1)
    decreases x < 1.0, if x < 1.0 then (1.0 / x).Floor else x.Floor
  {
    if x < 1.0 {
      ScaleUpEnds(x);
      AdjustedBounds(10.0 * x);
      TenNext(Adjusted(x));
      TenNext(Adjusted(x) + 1);
    } else if x >= 10.0 {
      AdjustedBounds(x / 10.0);
      TenNext(Adjusted(x) - 1);
      TenNext(Adjusted(x));
    }
  }

  /** A number below a power of ten has a smaller exponent. */
  lemma AdjustedBelow(x: real, e: int)
    requires 0.0 < x < Ten(e)
    ensures Adjusted(x) < e
  {
    AdjustedBounds(x);
    if Adjusted(x) >= e {
      TenMonotone(e, Adjusted(x));
    }
  }

  // ----- Chopping -----

  /** The multiple of unit at or below x */
  function FloorTo(x: real, unit: real): real
    requires unit > 0.0
  {
    Times((x / unit).Floor as real, unit)
  }

  lemma FloorToBounds(x: real, unit: real)
    requires x >= 0.0 && unit > 0.0
    ensures 0.0 <= FloorTo(x, unit) <= x
    ensures x - unit <= FloorTo(x, unit)
  {
    var f := (x / unit).Floor as real;
    QuotientTimes(x, unit);
    TimesMono(f, x / unit, unit);
    TimesMono(0.0, f, unit);
    TimesMono(x / unit - 1.0, f, unit);
    TimesLaws(x / unit, 1.0, unit);
    TimesLaws(unit, 0.0, 0.0);
  }

  /** x rounded down to prec significant digits */
  function Chop(x: real, prec: int): (r: real)
    requires x >= 0.0
    ensures 0.0 <= r <= x
  {
    if x == 0.0 then 0.0
    else
      var unit := Ten(Adjusted(x) - prec + 1);
      FloorToBounds(x, unit);
      FloorTo(x, unit)
  }

  /** A number below 10^(a + 1) loses at most one unit of its last kept digit. */
  lemma ChopError(x: real, prec: int, a: int)
    requires 0.0 <= x < Ten(a + 1)
    ensures x - Ten(a - prec + 1) <= Chop(x, prec)
  {
    if x > 0.0 {
      AdjustedBelow(x, a + 1);
      FloorToBounds(x, Ten(Adjusted(x) - prec + 1));
      TenMonotone(Adjusted(x) - prec + 1, a - prec + 1);
    }
  }

  /** Reading off a chopped value: d units of the last kept digit. */
  lemma ChopIs(x: real, prec: int, a: int, d: int)
    requires 0.0 < x && Ten(a) <= x < Ten(a + 1)
    requires Times(d as real, Ten(a - prec + 1)) <= x < Times((d + 1) as real, Ten(a - prec + 1))
    ensures Chop(x, prec) == Times(d as real, Ten(a - prec + 1))
  {
    AdjustedBelow(x, a + 1);
    AdjustedBounds(x);
    if Adjusted(x) < a {
      TenMonotone(Adjusted(x) + 1, a);
    }
    FloorIs(x, Ten(a - prec + 1), d);
  }

  lemma FloorIs(x: real, unit: real, d: int)
    requires unit > 0.0 && Times(d as real, unit) <= x < Times((d + 1) as real, unit)
    ensures (x / unit).Floor == d
  {
    var q := x / unit;
    QuotientTimes(x, unit);
    if q < d as real {
      TimesStrict(q, d as real, unit);
    } else if q >= (d + 1) as real {
      TimesMono((d + 1) as real, q, unit);
    }
  }

  /** The context's precision: MAX_PREC, at which no operation of the algorithm is inexact, or so many digits. */
  datatype Precision = MaxPrec | Working(n: int)

  function Rounded(x: real, prec: Precision): real
    requires x >= 0.0
  {
    match prec
    case MaxPrec => x
    case Working(n) => Chop(x, n)
  }
}
