/** Division by a truncated reciprocal, and the conversion `_dec_str_to_int_inner` that rests on it. */
module ReciprocalDivision {
  import opened Arithmetic
  import opened ChoppedDecimals

  function Max(x: int, y: int): int {
    if x < y then y else x
  }

  /** `Lib/_pylong.py:308`: the number of digits the integer part can have, plus the guard digits. */
  function WorkingPrecision(n: nat, p: nat, guard: nat): int {
    Max(Adjusted(n as real) - Adjusted(p as real), 0) + guard
  }

  /** `Lib/_pylong.py:381`: the precision of the stored reciprocal of p. */
  function SetupPrecision(p: nat, guard: nat): int
    requires p >= 1
  {
    Adjusted(p as real) + guard + 1
  }

  lemma AdjustedOfInteger(n: nat)
    ensures Adjusted(n as real) >= 0
  {
    if n >= 1 {
      AdjustedBounds(n as real);
      if Adjusted(n as real) < 0 {
        TenMonotone(Adjusted(n as real) + 1, 0);
      }
    }
  }

  function Inverse(p: nat): (r: real)
    requires p >= 1
    ensures r > 0.0
  {
    1.0 / p as real
  }

  /** The true quotient */
  function Ratio(n: nat, p: nat): (r: real)
    requires p >= 1
    ensures r >= 0.0
  {
    n as real / p as real
  }

  /** The reciprocal of p, truncated when the table is set up */
  function Reciprocal(p: nat, guard: nat): (r: real)
    requires p >= 1
    ensures 0.0 <= r <= Inverse(p)
  {
    Chop(Inverse(p), SetupPrecision(p, guard))
  }

  /** `Lib/_pylong.py:308-309`: the chopped product of the chopped operands. */
  function Estimate(n: nat, recip: real, prec: int): real
    requires recip >= 0.0
  {
    var x, y := Chop(n as real, prec), Chop(recip, prec);
    TimesMono(0.0, x, y);
    TimesLaws(y, 0.0, 0.0);
    Chop(Times(x, y), prec)
  }

  // ----- The estimate is a lower bound, for any precision -----

  lemma {:induction false} EstimateIsLow(n: nat, p: nat, recip: real, prec: int)
    requires p >= 1 && 0.0 <= recip <= Inverse(p)
    ensures 0.0 <= Estimate(n, recip, prec) <= Ratio(n, p)
  {
    var x, y := Chop(n as real, prec), Chop(recip, prec);
    TimesMono(0.0, x, y);
    TimesLaws(y, 0.0, 0.0);
    TimesMono(x, n as real, y);
    TimesMono(y, Inverse(p), n as real);
    TimesInverse(n, p);
  }

  lemma TimesInverse(n: nat, p: nat)
    requires p >= 1
    ensures Times(n as real, Inverse(p)) == Ratio(n, p)
  {
  }

  // ----- With enough guard digits the estimate is within one -----

  /** No power of 256 but the first is a power of ten, so its reciprocal is below 10^-adjusted. */
  ghost predicate NotPowerOfTen(p: nat) {
    p >= 1 && Ten(Adjusted(p as real)) < p as real
  }

  lemma InverseMagnitude(p: nat)
    requires NotPowerOfTen(p)
    ensures Inverse(p) < Ten(-Adjusted(p as real))
  {
    var a := Adjusted(p as real);
    TenAdd(a, -a);
    TimesMono(Ten(a), p as real, Ten(-a));
    QuotientBelowReal(1.0, p as real, Ten(-a));
  }

  lemma QuotientBelowReal(x: real, y: real, z: real)
    requires y > 0.0 && x < Times(y, z)
    ensures x / y < z
  {
    QuotientTimes(x, y);
    TimesLaws(y, z, 0.0);
    if x / y >= z {
      TimesMono(z, x / y, y);
    }
  }

  lemma RatioMagnitude(n: nat, p: nat)
    requires p >= 1
    ensures Ratio(n, p) < Ten(Adjusted(n as real) - Adjusted(p as real) + 1)
  {
    var a, b := Adjusted(n as real), Adjusted(p as real);
    var z := Ten(a - b + 1);
    MagnitudeOf(n);
    AdjustedBounds(p as real);
    TenAdd(b, a - b + 1);
    assert b + (a - b + 1) == a + 1;
    TimesMono(Ten(b), p as real, z);
    QuotientBelowReal(n as real, p as real, z);
  }

  lemma MagnitudeOf(n: nat)
    ensures n as real < Ten(Adjusted(n as real) + 1)
  {
    if n >= 1 {
      AdjustedBounds(n as real);
    }
  }

  /** The reciprocal as used has been chopped twice, the second time to the working precision. */
  lemma {:induction false} ReciprocalError(p: nat, guard: nat, prec: int)
    requires NotPowerOfTen(p) && prec <= SetupPrecision(p, guard)
    ensures Chop(Reciprocal(p, guard), prec) >= Inverse(p) - 2.0 * Ten(-Adjusted(p as real) - prec)
  {
    var a, setup := Adjusted(p as real), SetupPrecision(p, guard);
    InverseMagnitude(p);
    ChopError(Inverse(p), setup, -a - 1);
    ChopError(Reciprocal(p, guard), prec, -a - 1);
    TenMonotone(-a - setup, -a - prec);
  }

  /** The product of a dividend chopped by at most u and a reciprocal chopped by at most v. */
  lemma ProductError(x: real, i: real, a: real, b: real, u: real, v: real)
    requires 0.0 <= a <= x && 0.0 <= b <= i && 0.0 <= u && 0.0 <= v
    requires a >= x - u && b >= i - v
    ensures Times(a, b) >= Times(x, i) - Times(x, v) - Times(u, i)
  {
    TimesMono(x - u, a, b);
    TimesLaws(x, u, b);
    TimesMono(i - v, b, x);
    TimesLaws(x, i, v);
    TimesMono(b, i, u);
  }

  /** Three chops, before the product is chopped as well. */
  lemma ThreeChops(n: nat, p: nat, guard: nat, prec: int)
    requires NotPowerOfTen(p) && prec <= SetupPrecision(p, guard)
    ensures var x, y := Chop(n as real, prec), Chop(Reciprocal(p, guard), prec);
      var d := Ten(Adjusted(n as real) - Adjusted(p as real) + 1 - prec);
      Ratio(n, p) - 3.0 * d <= Times(x, y) <= Ratio(n, p)
  {
    var na, pa := Adjusted(n as real), Adjusted(p as real);
    var x, i := n as real, Inverse(p);
    var a, b := Chop(x, prec), Chop(Reciprocal(p, guard), prec);
    MagnitudeOf(n);
    ChopError(x, prec, na);
    ReciprocalError(p, guard, prec);
    InverseMagnitude(p);
    ProductError(x, i, a, b, Ten(na - prec + 1), 2.0 * Ten(-pa - prec));
    UnitsOfProduct(x, i, na, pa, prec);
    TimesInverse(n, p);
    TimesMono(a, x, b);
    TimesMono(b, i, x);
  }

  /** The four chops together cost at most four units of size 10^(n.a - p.a + 1 - prec). */
  lemma {:induction false} FourChops(n: nat, p: nat, guard: nat, prec: int)
    requires NotPowerOfTen(p) && prec <= SetupPrecision(p, guard)
    ensures Estimate(n, Reciprocal(p, guard), prec) >=
      Ratio(n, p) - 4.0 * Ten(Adjusted(n as real) - Adjusted(p as real) + 1 - prec)
  {
    var a, b := Chop(n as real, prec), Chop(Reciprocal(p, guard), prec);
    ThreeChops(n, p, guard, prec);
    TimesMono(0.0, a, b);
    TimesLaws(b, 0.0, 0.0);
    RatioMagnitude(n, p);
    ChopError(Times(a, b), prec, Adjusted(n as real) - Adjusted(p as real));
  }

  lemma UnitsOfProduct(x: real, i: real, na: int, pa: int, prec: int)
    requires 0.0 <= x < Ten(na + 1) && 0.0 <= i < Ten(-pa)
    ensures Times(x, 2.0 * Ten(-pa - prec)) <= 2.0 * Ten(na - pa + 1 - prec)
    ensures Times(Ten(na - prec + 1), i) <= Ten(na - pa + 1 - prec)
  {
    var u, v := Ten(na - prec + 1), Ten(-pa - prec);
    TenAdd(na + 1, -pa - prec);
    assert na + 1 + (-pa - prec) == na - pa + 1 - prec;
    TimesMono(x, Ten(na + 1), v);
    TimesScale(2.0, v, x);
    TimesLaws(x, 2.0 * v, 0.0);
    TimesLaws(x, v, 0.0);
    TenAdd(na - prec + 1, -pa);
    assert na - prec + 1 + -pa == na - pa + 1 - prec;
    TimesMono(i, Ten(-pa), u);
  }

  /** The precision of the stored reciprocal always suffices: splitting w bytes at w2 = ceil(w / 2), p = 256^w2
      is at least the square root of the bound on n. */
  lemma SetupSuffices(n: nat, p: nat, guard: nat)
    requires p >= 1 && n < p * p
    ensures WorkingPrecision(n, p, guard) <= SetupPrecision(p, guard)
  {
    AdjustedOfInteger(p);
    if n >= 1 {
      var a := Adjusted(p as real);
      AdjustedBounds(p as real);
      TimesMono(p as real, Ten(a + 1), p as real);
      TimesMono(p as real, Ten(a + 1), Ten(a + 1));
      TenAdd(a + 1, a + 1);
      assert (p * p) as real == Times(p as real, p as real);
      AdjustedBelow(n as real, a + 1 + (a + 1));
    }
  }

  /** Two guard digits are enough: for every n below p^2 the chopped quotient is less than one half too small.
      The source's comments hope for this from three guard digits on. */
  lemma {:induction false} EstimateWithinHalf(n: nat, p: nat, guard: nat)
    requires NotPowerOfTen(p) && n < p * p && guard >= 2
    ensures Ratio(n, p) - 0.4 <= Estimate(n, Reciprocal(p, guard), WorkingPrecision(n, p, guard))
  {
    var prec := WorkingPrecision(n, p, guard);
    SetupSuffices(n, p, guard);
    FourChops(n, p, guard, prec);
    TenMonotone(Adjusted(n as real) - Adjusted(p as real) + 1 - prec, -1);
    assert Ten(-1) == 0.1;
  }

  /** One guard digit is not enough: when p is 1.0531 to 1.0623 times a power of ten, the quotient of 64 * p is
      estimated below 63, so that one correction does not suffice. */
  lemma {:induction false} OneGuardDigitFails(p: nat, a: int)
    requires a >= 1 && 1.0531 * Ten(a) <= p as real < 1.0623 * Ten(a)
    ensures p >= 1 && Estimate(64 * p, Reciprocal(p, 1), WorkingPrecision(64 * p, p, 1)) < 63.0
  {
    TenNext(a);
    TenNext(a + 1);
    AdjustedIs(p as real, a);
    AdjustedIs((64 * p) as real, a + 1);
    assert WorkingPrecision(64 * p, p, 1) == 2;
    ChoppedDividend(64 * p, a);
    ChoppedInverse(p, a);
    ProductOfChopped(a);
  }

  lemma ChoppedDividend(n: nat, a: int)
    requires 67.0 * Ten(a) <= n as real < 68.0 * Ten(a)
    ensures Chop(n as real, 2) == 67.0 * Ten(a)
  {
    TenNext(a);
    TenNext(a + 1);
    ChopIs(n as real, 2, a + 1, 67);
  }

  lemma ChoppedInverse(p: nat, a: int)
    requires p >= 1 && a >= 1 && 1.0531 * Ten(a) <= p as real < 1.0623 * Ten(a) && Adjusted(p as real) == a
    ensures Chop(Reciprocal(p, 1), 2) == 94.0 * Ten(-a - 2)
  {
    var r := Reciprocal(p, 1);
    InverseBetween(p, a);
    TenNext(-a - 2);
    TenNext(-a - 1);
    ChopError(Inverse(p), a + 2, -a - 1);
    TenMonotone(-a - 1 - (a + 2) + 1, -a - 3);
    TenNext(-a - 3);
    ChopIs(r, 2, -a - 1, 94);
  }

  lemma InverseBetween(p: nat, a: int)
    requires p >= 1 && 1.0531 * Ten(a) <= p as real < 1.0623 * Ten(a)
    ensures 94.13 * Ten(-a - 2) <= Inverse(p) < 95.0 * Ten(-a - 2)
  {
    var t, i, u := Ten(a), Inverse(p), Ten(-a - 2);
    TenAdd(a, -a - 2);
    assert Ten(-2) == 0.01;
    assert Times(t, u) == 0.01;
    QuotientTimes(1.0, p as real);
    TimesLaws(i, p as real, 0.0);
    if i >= 95.0 * u {
      TimesMono(95.0 * u, i, p as real);
      TimesMono(1.0531 * t, p as real, 95.0 * u);
      TimesLaws(95.0 * u, p as real, 0.0);
      ScaledProduct(1.0531, t, 95.0, u);
    }
    if i < 94.13 * u {
      TimesStrict(i, 94.13 * u, p as real);
      TimesMono(p as real, 1.0623 * t, 94.13 * u);
      TimesLaws(94.13 * u, p as real, 0.0);
      ScaledProduct(1.0623, t, 94.13, u);
    }
  }

  lemma ScaledProduct(c: real, x: real, d: real, y: real)
    ensures Times(c * x, d * y) == c * d * Times(x, y)
  {
    TimesScale(c, x, d * y);
    TimesLaws(x, d * y, 0.0);
    TimesScale(d, y, x);
    TimesLaws(y, x, 0.0);
  }

  lemma ProductOfChopped(a: int)
    ensures Times(67.0 * Ten(a), 94.0 * Ten(-a - 2)) == 62.98
  {
    TenAdd(a, -a - 2);
    assert Ten(-2) == 0.01;
    ScaledProduct(67.0, Ten(a), 94.0, Ten(-a - 2));
  }

  lemma AdjustedIs(x: real, a: int)
    requires 0.0 < x && Ten(a) <= x < Ten(a + 1)
    ensures Adjusted(x) == a
  {
    AdjustedBelow(x, a + 1);
    AdjustedBounds(x);
    if Adjusted(x) < a {
      TenMonotone(Adjusted(x) + 1, a);
    }
  }
}

/** `_dec_str_to_int_inner`: decimal digits to bytes, by divisions through reciprocals. */
module DecStrToInt {
  import opened Arithmetic
  import opened Powers
  import opened Numbers
  import opened ChoppedDecimals
  import opened ReciprocalDivision
  import opened DecimalStrings

  // ----- Bytes -----

  /** `n.to_bytes(w)`: w bytes, most significant first */
  function BigEndian(n: nat, w: nat): seq<nat> {
    if w == 0 then [] else BigEndian(n / 256, w - 1) + [n % 256]
  }

  /** `int.from_bytes(bytes)` */
  function FromBytes(bytes: seq<nat>): nat {
    if bytes == [] then 0 else 256 * FromBytes(bytes[..|bytes| - 1]) + bytes[|bytes| - 1]
  }

  lemma {:induction false} BytesRoundTrip(n: nat, w: nat)
    requires n < Pow(256, w)
    ensures FromBytes(BigEndian(n, w)) == n && |BigEndian(n, w)| == w
  {
    if w > 0 {
      BytesRoundTrip(n / 256, w - 1);
      assert BigEndian(n, w)[..|BigEndian(n, w)| - 1] == BigEndian(n / 256, w - 1);
    }
  }

  /** The bytes of the quotient and of the remainder by 256^j, one after the other, are the bytes of n. */
  lemma {:induction false} BytesSplit(n: nat, i: nat, j: nat)
    ensures n / Pow(256, j) >= 0 && n % Pow(256, j) >= 0
    ensures BigEndian(n, i + j) == BigEndian(n / Pow(256, j), i) + BigEndian(n % Pow(256, j), j)
    decreases j
  {
    SplitDecimal(n, Pow(256, j));
    if j > 0 {
      var p := Pow(256, j - 1);
      SplitDecimal(n, p);
      BytesSplit(n / 256, i, j - 1);
      DivDiv(n, 256, p);
      LastByteOfRemainder(n, p);
      assert BigEndian(n, i + j) == BigEndian(n / 256, i + (j - 1)) + [n % 256];
    } else {
      assert BigEndian(n % 1, 0) == [];
    }
  }

  lemma LastByteOfRemainder(n: nat, p: int)
    requires p > 0
    ensures (n % (256 * p)) / 256 == (n / 256) % p && (n % (256 * p)) % 256 == n % 256
  {
    var q, r := n / 256, n % 256;
    DivModSpec(q, p);
    DivDiv(n, 256, p);
    DivModSpec(n, 256 * p);
    MulDistributes(256, p * (q / p), q % p);
    MulAssoc(256, p, q / p);
    assert n % (256 * p) == 256 * (q % p) + r;
  }

  // ----- Powers of 256 and their reciprocals -----

  lemma {:induction false} TenIsPow(a: nat)
    ensures Ten(a) == Pow(10, a) as real
  {
    if a > 0 {
      TenIsPow(a - 1);
    }
  }

  lemma {:induction false} PowersModFive(a: nat)
    ensures Pow(256, a) % 5 == 1 && (a > 0 ==> Pow(10, a) % 5 == 0)
  {
    if a > 0 {
      PowersModFive(a - 1);
    }
  }

  lemma NoPowerOf256IsDecimal(k: nat)
    requires k >= 1
    ensures NotPowerOfTen(Pow(256, k))
  {
    var p := Pow(256, k);
    var a := Adjusted(p as real);
    AdjustedBounds(p as real);
    AdjustedOfInteger(p);
    TenIsPow(a);
    PowersModFive(k);
    PowersModFive(a);
    PowMonotone(256, 1, k);
    assert Pow(256, 1) == 256;
  }

  lemma {:induction false} InversePower(k: nat)
    ensures Power(REALS, 1.0 / 256.0, k) == Inverse(Pow(256, k))
  {
    if k > 0 {
      InversePower(k - 1);
      assert Pow(256, k) as real == 256.0 * Pow(256, k - 1) as real;
    }
  }

  // ----- The conversion -----

  datatype Entry = Entry(p256: nat, recip: real)

  datatype Outcome = Ok(value: int) | OverflowError | ValueError

  /** The state shared by the calls of `inner`: the output, the context's precision, the table of powers and
      their reciprocals, and the count of quotient guesses by the correction they needed. */
  class Converter {
    const guard: nat
    const limit: nat
    const pow256: map<nat, Entry>
    var result: seq<nat>
    var prec: Precision
    var spread: map<int, nat>

    ghost predicate Valid()
      reads this`prec
    {
      && guard >= 1 && limit >= 1 && prec == MaxPrec
      && TableOk(pow256, guard)
    }

    constructor (guard: nat, limit: nat, pow256: map<nat, Entry>)
      requires guard >= 1 && limit >= 1
      requires TableOk(pow256, guard)
      ensures Valid() && result == [] && spread == map[]
      ensures this.guard == guard && this.limit == limit && this.pow256 == pow256
    {
      this.guard, this.limit, this.pow256 := guard, limit, pow256;
      result, prec, spread := [], MaxPrec, map[];
    }

    function Count(key: int): nat
      reads this`spread
    {
      if key in spread then spread[key] else 0
    }

    /** The quotient and remainder of n by 256^w2, `Lib/_pylong.py:303-332`.  The fallback (key 999) is counted
        exactly when one correction does not suffice. */
    method Divide(n: nat, w2: nat) returns (hi: nat, lo: nat)
      requires Valid() && w2 in pow256 && w2 >= 1
      modifies this`prec, this`spread
      ensures Valid()
      ensures hi == n / Pow(256, w2) && lo == n % Pow(256, w2)
      ensures Count(999) == old(Count(999)) + (if OneCorrectionSuffices(n, Pow(256, w2), guard) then 0 else 1)
    {
      assert EntryOk(w2, pow256[w2], guard);
      NoPowerOf256IsDecimal(w2);
      var p256, recip := pow256[w2].p256, pow256[w2].recip;
      prec := Working(WorkingPrecision(n, p256, guard));
      var h := RoundedProduct(n, recip);
      prec := MaxPrec;
      EstimateIsLow(n, p256, recip, WorkingPrecision(n, p256, guard));
      FloorBelowRatio(n, p256, h);
      var count;
      hi, lo, count := FixUp(n, p256, h.Floor);
      spread := spread[count := Count(count) + 1];
    }

    /** `Lib/_pylong.py:309`, `+n * +recip`, each operand and the product rounded in the current context. */
    method RoundedProduct(n: nat, recip: real) returns (r: real)
      requires recip >= 0.0 && prec.Working?
      ensures r == Estimate(n, recip, prec.n)
    {
      var a, b := Rounded(n as real, prec), Rounded(recip, prec);
      TimesMono(0.0, a, b);
      TimesLaws(b, 0.0, 0.0);
      r := Rounded(Times(a, b), prec);
    }

    /** `inner`, `Lib/_pylong.py:283-338`: appends exactly w bytes, the big-endian digits of n, or fails with
        OverflowError. */
    method Inner(n: nat, w: nat) returns (ok: bool)
      requires Valid() && Lookups(w, limit, true) <= pow256.Keys
      modifies this`result, this`prec, this`spread
      ensures ok <==> n < Pow(256, w)
      ensures ok ==> result == old(result) + BigEndian(n, w)
      ensures ok ==> Valid()
      ensures ok ==> Count(999) == old(Count(999)) + Fallbacks(n, w, guard, limit)
      decreases w
    {
      if w <= limit {
        if n >= Pow(256, w) {
          return false;
        }
        result := result + BigEndian(n, w);
        return true;
      }
      var w1 := w / 2;
      var w2 := w - w1;
      LookupsOfHalves(w, limit, true);
      SplitBytes(n, w);
      var hi, lo := Divide(n, w2);
      ok := Inner(hi, w1);
      if ok {
        ok := Inner(lo, w2);
        BytesAppended(old(result), n, w);
      }
    }
  }

  lemma BytesAppended(before: seq<nat>, n: nat, w: nat)
    ensures var w1, w2 := w / 2, w - w / 2;
      && n / Pow(256, w2) >= 0 && n % Pow(256, w2) >= 0
      && before + BigEndian(n, w) == before + BigEndian(n / Pow(256, w2), w1) + BigEndian(n % Pow(256, w2), w2)
  {
    BytesSplit(n, w / 2, w - w / 2);
  }

  /** `Lib/_pylong.py:312-332`: from a quotient that is not too large to the true one, and what is
      counted. */
  method FixUp(n: nat, p256: nat, guess: nat) returns (hi: nat, lo: nat, count: nat)
    requires p256 >= 1 && guess * p256 <= n
    ensures hi == n / p256 && lo == n % p256
    ensures count == 999 <==> n - guess * p256 >= 2 * p256
  {
    ghost var excess := n - guess * p256;
    hi, lo, count := guess, n - guess * p256, 0;
    if lo >= p256 {
      count, lo, hi := 1, lo - p256, hi + 1;
      if lo >= p256 {
        count := 999;
        SplitDecimal(lo, p256);
        CorrectedTwice(excess, p256);
        hi, lo := hi + lo / p256, lo % p256;
      }
    }
    Corrected(n, p256, guess, hi - guess, lo);
  }

  lemma Corrected(n: nat, p: nat, guess: nat, extra: int, r: nat)
    requires p >= 1 && n - guess * p == p * extra + r && r < p
    ensures guess + extra == n / p && r == n % p
  {
    MulDistributes(p, guess, extra);
    DivModUnique(n, p, guess + extra, r);
  }

  lemma CorrectedTwice(excess: int, p: nat)
    requires p >= 1 && excess >= 2 * p
    ensures excess == p * (1 + (excess - p) / p) + (excess - p) % p
  {
    DivModSpec(excess - p, p);
    MulDistributes(p, 1, (excess - p) / p);
  }

  ghost predicate TableOk(table: map<nat, Entry>, guard: nat) {
    forall k :: k in table ==> EntryOk(k, table[k], guard)
  }

  ghost predicate EntryOk(k: nat, e: Entry, guard: nat) {
    e.p256 == Pow(256, k) && e.recip == Reciprocal(Pow(256, k), guard)
  }

  /** Splitting w bytes at w2 = ceil(w / 2): the remainder fits, and the quotient fits exactly when n does. */
  lemma SplitBytes(n: nat, w: nat)
    ensures var p := Pow(256, w - w / 2);
      && n % p < p && (n < Pow(256, w) <==> n / p < Pow(256, w / 2))
      && (n < Pow(256, w) ==> n < p * p)
  {
    var w1 := w / 2;
    var w2 := w - w1;
    var p, t := Pow(256, w2), Pow(256, w1);
    PowAdd(256, w2, w1);
    DivModSpec(n, p);
    if n < p * t {
      QuotientBelow(n, p, t);
      PowMonotone(256, w1, w2);
      MulMonotone(t, p, p);
    } else if n / p < t {
      MulMonotone(n / p, t - 1, p);
      MulDistributes(p, t, -1);
    }
  }

  lemma FloorBelowRatio(n: nat, p: nat, h: real)
    requires p >= 1 && 0.0 <= h <= Ratio(n, p)
    ensures 0 <= h.Floor && h.Floor * p <= n
  {
    QuotientTimes(n as real, p as real);
    TimesMono(h.Floor as real, Ratio(n, p), p as real);
    assert Times(h.Floor as real, p as real) == (h.Floor * p) as real;
  }

  lemma FloorNearRatio(n: nat, p: nat, h: real)
    requires p >= 1 && Ratio(n, p) - 0.4 <= h
    ensures n - h.Floor * p < 2 * p
  {
    QuotientTimes(n as real, p as real);
    TimesStrict(Ratio(n, p), (h.Floor + 2) as real, p as real);
    assert Times((h.Floor + 2) as real, p as real) == ((h.Floor + 2) * p) as real;
  }

  /** The guessed quotient is the true one or one less, so that one correction is enough. */
  ghost predicate OneCorrectionSuffices(n: nat, p: nat, guard: nat)
    requires p >= 1
  {
    n - Estimate(n, Reciprocal(p, guard), WorkingPrecision(n, p, guard)).Floor * p < 2 * p
  }

  lemma TwoGuardDigitsSuffice(n: nat, p: nat, guard: nat)
    requires NotPowerOfTen(p) && guard >= 2 && n < p * p
    ensures OneCorrectionSuffices(n, p, guard)
  {
    EstimateWithinHalf(n, p, guard);
    FloorNearRatio(n, p, Estimate(n, Reciprocal(p, guard), WorkingPrecision(n, p, guard)));
  }

  /** How often the conversion of n to w bytes takes the fallback */
  ghost function Fallbacks(n: nat, w: nat, guard: nat, limit: nat): nat
    requires limit >= 1
    decreases w
  {
    if w <= limit then 0
    else
      var p := Pow(256, w - w / 2);
      SplitDecimal(n, p);
      (if OneCorrectionSuffices(n, p, guard) then 0 else 1)
      + Fallbacks(n / p, w / 2, guard, limit) + Fallbacks(n % p, w - w / 2, guard, limit)
  }

  /** With two guard digits the fallback is never taken. */
  lemma {:induction false} NoFallbacks(n: nat, w: nat, guard: nat, limit: nat)
    requires limit >= 1 && guard >= 2 && n < Pow(256, w)
    ensures Fallbacks(n, w, guard, limit) == 0
    decreases w
  {
    if w > limit {
      var p := Pow(256, w - w / 2);
      SplitDecimal(n, p);
      SplitBytes(n, w);
      NoPowerOf256IsDecimal(w - w / 2);
      TwoGuardDigitsSuffice(n, p, guard);
      NoFallbacks(n / p, w / 2, guard, limit);
      NoFallbacks(n % p, w - w / 2, guard, limit);
    }
  }

  /** The powers of 256 and their truncated reciprocals, `Lib/_pylong.py:366-383` */
  method Table(w: nat, guard: nat, limit: nat) returns (table: map<nat, Entry>)
    ensures table.Keys == Lookups(w, limit, true)
    ensures TableOk(table, guard)
  {
    NumbersAreLawful();
    var pow256, steps := ComputePowers(INTS, w, 256, limit, true);
    var rpow256, steps' := ComputePowers(REALS, w, 1.0 / 256.0, limit, true);
    table := map[];
    var rest := pow256.Keys;
    while rest != {}
      invariant rest <= pow256.Keys && table.Keys == pow256.Keys - rest
      invariant TableOk(table, guard)
    {
      var k :| k in rest;
      var e := MakeEntry(k, pow256[k], rpow256[k], guard);
      TableOkMore(table, k, e, guard);
      table := table[k := e];
      rest := rest - {k};
    }
  }

  lemma TableOkMore(table: map<nat, Entry>, k: nat, e: Entry, guard: nat)
    requires TableOk(table, guard) && EntryOk(k, e, guard)
    ensures TableOk(table[k := e], guard)
  {
  }

  /** `Lib/_pylong.py:381-383`: the exact reciprocal is cut back to the least precision that can be needed. */
  method MakeEntry(k: nat, v: int, r: real, guard: nat) returns (e: Entry)
    requires v == Power(INTS, 256, k) && r == Power(REALS, 1.0 / 256.0, k)
    ensures EntryOk(k, e, guard)
  {
    IntPower(256, k);
    InversePower(k);
    var prec := Working(Adjusted(v as real) + guard + 1);
    e := Entry(v, Rounded(r, prec));
  }

  /** The number that s stands for, exactly when it fits in the estimated w bytes; and how often the fallback was
      taken. */
  method DecStrToInt(s: string, w: nat, guard: nat, limit: nat) returns (o: Outcome, ghost fallbacks: nat)
    requires AllDigits(s) && guard >= 1 && limit >= 1
    ensures o == if BitLength(w) >= 46 then ValueError
                 else if DecValue(s) < Pow(256, w) then Ok(DecValue(s)) else OverflowError
    ensures DecValue(s) >= 0 && (o.Ok? ==> fallbacks == Fallbacks(DecValue(s), w, guard, limit))
  {
    DecValueBound(s);
    if BitLength(w) >= 46 {
      return ValueError, 0;
    }
    var table := Table(w, guard, limit);
    var c := new Converter(guard, limit, table);
    var ok := c.Inner(DecValue(s), w);
    if !ok {
      return OverflowError, 0;
    }
    BytesRoundTrip(DecValue(s), w);
    assert c.result == BigEndian(DecValue(s), w);
    return Ok(FromBytes(c.result)), c.Count(999);
  }
}
