/** The digit lists of `_int2digits` and `_digits2int`: base 2^n, least significant digit first. */
module Digits {
  import opened Basics
  import opened Arithmetic
  import opened Bits

  /** The number that a little-endian digit list stands for. */
  function Value(ds: seq<int>, base: int): int {
    if ds == [] then 0 else ds[0] + base * Value(ds[1..], base)
  }

  lemma ValueCons(d: int, ds: seq<int>, base: int)
    ensures Value([d] + ds, base) == d + base * Value(ds, base)
  {
    assert ([d] + ds)[1..] == ds;
  }

  lemma OneDigit(d: int, base: int)
    ensures Value([d], base) == d && Pow(base, 1) == base
  {
    assert [d][1..] == [];
  }

  predicate InRange(ds: seq<int>, base: int) {
    forall i :: 0 <= i < |ds| ==> 0 <= ds[i] < base
  }

  /** The form in which a number is written: digits in range, most significant digit not zero. */
  predicate Canonical(ds: seq<int>, base: int) {
    InRange(ds, base) && (ds != [] ==> ds[|ds| - 1] != 0)
  }

  function Reverse(ds: seq<int>): seq<int> {
    if ds == [] then [] else Reverse(ds[1..]) + [ds[0]]
  }

  lemma {:induction false} ReverseAppend(ds: seq<int>, d: int)
    ensures Reverse(ds + [d]) == [d] + Reverse(ds)
  {
    if ds != [] {
      ReverseAppend(ds[1..], d);
      assert (ds + [d])[1..] == ds[1..] + [d];
    } else {
      assert [d][1..] == [];
    }
  }

  lemma {:induction false} ValueOfJoin(xs: seq<int>, ys: seq<int>, base: int)
    ensures Value(xs + ys, base) == Value(xs, base) + Pow(base, |xs|) * Value(ys, base)
  {
    if xs == [] {
      assert xs + ys == ys;
    } else {
      ValueOfJoin(xs[1..], ys, base);
      assert (xs + ys)[1..] == xs[1..] + ys;
      var v, w, p := Value(xs[1..], base), Value(ys, base), Pow(base, |xs| - 1);
      MulDistributes(base, v, p * w);
      MulAssoc(base, p, w);
    }
  }

  lemma {:induction false} ValueBound(ds: seq<int>, base: int)
    requires base >= 1 && InRange(ds, base)
    ensures 0 <= Value(ds, base) < Pow(base, |ds|)
  {
    if ds != [] {
      ValueBound(ds[1..], base);
      var v, p := Value(ds[1..], base), Pow(base, |ds| - 1);
      MulMonotone(v, p - 1, base);
      MulMonotone(0, v, base);
      MulDistributes(base, p, -1);
    }
  }

  /** A canonical list is the only one for its number, so splitting a joined list gives it back. */
  lemma {:induction false} CanonicalUnique(xs: seq<int>, ys: seq<int>, base: int)
    requires base >= 2 && Canonical(xs, base) && Canonical(ys, base)
    requires Value(xs, base) == Value(ys, base)
    ensures xs == ys
  {
    if xs == [] || ys == [] {
      if xs != [] {
        CanonicalPositive(xs, base);
      }
      if ys != [] {
        CanonicalPositive(ys, base);
      }
    } else {
      var v, w := Value(xs[1..], base), Value(ys[1..], base);
      DivModUnique(Value(xs, base), base, v, xs[0]);
      DivModUnique(Value(ys, base), base, w, ys[0]);
      CanonicalUnique(xs[1..], ys[1..], base);
      assert xs == [xs[0]] + xs[1..] && ys == [ys[0]] + ys[1..];
    }
  }

  lemma {:induction false} CanonicalPositive(ds: seq<int>, base: int)
    requires base >= 2 && Canonical(ds, base) && ds != []
    ensures Value(ds, base) >= Pow(base, |ds| - 1)
  {
    if |ds| > 1 {
      CanonicalPositive(ds[1..], base);
      MulMonotone(Pow(base, |ds| - 2), Value(ds[1..], base), base);
    }
  }

  lemma {:induction false} PowOfPow(n: nat, k: nat)
    ensures k * n >= 0 && Pow(Pow(2, n), k) == Pow(2, k * n)
  {
    if k > 0 {
      PowOfPow(n, k - 1);
      MulDistributes(n, k, -1);
      PowAdd(2, n, (k - 1) * n);
    }
  }

  /** ceil(bits / n) digits hold the number, and one digit fewer would not. */
  lemma DigitCount(a: int, n: nat, len: int)
    requires a > 0 && n >= 1 && len == (BitLength(a) + n - 1) / n
    ensures len >= 1 && Pow(Pow(2, n), len - 1) <= a < Pow(Pow(2, n), len)
  {
    CeilingBounds(BitLength(a), n);
    DigitsBelow(a, n, len - 1);
    DigitsBelow(a, n, len);
  }

  lemma DigitsBelow(a: nat, n: nat, k: nat)
    ensures k * n >= 0 && (a < Pow(Pow(2, n), k) <==> BitLength(a) <= k * n)
  {
    PowOfPow(n, k);
    BitLengthBound(a, k * n);
  }

  lemma CeilingBounds(bits: nat, n: nat)
    requires bits >= 1 && n >= 1
    ensures var len := (bits + n - 1) / n;
      len >= 1 && 0 <= (len - 1) * n < bits <= len * n
  {
    var len := (bits + n - 1) / n;
    DivModSpec(bits + n - 1, n);
    if len < 1 {
      MulMonotone(len, 0, n);
    }
    MulMonotone(1, len, n);
    MulDistributes(n, len, -1);
  }

  // ----- Splitting -----

  ghost function Slots(lo: nat, hi: nat): seq<nat>
    decreases hi - lo
  {
    if lo >= hi then [] else [lo] + Slots(lo + 1, hi)
  }

  lemma {:induction false} SlotsJoin(lo: nat, mid: nat, hi: nat)
    requires lo <= mid <= hi
    ensures Slots(lo, mid) + Slots(mid, hi) == Slots(lo, hi)
    decreases mid - lo
  {
    if lo < mid {
      SlotsJoin(lo + 1, mid, hi);
    } else {
      assert Slots(lo, mid) == [];
    }
  }

  /** `inner` of _int2digits: fills the slots lo..hi with the digits of x and leaves the others alone.  The
      log records the writes: each slot once, in order. */
  method Fill(x: int, ds: array<int>, lo: nat, hi: nat, n: nat, ghost log: seq<nat>) returns (ghost log': seq<nat>)
    requires lo < hi <= ds.Length && n >= 1
    requires 0 <= x < Pow(Pow(2, n), hi - lo)
    modifies ds
    ensures Value(ds[lo..hi], Pow(2, n)) == x && InRange(ds[lo..hi], Pow(2, n))
    ensures ds[..lo] == old(ds[..lo]) && ds[hi..] == old(ds[hi..])
    ensures log' == log + Slots(lo, hi)
    decreases hi - lo
  {
    if lo + 1 == hi {
      ds[lo] := x;
      assert ds[lo..hi] == [x];
      OneDigit(x, Pow(2, n));
      assert Slots(lo, hi) == [lo] + Slots(lo + 1, hi);
      return log + [lo];
    }
    var mid := (lo + hi) / 2;
    var shift := (mid - lo) * n;
    SplitDigits(x, n, mid - lo, hi - mid);
    var upper := Shr(x, shift);
    var lower := Bitwise(Xor, x, Shl(upper, shift));
    ghost var s := ds[..];
    log' := Fill(lower, ds, lo, mid, n, log);
    ghost var t := ds[..];
    log' := Fill(upper, ds, mid, hi, n, log');
    HalvesFilled(s, t, ds[..], lo, mid, hi, x, n);
    SlotsJoin(lo, mid, hi);
    Associate(log, Slots(lo, mid), Slots(mid, hi));
  }

  lemma HalvesFilled(s: seq<int>, t: seq<int>, u: seq<int>, lo: nat, mid: nat, hi: nat, x: int, n: nat)
    requires lo <= mid <= hi <= |s| == |t| == |u| && (mid - lo) * n >= 0
    requires 0 <= x < Pow(Pow(2, n), hi - lo)
    requires t[..lo] == s[..lo] && t[mid..] == s[mid..]
    requires u[..mid] == t[..mid] && u[hi..] == t[hi..]
    requires InRange(t[lo..mid], Pow(2, n)) && InRange(u[mid..hi], Pow(2, n))
    requires var upper := Shr(x, (mid - lo) * n);
      && Value(u[mid..hi], Pow(2, n)) == upper
      && Value(t[lo..mid], Pow(2, n)) == Bitwise(Xor, x, Shl(upper, (mid - lo) * n))
    ensures u[..lo] == s[..lo] && u[hi..] == s[hi..]
    ensures Value(u[lo..hi], Pow(2, n)) == x && InRange(u[lo..hi], Pow(2, n))
  {
    BothHalvesFilled(s, t, u, lo, mid, hi);
    JoinedDigits(x, n, t[lo..mid], u[mid..hi]);
  }

  /** Filling the left half and then the right one: the range is the left digits and then the right ones, and the
      rest is as it was. */
  lemma BothHalvesFilled(s: seq<int>, t: seq<int>, u: seq<int>, lo: nat, mid: nat, hi: nat)
    requires lo <= mid <= hi <= |s| == |t| == |u|
    requires t[..lo] == s[..lo] && t[mid..] == s[mid..]
    requires u[..mid] == t[..mid] && u[hi..] == t[hi..]
    ensures u[..lo] == s[..lo] && u[hi..] == s[hi..]
    ensures u[lo..hi] == t[lo..mid] + u[mid..hi]
  {
    SlicesKept(t, u, lo, mid);
    assert t[hi..] == t[mid..][hi - mid..] && s[hi..] == s[mid..][hi - mid..];
    assert u[lo..hi] == u[lo..mid] + u[mid..hi];
  }

  lemma SlicesKept(s: seq<int>, t: seq<int>, lo: nat, mid: nat)
    requires lo <= mid <= |s| && |t| == |s| && t[..mid] == s[..mid]
    ensures t[..lo] == s[..lo] && t[lo..mid] == s[lo..mid]
  {
    assert t[..lo] == t[..mid][..lo] && s[..lo] == s[..mid][..lo];
    assert t[lo..mid] == t[..mid][lo..] && s[lo..mid] == s[..mid][lo..];
  }

  /** The digits of the two parts, one after the other, are the digits of the whole. */
  lemma JoinedDigits(x: int, n: nat, left: seq<int>, right: seq<int>)
    requires 0 <= x < Pow(Pow(2, n), |left| + |right|) && |left| * n >= 0
    requires InRange(left, Pow(2, n)) && InRange(right, Pow(2, n))
    requires Value(right, Pow(2, n)) == Shr(x, |left| * n)
    requires Value(left, Pow(2, n)) == Bitwise(Xor, x, Shl(Shr(x, |left| * n), |left| * n))
    ensures Value(left + right, Pow(2, n)) == x && InRange(left + right, Pow(2, n))
  {
    SplitDigits(x, n, |left|, |right|);
    ValueOfJoin(left, right, Pow(2, n));
  }

  /** Shifting and masking at a digit boundary divides by a power of the base. */
  lemma SplitDigits(x: int, n: nat, i: nat, j: nat)
    requires 0 <= x < Pow(Pow(2, n), i + j) && i * n >= 0
    ensures var upper := Shr(x, i * n);
      var lower := Bitwise(Xor, x, Shl(upper, i * n));
      && x == lower + Pow(Pow(2, n), i) * upper
      && 0 <= lower < Pow(Pow(2, n), i) && 0 <= upper < Pow(Pow(2, n), j)
  {
    PowOfPow(n, i);
    XorClearsHigh(x, i * n);
    SplitInRange(x, Pow(2, n), i, j);
    DivModSpec(x, Pow(2, i * n));
  }

  lemma SplitInRange(x: int, base: int, i: nat, j: nat)
    requires base >= 1 && 0 <= x < Pow(base, i + j)
    ensures 0 <= x % Pow(base, i) < Pow(base, i)
    ensures 0 <= x / Pow(base, i) < Pow(base, j)
  {
    PowAdd(base, i, j);
    DivModSpec(x, Pow(base, i));
    QuotientBelow(x, Pow(base, i), Pow(base, j));
    if x / Pow(base, i) < 0 {
      MulMonotone(x / Pow(base, i), -1, Pow(base, i));
    }
  }

  /** The canonical digits of a, ceil(bits / n) of them; the empty list for zero. */
  method Int2Digits(a: int, n: nat) returns (r: seq<int>)
    requires a >= 0 && n >= 1
    ensures Value(r, Pow(2, n)) == a && Canonical(r, Pow(2, n))
    ensures |r| == (BitLength(a) + n - 1) / n
  {
    ghost var base := Pow(2, n);
    var len := (BitLength(a) + n - 1) / n;
    if a != 0 {
      DigitCount(a, n, len);
    } else {
      SmallDivMod(n - 1, n);
    }
    var ds := new int[len](i => 0);
    if a != 0 {
      ghost var log := Fill(a, ds, 0, len, n, []);
      assert log == Slots(0, len);
      assert ds[0..len] == ds[..];
      TopDigitNonZero(ds[..], base);
    }
    return ds[..];
  }

  lemma TopDigitNonZero(ds: seq<int>, base: int)
    requires base >= 1 && ds != [] && InRange(ds, base) && Value(ds, base) >= Pow(base, |ds| - 1)
    ensures ds[|ds| - 1] != 0
  {
    var k := |ds| - 1;
    assert ds == ds[..k] + [ds[k]];
    ValueOfJoin(ds[..k], [ds[k]], base);
    ValueBound(ds[..k], base);
    assert [ds[k]][1..] == [];
  }

  // ----- Joining -----

  /** `inner` of _digits2int */
  function Join(ds: seq<int>, lo: nat, hi: nat, n: nat): (r: int)
    requires lo < hi <= |ds|
    ensures r == Value(ds[lo..hi], Pow(2, n))
    decreases hi - lo
  {
    if lo + 1 == hi then
      assert ds[lo..hi] == [ds[lo]];
      OneDigit(ds[lo], Pow(2, n));
      ds[lo]
    else
      var mid := (lo + hi) / 2;
      var shift := (mid - lo) * n;
      assert ds[lo..hi] == ds[lo..mid] + ds[mid..hi];
      JoinedValue(ds[lo..mid], ds[mid..hi], n);
      var upper, lower := Join(ds, mid, hi, n), Join(ds, lo, mid, n);
      Shl(upper, shift) + lower
  }

  lemma JoinedValue(left: seq<int>, right: seq<int>, n: nat)
    ensures |left| * n >= 0
    ensures Value(left + right, Pow(2, n)) ==
      Shl(Value(right, Pow(2, n)), |left| * n) + Value(left, Pow(2, n))
  {
    ValueOfJoin(left, right, Pow(2, n));
    PowOfPow(n, |left|);
    ShlIsMul(Value(right, Pow(2, n)), |left| * n);
  }

  function Digits2Int(ds: seq<int>, n: nat): (r: int)
    ensures r == Value(ds, Pow(2, n))
  {
    if ds != [] then
      assert ds[0..|ds|] == ds;
      Join(ds, 0, |ds|, n)
    else 0
  }

  /** `_digits2int` undoes `_int2digits`. */
  method SplitThenJoin(a: int, n: nat) returns (r: int)
    requires a >= 0 && n >= 1
    ensures r == a
  {
    var ds := Int2Digits(a, n);
    r := Digits2Int(ds, n);
  }

  /** `_int2digits` undoes `_digits2int` on the lists it produces. */
  method JoinThenSplit(ds: seq<int>, n: nat) returns (r: seq<int>)
    requires n >= 1 && Canonical(ds, Pow(2, n))
    ensures r == ds
  {
    ValueBound(ds, Pow(2, n));
    r := Int2Digits(Digits2Int(ds, n), n);
    CanonicalUnique(r, ds, Pow(2, n));
  }
}
