/** Divide-and-conquer conversion between integers and decimal strings: `int_to_decimal`, the fallback path
    of `int_to_decimal_string`, and `_str_to_int_inner`. */
module DecimalStrings {
  import opened Arithmetic
  import opened Bits
  import opened Powers
  import opened Numbers

  // ----- Numerals -----

  predicate IsDigit(c: char) {
    '0' <= c <= '9'
  }

  function DigitValue(c: char): int {
    c as int - '0' as int
  }

  function DigitChar(d: int): (c: char)
    requires 0 <= d < 10
    ensures IsDigit(c) && DigitValue(c) == d
  {
    ('0' as int + d) as char
  }

  predicate AllDigits(s: string) {
    forall i :: 0 <= i < |s| ==> IsDigit(s[i])
  }

  /** What `int(s)` gives for a string of digits. */
  function DecValue(s: string): int {
    if s == "" then 0 else 10 * DecValue(s[..|s| - 1]) + DigitValue(s[|s| - 1])
  }

  /** What `str(n)` gives. */
  function Str(n: int): string
    decreases n < 0, Abs(n)
  {
    if n < 0 then "-" + Str(-n)
    else if n < 10 then [DigitChar(n)]
    else Str(n / 10) + [DigitChar(n % 10)]
  }

  /** A nonempty digit string without superfluous leading zeros. */
  predicate IsNumeral(s: string) {
    s != "" && AllDigits(s) && (s[0] == '0' ==> |s| == 1)
  }

  lemma {:induction false} StrIsNumeral(n: nat)
    ensures IsNumeral(Str(n)) && DecValue(Str(n)) == n
    ensures n > 0 ==> Str(n)[0] != '0'
  {
    if n < 10 {
      assert Str(n)[..0] == "";
    } else {
      StrIsNumeral(n / 10);
      assert Str(n)[..|Str(n)| - 1] == Str(n / 10);
    }
  }

  /** A numeral is the only one for its value, so a numeral for n is str(n). */
  lemma {:induction false} NumeralUnique(s: string)
    requires IsNumeral(s)
    ensures DecValue(s) >= 0 && s == Str(DecValue(s))
    ensures |s| > 1 ==> DecValue(s) >= 10
  {
    var k := |s| - 1;
    assert s == s[..k] + [s[k]];
    assert IsDigit(s[k]);
    if k == 0 {
      assert s[..0] == "";
    } else {
      assert IsDigit(s[0]);
      NumeralUnique(s[..k]);
      if k == 1 {
        assert s[..1] == [s[0]] && s[..1][..0] == "";
      }
    }
  }

  // ----- Signs -----

  /** What `int(s)` gives for digits after an optional minus sign. */
  function SignedValue(s: string): int {
    if s != "" && s[0] == '-' then -DecValue(s[1..]) else DecValue(s)
  }

  /** A numeral, or one that is not zero after a single minus sign. */
  predicate IsSignedNumeral(s: string) {
    IsNumeral(s) || (s != "" && s[0] == '-' && IsNumeral(s[1..]) && s[1] != '0')
  }

  lemma SignedStr(n: int)
    ensures IsSignedNumeral(Str(n)) && SignedValue(Str(n)) == n
    ensures Str(n)[0] == '-' <==> n < 0
  {
    StrIsNumeral(Abs(n));
    if n < 0 {
      assert Str(n)[1..] == Str(-n);
    } else {
      assert IsDigit(Str(n)[0]);
    }
  }

  lemma SignedNumeralUnique(s: string)
    requires IsSignedNumeral(s)
    ensures s == Str(SignedValue(s))
    ensures s[0] == '-' <==> SignedValue(s) < 0
  {
    if s[0] == '-' {
      NumeralUnique(s[1..]);
      StrIsNumeral(0);
      assert s[1..][0] == s[1];
      assert s == "-" + s[1..];
    } else {
      NumeralUnique(s);
    }
  }

  lemma {:induction false} StrLength(n: nat, w: nat)
    requires w >= 1
    ensures |Str(n)| <= w <==> n < Pow(10, w)
  {
    if n >= 10 && w > 1 {
      StrLength(n / 10, w - 1);
    } else if n < 10 {
      PowMonotone(10, 1, w);
      assert Pow(10, 1) == 10;
    }
  }

  lemma {:induction false} DecValueJoin(s: string, t: string)
    ensures DecValue(s + t) == DecValue(s) * Pow(10, |t|) + DecValue(t)
  {
    if t == "" {
      assert s + t == s;
    } else {
      var k := |t| - 1;
      DecValueJoin(s, t[..k]);
      assert (s + t)[..|s + t| - 1] == s + t[..k];
      MulAssoc(DecValue(s), 10, Pow(10, k));
      MulAssoc(10, DecValue(s), Pow(10, k));
    }
  }

  lemma {:induction false} DecValueBound(s: string)
    requires AllDigits(s)
    ensures 0 <= DecValue(s) < Pow(10, |s|)
  {
    if s != "" {
      DecValueBound(s[..|s| - 1]);
      assert IsDigit(s[|s| - 1]);
    }
  }

  // ----- Leading zeros -----

  function Zeros(k: nat): (z: string)
    ensures |z| == k
  {
    if k == 0 then "" else "0" + Zeros(k - 1)
  }

  /** `s.zfill(k)` for a string without sign */
  function ZFill(s: string, k: nat): string {
    if |s| >= k then s else Zeros(k - |s|) + s
  }

  /** `s.lstrip('0')` */
  function LStrip(s: string): string {
    if s != "" && s[0] == '0' then LStrip(s[1..]) else s
  }

  lemma {:induction false} ZerosAreZero(k: nat)
    ensures AllDigits(Zeros(k)) && DecValue(Zeros(k)) == 0
  {
    if k > 0 {
      ZerosAreZero(k - 1);
      DecValueJoin("0", Zeros(k - 1));
      assert "0"[..0] == "";
    }
  }

  lemma ZFillKeepsValue(s: string, k: nat)
    requires AllDigits(s)
    ensures AllDigits(ZFill(s, k)) && DecValue(ZFill(s, k)) == DecValue(s)
  {
    if |s| < k {
      ZerosAreZero(k - |s|);
      DecValueJoin(Zeros(k - |s|), s);
    }
  }

  lemma {:induction false} LStripKeepsValue(s: string)
    requires AllDigits(s)
    ensures AllDigits(LStrip(s)) && DecValue(LStrip(s)) == DecValue(s)
    ensures LStrip(s) != "" ==> LStrip(s)[0] != '0'
  {
    if s != "" && s[0] == '0' {
      LStripKeepsValue(s[1..]);
      assert s == "0" + s[1..];
      DecValueJoin("0", s[1..]);
      assert "0"[..0] == "";
    }
  }

  // ----- int_to_decimal_string -----

  /** s is n in decimal, perhaps with leading zeros: no longer than w if n fits in w digits, and longer than
      one character if w exceeds the limit. */
  ghost predicate Represents(s: string, n: nat, w: nat, limit: nat) {
    && s != "" && AllDigits(s) && DecValue(s) == n
    && (w >= 1 && n < Pow(10, w) ==> |s| <= w)
    && (w > limit ==> |s| >= 2)
  }

  /** `inner`, `Lib/_pylong.py:193-198`.  Each recursive call finds its power among the keys computed in advance, and a
      low part never outgrows the w2 characters it is padded to. */
  function ToDigits(n: nat, w: nat, limit: nat, pow10: map<nat, int>): (s: string)
    requires limit >= 1 && Serves(pow10, INTS, 10, w, limit, false)
    ensures Represents(s, n, w, limit)
    decreases w
  {
    if w <= limit then
      StrRepresents(n, w, limit);
      Str(n)
    else
      var w2 := w / 2;
      ServesHalves(pow10, INTS, 10, w, limit, false);
      IntPower(10, w2);
      SplitDecimal(n, pow10[w2]);
      var hi, lo := n / pow10[w2], n % pow10[w2];
      var high, low := ToDigits(hi, w - w2, limit, pow10), ToDigits(lo, w2, limit, pow10);
      JoinDecimal(high, low, n, w, limit);
      high + ZFill(low, w2)
  }

  lemma StrRepresents(n: nat, w: nat, limit: nat)
    requires w <= limit
    ensures Represents(Str(n), n, w, limit)
  {
    StrIsNumeral(n);
    if w >= 1 {
      StrLength(n, w);
    }
  }

  lemma SplitDecimal(n: nat, p: int)
    requires p > 0
    ensures 0 <= n / p && 0 <= n % p < p
  {
    DivModSpec(n, p);
    if n / p < 0 {
      MulMonotone(n / p, -1, p);
    }
  }

  lemma JoinDecimal(high: string, low: string, n: nat, w: nat, limit: nat)
    requires w > limit >= 1
    requires var p := Pow(10, w / 2);
      n / p >= 0 && n % p >= 0 && Represents(high, n / p, w - w / 2, limit) && Represents(low, n % p, w / 2, limit)
    ensures |ZFill(low, w / 2)| == w / 2
    ensures Represents(high + ZFill(low, w / 2), n, w, limit)
  {
    var p := Pow(10, w / 2);
    DivModSpec(n, p);
    ZFillKeepsValue(low, w / 2);
    DecValueJoin(high, ZFill(low, w / 2));
    MulEqual(DecValue(high), n / p, Pow(10, |ZFill(low, w / 2)|), p);
    if n < Pow(10, w) {
      PowAdd(10, w / 2, w - w / 2);
      QuotientBelow(n, p, Pow(10, w - w / 2));
    }
  }

  lemma ShiftedFive(k: nat)
    ensures Shl(Pow(5, k), k) == Pow(10, k)
  {
    ShlIsMul(Pow(5, k), k);
    PowMul(2, 5, k);
  }

  /** `Lib/_pylong.py:208-210`: 5^k << k is 10^k. */
  method PowersOfTen(w: nat, limit: nat) returns (pow10: map<nat, int>)
    ensures pow10.Keys == Lookups(w, limit, false) && Serves(pow10, INTS, 10, w, limit, false)
  {
    NumbersAreLawful();
    ghost var steps;
    pow10, steps := ComputePowers(INTS, w, 5, limit, false);
    var rest := pow10.Keys;
    while rest != {}
      invariant rest <= pow10.Keys == Lookups(w, limit, false)
      invariant forall k :: k in rest ==> pow10[k] == Power(INTS, 5, k)
      invariant forall k :: k in pow10 && k !in rest ==> pow10[k] == Power(INTS, 10, k)
    {
      var k :| k in rest;
      IntPower(5, k);
      IntPower(10, k);
      ShiftedFive(k);
      pow10 := pow10[k := Shl(pow10[k], k)];
      rest := rest - {k};
    }
  }

  /** The result stands for n, with a minus sign exactly when n is negative, however wrong the estimate w of the
      number of digits is.  It has no superfluous zeros, and so is str(n), for every n but zero; for n == 0, where
      nothing is stripped, exactly when the estimate does not exceed the limit. */
  method IntToDecimalString(n: int, w: nat, limit: nat) returns (r: string)
    requires w >= 1 && limit >= 1
    ensures r != "" && SignedValue(r) == n && (r[0] == '-' <==> n < 0)
    ensures AllDigits(r[1..]) && (n < 0 ==> |r| > 1) && (n >= 0 ==> IsDigit(r[0]))
    ensures IsSignedNumeral(r) <==> n != 0 || w <= limit
    ensures r == Str(n) <==> n != 0 || w <= limit
  {
    var pow10 := PowersOfTen(w, limit);
    var sign, m := "", n;
    if n < 0 {
      sign, m := "-", -n;
    }
    var s := ToDigits(m, w, limit, pow10);
    if s[0] == '0' && n != 0 {
      LStripKeepsValue(s);
      s := LStrip(s);
    }
    if IsNumeral(s) {
      NumeralUnique(s);
    }
    r := sign + s;
    WithSign(n, sign, s);
  }

  lemma WithSign(n: int, sign: string, s: string)
    requires s != "" && AllDigits(s) && DecValue(s) == Abs(n)
    requires sign == if n < 0 then "-" else ""
    ensures var r := sign + s;
      && SignedValue(r) == n && (r[0] == '-' <==> n < 0)
      && AllDigits(r[1..]) && (n < 0 ==> |r| > 1) && (n >= 0 ==> IsDigit(r[0]))
      && (IsSignedNumeral(r) <==> IsNumeral(s))
      && (r == Str(n) <==> IsNumeral(s))
  {
    var r := sign + s;
    assert IsDigit(s[0]);
    assert n >= 0 ==> r == s;
    assert n < 0 ==> r[1..] == s;
    SignedStr(n);
    if IsSignedNumeral(r) {
      SignedNumeralUnique(r);
    }
    if IsNumeral(s) {
      NumeralUnique(s);
      if n < 0 {
        StrIsNumeral(-n);
      }
    }
  }

  // ----- int_to_decimal -----

  /** `inner`, `Lib/_pylong.py:157-163`, on exact decimals. */
  function ToDecimal(n: nat, w: nat, limit: nat, w2pow: map<nat, real>): (d: real)
    requires limit >= 1 && Serves(w2pow, REALS, 2.0, w, limit, false)
    ensures d == n as real
    decreases w
  {
    if w <= limit then n as real
    else
      var w2 := w / 2;
      ServesHalves(w2pow, REALS, 2.0, w, limit, false);
      SplitBinary(n, w2, w2pow[w2]);
      var hi := Shr(n, w2);
      var lo := Bitwise(And, n, Shl(1, w2) - 1);
      Combine(ToDecimal(lo, w2, limit, w2pow), ToDecimal(hi, w - w2, limit, w2pow), w2pow[w2])
  }

  function Combine(lo: real, hi: real, p: real): real {
    lo + hi * p
  }

  lemma SplitBinary(n: nat, i: nat, p: real)
    requires p == Power(REALS, 2.0, i)
    ensures var hi, lo := Shr(n, i), Bitwise(And, n, Shl(1, i) - 1);
      0 <= hi && 0 <= lo && n as real == Combine(lo as real, hi as real, p)
  {
    RealPower(2, i);
    MaskIsMod(n, i);
    DivModSpec(n, Pow(2, i));
    SplitDecimal(n, Pow(2, i));
    CombineReals(n, n % Pow(2, i), Shr(n, i), Pow(2, i));
  }

  lemma CombineReals(n: int, lo: int, hi: int, p: int)
    requires n == lo + p * hi
    ensures n as real == Combine(lo as real, hi as real, p as real)
  {
    RealProduct(hi, p);
  }

  lemma RealProduct(x: int, y: int)
    ensures (x * y) as real == x as real * y as real
  {
  }

  lemma {:induction false} RealPower(b: int, n: nat)
    ensures Power(REALS, b as real, n) == Pow(b, n) as real
  {
    if n > 0 {
      RealPower(b, n - 1);
      RealProduct(b, Pow(b, n - 1));
    }
  }

  /** The Decimal equals the integer, whatever its sign. */
  method IntToDecimal(n: int, limit: nat) returns (d: real)
    requires limit >= 1
    ensures d == n as real
  {
    NumbersAreLawful();
    var nbits := BitLength(n);
    var w2pow, steps := ComputePowers(REALS, nbits, 2.0, limit, false);
    var negate, m := false, n;
    if n < 0 {
      negate, m := true, -n;
    }
    d := ToDecimal(m, nbits, limit, w2pow);
    if negate {
      d := -d;
    }
  }

  // ----- _str_to_int_inner -----

  /** `inner`, `Lib/_pylong.py:238-244`: the digits s[a..b] as a number.  It splits at the ceiling of the midpoint,
      so the part whose power is looked up has the floor of half the length. */
  function FromDigits(s: string, a: nat, b: nat, limit: nat, w5pow: map<nat, int>): (v: int)
    requires a <= b <= |s| && limit >= 1
    requires Serves(w5pow, INTS, 5, b - a, limit, false)
    ensures v == DecValue(s[a..b])
    decreases b - a
  {
    if b - a <= limit then DecValue(s[a..b])
    else
      var mid := (a + b + 1) / 2;
      CeilingServes(b - a, b - mid, limit, w5pow);
      var low, high := FromDigits(s, mid, b, limit, w5pow), FromDigits(s, a, mid, limit, w5pow);
      JoinSlices(s, a, mid, b);
      Recombine(low, high, w5pow[b - mid], b - mid)
  }

  /** low + high * 10^k, given p = 5^k */
  function Recombine(low: int, high: int, p: int, k: nat): int {
    low + Shl(high * p, k)
  }

  lemma JoinNumbers(left: string, right: string)
    ensures DecValue(left + right) == Recombine(DecValue(right), DecValue(left), Pow(5, |right|), |right|)
  {
    var k, v := |right|, DecValue(left);
    DecValueJoin(left, right);
    ShlIsMul(v * Pow(5, k), k);
    PowMul(2, 5, k);
    MulAssoc(v, Pow(5, k), Pow(2, k));
  }

  lemma JoinSlices(s: string, a: nat, mid: nat, b: nat)
    requires a <= mid <= b <= |s|
    ensures DecValue(s[a..b]) == Recombine(DecValue(s[mid..b]), DecValue(s[a..mid]), Pow(5, b - mid), b - mid)
  {
    JoinNumbers(s[a..mid], s[mid..b]);
    assert s[a..b] == s[a..mid] + s[mid..b];
  }

  /** The part after a midpoint that is a ceiling has the floor of half the length. */
  lemma CeilingServes(n: nat, k: nat, limit: nat, w5pow: map<nat, int>)
    requires limit >= 1 && n > limit && k == n / 2 && Serves(w5pow, INTS, 5, n, limit, false)
    ensures k in w5pow && w5pow[k] == Pow(5, k)
    ensures Serves(w5pow, INTS, 5, k, limit, false) && Serves(w5pow, INTS, 5, n - k, limit, false)
  {
    ServesHalves(w5pow, INTS, 5, n, limit, false);
    IntPower(5, k);
  }

  method StrToInt(s: string, limit: nat) returns (v: int)
    requires s != "" && AllDigits(s) && limit >= 1
    ensures v == DecValue(s)
  {
    NumbersAreLawful();
    var w5pow, steps := ComputePowers(INTS, |s|, 5, limit, false);
    assert s[0..|s|] == s;
    v := FromDigits(s, 0, |s|, limit, w5pow);
  }

  // ----- The two conversions undo each other -----

  /** The sign is taken off before the digits are read. */
  method ReadSigned(s: string, limit: nat) returns (v: int)
    requires s != "" && AllDigits(s[1..]) && (if s[0] == '-' then |s| > 1 else IsDigit(s[0])) && limit >= 1
    ensures v == SignedValue(s)
  {
    if s[0] == '-' {
      var u := StrToInt(s[1..], limit);
      v := -u;
    } else {
      assert s == [s[0]] + s[1..];
      v := StrToInt(s, limit);
    }
  }

  method PrintThenRead(n: int, w: nat, strLimit: nat, intLimit: nat) returns (v: int)
    requires w >= 1 && strLimit >= 1 && intLimit >= 1
    ensures v == n
  {
    var s := IntToDecimalString(n, w, strLimit);
    v := ReadSigned(s, intLimit);
  }

  method ReadThenPrint(s: string, w: nat, strLimit: nat, intLimit: nat) returns (t: string)
    requires IsSignedNumeral(s) && w >= 1 && strLimit >= 1 && intLimit >= 1
    ensures t == s <==> s != "0" || w <= strLimit
  {
    SignedNumeralUnique(s);
    StrIsNumeral(0);
    var v := ReadSigned(s, intLimit);
    t := IntToDecimalString(v, w, strLimit);
  }
}
