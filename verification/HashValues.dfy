/** Values of `Set._hash` on machines with 64-bit words, worked out four bits at a time. */
module HashValues {
  import opened Arithmetic
  import opened Bits
  import opened SetHash

  // ----- Exclusive or of known numbers -----

  ghost predicate Unfolds(f: (int, int) -> int, a: int, b: int) {
    f(a, b) == 2 * f(a / 2, b / 2) + (if a % 2 == b % 2 then 0 else 1)
  }

  ghost predicate HasZero(f: (int, int) -> int, a: int) {
    f(a, 0) == a && f(0, a) == a
  }

  /** All that is needed of exclusive or */
  ghost predicate IsXor(f: (int, int) -> int) {
    && (forall a: int, b: int {:trigger Unfolds(f, a, b)} :: Unfolds(f, a, b))
    && (forall a: int {:trigger HasZero(f, a)} :: HasZero(f, a))
  }

  lemma XorIsXor()
    ensures IsXor((a: int, b: int) => Bitwise(Xor, a, b))
  {
    var f := (a: int, b: int) => Bitwise(Xor, a, b);
    forall a: int, b: int
      ensures Unfolds(f, a, b)
    {
      Unfold(Xor, a, b);
    }
    forall a: int
      ensures HasZero(f, a)
    {
      Units(a);
    }
  }

  lemma Zero(f: (int, int) -> int, a: int)
    requires IsXor(f)
    ensures f(a, 0) == a && f(0, a) == a
  {
    assert HasZero(f, a);
  }

  lemma OneBit(f: (int, int) -> int, a: int, b: int, x: nat, y: nat)
    requires IsXor(f) && x < 2 && y < 2
    ensures f(2 * a + x, 2 * b + y) == 2 * f(a, b) + BitOf(Xor, x, y)
  {
    assert Unfolds(f, 2 * a + x, 2 * b + y);
  }

  function TwoBits(x: nat, y: nat): nat
    requires x < 4 && y < 4
  {
    2 * BitOf(Xor, x / 2, y / 2) + BitOf(Xor, x % 2, y % 2)
  }

  lemma PairOfBits(f: (int, int) -> int, a: int, b: int, x: nat, y: nat)
    requires IsXor(f) && x < 4 && y < 4
    ensures f(4 * a + x, 4 * b + y) == 4 * f(a, b) + TwoBits(x, y)
  {
    OneBit(f, a, b, x / 2, y / 2);
    OneBit(f, 2 * a + x / 2, 2 * b + y / 2, x % 2, y % 2);
  }

  function FourBits(x: nat, y: nat): nat
    requires x < 16 && y < 16
  {
    8 * BitOf(Xor, x / 8, y / 8) + 4 * BitOf(Xor, x / 4 % 2, y / 4 % 2) + 2 * BitOf(Xor, x / 2 % 2, y / 2 % 2)
    + BitOf(Xor, x % 2, y % 2)
  }

  lemma TwoPairs(x: nat, y: nat)
    requires x < 16 && y < 16
    ensures FourBits(x, y) == 4 * TwoBits(x / 4, y / 4) + TwoBits(x % 4, y % 4)
  {
    assert x / 4 / 2 == x / 8 && x % 4 / 2 == x / 2 % 2 && x % 4 % 2 == x % 2;
    assert y / 4 / 2 == y / 8 && y % 4 / 2 == y / 2 % 2 && y % 4 % 2 == y % 2;
  }

  lemma Nibble(f: (int, int) -> int, a: int, b: int, x: nat, y: nat)
    requires IsXor(f) && x < 16 && y < 16
    ensures f(16 * a + x, 16 * b + y) == 16 * f(a, b) + FourBits(x, y)
  {
    TwoPairs(x, y);
    PairOfBits(f, a, b, x / 4, y / 4);
    PairOfBits(f, 4 * a + x / 4, 4 * b + y / 4, x % 4, y % 4);
  }

  lemma EmptyShifts(f: (int, int) -> int)
    requires IsXor(f)
    ensures f(0xe5d1d, 0x39) == 0xe5d24
  {
    Zero(f, 0xe5d);
    Nibble(f, 0xe5d, 0x0, 0x1, 0x3);
    Nibble(f, 0xe5d1, 0x3, 0xd, 0x9);
  }

  lemma EmptyDispersed(f: (int, int) -> int)
    requires IsXor(f)
    ensures f(0x72e8ef4d, 0xe5d24) == 0x72e6b269
  {
    Zero(f, 0x72e);
    Nibble(f, 0x72e, 0x0, 0x8, 0xe);
    Nibble(f, 0x72e8, 0xe, 0xe, 0x5);
    Nibble(f, 0x72e8e, 0xe5, 0xf, 0xd);
    Nibble(f, 0x72e8ef, 0xe5d, 0x4, 0x2);
    Nibble(f, 0x72e8ef4, 0xe5d2, 0xd, 0x4);
  }

  lemma OneSpread(f: (int, int) -> int)
    requires IsXor(f)
    ensures f(0x1, 0x10000) == 0x10001
  {
    Zero(f, 0x1000);
    Nibble(f, 0x0, 0x1000, 0x1, 0x0);
  }

  lemma OneMixed(f: (int, int) -> int)
    requires IsXor(f)
    ensures f(0x10001, 0x55b4db3) == 0x55a4db2
  {
    Zero(f, 0x55);
    Nibble(f, 0x0, 0x55, 0x1, 0xb);
    Nibble(f, 0x1, 0x55b, 0x0, 0x4);
    Nibble(f, 0x10, 0x55b4, 0x0, 0xd);
    Nibble(f, 0x100, 0x55b4d, 0x0, 0xb);
    Nibble(f, 0x1000, 0x55b4db, 0x1, 0x3);
  }

  lemma OneTerm(f: (int, int) -> int)
    requires IsXor(f)
    ensures f(0xe5d1de9a, 0x48ade2fd76d687e) == 0x48ade2f32bcb6e4
  {
    Zero(f, 0x48ade2f);
    Nibble(f, 0x0, 0x48ade2f, 0xe, 0xd);
    Nibble(f, 0xe, 0x48ade2fd, 0x5, 0x7);
    Nibble(f, 0xe5, 0x48ade2fd7, 0xd, 0x6);
    Nibble(f, 0xe5d, 0x48ade2fd76, 0x1, 0xd);
    Nibble(f, 0xe5d1, 0x48ade2fd76d, 0xd, 0x6);
    Nibble(f, 0xe5d1d, 0x48ade2fd76d6, 0xe, 0x8);
    Nibble(f, 0xe5d1de, 0x48ade2fd76d68, 0x9, 0x7);
    Nibble(f, 0xe5d1de9, 0x48ade2fd76d687, 0xa, 0xe);
  }

  lemma OneShifts(f: (int, int) -> int)
    requires IsXor(f)
    ensures f(0x915bc5e65796, 0x2456f1799) == 0x91598089400f
  {
    Zero(f, 0x915);
    Nibble(f, 0x915, 0x0, 0xb, 0x2);
    Nibble(f, 0x915b, 0x2, 0xc, 0x4);
    Nibble(f, 0x915bc, 0x24, 0x5, 0x5);
    Nibble(f, 0x915bc5, 0x245, 0xe, 0x6);
    Nibble(f, 0x915bc5e, 0x2456, 0x6, 0xf);
    Nibble(f, 0x915bc5e6, 0x2456f, 0x5, 0x1);
    Nibble(f, 0x915bc5e65, 0x2456f1, 0x7, 0x7);
    Nibble(f, 0x915bc5e657, 0x2456f17, 0x9, 0x9);
    Nibble(f, 0x915bc5e6579, 0x2456f179, 0x6, 0x9);
  }

  lemma OneDispersed(f: (int, int) -> int)
    requires IsXor(f)
    ensures f(0x48ade2f32bcb6e4, 0x91598089400f) == 0x48a4f76b235f6eb
  {
    Zero(f, 0x48a);
    Nibble(f, 0x48a, 0x0, 0xd, 0x9);
    Nibble(f, 0x48ad, 0x9, 0xe, 0x1);
    Nibble(f, 0x48ade, 0x91, 0x2, 0x5);
    Nibble(f, 0x48ade2, 0x915, 0xf, 0x9);
    Nibble(f, 0x48ade2f, 0x9159, 0x3, 0x8);
    Nibble(f, 0x48ade2f3, 0x91598, 0x2, 0x0);
    Nibble(f, 0x48ade2f32, 0x915980, 0xb, 0x8);
    Nibble(f, 0x48ade2f32b, 0x9159808, 0xc, 0x9);
    Nibble(f, 0x48ade2f32bc, 0x91598089, 0xb, 0x4);
    Nibble(f, 0x48ade2f32bcb, 0x915980894, 0x6, 0x0);
    Nibble(f, 0x48ade2f32bcb6, 0x9159808940, 0xe, 0x0);
    Nibble(f, 0x48ade2f32bcb6e, 0x91598089400, 0x4, 0xf);
  }

  // ----- The hashes -----

  lemma Powers()
    ensures Pow(2, 11) == 2048 && Pow(2, 16) == 65536 && Pow(2, 25) == 33554432 && WordsOf64(63)
  {
    assert Pow(2, 5) == 32;
    assert Pow(2, 6) == 64;
    PowAdd(2, 5, 6);
    PowAdd(2, 5, 11);
    PowAdd(2, 16, 16);
    PowAdd(2, 32, 31);
    assert Pow(2, 9) == 512;
    PowAdd(2, 9, 16);
    PowAdd(2, 25, 6);
  }

  function LastSteps(h1: int): int {
    var w := (h1 * 69069 + 907133923) % 18446744073709551616;
    var v := if w >= 9223372036854775808 then w - 18446744073709551616 else w;
    if v == -1 then 590923713 else v
  }

  /** The hash with its exclusive ors as those of f, in numbers instead of words */
  ghost function FinishWith(f: (int, int) -> int, h0: int): int {
    LastSteps(f(h0, f(h0 / 2048, h0 / 33554432)))
  }

  ghost function TermWith(f: (int, int) -> int, hx: int): int {
    f(f(hx, 65536 * hx), 89869747) * 3644798167 % 18446744073709551616
  }

  /** The words of a machine have m + 1 = 64 bits. */
  predicate WordsOf64(m: nat) {
    Pow(2, m) == 9223372036854775808
  }

  lemma WordsAre(m: nat)
    requires WordsOf64(m)
    ensures MaxSize(m) == 9223372036854775807 && Pow(2, m + 1) == 18446744073709551616
  {
  }

  lemma ShiftsAre(h0: int, i: nat, j: nat, n: nat)
    requires i == 11 && j == 25 && n == 16
    ensures Shr(h0, i) == h0 / 2048 && Shr(h0, j) == h0 / 33554432 && Shl(h0, n) == 65536 * h0
  {
    Powers();
    ShlIsMul(h0, n);
  }

  lemma FinishUnfolds(h0: int, s: int, t: int, h1: int, m: nat, p: int)
    requires s == Shr(h0, 11) && t == Shr(h0, 25) && h1 == Bitwise(Xor, h0, Bitwise(Xor, s, t)) && p == Pow(2, m)
    ensures var w := (h1 * 69069 + 907133923) % (2 * p);
      var v := if w >= p then w - 2 * p else w;
      Finish(h0, m) == if v == -1 then 590923713 else v
  {
    MaskedIsMod(h1 * 69069 + 907133923, m);
  }

  lemma FinishSteps(h0: int, s: int, t: int, h1: int, m: nat)
    requires WordsOf64(m) && s == Shr(h0, 11) && t == Shr(h0, 25) && h1 == Bitwise(Xor, h0, Bitwise(Xor, s, t))
    ensures Finish(h0, m) == LastSteps(h1)
  {
    FinishUnfolds(h0, s, t, h1, m, 9223372036854775808);
  }

  lemma FinishIs(h0: int, m: nat, f: (int, int) -> int)
    requires WordsOf64(m) && forall a: int, b: int :: f(a, b) == Bitwise(Xor, a, b)
    ensures Finish(h0, m) == FinishWith(f, h0)
  {
    var s, t := h0 / 2048, h0 / 33554432;
    ShiftsAre(h0, 11, 25, 16);
    FinishSteps(h0, s, t, f(h0, f(s, t)), m);
  }

  lemma TermIs(hx: int, m: nat, f: (int, int) -> int)
    requires WordsOf64(m) && forall a: int, b: int :: f(a, b) == Bitwise(Xor, a, b)
    ensures Masked(Term(hx), m) == TermWith(f, hx)
  {
    ShiftsAre(hx, 11, 25, 16);
    MaskedIsMod(Term(hx), m);
    WordsAre(m);
  }

  lemma StartIs(n: nat, m: nat)
    requires WordsOf64(m)
    ensures Start(n, m) == 1927868237 * (n + 1) % 18446744073709551616
  {
    WordsAre(m);
    MaskedIsMod(1927868237 * (n + 1), m);
  }

  lemma NoElement(hashes: seq<int>, m: nat, f: (int, int) -> int, start: int, h: int)
    requires WordsOf64(m) && hashes == [] && start == Start(|hashes|, m) && h == HashOf(hashes, m)
    requires forall a: int, b: int :: f(a, b) == Bitwise(Xor, a, b)
    ensures h == FinishWith(f, start)
  {
    Units(start);
    FinishIs(start, m, f);
  }

  lemma OnlyTerm(hashes: seq<int>, m: nat)
    requires |hashes| == 1
    ensures XorOfTerms(hashes, m) == Masked(Term(hashes[0]), m)
  {
    Units(Masked(Term(hashes[0]), m));
  }

  lemma OneElement(hashes: seq<int>, m: nat, f: (int, int) -> int, start: int, t: int, h: int)
    requires |hashes| == 1 && start == Start(|hashes|, m) && t == Masked(Term(hashes[0]), m)
    requires WordsOf64(m) && h == HashOf(hashes, m)
    requires forall a: int, b: int :: f(a, b) == Bitwise(Xor, a, b)
    ensures h == FinishWith(f, f(start, t))
  {
    OnlyTerm(hashes, m);
    FinishIs(f(start, t), m, f);
  }

  lemma EmptyValue(f: (int, int) -> int, start: int, h: int)
    requires IsXor(f) && start == 1927868237 && h == FinishWith(f, start)
    ensures h == 133146708735736
  {
    EmptyShifts(f);
    EmptyDispersed(f);
  }

  lemma OneTermValue(f: (int, int) -> int, hx: int, t: int)
    requires IsXor(f) && hx == 1 && t == TermWith(f, hx)
    ensures t == 0x48ade2fd76d687e
  {
    OneSpread(f);
    OneMixed(f);
  }

  lemma OneValue(f: (int, int) -> int, start: int, t: int, h: int)
    requires IsXor(f) && start == 3855736474 && t == 0x48ade2fd76d687e && h == FinishWith(f, f(start, t))
    ensures h == -558064481276695278
  {
    OneTerm(f);
    OneShifts(f);
    OneDispersed(f);
  }

  /** The parts of the hash of a set without elements, or of one element */
  lemma SmallParts(hashes: seq<int>, m: nat, h: int) returns (f: (int, int) -> int, start: int, t: int)
    requires WordsOf64(m) && |hashes| <= 1 && h == HashOf(hashes, m)
    ensures IsXor(f) && start == 1927868237 * (|hashes| + 1) % 18446744073709551616
    ensures hashes == [] ==> h == FinishWith(f, start)
    ensures hashes != [] ==> t == TermWith(f, hashes[0]) && h == FinishWith(f, f(start, t))
  {
    XorIsXor();
    f := (a: int, b: int) => Bitwise(Xor, a, b);
    start, t := Start(|hashes|, m), 0;
    StartIs(|hashes|, m);
    if hashes == [] {
      NoElement(hashes, m, f, start, h);
    } else {
      t := Masked(Term(hashes[0]), m);
      TermIs(hashes[0], m, f);
      OneElement(hashes, m, f, start, t, h);
    }
  }

  /** The hash of the empty set and of a set of one element whose hash is 1 */
  lemma KnownHash(hashes: seq<int>, m: nat, h: int)
    requires WordsOf64(m) && h == HashOf(hashes, m)
    ensures hashes == [] ==> h == 133146708735736
    ensures hashes == [1] ==> h == -558064481276695278
  {
    if |hashes| <= 1 {
      var f, start, t := SmallParts(hashes, m, h);
      KnownValue(hashes, f, start, t, h);
    }
  }

  lemma KnownValue(hashes: seq<int>, f: (int, int) -> int, start: int, t: int, h: int)
    requires |hashes| <= 1 && IsXor(f) && start == 1927868237 * (|hashes| + 1) % 18446744073709551616
    requires hashes == [] ==> h == FinishWith(f, start)
    requires hashes != [] ==> t == TermWith(f, hashes[0]) && h == FinishWith(f, f(start, t))
    ensures hashes == [] ==> h == 133146708735736
    ensures hashes == [1] ==> h == -558064481276695278
  {
    if hashes == [] {
      EmptyValue(f, start, h);
    } else if hashes[0] == 1 {
      OneTermValue(f, hashes[0], t);
      OneValue(f, start, t, h);
    }
  }
}
