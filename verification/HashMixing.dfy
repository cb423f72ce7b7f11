/** No step of `Set._hash` loses anything: a change of one element changes the hash, except that -1 is replaced. */
module HashMixing {
  import opened Arithmetic
  import opened Bits
  import opened SetHash

  // ----- Words -----

  /** The word of k bits that x is reduced to */
  function Word(x: int, k: nat): (w: int)
    ensures 0 <= w < Pow(2, k)
  {
    DivModSpec(x, Pow(2, k));
    x % Pow(2, k)
  }

  lemma MaskedIsWord(x: int, m: nat)
    ensures Masked(x, m) == Word(x, m + 1)
  {
    MaskedIsMod(x, m);
  }

  lemma WordOfWord(x: int, k: nat)
    requires 0 <= x < Pow(2, k)
    ensures Word(x, k) == x
  {
    SmallDivMod(x, Pow(2, k));
  }

  lemma WordOf(x: int, p: int, k: nat)
    requires p == Pow(2, k)
    ensures x == p * (x / p) + Word(x, k)
  {
    DivModSpec(x, p);
  }

  /** Words are taken of the parts of an exclusive or. */
  lemma WordOfXor(a: int, b: int, k: nat)
    ensures Word(Bitwise(Xor, a, b), k) == Bitwise(Xor, Word(a, k), Word(b, k))
  {
    ShrShl(a, k);
    ShrShl(b, k);
    SplitAt(Xor, Shr(a, k), Word(a, k), Shr(b, k), Word(b, k), k);
    StaysBelow(Xor, Word(a, k), Word(b, k), k);
    var high, low := Bitwise(Xor, Shr(a, k), Shr(b, k)), Bitwise(Xor, Word(a, k), Word(b, k));
    ShlIsMul(high, k);
    DivModUnique(Shl(high, k) + low, Pow(2, k), high, low);
  }

  lemma Multiple(x: int, p: int, q: int)
    requires p > 0 && x == p * q
    ensures x % p == 0 && x / p == q
  {
    DivModUnique(x, p, q, 0);
  }

  /** Two numbers have the same word exactly when the word of their difference is zero. */
  lemma SameWord(a: int, b: int, k: nat)
    ensures Word(a, k) == Word(b, k) <==> Word(a - b, k) == 0
  {
    var p := Pow(2, k);
    WordOf(a, p, k);
    WordOf(b, p, k);
    WordOf(a - b, p, k);
    MulDistributes(p, a / p, -(b / p));
    if Word(a, k) == Word(b, k) {
      Multiple(a - b, p, a / p - b / p);
    }
    if Word(a - b, k) == 0 {
      MulDistributes(p, b / p, (a - b) / p);
      DivModUnique(a, p, b / p + (a - b) / p, Word(b, k));
    }
  }

  /** The word of an even number */
  lemma WordOfDouble(x: int, k: nat)
    requires k >= 1
    ensures Word(2 * x, k) == 2 * Word(x, k - 1)
  {
    var p := Pow(2, k - 1);
    WordOf(x, p, k - 1);
    MulAssoc(2, p, x / p);
    DivModUnique(2 * x, 2 * p, x / p, 2 * Word(x, k - 1));
  }

  lemma ZeroWordIsEven(x: int, k: nat)
    requires k >= 1 && Word(x, k) == 0
    ensures x % 2 == 0
  {
    var p := Pow(2, k - 1);
    WordOf(x, 2 * p, k);
    MulAssoc(2, p, x / (2 * p));
  }

  // ----- Exclusive or -----

  /** `a ^ c == b ^ c` only for a == b. */
  lemma XorCancels(a: int, b: int, c: int)
    ensures Bitwise(Xor, a, c) == Bitwise(Xor, b, c) <==> a == b
  {
    XorAssociates(a, c, c);
    XorAssociates(b, c, c);
    Units(c);
    Units(a);
    Units(b);
  }

  lemma XorIsZero(a: int, b: int)
    ensures Bitwise(Xor, a, b) == 0 <==> a == b
  {
    XorCancels(a, b, b);
    Units(b);
  }

  lemma XorOfPairs(a: int, b: int, c: int, d: int)
    ensures Bitwise(Xor, Bitwise(Xor, a, b), Bitwise(Xor, c, d)) == Bitwise(Xor, Bitwise(Xor, a, c), Bitwise(Xor, b, d))
  {
    XorAssociates(a, b, Bitwise(Xor, c, d));
    XorSwap(b, c, d);
    XorAssociates(a, c, Bitwise(Xor, b, d));
  }

  /** Words differ exactly when their exclusive or is not zero. */
  lemma SameWordXor(a: int, b: int, k: nat)
    ensures Word(a, k) == Word(b, k) <==> Word(Bitwise(Xor, a, b), k) == 0
  {
    WordOfXor(a, b, k);
    XorIsZero(Word(a, k), Word(b, k));
  }

  // ----- x ^ (x << n) -----

  lemma ShlOfXor(a: int, b: int, n: nat)
    ensures Shl(Bitwise(Xor, a, b), n) == Bitwise(Xor, Shl(a, n), Shl(b, n))
  {
    SplitAt(Xor, a, 0, b, 0, n);
  }

  function Spread(x: int, n: nat): int {
    Bitwise(Xor, x, Shl(x, n))
  }

  lemma SpreadOfXor(a: int, b: int, n: nat)
    ensures Spread(Bitwise(Xor, a, b), n) == Bitwise(Xor, Spread(a, n), Spread(b, n))
  {
    ShlOfXor(a, b, n);
    XorOfPairs(a, b, Shl(a, n), Shl(b, n));
  }

  lemma ShlOfDouble(x: int, n: nat)
    ensures Shl(2 * x, n) == 2 * Shl(x, n)
  {
    ShlIsMul(2 * x, n);
    ShlIsMul(x, n);
    MulAssoc(2, Pow(2, n), x);
  }

  lemma SpreadOfDouble(x: int, n: nat)
    ensures Spread(2 * x, n) == 2 * Spread(x, n)
  {
    ShlOfDouble(x, n);
    Unfold(Xor, 2 * x, 2 * Shl(x, n));
  }

  lemma SpreadLastBit(x: int, n: nat)
    requires n >= 1
    ensures Spread(x, n) % 2 == x % 2
  {
    XorBits(x, Shl(x, n));
  }

  lemma {:induction false} SpreadKernel(x: int, n: nat, k: nat)
    requires n >= 1
    ensures Word(Spread(x, n), k) == 0 <==> Word(x, k) == 0
    decreases k
  {
    if k > 0 {
      SpreadLastBit(x, n);
      if x % 2 == 0 {
        SpreadOfDouble(x / 2, n);
        WordOfDouble(Spread(x / 2, n), k);
        WordOfDouble(x / 2, k);
        SpreadKernel(x / 2, n, k - 1);
      } else {
        OddIsNotZero(x, k);
        OddIsNotZero(Spread(x, n), k);
      }
    }
  }

  lemma OddIsNotZero(x: int, k: nat)
    requires x % 2 == 1 && k >= 1
    ensures Word(x, k) != 0
  {
    if Word(x, k) == 0 {
      ZeroWordIsEven(x, k);
    }
  }

  lemma SpreadInjective(a: int, b: int, n: nat, k: nat)
    requires n >= 1
    ensures Word(Spread(a, n), k) == Word(Spread(b, n), k) <==> Word(a, k) == Word(b, k)
  {
    SameWordXor(a, b, k);
    SameWordXor(Spread(a, n), Spread(b, n), k);
    SpreadOfXor(a, b, n);
    SpreadKernel(Bitwise(Xor, a, b), n, k);
  }

  // ----- Multiplication by an odd number -----

  function Times(x: int, q: int): int {
    x * q
  }

  lemma {:induction false} OddKernel(x: int, q: int, k: nat)
    requires q % 2 == 1
    ensures Word(Times(x, q), k) == 0 <==> Word(x, k) == 0
    decreases k
  {
    if k > 0 {
      ProductLastBit(x, q);
      if x % 2 == 0 {
        HalfProduct(x, q);
        WordOfDouble(Times(x / 2, q), k);
        WordOfDouble(x / 2, k);
        OddKernel(x / 2, q, k - 1);
      } else {
        OddIsNotZero(x, k);
        OddIsNotZero(Times(x, q), k);
      }
    }
  }

  lemma ProductLastBit(x: int, q: int)
    requires q % 2 == 1
    ensures Times(x, q) % 2 == x % 2
  {
    var h := q / 2;
    assert q == 2 * h + 1;
    MulDistributes(x, 2 * h, 1);
    assert x * (2 * h) == 2 * (x * h);
  }

  lemma HalfProduct(x: int, q: int)
    requires x % 2 == 0
    ensures Times(x, q) == 2 * Times(x / 2, q)
  {
    MulAssoc(2, x / 2, q);
  }

  lemma OddInjective(a: int, b: int, q: int, c: int, k: nat)
    requires q % 2 == 1
    ensures Word(Times(a, q) + c, k) == Word(Times(b, q) + c, k) <==> Word(a, k) == Word(b, k)
  {
    SameWord(Times(a, q) + c, Times(b, q) + c, k);
    MulDistributes(q, a, -b);
    assert Times(a, q) - Times(b, q) == Times(a - b, q);
    OddKernel(a - b, q, k);
    SameWord(a, b, k);
  }

  // ----- h ^ (h >> i) ^ (h >> j) -----

  function Disperse(h: int, i: nat, j: nat): int {
    Bitwise(Xor, h, Bitwise(Xor, Shr(h, i), Shr(h, j)))
  }

  lemma ShrOfXor(a: int, b: int, n: nat)
    ensures Shr(Bitwise(Xor, a, b), n) == Bitwise(Xor, Shr(a, n), Shr(b, n))
  {
    ShrShl(a, n);
    ShrShl(b, n);
    SplitAt(Xor, Shr(a, n), Word(a, n), Shr(b, n), Word(b, n), n);
    StaysBelow(Xor, Word(a, n), Word(b, n), n);
    var high, low := Bitwise(Xor, Shr(a, n), Shr(b, n)), Bitwise(Xor, Word(a, n), Word(b, n));
    ShlIsMul(high, n);
    DivModUnique(Shl(high, n) + low, Pow(2, n), high, low);
  }

  lemma DisperseOfXor(a: int, b: int, i: nat, j: nat)
    ensures Disperse(Bitwise(Xor, a, b), i, j) == Bitwise(Xor, Disperse(a, i, j), Disperse(b, i, j))
  {
    ShrOfXor(a, b, i);
    ShrOfXor(a, b, j);
    XorOfPairs(Shr(a, i), Shr(b, i), Shr(a, j), Shr(b, j));
    XorOfPairs(a, b, Bitwise(Xor, Shr(a, i), Shr(a, j)), Bitwise(Xor, Shr(b, i), Shr(b, j)));
  }

  /** The leading bit of h stays. */
  lemma DisperseKernel(h: int, i: nat, j: nat)
    requires h > 0 && i >= 1 && j >= 1
    ensures Disperse(h, i, j) != 0
  {
    var n := BitLength(h) - 1;
    BitLengthBound(h, n);
    BitLengthBound(h, n + 1);
    ShrBelow(h, i, n);
    ShrBelow(h, j, n);
    StaysBelow(Xor, Shr(h, i), Shr(h, j), n);
    XorIsZero(h, Bitwise(Xor, Shr(h, i), Shr(h, j)));
  }

  lemma ShrBelow(h: int, i: nat, n: nat)
    requires 0 <= h < Pow(2, n + 1) && i >= 1
    ensures 0 <= Shr(h, i) < Pow(2, n)
  {
    var p, q := Pow(2, i), Pow(2, n);
    DivModSpec(h, p);
    PowMonotone(2, 1, i);
    assert Pow(2, 1) == 2;
    MulMonotone(2, p, q);
    QuotientBelow(h, p, q);
    if h / p < 0 {
      MulMonotone(h / p, -1, p);
    }
  }

  lemma DisperseInjective(a: int, b: int, i: nat, j: nat, k: nat)
    requires 0 <= a < Pow(2, k) && 0 <= b < Pow(2, k) && i >= 1 && j >= 1
    ensures Disperse(a, i, j) == Disperse(b, i, j) <==> a == b
  {
    StaysBelow(Xor, a, b, k);
    DisperseOfXor(a, b, i, j);
    XorIsZero(Disperse(a, i, j), Disperse(b, i, j));
    XorIsZero(a, b);
    if a != b {
      DisperseKernel(Bitwise(Xor, a, b), i, j);
    }
  }

  lemma ShrStays(h: int, n: nat, k: nat)
    requires 0 <= h < Pow(2, k)
    ensures 0 <= Shr(h, n) < Pow(2, k)
  {
    var p := Pow(2, n);
    DivModSpec(h, p);
    MulMonotone(1, p, Pow(2, k));
    QuotientBelow(h, p, Pow(2, k));
    if h / p < 0 {
      MulMonotone(h / p, -1, p);
    }
  }

  lemma DisperseStays(h: int, i: nat, j: nat, k: nat)
    requires 0 <= h < Pow(2, k)
    ensures 0 <= Disperse(h, i, j) < Pow(2, k)
  {
    ShrStays(h, i, k);
    ShrStays(h, j, k);
    StaysBelow(Xor, Shr(h, i), Shr(h, j), k);
    StaysBelow(Xor, h, Bitwise(Xor, Shr(h, i), Shr(h, j)), k);
  }

  // ----- The whole hash -----

  lemma MixedInjective(a: int, b: int, n: nat, c: int, q: int, k: nat)
    requires n >= 1 && q % 2 == 1
    ensures Word(Times(Bitwise(Xor, Spread(a, n), c), q), k) == Word(Times(Bitwise(Xor, Spread(b, n), c), q), k)
      <==> Word(a, k) == Word(b, k)
  {
    OddInjective(Bitwise(Xor, Spread(a, n), c), Bitwise(Xor, Spread(b, n), c), q, 0, k);
    WordOfXor(Spread(a, n), c, k);
    WordOfXor(Spread(b, n), c, k);
    XorCancels(Word(Spread(a, n), k), Word(Spread(b, n), k), Word(c, k));
    SpreadInjective(a, b, n, k);
  }

  /** Two elements contribute the same exactly when their hashes are the same word. */
  lemma TermInjective(a: int, b: int, m: nat)
    ensures Masked(Term(a), m) == Masked(Term(b), m) <==> Word(a, m + 1) == Word(b, m + 1)
  {
    MaskedIsWord(Term(a), m);
    MaskedIsWord(Term(b), m);
    MixedInjective(a, b, 16, 89869747, 3644798167, m + 1);
  }

  function Signed(w: int, m: nat): int {
    if w >= Pow(2, m) then w - 2 * Pow(2, m) else w
  }

  lemma SignedInjective(v: int, w: int, m: nat)
    requires 0 <= v < Pow(2, m + 1) && 0 <= w < Pow(2, m + 1)
    ensures Signed(v, m) == Signed(w, m) <==> v == w
  {
  }

  function LastSteps(h: int, i: nat, j: nat, q: int, c: int, m: nat): int {
    Signed(Word(Times(Disperse(h, i, j), q) + c, m + 1), m)
  }

  lemma LastStepsInjective(a: int, b: int, i: nat, j: nat, q: int, c: int, m: nat)
    requires 0 <= a < Pow(2, m + 1) && 0 <= b < Pow(2, m + 1) && i >= 1 && j >= 1 && q % 2 == 1
    ensures LastSteps(a, i, j, q, c, m) == LastSteps(b, i, j, q, c, m) <==> a == b
  {
    var k := m + 1;
    OddInjective(Disperse(a, i, j), Disperse(b, i, j), q, c, k);
    DisperseStays(a, i, j, k);
    DisperseStays(b, i, j, k);
    WordOfWord(Disperse(a, i, j), k);
    WordOfWord(Disperse(b, i, j), k);
    DisperseInjective(a, b, i, j, k);
    SignedInjective(Word(Times(Disperse(a, i, j), q) + c, k), Word(Times(Disperse(b, i, j), q) + c, k), m);
  }

  /** The last word, from which -1 is still to be replaced, as a signed number */
  function LastWord(h0: int, m: nat): int {
    LastSteps(h0, 11, 25, 69069, 907133923, m)
  }

  lemma LastWordInjective(a: int, b: int, m: nat)
    requires 0 <= a < Pow(2, m + 1) && 0 <= b < Pow(2, m + 1)
    ensures LastWord(a, m) == LastWord(b, m) <==> a == b
  {
    LastStepsInjective(a, b, 11, 25, 69069, 907133923, m);
  }

  /** -1 is replaced by a number that may be the last word of another set. */
  predicate Merged(v: int, w: int) {
    (v == -1 && w == 590923713) || (v == 590923713 && w == -1)
  }

  lemma FinishIsLastWord(h0: int, m: nat)
    ensures var v := LastWord(h0, m); Finish(h0, m) == if v == -1 then 590923713 else v
  {
    MaskedIsWord(Times(Disperse(h0, 11, 25), 69069) + 907133923, m);
  }

  function BeforeFinish(hashes: seq<int>, m: nat): (h: int)
    ensures 0 <= h < Pow(2, m + 1)
  {
    XorOfTermsIsWord(hashes, m);
    MaskedIsMod(1927868237 * (|hashes| + 1), m);
    StaysBelow(Xor, Start(|hashes|, m), XorOfTerms(hashes, m), m + 1);
    Bitwise(Xor, Start(|hashes|, m), XorOfTerms(hashes, m))
  }

  lemma {:induction false} XorOfTermsIsWord(hashes: seq<int>, m: nat)
    ensures 0 <= XorOfTerms(hashes, m) < Pow(2, m + 1)
  {
    if hashes != [] {
      XorOfTermsIsWord(hashes[1..], m);
      MaskedIsMod(Term(hashes[0]), m);
      StaysBelow(Xor, Masked(Term(hashes[0]), m), XorOfTerms(hashes[1..], m), m + 1);
    }
  }

  /** Sets of the same size have the same hash exactly when their terms have the same exclusive or, or when their last
      words are the two that the replacement of -1 merges. */
  lemma SameHash(xs: seq<int>, ys: seq<int>, m: nat)
    requires |xs| == |ys|
    ensures HashOf(xs, m) == HashOf(ys, m) <==>
      || XorOfTerms(xs, m) == XorOfTerms(ys, m)
      || Merged(LastWord(BeforeFinish(xs, m), m), LastWord(BeforeFinish(ys, m), m))
  {
    var s, a, b := Start(|xs|, m), XorOfTerms(xs, m), XorOfTerms(ys, m);
    FinishIsLastWord(BeforeFinish(xs, m), m);
    FinishIsLastWord(BeforeFinish(ys, m), m);
    LastWordInjective(BeforeFinish(xs, m), BeforeFinish(ys, m), m);
    XorCommutes(s, a);
    XorCommutes(s, b);
    XorCancels(a, b, s);
  }

  /** When one element is changed, the hash changes, unless the new element hash is the same word or the last words
      are the pair that is merged. */
  lemma ChangedElement(hashes: seq<int>, j: nat, hx: int, m: nat)
    requires j < |hashes|
    ensures var changed := hashes[j := hx];
      HashOf(hashes, m) == HashOf(changed, m) <==>
        || Word(hashes[j], m + 1) == Word(hx, m + 1)
        || Merged(LastWord(BeforeFinish(hashes, m), m), LastWord(BeforeFinish(changed, m), m))
  {
    var changed := hashes[j := hx];
    var others := XorOfTerms(Without(hashes, j), m);
    SameHash(hashes, changed, m);
    assert Without(changed, j) == Without(hashes, j);
    XorTakesFirst(hashes, j, m);
    XorTakesFirst(changed, j, m);
    XorCancels(Masked(Term(hashes[j]), m), Masked(Term(hx), m), others);
    TermInjective(hashes[j], hx, m);
  }

  /** So two sets of one element each have the same hash only then. */
  lemma OneElement(a: int, b: int, m: nat)
    ensures HashOf([a], m) == HashOf([b], m) <==>
      || Word(a, m + 1) == Word(b, m + 1)
      || Merged(LastWord(BeforeFinish([a], m), m), LastWord(BeforeFinish([b], m), m))
  {
    assert [a][0 := b] == [b];
    ChangedElement([a], 0, b, m);
  }
}
