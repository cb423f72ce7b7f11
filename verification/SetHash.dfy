/** `Set._hash` and `Set.__eq__`: an order-independent hash in masked two's complement arithmetic. */
module SetHash {
  import opened Arithmetic
  import opened Bits

  // ----- Masking -----

  /** `sys.maxsize` on a machine whose words have m + 1 bits */
  function MaxSize(m: nat): int {
    Pow(2, m) - 1
  }

  function Masked(x: int, m: nat): int {
    Bitwise(And, x, 2 * MaxSize(m) + 1)
  }

  lemma MaskedIsMod(x: int, m: nat)
    ensures Masked(x, m) == x % Pow(2, m + 1) && 0 <= Masked(x, m) < Pow(2, m + 1)
  {
    MaskIsMod(x, m + 1);
    ShlIsMul(1, m + 1);
    DivModSpec(x, Pow(2, m + 1));
  }

  /** Masking after each exclusive-or is the same as masking each term before it. */
  lemma MaskedXor(h: int, t: int, m: nat)
    requires 0 <= h < Pow(2, m + 1)
    ensures Masked(Bitwise(Xor, h, t), m) == Bitwise(Xor, h, Masked(t, m))
    ensures 0 <= Bitwise(Xor, h, Masked(t, m)) < Pow(2, m + 1)
  {
    var k := m + 1;
    MaskedIsMod(t, m);
    ShrShl(t, k);
    ShlZero(k);
    SplitAt(Xor, 0, h, Shr(t, k), t % Pow(2, k), k);
    StaysBelow(Xor, h, t % Pow(2, k), k);
    var high, low := Bitwise(Xor, 0, Shr(t, k)), Bitwise(Xor, h, t % Pow(2, k));
    ShlIsMul(high, k);
    MaskedIsMod(Shl(high, k) + low, m);
    DivModUnique(Shl(high, k) + low, Pow(2, k), high, low);
  }

  // ----- The hash -----

  /** `Lib/_collections_abc.py:675`: the contribution of one element.  It is unbounded, and negative when the
      hash is. */
  function Term(hx: int): int {
    Bitwise(Xor, Bitwise(Xor, hx, Shl(hx, 16)), 89869747) * 3644798167
  }

  function Start(n: nat, m: nat): int {
    Masked(1927868237 * (n + 1), m)
  }

  function XorOfTerms(hashes: seq<int>, m: nat): int {
    if hashes == [] then 0
    else Bitwise(Xor, Masked(Term(hashes[0]), m), XorOfTerms(hashes[1..], m))
  }

  /** `Lib/_collections_abc.py:677-684` */
  function Finish(h0: int, m: nat): int {
    var h1 := Bitwise(Xor, h0, Bitwise(Xor, Shr(h0, 11), Shr(h0, 25)));
    var h2 := Masked(h1 * 69069 + 907133923, m);
    var h3 := if h2 > MaxSize(m) then h2 - (2 * MaxSize(m) + 1 + 1) else h2;
    if h3 == -1 then 590923713 else h3
  }

  /** The hash as a function of the element hashes. */
  function HashOf(hashes: seq<int>, m: nat): int {
    Finish(Bitwise(Xor, Start(|hashes|, m), XorOfTerms(hashes, m)), m)
  }

  /** `_hash`, given the hashes of the elements in the order of iteration. */
  method Hash(hashes: seq<int>, m: nat) returns (h: int)
    ensures h == HashOf(hashes, m)
  {
    var n := |hashes|;
    h := 1927868237 * (n + 1);
    h := Masked(h, m);
    HashStart(n, m);
    var i := 0;
    while i < n
      invariant 0 <= i <= n
      invariant SoFar(h, n, hashes[..i], m)
    {
      assert hashes[..i + 1] == hashes[..i] + [hashes[i]];
      h := AddHash(h, n, hashes[..i], hashes[i], m);
      i := i + 1;
    }
    assert hashes[..i] == hashes;
    h := Finish(h, m);
  }

  /** h accounts for the first elements of a set of n. */
  ghost predicate SoFar(h: int, n: nat, before: seq<int>, m: nat) {
    0 <= h < Pow(2, m + 1) && h == Bitwise(Xor, Start(n, m), XorOfTerms(before, m))
  }

  lemma HashStart(n: nat, m: nat)
    ensures SoFar(Start(n, m), n, [], m)
  {
    MaskedIsMod(1927868237 * (n + 1), m);
    Units(Start(n, m));
  }

  /** `Lib/_collections_abc.py:674-676`: the body of the loop. */
  method AddHash(h: int, n: nat, ghost before: seq<int>, hx: int, m: nat) returns (h': int)
    requires SoFar(h, n, before, m)
    ensures SoFar(h', n, before + [hx], m)
  {
    MaskedXor(h, Term(hx), m);
    XorAssociates(Start(n, m), XorOfTerms(before, m), Masked(Term(hx), m));
    XorAppend(before, hx, m);
    h' := Bitwise(Xor, h, Term(hx));
    h' := Masked(h', m);
  }

  lemma {:induction false} XorAppend(hashes: seq<int>, hx: int, m: nat)
    ensures XorOfTerms(hashes + [hx], m) == Bitwise(Xor, XorOfTerms(hashes, m), Masked(Term(hx), m))
  {
    var t := Masked(Term(hx), m);
    if hashes == [] {
      assert [hx][1..] == [];
      Units(t);
    } else {
      assert (hashes + [hx])[1..] == hashes[1..] + [hx];
      XorAppend(hashes[1..], hx, m);
      XorAssociates(Masked(Term(hashes[0]), m), XorOfTerms(hashes[1..], m), t);
    }
  }

  /** The hash is a word-sized signed integer and never -1, which C code reserves for errors. */
  lemma HashInRange(hashes: seq<int>, m: nat)
    requires m >= 30
    ensures -MaxSize(m) - 1 <= HashOf(hashes, m) <= MaxSize(m) && HashOf(hashes, m) != -1
  {
    FinishInRange(Bitwise(Xor, Start(|hashes|, m), XorOfTerms(hashes, m)), m);
  }

  lemma FinishInRange(h0: int, m: nat)
    requires m >= 30
    ensures -MaxSize(m) - 1 <= Finish(h0, m) <= MaxSize(m) && Finish(h0, m) != -1
  {
    var h1 := Bitwise(Xor, h0, Bitwise(Xor, Shr(h0, 11), Shr(h0, 25)));
    MaskedIsMod(h1 * 69069 + 907133923, m);
    WordsHoldTheSubstitute(m);
  }

  /** The value that replaces -1 is itself in range on 32-bit and on 64-bit machines. */
  lemma WordsHoldTheSubstitute(m: nat)
    requires m >= 30
    ensures MaxSize(m) >= 590923713
  {
    PowMonotone(2, 30, m);
    assert Pow(2, 30) == 1073741824 by { assert Pow(2, 10) == 1024 && Pow(2, 20) == 1048576; }
  }

  // ----- Independence of the order -----

  function Without<T>(s: seq<T>, j: nat): seq<T>
    requires j < |s|
  {
    s[..j] + s[j + 1..]
  }

  /** Any element can be taken first. */
  lemma {:induction false} XorTakesFirst(hashes: seq<int>, j: nat, m: nat)
    requires j < |hashes|
    ensures XorOfTerms(hashes, m) == Bitwise(Xor, Masked(Term(hashes[j]), m), XorOfTerms(Without(hashes, j), m))
  {
    var first, rest := hashes[0], hashes[1..];
    assert hashes == [first] + rest;
    WithoutCons(first, rest, j);
    if j == 0 {
      XorCons(first, rest, m);
    } else {
      XorTakesFirst(rest, j - 1, m);
      XorTakesLater(first, rest, rest[j - 1], Without(rest, j - 1), m);
    }
  }

  lemma WithoutCons<T>(first: T, rest: seq<T>, j: nat)
    requires j <= |rest|
    ensures Without([first] + rest, j) == if j == 0 then rest else [first] + Without(rest, j - 1)
  {
  }

  lemma XorTakesLater(first: int, rest: seq<int>, hx: int, others: seq<int>, m: nat)
    requires XorOfTerms(rest, m) == Bitwise(Xor, Masked(Term(hx), m), XorOfTerms(others, m))
    ensures XorOfTerms([first] + rest, m) == Bitwise(Xor, Masked(Term(hx), m), XorOfTerms([first] + others, m))
  {
    XorCons(first, rest, m);
    XorCons(first, others, m);
    XorSwap(Masked(Term(first), m), Masked(Term(hx), m), XorOfTerms(others, m));
  }

  lemma XorCons(hx: int, rest: seq<int>, m: nat)
    ensures XorOfTerms([hx] + rest, m) == Bitwise(Xor, Masked(Term(hx), m), XorOfTerms(rest, m))
  {
    assert ([hx] + rest)[1..] == rest;
  }

  lemma XorSwap(a: int, b: int, c: int)
    ensures Bitwise(Xor, a, Bitwise(Xor, b, c)) == Bitwise(Xor, b, Bitwise(Xor, a, c))
  {
    XorAssociates(a, b, c);
    XorAssociates(b, a, c);
    XorCommutes(a, b);
  }

  lemma {:induction false} XorOfReordered(xs: seq<int>, ys: seq<int>, m: nat)
    requires multiset(xs) == multiset(ys)
    ensures XorOfTerms(xs, m) == XorOfTerms(ys, m) && |xs| == |ys|
  {
    assert |multiset(xs)| == |xs| && |multiset(ys)| == |ys|;
    if xs != [] {
      assert xs == [xs[0]] + xs[1..];
      assert xs[0] in multiset(ys);
      var j :| 0 <= j < |ys| && ys[j] == xs[0];
      ElementsWithout(ys, j);
      assert multiset(xs) == multiset{xs[0]} + multiset(xs[1..]);
      assert multiset(xs[1..]) == multiset(xs) - multiset{xs[0]};
      assert multiset(Without(ys, j)) == multiset(ys) - multiset{xs[0]};
      XorOfReordered(xs[1..], Without(ys, j), m);
      XorTakesFirst(ys, j, m);
      XorCons(xs[0], xs[1..], m);
    }
  }

  lemma ElementsWithout(s: seq<int>, j: nat)
    requires j < |s|
    ensures multiset(s) == multiset{s[j]} + multiset(Without(s, j))
  {
    assert s == s[..j] + [s[j]] + s[j + 1..];
  }

  /** The hash is the same for every iteration order of the same elements. */
  lemma {:induction false} OrderDoesNotMatter(xs: seq<int>, ys: seq<int>, m: nat)
    requires multiset(xs) == multiset(ys)
    ensures HashOf(xs, m) == HashOf(ys, m)
  {
    XorOfReordered(xs, ys, m);
  }

  // ----- Equality of sets -----

  /** What Python asks of `__eq__` and `__hash__` of the elements. */
  ghost predicate Coherent<T(!new)>(eq: (T, T) -> bool, hash: T -> int) {
    && (forall x :: eq(x, x))
    && (forall x, y :: eq(x, y) ==> eq(y, x))
    && (forall x, y, z :: eq(x, y) && eq(y, z) ==> eq(x, z))
    && (forall x, y :: eq(x, y) ==> hash(x) == hash(y))
  }

  /** What iterating over a set yields: no two equal elements. */
  ghost predicate Distinct<T(!new)>(s: seq<T>, eq: (T, T) -> bool) {
    forall i, j :: 0 <= i < j < |s| ==> !eq(s[i], s[j])
  }

  /** `x in s` */
  predicate Contains<T>(s: seq<T>, x: T, eq: (T, T) -> bool) {
    exists i :: 0 <= i < |s| && eq(x, s[i])
  }

  ghost predicate Included<T(!new)>(a: seq<T>, b: seq<T>, eq: (T, T) -> bool) {
    forall i :: 0 <= i < |a| ==> Contains(b, a[i], eq)
  }

  /** `Set.__le__` */
  method LessEqual<T(!new)>(a: seq<T>, b: seq<T>, eq: (T, T) -> bool) returns (r: bool)
    ensures r <==> |a| <= |b| && Included(a, b, eq)
  {
    if |a| > |b| {
      return false;
    }
    for i := 0 to |a|
      invariant forall j :: 0 <= j < i ==> Contains(b, a[j], eq)
    {
      if !Contains(b, a[i], eq) {
        return false;
      }
    }
    return true;
  }

  /** `Set.__eq__` */
  method Equal<T(!new)>(a: seq<T>, b: seq<T>, eq: (T, T) -> bool) returns (r: bool)
    ensures r <==> |a| == |b| && Included(a, b, eq)
  {
    if |a| != |b| {
      return false;
    }
    r := LessEqual(a, b, eq);
  }

  function HashesOf<T>(s: seq<T>, hash: T -> int): (r: seq<int>)
    ensures |r| == |s| && forall i :: 0 <= i < |s| ==> r[i] == hash(s[i])
  {
    seq(|s|, i requires 0 <= i < |s| => hash(s[i]))
  }

  /** Unequal elements do not equal the same third. */
  lemma OnlyOneMatch<T(!new)>(x: T, y: T, z: T, eq: (T, T) -> bool, hash: T -> int)
    requires Coherent(eq, hash) && !eq(x, y) && eq(x, z)
    ensures !eq(y, z)
  {
    assert eq(y, z) ==> eq(z, y);
  }

  lemma MatchedRest<T(!new)>(a: seq<T>, b: seq<T>, j: nat, eq: (T, T) -> bool, hash: T -> int)
    requires Coherent(eq, hash) && Distinct(a, eq) && Included(a, b, eq)
    requires a != [] && j < |b| && eq(a[0], b[j])
    ensures Distinct(a[1..], eq) && Included(a[1..], Without(b, j), eq)
  {
    forall i | 0 <= i < |a[1..]|
      ensures Contains(Without(b, j), a[1..][i], eq)
    {
      var x := a[i + 1];
      assert Contains(b, x, eq);
      var k :| 0 <= k < |b| && eq(x, b[k]);
      OnlyOneMatch(a[0], x, b[j], eq, hash);
      var k' := if k < j then k else k - 1;
      assert Without(b, j)[k'] == b[k];
    }
  }

  /** Two sets that compare equal have equal hashes, in whatever orders they yield their elements. */
  lemma {:induction false} EqualTerms<T(!new)>(a: seq<T>, b: seq<T>, eq: (T, T) -> bool, hash: T -> int, m: nat)
    requires Coherent(eq, hash) && Distinct(a, eq) && |a| == |b| && Included(a, b, eq)
    ensures XorOfTerms(HashesOf(a, hash), m) == XorOfTerms(HashesOf(b, hash), m)
  {
    if a != [] {
      assert Contains(b, a[0], eq);
      var j :| 0 <= j < |b| && eq(a[0], b[j]);
      MatchedRest(a, b, j, eq, hash);
      EqualTerms(a[1..], Without(b, j), eq, hash, m);
      assert hash(a[0]) == hash(b[j]);
      TermsWithout(a, 0, hash, m);
      TermsWithout(b, j, hash, m);
      assert Without(a, 0) == a[1..];
    }
  }

  lemma TermsWithout<T>(s: seq<T>, j: nat, hash: T -> int, m: nat)
    requires j < |s|
    ensures XorOfTerms(HashesOf(s, hash), m) ==
      Bitwise(Xor, Masked(Term(hash(s[j])), m), XorOfTerms(HashesOf(Without(s, j), hash), m))
  {
    XorTakesFirst(HashesOf(s, hash), j, m);
    HashesWithout(s, j, hash);
  }

  lemma HashesWithout<T>(s: seq<T>, j: nat, hash: T -> int)
    requires j < |s|
    ensures Without(HashesOf(s, hash), j) == HashesOf(Without(s, j), hash)
  {
  }

  lemma {:induction false} HashCompatibleWithEquality<T(!new)>(a: seq<T>, b: seq<T>, eq: (T, T) -> bool, hash: T -> int,
      m: nat)
    requires Coherent(eq, hash) && Distinct(a, eq) && |a| == |b| && Included(a, b, eq)
    ensures HashOf(HashesOf(a, hash), m) == HashOf(HashesOf(b, hash), m)
  {
    EqualTerms(a, b, eq, hash, m);
  }

  /** Set equality is symmetric: a one-way inclusion between sets of the same size goes both ways. */
  lemma {:induction false} EqualityIsSymmetric<T(!new)>(a: seq<T>, b: seq<T>, eq: (T, T) -> bool, hash: T -> int)
    requires Coherent(eq, hash) && Distinct(a, eq) && |a| == |b| && Included(a, b, eq)
    ensures Included(b, a, eq)
  {
    if a != [] {
      assert Contains(b, a[0], eq);
      var j :| 0 <= j < |b| && eq(a[0], b[j]);
      MatchedRest(a, b, j, eq, hash);
      var b' := Without(b, j);
      EqualityIsSymmetric(a[1..], b', eq, hash);
      forall k | 0 <= k < |b|
        ensures Contains(a, b[k], eq)
      {
        if k == j {
          assert eq(b[k], a[0]);
        } else {
          var k' := if k < j then k else k - 1;
          assert b'[k'] == b[k] && Contains(a[1..], b'[k'], eq);
          var i :| 0 <= i < |a[1..]| && eq(b[k], a[1..][i]);
          assert a[1..][i] == a[i + 1];
        }
      }
    }
  }
}
