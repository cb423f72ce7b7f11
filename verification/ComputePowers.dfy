/** `compute_powers`: predict the powers that a halving recursion will look up, and compute just those. */
module Powers {
  import opened Arithmetic

  // ----- What is multiplied -----

  /** The base may be an `int` or a `Decimal`: any type with an associative multiplication and a unit. */
  datatype Multiplication<!T> = Multiplication(one: T, mul: (T, T) -> T)

  ghost predicate Lawful<T(!new)>(m: Multiplication<T>) {
    && (forall x :: m.mul(m.one, x) == x && m.mul(x, m.one) == x)
    && (forall x, y, z :: m.mul(m.mul(x, y), z) == m.mul(x, m.mul(y, z)))
  }

  /** `base ** n` */
  function Power<T>(m: Multiplication<T>, base: T, n: nat): T {
    if n == 0 then m.one else m.mul(base, Power(m, base, n - 1))
  }

  lemma {:induction false} PowerAdds<T(!new)>(m: Multiplication<T>, base: T, i: nat, j: nat)
    requires Lawful(m)
    ensures Power(m, base, i + j) == m.mul(Power(m, base, i), Power(m, base, j))
  {
    if i > 0 {
      PowerAdds(m, base, i - 1, j);
    }
  }

  // ----- What the halving recursion looks up -----

  /** The part of w whose power is looked up: the ceiling half if needHi, else the floor half. */
  function Half(w: nat, needHi: bool): nat {
    if needHi then w - w / 2 else w / 2
  }

  /** The sizes above the limit that the halving recursion started at w visits.  Size 1, met only when the
      limit is 0, splits into 0 and itself. */
  ghost function Sizes(w: nat, limit: nat): set<nat> {
    if w <= limit then {}
    else if w == 1 then {1}
    else {w} + Sizes(w / 2, limit) + Sizes(w - w / 2, limit)
  }

  /** The exponents the recursion looks up. */
  ghost function Lookups(w: nat, limit: nat, needHi: bool): set<nat> {
    Halves(Sizes(w, limit), needHi)
  }

  ghost function Halves(sizes: set<nat>, needHi: bool): set<nat> {
    set v | v in sizes :: Half(v, needHi)
  }

  /** Both halves of v, as far as they exceed the limit, are among the given sizes. */
  ghost predicate HalvesIn(v: nat, sizes: set<nat>, limit: nat) {
    (v / 2 > limit ==> v / 2 in sizes) && (v - v / 2 > limit ==> v - v / 2 in sizes)
  }

  ghost predicate Closed(sizes: set<nat>, limit: nat) {
    forall v {:trigger HalvesIn(v, sizes, limit)} :: v in sizes ==> HalvesIn(v, sizes, limit)
  }

  lemma {:induction false} SizesInRange(w: nat, limit: nat)
    ensures w > limit ==> w in Sizes(w, limit)
    ensures forall v :: v in Sizes(w, limit) ==> limit < v <= w
  {
    if w > limit && w > 1 {
      SizesInRange(w / 2, limit);
      SizesInRange(w - w / 2, limit);
    }
  }

  /** Sizes(w) is closed ... */
  lemma {:induction false} SizesIsClosed(w: nat, limit: nat)
    ensures Closed(Sizes(w, limit), limit)
  {
    if w > limit && w > 1 {
      var lo, hi := Sizes(w / 2, limit), Sizes(w - w / 2, limit);
      SizesIsClosed(w / 2, limit);
      SizesIsClosed(w - w / 2, limit);
      SizesInRange(w / 2, limit);
      SizesInRange(w - w / 2, limit);
      ClosedJoin(w, lo, hi, limit);
    }
  }

  lemma ClosedJoin(w: nat, lo: set<nat>, hi: set<nat>, limit: nat)
    requires Closed(lo, limit) && Closed(hi, limit) && HalvesIn(w, lo + hi, limit)
    ensures Closed({w} + lo + hi, limit)
  {
    forall v | v in {w} + lo + hi
      ensures HalvesIn(v, {w} + lo + hi, limit)
    {
      if v in lo {
        assert HalvesIn(v, lo, limit);
      } else if v in hi {
        assert HalvesIn(v, hi, limit);
      }
    }
  }

  /** ... and the least closed set that holds w: what the recursion reaches, and no more. */
  lemma {:induction false} SizesIsLeast(w: nat, limit: nat, s: set<nat>)
    requires Closed(s, limit) && (w > limit ==> w in s)
    ensures Sizes(w, limit) <= s
  {
    if w > limit && w > 1 {
      assert HalvesIn(w, s, limit);
      SizesIsLeast(w / 2, limit, s);
      SizesIsLeast(w - w / 2, limit, s);
    }
  }

  /** The recursion finds, at each size above the limit, the keys it needs for both halves. */
  lemma LookupsOfHalves(w: nat, limit: nat, needHi: bool)
    requires w > limit >= 1
    ensures Half(w, needHi) in Lookups(w, limit, needHi)
    ensures Lookups(w / 2, limit, needHi) <= Lookups(w, limit, needHi)
    ensures Lookups(w - w / 2, limit, needHi) <= Lookups(w, limit, needHi)
  {
    assert w in Sizes(w, limit);
  }

  /** A recursion of size w finds all its keys: the one for this size, and those for both halves. */
  predicate Finds(keys: set<nat>, w: nat, limit: nat, needHi: bool) {
    w <= limit || w <= 1
    || (Half(w, needHi) in keys && Finds(keys, w / 2, limit, needHi) && Finds(keys, w - w / 2, limit, needHi))
  }

  /** The keys are exactly what the recursion needs: it finds all its keys in a set if and only if they are all in the
      set. */
  lemma {:induction false} LookupsAreNeeded(keys: set<nat>, w: nat, limit: nat, needHi: bool)
    requires limit >= 1
    ensures Finds(keys, w, limit, needHi) <==> Lookups(w, limit, needHi) <= keys
  {
    if w > limit {
      LookupsAreNeeded(keys, w / 2, limit, needHi);
      LookupsAreNeeded(keys, w - w / 2, limit, needHi);
      LookupsOfHalves(w, limit, needHi);
      LookupsSplit(w, limit, needHi);
    }
  }

  lemma LookupsSplit(w: nat, limit: nat, needHi: bool)
    requires w > limit >= 1
    ensures Lookups(w, limit, needHi) <=
      {Half(w, needHi)} + Lookups(w / 2, limit, needHi) + Lookups(w - w / 2, limit, needHi)
  {
  }

  /** A table from which the recursion at size w can be served: it has every key that will be looked up, and
      its values are the powers. */
  ghost predicate Serves<T(!new)>(d: map<nat, T>, m: Multiplication<T>, base: T, w: nat, limit: nat, needHi: bool) {
    Lookups(w, limit, needHi) <= d.Keys && Correct(m, base, d)
  }

  ghost predicate Correct<T(!new)>(m: Multiplication<T>, base: T, d: map<nat, T>) {
    forall n :: n in d ==> d[n] == Power(m, base, n)
  }

  /** One step of the recursion: the power it needs is there, and the table serves both halves. */
  lemma ServesHalves<T(!new)>(d: map<nat, T>, m: Multiplication<T>, base: T, w: nat, limit: nat, needHi: bool)
    requires Serves(d, m, base, w, limit, needHi) && w > limit >= 1
    ensures Half(w, needHi) in d && d[Half(w, needHi)] == Power(m, base, Half(w, needHi))
    ensures Serves(d, m, base, w / 2, limit, needHi) && Serves(d, m, base, w - w / 2, limit, needHi)
  {
    LookupsOfHalves(w, limit, needHi);
  }

  // ----- The worklist has O(log w) members -----

  /** w halved i times. */
  function Level(w: nat, i: nat): nat {
    if i == 0 then w else Level(w, i - 1) / 2
  }

  lemma {:induction false} LevelIsFloor(w: nat, i: nat)
    ensures Level(w, i) == w / Pow(2, i)
  {
    if i > 0 {
      LevelIsFloor(w, i - 1);
      DivByDouble(w, Pow(2, i - 1));
    }
  }

  lemma {:induction false} LevelBits(w: nat, i: nat)
    ensures BitLength(Level(w, i)) == if i <= BitLength(w) then BitLength(w) - i else 0
  {
    if i > 0 {
      LevelBits(w, i - 1);
    }
  }

  /** floor(w/2^i) and the number above it, for each i below k. */
  ghost function Levels(w: nat, k: nat): set<nat> {
    if k == 0 then {} else Levels(w, k - 1) + {Level(w, k - 1), Level(w, k - 1) + 1}
  }

  lemma {:induction false} LevelsSize(w: nat, k: nat)
    ensures |Levels(w, k)| <= 2 * k
  {
    if k > 0 {
      LevelsSize(w, k - 1);
      var x := Level(w, k - 1);
      assert |Levels(w, k - 1) + {x, x + 1}| <= |Levels(w, k - 1)| + |{x, x + 1}|;
    }
  }

  lemma {:induction false} LevelsMembers(w: nat, k: nat, i: nat)
    requires i < k
    ensures Level(w, i) in Levels(w, k) && Level(w, i) + 1 in Levels(w, k)
  {
    if i < k - 1 {
      LevelsMembers(w, k - 1, i);
    }
  }

  ghost predicate IsLevel(top: nat, i: nat, v: nat) {
    v == Level(top, i) || v == Level(top, i) + 1
  }

  ghost predicate HoldsLevels(top: nat, all: set<nat>) {
    forall i: nat, v: nat {:trigger IsLevel(top, i, v)} :: IsLevel(top, i, v) && v >= 1 ==> v in all
  }

  /** The worklist sees only floor(w/2^i) and the number above it: either half of either one is again such. */
  lemma {:induction false} SizesInLevels(top: nat, i: nat, w: nat, limit: nat, all: set<nat>)
    requires IsLevel(top, i, w) && HoldsLevels(top, all)
    ensures Sizes(w, limit) <= all
    decreases w
  {
    if w > limit && w > 1 {
      NextLevel(top, i, w);
      SizesInLevels(top, i + 1, w / 2, limit, all);
      SizesInLevels(top, i + 1, w - w / 2, limit, all);
      UnionWithin(w, Sizes(w / 2, limit), Sizes(w - w / 2, limit), all);
    }
  }

  lemma NextLevel(top: nat, i: nat, w: nat)
    requires IsLevel(top, i, w)
    ensures IsLevel(top, i + 1, w / 2) && IsLevel(top, i + 1, w - w / 2)
  {
  }

  lemma UnionWithin(w: nat, lo: set<nat>, hi: set<nat>, all: set<nat>)
    requires w in all && lo <= all && hi <= all
    ensures {w} + lo + hi <= all
  {
  }

  lemma VisitedIsALevel(top: nat, i: nat, w: nat)
    requires top >= 1 && w >= 1 && IsLevel(top, i, w)
    ensures w in Levels(top, BitLength(top))
  {
    var n := BitLength(top);
    LevelBits(top, i);
    if i < n {
      LevelsMembers(top, n, i);
    } else {
      LevelBits(top, n - 1);
      LevelsMembers(top, n, n - 1);
    }
  }

  /** The worklist handles O(log w) sizes: at most two for each bit of w. */
  lemma SizesAreFew(w: nat, limit: nat)
    ensures |Sizes(w, limit)| <= 2 * BitLength(w)
  {
    if w >= 1 {
      forall i: nat, v: nat | IsLevel(w, i, v) && v >= 1
        ensures v in Levels(w, BitLength(w))
      {
        VisitedIsALevel(w, i, v);
      }
      SizesInLevels(w, 0, w, limit, Levels(w, BitLength(w)));
      LevelsSize(w, BitLength(w));
      SubsetIsNoLarger(Sizes(w, limit), Levels(w, BitLength(w)));
    }
  }

  lemma {:induction false} SubsetIsNoLarger<T>(s: set<T>, t: set<T>)
    requires s <= t
    ensures |s| <= |t|
  {
    if s != {} {
      var x :| x in s;
      SubsetIsNoLarger(s - {x}, t - {x});
    }
  }

  // ----- Extremes of finite sets -----

  predicate IsMin(x: nat, s: set<nat>) {
    x in s && forall y :: y in s ==> x <= y
  }

  predicate IsMax(x: nat, s: set<nat>) {
    x in s && forall y :: y in s ==> y <= x
  }

  lemma {:induction false} MinOf(s: set<nat>) returns (x: nat)
    requires s != {}
    ensures IsMin(x, s)
  {
    x :| x in s;
    if s != {x} {
      var lo := MinOf(s - {x});
      assert forall y :: y in s ==> y == x || y in s - {x};
      x := if lo < x then lo else x;
    }
  }

  lemma {:induction false} MaxOf(s: set<nat>) returns (x: nat)
    requires s != {}
    ensures IsMax(x, s)
  {
    x :| x in s;
    if s != {x} {
      var hi := MaxOf(s - {x});
      assert forall y :: y in s ==> y == x || y in s - {x};
      x := if hi > x then hi else x;
    }
  }

  // ----- The three phases of compute_powers -----

  /** Every exponent above the limit's double can be got from a smaller one. */
  ghost predicate Linked(n: nat, all: set<nat>, limit: nat) {
    n / 2 > limit ==> (n - 1 in all || n / 2 in all)
  }

  /** How a power was obtained: from a smaller power, or by the general `base ** n`. */
  datatype Step = TimesBase | Square | SquareTimesBase | General

  /** The chain of multiplications starts from general powers with small exponents only. */
  ghost predicate Explained(steps: map<nat, Step>, limit: nat) {
    forall n :: n in steps ==> ExplainedBy(n, steps[n], steps.Keys, limit)
  }

  ghost predicate ExplainedBy(n: nat, step: Step, known: set<nat>, limit: nat) {
    && (step.TimesBase? ==> n >= 1 && n - 1 in known)
    && (step.Square? ==> n >= 1 && n / 2 in known && n % 2 == 0)
    && (step.SquareTimesBase? ==> n >= 1 && n / 2 in known && n % 2 == 1)
    && (step.General? ==> n / 2 <= limit)
  }

  /** The halves of every size seen so far are themselves seen or still to be visited. */
  ghost predicate Covered(seen: set<nat>, reached: set<nat>, limit: nat) {
    forall v {:trigger HalvesIn(v, reached, limit)} :: v in seen ==> HalvesIn(v, reached, limit)
  }

  lemma CoveredStill(seen: set<nat>, reached: set<nat>, reached': set<nat>, limit: nat)
    requires Covered(seen, reached, limit)
    requires forall x :: x in reached && x > limit ==> x in reached'
    ensures Covered(seen, reached', limit)
  {
    forall v | v in seen
      ensures HalvesIn(v, reached', limit)
    {
      assert HalvesIn(v, reached, limit);
    }
  }

  lemma CoveredMore(seen: set<nat>, w: nat, reached: set<nat>, limit: nat)
    requires Covered(seen, reached, limit) && HalvesIn(w, reached, limit)
    ensures Covered(seen + {w}, reached, limit)
  {
  }

  ghost predicate AllVisited(ws: set<nat>, sizes: set<nat>, limit: nat) {
    forall x :: x in ws && x > limit ==> x in sizes
  }

  /** `Lib/_pylong.py:58-73`: the worklist.  Which size is popped next does not matter. */
  method FindNeeded(w0: nat, limit: nat, needHi: bool) returns (need: set<nat>)
    ensures need == Lookups(w0, limit, needHi)
  {
    ghost var sizes := Sizes(w0, limit);
    SizesIsClosed(w0, limit);
    SizesInRange(w0, limit);
    var seen: set<nat>, ws: set<nat> := {}, {w0};
    need := {};
    while ws != {}
      invariant seen <= sizes && AllVisited(ws, sizes, limit)
      invariant need == Halves(seen, needHi)
      invariant w0 > limit ==> w0 in seen + ws
      invariant Covered(seen, seen + ws, limit)
      decreases sizes - seen, ws
    {
      ghost var reached, seen0 := seen + ws, seen;
      var w :| w in ws;
      ws := ws - {w};
      if w in seen || w <= limit {
        CoveredStill(seen, reached, seen + ws, limit);
        continue;
      }
      assert HalvesIn(w, sizes, limit);
      assert Halves(seen + {w}, needHi) == Halves(seen, needHi) + {Half(w, needHi)};
      seen := seen + {w};
      var lo := w / 2;
      var hi := w - lo;
      var which := if needHi then hi else lo;
      need := need + {which};
      ws := ws + {which};
      if lo != hi {
        ws := ws + {w - which};
      }
      assert lo in ws && hi in ws;
      CoveredStill(seen0, reached, seen + ws, limit);
      CoveredMore(seen0, w, seen + ws, limit);
    }
    assert seen + ws == seen;
    SizesIsLeast(w0, limit, seen);
  }

  /** All members from top on are linked. */
  ghost predicate LinkedFrom(top: nat, all: set<nat>, limit: nat) {
    forall n {:trigger Linked(n, all, limit)} :: n in all && n >= top ==> Linked(n, all, limit)
  }

  lemma LinkedFromNext(top: nat, w: nat, all: set<nat>, all': set<nat>, limit: nat)
    requires LinkedFrom(top, all, limit) && w <= top && Linked(w, all', limit)
    requires all <= all'
    requires forall n :: n in all' && n >= w ==> n == w || (n in all && n >= top)
    ensures LinkedFrom(w, all', limit)
  {
    forall n | n in all' && n >= w
      ensures Linked(n, all', limit)
    {
      assert n == w || Linked(n, all, limit);
    }
  }

  ghost predicate FloorIn(n: nat, need: set<nat>, limit: nat) {
    n / 2 > limit ==> n / 2 in need
  }

  ghost predicate ClosedUnderFloor(need: set<nat>, limit: nat) {
    forall n {:trigger FloorIn(n, need, limit)} :: n in need ==> FloorIn(n, need, limit)
  }

  /** `Lib/_pylong.py:88-97`: add exponents until each is one step away from a smaller one. */
  method AddExtras(need: set<nat>, limit: nat, needHi: bool) returns (extra: set<nat>)
    requires !needHi ==> ClosedUnderFloor(need, limit)
    ensures LinkedFrom(0, need + extra, limit)
    ensures needHi || extra == {}
  {
    var cands := need;
    extra := {};
    ghost var top := 0;
    if need != {} {
      ghost var m := MaxOf(need);
      top := m + 1;
    }
    while cands != {}
      invariant cands == Below(top, need + extra)
      invariant LinkedFrom(top, need + extra, limit)
      invariant needHi || extra == {}
      decreases top
    {
      ghost var all, top0, cands0 := need + extra, top, cands;
      ghost var max := MaxOf(cands);
      var w :| w in cands && IsMax(w, cands);
      assert FloorIn(w, need, limit) || w in extra || needHi;
      cands := cands - {w};
      var lo := w / 2;
      if lo > limit && w - 1 !in cands && lo !in cands {
        extra := extra + {lo};
        cands := cands + {lo};
      }
      top := w;
      forall n | n in need + extra && n >= w
        ensures n == w || (n in all && n >= top0)
      {
        if n in all && n < top0 {
          assert n in cands0 && IsMax(w, cands0);
        }
      }
      LinkedFromNext(top0, w, all, need + extra, limit);
    }
    assert needHi || extra == {};
    assert Below(top, need + extra) == {};
  }

  ghost function Below(top: nat, s: set<nat>): set<nat> {
    set x | x in s && x < top
  }

  /** One power from those of smaller exponents, `Lib/_pylong.py:101-124`. */
  method NextPower<T(!new)>(m: Multiplication<T>, base: T, d: map<nat, T>, n: nat, limit: nat)
      returns (result: T, ghost step: Step)
    requires Lawful(m) && Correct(m, base, d) && Linked(n, d.Keys, limit) && n !in d
    ensures result == Power(m, base, n)
    ensures ExplainedBy(n, step, d.Keys, limit)
  {
    var lo := n / 2;
    var hi := n - lo;
    if n >= 1 && n - 1 in d {
      result, step := m.mul(d[n - 1], base), TimesBase;
      PowerAdds(m, base, n - 1, 1);
    } else if lo in d {
      assert n != 0;
      result, step := m.mul(d[lo], d[lo]), Square;
      PowerAdds(m, base, lo, lo);
      if hi != lo {
        assert 2 * lo + 1 == n;
        result, step := m.mul(result, base), SquareTimesBase;
        PowerAdds(m, base, 2 * lo, 1);
      }
    } else {
      assert n / 2 <= limit;
      result, step := Power(m, base, n), General;
    }
  }

  lemma ExplainedMore(steps: map<nat, Step>, n: nat, step: Step, limit: nat)
    requires Explained(steps, limit) && ExplainedBy(n, step, steps.Keys, limit) && n !in steps
    ensures Explained(steps[n := step], limit)
  {
    var steps' := steps[n := step];
    forall k | k in steps'
      ensures ExplainedBy(k, steps'[k], steps'.Keys, limit)
    {
      assert k == n || ExplainedBy(k, steps[k], steps.Keys, limit);
    }
  }

  /** Every member of rest is above every member of done. */
  ghost predicate AllAbove(done: set<nat>, rest: set<nat>) {
    forall n, k :: n in rest && k in done ==> k < n
  }

  lemma SmallestIsNext(all: set<nat>, rest: set<nat>, n: nat)
    requires rest <= all && AllAbove(all - rest, rest) && IsMin(n, rest)
    ensures AllAbove(all - (rest - {n}), rest - {n})
    ensures forall k :: k in all && k < n ==> k in all - rest
  {
    forall j, k | j in rest - {n} && k in all - (rest - {n})
      ensures k < j
    {
      assert k == n || k in all - rest;
    }
  }

  /** The loop of `Lib/_pylong.py:99-124` over the sorted exponents. */
  method BuildPowers<T(!new)>(m: Multiplication<T>, base: T, all: set<nat>, limit: nat)
      returns (d: map<nat, T>, ghost steps: map<nat, Step>)
    requires Lawful(m) && LinkedFrom(0, all, limit)
    ensures d.Keys == steps.Keys == all
    ensures Correct(m, base, d) && Explained(steps, limit)
  {
    d, steps := map[], map[];
    var rest := all;
    while rest != {}
      invariant rest <= all && d.Keys == steps.Keys == all - rest
      invariant AllAbove(all - rest, rest)
      invariant Correct(m, base, d) && Explained(steps, limit)
    {
      ghost var min := MinOf(rest);
      var n :| n in rest && IsMin(n, rest);
      assert Linked(n, all, limit);
      SmallestIsNext(all, rest, n);
      var result, step := NextPower(m, base, d, n, limit);
      rest := rest - {n};
      ExplainedMore(steps, n, step, limit);
      d, steps := d[n := result], steps[n := step];
    }
  }

  lemma FloorLookupsAreClosed(w: nat, limit: nat)
    ensures ClosedUnderFloor(Lookups(w, limit, false), limit)
  {
    var sizes := Sizes(w, limit);
    SizesIsClosed(w, limit);
    forall n | n in Lookups(w, limit, false)
      ensures FloorIn(n, Lookups(w, limit, false), limit)
    {
      var v :| v in sizes && Half(v, false) == n;
      assert HalvesIn(v, sizes, limit);
      if n / 2 > limit {
        assert n in sizes && Half(n, false) == n / 2;
      }
    }
  }

  /** The keys are exactly what the recursion looks up, each with its power of the base. */
  method ComputePowers<T(!new)>(m: Multiplication<T>, w: nat, base: T, limit: nat, needHi: bool)
      returns (d: map<nat, T>, ghost steps: map<nat, Step>)
    requires Lawful(m)
    ensures d.Keys == Lookups(w, limit, needHi)
    ensures Correct(m, base, d)
    ensures d.Keys <= steps.Keys && Explained(steps, limit)
    ensures needHi || d.Keys == steps.Keys
  {
    var need := FindNeeded(w, limit, needHi);
    if !needHi {
      FloorLookupsAreClosed(w, limit);
    }
    var extra := AddExtras(need, limit, needHi);
    d, steps := BuildPowers(m, base, need + extra, limit);
    ghost var all := d;
    assert need <= d.Keys;
    var excess := d.Keys - need;
    if excess != {} {
      assert needHi;
      d := DropKeys(d, excess);
    }
    CorrectOnFewer(m, base, all, d);
  }

  lemma CorrectOnFewer<T(!new)>(m: Multiplication<T>, base: T, all: map<nat, T>, d: map<nat, T>)
    requires Correct(m, base, all)
    requires forall k :: k in d ==> k in all && d[k] == all[k]
    ensures Correct(m, base, d)
  {
  }

  /** `Lib/_pylong.py:129-130` */
  method DropKeys<T>(all: map<nat, T>, excess: set<nat>) returns (d: map<nat, T>)
    ensures d.Keys == all.Keys - excess
    ensures forall k :: k in d ==> d[k] == all[k]
  {
    d := all;
    var rest := excess;
    while rest != {}
      invariant rest <= excess
      invariant d.Keys == all.Keys - (excess - rest)
      invariant forall k :: k in d ==> d[k] == all[k]
    {
      var n :| n in rest;
      d, rest := d - {n}, rest - {n};
    }
  }
}

/** The two multiplications that compute_powers is used with. */
module Numbers {
  import opened Arithmetic
  import opened Powers

  const INTS: Multiplication<int> := Multiplication(1, (x, y) => x * y)
  const REALS: Multiplication<real> := Multiplication(1.0, (x, y) => x * y)

  lemma {:induction false} IntPower(b: int, n: nat)
    ensures Power(INTS, b, n) == Pow(b, n)
  {
    if n > 0 {
      IntPower(b, n - 1);
    }
  }

  lemma NumbersAreLawful()
    ensures Lawful(INTS) && Lawful(REALS)
  {
    forall x: int, y: int, z: int
      ensures INTS.mul(INTS.mul(x, y), z) == INTS.mul(x, INTS.mul(y, z))
    {
      assert (x * y) * z == x * (y * z);
    }
    forall x: real, y: real, z: real
      ensures REALS.mul(REALS.mul(x, y), z) == REALS.mul(x, REALS.mul(y, z))
    {
      assert (x * y) * z == x * (y * z);
    }
  }
}
