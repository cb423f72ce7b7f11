/** The caches of abstract base classes, `_py_abc.py`, against plain reachability through method resolution
    orders, registries and direct subclasses. */
module AbcGraph {

  /** A class, by its identity. */
  type Id = nat

  /** What a query depends on: every class with its MRO and its direct subclasses, and the registry that the
      classes whose metaclass is `ABCMeta` have. */
  datatype Graph = Graph(mro: map<Id, set<Id>>, subclasses: map<Id, set<Id>>, registry: map<Id, set<Id>>)

  function Mro(g: Graph, c: Id): set<Id> {
    if c in g.mro then g.mro[c] else {}
  }

  /** The classes that a query about c goes on to: none for a class that is not an ABC. */
  function Next(g: Graph, c: Id): set<Id> {
    if c in g.registry && c in g.subclasses then g.registry[c] + g.subclasses[c] else {}
  }

  ghost predicate IsPath(g: Graph, p: seq<Id>) {
    p != [] && (|p| > 1 ==> p[1] in Next(g, p[0]) && IsPath(g, p[1..]))
  }

  ghost predicate PathBetween(g: Graph, p: seq<Id>, x: Id, y: Id) {
    IsPath(g, p) && p[0] == x && p[|p| - 1] == y
  }

  ghost predicate Reaches(g: Graph, x: Id, y: Id) {
    exists p :: PathBetween(g, p, x, y)
  }

  /** What `issubclass(d, c)` means: c reaches a class in the MRO of d. */
  ghost predicate Covers(g: Graph, c: Id, d: Id) {
    exists x :: x in Mro(g, d) && Reaches(g, c, x)
  }

  // ----- Paths -----

  lemma ReachesSelf(g: Graph, x: Id)
    ensures Reaches(g, x, x)
  {
    assert PathBetween(g, [x], x, x);
  }

  lemma ReachesFrom(g: Graph, x: Id, y: Id, z: Id)
    requires y in Next(g, x) && Reaches(g, y, z)
    ensures Reaches(g, x, z)
  {
    var p :| PathBetween(g, p, y, z);
    assert ([x] + p)[1..] == p;
    assert PathBetween(g, [x] + p, x, z);
  }

  lemma ReachesSplit(g: Graph, x: Id, z: Id) returns (y: Id)
    requires Reaches(g, x, z) && x != z
    ensures y in Next(g, x) && Reaches(g, y, z)
  {
    var p :| PathBetween(g, p, x, z);
    y := p[1];
    assert PathBetween(g, p[1..], y, z);
  }

  lemma {:induction false} ReachesAlong(g: Graph, p: seq<Id>, y: Id, z: Id)
    requires IsPath(g, p) && p[|p| - 1] == y && Reaches(g, y, z)
    ensures Reaches(g, p[0], z)
  {
    if |p| > 1 {
      ReachesAlong(g, p[1..], y, z);
      ReachesFrom(g, p[0], p[1], z);
    }
  }

  lemma ReachesTransitive(g: Graph, x: Id, y: Id, z: Id)
    requires Reaches(g, x, y) && Reaches(g, y, z)
    ensures Reaches(g, x, z)
  {
    var p :| PathBetween(g, p, x, y);
    ReachesAlong(g, p, y, z);
  }

  lemma CoversItself(g: Graph, c: Id, d: Id)
    requires c in Mro(g, d)
    ensures Covers(g, c, d)
  {
    ReachesSelf(g, c);
  }

  lemma CoversFrom(g: Graph, c: Id, x: Id, d: Id)
    requires x in Next(g, c) && Covers(g, x, d)
    ensures Covers(g, c, d)
  {
    var y :| y in Mro(g, d) && Reaches(g, x, y);
    ReachesFrom(g, c, x, y);
  }

  lemma ReachesCovers(g: Graph, c: Id, x: Id, d: Id)
    requires Reaches(g, c, x) && Covers(g, x, d)
    ensures Covers(g, c, d)
  {
    var y :| y in Mro(g, d) && Reaches(g, x, y);
    ReachesTransitive(g, c, x, y);
  }

  /** The search that `__subclasscheck__` makes, one level deep, decides reachability. */
  lemma CoversUnfolds(g: Graph, c: Id, d: Id)
    ensures Covers(g, c, d) <==> c in Mro(g, d) || exists x :: x in Next(g, c) && Covers(g, x, d)
  {
    if Covers(g, c, d) {
      var y :| y in Mro(g, d) && Reaches(g, c, y);
      if y != c {
        var x := ReachesSplit(g, c, y);
        assert Covers(g, x, d);
      }
    }
    if c in Mro(g, d) {
      CoversItself(g, c, d);
    }
    forall x | x in Next(g, c) && Covers(g, x, d)
      ensures Covers(g, c, d)
    {
      CoversFrom(g, c, x, d);
    }
  }

  // ----- Growing graphs -----

  ghost predicate Grown(g: Graph, g': Graph) {
    && (forall c :: Mro(g, c) <= Mro(g', c))
    && (forall c :: Next(g, c) <= Next(g', c))
  }

  lemma {:induction false} PathGrows(g: Graph, g': Graph, p: seq<Id>)
    requires Grown(g, g') && IsPath(g, p)
    ensures IsPath(g', p)
  {
    if |p| > 1 {
      PathGrows(g, g', p[1..]);
    }
  }

  lemma ReachesGrows(g: Graph, g': Graph, x: Id, y: Id)
    requires Grown(g, g') && Reaches(g, x, y)
    ensures Reaches(g', x, y)
  {
    var p :| PathBetween(g, p, x, y);
    PathGrows(g, g', p);
    assert PathBetween(g', p, x, y);
  }

  /** An answer that was true once is true forever. */
  lemma CoversGrows(g: Graph, g': Graph, c: Id, d: Id)
    requires Grown(g, g') && Covers(g, c, d)
    ensures Covers(g', c, d)
  {
    var x :| x in Mro(g, d) && Reaches(g, c, x);
    ReachesGrows(g, g', c, x);
  }

  // ----- Ranks -----

  /** A number for every class that falls along every edge: the search ends. */
  ghost predicate Ranked(g: Graph, rank: map<Id, nat>) {
    && rank.Keys == g.mro.Keys
    && forall c, x {:trigger x in Next(g, c)} :: c in rank && x in Next(g, c) ==> x in rank && rank[x] < rank[c]
  }

  lemma NextIsLower(g: Graph, rank: map<Id, nat>, c: Id)
    requires Closed(g) && Ranked(g, rank) && c in g.registry
    ensures forall x :: x in g.registry[c] || x in g.subclasses[c] ==> x in g.mro && rank[x] < rank[c]
  {
    forall x | x in g.registry[c] || x in g.subclasses[c]
      ensures x in rank && rank[x] < rank[c]
    {
      assert x in Next(g, c);
    }
  }

  lemma {:induction false} RankFalls(g: Graph, rank: map<Id, nat>, p: seq<Id>)
    requires Ranked(g, rank) && IsPath(g, p) && p[0] in rank
    ensures p[|p| - 1] in rank && rank[p[|p| - 1]] + |p| - 1 <= rank[p[0]]
  {
    if |p| > 1 {
      RankFalls(g, rank, p[1..]);
    }
  }

  ghost predicate Acyclic(g: Graph) {
    exists rank :: Ranked(g, rank)
  }

  // ----- Registration -----

  function Registered(g: Graph, c: Id, s: Id): Graph
    requires c in g.registry
  {
    g.(registry := g.registry[c := g.registry[c] + {s}])
  }

  lemma RegisteredNext(g: Graph, c: Id, s: Id, x: Id)
    requires c in g.registry && c in g.subclasses
    ensures Next(Registered(g, c, s), x) == Next(g, x) + (if x == c then {s} else {})
    ensures Mro(Registered(g, c, s), x) == Mro(g, x)
  {
  }

  lemma RegisteredGrows(g: Graph, c: Id, s: Id)
    requires c in g.registry && c in g.subclasses
    ensures Grown(g, Registered(g, c, s))
  {
  }

  /** Exactly what a registration changes: y comes under x when x reaches the registering class and the
      registered class covers y. */
  lemma RegisterEffect(g: Graph, c: Id, s: Id, x: Id, y: Id)
    requires c in g.registry && c in g.subclasses
    ensures Covers(Registered(g, c, s), x, y) <==> Covers(g, x, y) || (Reaches(g, x, c) && Covers(g, s, y))
  {
    var g' := Registered(g, c, s);
    RegisteredGrows(g, c, s);
    if Covers(g', x, y) {
      var z :| z in Mro(g', y) && Reaches(g', x, z);
      var p :| PathBetween(g', p, x, z);
      NewPath(g, c, s, p, y);
    } else {
      if Covers(g, x, y) {
        CoversGrows(g, g', x, y);
      }
      if Reaches(g, x, c) && Covers(g, s, y) {
        ReachesGrows(g, g', x, c);
        CoversGrows(g, g', s, y);
        CoversFrom(g', c, s, y);
        ReachesCovers(g', x, c, y);
      }
    }
  }

  lemma {:induction false} NewPath(g: Graph, c: Id, s: Id, p: seq<Id>, y: Id)
    requires c in g.registry && c in g.subclasses && IsPath(Registered(g, c, s), p) && p[|p| - 1] in Mro(g, y)
    ensures Covers(g, p[0], y) || (Reaches(g, p[0], c) && Covers(g, s, y))
  {
    if |p| == 1 {
      CoversItself(g, p[0], y);
    } else {
      NewPath(g, c, s, p[1..], y);
      RegisteredNext(g, c, s, p[0]);
      if p[1] in Next(g, p[0]) {
        NewPathStep(g, c, s, p[0], p[1], y);
      } else {
        ReachesSelf(g, c);
      }
    }
  }

  lemma NewPathStep(g: Graph, c: Id, s: Id, x: Id, x': Id, y: Id)
    requires x' in Next(g, x)
    requires Covers(g, x', y) || (Reaches(g, x', c) && Covers(g, s, y))
    ensures Covers(g, x, y) || (Reaches(g, x, c) && Covers(g, s, y))
  {
    if Covers(g, x', y) {
      CoversFrom(g, x, x', y);
    } else {
      ReachesFrom(g, x, x', c);
    }
  }

  /** The ranks after a registration: the classes that reach the registering class are lifted above the
      registered one. */
  ghost function Lifted(g: Graph, rank: map<Id, nat>, c: Id, height: nat): map<Id, nat> {
    map x | x in rank :: if Reaches(g, x, c) then rank[x] + height + 1 else rank[x]
  }

  lemma RegisterKeepsRanks(g: Graph, rank: map<Id, nat>, c: Id, s: Id)
    requires Ranked(g, rank) && c in g.registry && c in g.subclasses && c in rank && s in rank
    requires !Reaches(g, s, c)
    ensures Ranked(Registered(g, c, s), Lifted(g, rank, c, rank[s]))
  {
    forall x, y | x in rank && y in Next(Registered(g, c, s), x)
      ensures y in rank
      ensures Lifted(g, rank, c, rank[s])[y] < Lifted(g, rank, c, rank[s])[x]
    {
      LiftedFalls(g, rank, c, s, x, y);
    }
  }

  lemma LiftedFalls(g: Graph, rank: map<Id, nat>, c: Id, s: Id, x: Id, y: Id)
    requires Ranked(g, rank) && c in g.registry && c in g.subclasses && s in rank && !Reaches(g, s, c)
    requires x in rank && y in Next(Registered(g, c, s), x)
    ensures y in rank && Lifted(g, rank, c, rank[s])[y] < Lifted(g, rank, c, rank[s])[x]
  {
    RegisteredNext(g, c, s, x);
    if y in Next(g, x) {
      if Reaches(g, y, c) {
        ReachesFrom(g, x, y, c);
      }
    } else {
      ReachesSelf(g, c);
    }
  }

  /** The registration of s with c may go ahead exactly when s does not reach c: then and only then the search
      still ends. */
  lemma RegisterKeepsAcyclic(g: Graph, c: Id, s: Id)
    requires Acyclic(g) && c in g.registry && c in g.subclasses && c in g.mro && s in g.mro
    ensures Acyclic(Registered(g, c, s)) <==> !Reaches(g, s, c)
  {
    var g' := Registered(g, c, s);
    if !Reaches(g, s, c) {
      var rank :| Ranked(g, rank);
      RegisterKeepsRanks(g, rank, c, s);
    } else if Acyclic(g') {
      var rank :| Ranked(g', rank);
      RegisteredGrows(g, c, s);
      ReachesGrows(g, g', s, c);
      var p :| PathBetween(g', p, s, c);
      assert s in Next(g', c) && rank[s] < rank[c];
      RankFalls(g', rank, p);
      assert false;
    }
  }

  // ----- Creation -----

  predicate AnyAbc(g: Graph, bases: set<Id>) {
    exists b :: b in bases && b in g.registry
  }

  function Inherited(mro: map<Id, set<Id>>, bases: set<Id>): set<Id> {
    set b, x | b in bases && b in mro && x in mro[b] :: x
  }

  function WithSubclass(subclasses: map<Id, set<Id>>, bases: set<Id>, c: Id): map<Id, set<Id>> {
    (map x | x in subclasses :: if x in bases then subclasses[x] + {c} else subclasses[x])[c := {}]
  }

  /** A new class with the given bases: it is in its MRO with those of its bases, it is a direct subclass of
      each base, and it is an ABC when its own metaclass or that of a base is `ABCMeta`. */
  function Created(g: Graph, c: Id, bases: set<Id>, abc: bool): Graph {
    Graph(
      g.mro[c := {c} + Inherited(g.mro, bases)],
      WithSubclass(g.subclasses, bases, c),
      if abc || AnyAbc(g, bases) then g.registry[c := {}] else g.registry)
  }

  /** The classes of a graph are closed under everything a query follows. */
  ghost predicate Closed(g: Graph) {
    && g.subclasses.Keys == g.mro.Keys
    && g.registry.Keys <= g.mro.Keys
    && (forall c :: Mro(g, c) <= g.mro.Keys)
    && (forall c :: Next(g, c) <= g.mro.Keys)
  }

  ghost predicate MroHolds(g: Graph, c: Id) {
    && c in Mro(g, c)
    && (forall x :: x in Mro(g, c) ==> Mro(g, x) <= Mro(g, c))
    && (forall x :: x in Mro(g, c) && x in g.registry ==> c in g.registry && Reaches(g, x, c))
  }

  ghost predicate Inherits(g: Graph, z: Id, y: Id) {
    y in Mro(g, z)
  }

  /** A direct subclass of a class has it in its MRO. */
  ghost predicate SubclassesInherit(g: Graph) {
    forall y, z {:trigger Inherits(g, z, y)} :: y in g.subclasses && z in g.subclasses[y] ==> Inherits(g, z, y)
  }

  /** An MRO holds the MRO of each of its classes, and the classes that inherit from an ABC are ABCs that it
      reaches. */
  ghost predicate WellFormed(g: Graph) {
    && Closed(g) && SubclassesInherit(g)
    && forall c {:trigger MroHolds(g, c)} :: c in g.mro ==> MroHolds(g, c)
  }

  lemma CreatedNext(g: Graph, c: Id, bases: set<Id>, abc: bool, x: Id)
    requires Closed(g) && c !in g.mro && bases <= g.mro.Keys
    ensures Next(Created(g, c, bases, abc), x) == Next(g, x) + (if x in bases && x in g.registry then {c} else {})
    ensures x != c ==> Mro(Created(g, c, bases, abc), x) == Mro(g, x)
    ensures Next(g, c) == {} && c !in Mro(g, x) && c !in Next(g, x)
  {
  }

  lemma CreatedGrows(g: Graph, c: Id, bases: set<Id>, abc: bool)
    requires Closed(g) && c !in g.mro && bases <= g.mro.Keys
    ensures Grown(g, Created(g, c, bases, abc))
  {
    forall x
      ensures Mro(g, x) <= Mro(Created(g, c, bases, abc), x)
      ensures Next(g, x) <= Next(Created(g, c, bases, abc), x)
    {
      CreatedNext(g, c, bases, abc, x);
    }
  }

  /** A path of the new graph is a path of the old one, except that it may end at the new class after a base. */
  lemma {:induction false} CreatedPath(g: Graph, c: Id, bases: set<Id>, abc: bool, p: seq<Id>)
    requires Closed(g) && c !in g.mro && bases <= g.mro.Keys && IsPath(Created(g, c, bases, abc), p) && p[0] != c
    ensures p[|p| - 1] != c ==> Reaches(g, p[0], p[|p| - 1])
    ensures p[|p| - 1] == c ==> exists b :: b in bases && Reaches(g, p[0], b)
  {
    if |p| == 1 {
      ReachesSelf(g, p[0]);
    } else {
      CreatedNext(g, c, bases, abc, p[0]);
      if p[1] == c {
        CreatedNext(g, c, bases, abc, c);
        ReachesSelf(g, p[0]);
      } else {
        CreatedPath(g, c, bases, abc, p[1..]);
        forall z | Reaches(g, p[1], z)
          ensures Reaches(g, p[0], z)
        {
          ReachesFrom(g, p[0], p[1], z);
        }
      }
    }
  }

  /** Exactly what a new class changes: nothing between old classes, and the new class comes under what covers
      one of its bases. */
  lemma CreateEffect(g: Graph, c: Id, bases: set<Id>, abc: bool, x: Id, y: Id)
    requires WellFormed(g) && c !in g.mro && bases <= g.mro.Keys
    ensures var g' := Created(g, c, bases, abc);
      Covers(g', x, y) <==>
        if y == c then x == c || exists b :: b in bases && Covers(g, x, b)
        else Covers(g, x, y)
  {
    if x == c {
      NewCovers(g, c, bases, abc, y);
    } else {
      if Covers(Created(g, c, bases, abc), x, y) {
        CreatedIsCovered(g, c, bases, abc, x, y);
      }
      if if y == c then exists b :: b in bases && Covers(g, x, b) else Covers(g, x, y) {
        CreatedCovers(g, c, bases, abc, x, y);
      }
    }
  }

  lemma CreatedIsCovered(g: Graph, c: Id, bases: set<Id>, abc: bool, x: Id, y: Id)
    requires WellFormed(g) && c !in g.mro && bases <= g.mro.Keys && x != c
    requires Covers(Created(g, c, bases, abc), x, y)
    ensures if y == c then exists b :: b in bases && Covers(g, x, b) else Covers(g, x, y)
  {
    var g' := Created(g, c, bases, abc);
    CreatedNext(g, c, bases, abc, y);
    var z :| z in Mro(g', y) && Reaches(g', x, z);
    var p :| PathBetween(g', p, x, z);
    CreatedPath(g, c, bases, abc, p);
    if y == c {
      NewCovered(g, c, bases, abc, x, z);
    }
  }

  lemma CreatedCovers(g: Graph, c: Id, bases: set<Id>, abc: bool, x: Id, y: Id)
    requires WellFormed(g) && c !in g.mro && bases <= g.mro.Keys
    requires if y == c then exists b :: b in bases && Covers(g, x, b) else Covers(g, x, y)
    ensures Covers(Created(g, c, bases, abc), x, y)
  {
    if y == c {
      var b :| b in bases && Covers(g, x, b);
      BaseIsCovered(g, c, bases, abc, x, b);
    } else {
      CreatedGrows(g, c, bases, abc);
      CoversGrows(g, Created(g, c, bases, abc), x, y);
    }
  }

  lemma BaseIsCovered(g: Graph, c: Id, bases: set<Id>, abc: bool, x: Id, b: Id)
    requires WellFormed(g) && c !in g.mro && bases <= g.mro.Keys && b in bases && Covers(g, x, b)
    ensures Covers(Created(g, c, bases, abc), x, c)
  {
    var z :| z in Mro(g, b) && Reaches(g, x, z);
    CreatedGrows(g, c, bases, abc);
    ReachesGrows(g, Created(g, c, bases, abc), x, z);
    NewMroHasBases(g, c, bases, abc, b, z);
  }

  lemma NewMroHasBases(g: Graph, c: Id, bases: set<Id>, abc: bool, b: Id, z: Id)
    requires b in bases && z in Mro(g, b)
    ensures z in Mro(Created(g, c, bases, abc), c)
  {
  }

  lemma NewCovers(g: Graph, c: Id, bases: set<Id>, abc: bool, y: Id)
    requires WellFormed(g) && c !in g.mro && bases <= g.mro.Keys
    ensures var g' := Created(g, c, bases, abc);
      && (Covers(g', c, y) <==> y == c) && !Covers(g, c, y)
  {
    var g' := Created(g, c, bases, abc);
    CreatedNext(g, c, bases, abc, c);
    CreatedNext(g, c, bases, abc, y);
    CoversUnfolds(g', c, y);
    CoversUnfolds(g, c, y);
  }

  lemma NewCovered(g: Graph, c: Id, bases: set<Id>, abc: bool, x: Id, z: Id)
    requires WellFormed(g) && c !in g.mro && bases <= g.mro.Keys
    requires z in Mro(Created(g, c, bases, abc), c)
    requires z != c ==> Reaches(g, x, z)
    requires z == c ==> exists b :: b in bases && Reaches(g, x, b)
    ensures exists b :: b in bases && Covers(g, x, b)
  {
    if z == c {
      var b :| b in bases && Reaches(g, x, b);
      assert MroHolds(g, b);
      assert Covers(g, x, b);
    } else {
      var b :| b in bases && z in Mro(g, b);
      assert Covers(g, x, b);
    }
  }

  ghost function WithNew(rank: map<Id, nat>, c: Id): map<Id, nat> {
    (map x | x in rank :: rank[x] + 1)[c := 0]
  }

  lemma CreateKeepsRanks(g: Graph, rank: map<Id, nat>, c: Id, bases: set<Id>, abc: bool)
    requires Closed(g) && Ranked(g, rank) && c !in g.mro && bases <= g.mro.Keys
    ensures Ranked(Created(g, c, bases, abc), WithNew(rank, c))
  {
    forall x, y | x in WithNew(rank, c) && y in Next(Created(g, c, bases, abc), x)
      ensures y in WithNew(rank, c) && WithNew(rank, c)[y] < WithNew(rank, c)[x]
    {
      CreatedNext(g, c, bases, abc, x);
    }
  }

  lemma CreateKeepsWellFormed(g: Graph, c: Id, bases: set<Id>, abc: bool)
    requires WellFormed(g) && c !in g.mro && bases <= g.mro.Keys
    ensures WellFormed(Created(g, c, bases, abc))
  {
    var g' := Created(g, c, bases, abc);
    CreatedGrows(g, c, bases, abc);
    CreateKeepsClosed(g, c, bases, abc);
    CreateKeepsSubclasses(g, c, bases, abc);
    forall d | d in g'.mro
      ensures MroHolds(g', d)
    {
      if d == c {
        NewMroHolds(g, c, bases, abc);
      } else {
        OldMroHolds(g, c, bases, abc, d);
      }
    }
  }

  lemma CreateKeepsSubclasses(g: Graph, c: Id, bases: set<Id>, abc: bool)
    requires WellFormed(g) && c !in g.mro && bases <= g.mro.Keys
    ensures SubclassesInherit(Created(g, c, bases, abc))
  {
    var g' := Created(g, c, bases, abc);
    forall y, z | y in g'.subclasses && z in g'.subclasses[y]
      ensures Inherits(g', z, y)
    {
      if z == c && y in bases {
        assert MroHolds(g, y);
        NewMroHasBases(g, c, bases, abc, y, y);
      } else {
        assert Inherits(g, z, y);
        CreatedNext(g, c, bases, abc, z);
      }
    }
  }

  lemma CreateKeepsClosed(g: Graph, c: Id, bases: set<Id>, abc: bool)
    requires Closed(g) && c !in g.mro && bases <= g.mro.Keys
    ensures Closed(Created(g, c, bases, abc))
  {
    forall x | x in Inherited(g.mro, bases)
      ensures x in g.mro
    {
      var b :| b in bases && b in g.mro && x in g.mro[b];
      assert x in Mro(g, b);
    }
    forall x
      ensures Next(Created(g, c, bases, abc), x) <= g.mro.Keys + {c}
      ensures Mro(Created(g, c, bases, abc), x) <= g.mro.Keys + {c}
    {
      CreatedNext(g, c, bases, abc, x);
    }
  }

  lemma OldMroHolds(g: Graph, c: Id, bases: set<Id>, abc: bool, d: Id)
    requires WellFormed(g) && c !in g.mro && bases <= g.mro.Keys && d in g.mro
    ensures MroHolds(Created(g, c, bases, abc), d)
  {
    var g' := Created(g, c, bases, abc);
    CreatedNext(g, c, bases, abc, d);
    CreatedGrows(g, c, bases, abc);
    assert MroHolds(g, d);
    forall x | x in Mro(g', d)
      ensures Mro(g', x) <= Mro(g', d)
      ensures x in g'.registry ==> d in g'.registry && Reaches(g', x, d)
    {
      CreatedNext(g, c, bases, abc, x);
      if x in g'.registry {
        ReachesGrows(g, g', x, d);
      }
    }
  }

  lemma NewMroHolds(g: Graph, c: Id, bases: set<Id>, abc: bool)
    requires WellFormed(g) && c !in g.mro && bases <= g.mro.Keys
    ensures MroHolds(Created(g, c, bases, abc), c)
  {
    var g' := Created(g, c, bases, abc);
    CreatedGrows(g, c, bases, abc);
    forall x | x in Mro(g', c)
      ensures Mro(g', x) <= Mro(g', c)
      ensures x in g'.registry ==> c in g'.registry && Reaches(g', x, c)
    {
      if x == c {
        ReachesSelf(g', c);
      } else {
        var b :| b in bases && b in g.mro && x in g.mro[b];
        assert MroHolds(g, b);
        CreatedNext(g, c, bases, abc, x);
        forall z | z in Mro(g, b)
          ensures z in Mro(g', c)
        {
          NewMroHasBases(g, c, bases, abc, b, z);
        }
        if x in g'.registry {
          AbcBelowBase(g, c, bases, abc, x, b);
        }
      }
    }
  }

  lemma AbcBelowBase(g: Graph, c: Id, bases: set<Id>, abc: bool, x: Id, b: Id)
    requires WellFormed(g) && c !in g.mro && bases <= g.mro.Keys
    requires b in bases && x in Mro(g, b) && x in g.registry
    ensures Reaches(Created(g, c, bases, abc), x, c)
  {
    var g' := Created(g, c, bases, abc);
    CreatedGrows(g, c, bases, abc);
    assert MroHolds(g, b);
    ReachesGrows(g, g', x, b);
    CreatedNext(g, c, bases, abc, b);
    ReachesSelf(g', c);
    ReachesFrom(g', b, c, c);
    ReachesTransitive(g', x, b, c);
  }

  lemma RegisterKeepsWellFormed(g: Graph, c: Id, s: Id)
    requires WellFormed(g) && c in g.registry && s in g.mro
    ensures WellFormed(Registered(g, c, s))
  {
    var g' := Registered(g, c, s);
    RegisteredGrows(g, c, s);
    forall x
      ensures Next(g', x) <= g.mro.Keys && Mro(g', x) == Mro(g, x)
    {
      RegisteredNext(g, c, s, x);
    }
    forall y, z | y in g'.subclasses && z in g'.subclasses[y]
      ensures Inherits(g', z, y)
    {
      assert Inherits(g, z, y);
    }
    forall d | d in g'.mro
      ensures MroHolds(g', d)
    {
      RegisteredMroHolds(g, c, s, d);
    }
  }

  lemma RegisteredMroHolds(g: Graph, c: Id, s: Id, d: Id)
    requires WellFormed(g) && c in g.registry && s in g.mro && d in g.mro
    ensures MroHolds(Registered(g, c, s), d)
  {
    var g' := Registered(g, c, s);
    RegisteredGrows(g, c, s);
    assert MroHolds(g, d);
    forall x | x in Mro(g', d)
      ensures Mro(g', x) <= Mro(g', d)
      ensures x in g'.registry ==> d in g'.registry && Reaches(g', x, d)
    {
      if x in g'.registry {
        ReachesGrows(g, g', x, d);
      }
    }
  }

  // ----- What the answers mean -----

  /** A registered class and its descendants come under the class that registers it, and under its bases. */
  lemma DescendantsOfRegistered(g: Graph, c: Id, s: Id, d: Id, base: Id)
    requires WellFormed(g) && c in g.registry && s in g.registry[c] && s in Mro(g, d) && d in g.mro
    requires base in Mro(g, c) && base in g.registry
    ensures Covers(g, c, d) && Covers(g, base, d)
  {
    assert MroHolds(g, c);
    CoversItself(g, s, d);
    CoversFrom(g, c, s, d);
    ReachesCovers(g, base, c, d);
  }

  /** Along a path from b, what a covers goes on to be covered: a registered class by the condition, a direct
      subclass because it inherits. */
  lemma {:induction false} CoversAlong(g: Graph, a: Id, b: Id, p: seq<Id>)
    requires WellFormed(g) && RegistrationsCovered(g, a, b)
    requires IsPath(g, p) && Reaches(g, b, p[0]) && Covers(g, a, p[0])
    ensures Covers(g, a, p[|p| - 1])
  {
    if |p| > 1 {
      var y, z := p[0], p[1];
      ReachesSelf(g, z);
      ReachesFrom(g, y, z, z);
      ReachesTransitive(g, b, y, z);
      if z in g.registry[y] {
        assert RegistrationCovered(g, a, y, z);
      } else {
        assert Inherits(g, z, y);
        CoversInherited(g, a, y, z);
      }
      CoversAlong(g, a, b, p[1..]);
    }
  }

  lemma CoversInherited(g: Graph, a: Id, y: Id, z: Id)
    requires WellFormed(g) && y in Mro(g, z) && Covers(g, a, y)
    ensures Covers(g, a, z)
  {
    assert MroHolds(g, z);
    var x :| x in Mro(g, y) && Reaches(g, a, x);
    assert x in Mro(g, z);
  }

  ghost predicate RegistrationCovered(g: Graph, a: Id, y: Id, s: Id) {
    Covers(g, a, s)
  }

  /** a covers every class that is registered somewhere below b. */
  ghost predicate RegistrationsCovered(g: Graph, a: Id, b: Id) {
    forall y, s {:trigger RegistrationCovered(g, a, y, s)} ::
      Reaches(g, b, y) && y in g.registry && s in g.registry[y] ==> RegistrationCovered(g, a, y, s)
  }

  /** Two answers combine: whatever b covers, a covers. */
  ghost predicate AnswersCombine(g: Graph, a: Id, b: Id) {
    forall c {:trigger Covers(g, b, c)} :: c in g.mro && Covers(g, b, c) ==> Covers(g, a, c)
  }

  /** `issubclass` is transitive from a through b exactly when a covers the classes registered below b: the
      classes that inherit always follow, the registered ones need not. */
  lemma AnswersCombineExactly(g: Graph, a: Id, b: Id)
    requires WellFormed(g) && b in g.mro && Covers(g, a, b)
    ensures AnswersCombine(g, a, b) <==> RegistrationsCovered(g, a, b)
  {
    if RegistrationsCovered(g, a, b) {
      forall c | c in g.mro && Covers(g, b, c)
        ensures Covers(g, a, c)
      {
        var x :| x in Mro(g, c) && Reaches(g, b, x);
        var p :| PathBetween(g, p, b, x);
        ReachesSelf(g, b);
        CoversAlong(g, a, b, p);
        CoversInherited(g, a, x, c);
      }
    }
    if AnswersCombine(g, a, b) {
      forall y, s | Reaches(g, b, y) && y in g.registry && s in g.registry[y]
        ensures RegistrationCovered(g, a, y, s)
      {
        RegisteredIsCovered(g, b, y, s);
      }
    }
  }

  lemma RegisteredIsCovered(g: Graph, b: Id, y: Id, s: Id)
    requires WellFormed(g) && Reaches(g, b, y) && y in g.registry && s in g.registry[y]
    ensures s in g.mro && Covers(g, b, s)
  {
    assert s in Next(g, y);
    assert MroHolds(g, s);
    CoversItself(g, s, s);
    CoversFrom(g, y, s, s);
    ReachesCovers(g, b, y, s);
  }

  /** So two answers always combine when the first goes through an ABC. */
  lemma TransitiveThroughAbcs(g: Graph, a: Id, x: Id, b: Id)
    requires WellFormed(g) && b in g.mro && Reaches(g, a, x) && x in Mro(g, b) && (x in g.registry || x == b)
    ensures AnswersCombine(g, a, b)
  {
    assert MroHolds(g, b);
    ReachesSelf(g, b);
    ReachesTransitive(g, a, x, b);
    forall c | c in g.mro && Covers(g, b, c)
      ensures Covers(g, a, c)
    {
      ReachesCovers(g, a, b, c);
    }
  }

  /** `register` refuses when s covers c.  Of these refusals exactly those are needed, for queries to end, where s
      reaches an ABC in the MRO of c: reaching ordinary ones only, no cycle would arise. */
  lemma RefusalIsNeeded(g: Graph, c: Id, s: Id)
    requires WellFormed(g) && Acyclic(g) && c in g.registry && s in g.mro && Covers(g, s, c)
    ensures !Acyclic(Registered(g, c, s)) <==> exists x :: x in Mro(g, c) && Reaches(g, s, x) && x in g.registry
  {
    RegisterKeepsAcyclic(g, c, s);
    assert MroHolds(g, c);
    forall x | x in Mro(g, c) && Reaches(g, s, x) && x in g.registry
      ensures Reaches(g, s, c)
    {
      ReachesTransitive(g, s, x, c);
    }
  }
}

module AbcCache {
  import opened Basics
  import opened AbcGraph
  import opened AbcRuns

  /** What a caller may pass where a class is expected */
  datatype Arg = Class(id: Id) | NotAClass

  datatype Outcome = Answer(yes: bool) | Returned(subclass: Id) | TypeError | RuntimeError

  /** The cache attributes of all ABCs */
  datatype Caches = Caches(positive: map<Id, set<Id>>, negative: map<Id, set<Id>>, version: map<Id, nat>)

  ghost predicate PositiveHolds(g: Graph, c: Id, cached: set<Id>) {
    forall d :: d in cached ==> d in g.mro && Covers(g, c, d)
  }

  ghost predicate NegativeHolds(g: Graph, c: Id, refused: set<Id>, current: bool) {
    forall d :: d in refused ==> d in g.mro && (current ==> !Covers(g, c, d))
  }

  /** The entries of one ABC: a positive one is true, and a negative one is while its version is that of the
      counter. */
  ghost predicate EntriesHold(g: Graph, k: Caches, counter: nat, c: Id)
    requires c in k.positive && c in k.negative && c in k.version
  {
    && PositiveHolds(g, c, k.positive[c])
    && k.version[c] <= counter
    && NegativeHolds(g, c, k.negative[c], k.version[c] == counter)
  }

  ghost predicate CachesHold(g: Graph, k: Caches, counter: nat) {
    && k.positive.Keys == k.negative.Keys == k.version.Keys == g.registry.Keys
    && forall c {:trigger EntriesHold(g, k, counter, c)} :: c in g.registry ==> EntriesHold(g, k, counter, c)
  }

  ghost predicate EntriesKept(k: Caches, k': Caches, counter: nat, c: Id) {
    && (c in k.positive ==> c in k'.positive && k.positive[c] <= k'.positive[c])
    && (c in k.version && c in k.negative && k.version[c] == counter ==>
          c in k'.version && c in k'.negative && k'.version[c] == counter && k.negative[c] <= k'.negative[c])
  }

  /** Positive entries stay, and negative ones while the counter does. */
  ghost predicate Kept(k: Caches, k': Caches, counter: nat) {
    forall c {:trigger EntriesKept(k, k', counter, c)} :: EntriesKept(k, k', counter, c)
  }

  lemma KeptSelf(k: Caches, counter: nat)
    ensures Kept(k, k, counter)
  {
    forall c
      ensures EntriesKept(k, k, counter, c)
    {
    }
  }

  lemma KeptTransitive(k: Caches, k': Caches, k'': Caches, counter: nat)
    requires Kept(k, k', counter) && Kept(k', k'', counter)
    ensures Kept(k, k'', counter)
  {
    forall c
      ensures EntriesKept(k, k'', counter, c)
    {
      assert EntriesKept(k, k', counter, c) && EntriesKept(k', k'', counter, c);
    }
  }

  function Invalidated(k: Caches, c: Id, counter: nat): Caches {
    k.(negative := k.negative[c := {}], version := k.version[c := counter])
  }

  function WithAnswer(k: Caches, c: Id, d: Id, yes: bool): Caches
    requires c in k.positive && c in k.negative
  {
    if yes then k.(positive := k.positive[c := k.positive[c] + {d}])
    else k.(negative := k.negative[c := k.negative[c] + {d}])
  }

  function WithNewAbc(k: Caches, c: Id, counter: nat): Caches {
    Caches(k.positive[c := {}], k.negative[c := {}], k.version[c := counter])
  }

  lemma InvalidateKeeps(g: Graph, k: Caches, counter: nat, c: Id)
    requires CachesHold(g, k, counter) && c in g.registry && k.version[c] < counter
    ensures CachesHold(g, Invalidated(k, c, counter), counter) && Kept(k, Invalidated(k, c, counter), counter)
  {
    forall x | x in g.registry
      ensures EntriesHold(g, Invalidated(k, c, counter), counter, x)
    {
      assert EntriesHold(g, k, counter, x);
    }
  }

  lemma AnswerKeeps(g: Graph, k: Caches, counter: nat, c: Id, d: Id, yes: bool)
    requires CachesHold(g, k, counter) && c in g.registry && d in g.mro && yes == Covers(g, c, d)
    ensures CachesHold(g, WithAnswer(k, c, d, yes), counter) && Kept(k, WithAnswer(k, c, d, yes), counter)
  {
    forall x | x in g.registry
      ensures EntriesHold(g, WithAnswer(k, c, d, yes), counter, x)
    {
      assert EntriesHold(g, k, counter, x);
    }
  }

  function CachesAfterCreation(g: Graph, k: Caches, counter: nat, c: Id, bases: set<Id>, abc: bool): Caches {
    if abc || AnyAbc(g, bases) then WithNewAbc(k, c, counter) else k
  }

  /** A new class makes no cached answer false, so that the counter may stay, */
  lemma CreateKeepsCaches(g: Graph, k: Caches, counter: nat, c: Id, bases: set<Id>, abc: bool)
    requires WellFormed(g) && CachesHold(g, k, counter) && c !in g.mro && bases <= g.mro.Keys
    ensures var k' := CachesAfterCreation(g, k, counter, c, bases, abc);
      CachesHold(Created(g, c, bases, abc), k', counter) && Kept(k, k', counter)
  {
    var g', k' := Created(g, c, bases, abc), CachesAfterCreation(g, k, counter, c, bases, abc);
    forall x | x in g'.registry
      ensures EntriesHold(g', k', counter, x)
    {
      if x != c {
        CreateKeepsEntries(g, k, counter, c, bases, abc, x);
      }
    }
  }

  lemma CreateKeepsEntries(g: Graph, k: Caches, counter: nat, c: Id, bases: set<Id>, abc: bool, x: Id)
    requires WellFormed(g) && CachesHold(g, k, counter) && c !in g.mro && bases <= g.mro.Keys && x in g.registry
    ensures var g' := Created(g, c, bases, abc);
      && PositiveHolds(g', x, k.positive[x]) && k.version[x] <= counter
      && NegativeHolds(g', x, k.negative[x], k.version[x] == counter)
  {
    assert EntriesHold(g, k, counter, x);
    forall d | d in g.mro
      ensures Covers(Created(g, c, bases, abc), x, d) <==> Covers(g, x, d)
    {
      CreateEffect(g, c, bases, abc, x, d);
    }
  }

  /** and a registration makes no positive one false. */
  lemma RegisterKeepsCaches(g: Graph, k: Caches, counter: nat, c: Id, s: Id)
    requires CachesHold(g, k, counter) && c in g.registry && c in g.subclasses
    ensures CachesHold(Registered(g, c, s), k, counter + 1)
  {
    var g' := Registered(g, c, s);
    RegisteredGrows(g, c, s);
    forall x | x in g'.registry
      ensures EntriesHold(g', k, counter + 1, x)
    {
      assert EntriesHold(g, k, counter, x);
      forall d | d in k.positive[x]
        ensures Covers(g', x, d)
      {
        CoversGrows(g, g', x, d);
      }
    }
  }

  /** A cached answer is the right one. */
  lemma CachedAnswer(g: Graph, k: Caches, counter: nat, c: Id, d: Id)
    requires CachesHold(g, k, counter) && c in g.registry
    ensures d in k.positive[c] ==> Covers(g, c, d)
    ensures k.version[c] <= counter
    ensures k.version[c] == counter && d in k.negative[c] ==> !Covers(g, c, d)
  {
    assert EntriesHold(g, k, counter, c);
  }

  /** One of the caches of c has the answer about d, and it still counts. */
  ghost predicate Known(k: Caches, counter: nat, c: Id, d: Id) {
    || (c in k.positive && d in k.positive[c])
    || (c in k.version && c in k.negative && k.version[c] == counter && d in k.negative[c])
  }

  /** What a runtime holds at one moment */
  datatype State = State(g: Graph, rank: map<Id, nat>, k: Caches, counter: nat, history: seq<Event>)

  /** The graph is well-formed and ranked, its cached answers hold, and its history explains it. */
  ghost predicate Sound(state: State) {
    match state
    case State(g, rank, k, counter, history) =>
      WellFormed(g) && Ranked(g, rank) && CachesHold(g, k, counter) && Explains(history, g, counter)
  }

  ghost function StateCreated(state: State, c: Id, bases: set<Id>, abc: bool): State {
    State(
      Created(state.g, c, bases, abc), WithNew(state.rank, c),
      CachesAfterCreation(state.g, state.k, state.counter, c, bases, abc), state.counter,
      state.history + [Create(c, bases, abc)])
  }

  ghost function StateRegistered(state: State, c: Id, s: Id): State
    requires c in state.g.registry && s in state.rank
  {
    State(
      Registered(state.g, c, s), Lifted(state.g, state.rank, c, state.rank[s]), state.k, state.counter + 1,
      state.history + [Add(c, s)])
  }

  lemma CreateKeepsSound(state: State, c: Id, bases: set<Id>, abc: bool)
    requires Sound(state) && c !in state.g.mro && bases <= state.g.mro.Keys
    ensures Sound(StateCreated(state, c, bases, abc))
    ensures Kept(state.k, StateCreated(state, c, bases, abc).k, state.counter)
  {
    var State(g, rank, k, counter, history) := state;
    CreateKeepsRanks(g, rank, c, bases, abc);
    CreateKeepsWellFormed(g, c, bases, abc);
    CreateKeepsCaches(g, k, counter, c, bases, abc);
    ExplainsMore(history, g, counter, Create(c, bases, abc));
  }

  /** After the refusals of `register` the registration keeps everything. */
  lemma RegisterKeepsSound(state: State, c: Id, s: Id)
    requires Sound(state) && c in state.g.registry && s in state.g.mro
    requires !Covers(state.g, c, s) && !Covers(state.g, s, c)
    ensures s in state.rank && Sound(StateRegistered(state, c, s))
  {
    var State(g, rank, k, counter, history) := state;
    assert MroHolds(g, c);
    assert !Reaches(g, s, c);
    RegisterKeepsWellFormed(g, c, s);
    RegisterKeepsRanks(g, rank, c, s);
    RegisterKeepsCaches(g, k, counter, c, s);
    ExplainsMore(history, g, counter, Add(c, s));
  }

  /** All the classes of a run, with the attributes that `ABCMeta` gives to its classes and its counter. */
  class Runtime {
    var mro: map<Id, set<Id>>
    var subclasses: map<Id, set<Id>>
    var registry: map<Id, set<Id>>
    var cache: map<Id, set<Id>>
    var negativeCache: map<Id, set<Id>>
    var negativeVersion: map<Id, nat>
    var counter: nat
    ghost var rank: map<Id, nat>
    ghost var history: seq<Event>

    ghost function G(): Graph
      reads this
    {
      Graph(mro, subclasses, registry)
    }

    ghost function K(): Caches
      reads this
    {
      Caches(cache, negativeCache, negativeVersion)
    }

    ghost function Now(): State
      reads this
    {
      State(G(), rank, K(), counter, history)
    }

    ghost predicate Valid()
      reads this
    {
      Sound(Now())
    }

    constructor ()
      ensures Valid() && mro == map[] && counter == 0 && history == []
    {
      mro, subclasses, registry := map[], map[], map[];
      cache, negativeCache, negativeVersion, counter := map[], map[], map[], 0;
      rank, history := map[], [];
    }

    /** A new class; for an ABC, `ABCMeta.__new__` */
    method NewClass(c: Id, bases: set<Id>, abc: bool)
      requires Valid() && c !in mro && bases <= mro.Keys
      modifies this
      ensures Valid() && Now() == StateCreated(old(Now()), c, bases, abc)
      ensures Kept(old(K()), K(), counter)
    {
      CreateKeepsSound(Now(), c, bases, abc);
      var isAbc := abc || exists b :: b in bases && b in registry;
      assert isAbc <==> abc || AnyAbc(G(), bases);
      TypeNew(c, bases);
      if isAbc {
        SetUpInheritanceRegistry(c);
      }
      rank, history := WithNew(rank, c), history + [Create(c, bases, abc)];
    }

    /** `type.__new__` */
    method TypeNew(c: Id, bases: set<Id>)
      modifies `mro, `subclasses
      ensures mro == old(mro)[c := {c} + Inherited(old(mro), bases)]
      ensures subclasses == WithSubclass(old(subclasses), bases, c)
    {
      mro := mro[c := {c} + Inherited(mro, bases)];
      subclasses := WithSubclass(subclasses, bases, c);
    }

    /** The end of `ABCMeta.__new__` */
    method SetUpInheritanceRegistry(c: Id)
      modifies `registry, `cache, `negativeCache, `negativeVersion
      ensures registry == old(registry)[c := {}]
      ensures K() == WithNewAbc(old(K()), c, counter)
    {
      registry := registry[c := {}];
      cache := cache[c := {}];
      negativeCache := negativeCache[c := {}];
      negativeVersion := negativeVersion[c := counter];
    }

    /** `get_cache_token`: equal tokens mean equal answers. */
    method GetCacheToken() returns (token: nat)
      requires Valid()
      ensures TokenTells(history, token) && token == Registrations(history)
    {
      CounterTells(history);
      token := counter;
    }

    /** The built-in `issubclass(d, c)`: an ABC is asked, for any other class the MRO decides. */
    method IsSubclass(d: Id, c: Id) returns (r: bool)
      requires Valid() && c in mro && d in mro
      modifies `cache, `negativeCache, `negativeVersion
      ensures Valid()
      ensures r <==> Covers(G(), c, d)
      ensures Kept(old(K()), K(), counter)
      decreases rank[c], 3
    {
      if c in registry {
        var answer := SubclassCheck(c, Class(d));
        r := answer.yes;
      } else {
        CoversUnfolds(G(), c, d);
        r := c in mro[d];
      }
    }

    /** `__subclasscheck__`, with the default hook */
    method SubclassCheck(c: Id, subclass: Arg) returns (r: Outcome)
      requires Valid() && c in registry && (subclass.Class? ==> subclass.id in mro)
      modifies `cache, `negativeCache, `negativeVersion
      ensures Valid()
      ensures r == if subclass.Class? then Answer(Covers(G(), c, subclass.id)) else TypeError
      ensures subclass.Class? && r.yes ==> subclass.id in cache[c]
      ensures subclass.Class? && !r.yes ==> subclass.id in negativeCache[c] && negativeVersion[c] == counter
      ensures subclass.Class? && Known(old(K()), counter, c, subclass.id) ==> K() == old(K())
      ensures Kept(old(K()), K(), counter)
      decreases rank[c], 2
    {
      if subclass.NotAClass? {
        return TypeError;
      }
      var d := subclass.id;
      var known := Lookup(c, d);
      if known.Some? {
        return Answer(known.value);
      }
      ghost var k := K();
      var found := Search(c, d);
      ghost var k' := K();
      assert EntriesKept(k, k', counter, c);
      Remember(c, d, found);
      KeptTransitive(k, k', K(), counter);
      KeptTransitive(old(K()), k, K(), counter);
      return Answer(found);
    }

    /** The start of `__subclasscheck__`: the caches, the negative one emptied first if it is out of date */
    method Lookup(c: Id, d: Id) returns (known: Option<bool>)
      requires Valid() && c in registry
      modifies `negativeCache, `negativeVersion
      ensures Valid()
      ensures known.Some? ==> known.value == Covers(G(), c, d)
      ensures known == Some(true) <==> d in cache[c]
      ensures known == Some(false) <==> d !in cache[c] && d in negativeCache[c] && negativeVersion[c] == counter
      ensures known.None? ==> negativeVersion[c] == counter
      ensures Known(old(K()), counter, c, d) <==> known.Some?
      ensures known.Some? ==> K() == old(K())
      ensures Kept(old(K()), K(), counter)
    {
      CachedAnswer(G(), K(), counter, c, d);
      KeptSelf(K(), counter);
      if d in cache[c] {
        return Some(true);
      }
      if negativeVersion[c] < counter {
        InvalidateKeeps(G(), K(), counter, c);
        negativeCache := negativeCache[c := {}];
        negativeVersion := negativeVersion[c := counter];
      } else if d in negativeCache[c] {
        return Some(false);
      }
      return None;
    }

    /** The end of `__subclasscheck__`: the answer enters its cache. */
    method Remember(c: Id, d: Id, found: bool)
      requires Valid() && c in registry && d in mro && found == Covers(G(), c, d)
      modifies `cache, `negativeCache
      ensures Valid() && K() == WithAnswer(old(K()), c, d, found)
      ensures Kept(old(K()), K(), counter)
    {
      AnswerKeeps(G(), K(), counter, c, d, found);
      if found {
        cache := cache[c := cache[c] + {d}];
      } else {
        negativeCache := negativeCache[c := negativeCache[c] + {d}];
      }
    }

    /** What `__subclasscheck__` does when the caches do not know: the MRO, the registry, the direct subclasses */
    method Search(c: Id, d: Id) returns (found: bool)
      requires Valid() && c in registry && d in mro
      modifies `cache, `negativeCache, `negativeVersion
      ensures Valid()
      ensures found == Covers(G(), c, d)
      ensures Kept(old(K()), K(), counter)
      decreases rank[c], 1
    {
      CoversUnfolds(G(), c, d);
      KeptSelf(K(), counter);
      NextIsLower(G(), rank, c);
      if c in mro[d] {
        return true;
      }
      found := AnyCovers(registry[c], d, rank[c]);
      if found {
        return;
      }
      ghost var k := K();
      found := AnyCovers(subclasses[c], d, rank[c]);
      KeptTransitive(old(K()), k, K(), counter);
    }

    /** The two loops of `__subclasscheck__`, in the order in which the set is iterated over */
    method AnyCovers(candidates: set<Id>, d: Id, ghost height: nat) returns (r: bool)
      requires Valid() && d in mro
      requires forall x :: x in candidates ==> x in mro && rank[x] < height
      modifies `cache, `negativeCache, `negativeVersion
      ensures Valid()
      ensures r <==> exists x :: x in candidates && Covers(G(), x, d)
      ensures Kept(old(K()), K(), counter)
      decreases height, 0
    {
      var todo := candidates;
      KeptSelf(K(), counter);
      while todo != {}
        invariant Valid() && todo <= candidates
        invariant forall x :: x in candidates - todo ==> !Covers(G(), x, d)
        invariant Kept(old(K()), K(), counter)
        decreases todo
      {
        var x :| x in todo;
        todo := todo - {x};
        ghost var k := K();
        var covers := IsSubclass(d, x);
        KeptTransitive(old(K()), k, K(), counter);
        if covers {
          return true;
        }
      }
      return false;
    }

    /** `__instancecheck__`, for an instance with the given `__class__` and type */
    method InstanceCheck(c: Id, subclass: Arg, subtype: Id) returns (r: Outcome)
      requires Valid() && c in registry && subtype in mro && (subclass.Class? ==> subclass.id in mro)
      modifies `cache, `negativeCache, `negativeVersion
      ensures Valid()
      ensures r == if subclass.Class? then Answer(Covers(G(), c, subclass.id) || Covers(G(), c, subtype)) else TypeError
      ensures Kept(old(K()), K(), counter)
    {
      CachedAnswer(G(), K(), counter, c, subtype);
      KeptSelf(K(), counter);
      if subclass.Class? {
        CachedAnswer(G(), K(), counter, c, subclass.id);
        if subclass.id in cache[c] {
          return Answer(true);
        }
      }
      if subclass == Class(subtype) {
        if negativeVersion[c] == counter && subtype in negativeCache[c] {
          return Answer(false);
        }
        r := SubclassCheck(c, subclass);
        return;
      }
      r := CheckEither(c, subclass, subtype);
    }

    /** `any(cls.__subclasscheck__(c) for c in (subclass, subtype))` */
    method CheckEither(c: Id, subclass: Arg, subtype: Id) returns (r: Outcome)
      requires Valid() && c in registry && subtype in mro && (subclass.Class? ==> subclass.id in mro)
      modifies `cache, `negativeCache, `negativeVersion
      ensures Valid()
      ensures r == if subclass.Class? then Answer(Covers(G(), c, subclass.id) || Covers(G(), c, subtype)) else TypeError
      ensures Kept(old(K()), K(), counter)
    {
      r := SubclassCheck(c, subclass);
      if r == Answer(false) {
        ghost var k := K();
        r := SubclassCheck(c, Class(subtype));
        KeptTransitive(old(K()), k, K(), counter);
      }
    }

    /** `register` */
    method Register(c: Id, subclass: Arg) returns (r: Outcome)
      requires Valid() && c in registry && (subclass.Class? ==> subclass.id in mro)
      modifies this
      ensures Valid()
      ensures r ==
        if subclass.NotAClass? then TypeError
        else if !Covers(old(G()), c, subclass.id) && Covers(old(G()), subclass.id, c) then RuntimeError
        else Returned(subclass.id)
      ensures if r.Returned? && !Covers(old(G()), c, subclass.id)
        then G() == Registered(old(G()), c, subclass.id) && counter == old(counter) + 1
          && history == old(history) + [Add(c, subclass.id)]
        else G() == old(G()) && counter == old(counter) && history == old(history)
      ensures Kept(old(K()), K(), old(counter))
    {
      KeptSelf(K(), counter);
      if subclass.NotAClass? {
        return TypeError;
      }
      var s := subclass.id;
      var already := IsSubclass(s, c);
      if already {
        return Returned(s);
      }
      ghost var k := K();
      var cycle := IsSubclass(c, s);
      KeptTransitive(old(K()), k, K(), counter);
      if cycle {
        return RuntimeError;
      }
      AddToRegistry(c, s);
      return Returned(s);
    }

    /** The end of `register` */
    method AddToRegistry(c: Id, s: Id)
      requires Valid() && c in registry && s in mro && !Covers(G(), c, s) && !Covers(G(), s, c)
      modifies `registry, `counter, `rank, `history
      ensures Valid() && G() == Registered(old(G()), c, s) && counter == old(counter) + 1
      ensures history == old(history) + [Add(c, s)]
    {
      ghost var now := Now();
      RegisterKeepsSound(now, c, s);
      EnterRegistry(c, s);
      rank, history := Lifted(now.g, rank, c, rank[s]), history + [Add(c, s)];
      assert Now() == StateRegistered(now, c, s);
    }

    /** The set of registered classes, and the invalidation counter */
    method EnterRegistry(c: Id, s: Id)
      requires c in registry
      modifies `registry, `counter
      ensures G() == Registered(old(G()), c, s) && counter == old(counter) + 1
    {
      registry := registry[c := registry[c] + {s}];
      counter := counter + 1;
    }
  }
}
