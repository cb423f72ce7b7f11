/** Runs: the classes that were created and registered, one after the other, and what holds after any of them. */
module AbcRuns {
  import opened AbcGraph

  /** What changes the answers: a new class, or an entry that `register` adds */
  datatype Event = Create(c: Id, bases: set<Id>, abc: bool) | Add(c: Id, s: Id)

  function After(g: Graph, e: Event): Graph {
    match e
    case Create(c, bases, abc) => Created(g, c, bases, abc)
    case Add(c, s) => if c in g.registry then Registered(g, c, s) else g
  }

  /** A new class is new and its bases are not; an entry is added for a class that is not covered and does not
      cover. */
  ghost predicate Allowed(g: Graph, e: Event) {
    match e
    case Create(c, bases, _) => c !in g.mro && bases <= g.mro.Keys
    case Add(c, s) => c in g.registry && s in g.mro && !Covers(g, c, s) && !Covers(g, s, c)
  }

  function GraphAfter(es: seq<Event>): Graph {
    if es == [] then Graph(map[], map[], map[]) else After(GraphAfter(es[..|es| - 1]), es[|es| - 1])
  }

  ghost predicate IsRun(es: seq<Event>) {
    es == [] || (IsRun(es[..|es| - 1]) && Allowed(GraphAfter(es[..|es| - 1]), es[|es| - 1]))
  }

  /** `ABCMeta._abc_invalidation_counter` */
  function Registrations(es: seq<Event>): nat {
    if es == [] then 0 else Registrations(es[..|es| - 1]) + (if es[|es| - 1].Add? then 1 else 0)
  }

  lemma RunMore(es: seq<Event>, e: Event)
    requires IsRun(es) && Allowed(GraphAfter(es), e)
    ensures IsRun(es + [e]) && GraphAfter(es + [e]) == After(GraphAfter(es), e)
    ensures Registrations(es + [e]) == Registrations(es) + (if e.Add? then 1 else 0)
  {
    assert (es + [e])[..|es|] == es;
  }

  lemma StepIsSound(g: Graph, e: Event)
    requires WellFormed(g) && Acyclic(g) && Allowed(g, e)
    ensures WellFormed(After(g, e)) && Acyclic(After(g, e)) && Grown(g, After(g, e))
    ensures g.mro.Keys <= After(g, e).mro.Keys
  {
    match e
    case Create(c, bases, abc) =>
      var rank :| Ranked(g, rank);
      CreateKeepsRanks(g, rank, c, bases, abc);
      CreateKeepsWellFormed(g, c, bases, abc);
      CreatedGrows(g, c, bases, abc);
    case Add(c, s) =>
      RegisterKeepsWellFormed(g, c, s);
      RegisteredGrows(g, c, s);
      assert MroHolds(g, c);
      RegisterKeepsAcyclic(g, c, s);
  }

  /** After every run the graph is well-formed, and queries end. */
  lemma {:induction false} RunIsSound(es: seq<Event>)
    requires IsRun(es)
    ensures WellFormed(GraphAfter(es)) && Acyclic(GraphAfter(es))
  {
    if es == [] {
      assert Ranked(GraphAfter(es), map[]);
    } else {
      RunIsSound(es[..|es| - 1]);
      StepIsSound(GraphAfter(es[..|es| - 1]), es[|es| - 1]);
    }
  }

  lemma {:induction false} RunGrows(es: seq<Event>, k: nat)
    requires IsRun(es) && k <= |es|
    ensures IsRun(es[..k]) && Grown(GraphAfter(es[..k]), GraphAfter(es))
    ensures GraphAfter(es[..k]).mro.Keys <= GraphAfter(es).mro.Keys
    ensures Registrations(es[..k]) <= Registrations(es)
  {
    WholeSlice(es, k);
    if k < |es| {
      var init := es[..|es| - 1];
      InitSlice(es, k);
      RunGrows(init, k);
      RunIsSound(init);
      StepIsSound(GraphAfter(init), es[|es| - 1]);
      GrownTransitive(GraphAfter(es[..k]), GraphAfter(init), GraphAfter(es));
    }
  }

  lemma GrownTransitive(g: Graph, g': Graph, g'': Graph)
    requires Grown(g, g') && Grown(g', g'')
    ensures Grown(g, g'')
  {
    forall c
      ensures Mro(g, c) <= Mro(g'', c) && Next(g, c) <= Next(g'', c)
    {
      assert Mro(g, c) <= Mro(g', c) && Next(g, c) <= Next(g', c);
    }
  }

  // ----- The token -----

  /** Every query about classes of g has the same answer in g'. */
  ghost predicate SameAnswers(g: Graph, g': Graph) {
    forall c, d {:trigger Covers(g', c, d)} :: c in g.mro && d in g.mro ==> (Covers(g, c, d) <==> Covers(g', c, d))
  }

  /** Equal tokens at two points of a run: no answer about the classes of the first point has changed, whatever
      classes were created meanwhile. */
  lemma {:induction false} SameTokenSameAnswers(es: seq<Event>, k: nat)
    requires IsRun(es) && k <= |es| && Registrations(es[..k]) == Registrations(es)
    ensures SameAnswers(GraphAfter(es[..k]), GraphAfter(es))
  {
    WholeSlice(es, k);
    if k < |es| {
      var init, e := es[..|es| - 1], es[|es| - 1];
      InitSlice(es, k);
      RunGrows(init, k);
      RunIsSound(init);
      SameTokenSameAnswers(init, k);
      SameAfterCreation(GraphAfter(es[..k]), GraphAfter(init), e);
    }
  }

  lemma SameAfterCreation(g: Graph, g': Graph, e: Event)
    requires WellFormed(g') && Allowed(g', e) && e.Create? && g.mro.Keys <= g'.mro.Keys && SameAnswers(g, g')
    ensures SameAnswers(g, After(g', e))
  {
    forall c, d | c in g.mro && d in g.mro
      ensures Covers(g, c, d) <==> Covers(After(g', e), c, d)
    {
      CreateEffect(g', e.c, e.bases, e.abc, c, d);
    }
  }

  /** Different tokens, without a new class in between: an answer has changed. */
  lemma OtherTokenOtherAnswers(es: seq<Event>, k: nat)
    requires IsRun(es) && k <= |es| && Registrations(es[..k]) != Registrations(es)
    requires GraphAfter(es[..k]).mro.Keys == GraphAfter(es).mro.Keys
    ensures !SameAnswers(GraphAfter(es[..k]), GraphAfter(es))
  {
    WholeSlice(es, k);
    InitSlice(es, k);
    var init := es[..|es| - 1];
    LastChangesAnswer(init, es[|es| - 1], k);
  }

  lemma WholeSlice<T>(s: seq<T>, k: nat)
    requires k <= |s|
    ensures k == |s| ==> s[..k] == s
  {
  }

  lemma InitSlice<T>(s: seq<T>, k: nat)
    requires k < |s|
    ensures s[..|s| - 1][..k] == s[..k]
  {
  }

  lemma LastChangesAnswer(init: seq<Event>, e: Event, k: nat)
    requires IsRun(init) && Allowed(GraphAfter(init), e) && k <= |init|
    requires GraphAfter(init[..k]).mro.Keys == After(GraphAfter(init), e).mro.Keys
    ensures !SameAnswers(GraphAfter(init[..k]), After(GraphAfter(init), e))
  {
    RunGrows(init, k);
    RunIsSound(init);
    AddChangesAnswer(GraphAfter(init[..k]), GraphAfter(init), e);
  }

  lemma AddChangesAnswer(g: Graph, g': Graph, e: Event)
    requires WellFormed(g') && Allowed(g', e) && Grown(g, g')
    requires g.mro.Keys <= g'.mro.Keys && g.mro.Keys == After(g', e).mro.Keys
    ensures !SameAnswers(g, After(g', e))
  {
    assert e.Add?;
    var c, s := e.c, e.s;
    if Covers(g, c, s) {
      CoversGrows(g, g', c, s);
    }
    RegisterEffect(g', c, s, c, s);
    ReachesSelf(g', c);
    assert MroHolds(g', s);
    CoversItself(g', s, s);
    assert Covers(After(g', e), c, s) && c in g.mro && s in g.mro;
  }

  /** The history of a run explains the graph and the counter. */
  ghost predicate Explains(es: seq<Event>, g: Graph, counter: nat) {
    IsRun(es) && GraphAfter(es) == g && Registrations(es) == counter
  }

  lemma ExplainsMore(es: seq<Event>, g: Graph, counter: nat, e: Event)
    requires Explains(es, g, counter) && Allowed(g, e)
    ensures Explains(es + [e], After(g, e), if e.Add? then counter + 1 else counter)
  {
    RunMore(es, e);
  }

  /** What a token is for: if it was the same at an earlier point of the run, every answer about the classes of
      that point still stands; and if not, and no class is new, some answer changed. */
  ghost predicate TokenTells(es: seq<Event>, token: nat) {
    forall k: nat {:trigger es[..k]} :: k <= |es| ==> TokensCompare(es[..k], es, token)
  }

  ghost predicate TokensCompare(earlier: seq<Event>, es: seq<Event>, token: nat) {
    var g, g' := GraphAfter(earlier), GraphAfter(es);
    && (Registrations(earlier) == token ==> SameAnswers(g, g'))
    && (Registrations(earlier) != token && g.mro.Keys == g'.mro.Keys ==> !SameAnswers(g, g'))
  }

  lemma CounterTells(es: seq<Event>)
    requires IsRun(es)
    ensures TokenTells(es, Registrations(es))
  {
    forall k: nat | k <= |es|
      ensures TokensCompare(es[..k], es, Registrations(es))
    {
      if Registrations(es[..k]) == Registrations(es) {
        SameTokenSameAnswers(es, k);
      } else if GraphAfter(es[..k]).mro.Keys == GraphAfter(es).mro.Keys {
        OtherTokenOtherAnswers(es, k);
      }
    }
  }

  // ----- Examples -----

  /** 0 is an ABC that registers the ordinary class 1, 2 is an ABC that inherits from 1, and 3 is an ordinary class
      registered with 2. */
  function OrdinaryLink(): Graph {
    Graph(
      map[0 := {0}, 1 := {1}, 2 := {2, 1}, 3 := {3}],
      map[0 := {}, 1 := {2}, 2 := {}, 3 := {}],
      map[0 := {1}, 2 := {3}])
  }

  /** A class without bases */
  lemma NewRoot(g: Graph, c: Id, abc: bool)
    ensures Created(g, c, {}, abc) ==
      Graph(g.mro[c := {c}], g.subclasses[c := {}], if abc then g.registry[c := {}] else g.registry)
  {
    assert Inherited(g.mro, {}) == {} && {c} + {} == {c};
    assert WithSubclass(g.subclasses, {}, c) == g.subclasses[c := {}];
    assert !AnyAbc(g, {});
  }

  /** An ABC with one base */
  lemma NewChild(g: Graph, c: Id, b: Id)
    requires b in g.mro && b in g.subclasses && c !in g.mro && c !in g.subclasses
    ensures Created(g, c, {b}, true) ==
      Graph(g.mro[c := {c} + g.mro[b]], g.subclasses[b := g.subclasses[b] + {c}][c := {}], g.registry[c := {}])
  {
    assert Inherited(g.mro, {b}) == g.mro[b];
    assert WithSubclass(g.subclasses, {b}, c) == g.subclasses[b := g.subclasses[b] + {c}][c := {}];
  }

  lemma Apart(g: Graph, c: Id, d: Id)
    requires Next(g, c) == {} && c !in Mro(g, d)
    ensures !Covers(g, c, d)
  {
    CoversUnfolds(g, c, d);
  }

  lemma RunOf(es: seq<Event>, e: Event, g: Graph, g': Graph)
    requires IsRun(es) && GraphAfter(es) == g && Allowed(g, e) && After(g, e) == g'
    ensures IsRun(es + [e]) && GraphAfter(es + [e]) == g'
  {
    RunMore(es, e);
  }

  lemma FirstRegistration() returns (es: seq<Event>)
    ensures IsRun(es)
    ensures GraphAfter(es) == Graph(map[0 := {0}, 1 := {1}], map[0 := {}, 1 := {}], map[0 := {1}])
  {
    var g0 := Graph(map[], map[], map[]);
    var g1 := Graph(map[0 := {0}], map[0 := {}], map[0 := {}]);
    var g2 := Graph(map[0 := {0}, 1 := {1}], map[0 := {}, 1 := {}], map[0 := {}]);
    NewRoot(g0, 0, true);
    RunOf([], Create(0, {}, true), g0, g1);
    NewRoot(g1, 1, false);
    RunOf([] + [Create(0, {}, true)], Create(1, {}, false), g1, g2);
    Apart(g2, 0, 1);
    Apart(g2, 1, 0);
    es := [] + [Create(0, {}, true)] + [Create(1, {}, false)];
    assert g2.registry[0] + {1} == {1};
    assert Registered(g2, 0, 1).registry == map[0 := {1}];
    RunOf(es, Add(0, 1), g2, Registered(g2, 0, 1));
    es := es + [Add(0, 1)];
  }

  lemma InheritingAbc() returns (es: seq<Event>)
    ensures IsRun(es)
    ensures GraphAfter(es) == Graph(
      map[0 := {0}, 1 := {1}, 2 := {2, 1}], map[0 := {}, 1 := {2}, 2 := {}], map[0 := {1}, 2 := {}])
  {
    es := FirstRegistration();
    var g3 := Graph(map[0 := {0}, 1 := {1}], map[0 := {}, 1 := {}], map[0 := {1}]);
    NewChild(g3, 2, 1);
    assert {2} + {1} == {2, 1} && g3.subclasses[1] + {2} == {2};
    assert g3.subclasses[1 := {2}][2 := {}] == map[0 := {}, 1 := {2}, 2 := {}];
    RunOf(es, Create(2, {1}, true), g3, After(g3, Create(2, {1}, true)));
    es := es + [Create(2, {1}, true)];
  }

  /** The graph arises from creating and registering classes. */
  lemma OrdinaryLinkArises() returns (es: seq<Event>)
    ensures IsRun(es) && GraphAfter(es) == OrdinaryLink()
  {
    es := InheritingAbc();
    var g4 := GraphAfter(es);
    NewRoot(g4, 3, false);
    var g5 := After(g4, Create(3, {}, false));
    RunOf(es, Create(3, {}, false), g4, g5);
    es := es + [Create(3, {}, false)];
    Apart(g5, 2, 3);
    Apart(g5, 3, 2);
    assert g5.registry[2] + {3} == {3};
    RunOf(es, Add(2, 3), g5, Registered(g5, 2, 3));
    es := es + [Add(2, 3)];
  }

  lemma OrdinaryLinkNext()
    ensures var g := OrdinaryLink();
      Next(g, 0) == {1} && Next(g, 1) == {} && Next(g, 2) == {3} && Next(g, 3) == {}
  {
  }

  /** After a run, answers need not combine: 0 covers 2 through the ordinary class 1, and 2 covers 3. */
  lemma OrdinaryClassBreaksTransitivity() returns (es: seq<Event>)
    ensures IsRun(es)
    ensures var g := GraphAfter(es); Covers(g, 0, 2) && Covers(g, 2, 3) && !Covers(g, 0, 3)
  {
    es := OrdinaryLinkArises();
    var g := OrdinaryLink();
    OrdinaryLinkNext();
    CoversItself(g, 1, 2);
    CoversFrom(g, 0, 1, 2);
    CoversItself(g, 3, 3);
    CoversFrom(g, 2, 3, 3);
    CoversUnfolds(g, 1, 3);
    CoversUnfolds(g, 0, 3);
  }

  /** And `register` refuses more than it must: the ABC 1 inherits from the ordinary class 0, so that it may not
      register it, although queries would still end. */
  lemma NeedlessRefusal() returns (es: seq<Event>)
    ensures IsRun(es)
    ensures var g := GraphAfter(es);
      && 1 in g.registry && 0 in g.mro && !Covers(g, 1, 0) && Covers(g, 0, 1) && Acyclic(Registered(g, 1, 0))
  {
    var g0 := Graph(map[], map[], map[]);
    var g1 := Graph(map[0 := {0}], map[0 := {}], map[]);
    var g2 := Graph(map[0 := {0}, 1 := {1, 0}], map[0 := {1}, 1 := {}], map[1 := {}]);
    NewRoot(g0, 0, false);
    RunOf([], Create(0, {}, false), g0, g1);
    NewChild(g1, 1, 0);
    assert After(g1, Create(1, {0}, true)) == g2 by {
      assert {1} + {0} == {1, 0} && {} + {1} == {1};
    }
    es := [] + [Create(0, {}, false)];
    RunOf(es, Create(1, {0}, true), g1, g2);
    es := es + [Create(1, {0}, true)];
    Apart(g2, 1, 0);
    CoversItself(g2, 0, 1);
    RunIsSound(es);
    RefusalIsNeeded(g2, 1, 0);
    NothingReached(g2, 0);
  }

  lemma NothingReached(g: Graph, s: Id)
    requires Next(g, s) == {}
    ensures forall x :: Reaches(g, s, x) ==> x == s
  {
    forall x | Reaches(g, s, x)
      ensures x == s
    {
      if x != s {
        var y := ReachesSplit(g, s, x);
        assert false;
      }
    }
  }
}
