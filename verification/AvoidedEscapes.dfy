/** When `_write_str_avoiding_backslashes` and `repr` write a string as it stands: exactly when nothing has to be
    escaped and a quote can enclose it. */
module AvoidedEscapes {
  import opened Arithmetic
  import opened StrLiteral

  /** A character that needs no escape: in the helper also a line feed or a tab, unless those are to be escaped. */
  predicate Plain(c: int, style: Style, printable: int -> bool) {
    match style
    case Helper(escapeSpace) =>
      (!escapeSpace && (c == LF || c == TAB)) || (c != BACKSLASH && (printable(c) || 32 <= c < 127))
    case Repr(quote) =>
      c != quote && c != BACKSLASH && (32 <= c < 127 || (c >= 127 && printable(c)))
  }

  predicate AllPlain(s: Str, style: Style, printable: int -> bool) {
    forall c :: c in s ==> Plain(c, style, printable)
  }

  lemma PlainIsWrittenAsIs(c: int, style: Style, printable: int -> bool)
    requires IsCodePoint(c)
    ensures Plain(c, style, printable) <==> Piece(c, style, printable) == [c]
    ensures !Plain(c, style, printable) ==> |Piece(c, style, printable)| >= 2
  {
  }

  /** Nothing is escaped exactly when every character is plain, and escapes make the text longer. */
  lemma {:induction false} WrittenAsIs(s: Str, style: Style, printable: int -> bool)
    requires IsStr(s)
    ensures AllPlain(s, style, printable) ==> Written(s, style, printable) == s
    ensures !AllPlain(s, style, printable) ==> |Written(s, style, printable)| > |s|
  {
    if s != [] {
      PlainIsWrittenAsIs(s[0], style, printable);
      WrittenAsIs(s[1..], style, printable);
      assert s == [s[0]] + s[1..];
      assert AllPlain(s, style, printable) <==>
        Plain(s[0], style, printable) && AllPlain(s[1..], style, printable);
    }
  }

  /** The quote q can stand around s as it is: it does not occur, s does not end with its character, and only a triple
      quote stands around a line feed. */
  predicate Encloses(q: Str, s: Str) {
    && q != [] && !Occurs(q, s) && (LF in s ==> |q| == 3)
    && (s != [] ==> q[0] != s[|s| - 1])
  }

  /** The string is written as it stands, in one of the quotes offered. */
  predicate AsItStands(s: Str, quoteTypes: seq<Str>, printable: int -> bool, escapeSpace: bool)
    requires IsStr(s) && AreQuotes(quoteTypes)
  {
    var r := StrLiteralHelper(s, quoteTypes, printable, escapeSpace);
    r.0 == s && r.1[0] in quoteTypes
  }

  lemma SomeQuoteFits(s: Str, quoteTypes: seq<Str>, printable: int -> bool, escapeSpace: bool, q: Str)
    requires IsStr(s) && AreQuotes(quoteTypes)
    requires AllPlain(s, Helper(escapeSpace), printable) && q in quoteTypes && Encloses(q, s)
    ensures AsItStands(s, quoteTypes, printable, escapeSpace)
  {
    WrittenAsIs(s, Helper(escapeSpace), printable);
    var possible := PossibleQuotes(quoteTypes, s);
    assert q in possible;
    if s != [] {
      OtherEndFirst(possible, s[|s| - 1], q);
    }
  }

  /** The sort puts a quote first that the string does not end with, if there is one. */
  lemma OtherEndFirst(qs: seq<Str>, last: int, q: Str)
    requires q in qs && q != [] && q[0] != last
    ensures var sorted := SortedByEnd(qs, last); sorted != [] && (sorted[0] == [] || sorted[0][0] != last)
  {
    assert q in StartingWith(qs, last, false);
    assert SortedByEnd(qs, last)[0] in StartingWith(qs, last, false);
  }

  lemma QuoteWasFound(s: Str, quoteTypes: seq<Str>, printable: int -> bool, escapeSpace: bool)
    requires IsStr(s) && AreQuotes(quoteTypes) && AsItStands(s, quoteTypes, printable, escapeSpace)
    requires PossibleQuotes(quoteTypes, Written(s, Helper(escapeSpace), printable)) != []
    ensures AllPlain(s, Helper(escapeSpace), printable)
    ensures Encloses(StrLiteralHelper(s, quoteTypes, printable, escapeSpace).1[0], s)
  {
    WrittenAsIs(s, Helper(escapeSpace), printable);
  }

  lemma {:induction false} FirstOccurs(q: Str, s: Str)
    requires q != [] && Occurs(q, s)
    ensures q[0] in s
  {
    if StartsWith(s, q) {
      assert s[0] == s[..|q|][0];
    } else {
      FirstOccurs(q, s[1..]);
    }
  }

  /** When `repr` takes over although quotes are offered, it escapes something or uses a quote that is not offered. */
  lemma ReprDoesNotFit(s: Str, quoteTypes: seq<Str>, printable: int -> bool, escapeSpace: bool)
    requires IsStr(s) && AreQuotes(quoteTypes)
    requires PossibleQuotes(quoteTypes, Written(s, Helper(escapeSpace), printable)) == []
    ensures !AsItStands(s, quoteTypes, printable, escapeSpace)
  {
    var quote := ReprQuote(s);
    if AsItStands(s, quoteTypes, printable, escapeSpace) {
      var q := FirstWith(quoteTypes, quote);
      WrittenAsIs(s, Repr(quote), printable);
      assert AllPlain(s, Helper(escapeSpace), printable) by {
        forall c | c in s
          ensures Plain(c, Helper(escapeSpace), printable)
        {
          assert Plain(c, Repr(quote), printable);
        }
      }
      WrittenAsIs(s, Helper(escapeSpace), printable);
      NoLineFeed(s, quote, printable);
      assert q !in PossibleQuotes(quoteTypes, s);
      FirstOccurs(q, s);
      assert false;
    }
  }

  lemma NoLineFeed(s: Str, quote: int, printable: int -> bool)
    requires AllPlain(s, Repr(quote), printable)
    ensures LF !in s
  {
    assert !Plain(LF, Repr(quote), printable);
  }

  /** Escapes are avoided whenever they can be: the string is written as it stands, in one of the quotes offered, if and
      only if it is plain and one of these can enclose it. */
  lemma EscapesAreAvoided(s: Str, quoteTypes: seq<Str>, printable: int -> bool, escapeSpace: bool)
    requires IsStr(s) && AreQuotes(quoteTypes)
    ensures AsItStands(s, quoteTypes, printable, escapeSpace) <==>
      AllPlain(s, Helper(escapeSpace), printable) && exists q :: q in quoteTypes && Encloses(q, s)
  {
    if AsItStands(s, quoteTypes, printable, escapeSpace) {
      if PossibleQuotes(quoteTypes, Written(s, Helper(escapeSpace), printable)) == [] {
        ReprDoesNotFit(s, quoteTypes, printable, escapeSpace);
      } else {
        QuoteWasFound(s, quoteTypes, printable, escapeSpace);
      }
    } else if AllPlain(s, Helper(escapeSpace), printable) {
      forall q | q in quoteTypes && Encloses(q, s)
        ensures false
      {
        SomeQuoteFits(s, quoteTypes, printable, escapeSpace, q);
      }
    }
  }

  /** `repr` escapes nothing exactly when every character is plain and only one kind of quote occurs. */
  lemma ReprAvoidsEscapes(s: Str, printable: int -> bool)
    requires IsStr(s)
    ensures ReprLiteral(s, printable) == [ReprQuote(s)] + s + [ReprQuote(s)] <==>
      !(SINGLE in s && DOUBLE in s) && forall c :: c in s && c != SINGLE && c != DOUBLE ==>
        Plain(c, Repr(ReprQuote(s)), printable)
  {
    var quote := ReprQuote(s);
    WrittenAsIs(s, Repr(quote), printable);
    SameBody(quote, Written(s, Repr(quote), printable), s);
    assert !Plain(quote, Repr(quote), printable);
  }

  lemma SameBody(quote: int, a: Str, b: Str)
    ensures [quote] + a + [quote] == [quote] + b + [quote] <==> a == b
  {
    assert ([quote] + a + [quote])[1..|a| + 1] == a && ([quote] + b + [quote])[1..|b| + 1] == b;
  }

  // ----- Which quote is used -----

  /** What a quote is asked for */
  datatype Test =
    | Triple | Absent(text: Str) | EndsOtherwise(last: int) | Surrounding(text: Str) | Enclosing(text: Str)
    | Starting(c: int)
  {
    predicate Holds(q: Str) {
      match this
      case Triple => q in MULTI_QUOTES
      case Absent(text) => !Occurs(q, text)
      case EndsOtherwise(last) => q == [] || q[0] != last
      case Surrounding(text) => Surrounds(q, text)
      case Enclosing(text) => Encloses(q, text)
      case Starting(c) => q != [] && q[0] == c
    }
  }

  /** The text e can stand between q and q, after its last character has been escaped if need be. */
  predicate Surrounds(q: Str, e: Str) {
    !Occurs(q, e) && (LF in e ==> |q| == 3)
  }

  function Filter(qs: seq<Str>, t: Test): (r: seq<Str>)
    ensures forall q :: q in r <==> q in qs && t.Holds(q)
  {
    if qs == [] then [] else (if t.Holds(qs[0]) then [qs[0]] else []) + Filter(qs[1..], t)
  }

  /** q is the first of the quotes that passes the test. */
  ghost predicate IsFirst(q: Str, qs: seq<Str>, t: Test) {
    exists i :: 0 <= i < |qs| && qs[i] == q && t.Holds(q) && forall j :: 0 <= j < i ==> !t.Holds(qs[j])
  }

  predicate Passes(qs: seq<Str>, t: Test) {
    exists q :: q in qs && t.Holds(q)
  }

  lemma {:induction false} FilterIsFirst(qs: seq<Str>, t: Test)
    requires Passes(qs, t)
    ensures Filter(qs, t) != [] && IsFirst(Filter(qs, t)[0], qs, t)
  {
    if t.Holds(qs[0]) {
      assert qs[0] == Filter(qs, t)[0];
    } else {
      assert Passes(qs[1..], t);
      FilterIsFirst(qs[1..], t);
      FirstIsLater(Filter(qs[1..], t)[0], qs, t);
    }
  }

  lemma FirstIsLater(q: Str, qs: seq<Str>, t: Test)
    requires qs != [] && !t.Holds(qs[0]) && IsFirst(q, qs[1..], t)
    ensures IsFirst(q, qs, t)
  {
    var others := qs[1..];
    var i :| 0 <= i < |others| && others[i] == q && t.Holds(q) && forall j :: 0 <= j < i ==> !t.Holds(others[j]);
    assert qs[i + 1] == q;
    forall j | 0 <= j < i + 1
      ensures !t.Holds(qs[j])
    {
      assert j > 0 ==> qs[j] == others[j - 1];
    }
  }

  lemma {:induction false} FilterTwice(qs: seq<Str>, t: Test, u: Test, v: Test)
    requires forall q :: q in qs ==> (v.Holds(q) <==> t.Holds(q) && u.Holds(q))
    ensures Filter(Filter(qs, t), u) == Filter(qs, v)
  {
    if qs != [] {
      FilterTwice(qs[1..], t, u, v);
      if t.Holds(qs[0]) {
        assert Filter(qs, t)[0] == qs[0] && Filter(qs, t)[1..] == Filter(qs[1..], t);
      } else {
        assert Filter(qs, t) == Filter(qs[1..], t);
      }
    }
  }

  lemma {:induction false} SameFilter(qs: seq<Str>, t: Test, u: Test)
    requires forall q :: q in qs ==> (t.Holds(q) <==> u.Holds(q))
    ensures Filter(qs, t) == Filter(qs, u)
  {
    if qs != [] {
      SameFilter(qs[1..], t, u);
    }
  }

  lemma {:induction false} FiltersAre(qs: seq<Str>, e: Str, last: int)
    ensures MultiOnly(qs) == Filter(qs, Triple)
    ensures NotOccurring(qs, e) == Filter(qs, Absent(e))
    ensures StartingWith(qs, last, false) == Filter(qs, EndsOtherwise(last))
  {
    if qs != [] {
      FiltersAre(qs[1..], e, last);
    }
  }

  lemma PossibleIsFilter(qs: seq<Str>, e: Str)
    requires AreQuotes(qs)
    ensures PossibleQuotes(qs, e) == Filter(qs, Surrounding(e))
  {
    FiltersAre(qs, e, 0);
    FiltersAre(Filter(qs, Triple), e, 0);
    if LF in e {
      FilterTwice(qs, Triple, Absent(e), Surrounding(e));
    } else {
      SameFilter(qs, Absent(e), Surrounding(e));
    }
  }

  lemma PassesOrNot(qs: seq<Str>, t: Test)
    ensures Passes(qs, t) <==> Filter(qs, t) != []
    ensures Passes(qs, t) ==> IsFirst(Filter(qs, t)[0], qs, t)
  {
    if Passes(qs, t) {
      FilterIsFirst(qs, t);
    }
  }

  /** The quote that is used: the first one offered that can enclose the escaped text as it is; if there is none, the
      first one that can when a final quote is escaped; and if there is none either, the first one of the kind that
      `repr` uses. */
  lemma FirstQuoteIsUsed(s: Str, quoteTypes: seq<Str>, printable: int -> bool, escapeSpace: bool)
    requires IsStr(s) && AreQuotes(quoteTypes)
    ensures var q := StrLiteralHelper(s, quoteTypes, printable, escapeSpace).1[0];
      var e := Written(s, Helper(escapeSpace), printable);
      if Passes(quoteTypes, Enclosing(e)) then IsFirst(q, quoteTypes, Enclosing(e))
      else if Passes(quoteTypes, Surrounding(e)) then IsFirst(q, quoteTypes, Surrounding(e))
      else if Passes(quoteTypes, Starting(ReprQuote(s))) then IsFirst(q, quoteTypes, Starting(ReprQuote(s)))
      else q == [ReprQuote(s)]
  {
    var e := Written(s, Helper(escapeSpace), printable);
    QuoteIsFiltered(s, quoteTypes, printable, escapeSpace, e);
    PassesOrNot(quoteTypes, Enclosing(e));
    PassesOrNot(quoteTypes, Surrounding(e));
    ReprQuoteIsFirst(quoteTypes, ReprQuote(s));
  }

  lemma QuoteIsFiltered(s: Str, qs: seq<Str>, printable: int -> bool, escapeSpace: bool, e: Str)
    requires IsStr(s) && AreQuotes(qs) && e == Written(s, Helper(escapeSpace), printable)
    ensures var q := StrLiteralHelper(s, qs, printable, escapeSpace).1[0];
      if Filter(qs, Enclosing(e)) != [] then q == Filter(qs, Enclosing(e))[0]
      else if Filter(qs, Surrounding(e)) != [] then q == Filter(qs, Surrounding(e))[0]
      else q == FirstWith(qs, ReprQuote(s))
  {
    ChosenQuote(s, qs, printable, escapeSpace, e);
    PossibleIsFilter(qs, e);
    if Filter(qs, Surrounding(e)) == [] {
      NothingEncloses(qs, e);
    } else if e == [] {
      SameFilter(qs, Surrounding(e), Enclosing(e));
    } else {
      SortedIsFiltered(qs, e);
    }
  }

  lemma ChosenQuote(s: Str, qs: seq<Str>, printable: int -> bool, escapeSpace: bool, e: Str)
    requires IsStr(s) && AreQuotes(qs) && e == Written(s, Helper(escapeSpace), printable)
    ensures var q, possible := StrLiteralHelper(s, qs, printable, escapeSpace).1[0], PossibleQuotes(qs, e);
      q == if possible == [] then FirstWith(qs, ReprQuote(s))
           else if e == [] then possible[0]
           else SortedByEnd(possible, e[|e| - 1])[0]
  {
  }

  lemma NothingEncloses(qs: seq<Str>, e: Str)
    requires AreQuotes(qs) && Filter(qs, Surrounding(e)) == []
    ensures Filter(qs, Enclosing(e)) == []
  {
    if e == [] {
      SameFilter(qs, Surrounding(e), Enclosing(e));
    } else {
      FilterTwice(qs, Surrounding(e), EndsOtherwise(e[|e| - 1]), Enclosing(e));
    }
  }

  lemma SortedIsFiltered(qs: seq<Str>, e: Str)
    requires AreQuotes(qs) && e != [] && Filter(qs, Surrounding(e)) != []
    ensures var q := SortedByEnd(Filter(qs, Surrounding(e)), e[|e| - 1])[0];
      if Filter(qs, Enclosing(e)) != [] then q == Filter(qs, Enclosing(e))[0] else q == Filter(qs, Surrounding(e))[0]
  {
    var last := e[|e| - 1];
    var possible := Filter(qs, Surrounding(e));
    FiltersAre(possible, e, last);
    FilterTwice(qs, Surrounding(e), EndsOtherwise(last), Enclosing(e));
    if StartingWith(possible, last, false) == [] {
      AllStart(possible, last);
    }
  }

  lemma {:induction false} ReprQuoteIsFirst(qs: seq<Str>, c: int)
    ensures if Passes(qs, Starting(c)) then IsFirst(FirstWith(qs, c), qs, Starting(c)) else FirstWith(qs, c) == [c]
  {
    if qs == [] {
    } else if Starting(c).Holds(qs[0]) {
      assert IsFirst(qs[0], qs, Starting(c));
    } else {
      ReprQuoteIsFirst(qs[1..], c);
      if Passes(qs, Starting(c)) {
        assert Passes(qs[1..], Starting(c));
        FirstIsLater(FirstWith(qs, c), qs, Starting(c));
      }
    }
  }

  lemma {:induction false} AllStart(qs: seq<Str>, last: int)
    requires StartingWith(qs, last, false) == []
    ensures SortedByEnd(qs, last) == qs
  {
    if qs != [] {
      assert StartingWith(qs[1..], last, false) == [];
      AllStart(qs[1..], last);
      assert SortedByEnd(qs[1..], last) == StartingWith(qs[1..], last, true);
    }
  }

  // ----- Short escapes -----

  lemma {:induction false} HexNumberBelow(t: Str)
    requires HexNumber(t).Some?
    ensures 0 <= HexNumber(t).value < Pow(16, |t|)
  {
    if t != [] {
      HexNumberBelow(t[..|t| - 1]);
    }
  }

  /** No escape sequence that is read as the character c is shorter than what is written for it. */
  lemma EscapesAreShortest(t: Str, c: int, style: Style, printable: int -> bool)
    requires IsCodePoint(c) && ReadEscape(t).Some? && ReadEscape(t).value.0 == [c]
    requires style.Repr? ==> style.quote == SINGLE || style.quote == DOUBLE
    ensures |Piece(c, style, printable)| <= 1 + ReadEscape(t).value.1
  {
    if t[0] == 120 {
      HexNumberBelow(t[1..][..2]);
      assert Pow(16, 2) == 256;
    } else if t[0] == 117 {
      HexNumberBelow(t[1..][..4]);
      assert Pow(16, 4) == 0x10000;
    }
  }
}
