/** Parentheses are written where they are needed: without them the tokens do not parse back.  The exceptions are
    listed. */
module Parentheses {
  import opened Basics
  import opened Expressions
  import opened ExpressionParser
  import opened ExpressionRoundTrip

  // ----- What is parsed at a level, and is looser, stands in parentheses -----

  /** ts starts with e in parentheses. */
  predicate Grouped(ts: seq<Token>, e: Expr) {
    Sees(ts, LParen) && var r := Parse(NAMED_EXPR, ts[1..]); r.Parsed? && r.value == e
  }

  predicate Fits(k: Prec, ts: seq<Token>, e: Expr) {
    Level(e) >= k || Grouped(ts, e)
  }

  /** The operand on the left of an attribute, a call, a subscript or a binary operation */
  predicate OperandIs(e: Expr, x: Expr) {
    || (e.Attribute? && e.object_ == x) || (e.Call? && e.func == x) || (e.Subscript? && e.base == x)
    || (e.BinOp? && e.left == x)
  }

  /** e has been built from x by trailers or operators of level k on its left spine. */
  ghost predicate Built(k: Prec, x: Expr, e: Expr) {
    e == x || (x < e && Level(e) == k && exists y :: OperandIs(e, y) && (y == x || (x < y && Level(y) == k)))
  }

  lemma BuiltMore(k: Prec, x: Expr, y: Expr, e: Expr)
    requires OperandIs(y, x) && Level(y) == k && x < y && Built(k, y, e)
    ensures Built(k, x, e)
  {
  }

  /** The first trailer, if there is one that can be read */
  function FirstTrailer(x: Expr, ts: seq<Token>): (r: Parsed<Expr>)
    ensures r.Parsed? ==> |r.rest| < |ts|
  {
    if Sees(ts, Dot) then if |ts| >= 2 && ts[1].Word? then Parsed(Attribute(x, ts[1].id), ts[2..]) else Failed
    else if Sees(ts, LParen) then
      var r := ParseArguments(false, ts[1..]);
      if r.Failed? then Failed else Parsed(Call(x, r.value.0, r.value.1), r.rest)
    else if Sees(ts, LBracket) then
      var r := Parse(NAMED_EXPR, ts[1..]);
      if r.Failed? || !Sees(r.rest, RBracket) then Failed else Parsed(Subscript(x, r.value), r.rest[1..])
    else Failed
  }

  lemma TrailerIsFirst(x: Expr, ts: seq<Token>)
    requires ParseTrailers(x, ts).Parsed?
    ensures var r := FirstTrailer(x, ts);
      ParseTrailers(x, ts) == if r.Failed? then Parsed(x, ts) else ParseTrailers(r.value, r.rest)
  {
  }

  lemma TrailerIsOperand(x: Expr, ts: seq<Token>)
    requires FirstTrailer(x, ts).Parsed?
    ensures var y := FirstTrailer(x, ts).value; OperandIs(y, x) && Level(y) == ATOM && x < y
  {
  }

  lemma {:induction false} TrailersBuild(x: Expr, ts: seq<Token>)
    requires ParseTrailers(x, ts).Parsed?
    ensures Built(ATOM, x, ParseTrailers(x, ts).value)
    decreases |ts|
  {
    var r := FirstTrailer(x, ts);
    TrailerIsFirst(x, ts);
    if r.Parsed? {
      TrailersBuild(r.value, r.rest);
      TrailerIsOperand(x, ts);
      BuiltMore(ATOM, x, r.value, ParseTrailers(x, ts).value);
    }
  }

  lemma {:induction false} OperandsBuild(k: Prec, x: Expr, ts: seq<Token>)
    requires 9 <= k <= 14 && ParseOperands(k, x, ts).Parsed?
    ensures Built(k, x, ParseOperands(k, x, ts).value)
    decreases |ts|
  {
    var op := BinaryAt(k, ts);
    if op.Some? {
      var r := Parse(k + 1, ts[1..]);
      var y := BinOp(x, op.value, r.value);
      OperandsBuild(k, y, r.rest);
      BuiltMore(k, x, y, ParseOperands(k, x, ts).value);
    }
  }

  lemma AtomFits(ts: seq<Token>)
    requires ParseAtom(ts).Parsed?
    ensures Fits(ATOM, ts, ParseAtom(ts).value)
  {
  }

  lemma PrimaryFits(ts: seq<Token>)
    requires ParsePrimary(ts).Parsed?
    ensures Fits(ATOM, ts, ParsePrimary(ts).value)
  {
    var r := ParseAtom(ts);
    AtomFits(ts);
    TrailersBuild(r.value, r.rest);
  }

  /** An expression that is parsed at a level is of that level or a tighter one, or stands in parentheses. */
  lemma {:induction false} ParsedFits(k: Prec, ts: seq<Token>)
    requires Parse(k, ts).Parsed?
    ensures Fits(k, ts, Parse(k, ts).value)
    decreases 19 - k
  {
    if k <= 2 {
      CommasFit(k, ts);
    } else if k == 4 && Sees(ts, KwLambda) {
    } else if k == 7 && Sees(ts, KwNot) {
    } else if k == 15 && FactorAt(ts).Some? {
    } else if k == 18 {
      PrimaryFits(ts);
    } else {
      ParsedFits(k + 1, ts);
      if 9 <= k <= 14 {
        var r := Parse(k + 1, ts);
        OperandsBuild(k, r.value, r.rest);
      } else {
        OneLevelUp(k, ts);
      }
    }
  }

  lemma {:induction false} CommasFit(k: Prec, ts: seq<Token>)
    requires k <= 2 && Parse(k, ts).Parsed?
    ensures Fits(k, ts, Parse(k, ts).value)
    decreases 18 - k
  {
    assert ParseItem(k, ts).Parsed?;
    if !(k == 1 && SeesWord(ts, Walrus)) {
      ParsedFits(TEST, ts);
      assert Parse(k, ts).value.Tuple? || Parse(k, ts).value == Parse(TEST, ts).value;
    }
  }

  /** The rules that give an expression of their own level or what the next level gives */
  lemma OneLevelUp(k: Prec, ts: seq<Token>)
    requires 3 <= k < 18 && !(9 <= k <= 14) && Parse(k, ts).Parsed?
    requires !(k == 4 && Sees(ts, KwLambda)) && !(k == 7 && Sees(ts, KwNot)) && !(k == 15 && FactorAt(ts).Some?)
    ensures Level(Parse(k, ts).value) == k || (Parse(k + 1, ts).Parsed? && Parse(k, ts).value == Parse(k + 1, ts).value)
  {
  }

  // ----- What an expression without parentheses of its own starts with -----

  /** The operand that an expression starts with, and the precedence that it is asked for at */
  function Leftmost(e: Expr): (r: Option<(Expr, Prec)>)
    ensures r.Some? ==> r.value.0 < e
  {
    match e
    case BinOp(left, op, _) => Some((left, LeftLevel(op)))
    case Compare(first, _) => Some((first, Next(CMP)))
    case BoolOp(op, values) => if values == [] then None else Some((values[0], Next(BoolLevel(op))))
    case IfExp(_, body, _) => Some((body, Next(TEST)))
    case Attribute(object_, _) => Some((object_, ATOM))
    case Call(func, _, _) => Some((func, ATOM))
    case Subscript(base, _) => Some((base, ATOM))
    case Tuple(elts) => if elts == [] then None else Some((elts[0], TEST))
    case _ => None
  }

  /** What is parsed after an opening parenthesis at the start is smaller than e: e does not stand in parentheses. */
  ghost predicate NotGrouped(ts: seq<Token>, e: Expr) {
    Sees(ts, LParen) ==> var r := Parse(NAMED_EXPR, ts[1..]); r.Parsed? ==> r.value < e
  }

  lemma StartsWith(e: Expr, more: seq<Token>) returns (rest: seq<Token>)
    requires Leftmost(e).Some?
    ensures var (c, q) := Leftmost(e).value; K(Body(e)) + more == K(Print(c, q)) + rest
  {
    var (c, q) := Leftmost(e).value;
    var n := |Print(c, q)|;
    BodyStarts(e);
    rest := K(Body(e)[n..]) + more;
    assert Body(e) == Body(e)[..n] + Body(e)[n..];
    Split2(Body(e)[..n], Body(e)[n..], more);
  }

  lemma BodyStarts(e: Expr)
    requires Leftmost(e).Some?
    ensures var (c, q) := Leftmost(e).value; Print(c, q) <= Body(e)
  {
    if e.BoolOp? {
      ValuesStart(e.values, BoolToken(e.boolop), Next(BoolLevel(e.boolop)));
    } else if e.Tuple? {
      ItemsStart(e.elts);
    }
  }

  lemma ValuesStart(values: seq<Expr>, t: Token, p: Prec)
    requires values != []
    ensures Print(values[0], p) <= PrintValues(values, t, p)
  {
  }

  lemma ItemsStart(elts: seq<Expr>)
    requires elts != []
    ensures Print(elts[0], TEST) <= PrintItems(elts)
  {
  }

  lemma StartsOtherwise(e: Expr, more: seq<Token>)
    requires Leftmost(e).None? && WellFormed(e)
    ensures NotGrouped(K(Body(e)) + more, e)
  {
    var ts := K(Body(e)) + more;
    assert ts[0] == Body(e)[0].token;
    if e.Tuple? {
      assert ts[1] == RParen;
      NothingInside(ts[1..]);
    }
  }

  lemma NothingInside(ts: seq<Token>)
    requires Sees(ts, RParen)
    ensures Parse(NAMED_EXPR, ts).Failed?
  {
    if Parse(NAMED_EXPR, ts).Parsed? {
      StartsInside(ts);
    }
  }

  lemma {:induction false} BodyNotGrouped(e: Expr, more: seq<Token>)
    requires WellFormed(e)
    ensures NotGrouped(K(Body(e)) + more, e)
    decreases e, 0
  {
    if Leftmost(e).Some? {
      var (c, q) := Leftmost(e).value;
      var rest := StartsWith(e, more);
      OperandWellFormed(e);
      PrintNotGrouped(c, q, rest, e);
    } else {
      StartsOtherwise(e, more);
    }
  }

  lemma OperandWellFormed(e: Expr)
    requires WellFormed(e) && Leftmost(e).Some?
    ensures WellFormed(Leftmost(e).value.0)
  {
  }

  /** An operand at the start, with or without parentheses of its own */
  lemma {:induction false} PrintNotGrouped(c: Expr, q: Prec, more: seq<Token>, e: Expr)
    requires WellFormed(c) && c < e
    ensures NotGrouped(K(Print(c, q)) + more, e)
    decreases c, 1
  {
    if q <= Level(c) {
      BodyNotGrouped(c, more);
    } else {
      var rest := [RParen] + more;
      SplitEnclosed(Tight(LParen), Body(c), Tight(RParen), more);
      InsideParses(c, rest);
      Tail(LParen, K(Body(c)) + rest);
    }
  }

  // ----- Without parentheses -----

  /** Where an expression of a tighter level is read, a bare looser one is never read whole. */
  lemma BareIsNotRead(p: Prec, c: Expr, more: seq<Token>)
    requires WellFormed(c) && Level(c) < p
    ensures var r := Parse(p, K(Body(c)) + more); r.Parsed? ==> r.value != c
  {
    var ts := K(Body(c)) + more;
    if Parse(p, ts).Parsed? {
      ParsedFits(p, ts);
      BodyNotGrouped(c, more);
    }
  }

  /** The parentheses around a whole expression: they are written if and only if without them the tokens do not parse
      to it at the precedence it is asked for at. */
  lemma WholeParentheses(e: Expr, p: Prec)
    requires WellFormed(e)
    ensures Print(e, p) == Body(e) <==> Parse(p, K(Body(e))) == Parsed(e, [])
  {
    assert K(Body(e)) + [] == K(Body(e));
    if p <= Level(e) {
      RoundTrip(e, p);
    } else {
      BareIsNotRead(p, e, []);
      assert |Print(e, p)| == |Body(e)| + 2;
    }
  }
}
