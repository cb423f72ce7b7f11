/** The parentheses around an operand: without them the tokens of the node do not parse back to it, except in the
    positions that are listed. */
module OperandParentheses {
  import opened Basics
  import opened Expressions
  import opened ExpressionParser
  import opened ExpressionRoundTrip
  import opened Parentheses

  // ----- A node with one operand written bare -----

  /** What is written for e, but without parentheses around its operand i */
  function Bare(e: Expr, i: nat): seq<Piece>
    requires Child(e, i).Some?
  {
    match e
    case UnaryOp(op, operand) => [Piece(false, UnaryToken(op), op == Not)] + Body(operand)
    case BinOp(left, op, right) =>
      if i == 0 then Body(left) + [Spaced(BinToken(op))] + Print(right, RightLevel(op))
      else Print(left, LeftLevel(op)) + [Spaced(BinToken(op))] + Body(right)
    case Compare(first, links) =>
      if i == 0 then Body(first) + PrintLinks(links) else Print(first, Next(CMP)) + BareLinks(links, i - 1)
    case BoolOp(op, values) => BareValues(values, BoolToken(op), Next(BoolLevel(op)), i)
    case IfExp(test, body, orelse) =>
      (if i == 0 then Body(body) else Print(body, Next(TEST))) + [Spaced(KwIf)]
      + (if i == 1 then Body(test) else Print(test, Next(TEST))) + [Spaced(KwElse)]
      + (if i == 2 then Body(orelse) else Print(orelse, TEST))
    case Lambda(params, result) =>
      var buffer := if i == 0 then PrintParams(params) else BareParams(params, i - 1);
      [Piece(false, KwLambda, buffer != [])] + buffer + [Piece(false, Colon, true)]
      + (if i == 0 then Body(result) else Print(result, TEST))
    case Attribute(object_, attr) => Body(object_) + [Piece(NeedsSpace(object_), Dot, false), Tight(Word(attr))]
    case Call(func, args, keywords) =>
      (if i == 0 then Body(func) else Print(func, ATOM)) + [Tight(LParen)]
      + ((if 1 <= i <= |args| then BareArgs(args, keywords != [], i - 1) else PrintArgs(args, keywords != []))
         + (if i > |args| && i > 0 then BareKeywords(keywords, i - 1 - |args|) else PrintKeywords(keywords)))
      + [Tight(RParen)]
    case Subscript(base, slice) =>
      (if i == 0 then Body(base) else Print(base, ATOM)) + [Tight(LBracket)]
      + (if i == 1 then Body(slice) else PrintSlice(slice)) + [Tight(RBracket)]
    case Tuple(elts) => BareItems(elts, i)
    case List(items) => [Tight(LBracket)] + BareElements(items, i) + [Tight(RBracket)]
    case NamedExpr(target, bound) => [Tight(Word(target)), Spaced(Walrus)] + Body(bound)
  }

  function BareLinks(links: seq<Link>, i: nat): seq<Piece>
    requires i < |links|
  {
    if i == 0 then ComparatorPieces(links[0].cmp) + Body(links[0].operand) + PrintLinks(links[1..])
    else PrintLink(links[0]) + BareLinks(links[1..], i - 1)
  }

  function BareValues(values: seq<Expr>, t: Token, p: Prec, i: nat): seq<Piece>
    requires i < |values|
  {
    if |values| == 1 then Body(values[0])
    else if i == 0 then Body(values[0]) + [Spaced(t)] + PrintValues(values[1..], t, Next(p))
    else Print(values[0], p) + [Spaced(t)] + BareValues(values[1..], t, Next(p), i - 1)
  }

  function BareElements(elts: seq<Expr>, i: nat): seq<Piece>
    requires i < |elts|
  {
    if |elts| == 1 then Body(elts[0])
    else if i == 0 then Body(elts[0]) + [COMMA] + PrintElements(elts[1..])
    else Print(elts[0], TEST) + [COMMA] + BareElements(elts[1..], i - 1)
  }

  function BareItems(elts: seq<Expr>, i: nat): seq<Piece>
    requires i < |elts|
  {
    if |elts| == 1 then Body(elts[0]) + [Tight(Comma)] else BareElements(elts, i)
  }

  function BareArgs(args: seq<Expr>, more: bool, i: nat): seq<Piece>
    requires i < |args|
  {
    (if i == 0 then Body(args[0]) else Print(args[0], TEST)) + (if |args| > 1 || more then [COMMA] else [])
    + (if i == 0 then PrintArgs(args[1..], more) else BareArgs(args[1..], more, i - 1))
  }

  function BareKeyword(k: Keyword): seq<Piece> {
    (if k.arg.Some? then [Tight(Word(k.arg.value)), Tight(Assign)] else [Tight(StarStar)]) + Body(k.value)
  }

  function BareKeywords(keywords: seq<Keyword>, i: nat): seq<Piece>
    requires i < |keywords|
  {
    (if i == 0 then BareKeyword(keywords[0]) else PrintKeyword(keywords[0]))
    + (if |keywords| > 1 then [COMMA] else [])
    + (if i == 0 then PrintKeywords(keywords[1..]) else BareKeywords(keywords[1..], i - 1))
  }

  /** A group of parameters, one of which has a bare default, if i is one of these */
  function BarePlain(params: seq<Param>, i: int): seq<Piece>
    decreases params
  {
    if params == [] then []
    else
      (if i == 0 && params[0].default.Some? then BareParam(params[0]) else PrintParam(params[0]))
      + (if |params| > 1 then [COMMA] else []) + BarePlain(params[1..], i - 1)
  }

  function BareParam(param: Param): seq<Piece>
    requires param.default.Some?
  {
    [Tight(Word(param.name)), Tight(Assign)] + Body(param.default.value)
  }

  function BareParams(params: Params, i: nat): seq<Piece> {
    Separated(BarePlain(params.posonly, i),
      Separated(SlashPieces(params), BareFromArgs(params, i - |params.posonly|)))
  }

  /** The groups after the slash, counted from there */
  function BareFromArgs(params: Params, i: int): seq<Piece> {
    Separated(BarePlain(params.args, i), BareFromStar(params, i - |params.args|))
  }

  /** The groups from the star on, counted from there */
  function BareFromStar(params: Params, i: int): seq<Piece> {
    Separated(StarPieces(params), Separated(BarePlain(params.kwonly, i), DoubleStarPieces(params)))
  }

  // ----- The grammar level at each position -----

  /** The level of the grammar at which operand i is read */
  function ReadAt(e: Expr, i: nat): Prec {
    match e
    case UnaryOp(op, _) => UnaryLevel(op)
    case BinOp(_, op, _) => if i == 0 then LeftLevel(op) else if op == Pow then FACTOR else RightLevel(op)
    case Compare(_, _) => EXPR
    case BoolOp(op, _) => if op == Or then AND else NOT
    case IfExp(_, _, _) => if i == 2 then TEST else OR
    case Attribute(_, _) => ATOM
    case Call(_, _, _) => if i == 0 then ATOM else TEST
    case Subscript(_, _) => if i == 0 then ATOM else NAMED_EXPR
    case _ => TEST
  }

  /** Where a named expression is read without parentheses */
  predicate TakesWalrus(e: Expr, i: nat) {
    e.List? || (e.Call? && 1 <= i <= |e.args|) || (e.Subscript? && i == 1)
  }

  /** Without parentheses, operand i is read as itself. */
  predicate Accepts(e: Expr, i: nat)
    requires Child(e, i).Some?
  {
    var c := Child(e, i).value;
    Level(c) >= ReadAt(e, i) || (TakesWalrus(e, i) && c.NamedExpr?)
  }

  /** Where the visitor writes parentheses that are not needed: around a sign on the right of a power, around values of
      a boolean operation after the first, around the value of a named expression, and around named expressions where
      they could stand bare */
  predicate Needless(e: Expr, i: nat)
    requires Child(e, i).Some?
  {
    var c := Child(e, i).value;
    || (e.BinOp? && e.op == Pow && i == 1 && c.UnaryOp? && c.unop != Not)
    || (e.BoolOp? && i > 0 && BoolLevel(e.boolop) < Level(c) < ValueLevel(e.boolop, i))
    || (e.NamedExpr? && TEST <= Level(c) < ATOM)
    || (TakesWalrus(e, i) && c.NamedExpr?)
  }

  /** The precedence at which value i of a boolean operation is asked for: one more for each value, up to the last */
  function ValueLevel(op: BoolOperator, i: nat): int {
    if BoolLevel(op) + 1 + i < 18 then BoolLevel(op) + 1 + i else 18
  }

  // ----- Where operands are written bare -----

  /** An operand is written bare exactly where it is accepted bare, but for the exceptions. */
  ghost predicate BareExactly(e: Expr, i: nat)
    requires Child(e, i).Some?
  {
    Same(Bare(e, i), Body(e), Accepts(e, i) && !Needless(e, i)) && (Needless(e, i) ==> Accepts(e, i))
  }

  /** What is written with an operand bare is the same, or two pieces shorter. */
  predicate Same(bare: seq<Piece>, printed: seq<Piece>, same: bool) {
    if same then bare == printed else |bare| + 2 == |printed|
  }

  lemma BareIs(c: Expr, q: Prec)
    ensures Same(Body(c), Print(c, q), q <= Level(c))
  {
  }

  lemma SameAround(a: seq<Piece>, x: seq<Piece>, y: seq<Piece>, b: seq<Piece>, same: bool)
    requires Same(x, y, same)
    ensures Same(a + x + b, a + y + b, same) && Same(a + x, a + y, same) && Same(x + b, y + b, same)
  {
  }

  lemma {:induction false} LinksSame(links: seq<Link>, i: nat)
    requires i < |links|
    ensures Same(BareLinks(links, i), PrintLinks(links), EXPR <= Level(links[i].operand))
    decreases i
  {
    var link := links[i];
    if i == 0 {
      BareIs(link.operand, EXPR);
      SameAround(ComparatorPieces(link.cmp), Body(link.operand), Print(link.operand, EXPR), PrintLinks(links[1..]),
        EXPR <= Level(link.operand));
    } else {
      LinksSame(links[1..], i - 1);
      SameAround(PrintLink(links[0]), BareLinks(links[1..], i - 1), PrintLinks(links[1..]), [],
        EXPR <= Level(link.operand));
    }
  }

  function AskedLater(p: Prec, i: nat): Prec {
    if p + i < 18 then p + i else 18
  }

  lemma {:induction false} ValuesSame(values: seq<Expr>, t: Token, p: Prec, i: nat)
    requires i < |values|
    ensures Same(BareValues(values, t, p, i), PrintValues(values, t, p), AskedLater(p, i) <= Level(values[i]))
    decreases i
  {
    var same := AskedLater(p, i) <= Level(values[i]);
    if i == 0 {
      BareIs(values[0], p);
      SameAround([], Body(values[0]), Print(values[0], p), [Spaced(t)] + PrintValues(values[1..], t, Next(p)), same);
      Associate(Body(values[0]), [Spaced(t)], PrintValues(values[1..], t, Next(p)));
      Associate(Print(values[0], p), [Spaced(t)], PrintValues(values[1..], t, Next(p)));
    } else {
      ValuesSame(values[1..], t, Next(p), i - 1);
      SameAround(Print(values[0], p) + [Spaced(t)], BareValues(values[1..], t, Next(p), i - 1),
        PrintValues(values[1..], t, Next(p)), [], same);
    }
  }

  lemma {:induction false} ElementsSame(elts: seq<Expr>, i: nat)
    requires i < |elts|
    ensures Same(BareElements(elts, i), PrintElements(elts), TEST <= Level(elts[i]))
    ensures Same(BareItems(elts, i), PrintItems(elts), TEST <= Level(elts[i]))
    decreases i
  {
    var same := TEST <= Level(elts[i]);
    if i == 0 {
      BareIs(elts[0], TEST);
      SameAround([], Body(elts[0]), Print(elts[0], TEST), [COMMA] + PrintElements(elts[1..]), same);
      Associate(Body(elts[0]), [COMMA], PrintElements(elts[1..]));
      Associate(Print(elts[0], TEST), [COMMA], PrintElements(elts[1..]));
      SameAround([], Body(elts[0]), Print(elts[0], TEST), [Tight(Comma)], same);
    } else {
      ElementsSame(elts[1..], i - 1);
      SameAround(Print(elts[0], TEST) + [COMMA], BareElements(elts[1..], i - 1), PrintElements(elts[1..]), [], same);
    }
  }

  lemma {:induction false} ArgsSame(args: seq<Expr>, more: bool, i: nat)
    requires i < |args|
    ensures Same(BareArgs(args, more, i), PrintArgs(args, more), TEST <= Level(args[i]))
    decreases i
  {
    var comma := if |args| > 1 || more then [COMMA] else [];
    var same := TEST <= Level(args[i]);
    if i == 0 {
      BareIs(args[0], TEST);
      SameAround([], Body(args[0]), Print(args[0], TEST), comma, same);
      SameAround([], Body(args[0]) + comma, Print(args[0], TEST) + comma, PrintArgs(args[1..], more), same);
    } else {
      ArgsSame(args[1..], more, i - 1);
      SameAround(Print(args[0], TEST) + comma, BareArgs(args[1..], more, i - 1), PrintArgs(args[1..], more), [], same);
    }
  }

  lemma KeywordSame(k: Keyword)
    ensures Same(BareKeyword(k), PrintKeyword(k), TEST <= Level(k.value))
  {
    BareIs(k.value, TEST);
  }

  lemma {:induction false} KeywordsSame(keywords: seq<Keyword>, i: nat)
    requires i < |keywords|
    ensures Same(BareKeywords(keywords, i), PrintKeywords(keywords), TEST <= Level(keywords[i].value))
    decreases i
  {
    var comma := if |keywords| > 1 then [COMMA] else [];
    var same := TEST <= Level(keywords[i].value);
    if i == 0 {
      KeywordSame(keywords[0]);
      SameAround([], BareKeyword(keywords[0]), PrintKeyword(keywords[0]), comma, same);
      SameAround([], BareKeyword(keywords[0]) + comma, PrintKeyword(keywords[0]) + comma, PrintKeywords(keywords[1..]),
        same);
    } else {
      KeywordsSame(keywords[1..], i - 1);
      SameAround(PrintKeyword(keywords[0]) + comma, BareKeywords(keywords[1..], i - 1), PrintKeywords(keywords[1..]),
        [], same);
    }
  }

  /** Parameters of which none, or the one at i, has a default */
  lemma {:induction false} PlainSame(params: seq<Param>, i: int)
    ensures var same := 0 <= i < |params| && params[i].default.Some? ==> TEST <= Level(params[i].default.value);
      Same(BarePlain(params, i), PrintPlain(params), same) && (BarePlain(params, i) == [] <==> PrintPlain(params) == [])
    decreases params
  {
    if params != [] {
      PlainSame(params[1..], i - 1);
      if i == 0 && params[0].default.Some? {
        BareIs(params[0].default.value, TEST);
        PlainSame(params[1..], -1);
      }
    }
  }

  lemma SeparatedSame(a: seq<Piece>, a': seq<Piece>, b: seq<Piece>, b': seq<Piece>, same: bool)
    requires (a == [] <==> a' == []) && (b == [] <==> b' == [])
    requires (Same(a, a', same) && b == b') || (a == a' && Same(b, b', same))
    ensures Same(Separated(a, b), Separated(a', b'), same)
    ensures Separated(a, b) == [] <==> Separated(a', b') == []
  {
  }

  lemma NotMine(params: seq<Param>, i: int)
    requires !(0 <= i < |params|)
    ensures BarePlain(params, i) == PrintPlain(params)
  {
    PlainSame(params, i);
  }

  lemma Mine(params: seq<Param>, i: nat)
    requires i < |params| && params[i].default.Some?
    ensures Same(BarePlain(params, i), PrintPlain(params), TEST <= Level(params[i].default.value))
  {
    PlainSame(params, i);
  }

  function PrintFromStar(params: Params): seq<Piece> {
    Separated(StarPieces(params), Separated(PrintPlain(params.kwonly), DoubleStarPieces(params)))
  }

  function PrintFromArgs(params: Params): seq<Piece> {
    Separated(PrintPlain(params.args), PrintFromStar(params))
  }

  lemma FromStarSame(params: Params, i: int, same: bool)
    requires Same(BarePlain(params.kwonly, i), PrintPlain(params.kwonly), same)
    ensures Same(BareFromStar(params, i), PrintFromStar(params), same)
    ensures BareFromStar(params, i) == [] <==> PrintFromStar(params) == []
  {
    var end := DoubleStarPieces(params);
    PlainSame(params.kwonly, i);
    SeparatedSame(BarePlain(params.kwonly, i), PrintPlain(params.kwonly), end, end, same);
    SeparatedSame(StarPieces(params), StarPieces(params), Separated(BarePlain(params.kwonly, i), end),
      Separated(PrintPlain(params.kwonly), end), same);
  }

  /** No default after the slash is bare. */
  lemma FromArgsPrinted(params: Params, i: int)
    requires i < 0
    ensures BareFromArgs(params, i) == PrintFromArgs(params)
  {
    NotMine(params.args, i);
    NotMine(params.kwonly, i - |params.args|);
  }

  lemma FromArgsSame(params: Params, i: nat, same: bool)
    requires var c := DefaultOf(params, |params.posonly| + i); c.Some? && (same <==> TEST <= Level(c.value))
    ensures Same(BareFromArgs(params, i), PrintFromArgs(params), same)
    ensures BareFromArgs(params, i) == [] <==> PrintFromArgs(params) == []
  {
    var k := i - |params.args|;
    PlainSame(params.args, i);
    if k < 0 {
      NotMine(params.kwonly, k);
      FromStarSame(params, k, true);
      Mine(params.args, i);
    } else {
      Mine(params.kwonly, k);
      FromStarSame(params, k, same);
      NotMine(params.args, i);
    }
    SeparatedSame(BarePlain(params.args, i), PrintPlain(params.args), BareFromStar(params, k), PrintFromStar(params),
      same);
  }

  lemma ParamsSame(params: Params, i: nat)
    requires DefaultOf(params, i).Some?
    ensures Same(BareParams(params, i), PrintParams(params), TEST <= Level(DefaultOf(params, i).value))
    ensures BareParams(params, i) == [] <==> PrintParams(params) == []
  {
    var j := i - |params.posonly|;
    var same := TEST <= Level(DefaultOf(params, i).value);
    PlainSame(params.posonly, i);
    if j < 0 {
      FromArgsPrinted(params, j);
      Mine(params.posonly, i);
    } else {
      FromArgsSame(params, j, same);
      NotMine(params.posonly, i);
      SeparatedSame(SlashPieces(params), SlashPieces(params), BareFromArgs(params, j), PrintFromArgs(params), same);
    }
    SeparatedSame(BarePlain(params.posonly, i), PrintPlain(params.posonly),
      Separated(SlashPieces(params), BareFromArgs(params, j)), Separated(SlashPieces(params), PrintFromArgs(params)),
      same);
  }

  lemma LambdaSame(e: Expr, i: nat)
    requires e.Lambda? && Child(e, i).Some?
    ensures BareExactly(e, i)
  {
    var buffer := PrintParams(e.params);
    var start, colon := [Piece(false, KwLambda, buffer != [])], [Piece(false, Colon, true)];
    var same := TEST <= Level(Child(e, i).value);
    if i == 0 {
      BareIs(e.result, TEST);
      SameAround(start + buffer + colon, Body(e.result), Print(e.result, TEST), [], same);
    } else {
      ParamsSame(e.params, i - 1);
      SameAround(start, BareParams(e.params, i - 1), buffer, colon, same);
      SameAround([], start + BareParams(e.params, i - 1) + colon, start + buffer + colon, Print(e.result, TEST), same);
    }
  }

  lemma ConditionalSame(e: Expr, i: nat)
    requires e.IfExp? && Child(e, i).Some?
    ensures BareExactly(e, i)
  {
    BareIs(e.body, OR);
    BareIs(e.test, OR);
    BareIs(e.orelse, TEST);
  }

  lemma BetweenSame(start: seq<Piece>, bare: seq<Piece>, printed: seq<Piece>, end: Piece, same: bool)
    requires Same(bare, printed, same)
    ensures Same(start + bare + [end], start + printed + [end], same)
  {
  }

  lemma ArgSame(e: Expr, i: nat)
    requires e.Call? && 1 <= i <= |e.args|
    ensures BareExactly(e, i)
  {
    var same := TEST <= Level(e.args[i - 1]);
    var bare, printed := BareArgs(e.args, e.keywords != [], i - 1), PrintArgs(e.args, e.keywords != []);
    ArgsSame(e.args, e.keywords != [], i - 1);
    SameAround([], bare, printed, PrintKeywords(e.keywords), same);
    BetweenSame(Print(e.func, ATOM) + [Tight(LParen)], bare + PrintKeywords(e.keywords),
      printed + PrintKeywords(e.keywords), Tight(RParen), same);
  }

  lemma KeywordArgSame(e: Expr, i: nat)
    requires e.Call? && |e.args| < i <= |e.args| + |e.keywords|
    ensures BareExactly(e, i)
  {
    var same := TEST <= Level(e.keywords[i - 1 - |e.args|].value);
    var args := PrintArgs(e.args, e.keywords != []);
    var bare, printed := BareKeywords(e.keywords, i - 1 - |e.args|), PrintKeywords(e.keywords);
    KeywordsSame(e.keywords, i - 1 - |e.args|);
    SameAround(args, bare, printed, [], same);
    BetweenSame(Print(e.func, ATOM) + [Tight(LParen)], args + bare, args + printed, Tight(RParen), same);
  }

  lemma FirstSame(c: Expr, q: Prec, rest: seq<Piece>)
    ensures Same(Body(c) + rest, Print(c, q) + rest, q <= Level(c))
  {
    BareIs(c, q);
    SameAround([], Body(c), Print(c, q), rest, q <= Level(c));
  }

  lemma OperandSame(e: Expr, i: nat)
    requires e.BinOp? && i <= 1
    ensures BareExactly(e, i)
  {
    var op := [Spaced(BinToken(e.op))];
    if i == 0 {
      FirstSame(e.left, LeftLevel(e.op), op + Print(e.right, RightLevel(e.op)));
      Associate(Body(e.left), op, Print(e.right, RightLevel(e.op)));
      Associate(Print(e.left, LeftLevel(e.op)), op, Print(e.right, RightLevel(e.op)));
    } else {
      BareIs(e.right, RightLevel(e.op));
      SameAround(Print(e.left, LeftLevel(e.op)) + op, Body(e.right), Print(e.right, RightLevel(e.op)), [],
        RightLevel(e.op) <= Level(e.right));
    }
  }

  lemma TrailerSame(a: seq<Piece>, b: seq<Piece>, x: Piece, inside: seq<Piece>, y: Piece, same: bool)
    requires Same(a, b, same)
    ensures Same(a + [x] + inside + [y], b + [x] + inside + [y], same)
  {
  }

  lemma BaseSame(e: Expr)
    requires e.Attribute? || e.Call? || e.Subscript?
    ensures BareExactly(e, 0)
  {
    var c := Child(e, 0).value;
    BareIs(c, ATOM);
    if e.Attribute? {
      FirstSame(c, ATOM, [Piece(NeedsSpace(c), Dot, false), Tight(Word(e.attr))]);
    } else if e.Call? {
      TrailerSame(Body(c), Print(c, ATOM), Tight(LParen),
        PrintArgs(e.args, e.keywords != []) + PrintKeywords(e.keywords), Tight(RParen), ATOM <= Level(c));
    } else {
      TrailerSame(Body(c), Print(c, ATOM), Tight(LBracket), PrintSlice(e.slice), Tight(RBracket), ATOM <= Level(c));
    }
  }

  lemma ComparisonSame(e: Expr, i: nat)
    requires e.Compare? && i <= |e.links|
    ensures BareExactly(e, i)
  {
    if i == 0 {
      FirstSame(e.first, EXPR, PrintLinks(e.links));
    } else {
      LinksSame(e.links, i - 1);
      SameAround(Print(e.first, EXPR), BareLinks(e.links, i - 1), PrintLinks(e.links), [],
        EXPR <= Level(e.links[i - 1].operand));
    }
  }

  lemma SliceSame(e: Expr)
    requires e.Subscript?
    ensures BareExactly(e, 1)
  {
    BareIs(e.slice, TEST);
    BetweenSame(Print(e.base, ATOM) + [Tight(LBracket)], Body(e.slice), PrintSlice(e.slice), Tight(RBracket),
      !e.slice.NamedExpr?);
  }

  lemma ValueSame(e: Expr, i: nat)
    requires e.BoolOp? && i < |e.values|
    ensures BareExactly(e, i)
  {
    ValuesSame(e.values, BoolToken(e.boolop), Next(BoolLevel(e.boolop)), i);
    assert AskedLater(Next(BoolLevel(e.boolop)), i) == ValueLevel(e.boolop, i);
  }

  lemma ItemSame(e: Expr, i: nat)
    requires (e.List? && i < |e.items|) || (e.Tuple? && i < |e.elts|)
    ensures BareExactly(e, i)
  {
    if e.List? {
      ElementsSame(e.items, i);
      BetweenSame([Tight(LBracket)], BareElements(e.items, i), PrintElements(e.items), Tight(RBracket),
        TEST <= Level(e.items[i]));
    } else {
      ElementsSame(e.elts, i);
    }
  }

  lemma OnlySame(e: Expr, i: nat)
    requires (e.UnaryOp? && i == 0) || (e.NamedExpr? && i == 1)
    ensures BareExactly(e, i)
  {
    if e.UnaryOp? {
      BareIs(e.operand, UnaryLevel(e.unop));
      SameAround([Piece(false, UnaryToken(e.unop), e.unop == Not)], Body(e.operand),
        Print(e.operand, UnaryLevel(e.unop)), [], UnaryLevel(e.unop) <= Level(e.operand));
    } else {
      BareIs(e.bound, ATOM);
      SameAround([Tight(Word(e.target)), Spaced(Walrus)], Body(e.bound), Print(e.bound, ATOM), [],
        ATOM <= Level(e.bound));
    }
  }

  /** The same pieces, or two fewer, for every operand of every node */
  lemma WrittenBare(e: Expr, i: nat)
    requires WellFormed(e) && Child(e, i).Some?
    ensures BareExactly(e, i)
  {
    if i == 0 && (e.Attribute? || e.Call? || e.Subscript?) {
      BaseSame(e);
    } else if e.BinOp? {
      OperandSame(e, i);
    } else if e.Compare? {
      ComparisonSame(e, i);
    } else if e.BoolOp? {
      ValueSame(e, i);
    } else if e.IfExp? {
      ConditionalSame(e, i);
    } else if e.Lambda? {
      LambdaSame(e, i);
    } else if e.Tuple? || e.List? {
      ItemSame(e, i);
    } else if e.UnaryOp? || e.NamedExpr? {
      OnlySame(e, i);
    } else if e.Subscript? {
      SliceSame(e);
    } else if i <= |e.args| {
      ArgSame(e, i);
    } else {
      KeywordArgSame(e, i);
    }
  }
}
