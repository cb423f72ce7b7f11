/** Where the printer writes spaces: the tokens alone tell. */
module Spacing {
  import opened Basics
  import opened Expressions
  import opened ExpressionParser
  import opened ExpressionRoundTrip
  import opened ExpressionLexer

  // ----- The rule -----

  /** An operand may end with the token. */
  predicate EndsOperand(t: Token) {
    || t.Word? || t.Number? || t.Float? || t.StringLit? || t.KwTrue? || t.KwFalse? || t.KwNone? || t.Dots?
    || t.RParen? || t.RBracket?
  }

  /** A token that is written between two operands, except brackets, commas and points */
  predicate Infix(t: Token) {
    t.KwElse? || ContinuesAt(t) == 1 || 4 <= ContinuesAt(t) <= 16
  }

  /** One space stands between t and u, where an operand ends before t or not: on both sides of what is between two
      operands, after `not`, `in`, a colon, and a comma unless a bracket closes, after `lambda` with parameters, and
      before the point of an attribute of an integer or a truth value. */
  predicate SpaceBetween(operandBefore: bool, t: Token, u: Token) {
    || (operandBefore && Infix(t)) || (EndsOperand(t) && Infix(u))
    || t.KwNot? || t.KwIn? || t.Colon? || (t.Comma? && !u.RParen? && !u.RBracket?) || (t.KwLambda? && !u.Colon?)
    || (u.Dot? && (t.Number? || t.KwTrue? || t.KwFalse?))
  }

  /** The tokens with the spaces between them */
  function WithSpaces(operandBefore: bool, ts: seq<Token>, printable: int -> bool): string
    decreases |ts|
  {
    if ts == [] then ""
    else if |ts| == 1 then Spelling(ts[0], printable)
    else
      Spelling(ts[0], printable) + (if SpaceBetween(operandBefore, ts[0], ts[1]) then " " else "")
      + WithSpaces(EndsOperand(ts[0]), ts[1..], printable)
  }

  // ----- Pieces whose spaces follow the rule -----

  predicate Joined(operandBefore: bool, x: Piece, y: Piece) {
    !(x.after && y.before) && (x.after || y.before <==> SpaceBetween(operandBefore, x.token, y.token))
  }

  predicate Neat(operandBefore: bool, ps: seq<Piece>)
    decreases |ps|
  {
    |ps| > 1 ==> Joined(operandBefore, ps[0], ps[1]) && Neat(EndsOperand(ps[0].token), ps[1..])
  }

  /** Something without spaces of its own before and after it, which does not start with a closing bracket */
  predicate Inner(ps: seq<Piece>) {
    && ps != [] && !ps[0].before && !ps[|ps| - 1].after && Neat(false, ps)
    && !ps[0].token.RParen? && !ps[0].token.RBracket?
    && (EndsOperand(ps[|ps| - 1].token) || ps[|ps| - 1].token.Comma?)
  }

  predicate Item(ps: seq<Piece>) {
    Inner(ps) && EndsOperand(ps[|ps| - 1].token)
  }

  /** The same, and it starts like an expression. */
  predicate Operand(ps: seq<Piece>) {
    Item(ps) && StartsAt(ps[0].token) != 0
  }

  predicate Whole(ps: seq<Piece>) {
    Inner(ps) && StartsAt(ps[0].token) != 0
  }

  lemma {:induction false} Join(operandBefore: bool, a: seq<Piece>, b: seq<Piece>)
    requires a != [] && b != [] && Neat(operandBefore, a) && !Infix(a[|a| - 1].token)
    requires Neat(EndsOperand(a[|a| - 1].token), b) && Joined(false, a[|a| - 1], b[0])
    ensures Neat(operandBefore, a + b)
    decreases a
  {
    if |a| == 1 {
      assert (a + b)[1..] == b;
    } else {
      Join(EndsOperand(a[0].token), a[1..], b);
      assert (a + b)[1..] == a[1..] + b;
    }
  }

  lemma Before(operandBefore: bool, x: Piece, b: seq<Piece>)
    requires b != [] && Joined(operandBefore, x, b[0]) && Neat(EndsOperand(x.token), b)
    ensures Neat(operandBefore, [x] + b)
  {
    assert ([x] + b)[1..] == b;
  }

  /** An operator between two operands */
  lemma Around(a: seq<Piece>, x: Token, b: seq<Piece>)
    requires Item(a) && Operand(b) && Infix(x)
    ensures Item(a + [Spaced(x)] + b)
    ensures Operand(a) ==> Operand(a + [Spaced(x)] + b)
  {
    Before(true, Spaced(x), b);
    Join(false, a, [Spaced(x)] + b);
    Associate(a, [Spaced(x)], b);
  }

  lemma Listing(a: seq<Piece>, b: seq<Piece>)
    requires Item(a) && Inner(b)
    ensures Inner(a + [COMMA] + b)
    ensures Operand(a) ==> Whole(a + [COMMA] + b)
    ensures Item(b) ==> Item(a + [COMMA] + b)
  {
    Before(true, COMMA, b);
    Join(false, a, [COMMA] + b);
    Associate(a, [COMMA], b);
  }

  lemma Prefixed(x: Piece, b: seq<Piece>)
    requires Operand(b) && !x.before && (x.after <==> x.token.KwNot?)
    requires x.token.KwNot? || x.token.Plus? || x.token.Minus? || x.token.Tilde? || x.token.StarStar? || x.token.Assign?
    ensures Item([x] + b) && (StartsAt(x.token) != 0 ==> Operand([x] + b))
  {
    Before(false, x, b);
  }

  lemma Bracketed(x: Token, b: seq<Piece>, y: Token)
    requires (x.LParen? && y.RParen?) || (x.LBracket? && y.RBracket?)
    requires b == [] || Inner(b)
    ensures Operand([Tight(x)] + b + [Tight(y)]) && Neat(true, [Tight(x)] + b + [Tight(y)])
  {
    if b == [] {
      assert [Tight(x)] + b + [Tight(y)] == [Tight(x)] + [Tight(y)];
      Before(false, Tight(x), [Tight(y)]);
      Before(true, Tight(x), [Tight(y)]);
    } else {
      Join(false, b, [Tight(y)]);
      Before(false, Tight(x), b + [Tight(y)]);
      Before(true, Tight(x), b + [Tight(y)]);
      Associate([Tight(x)], b, [Tight(y)]);
    }
  }

  lemma Trailed(a: seq<Piece>, x: Token, b: seq<Piece>, y: Token)
    requires (x.LParen? && y.RParen?) || (x.LBracket? && y.RBracket?)
    requires Operand(a) && (b == [] || Inner(b))
    ensures Operand(a + [Tight(x)] + b + [Tight(y)])
  {
    var c := [Tight(x)] + b + [Tight(y)];
    Bracketed(x, b, y);
    Join(false, a, c);
    assert a + [Tight(x)] + b + [Tight(y)] == a + c;
  }

  // ----- Printed expressions -----

  lemma {:induction false} PrintIsNeat(e: Expr, p: Prec)
    requires WellFormed(e)
    ensures Whole(Print(e, p)) && (p >= TEST ==> Operand(Print(e, p)))
    decreases e, 3
  {
    BodyIsNeat(e);
    if p > Level(e) {
      Bracketed(LParen, Body(e), RParen);
    }
  }

  lemma {:induction false} BodyIsNeat(e: Expr)
    requires WellFormed(e)
    ensures Whole(Body(e)) && (Level(e) >= TEST ==> Operand(Body(e)))
    decreases e, 2
  {
    if e.UnaryOp? || e.BinOp? {
      OperationIsNeat(e);
    } else if e.Compare? {
      PrintIsNeat(e.first, Next(CMP));
      LinksAreNeat(Print(e.first, Next(CMP)), e.links);
    } else if e.BoolOp? {
      ValuesAreNeat(e.values, BoolToken(e.boolop), Next(BoolLevel(e.boolop)));
    } else if e.IfExp? {
      IfIsNeat(e);
    } else if e.Lambda? {
      LambdaIsNeat(e);
    } else if e.Attribute? {
      AttributeIsNeat(e);
    } else if e.Call? {
      CallIsNeat(e);
    } else if e.NamedExpr? {
      PrintIsNeat(e.bound, ATOM);
      NamedIsNeat(e.target, Print(e.bound, ATOM));
    } else if e.Subscript? || e.Tuple? || e.List? {
      BracketsAreNeat(e);
    }
  }

  lemma {:induction false} OperationIsNeat(e: Expr)
    requires WellFormed(e) && (e.UnaryOp? || e.BinOp?)
    ensures Operand(Body(e))
    decreases e, 1
  {
    if e.UnaryOp? {
      PrintIsNeat(e.operand, UnaryLevel(e.unop));
      Prefixed(Piece(false, UnaryToken(e.unop), e.unop == Not), Print(e.operand, UnaryLevel(e.unop)));
    } else {
      PrintIsNeat(e.left, LeftLevel(e.op));
      PrintIsNeat(e.right, RightLevel(e.op));
      Around(Print(e.left, LeftLevel(e.op)), BinToken(e.op), Print(e.right, RightLevel(e.op)));
    }
  }

  lemma NamedIsNeat(target: string, b: seq<Piece>)
    requires Operand(b)
    ensures Operand([Tight(Word(target)), Spaced(Walrus)] + b)
  {
    Around([Tight(Word(target))], Walrus, b);
    assert [Tight(Word(target))] + [Spaced(Walrus)] == [Tight(Word(target)), Spaced(Walrus)];
  }

  lemma {:induction false} IfIsNeat(e: Expr)
    requires WellFormed(e) && e.IfExp?
    ensures Operand(Body(e))
    decreases e, 1
  {
    var body, test, orelse := Print(e.body, Next(TEST)), Print(e.test, Next(TEST)), Print(e.orelse, TEST);
    PrintIsNeat(e.body, Next(TEST));
    PrintIsNeat(e.test, Next(TEST));
    PrintIsNeat(e.orelse, TEST);
    Around(body, KwIf, test);
    Around(body + [Spaced(KwIf)] + test, KwElse, orelse);
  }

  lemma {:induction false} LinksAreNeat(a: seq<Piece>, links: seq<Link>)
    requires Operand(a) && forall l :: l in links ==> WellFormed(l.operand)
    ensures Operand(a + PrintLinks(links))
    decreases links, 0
  {
    if links == [] {
      assert a + PrintLinks(links) == a;
    } else {
      LinkIsNeat(a, links[0]);
      LinksAreNeat(a + PrintLink(links[0]), links[1..]);
      Associate(a, PrintLink(links[0]), PrintLinks(links[1..]));
    }
  }

  lemma {:induction false} LinkIsNeat(a: seq<Piece>, link: Link)
    requires Operand(a) && WellFormed(link.operand)
    ensures Operand(a + PrintLink(link))
    decreases link, 0
  {
    var ps, b := ComparatorPieces(link.cmp), Print(link.operand, Next(CMP));
    PrintIsNeat(link.operand, Next(CMP));
    if link.cmp == IsNot || link.cmp == NotIn {
      TwoWords(a, ps[0], ps[1], b);
      assert ps == [ps[0], ps[1]];
    } else {
      Around(a, ps[0].token, b);
      assert a + (ps + b) == a + [ps[0]] + b;
    }
  }

  lemma TwoWords(a: seq<Piece>, x: Piece, y: Piece, b: seq<Piece>)
    requires Operand(a) && Operand(b) && x == Spaced(x.token) && y == Piece(false, y.token, true)
    requires (x.token.KwIs? && y.token.KwNot?) || (x.token.KwNot? && y.token.KwIn?)
    ensures Operand(a + ([x, y] + b))
  {
    Before(false, y, b);
    Before(true, x, [y] + b);
    Join(false, a, [x] + ([y] + b));
    assert [x, y] + b == [x] + ([y] + b);
  }

  lemma {:induction false} ValuesAreNeat(values: seq<Expr>, t: Token, p: Prec)
    requires values != [] && (forall v :: v in values ==> WellFormed(v)) && Infix(t) && p >= TEST
    ensures Operand(PrintValues(values, t, p))
    decreases values, 0
  {
    PrintIsNeat(values[0], p);
    if |values| > 1 {
      ValuesAreNeat(values[1..], t, Next(p));
      Around(Print(values[0], p), t, PrintValues(values[1..], t, Next(p)));
    }
  }

  lemma {:induction false} ElementsAreNeat(elts: seq<Expr>)
    requires elts != [] && forall v :: v in elts ==> WellFormed(v)
    ensures Operand(PrintElements(elts))
    decreases elts, 0
  {
    PrintIsNeat(elts[0], TEST);
    if |elts| > 1 {
      ElementsAreNeat(elts[1..]);
      Listing(Print(elts[0], TEST), PrintElements(elts[1..]));
    }
  }

  lemma {:induction false} ItemsAreNeat(elts: seq<Expr>)
    requires elts != [] && forall v :: v in elts ==> WellFormed(v)
    ensures Whole(PrintItems(elts))
    decreases elts, 1
  {
    if |elts| == 1 {
      PrintIsNeat(elts[0], TEST);
      Join(false, Print(elts[0], TEST), [Tight(Comma)]);
    } else {
      ElementsAreNeat(elts);
    }
  }

  lemma {:induction false} SliceIsNeat(slice: Expr)
    requires WellFormed(slice)
    ensures Whole(PrintSlice(slice))
    decreases slice, 4
  {
    if slice.Tuple? && slice.elts != [] {
      ItemsAreNeat(slice.elts);
    } else {
      PrintIsNeat(slice, TEST);
    }
  }

  lemma {:induction false} BracketsAreNeat(e: Expr)
    requires WellFormed(e) && (e.Subscript? || e.Tuple? || e.List?)
    ensures Whole(Body(e)) && (Level(e) >= TEST ==> Operand(Body(e)))
    decreases e, 1
  {
    if e.Subscript? {
      PrintIsNeat(e.base, ATOM);
      SliceIsNeat(e.slice);
      Trailed(Print(e.base, ATOM), LBracket, PrintSlice(e.slice), RBracket);
    } else if e.List? {
      if e.items != [] {
        ElementsAreNeat(e.items);
      }
      Bracketed(LBracket, PrintElements(e.items), RBracket);
    } else if e.elts == [] {
      Bracketed(LParen, [], RParen);
      assert [Tight(LParen)] + [] + [Tight(RParen)] == [Tight(LParen), Tight(RParen)];
    } else {
      ItemsAreNeat(e.elts);
    }
  }

  // ----- Attributes -----

  /** Only an integer or a truth value, as an operand, ends with such a token. */
  lemma EndsLikeInteger(e: Expr)
    requires WellFormed(e)
    ensures var ps := Print(e, ATOM);
      ps != [] && var t := ps[|ps| - 1].token; NeedsSpace(e) <==> t.Number? || t.KwTrue? || t.KwFalse?
  {
  }

  lemma {:induction false} AttributeIsNeat(e: Expr)
    requires WellFormed(e) && e.Attribute?
    ensures Operand(Body(e))
    decreases e, 1
  {
    var a, dot, attr := Print(e.object_, ATOM), Piece(NeedsSpace(e.object_), Dot, false), Tight(Word(e.attr));
    PrintIsNeat(e.object_, ATOM);
    EndsLikeInteger(e.object_);
    PointIsNeat(a, dot, attr);
  }

  lemma PointIsNeat(a: seq<Piece>, dot: Piece, attr: Piece)
    requires Operand(a) && dot.token.Dot? && !dot.after && attr == Tight(attr.token) && attr.token.Word?
    requires var t := a[|a| - 1].token; dot.before <==> t.Number? || t.KwTrue? || t.KwFalse?
    ensures Operand(a + [dot, attr])
  {
    Before(true, dot, [attr]);
    Join(false, a, [dot] + [attr]);
    assert [dot] + [attr] == [dot, attr];
  }

  // ----- Arguments -----

  lemma NamedValueIsNeat(name: string, b: seq<Piece>)
    requires Operand(b)
    ensures Operand([Tight(Word(name)), Tight(Assign)] + b)
  {
    Prefixed(Tight(Assign), b);
    Before(false, Tight(Word(name)), [Tight(Assign)] + b);
    assert [Tight(Word(name)), Tight(Assign)] + b == [Tight(Word(name))] + ([Tight(Assign)] + b);
  }

  lemma {:induction false} KeywordIsNeat(k: Keyword)
    requires WellFormed(k.value)
    ensures Item(PrintKeyword(k))
    decreases k, 0
  {
    PrintIsNeat(k.value, TEST);
    if k.arg.Some? {
      NamedValueIsNeat(k.arg.value, Print(k.value, TEST));
    } else {
      Prefixed(Tight(StarStar), Print(k.value, TEST));
    }
  }

  lemma {:induction false} KeywordsAreNeat(keywords: seq<Keyword>)
    requires forall k :: k in keywords ==> WellFormed(k.value)
    ensures if keywords == [] then PrintKeywords(keywords) == [] else Item(PrintKeywords(keywords))
    decreases keywords, 0
  {
    if keywords != [] {
      KeywordIsNeat(keywords[0]);
      KeywordsAreNeat(keywords[1..]);
      if |keywords| == 1 {
        LastKeyword(keywords);
      } else {
        Listing(PrintKeyword(keywords[0]), PrintKeywords(keywords[1..]));
      }
    }
  }

  lemma {:induction false} ArgumentsAreNeat(args: seq<Expr>, keywords: seq<Keyword>)
    requires forall a :: a in args ==> WellFormed(a)
    requires if keywords == [] then PrintKeywords(keywords) == [] else Item(PrintKeywords(keywords))
    ensures var ps := PrintArgs(args, keywords != []) + PrintKeywords(keywords);
      if args == [] && keywords == [] then ps == [] else Item(ps)
    decreases args, 0
  {
    var end := PrintKeywords(keywords);
    if args == [] {
      assert PrintArgs(args, keywords != []) + end == end;
    } else {
      PrintIsNeat(args[0], TEST);
      ArgumentsAreNeat(args[1..], keywords);
      if |args| == 1 && keywords == [] {
        LastArgument(args);
        assert Print(args[0], TEST) + end == Print(args[0], TEST);
      } else {
        var others := PrintArgs(args[1..], keywords != []);
        Listing(Print(args[0], TEST), others + end);
        Associate(Print(args[0], TEST) + [COMMA], others, end);
      }
    }
  }

  lemma {:induction false} CallIsNeat(e: Expr)
    requires WellFormed(e) && e.Call?
    ensures Operand(Body(e))
    decreases e, 1
  {
    PrintIsNeat(e.func, ATOM);
    KeywordsAreNeat(e.keywords);
    ArgumentsAreNeat(e.args, e.keywords);
    Trailed(Print(e.func, ATOM), LParen, PrintArgs(e.args, e.keywords != []) + PrintKeywords(e.keywords), RParen);
  }

  // ----- Lambdas -----

  const COLON: Piece := Piece(false, Colon, true)

  /** What follows a parameter: the colon and the result, or a comma and more parameters before them */
  function Going(next: seq<Piece>, end: seq<Piece>): seq<Piece> {
    if next == [] then end else [COMMA] + (next + end)
  }

  predicate StartsParam(p: Piece) {
    !p.before && (p.token.Word? || p.token.Slash? || p.token.Star? || p.token.StarStar?)
  }

  predicate GoesOn(next: seq<Piece>, end: seq<Piece>) {
    && end != [] && end[0] == COLON && Neat(false, Going(next, end))
    && (next != [] ==> StartsParam(next[0]))
  }

  /** A parameter, a slash, or a star */
  predicate ParamPiece(a: seq<Piece>) {
    && a != [] && StartsParam(a[0]) && !a[|a| - 1].after && Neat(false, a)
    && (EndsOperand(a[|a| - 1].token) || |a| == 1)
  }

  lemma ParamNext(a: seq<Piece>, next: seq<Piece>, end: seq<Piece>)
    requires ParamPiece(a) && GoesOn(next, end)
    ensures GoesOn(Separated(a, next), end)
  {
    var rest := Going(next, end);
    if |a| == 1 {
      assert Neat(true, rest);
      Before(false, a[0], rest);
      assert a + rest == [a[0]] + rest;
    } else {
      Join(false, a, rest);
    }
    Before(false, COMMA, a + rest);
    GoingSeparated(a, next, end);
  }

  lemma GoingSeparated(a: seq<Piece>, next: seq<Piece>, end: seq<Piece>)
    requires a != []
    ensures Going(Separated(a, next), end) == [COMMA] + (a + Going(next, end))
  {
    Associate(a, [COMMA], next + end);
    Associate(a + [COMMA], next, end);
  }

  lemma {:induction false} ParamIsNeat(param: Param)
    requires WellFormedParam(param)
    ensures ParamPiece(PrintParam(param))
    decreases param, 0
  {
    match param.default
    case None =>
    case Some(value) =>
      PrintIsNeat(value, TEST);
      NamedValueIsNeat(param.name, Print(value, TEST));
  }

  lemma {:induction false} PlainGoOn(params: seq<Param>, next: seq<Piece>, end: seq<Piece>)
    requires (forall p :: p in params ==> WellFormedParam(p)) && GoesOn(next, end)
    ensures GoesOn(Separated(PrintPlain(params), next), end)
    decreases params, 0
  {
    if params != [] {
      ParamIsNeat(params[0]);
      PlainGoOn(params[1..], next, end);
      ParamNext(PrintParam(params[0]), Separated(PrintPlain(params[1..]), next), end);
      PlainsSeparated(params, next);
    }
  }

  lemma MarkGoesOn(a: seq<Piece>, next: seq<Piece>, end: seq<Piece>)
    requires a == [] || a == [Tight(Slash)] || a == [Tight(Star)]
      || (|a| == 2 && a[0] in [Tight(Star), Tight(StarStar)] && a[1].token.Word? && a[1] == Tight(a[1].token))
    requires GoesOn(next, end)
    ensures GoesOn(Separated(a, next), end)
  {
    if a != [] {
      assert |a| == 2 ==> a[1..] == [a[1]];
      ParamNext(a, next, end);
    }
  }

  lemma {:induction false} ParamsGoOn(params: Params, end: seq<Piece>)
    requires WellFormedParams(params) && GoesOn([], end)
    ensures GoesOn(PrintParams(params), end)
    decreases params, 1
  {
    MarkGoesOn(DoubleStarPieces(params), [], end);
    assert Separated(DoubleStarPieces(params), []) == DoubleStarPieces(params);
    PlainGoOn(params.kwonly, DoubleStarPieces(params), end);
    var p4 := Separated(PrintPlain(params.kwonly), DoubleStarPieces(params));
    MarkGoesOn(StarPieces(params), p4, end);
    var p3 := Separated(StarPieces(params), p4);
    PlainGoOn(params.args, p3, end);
    var p2 := Separated(PrintPlain(params.args), p3);
    MarkGoesOn(SlashPieces(params), p2, end);
    PlainGoOn(params.posonly, Separated(SlashPieces(params), p2), end);
  }

  lemma {:induction false} LambdaIsNeat(e: Expr)
    requires WellFormed(e) && e.Lambda?
    ensures Operand(Body(e))
    decreases e, 1
  {
    var result := Print(e.result, TEST);
    PrintIsNeat(e.result, TEST);
    Before(false, COLON, result);
    ParamsGoOn(e.params, [COLON] + result);
    HeadIsNeat(PrintParams(e.params), result);
  }

  lemma HeadIsNeat(buffer: seq<Piece>, result: seq<Piece>)
    requires Operand(result) && GoesOn(buffer, [COLON] + result)
    ensures Operand([Piece(false, KwLambda, buffer != [])] + buffer + [COLON] + result)
  {
    var x, end := Piece(false, KwLambda, buffer != []), [COLON] + result;
    assert [x] + buffer + [COLON] + result == [x] + (buffer + end);
    if buffer == [] {
      assert buffer + end == end;
    } else {
      assert Going(buffer, end)[1..] == buffer + end;
    }
    Before(false, x, buffer + end);
  }

  // ----- The text -----

  lemma {:induction false} TextOf(operandBefore: bool, ps: seq<Piece>, printable: int -> bool)
    requires ps != [] && Neat(operandBefore, ps) && !ps[|ps| - 1].after
    ensures Text(ps, printable) == (if ps[0].before then " " else "") + WithSpaces(operandBefore, K(ps), printable)
    decreases ps
  {
    assert K(ps)[1..] == K(ps[1..]);
    if |ps| > 1 {
      TextOf(EndsOperand(ps[0].token), ps[1..], printable);
      FirstPiece(operandBefore, ps, printable);
    } else {
      assert Text(ps[1..], printable) == "";
    }
  }

  lemma FirstPiece(operandBefore: bool, ps: seq<Piece>, printable: int -> bool)
    requires |ps| > 1 && Neat(operandBefore, ps)
    ensures var rest := WithSpaces(EndsOperand(ps[0].token), K(ps[1..]), printable);
      PieceText(ps[0], printable) + ((if ps[1].before then " " else "") + rest)
      == (if ps[0].before then " " else "") + WithSpaces(operandBefore, K(ps), printable)
  {
    assert K(ps)[1..] == K(ps[1..]);
  }

  /** The spaces of a printed expression are those that its tokens call for. */
  lemma SpacesFollowTokens(e: Expr, p: Prec, printable: int -> bool)
    requires WellFormed(e)
    ensures Text(Print(e, p), printable) == WithSpaces(false, K(Print(e, p)), printable)
  {
    PrintIsNeat(e, p);
    TextOf(false, Print(e, p), printable);
    assert "" + WithSpaces(false, K(Print(e, p)), printable) == WithSpaces(false, K(Print(e, p)), printable);
  }
}
