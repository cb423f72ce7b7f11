/** From characters back to the tree: the printer leaves a space wherever two tokens would run into one. */
module PrintedText {
  import opened Basics
  import opened Expressions
  import opened ExpressionParser
  import opened ExpressionRoundTrip
  import opened ExpressionLexer
  import S = StrLiteral

  // ----- Lexing pieces -----

  /** The first character of a token's spelling */
  function Initial(t: Token): char {
    if t.Word? then CharAt(t.id, 0)
    else if t.Number? then CharAt(NumberSpelling(t.n), 0)
    else if t.Float? then CharAt(t.repr, 0)
    else if t.StringLit? then if S.ReprQuote(t.s) == S.DOUBLE then '"' else '\''
    else Mark(t)[0]
  }

  /** Nothing between two pieces is needed to tell their tokens apart. */
  predicate Apart(p: Piece, q: Piece) {
    p.after || q.before || StopsAt(p.token, Initial(q.token))
  }

  predicate Lexable(ps: seq<Piece>) {
    ps == [] || (TokenOk(ps[0].token) && (|ps| == 1 || Apart(ps[0], ps[1])) && Lexable(ps[1..]))
  }

  lemma StopsAtSpace(t: Token)
    ensures StopsAt(t, ' ')
  {
  }

  /** Every token is read as itself before a character at which it stops, and its spelling starts as expected. */
  lemma LexOne(t: Token, more: string, printable: int -> bool)
    requires TokenOk(t) && TextTable(printable) && StopsAt(t, CharAt(more, 0))
    ensures var w := Spelling(t, printable);
      w != "" && w[0] == Initial(t) && w[0] != ' ' && LexToken(w + more) == Some((t, |w|))
  {
    if IsWordLike(t) {
      KeywordToken(t);
      LexWord(t, WordSpelling(t), more);
    } else if t.Number? {
      LexNumber(t.n, more);
      assert ExpressionLexer.D.IsDigit(NumberSpelling(t.n)[0]);
    } else if t.Float? {
      LexFloat(t.repr, more);
    } else if t.StringLit? {
      LexStringLiteral(t.s, more, printable);
      QuoteComesFirst(t.s, printable);
    } else {
      LexOther(t, more);
    }
  }

  lemma QuoteComesFirst(s: S.Str, printable: int -> bool)
    requires S.IsStr(s)
    ensures var w := StringSpelling(s, printable); w != "" && w[0] == Initial(StringLit(s))
  {
    assert S.ReprLiteral(s, printable)[0] == S.ReprQuote(s);
  }

  lemma LexSpelled(t: Token, more: string, printable: int -> bool)
    requires TokenOk(t) && TextTable(printable) && StopsAt(t, CharAt(more, 0))
    ensures Lex(Spelling(t, printable) + more) == match Lex(more) case None => None case Some(ts) => Some([t] + ts)
  {
    var w := Spelling(t, printable);
    LexOne(t, more, printable);
    assert (w + more)[|w|..] == more;
  }

  lemma LexSpace(s: string)
    ensures Lex(" " + s) == Lex(s)
  {
    assert (" " + s)[1..] == s;
  }

  lemma PieceSplit(p: Piece, more: string, printable: int -> bool)
    ensures PieceText(p, printable) + more
         == (if p.before then " " else "") + (Spelling(p.token, printable) + ((if p.after then " " else "") + more))
  {
  }

  lemma LexPiece(p: Piece, more: string, printable: int -> bool)
    requires TokenOk(p.token) && TextTable(printable) && (p.after || StopsAt(p.token, CharAt(more, 0)))
    ensures Lex(PieceText(p, printable) + more)
         == match Lex(more) case None => None case Some(ts) => Some([p.token] + ts)
  {
    PieceSplit(p, more, printable);
    var rest := (if p.after then " " else "") + more;
    var w := Spelling(p.token, printable);
    LexSpace(more);
    StopsAtSpace(p.token);
    assert "" + more == more;
    LexSpelled(p.token, rest, printable);
    LexSpace(w + rest);
    assert "" + (w + rest) == w + rest;
  }

  lemma TextStart(ps: seq<Piece>, printable: int -> bool)
    requires ps != [] && TokenOk(ps[0].token) && TextTable(printable)
    ensures CharAt(Text(ps, printable), 0) == if ps[0].before then ' ' else Initial(ps[0].token)
  {
    StopsAtSpace(ps[0].token);
    LexOne(ps[0].token, "", printable);
  }

  lemma {:induction false} LexText(ps: seq<Piece>, printable: int -> bool)
    requires Lexable(ps) && TextTable(printable)
    ensures Lex(Text(ps, printable)) == Some(K(ps))
  {
    if ps == [] {
      assert Text(ps, printable) == "";
    } else {
      LexText(ps[1..], printable);
      FirstStops(ps, printable);
      LexPiece(ps[0], Text(ps[1..], printable), printable);
      TokensOf(ps);
    }
  }

  lemma FirstStops(ps: seq<Piece>, printable: int -> bool)
    requires ps != [] && Lexable(ps) && TextTable(printable)
    ensures ps[0].after || StopsAt(ps[0].token, CharAt(Text(ps[1..], printable), 0))
  {
    StopsAtSpace(ps[0].token);
    if |ps| > 1 {
      TextStart(ps[1..], printable);
    }
  }

  lemma TokensOf(ps: seq<Piece>)
    requires ps != []
    ensures K(ps) == [ps[0].token] + K(ps[1..])
  {
  }

  // ----- Joining pieces -----

  predicate Joint(a: seq<Piece>, b: seq<Piece>) {
    a == [] || b == [] || Apart(a[|a| - 1], b[0])
  }

  lemma {:induction false} Glue(a: seq<Piece>, b: seq<Piece>)
    requires Lexable(a) && Lexable(b) && Joint(a, b)
    ensures Lexable(a + b)
  {
    if a == [] {
      assert a + b == b;
    } else {
      Glue(a[1..], b);
      assert (a + b)[1..] == a[1..] + b;
      if |a| == 1 {
        assert a[1..] == [] && a[1..] + b == b;
      }
    }
  }

  /** What an expression starts with, and what may end one: a comma ends a tuple of one item. */
  predicate Opens(t: Token) {
    StartsAt(t) != 0 && TokenOk(t)
  }

  predicate Closes(t: Token) {
    || t.Word? || t.Number? || t.Float? || t.StringLit? || t.KwTrue? || t.KwFalse? || t.KwNone? || t.Dots?
    || t.RParen? || t.RBracket? || t.Comma?
  }

  predicate Fine(ps: seq<Piece>) {
    ps != [] && Lexable(ps) && Opens(ps[0].token) && Closes(ps[|ps| - 1].token)
  }

  /** The same, or a keyword argument that starts with two stars */
  predicate Inner(ps: seq<Piece>) {
    ps != [] && Lexable(ps) && (Opens(ps[0].token) || ps[0].token.StarStar?) && Closes(ps[|ps| - 1].token)
  }

  lemma {:induction false} LexableTokens(ps: seq<Piece>, i: nat)
    requires Lexable(ps) && i < |ps|
    ensures TokenOk(ps[i].token)
  {
    if i > 0 {
      LexableTokens(ps[1..], i - 1);
    }
  }

  /** The tokens that are written tight before an expression end where the expression starts. */
  lemma TightBefore(t: Token, u: Token)
    requires Opens(u)
    requires IsClosed(t) || t.Plus? || t.Minus? || t.StarStar? || t.Assign?
    ensures StopsAt(t, Initial(u))
  {
    if u.Number? {
      LetterBefore(t, NumberSpelling(u.n)[0]);
    } else if u.Float? {
      LetterBefore(t, u.repr[0]);
    } else if IsWordLike(u) {
      KeywordToken(u);
      LetterBefore(t, WordSpelling(u)[0]);
    } else {
      MarkBefore(t, u);
    }
  }

  lemma LetterBefore(t: Token, c: char)
    requires IsIdChar(c)
    requires IsClosed(t) || t.Plus? || t.Minus? || t.StarStar? || t.Assign?
    ensures StopsAt(t, c)
  {
  }

  lemma MarkBefore(t: Token, u: Token)
    requires Opens(u) && !u.Number? && !u.Float? && !IsWordLike(u)
    requires IsClosed(t) || t.Plus? || t.Minus? || t.StarStar? || t.Assign?
    ensures StopsAt(t, Initial(u))
  {
    var c := Initial(u);
    assert IsQuote(c) || c == '(' || c == '[' || c == '+' || c == '-' || c == '~' || c == '.';
  }

  /** The end of an expression is told from the marks that are written tight after it. */
  lemma TightAfter(t: Token, u: Token)
    requires Closes(t) || t.Slash? || t.Star?
    requires u.RParen? || u.RBracket? || u.LParen? || u.LBracket? || u.Comma? || u.Colon? || u.Dot?
    requires t.Number? ==> !u.Dot?
    ensures StopsAt(t, Initial(u))
  {
  }

  lemma One(p: Piece)
    requires TokenOk(p.token)
    ensures Lexable([p])
  {
    assert [p][1..] == [];
  }

  /** a x b, for an x that is set off by spaces or is a comma */
  lemma FineAround(a: seq<Piece>, x: Piece, b: seq<Piece>)
    requires Fine(a) && Fine(b) && x.after && (x.before || x.token.Comma?) && TokenOk(x.token)
    ensures Fine(a + [x] + b)
  {
    One(x);
    if !x.before {
      TightAfter(a[|a| - 1].token, x.token);
    }
    Glue(a, [x]);
    Glue(a + [x], b);
  }

  lemma FineBefore(x: Piece, b: seq<Piece>)
    requires Fine(b) && Opens(x.token)
    requires x.after || x.token.Plus? || x.token.Minus? || x.token.Tilde?
    ensures Fine([x] + b)
  {
    One(x);
    if !x.after {
      TightBefore(x.token, b[0].token);
    }
    Glue([x], b);
  }

  /** Brackets around something that starts and ends like an expression, or around nothing */
  lemma Enclosed(x: Token, b: seq<Piece>, y: Token)
    requires (x.LParen? && y.RParen?) || (x.LBracket? && y.RBracket?)
    requires b == [] || Inner(b)
    ensures Lexable([Tight(x)] + b + [Tight(y)])
  {
    One(Tight(x));
    One(Tight(y));
    if b == [] {
      assert [Tight(x)] + b == [Tight(x)];
    } else {
      LexableTokens(b, 0);
      Glue([Tight(x)], b);
      TightAfter(b[|b| - 1].token, y);
    }
    Glue([Tight(x)] + b, [Tight(y)]);
  }

  lemma FineEnclosed(x: Token, b: seq<Piece>, y: Token)
    requires (x.LParen? && y.RParen?) || (x.LBracket? && y.RBracket?)
    requires b == [] || Fine(b)
    ensures Fine([Tight(x)] + b + [Tight(y)])
  {
    Enclosed(x, b, y);
  }

  lemma FineTrailer(a: seq<Piece>, x: Token, b: seq<Piece>, y: Token)
    requires (x.LParen? && y.RParen?) || (x.LBracket? && y.RBracket?)
    requires Fine(a)
    requires b == [] || Inner(b)
    ensures Fine(a + [Tight(x)] + b + [Tight(y)])
  {
    Enclosed(x, b, y);
    TightAfter(a[|a| - 1].token, x);
    AfterBracket(a, Tight(x), b, Tight(y));
  }

  lemma AfterBracket(a: seq<Piece>, x: Piece, b: seq<Piece>, y: Piece)
    requires Fine(a) && Lexable([x] + b + [y]) && Apart(a[|a| - 1], x) && Closes(y.token)
    ensures Fine(a + [x] + b + [y])
  {
    Glue(a, [x] + b + [y]);
    assert a + [x] + b + [y] == a + ([x] + b + [y]);
  }

  // ----- Printed expressions -----

  predicate ProperConstant(c: Constant) {
    && (c.FloatConstant? ==> IsFloatText(c.repr))
    && (c.StrConstant? ==> S.IsStr(c.s))
  }

  predicate ProperParam(param: Param)
    decreases param
  {
    && IsName(param.name)
    && match param.default
       case None => true
       case Some(value) => Proper(value)
  }

  predicate ProperParams(params: Params)
    decreases params
  {
    && (forall p :: p in params.posonly ==> ProperParam(p))
    && (forall p :: p in params.args ==> ProperParam(p))
    && (forall p :: p in params.kwonly ==> ProperParam(p))
    && (params.vararg.Some? ==> IsName(params.vararg.value))
    && (params.kwarg.Some? ==> IsName(params.kwarg.value))
  }

  /** Every name in e is an identifier that is not reserved, and every constant is one that Python has. */
  predicate Proper(e: Expr) {
    match e
    case Name(id) => IsName(id)
    case Constant(c) => ProperConstant(c)
    case UnaryOp(_, operand) => Proper(operand)
    case BinOp(left, _, right) => Proper(left) && Proper(right)
    case Compare(first, links) => Proper(first) && forall l :: l in links ==> Proper(l.operand)
    case BoolOp(_, values) => forall v :: v in values ==> Proper(v)
    case IfExp(test, body, orelse) => Proper(test) && Proper(body) && Proper(orelse)
    case Lambda(params, result) => ProperParams(params) && Proper(result)
    case Attribute(object_, attr) => Proper(object_) && IsName(attr)
    case Call(func, args, keywords) =>
      && Proper(func)
      && (forall a :: a in args ==> Proper(a))
      && (forall k :: k in keywords ==> Proper(k.value) && (k.arg.Some? ==> IsName(k.arg.value)))
    case Subscript(base, slice) => Proper(base) && Proper(slice)
    case Tuple(elts) => forall v :: v in elts ==> Proper(v)
    case List(items) => forall v :: v in items ==> Proper(v)
    case NamedExpr(target, bound) => IsName(target) && Proper(bound)
  }

  ghost predicate Ok(e: Expr) {
    WellFormed(e) && Proper(e)
  }

  lemma {:induction false} PrintIsFine(e: Expr, p: Prec)
    requires Ok(e)
    ensures Fine(Print(e, p))
    decreases e, 3
  {
    BodyIsFine(e);
    if p > Level(e) {
      FineEnclosed(LParen, Body(e), RParen);
    }
  }

  lemma {:induction false} BodyIsFine(e: Expr)
    requires Ok(e)
    ensures Fine(Body(e))
    decreases e, 2
  {
    if e.Name? || e.Constant? {
      LeafIsFine(e);
    } else if e.UnaryOp? || e.BinOp? {
      OperationIsFine(e);
    } else if e.Compare? {
      PrintIsFine(e.first, Next(CMP));
      LinksAreFine(Print(e.first, Next(CMP)), e.links);
    } else if e.BoolOp? {
      ValuesAreFine(e.values, BoolToken(e.boolop), Next(BoolLevel(e.boolop)));
    } else if e.IfExp? {
      IfIsFine(e);
    } else if e.Lambda? {
      LambdaIsFine(e);
    } else if e.Attribute? {
      AttributeIsFine(e);
    } else if e.Call? {
      CallIsFine(e);
    } else if e.NamedExpr? {
      PrintIsFine(e.bound, ATOM);
      NamedIsFine(e.target, Print(e.bound, ATOM));
    } else {
      BracketsAreFine(e);
    }
  }

  lemma LeafIsFine(e: Expr)
    requires Ok(e) && (e.Name? || e.Constant?)
    ensures Fine(Body(e))
  {
    One(Body(e)[0]);
  }

  lemma {:induction false} OperationIsFine(e: Expr)
    requires Ok(e) && (e.UnaryOp? || e.BinOp?)
    ensures Fine(Body(e))
    decreases e, 1
  {
    if e.UnaryOp? {
      var level := UnaryLevel(e.unop);
      PrintIsFine(e.operand, level);
      FineBefore(Piece(false, UnaryToken(e.unop), e.unop == Not), Print(e.operand, level));
    } else {
      var l, r := LeftLevel(e.op), RightLevel(e.op);
      PrintIsFine(e.left, l);
      PrintIsFine(e.right, r);
      FineAround(Print(e.left, l), Spaced(BinToken(e.op)), Print(e.right, r));
    }
  }

  lemma {:induction false} BracketsAreFine(e: Expr)
    requires Ok(e) && (e.Subscript? || e.Tuple? || e.List?)
    ensures Fine(Body(e))
    decreases e, 1
  {
    if e.Subscript? {
      PrintIsFine(e.base, ATOM);
      SliceIsFine(e.slice);
      FineTrailer(Print(e.base, ATOM), LBracket, PrintSlice(e.slice), RBracket);
    } else if e.List? {
      if e.items != [] {
        ElementsAreFine(e.items);
      }
      FineEnclosed(LBracket, PrintElements(e.items), RBracket);
    } else if e.elts == [] {
      FineEnclosed(LParen, [], RParen);
      assert [Tight(LParen)] + [] + [Tight(RParen)] == [Tight(LParen), Tight(RParen)];
    } else {
      ItemsAreFine(e.elts);
    }
  }

  lemma NamedIsFine(target: string, b: seq<Piece>)
    requires IsName(target) && Fine(b)
    ensures Fine([Tight(Word(target)), Spaced(Walrus)] + b)
  {
    One(Tight(Word(target)));
    FineAround([Tight(Word(target))], Spaced(Walrus), b);
    assert [Tight(Word(target))] + [Spaced(Walrus)] == [Tight(Word(target)), Spaced(Walrus)];
  }

  lemma {:induction false} IfIsFine(e: Expr)
    requires Ok(e) && e.IfExp?
    ensures Fine(Body(e))
    decreases e, 1
  {
    var body, test, orelse := Print(e.body, Next(TEST)), Print(e.test, Next(TEST)), Print(e.orelse, TEST);
    PrintIsFine(e.body, Next(TEST));
    PrintIsFine(e.test, Next(TEST));
    PrintIsFine(e.orelse, TEST);
    FineAround(body, Spaced(KwIf), test);
    FineAround(body + [Spaced(KwIf)] + test, Spaced(KwElse), orelse);
  }

  lemma {:induction false} CallIsFine(e: Expr)
    requires Ok(e) && e.Call?
    ensures Fine(Body(e))
    decreases e, 1
  {
    PrintIsFine(e.func, ATOM);
    KeywordsAreFine(e.keywords);
    ArgumentsAreFine(e.args, e.keywords);
    FineTrailer(Print(e.func, ATOM), LParen, PrintArgs(e.args, e.keywords != []) + PrintKeywords(e.keywords), RParen);
  }

  lemma {:induction false} LinksAreFine(a: seq<Piece>, links: seq<Link>)
    requires Fine(a) && forall l :: l in links ==> Ok(l.operand)
    ensures Fine(a + PrintLinks(links))
    decreases links, 0
  {
    if links == [] {
      assert a + PrintLinks(links) == a;
    } else {
      LinkIsFine(a, links[0]);
      LinksAreFine(a + PrintLink(links[0]), links[1..]);
      Associate(a, PrintLink(links[0]), PrintLinks(links[1..]));
    }
  }

  lemma {:induction false} LinkIsFine(a: seq<Piece>, link: Link)
    requires Fine(a) && Ok(link.operand)
    ensures Fine(a + PrintLink(link))
    decreases link, 0
  {
    var op, b := ComparatorPieces(link.cmp), Print(link.operand, Next(CMP));
    PrintIsFine(link.operand, Next(CMP));
    ComparatorIsLexable(link.cmp);
    AfterOperator(a, op, b);
  }

  lemma AfterOperator(a: seq<Piece>, op: seq<Piece>, b: seq<Piece>)
    requires Fine(a) && Fine(b) && op != [] && Lexable(op) && op[0].before && op[|op| - 1].after
    ensures Fine(a + (op + b))
  {
    Glue(op, b);
    Glue(a, op + b);
  }

  lemma ComparatorIsLexable(op: Comparator)
    ensures var ps := ComparatorPieces(op);
      ps != [] && Lexable(ps) && ps[0].before && ps[|ps| - 1].after
  {
    var ps := ComparatorPieces(op);
    if |ps| == 2 {
      assert ps[1..] == [ps[1]];
      One(ps[1]);
    } else {
      assert ps == [ps[0]];
      One(ps[0]);
    }
  }

  lemma {:induction false} ValuesAreFine(values: seq<Expr>, t: Token, p: Prec)
    requires values != [] && (forall v :: v in values ==> Ok(v)) && TokenOk(t)
    ensures Fine(PrintValues(values, t, p))
    decreases values, 0
  {
    PrintIsFine(values[0], p);
    if |values| > 1 {
      ValuesAreFine(values[1..], t, Next(p));
      FineAround(Print(values[0], p), Spaced(t), PrintValues(values[1..], t, Next(p)));
    }
  }

  lemma {:induction false} ElementsAreFine(elts: seq<Expr>)
    requires elts != [] && forall v :: v in elts ==> Ok(v)
    ensures Fine(PrintElements(elts))
    decreases elts, 0
  {
    PrintIsFine(elts[0], TEST);
    if |elts| > 1 {
      ElementsAreFine(elts[1..]);
      FineAround(Print(elts[0], TEST), COMMA, PrintElements(elts[1..]));
    }
  }

  lemma {:induction false} ItemsAreFine(elts: seq<Expr>)
    requires elts != [] && forall v :: v in elts ==> Ok(v)
    ensures Fine(PrintItems(elts))
    decreases elts, 1
  {
    if |elts| == 1 {
      var a := Print(elts[0], TEST);
      PrintIsFine(elts[0], TEST);
      One(Tight(Comma));
      TightAfter(a[|a| - 1].token, Comma);
      Glue(a, [Tight(Comma)]);
    } else {
      ElementsAreFine(elts);
    }
  }

  lemma {:induction false} SliceIsFine(slice: Expr)
    requires Ok(slice)
    ensures Fine(PrintSlice(slice))
    decreases slice, 4
  {
    if slice.Tuple? && slice.elts != [] {
      ItemsAreFine(slice.elts);
    } else {
      PrintIsFine(slice, TEST);
    }
  }

  // ----- Parameters -----

  predicate ParamOpens(t: Token) {
    t.Word? || t.Slash? || t.Star? || t.StarStar?
  }

  predicate ParamCloses(t: Token) {
    Closes(t) || t.Slash? || t.Star?
  }

  /** Parameters, or none */
  predicate Listed(ps: seq<Piece>) {
    ps == [] || (Lexable(ps) && ParamOpens(ps[0].token) && ParamCloses(ps[|ps| - 1].token))
  }

  lemma SeparatedIsListed(a: seq<Piece>, b: seq<Piece>)
    requires Listed(a) && Listed(b)
    ensures Listed(Separated(a, b))
  {
    if a != [] && b != [] {
      One(COMMA);
      TightAfter(a[|a| - 1].token, Comma);
      Glue(a, [COMMA]);
      Glue(a + [COMMA], b);
    }
  }

  lemma {:induction false} ParamIsListed(param: Param)
    requires WellFormedParam(param) && ProperParam(param)
    ensures Listed(PrintParam(param)) && PrintParam(param) != []
    decreases param, 0
  {
    var x, y := Tight(Word(param.name)), Tight(Assign);
    One(x);
    match param.default
    case None =>
    case Some(value) =>
      PrintIsFine(value, TEST);
      NamedValue(param.name, Print(value, TEST));
  }

  /** `name=value`, for a default or a keyword argument */
  lemma NamedValue(name: string, b: seq<Piece>)
    requires IsName(name) && Fine(b)
    ensures Inner([Tight(Word(name)), Tight(Assign)] + b)
  {
    var x, y := Tight(Word(name)), Tight(Assign);
    One(x);
    One(y);
    Glue([x], [y]);
    assert [x] + [y] == [x, y];
    TightBefore(Assign, b[0].token);
    Glue([x, y], b);
  }

  lemma {:induction false} PlainAreListed(params: seq<Param>)
    requires forall p :: p in params ==> WellFormedParam(p) && ProperParam(p)
    ensures Listed(PrintPlain(params))
    decreases params, 0
  {
    if params != [] {
      ParamIsListed(params[0]);
      PlainAreListed(params[1..]);
      SeparatedIsListed(PrintParam(params[0]), PrintPlain(params[1..]));
      PlainsSeparated(params, []);
    }
  }

  lemma MarksAreListed(params: Params)
    requires ProperParams(params)
    ensures Listed(SlashPieces(params)) && Listed(StarPieces(params)) && Listed(DoubleStarPieces(params))
  {
    One(Tight(Slash));
    One(Tight(Star));
    if params.vararg.Some? {
      NamedMark(Star, params.vararg.value);
    }
    if params.kwarg.Some? {
      NamedMark(StarStar, params.kwarg.value);
    }
  }

  lemma NamedMark(t: Token, name: string)
    requires (t.Star? || t.StarStar?) && IsName(name)
    ensures Lexable([Tight(t), Tight(Word(name))])
  {
    One(Tight(t));
    One(Tight(Word(name)));
    Glue([Tight(t)], [Tight(Word(name))]);
    assert [Tight(t)] + [Tight(Word(name))] == [Tight(t), Tight(Word(name))];
  }

  lemma {:induction false} ParamsAreListed(params: Params)
    requires WellFormedParams(params) && ProperParams(params)
    ensures Listed(PrintParams(params))
    decreases params, 1
  {
    MarksAreListed(params);
    PlainAreListed(params.posonly);
    PlainAreListed(params.args);
    PlainAreListed(params.kwonly);
    var p4 := Separated(PrintPlain(params.kwonly), DoubleStarPieces(params));
    SeparatedIsListed(PrintPlain(params.kwonly), DoubleStarPieces(params));
    var p3 := Separated(StarPieces(params), p4);
    SeparatedIsListed(StarPieces(params), p4);
    var p2 := Separated(PrintPlain(params.args), p3);
    SeparatedIsListed(PrintPlain(params.args), p3);
    SeparatedIsListed(SlashPieces(params), p2);
    SeparatedIsListed(PrintPlain(params.posonly), Separated(SlashPieces(params), p2));
  }

  lemma {:induction false} LambdaIsFine(e: Expr)
    requires Ok(e) && e.Lambda?
    ensures Fine(Body(e))
    decreases e, 1
  {
    ParamsAreListed(e.params);
    PrintIsFine(e.result, TEST);
    HeadIsFine(PrintParams(e.params), Print(e.result, TEST));
  }

  lemma HeadIsFine(buffer: seq<Piece>, b: seq<Piece>)
    requires Listed(buffer) && Fine(b)
    ensures Fine(LambdaHead(buffer) + b)
  {
    LambdaHeadIsLexable(buffer);
    Glue(LambdaHead(buffer), b);
  }

  function LambdaHead(buffer: seq<Piece>): seq<Piece> {
    [Piece(false, KwLambda, buffer != [])] + buffer + [Piece(false, Colon, true)]
  }

  lemma LambdaHeadIsLexable(buffer: seq<Piece>)
    requires Listed(buffer)
    ensures Lexable(LambdaHead(buffer))
  {
    var x, y := Piece(false, KwLambda, buffer != []), Piece(false, Colon, true);
    var head := [x] + buffer;
    One(x);
    One(y);
    if buffer == [] {
      assert head == [x];
    } else {
      Glue([x], buffer);
      TightAfter(head[|head| - 1].token, Colon);
    }
    Glue(head, [y]);
  }

  /** Only an integer constant ends in a number when it is an operand: the space before the point is needed
      there, and written there. */
  lemma EndsInNumber(e: Expr)
    requires Ok(e) && Fine(Print(e, ATOM))
    requires var ps := Print(e, ATOM); ps[|ps| - 1].token.Number?
    ensures NeedsSpace(e)
  {
  }

  lemma {:induction false} AttributeIsFine(e: Expr)
    requires Ok(e) && e.Attribute?
    ensures Fine(Body(e))
    decreases e, 1
  {
    var a := Print(e.object_, ATOM);
    var dot, attr := Piece(NeedsSpace(e.object_), Dot, false), Tight(Word(e.attr));
    PrintIsFine(e.object_, ATOM);
    One(dot);
    One(attr);
    KeywordToken(Word(e.attr));
    Glue([dot], [attr]);
    assert [dot] + [attr] == [dot, attr];
    if a[|a| - 1].token.Number? {
      EndsInNumber(e.object_);
    } else {
      TightAfter(a[|a| - 1].token, Dot);
    }
    Glue(a, [dot, attr]);
  }

  // ----- Arguments -----

  lemma InnerComma(a: seq<Piece>, b: seq<Piece>)
    requires Inner(a) && Inner(b)
    ensures Inner(a + [COMMA] + b)
  {
    One(COMMA);
    TightAfter(a[|a| - 1].token, Comma);
    Glue(a, [COMMA]);
    Glue(a + [COMMA], b);
  }

  lemma {:induction false} KeywordIsFine(k: Keyword)
    requires Ok(k.value) && (k.arg.Some? ==> IsName(k.arg.value))
    ensures Inner(PrintKeyword(k))
    decreases k, 0
  {
    var b := Print(k.value, TEST);
    PrintIsFine(k.value, TEST);
    if k.arg.Some? {
      NamedValue(k.arg.value, b);
    } else {
      One(Tight(StarStar));
      TightBefore(StarStar, b[0].token);
      Glue([Tight(StarStar)], b);
    }
  }

  lemma {:induction false} KeywordsAreFine(keywords: seq<Keyword>)
    requires forall k :: k in keywords ==> Ok(k.value) && (k.arg.Some? ==> IsName(k.arg.value))
    ensures if keywords == [] then PrintKeywords(keywords) == [] else Inner(PrintKeywords(keywords))
    decreases keywords, 0
  {
    if keywords != [] {
      KeywordIsFine(keywords[0]);
      KeywordsAreFine(keywords[1..]);
      if |keywords| == 1 {
        LastKeyword(keywords);
      } else {
        InnerComma(PrintKeyword(keywords[0]), PrintKeywords(keywords[1..]));
      }
    }
  }

  lemma {:induction false} ArgumentsAreFine(args: seq<Expr>, keywords: seq<Keyword>)
    requires forall a :: a in args ==> Ok(a)
    requires if keywords == [] then PrintKeywords(keywords) == [] else Inner(PrintKeywords(keywords))
    ensures var ps := PrintArgs(args, keywords != []) + PrintKeywords(keywords);
      if args == [] && keywords == [] then ps == [] else Inner(ps)
    decreases args, 0
  {
    var end := PrintKeywords(keywords);
    if args == [] {
      assert PrintArgs(args, keywords != []) + end == end;
    } else {
      PrintIsFine(args[0], TEST);
      ArgumentsAreFine(args[1..], keywords);
      if |args| == 1 && keywords == [] {
        LastArgument(args);
        assert Print(args[0], TEST) + end == Print(args[0], TEST);
      } else {
        var others := PrintArgs(args[1..], keywords != []);
        InnerComma(Print(args[0], TEST), others + end);
        Associate(Print(args[0], TEST) + [COMMA], others, end);
      }
    }
  }

  // ----- The round trip -----

  /** Reading a whole text at a level of the grammar */
  function ParseText(s: string, p: Prec): Option<Expr> {
    match Lex(s)
    case None => None
    case Some(ts) =>
      var r := Parse(p, ts);
      if r.Parsed? && r.rest == [] then Some(r.value) else None
  }

  /** The space before the point of an attribute is needed after every integer: without it the point belongs to a
      number, and the integer is not read as itself. */
  lemma PointAfterNumber(n: nat, more: string)
    ensures var ts := Lex(NumberSpelling(n) + ("." + more)); ts.Some? ==> ts.value != [] && ts.value[0].Float?
  {
    var w, rest := NumberSpelling(n), "." + more;
    DigitRunOf(w, rest);
    assert CharAt(w + rest, |w|) == '.';
    assert NumberRun(w + rest) >= |w| + 1;
    assert LexToken(w + rest) == LexNumeric(w + rest);
  }

  /** Lexing and parsing the characters that are printed for an expression gives back the expression. */
  lemma TextRoundTrip(e: Expr, p: Prec, printable: int -> bool)
    requires WellFormed(e) && Proper(e) && TextTable(printable)
    ensures ParseText(Text(Print(e, p), printable), p) == Some(e)
  {
    PrintIsFine(e, p);
    LexText(Print(e, p), printable);
    RoundTrip(e, p);
  }
}
