/** Parsing what the printer writes gives back the tree. */
module ExpressionRoundTrip {
  import opened Basics
  import opened Expressions
  import opened ExpressionParser

  /** The tokens of printed pieces */
  function K(ps: seq<Piece>): (ts: seq<Token>)
    ensures |ts| == |ps|
  {
    seq(|ps|, i requires 0 <= i < |ps| => ps[i].token)
  }

  /** Text may end, or go on with rest, after an expression of level p. */
  predicate Follows(p: int, rest: seq<Token>) {
    rest == [] || (ContinuesAt(rest[0]) < p && (p <= 2 ==> StartsAt(rest[0]) == 0))
  }

  // ----- Sequences -----

  lemma Split2(a: seq<Piece>, b: seq<Piece>, rest: seq<Token>)
    ensures K(a + b) + rest == K(a) + (K(b) + rest)
  {
  }

  lemma SplitHead(x: Piece, b: seq<Piece>, rest: seq<Token>)
    ensures K([x] + b) + rest == [x.token] + (K(b) + rest)
    ensures (K([x] + b) + rest)[0] == x.token && (K([x] + b) + rest)[1..] == K(b) + rest
  {
  }

  lemma SplitAround(a: seq<Piece>, x: Piece, b: seq<Piece>, rest: seq<Token>)
    ensures K(a + [x] + b) + rest == K(a) + ([x.token] + (K(b) + rest))
  {
  }

  lemma SplitLast(a: seq<Piece>, x: Piece, rest: seq<Token>)
    ensures K(a + [x]) + rest == K(a) + ([x.token] + rest)
  {
  }

  lemma SplitEnclosed(x: Piece, a: seq<Piece>, y: Piece, rest: seq<Token>)
    ensures K([x] + a + [y]) + rest == [x.token] + (K(a) + ([y.token] + rest))
  {
  }

  lemma SplitTrailer(a: seq<Piece>, x: Piece, b: seq<Piece>, y: Piece, rest: seq<Token>)
    ensures K(a + [x] + b + [y]) + rest == K(a) + ([x.token] + (K(b) + ([y.token] + rest)))
  {
  }

  lemma HeadTail<T>(s: seq<T>)
    requires s != []
    ensures s == [s[0]] + s[1..]
  {
  }

  lemma Tail(t: Token, ts: seq<Token>)
    ensures ([t] + ts)[0] == t && ([t] + ts)[1..] == ts
  {
  }

  lemma Tail2(t: Token, u: Token, ts: seq<Token>)
    ensures ([t, u] + ts)[0] == t && ([t, u] + ts)[1] == u && ([t, u] + ts)[2..] == ts
  {
  }

  // ----- Going down the levels -----

  lemma NoTrailer(e: Expr, rest: seq<Token>)
    requires Follows(ATOM, rest)
    ensures ParseTrailers(e, rest) == Parsed(e, rest)
  {
  }

  /** What is parsed at a level starts with a token that can start it. */
  lemma {:induction false} Starts(k: Prec, ts: seq<Token>)
    requires k >= 3 && Parse(k, ts).Parsed?
    ensures ts != [] && StartsAt(ts[0]) >= k
    decreases 18 - k
  {
    if k == 18 {
      AtomStarts(ts);
    } else if k == 4 && Sees(ts, KwLambda) {
    } else if k == 7 && Sees(ts, KwNot) {
    } else if k == 15 && FactorAt(ts).Some? {
    } else {
      StartsBelow(k, ts);
      Starts(k + 1, ts);
    }
  }

  lemma AtomStarts(ts: seq<Token>)
    requires Parse(ATOM, ts).Parsed?
    ensures ts != [] && StartsAt(ts[0]) == 18
  {
    assert ParsePrimary(ts).Parsed? && ParseAtom(ts).Parsed?;
  }

  lemma StartsBelow(k: Prec, ts: seq<Token>)
    requires 3 <= k < 18 && Parse(k, ts).Parsed?
    requires !(k == 4 && Sees(ts, KwLambda)) && !(k == 7 && Sees(ts, KwNot)) && !(k == 15 && FactorAt(ts).Some?)
    ensures Parse(k + 1, ts).Parsed?
  {
  }

  lemma NoOperator(k: Prec, e: Expr, rest: seq<Token>)
    requires 9 <= k <= 14 && Follows(k, rest)
    ensures ParseOperands(k, e, rest) == Parsed(e, rest)
  {
    assert BinaryAt(k, rest).None?;
  }

  lemma NoLink(rest: seq<Token>)
    requires Follows(CMP, rest)
    ensures ParseLinks(rest) == Parsed([], rest)
  {
    assert ParseComparator(rest).Failed?;
  }

  lemma DownOne(k: Prec, ts: seq<Token>, e: Expr, rest: seq<Token>)
    requires 3 <= k < 18 && Parse(k + 1, ts) == Parsed(e, rest) && Follows(k, rest)
    ensures Parse(k, ts) == Parsed(e, rest)
  {
    Starts(k + 1, ts);
    if k <= 6 {
      DownLogic(k, ts, e, rest);
    } else if k == 8 {
      NoLink(rest);
    } else if 9 <= k <= 14 {
      NoOperator(k, e, rest);
    } else if k == 16 {
      assert !Sees(rest, StarStar);
    }
  }

  lemma DownLogic(k: Prec, ts: seq<Token>, e: Expr, rest: seq<Token>)
    requires 3 <= k <= 6 && Parse(k + 1, ts) == Parsed(e, rest) && Follows(k, rest)
    requires ts != [] && StartsAt(ts[0]) > k
    ensures Parse(k, ts) == Parsed(e, rest)
  {
    if k == 4 {
      assert !Sees(rest, KwIf) && !Sees(ts, KwLambda);
    } else if k >= 5 {
      assert !Sees(rest, BoolToken(if k == 5 then Or else And));
    }
  }

  /** What is parsed at a level is parsed at the looser ones, if none of them reads on. */
  lemma {:induction false} Down(p: Prec, k: Prec, ts: seq<Token>, e: Expr, rest: seq<Token>)
    requires 3 <= p <= k && Parse(k, ts) == Parsed(e, rest) && Follows(p, rest)
    ensures Parse(p, ts) == Parsed(e, rest)
    decreases k - p
  {
    if p < k {
      DownOne(k - 1, ts, e, rest);
      Down(p, k - 1, ts, e, rest);
    }
  }

  /** A word that no expression goes on after is all that is parsed. */
  lemma LoneWord(ts: seq<Token>)
    requires |ts| >= 2 && ts[0].Word? && ContinuesAt(ts[1]) < 4
    ensures Parse(TEST, ts) == Parsed(Name(ts[0].id), ts[1..])
  {
    assert ParseAtom(ts) == Parsed(Name(ts[0].id), ts[1..]);
    NoTrailer(Name(ts[0].id), ts[1..]);
    assert ParsePrimary(ts) == Parsed(Name(ts[0].id), ts[1..]);
    Down(TEST, 18, ts, Name(ts[0].id), ts[1..]);
  }

  /** An item is parsed like an expression, unless an assignment follows. */
  lemma ItemIsTest(k: Prec, ts: seq<Token>, e: Expr, rest: seq<Token>)
    requires k <= 2 && Parse(TEST, ts) == Parsed(e, rest) && !Sees(rest, Walrus)
    ensures ParseItem(k, ts) == Parsed(e, rest)
  {
    if SeesWord(ts, Walrus) {
      LoneWord(ts);
    }
  }

  lemma NotKeyword(ts: seq<Token>, e: Expr, rest: seq<Token>)
    requires Parse(TEST, ts) == Parsed(e, rest) && !Sees(rest, Assign)
    ensures !SeesWord(ts, Assign) && ts != [] && StartsAt(ts[0]) != 0
  {
    Starts(TEST, ts);
    if SeesWord(ts, Assign) {
      LoneWord(ts);
    }
  }

  // ----- Expressions -----

  /** What is printed at level q is parsed at every level p that is no tighter. */
  lemma {:induction false} PrintParses(e: Expr, q: Prec, p: Prec, rest: seq<Token>)
    requires WellFormed(e) && 3 <= p <= q && Follows(p, rest)
    ensures Parse(p, K(Print(e, q)) + rest) == Parsed(e, rest)
    decreases e, 8
  {
    if q <= Level(e) {
      BodyParses(e, rest);
      Down(p, Level(e), K(Body(e)) + rest, e, rest);
    } else {
      PrimaryParses(e, rest);
      NoTrailer(e, rest);
      Down(p, ATOM, K(Print(e, q)) + rest, e, rest);
    }
  }

  lemma {:induction false} BodyParses(e: Expr, rest: seq<Token>)
    requires WellFormed(e) && Level(e) >= 4 && Follows(Level(e), rest)
    ensures Parse(Level(e), K(Body(e)) + rest) == Parsed(e, rest)
    decreases e, 4
  {
    if e.UnaryOp? {
      UnaryParses(e, rest);
    } else if e.BinOp? {
      BinaryParses(e, rest);
    } else if e.Compare? {
      CompareParses(e, rest);
    } else if e.BoolOp? {
      BoolParses(e, rest);
    } else if e.IfExp? {
      IfParses(e, rest);
    } else if e.Lambda? {
      LambdaParses(e, rest);
    } else {
      AtomAlone(e, rest);
    }
  }

  lemma {:induction false} AtomAlone(e: Expr, rest: seq<Token>)
    requires WellFormed(e) && Level(e) == ATOM && Follows(ATOM, rest)
    ensures Parse(Level(e), K(Body(e)) + rest) == Parsed(e, rest)
    decreases e, 3
  {
    AtomParses(e, rest);
    NoTrailer(e, rest);
  }

  lemma {:induction false} BinaryParses(e: Expr, rest: seq<Token>)
    requires WellFormed(e) && e.BinOp? && Follows(Level(e), rest)
    ensures Parse(Level(e), K(Body(e)) + rest) == Parsed(e, rest)
    decreases e, 3
  {
    if e.op == Pow {
      PowerParses(e, rest);
    } else {
      OperandsParse(e, rest);
      NoOperator(Level(e), e, rest);
    }
  }

  lemma {:induction false} UnaryParses(e: Expr, rest: seq<Token>)
    requires WellFormed(e) && e.UnaryOp? && Follows(Level(e), rest)
    ensures Parse(Level(e), K(Body(e)) + rest) == Parsed(e, rest)
    decreases e, 2
  {
    var k := UnaryLevel(e.unop);
    SplitHead(Piece(false, UnaryToken(e.unop), e.unop == Not), Print(e.operand, k), rest);
    PrintParses(e.operand, k, k, rest);
  }

  /** A binary operator of a left-associative level: its left operand may be of the same level. */
  lemma {:induction false} OperandsParse(e: Expr, rest: seq<Token>)
    requires WellFormed(e) && e.BinOp? && e.op != Pow && Follows(Level(e) + 1, rest)
    ensures ParseBinary(Level(e), K(Body(e)) + rest) == ParseOperands(Level(e), e, rest)
    decreases e, 2
  {
    var k: Prec := BinLevel(e.op);
    var right := K(Print(e.right, k + 1)) + rest;
    var more := [BinToken(e.op)] + right;
    SplitAround(Print(e.left, k), Spaced(BinToken(e.op)), Print(e.right, k + 1), rest);
    LeftParses(k, e.left, more);
    PrintParses(e.right, k + 1, k + 1, rest);
    OperandStep(k, e.left, e.op, e.right, right, rest);
  }

  lemma OperandStep(k: Prec, left: Expr, op: Operator, right: Expr, ts: seq<Token>, rest: seq<Token>)
    requires op != Pow && k == BinLevel(op) && Parse(k + 1, ts) == Parsed(right, rest)
    ensures ParseOperands(k, left, [BinToken(op)] + ts) == ParseOperands(k, BinOp(left, op, right), rest)
  {
    Tail(BinToken(op), ts);
  }

  lemma {:induction false} LeftParses(k: Prec, e: Expr, rest: seq<Token>)
    requires WellFormed(e) && 9 <= k <= 14 && Follows(k + 1, rest)
    ensures ParseBinary(k, K(Print(e, k)) + rest) == ParseOperands(k, e, rest)
    decreases e, 9
  {
    if Level(e) == k {
      OperandsParse(e, rest);
    } else {
      PrintParses(e, k + 1, k + 1, rest);
    }
  }

  lemma {:induction false} PowerParses(e: Expr, rest: seq<Token>)
    requires WellFormed(e) && e.BinOp? && e.op == Pow && Follows(Level(e), rest)
    ensures Parse(Level(e), K(Body(e)) + rest) == Parsed(e, rest)
    decreases e, 2
  {
    var right := K(Print(e.right, POWER)) + rest;
    SplitAround(Print(e.left, AWAIT), Spaced(StarStar), Print(e.right, POWER), rest);
    PrintParses(e.left, AWAIT, AWAIT, [StarStar] + right);
    PrintParses(e.right, POWER, FACTOR, rest);
    PowerStep(K(Print(e.left, AWAIT)) + ([StarStar] + right), e.left, right, e.right, rest);
  }

  lemma PowerStep(ts: seq<Token>, left: Expr, ts': seq<Token>, right: Expr, rest: seq<Token>)
    requires Parse(AWAIT, ts) == Parsed(left, [StarStar] + ts') && Parse(FACTOR, ts') == Parsed(right, rest)
    ensures Parse(POWER, ts) == Parsed(BinOp(left, Pow, right), rest)
  {
    Tail(StarStar, ts');
  }

  lemma {:induction false} IfParses(e: Expr, rest: seq<Token>)
    requires WellFormed(e) && e.IfExp? && Follows(Level(e), rest)
    ensures Parse(Level(e), K(Body(e)) + rest) == Parsed(e, rest)
    decreases e, 2
  {
    var orelse := K(Print(e.orelse, TEST)) + rest;
    var test := K(Print(e.test, OR)) + ([KwElse] + orelse);
    SplitIf(Print(e.body, OR), Spaced(KwIf), Print(e.test, OR), Spaced(KwElse), Print(e.orelse, TEST), rest);
    PrintParses(e.body, OR, OR, [KwIf] + test);
    PrintParses(e.test, OR, OR, [KwElse] + orelse);
    PrintParses(e.orelse, TEST, TEST, rest);
    IfStep(K(Body(e)) + rest, e.body, test, e.test, orelse, e.orelse, rest);
  }

  lemma SplitIf(a: seq<Piece>, x: Piece, b: seq<Piece>, y: Piece, c: seq<Piece>, rest: seq<Token>)
    ensures K(a + [x] + b + [y] + c) + rest == K(a) + ([x.token] + (K(b) + ([y.token] + (K(c) + rest))))
  {
    Split2(a + [x] + b + [y], c, rest);
    SplitTrailer(a, x, b, y, K(c) + rest);
  }

  lemma IfStep(ts: seq<Token>, body: Expr, ts': seq<Token>, test: Expr, ts'': seq<Token>, orelse: Expr,
      rest: seq<Token>)
    requires Parse(OR, ts) == Parsed(body, [KwIf] + ts')
    requires Parse(OR, ts') == Parsed(test, [KwElse] + ts'')
    requires Parse(TEST, ts'') == Parsed(orelse, rest)
    ensures Parse(TEST, ts) == Parsed(IfExp(test, body, orelse), rest)
  {
    Starts(OR, ts);
    Tail(KwIf, ts');
    ElseStep(ts, body, ts', test, ts'', orelse, rest);
  }

  lemma ElseStep(ts: seq<Token>, body: Expr, ts': seq<Token>, test: Expr, ts'': seq<Token>, orelse: Expr,
      rest: seq<Token>)
    requires Parse(OR, ts).Parsed? && !Sees(ts, KwLambda)
    requires var r := Parse(OR, ts); r.value == body && Sees(r.rest, KwIf) && r.rest[1..] == ts'
    requires Parse(OR, ts') == Parsed(test, [KwElse] + ts'')
    requires Parse(TEST, ts'') == Parsed(orelse, rest)
    ensures ParseTest(ts) == Parsed(IfExp(test, body, orelse), rest)
  {
    Tail(KwElse, ts'');
  }

  lemma {:induction false} LambdaParses(e: Expr, rest: seq<Token>)
    requires WellFormed(e) && e.Lambda? && Follows(Level(e), rest)
    ensures Parse(Level(e), K(Body(e)) + rest) == Parsed(e, rest)
    decreases e, 2
  {
    var result := K(Print(e.result, TEST)) + rest;
    var buffer := PrintParams(e.params);
    SplitLambda(Piece(false, KwLambda, buffer != []), buffer, Piece(false, Colon, true), Print(e.result, TEST), rest);
    ParamsParse(e.params, result);
    ItemsAssemble(e.params);
    PrintParses(e.result, TEST, TEST, rest);
    LambdaStep(e.params, K(buffer) + ([Colon] + result), result, e.result, rest);
  }

  lemma LambdaStep(params: Params, ts: seq<Token>, ts': seq<Token>, result: Expr, rest: seq<Token>)
    requires ParseParams(ts) == Parsed(ItemsOf(params), ts') && Assembled(ItemsOf(params)) == Some(params)
    requires Parse(TEST, ts') == Parsed(result, rest)
    ensures Parse(TEST, [KwLambda] + ts) == Parsed(Lambda(params, result), rest)
  {
    Tail(KwLambda, ts);
    assert ParseTest([KwLambda] + ts) == Parsed(Lambda(params, result), rest);
  }

  lemma SplitLambda(x: Piece, a: seq<Piece>, y: Piece, b: seq<Piece>, rest: seq<Token>)
    ensures K([x] + a + [y] + b) + rest == [x.token] + (K(a) + ([y.token] + (K(b) + rest)))
  {
    Split2([x] + a + [y], b, rest);
    SplitEnclosed(x, a, y, K(b) + rest);
  }

  // ----- Parameters -----

  function Plains(params: seq<Param>): (items: seq<Item>)
    ensures |items| == |params|
  {
    if params == [] then [] else [Plain(params[0])] + Plains(params[1..])
  }

  function SlashItems(params: Params): seq<Item> {
    if params.posonly == [] then [] else [SlashItem]
  }

  function StarItems(params: Params): seq<Item> {
    if params.vararg.Some? then [StarName(params.vararg.value)]
    else if params.kwonly != [] then [BareStar]
    else []
  }

  function DoubleStarItems(params: Params): seq<Item> {
    if params.kwarg.Some? then [DoubleStar(params.kwarg.value)] else []
  }

  function ItemsOf(params: Params): seq<Item> {
    Plains(params.posonly)
    + (SlashItems(params)
       + (Plains(params.args) + (StarItems(params) + (Plains(params.kwonly) + DoubleStarItems(params)))))
  }

  lemma {:induction false} LeadingPlains(params: seq<Param>, rest: seq<Item>)
    requires rest == [] || !rest[0].Plain?
    ensures LeadingPlain(Plains(params) + rest) == (params, rest)
  {
    if params == [] {
      assert Plains(params) + rest == rest;
    } else {
      LeadingPlains(params[1..], rest);
      var items := Plains(params) + rest;
      assert items[0] == Plain(params[0]) && items[1..] == Plains(params[1..]) + rest;
      HeadTail(params);
    }
  }

  /** The groups are found again in the list of all parameters. */
  lemma ItemsAssemble(params: Params)
    requires WellFormedParams(params)
    ensures Assembled(ItemsOf(params)) == Some(params)
  {
    var end := StarItems(params) + (Plains(params.kwonly) + DoubleStarItems(params));
    EndAssembles(params);
    EndIsNotPlain(params);
    LeadingPlains(params.args, end);
    var middle := Plains(params.args) + end;
    if params.posonly == [] {
      assert Plains(params.posonly) + (SlashItems(params) + middle) == middle;
      assert params.posonly == [];
      assert end == [] || end[0] != SlashItem;
    } else {
      LeadingPlains(params.posonly, [SlashItem] + middle);
      assert ([SlashItem] + middle)[1..] == middle;
    }
  }

  lemma EndIsNotPlain(params: Params)
    ensures var end := StarItems(params) + (Plains(params.kwonly) + DoubleStarItems(params));
      end == [] || !(end[0].Plain? || end[0].SlashItem?)
  {
    if StarItems(params) == [] {
      assert params.kwonly == [] && Plains(params.kwonly) == [];
    }
  }

  lemma EndAssembles(params: Params)
    requires DefaultsLast(params.posonly + params.args)
    ensures Ended(params.posonly, params.args, StarItems(params) + (Plains(params.kwonly) + DoubleStarItems(params)))
         == Some(params)
  {
    var kw := DoubleStarItems(params);
    var star := StarItems(params);
    assert KwargOf(kw) == Some(params.kwarg);
    LeadingPlains(params.kwonly, kw);
    if star == [] {
      assert Plains(params.kwonly) == [] && [] + ([] + kw) == kw;
    } else {
      assert (star + (Plains(params.kwonly) + kw))[1..] == Plains(params.kwonly) + kw;
    }
  }

  /** What follows a group: the colon, or a comma and the next groups */
  function Continued(next: seq<Piece>, end: seq<Token>): seq<Token> {
    if next == [] then end else [Comma] + (K(next) + end)
  }

  /** What is read after a parameter when these pieces are still to come, up to the colon */
  function ReadOn(next: seq<Piece>, ts: seq<Token>): Parsed<seq<Item>> {
    ParseAfterParam(Continued(next, [Colon] + ts))
  }

  function Before(items: seq<Item>, r: Parsed<seq<Item>>): Parsed<seq<Item>> {
    if r.Failed? then r else Parsed(items + r.value, r.rest)
  }

  lemma BeforeTwice(a: seq<Item>, b: seq<Item>, r: Parsed<seq<Item>>)
    ensures Before(a, Before(b, r)) == Before(a + b, r)
  {
    if r.Parsed? {
      Associate(a, b, r.value);
    }
  }

  lemma BeforeNone(r: Parsed<seq<Item>>)
    ensures Before([], r) == r
  {
    assert r.Parsed? ==> [] + r.value == r.value;
  }

  lemma AfterParam(ts: seq<Token>)
    ensures ParseAfterParam([Comma] + ts) == ParseParams(ts)
    ensures ParseAfterParam([Colon] + ts) == Parsed([], ts)
  {
    Tail(Comma, ts);
    Tail(Colon, ts);
  }

  lemma SeparatedTokens(a: seq<Piece>, next: seq<Piece>, end: seq<Token>)
    requires a != []
    ensures K(Separated(a, next)) + end == K(a) + Continued(next, end)
  {
    if next != [] {
      SplitAround(a, COMMA, next, end);
    }
  }

  /** A parameter before what is read on */
  lemma ParamStep(a: seq<Piece>, x: Item, next: seq<Piece>, ts: seq<Token>)
    requires a != [] && a[0].token != Colon
    requires var more := Continued(next, [Colon] + ts); ParseParam(K(a) + more) == Parsed(x, more)
    ensures ReadOn(Separated(a, next), ts) == Before([x], ReadOn(next, ts))
  {
    var end := [Colon] + ts;
    SeparatedTokens(a, next, end);
    AfterParam(K(Separated(a, next)) + end);
    assert (K(a) + Continued(next, end))[0] == a[0].token;
    assert Separated(a, next) != [];
  }

  lemma EndsParam(next: seq<Piece>, ts: seq<Token>)
    ensures var more := Continued(next, [Colon] + ts);
      more != [] && (more[0] == Comma || more[0] == Colon) && (next != [] ==> more[0] == Comma)
  {
  }

  lemma {:induction false} ParamReads(param: Param, more: seq<Token>)
    requires WellFormedParam(param) && more != [] && (more[0] == Comma || more[0] == Colon)
    ensures ParseParam(K(PrintParam(param)) + more) == Parsed(Plain(param), more)
    decreases param, 0
  {
    match param.default
    case None =>
      assert K(PrintParam(param)) == [Word(param.name)];
      NameStep(param.name, more);
    case Some(value) =>
      PrintParses(value, TEST, TEST, more);
      Split2([Tight(Word(param.name)), Tight(Assign)], Print(value, TEST), more);
      assert K([Tight(Word(param.name)), Tight(Assign)]) == [Word(param.name), Assign];
      DefaultStep(param.name, K(Print(value, TEST)) + more, value, more);
  }

  lemma NameStep(name: string, more: seq<Token>)
    requires more != [] && more[0] != Assign
    ensures ParseParam([Word(name)] + more) == Parsed(Plain(Param(name, None)), more)
  {
    Tail(Word(name), more);
  }

  lemma DefaultStep(name: string, ts: seq<Token>, value: Expr, more: seq<Token>)
    requires Parse(TEST, ts) == Parsed(value, more)
    ensures ParseParam([Word(name), Assign] + ts) == Parsed(Plain(Param(name, Some(value))), more)
  {
    Tail2(Word(name), Assign, ts);
  }

  lemma {:induction false} PlainGroup(params: seq<Param>, next: seq<Piece>, ts: seq<Token>)
    requires forall p :: p in params ==> WellFormedParam(p)
    ensures ReadOn(Separated(PrintPlain(params), next), ts) == Before(Plains(params), ReadOn(next, ts))
    decreases params, 0
  {
    if params == [] {
      BeforeNone(ReadOn(next, ts));
    } else {
      PlainGroup(params[1..], next, ts);
      FirstOfGroup(params[0], Separated(PrintPlain(params[1..]), next), ts);
      PlainsSeparated(params, next);
      BeforeTwice([Plain(params[0])], Plains(params[1..]), ReadOn(next, ts));
    }
  }

  lemma {:induction false} FirstOfGroup(param: Param, rest: seq<Piece>, ts: seq<Token>)
    requires WellFormedParam(param)
    ensures ReadOn(Separated(PrintParam(param), rest), ts) == Before([Plain(param)], ReadOn(rest, ts))
    decreases param, 1
  {
    EndsParam(rest, ts);
    ParamReads(param, Continued(rest, [Colon] + ts));
    StartsWithName(param);
    ParamStep(PrintParam(param), Plain(param), rest, ts);
  }

  lemma StartsWithName(param: Param)
    ensures PrintParam(param) != [] && PrintParam(param)[0].token == Word(param.name)
  {
  }

  lemma PlainIsNotEmpty(params: seq<Param>)
    requires params != []
    ensures PrintPlain(params) != [] && PrintParam(params[0]) != []
  {
  }

  lemma PlainsSeparated(params: seq<Param>, next: seq<Piece>)
    requires params != []
    ensures Separated(PrintPlain(params), next)
         == Separated(PrintParam(params[0]), Separated(PrintPlain(params[1..]), next))
  {
    var a, b := PrintParam(params[0]), PrintPlain(params[1..]);
    PlainIsNotEmpty(params);
    if |params| == 1 {
      assert params[1..] == [] && PrintPlain(params) == a;
    } else {
      PlainIsNotEmpty(params[1..]);
      SeparatedTwice(a, b, next);
    }
  }

  lemma SeparatedTwice(a: seq<Piece>, b: seq<Piece>, c: seq<Piece>)
    requires a != [] && b != []
    ensures Separated(a + [COMMA] + b, c) == Separated(a, Separated(b, c))
  {
  }

  lemma SlashGroup(params: Params, next: seq<Piece>, ts: seq<Token>)
    ensures ReadOn(Separated(SlashPieces(params), next), ts) == Before(SlashItems(params), ReadOn(next, ts))
  {
    if params.posonly == [] {
      BeforeNone(ReadOn(next, ts));
    } else {
      assert K([Tight(Slash)]) == [Slash];
      Tail(Slash, Continued(next, [Colon] + ts));
      ParamStep([Tight(Slash)], SlashItem, next, ts);
    }
  }

  lemma StarGroup(params: Params, next: seq<Piece>, ts: seq<Token>)
    ensures ReadOn(Separated(StarPieces(params), next), ts) == Before(StarItems(params), ReadOn(next, ts))
  {
    var more := Continued(next, [Colon] + ts);
    EndsParam(next, ts);
    if params.vararg.Some? {
      NamedStar(Star, params.vararg.value, more);
      ParamStep(StarPieces(params), StarName(params.vararg.value), next, ts);
    } else if params.kwonly != [] {
      assert K([Tight(Star)]) == [Star];
      Tail(Star, more);
      ParamStep([Tight(Star)], BareStar, next, ts);
    } else {
      BeforeNone(ReadOn(next, ts));
    }
  }

  lemma DoubleStarGroup(params: Params, ts: seq<Token>)
    ensures ReadOn(DoubleStarPieces(params), ts) == Parsed(DoubleStarItems(params), ts)
  {
    NothingMore(ts);
    if params.kwarg.Some? {
      var pieces := [Tight(StarStar), Tight(Word(params.kwarg.value))];
      NamedStar(StarStar, params.kwarg.value, Continued([], [Colon] + ts));
      ParamStep(pieces, DoubleStar(params.kwarg.value), [], ts);
      assert Separated(pieces, []) == pieces && [DoubleStar(params.kwarg.value)] + [] == DoubleStarItems(params);
    }
  }

  lemma NothingMore(ts: seq<Token>)
    ensures ReadOn([], ts) == Parsed([], ts)
  {
    AfterParam(ts);
  }

  lemma NamedStar(t: Token, name: string, more: seq<Token>)
    requires t == Star || t == StarStar
    ensures ParseParam(K([Tight(t), Tight(Word(name))]) + more)
         == Parsed(if t == Star then StarName(name) else DoubleStar(name), more)
  {
    assert K([Tight(t), Tight(Word(name))]) == [t, Word(name)];
    Tail2(t, Word(name), more);
  }

  lemma {:induction false} ParamsParse(params: Params, ts: seq<Token>)
    requires WellFormedParams(params)
    ensures ParseParams(K(PrintParams(params)) + ([Colon] + ts)) == Parsed(ItemsOf(params), ts)
    decreases params, 1
  {
    var p5 := DoubleStarPieces(params);
    DoubleStarGroup(params, ts);
    PlainGroup(params.kwonly, p5, ts);
    var p4 := Separated(PrintPlain(params.kwonly), p5);
    StarGroup(params, p4, ts);
    var p3 := Separated(StarPieces(params), p4);
    PlainGroup(params.args, p3, ts);
    var p2 := Separated(PrintPlain(params.args), p3);
    SlashGroup(params, p2, ts);
    PlainGroup(params.posonly, Separated(SlashPieces(params), p2), ts);
    WholeReads(PrintParams(params), ts);
  }

  lemma WholeReads(ps: seq<Piece>, ts: seq<Token>)
    ensures ParseParams(K(ps) + ([Colon] + ts)) == ReadOn(ps, ts)
  {
    AfterParam(ts);
    AfterParam(K(ps) + ([Colon] + ts));
    assert ps == [] ==> K(ps) + ([Colon] + ts) == [Colon] + ts;
  }

  // ----- Chains -----

  lemma {:induction false} CompareParses(e: Expr, rest: seq<Token>)
    requires WellFormed(e) && e.Compare? && Follows(Level(e), rest)
    ensures Parse(Level(e), K(Body(e)) + rest) == Parsed(e, rest)
    decreases e, 2
  {
    var links := K(PrintLinks(e.links)) + rest;
    Split2(Print(e.first, EXPR), PrintLinks(e.links), rest);
    LinksFollow(e.links, rest);
    PrintParses(e.first, EXPR, EXPR, links);
    LinksParse(e.links, rest);
  }

  lemma LinksFollow(links: seq<Link>, rest: seq<Token>)
    requires Follows(CMP, rest)
    ensures Follows(EXPR, K(PrintLinks(links)) + rest)
  {
    if links == [] {
      assert K(PrintLinks(links)) + rest == rest;
    } else {
      var op, pieces := ComparatorPieces(links[0].cmp), PrintLinks(links);
      assert pieces == PrintLink(links[0]) + PrintLinks(links[1..]);
      assert |pieces| > 0 && pieces[0] == op[0];
    }
  }

  lemma {:induction false} LinksParse(links: seq<Link>, rest: seq<Token>)
    requires Follows(CMP, rest) && forall l :: l in links ==> WellFormed(l.operand)
    ensures ParseLinks(K(PrintLinks(links)) + rest) == Parsed(links, rest)
    decreases links, 0
  {
    if links == [] {
      assert K(PrintLinks(links)) + rest == rest;
    } else {
      var more := K(PrintLinks(links[1..])) + rest;
      Split2(PrintLink(links[0]), PrintLinks(links[1..]), rest);
      LinksParse(links[1..], rest);
      LinksFollow(links[1..], rest);
      LinkParses(links[0], more);
      LinkStep(K(PrintLinks(links)) + rest, links, more, rest);
    }
  }

  lemma LinkStep(ts: seq<Token>, links: seq<Link>, more: seq<Token>, rest: seq<Token>)
    requires links != [] && ParseLinks(more) == Parsed(links[1..], rest)
    requires var r := ParseComparator(ts);
      r.Parsed? && r.value == links[0].cmp && Parse(EXPR, r.rest) == Parsed(links[0].operand, more)
    ensures ParseLinks(ts) == Parsed(links, rest)
  {
    HeadTail(links);
  }

  lemma {:induction false} LinkParses(link: Link, more: seq<Token>)
    requires WellFormed(link.operand) && Follows(EXPR, more)
    ensures var r := ParseComparator(K(PrintLink(link)) + more);
      r.Parsed? && r.value == link.cmp && Parse(EXPR, r.rest) == Parsed(link.operand, more)
    decreases link, 0
  {
    var ts := K(Print(link.operand, EXPR)) + more;
    Split2(ComparatorPieces(link.cmp), Print(link.operand, EXPR), more);
    PrintParses(link.operand, EXPR, EXPR, more);
    Starts(EXPR, ts);
    ComparatorParses(link.cmp, ts);
  }

  lemma ComparatorParses(op: Comparator, ts: seq<Token>)
    requires ts != [] && ts[0] != KwNot
    ensures ParseComparator(K(ComparatorPieces(op)) + ts) == Parsed(op, ts)
  {
    if op == IsNot || op == NotIn {
      var t, u := ComparatorPieces(op)[0].token, ComparatorPieces(op)[1].token;
      assert K(ComparatorPieces(op)) == [t, u];
      TwoTokens(op, t, u, ts);
    } else {
      var t := ComparatorPieces(op)[0].token;
      assert K(ComparatorPieces(op)) == [t];
      Tail(t, ts);
    }
  }

  lemma TwoTokens(op: Comparator, t: Token, u: Token, ts: seq<Token>)
    requires (op == IsNot && t == KwIs && u == KwNot) || (op == NotIn && t == KwNot && u == KwIn)
    ensures ParseComparator([t, u] + ts) == Parsed(op, ts)
  {
    Tail2(t, u, ts);
  }

  lemma {:induction false} BoolParses(e: Expr, rest: seq<Token>)
    requires WellFormed(e) && e.BoolOp? && Follows(Level(e), rest)
    ensures Parse(Level(e), K(Body(e)) + rest) == Parsed(e, rest)
    decreases e, 2
  {
    var k := BoolLevel(e.boolop);
    var more := ValuesParse(k, e.boolop, e.values, k + 1, rest);
    HeadTail(e.values);
  }

  lemma {:induction false} ValuesParse(k: Prec, op: BoolOperator, values: seq<Expr>, q: Prec, rest: seq<Token>)
    returns (more: seq<Token>)
    requires k == BoolLevel(op) && q > k && values != [] && Follows(k, rest)
    requires forall v :: v in values ==> WellFormed(v)
    ensures Parse(k + 1, K(PrintValues(values, BoolToken(op), q)) + rest) == Parsed(values[0], more)
    ensures ParseValues(k, op, more) == Parsed(values[1..], rest)
    ensures |values| > 1 ==> Sees(more, BoolToken(op))
    decreases values, 0
  {
    if |values| == 1 {
      more := rest;
      PrintParses(values[0], q, k + 1, rest);
    } else {
      var others := PrintValues(values[1..], BoolToken(op), Next(q));
      more := [BoolToken(op)] + (K(others) + rest);
      SplitAround(Print(values[0], q), Spaced(BoolToken(op)), others, rest);
      PrintParses(values[0], q, k + 1, more);
      var more' := ValuesParse(k, op, values[1..], Next(q), rest);
      Tail(BoolToken(op), K(others) + rest);
      HeadTail(values[1..]);
    }
  }

  // ----- Primaries -----

  /** An expression printed as the operand of an attribute, a call or a subscript */
  lemma {:induction false} PrimaryParses(e: Expr, rest: seq<Token>)
    requires WellFormed(e)
    ensures ParsePrimary(K(Print(e, ATOM)) + rest) == ParseTrailers(e, rest)
    decreases e, 7
  {
    if Level(e) == ATOM {
      AtomParses(e, rest);
    } else {
      var more := [RParen] + rest;
      SplitEnclosed(Tight(LParen), Body(e), Tight(RParen), rest);
      InsideParses(e, more);
      GroupStep(K(Body(e)) + more, e, rest);
    }
  }

  lemma GroupStep(ts: seq<Token>, e: Expr, rest: seq<Token>)
    requires Parse(NAMED_EXPR, ts) == Parsed(e, [RParen] + rest)
    ensures ParsePrimary([LParen] + ts) == ParseTrailers(e, rest)
  {
    Tail(LParen, ts);
    Tail(RParen, rest);
    StartsInside(ts);
    assert ParseGroup(ts) == Parsed(e, rest);
    assert ParseAtom([LParen] + ts) == ParseGroup(ts);
  }

  lemma StartsInside(ts: seq<Token>)
    requires Parse(NAMED_EXPR, ts).Parsed?
    ensures ts != [] && StartsAt(ts[0]) != 0
  {
    if !SeesWord(ts, Walrus) {
      assert ParseCommas(NAMED_EXPR, ts).Parsed? && ParseItem(NAMED_EXPR, ts).Parsed?;
      Starts(TEST, ts);
    }
  }

  /** An expression between brackets: neither tuples nor named expressions need parentheses of their own. */
  lemma {:induction false} InsideParses(e: Expr, rest: seq<Token>)
    requires WellFormed(e) && Follows(NAMED_EXPR, rest)
    ensures Parse(NAMED_EXPR, K(Body(e)) + rest) == Parsed(e, rest)
    decreases e, 5
  {
    if e.NamedExpr? {
      NamedExprParses(e, rest);
    } else if e.Tuple? && e.elts != [] {
      ItemsParse(NAMED_EXPR, e.elts, rest);
    } else {
      assert Level(e) >= 4;
      BodyParses(e, rest);
      BodyInside(Level(e), K(Body(e)) + rest, e, rest);
    }
  }

  lemma BodyInside(k: Prec, ts: seq<Token>, e: Expr, rest: seq<Token>)
    requires k >= 4 && Parse(k, ts) == Parsed(e, rest) && Follows(NAMED_EXPR, rest)
    ensures Parse(NAMED_EXPR, ts) == Parsed(e, rest)
  {
    Down(TEST, k, ts, e, rest);
    TestStep(NAMED_EXPR, ts, e, rest);
  }

  lemma {:induction false} NamedExprParses(e: Expr, rest: seq<Token>)
    requires WellFormed(e) && e.NamedExpr? && Follows(NAMED_EXPR, rest)
    ensures Parse(NAMED_EXPR, K(Body(e)) + rest) == Parsed(e, rest)
    decreases e, 2
  {
    PrintParses(e.bound, ATOM, TEST, rest);
    Split2([Tight(Word(e.target)), Spaced(Walrus)], Print(e.bound, ATOM), rest);
    assert K([Tight(Word(e.target)), Spaced(Walrus)]) == [Word(e.target), Walrus];
    NamedExprStep(e.target, K(Print(e.bound, ATOM)) + rest, e.bound, rest);
  }

  lemma NamedExprStep(id: string, ts: seq<Token>, bound: Expr, rest: seq<Token>)
    requires Parse(TEST, ts) == Parsed(bound, rest) && !Sees(rest, Comma)
    ensures Parse(NAMED_EXPR, [Word(id), Walrus] + ts) == Parsed(NamedExpr(id, bound), rest)
  {
    Tail2(Word(id), Walrus, ts);
    assert ParseItem(NAMED_EXPR, [Word(id), Walrus] + ts) == Parsed(NamedExpr(id, bound), rest);
  }

  /** An expression alone, where a tuple might have stood */
  lemma TestStep(k: Prec, ts: seq<Token>, e: Expr, rest: seq<Token>)
    requires k <= 2 && Parse(TEST, ts) == Parsed(e, rest) && !Sees(rest, Walrus) && !Sees(rest, Comma)
    ensures Parse(k, ts) == Parsed(e, rest)
  {
    ItemIsTest(k, ts, e, rest);
  }

  lemma {:induction false} ItemsParse(k: Prec, elts: seq<Expr>, rest: seq<Token>)
    requires k <= 2 && elts != [] && !Sees(rest, Walrus) && Follows(k, rest)
    requires forall v :: v in elts ==> WellFormed(v)
    ensures ParseCommas(k, K(PrintItems(elts)) + rest) == Parsed(Tuple(elts), rest)
    decreases elts, 1
  {
    if |elts| == 1 {
      var more := [Comma] + rest;
      SplitLast(Print(elts[0], TEST), Tight(Comma), rest);
      PrintParses(elts[0], TEST, TEST, more);
      ItemIsTest(k, K(Print(elts[0], TEST)) + more, elts[0], more);
      Tail(Comma, rest);
      assert ParseMore(k, more) == Parsed([], rest);
      assert elts == [elts[0]] + [];
    } else {
      var more := ElementsParse(k, elts, rest);
      HeadTail(elts);
    }
  }

  lemma {:induction false} ElementsParse(k: Prec, elts: seq<Expr>, rest: seq<Token>) returns (more: seq<Token>)
    requires k <= 2 && elts != [] && Follows(TEST, rest) && !Sees(rest, Comma) && !Sees(rest, Walrus)
    requires forall v :: v in elts ==> WellFormed(v)
    ensures var ts := K(PrintElements(elts)) + rest;
      ts != [] && StartsAt(ts[0]) != 0 && ParseItem(k, ts) == Parsed(elts[0], more)
    ensures ParseMore(k, more) == Parsed(elts[1..], rest)
    ensures |elts| > 1 ==> Sees(more, Comma)
    decreases elts, 0
  {
    var ts := K(PrintElements(elts)) + rest;
    if |elts| == 1 {
      more := rest;
    } else {
      var others := K(PrintElements(elts[1..])) + rest;
      more := [Comma] + others;
      SplitAround(Print(elts[0], TEST), COMMA, PrintElements(elts[1..]), rest);
      var more' := ElementsParse(k, elts[1..], rest);
      MoreStep(k, others, elts[1..], more', rest);
    }
    PrintParses(elts[0], TEST, TEST, more);
    Starts(TEST, ts);
    ItemIsTest(k, ts, elts[0], more);
  }

  lemma MoreStep(k: Prec, ts: seq<Token>, elts: seq<Expr>, more: seq<Token>, rest: seq<Token>)
    requires k <= 2 && elts != [] && ts != [] && StartsAt(ts[0]) != 0
    requires ParseItem(k, ts) == Parsed(elts[0], more) && ParseMore(k, more) == Parsed(elts[1..], rest)
    ensures ParseMore(k, [Comma] + ts) == Parsed(elts, rest)
  {
    Tail(Comma, ts);
    assert ([Comma] + ts)[1] == ts[0];
    HeadTail(elts);
  }

  lemma {:induction false} AtomParses(e: Expr, rest: seq<Token>)
    requires WellFormed(e) && Level(e) == ATOM
    ensures ParsePrimary(K(Body(e)) + rest) == ParseTrailers(e, rest)
    decreases e, 2
  {
    if e.Attribute? {
      AttributeParses(e, rest);
    } else if e.Call? {
      CallParses(e, rest);
    } else if e.Subscript? {
      SubscriptParses(e, rest);
    } else if e.List? {
      ListParses(e, rest);
    } else if e.Tuple? {
      EmptyTupleParses(rest);
    } else {
      LeafParses(e, rest);
    }
  }

  lemma LeafParses(e: Expr, rest: seq<Token>)
    requires e.Name? || e.Constant?
    ensures ParsePrimary(K(Body(e)) + rest) == ParseTrailers(e, rest)
  {
    var t := if e.Name? then Word(e.id) else ConstantToken(e.constant);
    assert Body(e) == [Tight(t)] && K([Tight(t)]) == [t];
    Tail(t, rest);
    assert ParseAtom([t] + rest) == Parsed(e, rest);
  }

  lemma {:induction false} AttributeParses(e: Expr, rest: seq<Token>)
    requires WellFormed(e) && e.Attribute?
    ensures ParsePrimary(K(Body(e)) + rest) == ParseTrailers(e, rest)
    decreases e, 1
  {
    var pieces := [Piece(NeedsSpace(e.object_), Dot, false), Tight(Word(e.attr))];
    Split2(Print(e.object_, ATOM), pieces, rest);
    assert K(pieces) == [Dot, Word(e.attr)];
    PrimaryParses(e.object_, [Dot, Word(e.attr)] + rest);
    Tail2(Dot, Word(e.attr), rest);
  }

  lemma EmptyTupleParses(rest: seq<Token>)
    ensures ParsePrimary(K(Body(Tuple([]))) + rest) == ParseTrailers(Tuple([]), rest)
  {
    assert K(Body(Tuple([]))) + rest == [LParen] + ([RParen] + rest);
    Tail(LParen, [RParen] + rest);
    Tail(RParen, rest);
    assert ParseGroup([RParen] + rest) == Parsed(Tuple([]), rest);
    assert ParseAtom([LParen] + ([RParen] + rest)) == Parsed(Tuple([]), rest);
  }

  lemma {:induction false} CallParses(e: Expr, rest: seq<Token>)
    requires WellFormed(e) && e.Call?
    ensures ParsePrimary(K(Body(e)) + rest) == ParseTrailers(e, rest)
    decreases e, 1
  {
    var pieces := PrintArgs(e.args, e.keywords != []) + PrintKeywords(e.keywords);
    var end := [RParen] + rest;
    SplitTrailer(Print(e.func, ATOM), Tight(LParen), pieces, Tight(RParen), rest);
    PrimaryParses(e.func, [LParen] + (K(pieces) + end));
    ArgumentsParse(e, rest);
    CallStep(e.func, e.args, e.keywords, K(pieces) + end, rest);
  }

  lemma CallStep(func: Expr, args: seq<Expr>, keywords: seq<Keyword>, ts: seq<Token>, rest: seq<Token>)
    requires ParseArguments(false, ts) == Parsed((args, keywords), rest)
    ensures ParseTrailers(func, [LParen] + ts) == ParseTrailers(Call(func, args, keywords), rest)
  {
    Tail(LParen, ts);
  }

  lemma {:induction false} ArgumentsParse(e: Expr, rest: seq<Token>)
    requires WellFormed(e) && e.Call?
    ensures ParseArguments(false,
      K(PrintArgs(e.args, e.keywords != []) + PrintKeywords(e.keywords)) + ([RParen] + rest))
         == Parsed((e.args, e.keywords), rest)
    decreases e, 0
  {
    var end := [RParen] + rest;
    var keywords := K(PrintKeywords(e.keywords)) + end;
    Split2(PrintArgs(e.args, e.keywords != []), PrintKeywords(e.keywords), end);
    KeywordsParse(false, e.keywords, rest);
    assert e.keywords == [] ==> keywords == end;
    ArgsParse(e.args, e.keywords, keywords, rest);
  }

  lemma {:induction false} ArgsParse(args: seq<Expr>, keywords: seq<Keyword>, ts: seq<Token>, rest: seq<Token>)
    requires ParseArguments(false, ts) == Parsed(([], keywords), rest)
    requires keywords == [] ==> ts == [RParen] + rest
    requires forall a :: a in args ==> WellFormed(a)
    ensures ParseArguments(false, K(PrintArgs(args, keywords != [])) + ts) == Parsed((args, keywords), rest)
    decreases args, 0
  {
    var pieces := PrintArgs(args, keywords != []);
    if args == [] {
      assert K(pieces) + ts == ts;
    } else if |args| == 1 && keywords == [] {
      LastArgument(args);
      AfterLast(false, rest);
      ArgumentStep(args[0], K(pieces) + ts, ts);
    } else {
      var others := PrintArgs(args[1..], keywords != []);
      var more := [Comma] + (K(others) + ts);
      SplitAround(Print(args[0], TEST), COMMA, others, ts);
      ArgsParse(args[1..], keywords, ts, rest);
      AfterComma(false, K(others) + ts);
      HeadTail(args);
      ArgumentStep(args[0], K(pieces) + ts, more);
    }
  }

  lemma LastArgument(args: seq<Expr>)
    requires |args| == 1
    ensures PrintArgs(args, false) == Print(args[0], TEST) && args == [args[0]] + []
  {
    assert args[1..] == [] && PrintArgs(args[1..], false) == [];
  }

  lemma LastKeyword(keywords: seq<Keyword>)
    requires |keywords| == 1
    ensures PrintKeywords(keywords) == PrintKeyword(keywords[0]) && keywords == [keywords[0]] + []
  {
    assert keywords[1..] == [] && PrintKeywords(keywords[1..]) == [];
  }

  lemma AfterLast(only: bool, rest: seq<Token>)
    ensures ParseAfterArgument(only, [RParen] + rest) == Parsed(([], []), rest)
  {
    Tail(RParen, rest);
  }

  lemma AfterComma(only: bool, ts: seq<Token>)
    ensures ParseAfterArgument(only, [Comma] + ts) == ParseArguments(only, ts)
  {
    Tail(Comma, ts);
  }

  lemma {:induction false} ArgumentStep(a: Expr, ts: seq<Token>, more: seq<Token>)
    requires WellFormed(a) && ts == K(Print(a, TEST)) + more && more != []
    requires more[0] == Comma || more[0] == RParen
    ensures ParseArguments(false, ts) == AddArgument(a, ParseAfterArgument(false, more))
    decreases a, 9
  {
    PrintParses(a, TEST, TEST, more);
    PositionalStep(ts, a, more);
  }

  lemma PositionalStep(ts: seq<Token>, a: Expr, more: seq<Token>)
    requires Parse(TEST, ts) == Parsed(a, more) && !Sees(more, Assign) && !Sees(more, Walrus)
    ensures ParseArguments(false, ts) == AddArgument(a, ParseAfterArgument(false, more))
  {
    NotKeyword(ts, a, more);
    ItemIsTest(NAMED_EXPR, ts, a, more);
    assert !Sees(ts, RParen) && !Sees(ts, StarStar);
  }

  lemma {:induction false} KeywordsParse(only: bool, keywords: seq<Keyword>, rest: seq<Token>)
    requires forall k :: k in keywords ==> WellFormed(k.value)
    ensures ParseArguments(only, K(PrintKeywords(keywords)) + ([RParen] + rest)) == Parsed(([], keywords), rest)
    decreases keywords, 0
  {
    var end := [RParen] + rest;
    var pieces := PrintKeywords(keywords);
    if keywords == [] {
      assert K(pieces) + end == end;
      Tail(RParen, rest);
    } else if |keywords| == 1 {
      LastKeyword(keywords);
      AfterLast(true, rest);
      KeywordParses(only, keywords[0], end);
    } else {
      var others := PrintKeywords(keywords[1..]);
      var more := [Comma] + (K(others) + end);
      SplitAround(PrintKeyword(keywords[0]), COMMA, others, end);
      KeywordsParse(true, keywords[1..], rest);
      AfterComma(true, K(others) + end);
      HeadTail(keywords);
      KeywordParses(only, keywords[0], more);
    }
  }

  lemma {:induction false} KeywordParses(only: bool, k: Keyword, more: seq<Token>)
    requires WellFormed(k.value) && more != [] && (more[0] == Comma || more[0] == RParen)
    ensures ParseArguments(only, K(PrintKeyword(k)) + more) == AddKeyword(k, ParseAfterArgument(true, more))
    decreases k, 0
  {
    var value := K(Print(k.value, TEST)) + more;
    PrintParses(k.value, TEST, TEST, more);
    if k.arg.Some? {
      Split2([Tight(Word(k.arg.value)), Tight(Assign)], Print(k.value, TEST), more);
      assert K([Tight(Word(k.arg.value)), Tight(Assign)]) == [Word(k.arg.value), Assign];
      NamedStep(only, k.arg.value, value, k.value, more);
    } else {
      SplitHead(Tight(StarStar), Print(k.value, TEST), more);
      UnpackingStep(only, value, k.value, more);
    }
  }

  lemma NamedStep(only: bool, id: string, ts: seq<Token>, value: Expr, more: seq<Token>)
    requires Parse(TEST, ts) == Parsed(value, more)
    ensures ParseArguments(only, [Word(id), Assign] + ts)
         == AddKeyword(Keyword(Some(id), value), ParseAfterArgument(true, more))
  {
    Tail2(Word(id), Assign, ts);
  }

  lemma UnpackingStep(only: bool, ts: seq<Token>, value: Expr, more: seq<Token>)
    requires Parse(TEST, ts) == Parsed(value, more)
    ensures ParseArguments(only, [StarStar] + ts) == AddKeyword(Keyword(None, value), ParseAfterArgument(true, more))
  {
    Tail(StarStar, ts);
  }

  lemma {:induction false} SubscriptParses(e: Expr, rest: seq<Token>)
    requires WellFormed(e) && e.Subscript?
    ensures ParsePrimary(K(Body(e)) + rest) == ParseTrailers(e, rest)
    decreases e, 1
  {
    var slice, end := PrintSlice(e.slice), [RBracket] + rest;
    SplitTrailer(Print(e.base, ATOM), Tight(LBracket), slice, Tight(RBracket), rest);
    PrimaryParses(e.base, [LBracket] + (K(slice) + end));
    Tail(LBracket, K(slice) + end);
    Tail(RBracket, rest);
    SliceParses(e.slice, end);
  }

  lemma {:induction false} SliceParses(slice: Expr, end: seq<Token>)
    requires WellFormed(slice) && end != [] && end[0] == RBracket
    ensures Parse(NAMED_EXPR, K(PrintSlice(slice)) + end) == Parsed(slice, end)
    decreases slice, 9
  {
    if slice.Tuple? && slice.elts != [] {
      ItemsParse(NAMED_EXPR, slice.elts, end);
    } else {
      PrintParses(slice, TEST, TEST, end);
      TestStep(NAMED_EXPR, K(PrintSlice(slice)) + end, slice, end);
    }
  }

  lemma {:induction false} ListParses(e: Expr, rest: seq<Token>)
    requires WellFormed(e) && e.List?
    ensures ParsePrimary(K(Body(e)) + rest) == ParseTrailers(e, rest)
    decreases e, 1
  {
    var items, end := PrintElements(e.items), [RBracket] + rest;
    SplitEnclosed(Tight(LBracket), items, Tight(RBracket), rest);
    var more := end;
    if e.items == [] {
      assert K(items) + end == end;
    } else {
      more := ElementsParse(NAMED_EXPR, e.items, end);
    }
    ListStep(K(items) + end, e.items, more, rest);
  }

  lemma ListStep(ts: seq<Token>, items: seq<Expr>, more: seq<Token>, rest: seq<Token>)
    requires items == [] ==> ts == [RBracket] + rest
    requires items != [] ==>
      && ts != [] && StartsAt(ts[0]) != 0 && ParseItem(NAMED_EXPR, ts) == Parsed(items[0], more)
      && ParseMore(NAMED_EXPR, more) == Parsed(items[1..], [RBracket] + rest)
    ensures ParsePrimary([LBracket] + ts) == ParseTrailers(List(items), rest)
  {
    Tail(LBracket, ts);
    Tail(RBracket, rest);
    if items != [] {
      HeadTail(items);
    }
    assert ParseList(ts) == Parsed(List(items), rest);
    assert ParseAtom([LBracket] + ts) == ParseList(ts);
  }

  // ----- The round trip -----

  lemma TopParses(e: Expr)
    requires WellFormed(e)
    ensures Parse(TUPLE, K(Print(e, TUPLE)) + []) == Parsed(e, [])
  {
    var ts := K(Print(e, TUPLE)) + [];
    if e.Tuple? && e.elts != [] {
      ItemsParse(TUPLE, e.elts, []);
    } else {
      PrintParses(e, TEST, TEST, []);
      TestStep(TUPLE, ts, e, []);
    }
  }

  /** The parser undoes the printer, for every expression and every precedence it may be asked for at. */
  lemma RoundTrip(e: Expr, p: Prec)
    requires WellFormed(e)
    ensures Parse(p, K(Print(e, p))) == Parsed(e, [])
  {
    assert K(Print(e, p)) + [] == K(Print(e, p));
    if p == 1 {
      InsideParses(e, []);
    } else if p == 2 {
      TopParses(e);
    } else {
      PrintParses(e, p, p, []);
    }
  }

  /** So two different expressions are never written alike. */
  lemma PrintIsInjective(e: Expr, e': Expr, p: Prec)
    requires WellFormed(e) && WellFormed(e') && K(Print(e, p)) == K(Print(e', p))
    ensures e == e'
  {
    RoundTrip(e, p);
    RoundTrip(e', p);
  }
}
