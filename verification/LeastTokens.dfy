/** How many tokens an expression takes at least: whatever is parsed as it is no shorter. */
module LeastTokens {
  import opened Basics
  import opened Expressions
  import opened ExpressionParser
  import opened ExpressionRoundTrip
  import opened Parentheses
  import opened ParsedTrees

  // ----- The least number of tokens -----

  /** At level k, with two more for parentheses where they are needed */
  function Least(e: Expr, k: int): nat
    decreases e, 1
  {
    Cost(e) + (if k <= Level(e) then 0 else 2)
  }

  /** What is left of n when the last comma is not needed */
  function Between(n: nat): nat {
    if n == 0 then 0 else n - 1
  }

  /** Without parentheses around the whole, and with operands that have them only where they are needed */
  function Cost(e: Expr): nat
    decreases e, 0
  {
    match e
    case Name(_) => 1
    case Constant(_) => 1
    case UnaryOp(op, operand) => 1 + Least(operand, UnaryLevel(op))
    case BinOp(left, op, right) =>
      Least(left, LeftLevel(op)) + 1 + Least(right, if op == Pow then FACTOR else RightLevel(op))
    case Compare(first, links) => Least(first, EXPR) + LinksCost(links)
    case BoolOp(op, values) => Between(ValuesCost(values, BoolLevel(op) + 1))
    case IfExp(test, body, orelse) => Least(body, OR) + 1 + Least(test, OR) + 1 + Least(orelse, TEST)
    case Lambda(params, result) => 1 + Between(ParamsCost(params)) + 1 + Least(result, TEST)
    case Attribute(object_, _) => Least(object_, ATOM) + 2
    case Call(func, args, keywords) => Least(func, ATOM) + 1 + Between(ItemsCost(args) + KeywordsCost(keywords)) + 1
    case Subscript(base, slice) => Least(base, ATOM) + 1 + Least(slice, NAMED_EXPR) + 1
    case Tuple(elts) => if elts == [] then 2 else if |elts| == 1 then ItemsCost(elts) else Between(ItemsCost(elts))
    case List(items) => 1 + Between(ItemsCost(items)) + 1
    case NamedExpr(_, bound) => 2 + Least(bound, TEST)
  }

  function LinkCost(link: Link): nat
    decreases link
  {
    |ComparatorPieces(link.cmp)| + Least(link.operand, EXPR)
  }

  function LinksCost(links: seq<Link>): nat
    decreases links
  {
    if links == [] then 0 else LinkCost(links[0]) + LinksCost(links[1..])
  }

  /** Each value with the operator after it */
  function ValuesCost(values: seq<Expr>, k: int): nat
    decreases values
  {
    if values == [] then 0 else Least(values[0], k) + 1 + ValuesCost(values[1..], k)
  }

  /** An item between commas; within brackets a named expression needs no parentheses. */
  function ItemCost(e: Expr): nat
    decreases e, 2
  {
    if e.NamedExpr? then Cost(e) else Least(e, TEST)
  }

  /** Each item with the comma after it */
  function ItemsCost(elts: seq<Expr>): nat
    decreases elts
  {
    if elts == [] then 0 else ItemCost(elts[0]) + 1 + ItemsCost(elts[1..])
  }

  function KeywordCost(k: Keyword): nat
    decreases k
  {
    (if k.arg.Some? then 2 else 1) + Least(k.value, TEST)
  }

  function KeywordsCost(keywords: seq<Keyword>): nat
    decreases keywords
  {
    if keywords == [] then 0 else KeywordCost(keywords[0]) + 1 + KeywordsCost(keywords[1..])
  }

  function ParamCost(param: Param): nat
    decreases param
  {
    match param.default
    case None => 1
    case Some(value) => 2 + Least(value, TEST)
  }

  function PlainCost(params: seq<Param>): nat
    decreases params
  {
    if params == [] then 0 else ParamCost(params[0]) + 1 + PlainCost(params[1..])
  }

  /** Each parameter, slash and star with the comma after it */
  function ParamsCost(params: Params): nat
    decreases params
  {
    PlainCost(params.posonly) + SlashCost(params) + PlainCost(params.args) + StarCost(params)
    + PlainCost(params.kwonly) + DoubleStarCost(params)
  }

  function SlashCost(params: Params): nat {
    if params.posonly == [] then 0 else 2
  }

  function StarCost(params: Params): nat {
    if params.vararg.Some? then 3 else if params.kwonly != [] then 2 else 0
  }

  function DoubleStarCost(params: Params): nat {
    if params.kwarg.Some? then 3 else 0
  }

  // ----- The tokens that the parser takes -----

  lemma {:induction false} ParseTakes(k: Prec, ts: seq<Token>)
    requires Parse(k, ts).Parsed?
    ensures var r := Parse(k, ts); |r.rest| + Least(r.value, k) <= |ts|
    decreases |ts|, 19 - k, 2
  {
    if k <= 2 {
      CommasTake(k, ts);
    } else if k == 4 {
      TestTakes(ts);
    } else if k == 5 || k == 6 {
      BoolTakes(k, ts);
    } else if k == 7 {
      NotTakes(ts);
    } else if k == 8 {
      CompareTakes(ts);
    } else if 9 <= k <= 14 {
      BinaryTakes(k, ts);
    } else if k == 15 {
      FactorTakes(ts);
    } else if k == 16 {
      PowerTakes(ts);
    } else if k == 18 {
      PrimaryTakes(ts);
    } else {
      ParseTakes(k + 1, ts);
    }
  }

  lemma {:induction false} ItemTakes(k: Prec, ts: seq<Token>)
    requires k <= 2 && ParseItem(k, ts).Parsed?
    ensures var r := ParseItem(k, ts);
      |r.rest| + (if k == 1 then ItemCost(r.value) else Least(r.value, TEST)) <= |ts|
    decreases |ts|, 19 - k, 0
  {
    ParseTakes(TEST, if k == 1 && SeesWord(ts, Walrus) then ts[2..] else ts);
  }

  lemma ItemsStart(e: Expr, elts: seq<Expr>)
    ensures ItemsCost([e] + elts) == ItemCost(e) + 1 + ItemsCost(elts)
    ensures ItemCost(e) <= Least(e, TEST)
  {
    assert ([e] + elts)[1..] == elts;
  }

  lemma {:induction false} CommasTake(k: Prec, ts: seq<Token>)
    requires k <= 2 && ParseCommas(k, ts).Parsed?
    ensures var r := ParseCommas(k, ts); |r.rest| + Least(r.value, k) <= |ts|
    decreases |ts|, 19 - k, 1
  {
    var r := ParseItem(k, ts);
    ItemTakes(k, ts);
    if Sees(r.rest, Comma) {
      MoreTake(k, r.rest);
      ItemsStart(r.value, ParseMore(k, r.rest).value);
    }
  }

  lemma {:induction false} MoreTake(k: Prec, ts: seq<Token>)
    requires k <= 2 && ParseMore(k, ts).Parsed?
    ensures var r := ParseMore(k, ts);
      |r.rest| + ItemsCost(r.value) <= |ts| && (Sees(ts, Comma) && r.value == [] ==> |r.rest| < |ts|)
    decreases |ts|, 0, 0
  {
    if Sees(ts, Comma) && |ts| > 1 && StartsAt(ts[1]) != 0 {
      var r := ParseItem(k, ts[1..]);
      ItemTakes(k, ts[1..]);
      MoreTake(k, r.rest);
      ItemsStart(r.value, ParseMore(k, r.rest).value);
    }
  }

  lemma {:induction false} TestTakes(ts: seq<Token>)
    requires ParseTest(ts).Parsed?
    ensures var r := ParseTest(ts); |r.rest| + Least(r.value, TEST) <= |ts|
    decreases |ts|, 19 - TEST, 1
  {
    if Sees(ts, KwLambda) {
      LambdaTakes(ts);
    } else {
      var r := Parse(OR, ts);
      ParseTakes(OR, ts);
      if Sees(r.rest, KwIf) {
        ConditionTakes(r.value, r.rest);
      }
    }
  }

  /** From the `if` on */
  lemma {:induction false} ConditionTakes(body: Expr, ts: seq<Token>)
    requires Sees(ts, KwIf) && var test := Parse(OR, ts[1..]);
      test.Parsed? && Sees(test.rest, KwElse) && Parse(TEST, test.rest[1..]).Parsed?
    ensures var test := Parse(OR, ts[1..]);
      var orelse := Parse(TEST, test.rest[1..]);
      |orelse.rest| + Least(IfExp(test.value, body, orelse.value), TEST) <= |ts| + Least(body, OR)
    decreases |ts|, 0, 0
  {
    var test := Parse(OR, ts[1..]);
    ParseTakes(OR, ts[1..]);
    ParseTakes(TEST, test.rest[1..]);
  }

  lemma {:induction false} LambdaTakes(ts: seq<Token>)
    requires Sees(ts, KwLambda) && ParseTest(ts).Parsed?
    ensures var r := ParseTest(ts); |r.rest| + Least(r.value, TEST) <= |ts|
    decreases |ts|, 0, 0
  {
    var items := ParseParams(ts[1..]);
    var params, r := Assembled(items.value), Parse(TEST, items.rest);
    assert ParseTest(ts) == Parsed(Lambda(params.value, r.value), r.rest);
    ParamsTake(ts[1..]);
    ParseTakes(TEST, items.rest);
    LambdaCost(items.value, params.value, r.value);
  }

  lemma LambdaCost(items: seq<Item>, params: Params, result: Expr)
    requires Assembled(items) == Some(params)
    ensures Least(Lambda(params, result), TEST) == 1 + Between(ParamItemsCost(items)) + 1 + Least(result, TEST)
  {
    AssembledCost(items, params);
  }

  lemma {:induction false} BoolTakes(k: Prec, ts: seq<Token>)
    requires (k == 5 || k == 6) && ParseBool(k, ts).Parsed?
    ensures var r := ParseBool(k, ts); |r.rest| + Least(r.value, k) <= |ts|
    decreases |ts|, 19 - k, 1
  {
    var op := if k == 5 then Or else And;
    var r := Parse(k + 1, ts);
    ParseTakes(k + 1, ts);
    if Sees(r.rest, BoolToken(op)) {
      var more := ParseValues(k, op, r.rest);
      ValuesTake(k, op, r.rest);
      ValuesStart(r.value, more.value, k + 1);
      BoolCost(k, op, [r.value] + more.value);
    }
  }

  lemma BoolCost(k: Prec, op: BoolOperator, values: seq<Expr>)
    requires k == BoolLevel(op)
    ensures Least(BoolOp(op, values), k) == Between(ValuesCost(values, k + 1))
  {
  }

  lemma ValuesStart(e: Expr, values: seq<Expr>, k: int)
    ensures ValuesCost([e] + values, k) == Least(e, k) + 1 + ValuesCost(values, k)
  {
    assert ([e] + values)[1..] == values;
  }

  lemma {:induction false} ValuesTake(k: Prec, op: BoolOperator, ts: seq<Token>)
    requires (k == 5 || k == 6) && ParseValues(k, op, ts).Parsed?
    ensures var r := ParseValues(k, op, ts); |r.rest| + ValuesCost(r.value, k + 1) <= |ts|
    decreases |ts|, 0, 0
  {
    if Sees(ts, BoolToken(op)) {
      var r := Parse(k + 1, ts[1..]);
      ParseTakes(k + 1, ts[1..]);
      ValuesTake(k, op, r.rest);
      ValuesStart(r.value, ParseValues(k, op, r.rest).value, k + 1);
    }
  }

  lemma {:induction false} NotTakes(ts: seq<Token>)
    requires ParseNot(ts).Parsed?
    ensures var r := ParseNot(ts); |r.rest| + Least(r.value, NOT) <= |ts|
    decreases |ts|, 19 - NOT, 1
  {
    if Sees(ts, KwNot) {
      ParseTakes(NOT, ts[1..]);
    } else {
      ParseTakes(CMP, ts);
    }
  }

  lemma {:induction false} CompareTakes(ts: seq<Token>)
    requires ParseCompare(ts).Parsed?
    ensures var r := ParseCompare(ts); |r.rest| + Least(r.value, CMP) <= |ts|
    decreases |ts|, 19 - CMP, 1
  {
    ParseTakes(EXPR, ts);
    LinksTake(Parse(EXPR, ts).rest);
  }

  lemma ComparatorTakes(ts: seq<Token>)
    requires ParseComparator(ts).Parsed?
    ensures var r := ParseComparator(ts); |r.rest| + |ComparatorPieces(r.value)| <= |ts|
  {
  }

  lemma {:induction false} LinksTake(ts: seq<Token>)
    requires ParseLinks(ts).Parsed?
    ensures var r := ParseLinks(ts); |r.rest| + LinksCost(r.value) <= |ts|
    decreases |ts|, 0, 0
  {
    var op := ParseComparator(ts);
    if op.Parsed? {
      var r := Parse(EXPR, op.rest);
      ComparatorTakes(ts);
      ParseTakes(EXPR, op.rest);
      LinksTake(r.rest);
      LinksBegin(Link(op.value, r.value), ParseLinks(r.rest).value);
    }
  }

  lemma LinksBegin(link: Link, links: seq<Link>)
    ensures LinksCost([link] + links) == LinkCost(link) + LinksCost(links)
  {
    assert ([link] + links)[1..] == links;
  }

  lemma {:induction false} BinaryTakes(k: Prec, ts: seq<Token>)
    requires 9 <= k <= 14 && ParseBinary(k, ts).Parsed?
    ensures var r := ParseBinary(k, ts); |r.rest| + Least(r.value, k) <= |ts|
    decreases |ts|, 19 - k, 1
  {
    var r := Parse(k + 1, ts);
    ParseTakes(k + 1, ts);
    OperandsTake(k, r.value, r.rest);
  }

  lemma {:induction false} OperandsTake(k: Prec, left: Expr, ts: seq<Token>)
    requires 9 <= k <= 14 && ParseOperands(k, left, ts).Parsed?
    ensures var r := ParseOperands(k, left, ts); |r.rest| + Least(r.value, k) <= |ts| + Least(left, k)
    decreases |ts|, 0, 0
  {
    var op := BinaryAt(k, ts);
    if op.Some? {
      var r := Parse(k + 1, ts[1..]);
      var e := BinOp(left, op.value, r.value);
      ParseTakes(k + 1, ts[1..]);
      BinaryCost(k, left, op.value, r.value);
      OperandsTake(k, e, r.rest);
    }
  }

  lemma BinaryCost(k: Prec, left: Expr, op: Operator, right: Expr)
    requires op != Pow && k == BinLevel(op)
    ensures Least(BinOp(left, op, right), k) == Least(left, k) + 1 + Least(right, k + 1)
  {
  }

  lemma {:induction false} FactorTakes(ts: seq<Token>)
    requires ParseFactor(ts).Parsed?
    ensures var r := ParseFactor(ts); |r.rest| + Least(r.value, FACTOR) <= |ts|
    decreases |ts|, 19 - FACTOR, 1
  {
    if FactorAt(ts).Some? {
      ParseTakes(FACTOR, ts[1..]);
    } else {
      ParseTakes(POWER, ts);
    }
  }

  lemma {:induction false} PowerTakes(ts: seq<Token>)
    requires ParsePower(ts).Parsed?
    ensures var r := ParsePower(ts); |r.rest| + Least(r.value, POWER) <= |ts|
    decreases |ts|, 19 - POWER, 1
  {
    var r := Parse(AWAIT, ts);
    ParseTakes(AWAIT, ts);
    if Sees(r.rest, StarStar) {
      ParseTakes(FACTOR, r.rest[1..]);
      PowerCost(r.value, Parse(FACTOR, r.rest[1..]).value);
    }
  }

  lemma PowerCost(left: Expr, right: Expr)
    ensures Least(BinOp(left, Pow, right), POWER) == Least(left, AWAIT) + 1 + Least(right, FACTOR)
  {
  }

  lemma {:induction false} PrimaryTakes(ts: seq<Token>)
    requires ParsePrimary(ts).Parsed?
    ensures var r := ParsePrimary(ts); |r.rest| + Least(r.value, ATOM) <= |ts|
    decreases |ts|, 19 - ATOM, 1
  {
    var r := ParseAtom(ts);
    AtomTakes(ts);
    TrailersTake(r.value, r.rest);
  }

  lemma {:induction false} AtomTakes(ts: seq<Token>)
    requires ParseAtom(ts).Parsed?
    ensures var r := ParseAtom(ts); |r.rest| + Least(r.value, ATOM) <= |ts|
    decreases |ts|, 0, 0
  {
    if ts[0] == LParen && !Sees(ts[1..], RParen) {
      ParseTakes(NAMED_EXPR, ts[1..]);
    } else if ts[0] == LBracket {
      ListTakes(ts[1..]);
    }
  }

  lemma {:induction false} ListTakes(ts: seq<Token>)
    requires ParseList(ts).Parsed?
    ensures var r := ParseList(ts); |r.rest| + Least(r.value, ATOM) <= |ts| + 1
    decreases |ts|, 20, 0
  {
    if !Sees(ts, RBracket) {
      var r := ParseItem(NAMED_EXPR, ts);
      ItemTakes(NAMED_EXPR, ts);
      MoreTake(NAMED_EXPR, r.rest);
      ItemsStart(r.value, ParseMore(NAMED_EXPR, r.rest).value);
    }
  }

  lemma {:induction false} TrailersTake(e: Expr, ts: seq<Token>)
    requires ParseTrailers(e, ts).Parsed?
    ensures var r := ParseTrailers(e, ts); |r.rest| + Least(r.value, ATOM) <= |ts| + Least(e, ATOM)
    decreases |ts|, 0, 1
  {
    var r := FirstTrailer(e, ts);
    TrailerIsFirst(e, ts);
    if r.Parsed? {
      TrailerTakes(e, ts);
      TrailersTake(r.value, r.rest);
    }
  }

  lemma {:induction false} TrailerTakes(e: Expr, ts: seq<Token>)
    requires FirstTrailer(e, ts).Parsed?
    ensures var r := FirstTrailer(e, ts); |r.rest| + Least(r.value, ATOM) <= |ts| + Least(e, ATOM)
    decreases |ts|, 0, 0
  {
    if Sees(ts, LParen) {
      var r := ParseArguments(false, ts[1..]);
      ArgumentsTake(false, ts[1..]);
      TrailerCosts(e, r.value.0, r.value.1, e);
    } else if Sees(ts, LBracket) {
      var r := Parse(NAMED_EXPR, ts[1..]);
      ParseTakes(NAMED_EXPR, ts[1..]);
      TrailerCosts(e, [], [], r.value);
    }
  }

  lemma TrailerCosts(e: Expr, args: seq<Expr>, keywords: seq<Keyword>, slice: Expr)
    ensures Least(Call(e, args, keywords), ATOM)
         == Least(e, ATOM) + 1 + Between(ItemsCost(args) + KeywordsCost(keywords)) + 1
    ensures Least(Subscript(e, slice), ATOM) == Least(e, ATOM) + 1 + Least(slice, NAMED_EXPR) + 1
  {
  }

  function ArgumentsCost(a: (seq<Expr>, seq<Keyword>)): nat {
    ItemsCost(a.0) + KeywordsCost(a.1)
  }

  lemma {:induction false} ArgumentsTake(only: bool, ts: seq<Token>)
    requires ParseArguments(only, ts).Parsed?
    ensures var r := ParseArguments(only, ts); |r.rest| + 1 + Between(ArgumentsCost(r.value)) <= |ts|
    decreases |ts|, 20, 0
  {
    if Sees(ts, RParen) {
    } else if SeesWord(ts, Assign) {
      KeywordTakes(Some(ts[0].id), ts[2..]);
    } else if Sees(ts, StarStar) {
      KeywordTakes(None, ts[1..]);
    } else {
      var r := ParseItem(NAMED_EXPR, ts);
      ItemTakes(NAMED_EXPR, ts);
      AfterArgumentTakes(false, r.rest);
      ItemsStart(r.value, ParseAfterArgument(false, r.rest).value.0);
    }
  }

  /** The value of a keyword argument and what follows it */
  lemma {:induction false} KeywordTakes(arg: Option<string>, ts: seq<Token>)
    requires Parse(TEST, ts).Parsed? && ParseAfterArgument(true, Parse(TEST, ts).rest).Parsed?
    ensures var r := Parse(TEST, ts);
      var a := AddKeyword(Keyword(arg, r.value), ParseAfterArgument(true, r.rest));
      |a.rest| + 1 + Between(ArgumentsCost(a.value)) <= |ts| + (if arg.Some? then 2 else 1)
    decreases |ts|, 20, 0
  {
    var r := Parse(TEST, ts);
    ParseTakes(TEST, ts);
    AfterArgumentTakes(true, r.rest);
    KeywordAdds(Keyword(arg, r.value), ParseAfterArgument(true, r.rest));
  }

  lemma KeywordAdds(k: Keyword, r: Parsed<(seq<Expr>, seq<Keyword>)>)
    requires r.Parsed?
    ensures ArgumentsCost(AddKeyword(k, r).value) == KeywordCost(k) + 1 + ArgumentsCost(r.value)
  {
    assert ([k] + r.value.1)[1..] == r.value.1;
  }

  lemma {:induction false} AfterArgumentTakes(only: bool, ts: seq<Token>)
    requires ParseAfterArgument(only, ts).Parsed?
    ensures var r := ParseAfterArgument(only, ts); |r.rest| + 1 + ArgumentsCost(r.value) <= |ts|
    decreases |ts|, 0, 0
  {
    if Sees(ts, Comma) {
      ArgumentsTake(only, ts[1..]);
    }
  }

  // ----- Parameters -----

  function ParamItemCost(item: Item): nat {
    match item
    case Plain(param) => ParamCost(param)
    case SlashItem => 1
    case BareStar => 1
    case StarName(_) => 2
    case DoubleStar(_) => 2
  }

  function ParamItemsCost(items: seq<Item>): nat {
    if items == [] then 0 else ParamItemCost(items[0]) + 1 + ParamItemsCost(items[1..])
  }

  lemma {:induction false} ParamsTake(ts: seq<Token>)
    requires ParseParams(ts).Parsed?
    ensures var r := ParseParams(ts); |r.rest| + 1 + Between(ParamItemsCost(r.value)) <= |ts|
    decreases |ts|, 20, 1
  {
    if !Sees(ts, Colon) {
      var item := ParseParam(ts);
      ParamTakes(ts);
      AfterParamTakes(item.rest);
      var more := ParseAfterParam(item.rest).value;
      assert ([item.value] + more)[1..] == more;
    }
  }

  lemma {:induction false} AfterParamTakes(ts: seq<Token>)
    requires ParseAfterParam(ts).Parsed?
    ensures var r := ParseAfterParam(ts); |r.rest| + 1 + ParamItemsCost(r.value) <= |ts|
    decreases |ts|, 0, 0
  {
    if Sees(ts, Comma) {
      ParamsTake(ts[1..]);
    }
  }

  lemma {:induction false} ParamTakes(ts: seq<Token>)
    requires ParseParam(ts).Parsed?
    ensures var r := ParseParam(ts); |r.rest| + ParamItemCost(r.value) <= |ts|
    decreases |ts|, 20, 0
  {
    var item := ParseParam(ts).value;
    if item.Plain? && item.param.default.Some? {
      assert SeesWord(ts, Assign) && item.param.default.value == Parse(TEST, ts[2..]).value;
      ParseTakes(TEST, ts[2..]);
    }
  }

  lemma {:induction false} CostsAdd(a: seq<Item>, b: seq<Item>)
    ensures ParamItemsCost(a + b) == ParamItemsCost(a) + ParamItemsCost(b)
  {
    if a == [] {
      assert a + b == b;
    } else {
      CostsAdd(a[1..], b);
      assert (a + b)[1..] == a[1..] + b;
    }
  }

  lemma {:induction false} PlainsCost(params: seq<Param>)
    ensures ParamItemsCost(Plains(params)) == PlainCost(params)
  {
    if params != [] {
      PlainsCost(params[1..]);
      assert Plains(params)[1..] == Plains(params[1..]);
    }
  }

  lemma MarksCost(params: Params)
    ensures ParamItemsCost(SlashItems(params)) == SlashCost(params)
    ensures ParamItemsCost(StarItems(params)) == StarCost(params)
    ensures ParamItemsCost(DoubleStarItems(params)) == DoubleStarCost(params)
  {
  }

  lemma AssembledCost(items: seq<Item>, params: Params)
    requires Assembled(items) == Some(params)
    ensures ParamItemsCost(items) == ParamsCost(params)
  {
    AssembledFrom(items, params);
    var i5 := DoubleStarItems(params);
    var i4 := Plains(params.kwonly) + i5;
    var i3 := StarItems(params) + i4;
    var i2 := Plains(params.args) + i3;
    CostsAdd(Plains(params.kwonly), i5);
    CostsAdd(StarItems(params), i4);
    CostsAdd(Plains(params.args), i3);
    CostsAdd(SlashItems(params), i2);
    CostsAdd(Plains(params.posonly), SlashItems(params) + i2);
    PlainsCost(params.posonly);
    PlainsCost(params.args);
    PlainsCost(params.kwonly);
    MarksCost(params);
  }
}
