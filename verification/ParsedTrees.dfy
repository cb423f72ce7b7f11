/** Every tree that the parser gives is well-formed, so that whatever it accepts survives being printed and parsed
    again. */
module ParsedTrees {
  import opened Basics
  import opened Expressions
  import opened ExpressionParser
  import opened ExpressionRoundTrip

  lemma {:induction false} ParseIsWellFormed(k: Prec, ts: seq<Token>)
    requires Parse(k, ts).Parsed?
    ensures WellFormed(Parse(k, ts).value)
    decreases |ts|, 19 - k, 2
  {
    if k <= 2 {
      CommasAreWellFormed(k, ts);
    } else if k == 4 {
      TestIsWellFormed(ts);
    } else if k == 5 || k == 6 {
      BoolIsWellFormed(k, ts);
    } else if k == 7 {
      NotIsWellFormed(ts);
    } else if k == 8 {
      CompareIsWellFormed(ts);
    } else if 9 <= k <= 14 {
      var r := Parse(k + 1, ts);
      ParseIsWellFormed(k + 1, ts);
      OperandsAreWellFormed(k, r.value, r.rest);
    } else if k == 15 {
      FactorIsWellFormed(ts);
    } else if k == 16 {
      PowerIsWellFormed(ts);
    } else if k == 18 {
      var r := ParseAtom(ts);
      AtomIsWellFormed(ts);
      TrailersAreWellFormed(r.value, r.rest);
    } else {
      ParseIsWellFormed(k + 1, ts);
    }
  }

  lemma {:induction false} ItemIsWellFormed(k: Prec, ts: seq<Token>)
    requires k <= 2 && ParseItem(k, ts).Parsed?
    ensures WellFormed(ParseItem(k, ts).value)
    decreases |ts|, 19 - k, 0
  {
    if k == 1 && SeesWord(ts, Walrus) {
      ParseIsWellFormed(TEST, ts[2..]);
    } else {
      ParseIsWellFormed(TEST, ts);
    }
  }

  predicate AllWellFormed(es: seq<Expr>) {
    forall e :: e in es ==> WellFormed(e)
  }

  lemma {:induction false} CommasAreWellFormed(k: Prec, ts: seq<Token>)
    requires k <= 2 && ParseCommas(k, ts).Parsed?
    ensures WellFormed(ParseCommas(k, ts).value)
    decreases |ts|, 19 - k, 1
  {
    var r := ParseItem(k, ts);
    ItemIsWellFormed(k, ts);
    if Sees(r.rest, Comma) {
      MoreAreWellFormed(k, r.rest);
    }
  }

  lemma {:induction false} MoreAreWellFormed(k: Prec, ts: seq<Token>)
    requires k <= 2 && ParseMore(k, ts).Parsed?
    ensures AllWellFormed(ParseMore(k, ts).value)
    decreases |ts|, 0, 0
  {
    if Sees(ts, Comma) && |ts| > 1 && StartsAt(ts[1]) != 0 {
      ItemIsWellFormed(k, ts[1..]);
      MoreAreWellFormed(k, ParseItem(k, ts[1..]).rest);
    }
  }

  lemma {:induction false} TestIsWellFormed(ts: seq<Token>)
    requires ParseTest(ts).Parsed?
    ensures WellFormed(ParseTest(ts).value)
    decreases |ts|, 19 - TEST, 1
  {
    if Sees(ts, KwLambda) {
      var items := ParseParams(ts[1..]);
      ParamsAreWellFormed(ts[1..]);
      AssembledIsWellFormed(items.value);
      ParseIsWellFormed(TEST, items.rest);
    } else {
      var r := Parse(OR, ts);
      ParseIsWellFormed(OR, ts);
      if Sees(r.rest, KwIf) {
        var test := Parse(OR, r.rest[1..]);
        ParseIsWellFormed(OR, r.rest[1..]);
        ParseIsWellFormed(TEST, test.rest[1..]);
      }
    }
  }

  lemma {:induction false} BoolIsWellFormed(k: Prec, ts: seq<Token>)
    requires (k == 5 || k == 6) && ParseBool(k, ts).Parsed?
    ensures WellFormed(ParseBool(k, ts).value)
    decreases |ts|, 19 - k, 1
  {
    var op := if k == 5 then Or else And;
    var r := Parse(k + 1, ts);
    ParseIsWellFormed(k + 1, ts);
    if Sees(r.rest, BoolToken(op)) {
      ValuesAreWellFormed(k, op, r.rest);
    }
  }

  lemma {:induction false} ValuesAreWellFormed(k: Prec, op: BoolOperator, ts: seq<Token>)
    requires (k == 5 || k == 6) && ParseValues(k, op, ts).Parsed?
    ensures AllWellFormed(ParseValues(k, op, ts).value)
    ensures Sees(ts, BoolToken(op)) ==> ParseValues(k, op, ts).value != []
    decreases |ts|, 0, 0
  {
    if Sees(ts, BoolToken(op)) {
      ParseIsWellFormed(k + 1, ts[1..]);
      ValuesAreWellFormed(k, op, Parse(k + 1, ts[1..]).rest);
    }
  }

  lemma {:induction false} NotIsWellFormed(ts: seq<Token>)
    requires ParseNot(ts).Parsed?
    ensures WellFormed(ParseNot(ts).value)
    decreases |ts|, 19 - NOT, 1
  {
    if Sees(ts, KwNot) {
      ParseIsWellFormed(NOT, ts[1..]);
    } else {
      ParseIsWellFormed(CMP, ts);
    }
  }

  lemma {:induction false} CompareIsWellFormed(ts: seq<Token>)
    requires ParseCompare(ts).Parsed?
    ensures WellFormed(ParseCompare(ts).value)
    decreases |ts|, 19 - CMP, 1
  {
    ParseIsWellFormed(EXPR, ts);
    LinksAreWellFormed(Parse(EXPR, ts).rest);
  }

  predicate LinksWellFormed(links: seq<Link>) {
    forall l :: l in links ==> WellFormed(l.operand)
  }

  lemma {:induction false} LinksAreWellFormed(ts: seq<Token>)
    requires ParseLinks(ts).Parsed?
    ensures LinksWellFormed(ParseLinks(ts).value)
    decreases |ts|, 0, 0
  {
    var op := ParseComparator(ts);
    if op.Parsed? {
      ParseIsWellFormed(EXPR, op.rest);
      LinksAreWellFormed(Parse(EXPR, op.rest).rest);
    }
  }

  lemma {:induction false} OperandsAreWellFormed(k: Prec, left: Expr, ts: seq<Token>)
    requires 9 <= k <= 14 && WellFormed(left) && ParseOperands(k, left, ts).Parsed?
    ensures WellFormed(ParseOperands(k, left, ts).value)
    decreases |ts|, 0, 0
  {
    var op := BinaryAt(k, ts);
    if op.Some? {
      var r := Parse(k + 1, ts[1..]);
      ParseIsWellFormed(k + 1, ts[1..]);
      OperandsAreWellFormed(k, BinOp(left, op.value, r.value), r.rest);
    }
  }

  lemma {:induction false} FactorIsWellFormed(ts: seq<Token>)
    requires ParseFactor(ts).Parsed?
    ensures WellFormed(ParseFactor(ts).value)
    decreases |ts|, 19 - FACTOR, 1
  {
    if FactorAt(ts).Some? {
      ParseIsWellFormed(FACTOR, ts[1..]);
    } else {
      ParseIsWellFormed(POWER, ts);
    }
  }

  lemma {:induction false} PowerIsWellFormed(ts: seq<Token>)
    requires ParsePower(ts).Parsed?
    ensures WellFormed(ParsePower(ts).value)
    decreases |ts|, 19 - POWER, 1
  {
    var r := Parse(AWAIT, ts);
    ParseIsWellFormed(AWAIT, ts);
    if Sees(r.rest, StarStar) {
      ParseIsWellFormed(FACTOR, r.rest[1..]);
    }
  }

  lemma {:induction false} AtomIsWellFormed(ts: seq<Token>)
    requires ParseAtom(ts).Parsed?
    ensures WellFormed(ParseAtom(ts).value)
    decreases |ts|, 0, 0
  {
    if ts[0] == LParen && !Sees(ts[1..], RParen) {
      ParseIsWellFormed(NAMED_EXPR, ts[1..]);
    } else if ts[0] == LBracket && !Sees(ts[1..], RBracket) {
      ItemIsWellFormed(NAMED_EXPR, ts[1..]);
      MoreAreWellFormed(NAMED_EXPR, ParseItem(NAMED_EXPR, ts[1..]).rest);
    }
  }

  lemma {:induction false} TrailersAreWellFormed(e: Expr, ts: seq<Token>)
    requires WellFormed(e) && ParseTrailers(e, ts).Parsed?
    ensures WellFormed(ParseTrailers(e, ts).value)
    decreases |ts|, 0, 0
  {
    if Sees(ts, Dot) {
      TrailersAreWellFormed(Attribute(e, ts[1].id), ts[2..]);
    } else if Sees(ts, LParen) {
      var r := ParseArguments(false, ts[1..]);
      ArgumentsAreWellFormed(false, ts[1..]);
      TrailersAreWellFormed(Call(e, r.value.0, r.value.1), r.rest);
    } else if Sees(ts, LBracket) {
      var r := Parse(NAMED_EXPR, ts[1..]);
      ParseIsWellFormed(NAMED_EXPR, ts[1..]);
      TrailersAreWellFormed(Subscript(e, r.value), r.rest[1..]);
    }
  }

  predicate ArgumentsWellFormed(a: (seq<Expr>, seq<Keyword>)) {
    AllWellFormed(a.0) && forall k :: k in a.1 ==> WellFormed(k.value)
  }

  lemma {:induction false} ArgumentsAreWellFormed(only: bool, ts: seq<Token>)
    requires ParseArguments(only, ts).Parsed?
    ensures ArgumentsWellFormed(ParseArguments(only, ts).value)
    decreases |ts|, 20, 0
  {
    if Sees(ts, RParen) {
    } else if SeesWord(ts, Assign) {
      var r := Parse(TEST, ts[2..]);
      ParseIsWellFormed(TEST, ts[2..]);
      AfterArgumentIsWellFormed(true, r.rest);
      AddedIsWellFormed(Keyword(Some(ts[0].id), r.value), r.value, ParseAfterArgument(true, r.rest));
    } else if Sees(ts, StarStar) {
      var r := Parse(TEST, ts[1..]);
      ParseIsWellFormed(TEST, ts[1..]);
      AfterArgumentIsWellFormed(true, r.rest);
      AddedIsWellFormed(Keyword(None, r.value), r.value, ParseAfterArgument(true, r.rest));
    } else {
      var r := ParseItem(NAMED_EXPR, ts);
      ItemIsWellFormed(NAMED_EXPR, ts);
      AfterArgumentIsWellFormed(false, r.rest);
      AddedIsWellFormed(Keyword(None, r.value), r.value, ParseAfterArgument(false, r.rest));
    }
  }

  lemma AddedIsWellFormed(k: Keyword, e: Expr, r: Parsed<(seq<Expr>, seq<Keyword>)>)
    requires WellFormed(e) && k.value == e && r.Parsed? && ArgumentsWellFormed(r.value)
    ensures ArgumentsWellFormed(AddKeyword(k, r).value) && ArgumentsWellFormed(AddArgument(e, r).value)
  {
  }

  lemma {:induction false} AfterArgumentIsWellFormed(only: bool, ts: seq<Token>)
    requires ParseAfterArgument(only, ts).Parsed?
    ensures ArgumentsWellFormed(ParseAfterArgument(only, ts).value)
    decreases |ts|, 0, 0
  {
    if Sees(ts, Comma) {
      ArgumentsAreWellFormed(only, ts[1..]);
    }
  }

  // ----- Parameters -----

  predicate ItemsWellFormed(items: seq<Item>) {
    forall i :: i in items && i.Plain? ==> WellFormedParam(i.param)
  }

  predicate ParamsWellFormed(params: seq<Param>) {
    forall p :: p in params ==> WellFormedParam(p)
  }

  lemma {:induction false} ParamsAreWellFormed(ts: seq<Token>)
    requires ParseParams(ts).Parsed?
    ensures ItemsWellFormed(ParseParams(ts).value)
    decreases |ts|, 20, 1
  {
    if !Sees(ts, Colon) {
      ParamIsWellFormed(ts);
      AfterParamIsWellFormed(ParseParam(ts).rest);
    }
  }

  lemma {:induction false} AfterParamIsWellFormed(ts: seq<Token>)
    requires ParseAfterParam(ts).Parsed?
    ensures ItemsWellFormed(ParseAfterParam(ts).value)
    decreases |ts|, 0, 0
  {
    if Sees(ts, Comma) {
      ParamsAreWellFormed(ts[1..]);
    }
  }

  lemma {:induction false} ParamIsWellFormed(ts: seq<Token>)
    requires ParseParam(ts).Parsed?
    ensures var item := ParseParam(ts).value; item.Plain? ==> WellFormedParam(item.param)
    decreases |ts|, 20, 0
  {
    var item := ParseParam(ts).value;
    if item.Plain? && item.param.default.Some? {
      assert SeesWord(ts, Assign) && item.param.default.value == Parse(TEST, ts[2..]).value;
      ParseIsWellFormed(TEST, ts[2..]);
    }
  }

  lemma {:induction false} LeadingAreWellFormed(items: seq<Item>)
    requires ItemsWellFormed(items)
    ensures ParamsWellFormed(LeadingPlain(items).0) && ItemsWellFormed(LeadingPlain(items).1)
  {
    if items != [] && items[0].Plain? {
      LeadingAreWellFormed(items[1..]);
    }
  }

  lemma AssembledIsWellFormed(items: seq<Item>)
    requires ItemsWellFormed(items) && Assembled(items).Some?
    ensures WellFormedParams(Assembled(items).value)
  {
    var (first, rest) := LeadingPlain(items);
    LeadingAreWellFormed(items);
    if rest != [] && rest[0] == SlashItem {
      var (second, rest') := LeadingPlain(rest[1..]);
      LeadingAreWellFormed(rest[1..]);
      EndedIsWellFormed(first, second, rest');
    } else {
      EndedIsWellFormed([], first, rest);
    }
  }

  lemma EndedIsWellFormed(posonly: seq<Param>, args: seq<Param>, items: seq<Item>)
    requires ParamsWellFormed(posonly) && ParamsWellFormed(args) && ItemsWellFormed(items)
    requires Ended(posonly, args, items).Some?
    ensures WellFormedParams(Ended(posonly, args, items).value)
  {
    if items != [] {
      LeadingAreWellFormed(items[1..]);
    }
  }

  /** The list of parameters is known from the groups. */
  lemma AssembledFrom(items: seq<Item>, params: Params)
    requires Assembled(items) == Some(params)
    ensures items == ItemsOf(params)
  {
    var (first, rest) := LeadingPlain(items);
    LeadingIs(items);
    if rest != [] && rest[0] == SlashItem {
      var (second, rest') := LeadingPlain(rest[1..]);
      LeadingIs(rest[1..]);
      EndedFrom(first, second, rest', params);
      HeadTail(rest);
    } else {
      EndedFrom([], first, rest, params);
    }
  }

  lemma {:induction false} LeadingIs(items: seq<Item>)
    ensures var (first, rest) := LeadingPlain(items); items == Plains(first) + rest
  {
    if items != [] && items[0].Plain? {
      LeadingIs(items[1..]);
      var (more, rest) := LeadingPlain(items[1..]);
      assert ([items[0].param] + more)[1..] == more;
      HeadTail(items);
    }
  }

  lemma EndedFrom(posonly: seq<Param>, args: seq<Param>, items: seq<Item>, params: Params)
    requires Ended(posonly, args, items) == Some(params)
    ensures params.posonly == posonly && params.args == args
    ensures items == StarItems(params) + (Plains(params.kwonly) + DoubleStarItems(params))
  {
    if items != [] && (items[0].BareStar? || items[0].StarName?) {
      LeadingIs(items[1..]);
      HeadTail(items);
      KwargFrom(LeadingPlain(items[1..]).1);
    } else {
      KwargFrom(items);
    }
  }

  lemma KwargFrom(items: seq<Item>)
    requires KwargOf(items).Some?
    ensures var kwarg := KwargOf(items).value; items == if kwarg.Some? then [DoubleStar(kwarg.value)] else []
  {
  }

  // ----- The promise of unparsing -----

  /** For any tokens that parse: printing the tree gives tokens that parse to the same tree. */
  lemma ParsePrintParse(p: Prec, ts: seq<Token>, e: Expr, rest: seq<Token>)
    requires Parse(p, ts) == Parsed(e, rest)
    ensures WellFormed(e) && Parse(p, K(Print(e, p))) == Parsed(e, [])
  {
    ParseIsWellFormed(p, ts);
    RoundTrip(e, p);
  }
}
