/** A recursive-descent parser for the expressions of The Python Language Reference (chapter 6, with the
    precedences and associativities of section 6.17). */
module ExpressionParser {
  import opened Basics
  import opened Expressions

  /** The outcome of reading something at the start of a token sequence */
  datatype Parsed<+T> = Failed | Parsed(value: T, rest: seq<Token>)

  /** The loosest grammar level that reads on after an operand when it meets the token, and 0 if none does */
  function ContinuesAt(t: Token): int {
    match t
    case Walrus => 1
    case Comma => 2
    case KwIf => 4
    case KwOr => 5
    case KwAnd => 6
    case EqualEqual => 8
    case NotEqual => 8
    case Less => 8
    case LessEqual => 8
    case Greater => 8
    case GreaterEqual => 8
    case KwIs => 8
    case KwIn => 8
    case KwNot => 8
    case Bar => 9
    case Caret => 10
    case Ampersand => 11
    case LeftShift => 12
    case RightShift => 12
    case Plus => 13
    case Minus => 13
    case Star => 14
    case At => 14
    case Slash => 14
    case Percent => 14
    case SlashSlash => 14
    case StarStar => 16
    case Dot => 18
    case LParen => 18
    case LBracket => 18
    case _ => 0
  }

  /** The tightest grammar level whose expressions can start with the token, and 0 if none can */
  function StartsAt(t: Token): int {
    match t
    case KwLambda => 4
    case KwNot => 7
    case Plus => 15
    case Minus => 15
    case Tilde => 15
    case Word(_) => 18
    case Number(_) => 18
    case Float(_) => 18
    case StringLit(_) => 18
    case KwTrue => 18
    case KwFalse => 18
    case KwNone => 18
    case Dots => 18
    case LParen => 18
    case LBracket => 18
    case _ => 0
  }

  predicate Sees(ts: seq<Token>, t: Token) {
    ts != [] && ts[0] == t
  }

  /** A word and then the token t */
  predicate SeesWord(ts: seq<Token>, t: Token) {
    |ts| >= 2 && ts[0].Word? && ts[1] == t
  }

  function BinaryAt(k: int, ts: seq<Token>): Option<Operator> {
    if ts == [] then None
    else
      match ts[0]
      case Bar => if k == 9 then Some(BitOr) else None
      case Caret => if k == 10 then Some(BitXor) else None
      case Ampersand => if k == 11 then Some(BitAnd) else None
      case LeftShift => if k == 12 then Some(LShift) else None
      case RightShift => if k == 12 then Some(RShift) else None
      case Plus => if k == 13 then Some(Add) else None
      case Minus => if k == 13 then Some(Sub) else None
      case Star => if k == 14 then Some(Mult) else None
      case At => if k == 14 then Some(MatMult) else None
      case Slash => if k == 14 then Some(Div) else None
      case Percent => if k == 14 then Some(Mod) else None
      case SlashSlash => if k == 14 then Some(FloorDiv) else None
      case _ => None
  }

  /** A comparison operator, which may take two tokens */
  function ParseComparator(ts: seq<Token>): (r: Parsed<Comparator>)
    ensures r.Parsed? ==> |r.rest| < |ts|
  {
    if ts == [] then Failed
    else
      match ts[0]
      case EqualEqual => Parsed(Eq, ts[1..])
      case NotEqual => Parsed(NotEq, ts[1..])
      case Less => Parsed(Lt, ts[1..])
      case LessEqual => Parsed(LtE, ts[1..])
      case Greater => Parsed(Gt, ts[1..])
      case GreaterEqual => Parsed(GtE, ts[1..])
      case KwIs => if Sees(ts[1..], KwNot) then Parsed(IsNot, ts[2..]) else Parsed(Is, ts[1..])
      case KwIn => Parsed(In, ts[1..])
      case KwNot => if Sees(ts[1..], KwIn) then Parsed(NotIn, ts[2..]) else Failed
      case _ => Failed
  }

  function FactorAt(ts: seq<Token>): Option<UnaryOperator> {
    if Sees(ts, Plus) then Some(UAdd)
    else if Sees(ts, Minus) then Some(USub)
    else if Sees(ts, Tilde) then Some(Invert)
    else None
  }

  function ConstantAt(t: Token): Option<Constant> {
    match t
    case Number(n) => Some(Int(n))
    case KwTrue => Some(Bool(true))
    case KwFalse => Some(Bool(false))
    case KwNone => Some(NoneConstant)
    case Dots => Some(EllipsisConstant)
    case Float(repr) => Some(FloatConstant(repr))
    case StringLit(s) => Some(StrConstant(s))
    case _ => None
  }

  // ----- Parameters -----

  /** What stands between the commas of a parameter list */
  datatype Item = Plain(param: Param) | SlashItem | BareStar | StarName(name: string) | DoubleStar(name: string)

  /** The plain parameters at the start, and the rest */
  function LeadingPlain(items: seq<Item>): (r: (seq<Param>, seq<Item>))
    ensures |r.1| <= |items|
  {
    if items == [] || !items[0].Plain? then ([], items)
    else
      var (more, rest) := LeadingPlain(items[1..]);
      ([items[0].param] + more, rest)
  }

  /** `lambda_params`: the groups in their order, a slash after at least one parameter, a bare star before at least
      one, and no positional parameter without a default after one that has one */
  function Assembled(items: seq<Item>): Option<Params>
  {
    var (first, rest) := LeadingPlain(items);
    if rest != [] && rest[0] == SlashItem then
      var (second, rest') := LeadingPlain(rest[1..]);
      if first == [] then None else Ended(first, second, rest')
    else Ended([], first, rest)
  }

  /** After the positional parameters */
  function Ended(posonly: seq<Param>, args: seq<Param>, items: seq<Item>): Option<Params>
  {
    if !DefaultsLast(posonly + args) then None
    else if items != [] && (items[0].BareStar? || items[0].StarName?) then
      var (kwonly, rest) := LeadingPlain(items[1..]);
      var kwarg := KwargOf(rest);
      if kwarg.None? || (items[0].BareStar? && kwonly == []) then None
      else Some(Params(posonly, args, if items[0].StarName? then Some(items[0].name) else None, kwonly, kwarg.value))
    else
      var kwarg := KwargOf(items);
      if kwarg.None? then None else Some(Params(posonly, args, None, [], kwarg.value))
  }

  /** The double star at the very end, or nothing there */
  function KwargOf(items: seq<Item>): Option<Option<string>> {
    if items == [] then Some(None)
    else if |items| == 1 && items[0].DoubleStar? then Some(Some(items[0].name))
    else None
  }

  // ----- The grammar -----

  /** The grammar rule for precedence k: 1 is what stands between brackets, `star_named_expressions`; 2 is
      `star_expressions`, 4 `expression`, 5 `disjunction`, 6 `conjunction`, 7 `inversion`, 8 `comparison`, 9 to 14
      `bitwise_or` to `term`, 15 `factor`, 16 `power`, 18 `primary`. */
  function Parse(k: Prec, ts: seq<Token>): (r: Parsed<Expr>)
    ensures r.Parsed? ==> |r.rest| < |ts|
    decreases |ts|, 19 - k, 2
  {
    if k <= 2 then ParseCommas(k, ts)
    else if k == 4 then ParseTest(ts)
    else if k == 5 || k == 6 then ParseBool(k, ts)
    else if k == 7 then ParseNot(ts)
    else if k == 8 then ParseCompare(ts)
    else if 9 <= k <= 14 then ParseBinary(k, ts)
    else if k == 15 then ParseFactor(ts)
    else if k == 16 then ParsePower(ts)
    else if k == 18 then ParsePrimary(ts)
    else Parse(k + 1, ts)
  }

  function ParseItem(k: Prec, ts: seq<Token>): (r: Parsed<Expr>)
    requires k <= 2
    ensures r.Parsed? ==> |r.rest| < |ts|
    decreases |ts|, 19 - k, 0
  {
    if k == 1 && SeesWord(ts, Walrus) then
      var r := Parse(TEST, ts[2..]);
      if r.Failed? then Failed else Parsed(NamedExpr(ts[0].id, r.value), r.rest)
    else Parse(TEST, ts)
  }

  function ParseCommas(k: Prec, ts: seq<Token>): (r: Parsed<Expr>)
    requires k <= 2
    ensures r.Parsed? ==> |r.rest| < |ts|
    decreases |ts|, 19 - k, 1
  {
    var r := ParseItem(k, ts);
    if r.Failed? || !Sees(r.rest, Comma) then r
    else
      var more := ParseMore(k, r.rest);
      if more.Failed? then Failed else Parsed(Tuple([r.value] + more.value), more.rest)
  }

  /** A comma and an item, as often as there are; the last comma may be without one. */
  function ParseMore(k: Prec, ts: seq<Token>): (r: Parsed<seq<Expr>>)
    requires k <= 2
    ensures r.Parsed? ==> |r.rest| <= |ts|
    decreases |ts|, 0, 0
  {
    if !Sees(ts, Comma) then Parsed([], ts)
    else if |ts| == 1 || StartsAt(ts[1]) == 0 then Parsed([], ts[1..])
    else
      var r := ParseItem(k, ts[1..]);
      if r.Failed? then Failed
      else
        var more := ParseMore(k, r.rest);
        if more.Failed? then Failed else Parsed([r.value] + more.value, more.rest)
  }

  function ParseTest(ts: seq<Token>): (r: Parsed<Expr>)
    ensures r.Parsed? ==> |r.rest| < |ts|
    decreases |ts|, 19 - TEST, 1
  {
    if Sees(ts, KwLambda) then
      var items := ParseParams(ts[1..]);
      if items.Failed? then Failed
      else
        var params := Assembled(items.value);
        var r := Parse(TEST, items.rest);
        if params.None? || r.Failed? then Failed else Parsed(Lambda(params.value, r.value), r.rest)
    else
      var r := Parse(OR, ts);
      if r.Failed? || !Sees(r.rest, KwIf) then r
      else
        var test := Parse(OR, r.rest[1..]);
        if test.Failed? || !Sees(test.rest, KwElse) then Failed
        else
          var orelse := Parse(TEST, test.rest[1..]);
          if orelse.Failed? then Failed else Parsed(IfExp(test.value, r.value, orelse.value), orelse.rest)
  }

  /** The parameters of a lambda, one by one, and the colon after them */
  function ParseParams(ts: seq<Token>): (r: Parsed<seq<Item>>)
    ensures r.Parsed? ==> |r.rest| < |ts|
    decreases |ts|, 20, 1
  {
    if Sees(ts, Colon) then Parsed([], ts[1..])
    else
      var item := ParseParam(ts);
      if item.Failed? then Failed
      else
        var more := ParseAfterParam(item.rest);
        if more.Failed? then Failed else Parsed([item.value] + more.value, more.rest)
  }

  function ParseAfterParam(ts: seq<Token>): (r: Parsed<seq<Item>>)
    ensures r.Parsed? ==> |r.rest| < |ts|
    decreases |ts|, 0, 0
  {
    if Sees(ts, Colon) then Parsed([], ts[1..])
    else if Sees(ts, Comma) then ParseParams(ts[1..])
    else Failed
  }

  function ParseParam(ts: seq<Token>): (r: Parsed<Item>)
    ensures r.Parsed? ==> |r.rest| < |ts|
    decreases |ts|, 20, 0
  {
    if Sees(ts, Slash) then Parsed(SlashItem, ts[1..])
    else if Sees(ts, Star) then
      if |ts| >= 2 && ts[1].Word? then Parsed(StarName(ts[1].id), ts[2..]) else Parsed(BareStar, ts[1..])
    else if Sees(ts, StarStar) then
      if |ts| >= 2 && ts[1].Word? then Parsed(DoubleStar(ts[1].id), ts[2..]) else Failed
    else if SeesWord(ts, Assign) then
      var r := Parse(TEST, ts[2..]);
      if r.Failed? then Failed else Parsed(Plain(Param(ts[0].id, Some(r.value))), r.rest)
    else if ts != [] && ts[0].Word? then Parsed(Plain(Param(ts[0].id, None)), ts[1..])
    else Failed
  }

  function ParseBool(k: Prec, ts: seq<Token>): (r: Parsed<Expr>)
    requires k == 5 || k == 6
    ensures r.Parsed? ==> |r.rest| < |ts|
    decreases |ts|, 19 - k, 1
  {
    var op := if k == 5 then Or else And;
    var r := Parse(k + 1, ts);
    if r.Failed? || !Sees(r.rest, BoolToken(op)) then r
    else
      var more := ParseValues(k, op, r.rest);
      if more.Failed? then Failed else Parsed(BoolOp(op, [r.value] + more.value), more.rest)
  }

  function ParseValues(k: Prec, op: BoolOperator, ts: seq<Token>): (r: Parsed<seq<Expr>>)
    requires k == 5 || k == 6
    ensures r.Parsed? ==> |r.rest| <= |ts|
    decreases |ts|, 0, 0
  {
    if !Sees(ts, BoolToken(op)) then Parsed([], ts)
    else
      var r := Parse(k + 1, ts[1..]);
      if r.Failed? then Failed
      else
        var more := ParseValues(k, op, r.rest);
        if more.Failed? then Failed else Parsed([r.value] + more.value, more.rest)
  }

  function ParseNot(ts: seq<Token>): (r: Parsed<Expr>)
    ensures r.Parsed? ==> |r.rest| < |ts|
    decreases |ts|, 19 - NOT, 1
  {
    if Sees(ts, KwNot) then
      var r := Parse(NOT, ts[1..]);
      if r.Failed? then Failed else Parsed(UnaryOp(Not, r.value), r.rest)
    else Parse(CMP, ts)
  }

  function ParseCompare(ts: seq<Token>): (r: Parsed<Expr>)
    ensures r.Parsed? ==> |r.rest| < |ts|
    decreases |ts|, 19 - CMP, 1
  {
    var r := Parse(EXPR, ts);
    if r.Failed? then Failed
    else
      var links := ParseLinks(r.rest);
      if links.Failed? then Failed
      else if links.value == [] then r
      else Parsed(Compare(r.value, links.value), links.rest)
  }

  function ParseLinks(ts: seq<Token>): (r: Parsed<seq<Link>>)
    ensures r.Parsed? ==> |r.rest| <= |ts|
    decreases |ts|, 0, 0
  {
    var op := ParseComparator(ts);
    if op.Failed? then Parsed([], ts)
    else
      var r := Parse(EXPR, op.rest);
      if r.Failed? then Failed
      else
        var more := ParseLinks(r.rest);
        if more.Failed? then Failed else Parsed([Link(op.value, r.value)] + more.value, more.rest)
  }

  function ParseBinary(k: Prec, ts: seq<Token>): (r: Parsed<Expr>)
    requires 9 <= k <= 14
    ensures r.Parsed? ==> |r.rest| < |ts|
    decreases |ts|, 19 - k, 1
  {
    var r := Parse(k + 1, ts);
    if r.Failed? then Failed else ParseOperands(k, r.value, r.rest)
  }

  /** The operators of level k take what stands before them as their left operand. */
  function ParseOperands(k: Prec, left: Expr, ts: seq<Token>): (r: Parsed<Expr>)
    requires 9 <= k <= 14
    ensures r.Parsed? ==> |r.rest| <= |ts|
    decreases |ts|, 0, 0
  {
    var op := BinaryAt(k, ts);
    if op.None? then Parsed(left, ts)
    else
      var r := Parse(k + 1, ts[1..]);
      if r.Failed? then Failed else ParseOperands(k, BinOp(left, op.value, r.value), r.rest)
  }

  function ParseFactor(ts: seq<Token>): (r: Parsed<Expr>)
    ensures r.Parsed? ==> |r.rest| < |ts|
    decreases |ts|, 19 - FACTOR, 1
  {
    var op := FactorAt(ts);
    if op.Some? then
      var r := Parse(FACTOR, ts[1..]);
      if r.Failed? then Failed else Parsed(UnaryOp(op.value, r.value), r.rest)
    else Parse(POWER, ts)
  }

  /** The right operand of a power may have a sign. */
  function ParsePower(ts: seq<Token>): (r: Parsed<Expr>)
    ensures r.Parsed? ==> |r.rest| < |ts|
    decreases |ts|, 19 - POWER, 1
  {
    var r := Parse(AWAIT, ts);
    if r.Failed? || !Sees(r.rest, StarStar) then r
    else
      var right := Parse(FACTOR, r.rest[1..]);
      if right.Failed? then Failed else Parsed(BinOp(r.value, Pow, right.value), right.rest)
  }

  function ParsePrimary(ts: seq<Token>): (r: Parsed<Expr>)
    ensures r.Parsed? ==> |r.rest| < |ts|
    decreases |ts|, 19 - ATOM, 1
  {
    var r := ParseAtom(ts);
    if r.Failed? then Failed else ParseTrailers(r.value, r.rest)
  }

  function ParseAtom(ts: seq<Token>): (r: Parsed<Expr>)
    ensures r.Parsed? ==> |r.rest| < |ts|
    decreases |ts|, 0, 0
  {
    if ts == [] then Failed
    else if ts[0].Word? then Parsed(Name(ts[0].id), ts[1..])
    else if ConstantAt(ts[0]).Some? then Parsed(Constant(ConstantAt(ts[0]).value), ts[1..])
    else if ts[0] == LParen then ParseGroup(ts[1..])
    else if ts[0] == LBracket then ParseList(ts[1..])
    else Failed
  }

  /** After an opening parenthesis */
  function ParseGroup(ts: seq<Token>): (r: Parsed<Expr>)
    ensures r.Parsed? ==> |r.rest| < |ts|
    decreases |ts|, 20, 0
  {
    if Sees(ts, RParen) then Parsed(Tuple([]), ts[1..])
    else
      var r := Parse(NAMED_EXPR, ts);
      if r.Failed? || !Sees(r.rest, RParen) then Failed else Parsed(r.value, r.rest[1..])
  }

  /** After an opening bracket */
  function ParseList(ts: seq<Token>): (r: Parsed<Expr>)
    ensures r.Parsed? ==> |r.rest| < |ts|
    decreases |ts|, 20, 0
  {
    if Sees(ts, RBracket) then Parsed(List([]), ts[1..])
    else
      var r := ParseItem(NAMED_EXPR, ts);
      if r.Failed? then Failed
      else
        var more := ParseMore(NAMED_EXPR, r.rest);
        if more.Failed? || !Sees(more.rest, RBracket) then Failed
        else Parsed(List([r.value] + more.value), more.rest[1..])
  }

  /** Attributes, calls and subscripts of e */
  function ParseTrailers(e: Expr, ts: seq<Token>): (r: Parsed<Expr>)
    ensures r.Parsed? ==> |r.rest| <= |ts|
    decreases |ts|, 0, 0
  {
    if Sees(ts, Dot) then
      if |ts| >= 2 && ts[1].Word? then ParseTrailers(Attribute(e, ts[1].id), ts[2..]) else Failed
    else if Sees(ts, LParen) then
      var r := ParseArguments(false, ts[1..]);
      if r.Failed? then Failed else ParseTrailers(Call(e, r.value.0, r.value.1), r.rest)
    else if Sees(ts, LBracket) then
      var r := Parse(NAMED_EXPR, ts[1..]);
      if r.Failed? || !Sees(r.rest, RBracket) then Failed else ParseTrailers(Subscript(e, r.value), r.rest[1..])
    else Parsed(e, ts)
  }

  /** Arguments and the closing parenthesis: once there was a keyword, there are keywords only. */
  function ParseArguments(keywordsOnly: bool, ts: seq<Token>): (r: Parsed<(seq<Expr>, seq<Keyword>)>)
    ensures r.Parsed? ==> |r.rest| < |ts|
    decreases |ts|, 20, 0
  {
    if Sees(ts, RParen) then Parsed(([], []), ts[1..])
    else if SeesWord(ts, Assign) then
      var r := Parse(TEST, ts[2..]);
      if r.Failed? then Failed else AddKeyword(Keyword(Some(ts[0].id), r.value), ParseAfterArgument(true, r.rest))
    else if Sees(ts, StarStar) then
      var r := Parse(TEST, ts[1..]);
      if r.Failed? then Failed else AddKeyword(Keyword(None, r.value), ParseAfterArgument(true, r.rest))
    else if keywordsOnly then Failed
    else
      var r := ParseItem(NAMED_EXPR, ts);
      if r.Failed? then Failed else AddArgument(r.value, ParseAfterArgument(false, r.rest))
  }

  function ParseAfterArgument(keywordsOnly: bool, ts: seq<Token>): (r: Parsed<(seq<Expr>, seq<Keyword>)>)
    ensures r.Parsed? ==> |r.rest| < |ts|
    decreases |ts|, 0, 0
  {
    if Sees(ts, RParen) then Parsed(([], []), ts[1..])
    else if Sees(ts, Comma) then ParseArguments(keywordsOnly, ts[1..])
    else Failed
  }

  function AddArgument(e: Expr, r: Parsed<(seq<Expr>, seq<Keyword>)>): Parsed<(seq<Expr>, seq<Keyword>)> {
    if r.Failed? then Failed else Parsed(([e] + r.value.0, r.value.1), r.rest)
  }

  function AddKeyword(k: Keyword, r: Parsed<(seq<Expr>, seq<Keyword>)>): Parsed<(seq<Expr>, seq<Keyword>)> {
    if r.Failed? then Failed else Parsed((r.value.0, [k] + r.value.1), r.rest)
  }
}
