/** Expression trees, the tokens they are written with, and what the precedence-driven printer of
    `_ast_unparse.py` writes for them. */
module Expressions {
  import opened Basics

  // ----- Trees -----

  datatype UnaryOperator = Invert | Not | UAdd | USub

  datatype Operator =
    | Add | Sub | Mult | MatMult | Div | Mod | LShift | RShift | BitOr | BitXor | BitAnd | FloorDiv | Pow

  datatype Comparator = Eq | NotEq | Lt | LtE | Gt | GtE | Is | IsNot | In | NotIn

  datatype BoolOperator = And | Or

  /** A float or imaginary constant is known by its `repr`, and a string by its code points. */
  datatype Constant =
    | Int(n: nat) | Bool(b: bool) | NoneConstant | EllipsisConstant
    | FloatConstant(repr: string) | StrConstant(s: seq<int>)

  datatype Expr =
    | Name(id: string)
    | Constant(constant: Constant)
    | UnaryOp(unop: UnaryOperator, operand: Expr)
    | BinOp(left: Expr, op: Operator, right: Expr)
    | Compare(first: Expr, links: seq<Link>)
    | BoolOp(boolop: BoolOperator, values: seq<Expr>)
    | IfExp(test: Expr, body: Expr, orelse: Expr)
    | Lambda(params: Params, result: Expr)
    | Attribute(object_: Expr, attr: string)
    | Call(func: Expr, args: seq<Expr>, keywords: seq<Keyword>)
    | Subscript(base: Expr, slice: Expr)
    | Tuple(elts: seq<Expr>)
    | List(items: seq<Expr>)
    | NamedExpr(target: string, bound: Expr)

  /** One operator of a comparison chain with the operand after it */
  datatype Link = Link(cmp: Comparator, operand: Expr)

  /** `arg=value`, or `**value` without a name */
  datatype Keyword = Keyword(arg: Option<string>, value: Expr)

  /** The parameters of a lambda; a `*` without a name stands before keyword-only ones. */
  datatype Params = Params(
    posonly: seq<Param>, args: seq<Param>, vararg: Option<string>, kwonly: seq<Param>, kwarg: Option<string>)

  datatype Param = Param(name: string, default: Option<Expr>)

  // ----- Tokens -----

  datatype Token =
    | Word(id: string) | Number(n: nat) | Float(repr: string) | StringLit(s: seq<int>)
    | KwTrue | KwFalse | KwNone | KwNot | KwAnd | KwOr | KwIf | KwElse | KwLambda | KwIs | KwIn
    | LParen | RParen | LBracket | RBracket | Comma | Colon | Dot | Dots | Walrus | Assign
    | Plus | Minus | Star | At | Slash | Percent | LeftShift | RightShift | Bar | Caret | Ampersand
    | SlashSlash | StarStar | Tilde | EqualEqual | NotEqual | Less | LessEqual | Greater | GreaterEqual

  function UnaryToken(op: UnaryOperator): Token {
    match op
    case Invert => Tilde
    case Not => KwNot
    case UAdd => Plus
    case USub => Minus
  }

  function BinToken(op: Operator): Token {
    match op
    case Add => Plus
    case Sub => Minus
    case Mult => Star
    case MatMult => At
    case Div => Slash
    case Mod => Percent
    case LShift => LeftShift
    case RShift => RightShift
    case BitOr => Bar
    case BitXor => Caret
    case BitAnd => Ampersand
    case FloorDiv => SlashSlash
    case Pow => StarStar
  }

  function BoolToken(op: BoolOperator): Token {
    if op == And then KwAnd else KwOr
  }

  function ConstantToken(c: Constant): Token {
    match c
    case Int(n) => Number(n)
    case Bool(b) => if b then KwTrue else KwFalse
    case NoneConstant => KwNone
    case EllipsisConstant => Dots
    case FloatConstant(repr) => Float(repr)
    case StrConstant(s) => StringLit(s)
  }

  /** A token with the spaces that the printer writes around it */
  datatype Piece = Piece(before: bool, token: Token, after: bool)

  function Tight(t: Token): Piece {
    Piece(false, t, false)
  }

  function Spaced(t: Token): Piece {
    Piece(true, t, true)
  }

  const COMMA: Piece := Piece(false, Comma, true)

  function ComparatorPieces(op: Comparator): seq<Piece> {
    match op
    case Eq => [Spaced(EqualEqual)]
    case NotEq => [Spaced(NotEqual)]
    case Lt => [Spaced(Less)]
    case LtE => [Spaced(LessEqual)]
    case Gt => [Spaced(Greater)]
    case GtE => [Spaced(GreaterEqual)]
    case Is => [Spaced(KwIs)]
    case IsNot => [Spaced(KwIs), Piece(false, KwNot, true)]
    case In => [Spaced(KwIn)]
    case NotIn => [Spaced(KwNot), Piece(false, KwIn, true)]
  }

  // ----- Precedences -----

  /** The `_Precedence` enumeration */
  type Prec = p: int | 1 <= p <= 18 witness 4

  const NAMED_EXPR: Prec := 1
  const TUPLE: Prec := 2
  const TEST: Prec := 4
  const OR: Prec := 5
  const AND: Prec := 6
  const NOT: Prec := 7
  const CMP: Prec := 8
  const EXPR: Prec := 9
  const FACTOR: Prec := 15
  const POWER: Prec := 16
  const AWAIT: Prec := 17
  const ATOM: Prec := 18

  /** `_Precedence.next`: the last one stays. */
  function Next(p: Prec): Prec {
    if p < 18 then p + 1 else p
  }

  function UnaryLevel(op: UnaryOperator): Prec {
    if op == Not then NOT else FACTOR
  }

  function BinLevel(op: Operator): Prec {
    match op
    case BitOr => 9
    case BitXor => 10
    case BitAnd => 11
    case LShift => 12
    case RShift => 12
    case Add => 13
    case Sub => 13
    case Mult => 14
    case MatMult => 14
    case Div => 14
    case Mod => 14
    case FloorDiv => 14
    case Pow => POWER
  }

  function LeftLevel(op: Operator): Prec {
    if op == Pow then Next(POWER) else BinLevel(op)
  }

  function RightLevel(op: Operator): Prec {
    if op == Pow then POWER else Next(BinLevel(op))
  }

  function BoolLevel(op: BoolOperator): Prec {
    if op == And then AND else OR
  }

  /** The highest precedence that an expression may be asked for and still be written without parentheses */
  function Level(e: Expr): Prec {
    match e
    case NamedExpr(_, _) => NAMED_EXPR
    case Tuple(elts) => if elts == [] then ATOM else TUPLE
    case IfExp(_, _, _) => TEST
    case Lambda(_, _) => TEST
    case BoolOp(op, _) => BoolLevel(op)
    case UnaryOp(op, _) => UnaryLevel(op)
    case Compare(_, _) => CMP
    case BinOp(_, op, _) => BinLevel(op)
    case _ => ATOM
  }

  // ----- Printing -----

  /** Everything the visitor of e writes when e is asked for at precedence p */
  function Print(e: Expr, p: Prec): seq<Piece>
    decreases e, 1
  {
    if p <= Level(e) then Body(e) else [Tight(LParen)] + Body(e) + [Tight(RParen)]
  }

  /** The same without the enclosing parentheses */
  function Body(e: Expr): seq<Piece>
    decreases e, 0
  {
    match e
    case Name(id) => [Tight(Word(id))]
    case Constant(c) => [Tight(ConstantToken(c))]
    case UnaryOp(op, operand) => [Piece(false, UnaryToken(op), op == Not)] + Print(operand, UnaryLevel(op))
    case BinOp(left, op, right) => Print(left, LeftLevel(op)) + [Spaced(BinToken(op))] + Print(right, RightLevel(op))
    case Compare(first, links) => Print(first, Next(CMP)) + PrintLinks(links)
    case BoolOp(op, values) => PrintValues(values, BoolToken(op), Next(BoolLevel(op)))
    case IfExp(test, body, orelse) =>
      Print(body, Next(TEST)) + [Spaced(KwIf)] + Print(test, Next(TEST)) + [Spaced(KwElse)] + Print(orelse, TEST)
    case Lambda(params, result) =>
      var buffer := PrintParams(params);
      [Piece(false, KwLambda, buffer != [])] + buffer + [Piece(false, Colon, true)] + Print(result, TEST)
    case Attribute(object_, attr) =>
      Print(object_, ATOM) + [Piece(NeedsSpace(object_), Dot, false), Tight(Word(attr))]
    case Call(func, args, keywords) =>
      Print(func, ATOM) + [Tight(LParen)] + (PrintArgs(args, keywords != []) + PrintKeywords(keywords))
      + [Tight(RParen)]
    case Subscript(base, slice) =>
      Print(base, ATOM) + [Tight(LBracket)] + PrintSlice(slice) + [Tight(RBracket)]
    case Tuple(elts) => if elts == [] then [Tight(LParen), Tight(RParen)] else PrintItems(elts)
    case List(items) => [Tight(LBracket)] + PrintElements(items) + [Tight(RBracket)]
    case NamedExpr(target, bound) => [Tight(Word(target)), Spaced(Walrus)] + Print(bound, ATOM)
  }

  /** `isinstance(node.value.value, int)`, which holds of `True` and `False` too */
  predicate NeedsSpace(e: Expr) {
    e.Constant? && (e.constant.Int? || e.constant.Bool?)
  }

  function PrintLinks(links: seq<Link>): seq<Piece>
    decreases links
  {
    if links == [] then []
    else PrintLink(links[0]) + PrintLinks(links[1..])
  }

  function PrintLink(link: Link): seq<Piece>
    decreases link
  {
    ComparatorPieces(link.cmp) + Print(link.operand, Next(CMP))
  }

  /** The values of a boolean operation, each asked for at a higher precedence than the one before */
  function PrintValues(values: seq<Expr>, t: Token, p: Prec): seq<Piece>
    decreases values
  {
    if values == [] then []
    else if |values| == 1 then Print(values[0], p)
    else Print(values[0], p) + [Spaced(t)] + PrintValues(values[1..], t, Next(p))
  }

  /** `interleave` with commas */
  function PrintElements(elts: seq<Expr>): seq<Piece>
    decreases elts, 0
  {
    if elts == [] then []
    else if |elts| == 1 then Print(elts[0], TEST)
    else Print(elts[0], TEST) + [COMMA] + PrintElements(elts[1..])
  }

  /** `items_view`: a single item gets a comma of its own. */
  function PrintItems(elts: seq<Expr>): seq<Piece>
    decreases elts, 1
  {
    if |elts| == 1 then Print(elts[0], TEST) + [Tight(Comma)] else PrintElements(elts)
  }

  function PrintSlice(slice: Expr): seq<Piece>
    decreases slice, 2
  {
    if slice.Tuple? && slice.elts != [] then PrintItems(slice.elts) else Print(slice, TEST)
  }

  /** Two groups of parameters, with a comma if there are both */
  function Separated(a: seq<Piece>, b: seq<Piece>): seq<Piece> {
    if a == [] then b else if b == [] then a else a + [COMMA] + b
  }

  /** The parameters in the order of the grammar: positional-only ones and a slash, others, the star with or without
      a name, keyword-only ones, and the double star */
  function PrintParams(params: Params): seq<Piece>
    decreases params
  {
    Separated(PrintPlain(params.posonly),
      Separated(SlashPieces(params),
        Separated(PrintPlain(params.args),
          Separated(StarPieces(params),
            Separated(PrintPlain(params.kwonly), DoubleStarPieces(params))))))
  }

  function SlashPieces(params: Params): seq<Piece> {
    if params.posonly == [] then [] else [Tight(Slash)]
  }

  function StarPieces(params: Params): seq<Piece> {
    if params.vararg.Some? then [Tight(Star), Tight(Word(params.vararg.value))]
    else if params.kwonly != [] then [Tight(Star)]
    else []
  }

  function DoubleStarPieces(params: Params): seq<Piece> {
    if params.kwarg.Some? then [Tight(StarStar), Tight(Word(params.kwarg.value))] else []
  }

  function PrintPlain(params: seq<Param>): seq<Piece>
    decreases params
  {
    if params == [] then []
    else PrintParam(params[0]) + (if |params| > 1 then [COMMA] else []) + PrintPlain(params[1..])
  }

  function PrintParam(param: Param): seq<Piece>
    decreases param
  {
    match param.default
    case None => [Tight(Word(param.name))]
    case Some(value) => [Tight(Word(param.name)), Tight(Assign)] + Print(value, TEST)
  }

  function PrintKeyword(k: Keyword): seq<Piece>
    decreases k
  {
    (if k.arg.Some? then [Tight(Word(k.arg.value)), Tight(Assign)] else [Tight(StarStar)]) + Print(k.value, TEST)
  }

  /** The arguments of a call: a comma after each that something follows */
  function PrintArgs(args: seq<Expr>, more: bool): seq<Piece>
    decreases args
  {
    if args == [] then []
    else Print(args[0], TEST) + (if |args| > 1 || more then [COMMA] else []) + PrintArgs(args[1..], more)
  }

  function PrintKeywords(keywords: seq<Keyword>): seq<Piece>
    decreases keywords
  {
    if keywords == [] then []
    else PrintKeyword(keywords[0]) + (if |keywords| > 1 then [COMMA] else []) + PrintKeywords(keywords[1..])
  }

  // ----- Operands -----

  /** The child i of a node, in the order in which the visitor reaches them */
  function Child(e: Expr, i: nat): (c: Option<Expr>)
    ensures c.Some? ==> c.value < e
  {
    match e
    case UnaryOp(_, operand) => if i == 0 then Some(operand) else None
    case BinOp(left, _, right) => if i == 0 then Some(left) else if i == 1 then Some(right) else None
    case Compare(first, links) =>
      if i == 0 then Some(first) else if i <= |links| then var link := links[i - 1]; Some(link.operand) else None
    case BoolOp(_, values) => if i < |values| then Some(values[i]) else None
    case IfExp(test, body, orelse) =>
      if i == 0 then Some(body) else if i == 1 then Some(test) else if i == 2 then Some(orelse) else None
    case Lambda(params, result) => if i == 0 then Some(result) else DefaultOf(params, i - 1)
    case Attribute(object_, _) => if i == 0 then Some(object_) else None
    case Call(func, args, keywords) =>
      if i == 0 then Some(func)
      else if i <= |args| then Some(args[i - 1])
      else if i <= |args| + |keywords| then var k := keywords[i - 1 - |args|]; Some(k.value)
      else None
    case Subscript(base, slice) => if i == 0 then Some(base) else if i == 1 then Some(slice) else None
    case Tuple(elts) => if i < |elts| then Some(elts[i]) else None
    case List(items) => if i < |items| then Some(items[i]) else None
    case NamedExpr(_, bound) => if i == 1 then Some(bound) else None
    case _ => None
  }

  /** The default of the parameter i, counted through all groups */
  function DefaultOf(params: Params, i: nat): (c: Option<Expr>)
    ensures c.Some? ==> c.value < params
  {
    var p, a := |params.posonly|, |params.posonly| + |params.args|;
    if i < p then params.posonly[i].default
    else if i < a then params.args[i - p].default
    else if i < a + |params.kwonly| then params.kwonly[i - a].default
    else None
  }

  // ----- Well-formed trees -----

  /** Among the positional parameters a default is followed by defaults only. */
  predicate DefaultsLast(params: seq<Param>) {
    forall i, j :: 0 <= i < j < |params| && params[i].default.Some? ==> params[j].default.Some?
  }

  predicate WellFormedParam(param: Param)
    decreases param
  {
    match param.default
    case None => true
    case Some(value) => WellFormed(value)
  }

  predicate WellFormedParams(params: Params)
    decreases params
  {
    && DefaultsLast(params.posonly + params.args)
    && (forall p :: p in params.posonly ==> WellFormedParam(p))
    && (forall p :: p in params.args ==> WellFormedParam(p))
    && (forall p :: p in params.kwonly ==> WellFormedParam(p))
  }

  /** Chains with something in them, throughout the tree: what the abstract grammar cannot say */
  predicate WellFormed(e: Expr) {
    match e
    case Name(_) => true
    case Constant(_) => true
    case UnaryOp(_, operand) => WellFormed(operand)
    case BinOp(left, _, right) => WellFormed(left) && WellFormed(right)
    case Compare(first, links) => WellFormed(first) && links != [] && forall l :: l in links ==> WellFormed(l.operand)
    case BoolOp(_, values) => |values| >= 2 && forall v :: v in values ==> WellFormed(v)
    case IfExp(test, body, orelse) => WellFormed(test) && WellFormed(body) && WellFormed(orelse)
    case Lambda(params, result) => WellFormedParams(params) && WellFormed(result)
    case Attribute(object_, _) => WellFormed(object_)
    case Call(func, args, keywords) =>
      && WellFormed(func)
      && (forall a :: a in args ==> WellFormed(a))
      && (forall k :: k in keywords ==> WellFormed(k.value))
    case Subscript(base, slice) => WellFormed(base) && WellFormed(slice)
    case Tuple(elts) => forall v :: v in elts ==> WellFormed(v)
    case List(items) => forall v :: v in items ==> WellFormed(v)
    case NamedExpr(_, bound) => WellFormed(bound)
  }
}
