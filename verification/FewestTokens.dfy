/** The printer writes the fewest tokens that parse to the tree, but for two for each of the listed parentheses. */
module FewestTokens {
  import opened Basics
  import opened Expressions
  import opened ExpressionParser
  import opened ExpressionRoundTrip
  import opened LeastTokens
  import opened OperandParentheses
  import opened ParsedTrees

  // ----- The listed parentheses of a whole tree -----

  /** The number of operands of a node, with a place for each parameter that has no default */
  function Places(e: Expr): nat {
    match e
    case Name(_) => 0
    case Constant(_) => 0
    case UnaryOp(_, _) => 1
    case BinOp(_, _, _) => 2
    case Compare(_, links) => 1 + |links|
    case BoolOp(_, values) => |values|
    case IfExp(_, _, _) => 3
    case Lambda(params, _) => 1 + |params.posonly| + |params.args| + |params.kwonly|
    case Attribute(_, _) => 1
    case Call(_, args, keywords) => 1 + |args| + |keywords|
    case Subscript(_, _) => 2
    case Tuple(elts) => |elts|
    case List(items) => |items|
    case NamedExpr(_, _) => 2
  }

  /** The listed parentheses, and those around a named expression in a tuple, which may stand bare where the tuple
      stands in brackets */
  predicate Spare(e: Expr, i: nat)
    requires Child(e, i).Some?
  {
    Needless(e, i) || (e.Tuple? && Child(e, i).value.NamedExpr?)
  }

  /** The number of parentheses in the tree that could be spared */
  function Spares(e: Expr): nat
    decreases e, 1, 0
  {
    SparesFrom(e, 0)
  }

  function SparesFrom(e: Expr, i: nat): nat
    decreases e, 0, Places(e) - i
  {
    if i >= Places(e) then 0 else SparesAt(e, i) + SparesFrom(e, i + 1)
  }

  /** Around operand i, and within it */
  function SparesAt(e: Expr, i: nat): nat
    requires i < Places(e)
    decreases e, 0, 0
  {
    match Child(e, i)
    case None => 0
    case Some(c) => (if Spare(e, i) then 1 else 0) + Spares(c)
  }

  lemma SparesOf(e: Expr)
    ensures Places(e) == 0 ==> Spares(e) == 0
    ensures Places(e) == 1 ==> Spares(e) == SparesAt(e, 0)
    ensures Places(e) == 2 ==> Spares(e) == SparesAt(e, 0) + SparesAt(e, 1)
    ensures Places(e) == 3 ==> Spares(e) == SparesAt(e, 0) + SparesAt(e, 1) + SparesAt(e, 2)
  {
    if 0 < Places(e) <= 3 {
      LastSpares(e, Places(e) - 1);
    }
    if Places(e) == 3 {
      assert SparesFrom(e, 1) == SparesAt(e, 1) + SparesFrom(e, 2);
    }
  }

  lemma LastSpares(e: Expr, i: nat)
    requires i + 1 == Places(e)
    ensures SparesFrom(e, i) == SparesAt(e, i)
  {
  }

  lemma FirstSpares(e: Expr)
    requires Places(e) > 0
    ensures Spares(e) == SparesAt(e, 0) + SparesFrom(e, 1)
  {
  }

  // ----- The number of tokens that are written -----

  /** An operand that is asked for at one precedence and read at a level that may be looser */
  lemma {:induction false} OperandLength(e: Expr, i: nat, c: Expr, asked: Prec, read: Prec)
    requires i < Places(e) && Child(e, i) == Some(c) && WellFormed(c) && read <= asked
    requires Spare(e, i) <==> read <= Level(c) < asked
    ensures |Print(c, asked)| == Least(c, read) + 2 * SparesAt(e, i)
    decreases e, 0, 0
  {
    BodyLength(c);
  }

  lemma {:induction false} ItemLength(e: Expr, i: nat, c: Expr)
    requires i < Places(e) && Child(e, i) == Some(c) && WellFormed(c) && (Spare(e, i) <==> c.NamedExpr?)
    ensures |Print(c, TEST)| == ItemCost(c) + 2 * SparesAt(e, i)
    decreases e, 0, 0
  {
    BodyLength(c);
  }

  lemma {:induction false} BodyLength(e: Expr)
    requires WellFormed(e)
    ensures |Body(e)| == Cost(e) + 2 * Spares(e)
    decreases e, 3, 0
  {
    SparesOf(e);
    if e.UnaryOp? {
      OperandLength(e, 0, e.operand, UnaryLevel(e.unop), UnaryLevel(e.unop));
    } else if e.BinOp? {
      BinaryLength(e);
    } else if e.Compare? {
      CompareLength(e);
    } else if e.BoolOp? {
      ValuesLength(e, 0);
      assert e.values[0..] == e.values;
    } else if e.IfExp? {
      OperandLength(e, 0, e.body, OR, OR);
      OperandLength(e, 1, e.test, OR, OR);
      OperandLength(e, 2, e.orelse, TEST, TEST);
    } else if e.Lambda? {
      LambdaLength(e);
    } else if e.Attribute? {
      OperandLength(e, 0, e.object_, ATOM, ATOM);
    } else if e.Call? {
      CallLength(e);
    } else if e.NamedExpr? {
      OperandLength(e, 1, e.bound, ATOM, TEST);
    } else if e.Subscript? || e.Tuple? || e.List? {
      BracketsLength(e);
    }
  }

  lemma {:induction false} BinaryLength(e: Expr)
    requires WellFormed(e) && e.BinOp?
    ensures |Body(e)| == Cost(e) + 2 * Spares(e)
    decreases e, 2, 0
  {
    SparesOf(e);
    OperandLength(e, 0, e.left, LeftLevel(e.op), LeftLevel(e.op));
    OperandLength(e, 1, e.right, RightLevel(e.op), if e.op == Pow then FACTOR else RightLevel(e.op));
  }

  // ----- Chains -----

  lemma {:induction false} CompareLength(e: Expr)
    requires WellFormed(e) && e.Compare?
    ensures |Body(e)| == Cost(e) + 2 * Spares(e)
    decreases e, 2, 0
  {
    FirstSpares(e);
    OperandLength(e, 0, e.first, EXPR, EXPR);
    LinksLength(e, 0);
    assert e.links[0..] == e.links;
  }

  lemma {:induction false} LinksLength(e: Expr, i: nat)
    requires WellFormed(e) && e.Compare? && i <= |e.links|
    ensures |PrintLinks(e.links[i..])| == LinksCost(e.links[i..]) + 2 * SparesFrom(e, i + 1)
    decreases e, 1, |e.links| - i
  {
    if i < |e.links| {
      var link := e.links[i];
      assert link in e.links && e.links[i..][0] == link && e.links[i..][1..] == e.links[i + 1..];
      OperandLength(e, i + 1, link.operand, EXPR, EXPR);
      LinksLength(e, i + 1);
    }
  }

  lemma {:induction false} ValuesLength(e: Expr, i: nat)
    requires WellFormed(e) && e.BoolOp? && i < |e.values|
    ensures |PrintValues(e.values[i..], BoolToken(e.boolop), ValueLevel(e.boolop, i))| + 1
         == ValuesCost(e.values[i..], BoolLevel(e.boolop) + 1) + 2 * SparesFrom(e, i)
    decreases e, 1, |e.values| - i
  {
    var c, rest := e.values[i], e.values[i..];
    assert c in e.values && rest[0] == c && rest[1..] == e.values[i + 1..];
    OperandLength(e, i, c, ValueLevel(e.boolop, i), BoolLevel(e.boolop) + 1);
    if i + 1 < |e.values| {
      ValuesLength(e, i + 1);
      assert Next(ValueLevel(e.boolop, i)) == ValueLevel(e.boolop, i + 1);
    }
  }

  // ----- Brackets -----

  lemma {:induction false} ElementsLength(e: Expr, elts: seq<Expr>, i: nat)
    requires WellFormed(e) && ((e.List? && elts == e.items) || (e.Tuple? && elts == e.elts)) && i < |elts|
    ensures |PrintElements(elts[i..])| + 1 == ItemsCost(elts[i..]) + 2 * SparesFrom(e, i)
    decreases e, 1, |elts| - i
  {
    var c, rest := elts[i], elts[i..];
    assert c in elts && rest[0] == c && rest[1..] == elts[i + 1..];
    ItemLength(e, i, c);
    if i + 1 < |elts| {
      ElementsLength(e, elts, i + 1);
    }
  }

  lemma {:induction false} BracketsLength(e: Expr)
    requires WellFormed(e) && (e.Subscript? || e.Tuple? || e.List?)
    ensures |Body(e)| == Cost(e) + 2 * Spares(e)
    decreases e, 2, 0
  {
    SparesOf(e);
    if e.Subscript? {
      OperandLength(e, 0, e.base, ATOM, ATOM);
      SliceLength(e);
    } else if e.List? && e.items != [] {
      ElementsLength(e, e.items, 0);
      assert e.items[0..] == e.items;
    } else if e.Tuple? && e.elts != [] {
      ElementsLength(e, e.elts, 0);
      assert e.elts[0..] == e.elts;
    }
  }

  lemma {:induction false} SliceLength(e: Expr)
    requires WellFormed(e) && e.Subscript?
    ensures |PrintSlice(e.slice)| == Least(e.slice, NAMED_EXPR) + 2 * SparesAt(e, 1)
    decreases e, 0, 0
  {
    BodyLength(e.slice);
  }

  // ----- Arguments -----

  /** The pieces with a comma after them, if there are any */
  function WithComma(ps: seq<Piece>): nat {
    if ps == [] then 0 else |ps| + 1
  }

  lemma {:induction false} ArgsLength(e: Expr, i: nat)
    requires WellFormed(e) && e.Call? && i <= |e.args|
    ensures |PrintArgs(e.args[i..], e.keywords != [])| + (if e.keywords == [] && i < |e.args| then 1 else 0)
              + 2 * SparesFrom(e, 1 + |e.args|)
         == ItemsCost(e.args[i..]) + 2 * SparesFrom(e, 1 + i)
    decreases e, 1, |e.args| - i
  {
    if i < |e.args| {
      var c, rest := e.args[i], e.args[i..];
      assert c in e.args && rest[0] == c && rest[1..] == e.args[i + 1..];
      ItemLength(e, 1 + i, c);
      ArgsLength(e, i + 1);
    }
  }

  lemma {:induction false} KeywordsLength(e: Expr, i: nat)
    requires WellFormed(e) && e.Call? && i <= |e.keywords|
    ensures WithComma(PrintKeywords(e.keywords[i..]))
         == KeywordsCost(e.keywords[i..]) + 2 * SparesFrom(e, 1 + |e.args| + i)
    decreases e, 1, |e.keywords| - i
  {
    if i < |e.keywords| {
      var rest := e.keywords[i..];
      assert rest[0] == e.keywords[i] && rest[1..] == e.keywords[i + 1..];
      KeywordLength(e, i);
      KeywordsLength(e, i + 1);
    }
  }

  lemma {:induction false} KeywordLength(e: Expr, i: nat)
    requires WellFormed(e) && e.Call? && i < |e.keywords|
    ensures |PrintKeyword(e.keywords[i])| == KeywordCost(e.keywords[i]) + 2 * SparesAt(e, 1 + |e.args| + i)
    decreases e, 0, 1
  {
    OperandLength(e, 1 + |e.args| + i, e.keywords[i].value, TEST, TEST);
  }

  lemma {:induction false} CallLength(e: Expr)
    requires WellFormed(e) && e.Call?
    ensures |Body(e)| == Cost(e) + 2 * Spares(e)
    decreases e, 2, 0
  {
    FirstSpares(e);
    OperandLength(e, 0, e.func, ATOM, ATOM);
    ArgumentsLength(e);
  }

  lemma {:induction false} ArgumentsLength(e: Expr)
    requires WellFormed(e) && e.Call?
    ensures |PrintArgs(e.args, e.keywords != []) + PrintKeywords(e.keywords)|
         == Between(ItemsCost(e.args) + KeywordsCost(e.keywords)) + 2 * SparesFrom(e, 1)
    decreases e, 1, |e.args| + |e.keywords| + 1
  {
    ArgsLength(e, 0);
    KeywordsLength(e, 0);
    assert e.args[0..] == e.args && e.keywords[0..] == e.keywords;
  }

  // ----- Parameters -----

  lemma SeparatedLength(a: seq<Piece>, b: seq<Piece>)
    ensures WithComma(Separated(a, b)) == WithComma(a) + WithComma(b)
  {
  }

  /** A group of parameters whose first one is operand `first` of the lambda */
  predicate GroupAt(e: Expr, params: seq<Param>, first: nat) {
    && e.Lambda? && first + |params| <= Places(e)
    && forall j: nat :: j < |params| ==> Child(e, first + j) == params[j].default && WellFormedParam(params[j])
  }

  lemma {:induction false} ParamLength(e: Expr, i: nat, param: Param)
    requires e.Lambda? && 0 < i < Places(e) && Child(e, i) == param.default && WellFormedParam(param)
    ensures |PrintParam(param)| == ParamCost(param) + 2 * SparesAt(e, i)
    decreases e, 0, 1
  {
    if param.default.Some? {
      OperandLength(e, i, param.default.value, TEST, TEST);
    }
  }

  lemma {:induction false} PlainLength(e: Expr, params: seq<Param>, first: nat, i: nat)
    requires GroupAt(e, params, first) && first > 0 && i <= |params|
    ensures WithComma(PrintPlain(params[i..])) + 2 * SparesFrom(e, first + |params|)
         == PlainCost(params[i..]) + 2 * SparesFrom(e, first + i)
    decreases e, 1, |params| - i
  {
    if i < |params| {
      var rest := params[i..];
      assert rest[0] == params[i] && rest[1..] == params[i + 1..];
      ParamLength(e, first + i, params[i]);
      PlainLength(e, params, first, i + 1);
    }
  }

  lemma GroupsOf(e: Expr)
    requires WellFormed(e) && e.Lambda?
    ensures var p, a := |e.params.posonly|, |e.params.args|;
      && GroupAt(e, e.params.posonly, 1) && GroupAt(e, e.params.args, 1 + p)
      && GroupAt(e, e.params.kwonly, 1 + p + a)
  {
  }

  lemma {:induction false} GroupLength(e: Expr, params: seq<Param>, first: nat, end: nat)
    requires GroupAt(e, params, first) && first > 0 && end == first + |params|
    ensures WithComma(PrintPlain(params)) + 2 * SparesFrom(e, end) == PlainCost(params) + 2 * SparesFrom(e, first)
    decreases e, 1, |params| + 1
  {
    PlainLength(e, params, first, 0);
    assert params[0..] == params;
  }

  lemma MarksLength(params: Params)
    ensures WithComma(SlashPieces(params)) == SlashCost(params)
    ensures WithComma(StarPieces(params)) == StarCost(params)
    ensures WithComma(DoubleStarPieces(params)) == DoubleStarCost(params)
  {
  }

  lemma {:induction false} ParamsLength(e: Expr)
    requires WellFormed(e) && e.Lambda?
    ensures WithComma(PrintParams(e.params)) == ParamsCost(e.params) + 2 * SparesFrom(e, 1)
    decreases e, 2, 0
  {
    var p, a := 1 + |e.params.posonly|, 1 + |e.params.posonly| + |e.params.args|;
    GroupsOf(e);
    GroupLength(e, e.params.posonly, 1, p);
    GroupLength(e, e.params.args, p, a);
    GroupLength(e, e.params.kwonly, a, Places(e));
    NoSpares(e);
    MarksLength(e.params);
    AllSeparated(e.params);
  }

  lemma NoSpares(e: Expr)
    ensures SparesFrom(e, Places(e)) == 0
  {
  }

  lemma AllSeparated(params: Params)
    ensures WithComma(PrintParams(params))
         == WithComma(PrintPlain(params.posonly)) + WithComma(SlashPieces(params)) + WithComma(PrintPlain(params.args))
            + WithComma(StarPieces(params)) + WithComma(PrintPlain(params.kwonly)) + WithComma(DoubleStarPieces(params))
  {
    var p4 := Separated(PrintPlain(params.kwonly), DoubleStarPieces(params));
    SeparatedLength(PrintPlain(params.kwonly), DoubleStarPieces(params));
    var p3 := Separated(StarPieces(params), p4);
    SeparatedLength(StarPieces(params), p4);
    var p2 := Separated(PrintPlain(params.args), p3);
    SeparatedLength(PrintPlain(params.args), p3);
    SeparatedLength(SlashPieces(params), p2);
    SeparatedLength(PrintPlain(params.posonly), Separated(SlashPieces(params), p2));
  }

  lemma {:induction false} LambdaLength(e: Expr)
    requires WellFormed(e) && e.Lambda?
    ensures |Body(e)| == Cost(e) + 2 * Spares(e)
    decreases e, 2, 1
  {
    FirstSpares(e);
    OperandLength(e, 0, e.result, TEST, TEST);
    ParamsLength(e);
  }

  // ----- The main result -----

  /** Whatever is parsed as an expression at a precedence, what is printed for it there has no more tokens, but for two
      for each of the listed parentheses. */
  lemma PrintedIsShortest(e: Expr, p: Prec, ts: seq<Token>, rest: seq<Token>)
    requires Parse(p, ts) == Parsed(e, rest)
    ensures |K(Print(e, p))| + |rest| <= |ts| + 2 * Spares(e)
  {
    ParsePrintParse(p, ts, e, rest);
    ParseTakes(p, ts);
    BodyLength(e);
  }
}
