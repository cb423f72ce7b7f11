/** The visitor of `_ast_unparse.py` itself: a buffer that grows and a table of precedences that it writes on the
    way down the tree. */
module Unparser {
  import opened Basics
  import opened Expressions
  import ExpressionLexer
  import ExpressionRoundTrip
  import PrintedText

  /** A node of the tree, by the indices of the children on the way to it */
  type Path = seq<nat>

  /** q lies strictly below path. */
  predicate Under(path: Path, q: Path) {
    |path| < |q| && q[..|path|] == path
  }

  /** The children for which the visitor never writes a precedence */
  predicate KeepsDefault(e: Expr, i: nat) {
    || e.Tuple? || e.List?
    || ((e.Lambda? || e.Call? || e.Subscript?) && i >= 1)
  }

  /** The same for a node further down */
  predicate IsDefault(e: Expr, s: seq<nat>)
    decreases |s|
  {
    if s == [] then false
    else if |s| == 1 then KeepsDefault(e, s[0])
    else Child(e, s[0]).Some? && IsDefault(Child(e, s[0]).value, s[1..])
  }

  /** The table has no entry for a node below e that is to keep the default. */
  ghost predicate Ready(m: map<Path, Prec>, e: Expr, path: Path) {
    forall q :: q in m && Under(path, q) ==> !IsDefault(e, q[|path|..])
  }

  /** No entry is lost, and entries that are not below path are as they were. */
  ghost predicate Within(m: map<Path, Prec>, m': map<Path, Prec>, path: Path) {
    && (forall q :: q in m ==> q in m' && (Under(path, q) || m'[q] == m[q]))
    && (forall q :: q in m' ==> q in m || Under(path, q))
  }

  lemma UnderChild(path: Path, i: nat, q: Path)
    ensures Under(path + [i], q) <==> Under(path, q) && |q| > |path| + 1 && q[|path|] == i
    ensures Under(path, path + [i]) && (path + [i])[|path|..] == [i]
    ensures Under(path + [i], q) ==> q[|path|..] == [i] + q[|path| + 1..]
  {
    if |q| > |path| + 1 {
      assert q[..|path| + 1] == q[..|path|] + [q[|path|]];
      if Under(path + [i], q) {
        assert q[..|path|] == q[..|path| + 1][..|path|] == path;
        assert q[|path|] == q[..|path| + 1][|path|] == i;
      }
    }
  }

  lemma DefaultBelow(e: Expr, i: nat, s: seq<nat>)
    requires s != [] && Child(e, i).Some?
    ensures IsDefault(e, [i] + s) == IsDefault(Child(e, i).value, s)
  {
    assert ([i] + s)[1..] == s;
  }

  lemma ChildIsReady(m: map<Path, Prec>, e: Expr, path: Path, i: nat)
    requires Ready(m, e, path) && Child(e, i).Some?
    ensures Ready(m, Child(e, i).value, path + [i])
  {
    forall q | q in m && Under(path + [i], q)
      ensures !IsDefault(Child(e, i).value, q[|path + [i]|..])
    {
      UnderChild(path, i, q);
      DefaultBelow(e, i, q[|path| + 1..]);
    }
  }

  lemma AfterChild(m: map<Path, Prec>, m': map<Path, Prec>, e: Expr, path: Path, i: nat)
    requires Ready(m, e, path) && Child(e, i).Some?
    requires Within(m, m', path + [i]) && Ready(m', Child(e, i).value, path + [i])
    ensures Ready(m', e, path) && Within(m, m', path)
  {
    forall q | q in m'
      ensures Under(path, q) ==> !IsDefault(e, q[|path|..])
      ensures q in m || Under(path, q)
    {
      UnderChild(path, i, q);
      if q !in m {
        DefaultBelow(e, i, q[|path| + 1..]);
      }
    }
    forall q | q in m
      ensures Under(path, q) || m'[q] == m[q]
    {
      UnderChild(path, i, q);
    }
  }

  lemma WithinTransitive(m: map<Path, Prec>, m': map<Path, Prec>, m'': map<Path, Prec>, path: Path)
    requires Within(m, m', path) && Within(m', m'', path)
    ensures Within(m, m'', path)
  {
  }

  lemma SetChild(m: map<Path, Prec>, e: Expr, path: Path, i: nat, p: Prec)
    requires Ready(m, e, path) && !KeepsDefault(e, i)
    ensures var m' := m[path + [i] := p]; Ready(m', e, path) && Within(m, m', path)
  {
    UnderChild(path, i, path + [i]);
  }

  lemma NoEntry(m: map<Path, Prec>, e: Expr, path: Path, i: nat)
    requires Ready(m, e, path) && KeepsDefault(e, i)
    ensures path + [i] !in m
  {
    UnderChild(path, i, path + [i]);
  }

  // ----- What remains to be written -----

  lemma Enclosed(s: seq<Piece>, e: Expr, p: Prec)
    ensures var parens := p > Level(e);
      s + (if parens then [Tight(LParen)] else []) + Body(e) + (if parens then [Tight(RParen)] else [])
      == s + Print(e, p)
  {
  }

  lemma Append3<T>(s: seq<T>, a: seq<T>, b: seq<T>, c: seq<T>)
    ensures s + a + b + c == s + (a + b + c)
  {
  }

  lemma Append4<T>(s: seq<T>, a: seq<T>, b: seq<T>, c: seq<T>, d: seq<T>)
    ensures s + a + b + c + d == s + (a + b + c + d)
  {
  }

  lemma Append5<T>(s: seq<T>, a: seq<T>, b: seq<T>, c: seq<T>, d: seq<T>, e: seq<T>)
    ensures s + a + b + c + d + e == s + (a + b + c + d + e)
  {
  }

  lemma Regroup<T>(s: seq<T>, a: seq<T>, b: seq<T>, c: seq<T>, d: seq<T>)
    ensures s + (a + b + c + d) == s + a + (b + (c + d))
  {
  }

  lemma Slice<T>(s: seq<T>, i: nat)
    requires i < |s|
    ensures s[i..] != [] && s[i..][0] == s[i] && s[i..][1..] == s[i + 1..] && |s[i..]| == |s| - i
  {
  }

  /** A mark before the items that remain, if there are any and some have been written */
  function Rest(mark: Piece, i: nat, n: nat, ps: seq<Piece>): seq<Piece> {
    (if 0 < i < n then [mark] else []) + ps
  }

  lemma SeparatedAssociates(a: seq<Piece>, b: seq<Piece>, c: seq<Piece>)
    ensures Separated(Separated(a, b), c) == Separated(a, Separated(b, c))
  {
    if a != [] && b != [] && c != [] {
      assert a + [COMMA] + b + [COMMA] + c == a + [COMMA] + (b + [COMMA] + c);
    }
  }

  /** What comes after the positional parameters */
  function Others(params: Params): seq<Piece> {
    Separated(StarPieces(params), Separated(PrintPlain(params.kwonly), DoubleStarPieces(params)))
  }

  /** What remains of the parameters from the positional one i on */
  function PositionalFrom(params: Params, i: nat): seq<Piece>
    requires i <= |params.posonly| + |params.args|
  {
    var p := |params.posonly|;
    if i < p then
      Separated(PrintPlain(params.posonly[i..]),
        Separated([Tight(Slash)], Separated(PrintPlain(params.args), Others(params))))
    else Separated(PrintPlain(params.args[i - p..]), Others(params))
  }

  lemma PositionalStart(params: Params)
    ensures PositionalFrom(params, 0) == PrintParams(params)
  {
    assert params.posonly[0..] == params.posonly && params.args[0..] == params.args;
  }

  lemma PlainStep(params: seq<Param>, i: nat, next: seq<Piece>)
    requires i < |params|
    ensures Separated(PrintPlain(params[i..]), next)
         == Separated(PrintParam(params[i]), Separated(PrintPlain(params[i + 1..]), next))
  {
    Slice(params, i);
    ExpressionRoundTrip.PlainsSeparated(params[i..], next);
  }

  /** A positional parameter, with the slash after the last positional-only one */
  function Positional(params: Params, i: nat): seq<Piece>
    requires i < |params.posonly| + |params.args|
  {
    var p := |params.posonly|;
    if i < p then
      Separated(PrintParam(params.posonly[i]), if i == p - 1 then [Tight(Slash)] else [])
    else PrintParam(params.args[i - p])
  }

  lemma PositionalStep(params: Params, i: nat)
    requires i < |params.posonly| + |params.args|
    ensures PositionalFrom(params, i) == Separated(Positional(params, i), PositionalFrom(params, i + 1))
  {
    var p := |params.posonly|;
    if i == p - 1 {
      LastPositionalOnly(params);
    } else if i < p {
      PlainStep(params.posonly, i, Separated([Tight(Slash)], Separated(PrintPlain(params.args), Others(params))));
    } else {
      PlainStep(params.args, i - p, Others(params));
    }
  }

  lemma LastPositionalOnly(params: Params)
    requires params.posonly != []
    ensures var i := |params.posonly| - 1;
      PositionalFrom(params, i) == Separated(Positional(params, i), PositionalFrom(params, i + 1))
  {
    var i, rest := |params.posonly| - 1, Separated(PrintPlain(params.args), Others(params));
    PlainStep(params.posonly, i, Separated([Tight(Slash)], rest));
    assert params.posonly[i + 1..] == [] && params.args[0..] == params.args;
    SeparatedAssociates(PrintParam(params.posonly[i]), [Tight(Slash)], rest);
  }

  function ElementsFrom(elts: seq<Expr>, i: nat): seq<Piece>
    requires i <= |elts|
  {
    Rest(COMMA, i, |elts|, PrintElements(elts[i..]))
  }

  lemma ElementsStep(elts: seq<Expr>, i: nat)
    requires i < |elts|
    ensures ElementsFrom(elts, i)
         == (if i > 0 then [COMMA] else []) + Print(elts[i], TEST) + ElementsFrom(elts, i + 1)
  {
    Slice(elts, i);
  }

  function ValuesFrom(values: seq<Expr>, t: Token, p: Prec, i: nat): seq<Piece>
    requires i <= |values|
  {
    Rest(Spaced(t), i, |values|, PrintValues(values[i..], t, Next(p)))
  }

  lemma ValuesStep(values: seq<Expr>, t: Token, p: Prec, i: nat)
    requires i < |values|
    ensures ValuesFrom(values, t, p, i)
         == (if i > 0 then [Spaced(t)] else []) + Print(values[i], Next(p)) + ValuesFrom(values, t, Next(p), i + 1)
  {
    Slice(values, i);
  }

  /** The arguments from i on, and the keywords */
  function ArgsFrom(args: seq<Expr>, keywords: seq<Keyword>, i: nat): seq<Piece>
    requires i <= |args|
  {
    Rest(COMMA, i, |args| + |keywords|, PrintArgs(args[i..], keywords != []) + PrintKeywords(keywords))
  }

  lemma ArgsStep(args: seq<Expr>, keywords: seq<Keyword>, i: nat)
    requires i < |args|
    ensures ArgsFrom(args, keywords, i)
         == (if i > 0 then [COMMA] else []) + Print(args[i], TEST) + ArgsFrom(args, keywords, i + 1)
  {
    Slice(args, i);
    var comma := if i + 1 < |args| + |keywords| then [COMMA] else [];
    Regroup(if i > 0 then [COMMA] else [], Print(args[i], TEST), comma, PrintArgs(args[i + 1..], keywords != []),
      PrintKeywords(keywords));
  }

  lemma ArgsEnd(args: seq<Expr>, keywords: seq<Keyword>)
    ensures ArgsFrom(args, keywords, |args|) == KeywordsFrom(|args|, keywords, 0)
  {
    assert args[|args|..] == [] && keywords[0..] == keywords;
    assert [] + PrintKeywords(keywords) == PrintKeywords(keywords);
  }

  /** The keywords from j on, after k arguments */
  function KeywordsFrom(k: nat, keywords: seq<Keyword>, j: nat): seq<Piece>
    requires j <= |keywords|
  {
    Rest(COMMA, k + j, k + |keywords|, PrintKeywords(keywords[j..]))
  }

  lemma KeywordsStep(k: nat, keywords: seq<Keyword>, j: nat)
    requires j < |keywords|
    ensures KeywordsFrom(k, keywords, j)
         == (if k + j > 0 then [COMMA] else []) + PrintKeyword(keywords[j]) + KeywordsFrom(k, keywords, j + 1)
  {
    Slice(keywords, j);
  }

  lemma PositionalEnd(params: Params)
    ensures PositionalFrom(params, |params.posonly| + |params.args|) == Others(params)
  {
    assert params.args[|params.args|..] == [];
  }

  lemma SlashWritten(before: seq<Piece>, param: seq<Piece>)
    requires param != []
    ensures Separated(before, param) + [COMMA, Tight(Slash)] == Separated(before, Separated(param, [Tight(Slash)]))
  {
    SeparatedAssociates(before, param, [Tight(Slash)]);
    assert [COMMA] + [Tight(Slash)] == [COMMA, Tight(Slash)];
  }

  lemma DefaultWritten(before: seq<Piece>, param: Param, value: Expr)
    requires param.default == Some(value)
    ensures before + [Tight(Word(param.name))] + [Tight(Assign)] + Print(value, TEST) == before + PrintParam(param)
  {
    Append3(before, [Tight(Word(param.name))], [Tight(Assign)], Print(value, TEST));
    assert [Tight(Word(param.name))] + [Tight(Assign)] == [Tight(Word(param.name)), Tight(Assign)];
  }

  // ----- Precedences set at once -----

  ghost predicate AllSet(m: map<Path, Prec>, path: Path, i: nat, n: nat, p: Prec) {
    forall j: nat :: i <= j < n ==> path + [j] in m && m[path + [j]] == p
  }

  lemma OthersSet(m: map<Path, Prec>, m': map<Path, Prec>, path: Path, i: nat, n: nat, p: Prec)
    requires AllSet(m, path, i, n, p) && Within(m, m', path + [i])
    ensures AllSet(m', path, i + 1, n, p)
  {
    forall j: nat | i + 1 <= j < n
      ensures path + [j] in m' && m'[path + [j]] == p
    {
      UnderChild(path, i, path + [j]);
    }
  }

  // ----- Several trees -----

  ghost predicate TreesReady(m: map<Path, Prec>, trees: map<nat, Expr>) {
    && (forall root :: root in trees ==> Ready(m, trees[root], [root]))
    && (forall q :: q in m ==> |q| == 1 || (|q| > 1 && q[0] in trees))
  }

  lemma ReadyForVisit(m: map<Path, Prec>, trees: map<nat, Expr>, e: Expr, root: nat)
    requires TreesReady(m, trees) && (root in trees ==> trees[root] == e)
    ensures Ready(m, e, [root])
  {
    forall q | q in m && Under([root], q)
      ensures !IsDefault(e, q[|[root]|..])
    {
      assert q[0] == q[..1][0] == root;
    }
  }

  lemma AfterVisit(m: map<Path, Prec>, m': map<Path, Prec>, trees: map<nat, Expr>, e: Expr, root: nat)
    requires TreesReady(m, trees) && Within(m, m', [root]) && Ready(m', e, [root])
    ensures TreesReady(m', trees[root := e])
  {
    forall q | q in m' && q !in m
      ensures |q| > 1 && q[0] == root
    {
      assert q[0] == q[..1][0] == root;
    }
    forall other | other in trees && other != root
      ensures Ready(m', trees[other], [other])
    {
      forall q | q in m' && Under([other], q)
        ensures !IsDefault(trees[other], q[1..])
      {
        assert q[0] == q[..1][0] == other;
      }
    }
  }

  // ----- The visitor -----

  class Unparser {
    var source: seq<Piece>
    var precedences: map<Path, Prec>
    ghost var trees: map<nat, Expr>

    /** Trees are told apart by a number, as nodes are by their identity.  Whatever was visited before, no node that
        is to keep the default precedence has an entry. */
    ghost predicate Valid()
      reads this
    {
      TreesReady(precedences, trees)
    }

    constructor ()
      ensures Valid() && source == [] && precedences == map[] && trees == map[]
    {
      source, precedences, trees := [], map[], map[];
    }

    method Write(ps: seq<Piece>)
      modifies `source
      ensures source == old(source) + ps
    {
      source := source + ps;
    }

    /** One end of `require_parens` */
    method Delimit(parens: bool, t: Token)
      modifies `source
      ensures source == old(source) + (if parens then [Tight(t)] else [])
    {
      if parens {
        Write([Tight(t)]);
      }
    }

    function GetPrecedence(path: Path): Prec
      reads this
    {
      if path in precedences then precedences[path] else TEST
    }

    /** `set_precedence`, for the child i of the node e at path */
    method SetPrecedence(p: Prec, path: Path, i: nat, ghost e: Expr, ghost m: map<Path, Prec>)
      requires Ready(precedences, e, path) && !KeepsDefault(e, i) && Within(m, precedences, path)
      modifies `precedences
      ensures precedences == old(precedences)[path + [i] := p]
      ensures Ready(precedences, e, path) && Within(m, precedences, path)
    {
      SetChild(precedences, e, path, i, p);
      WithinTransitive(m, precedences, precedences[path + [i] := p], path);
      precedences := precedences[path + [i] := p];
    }

    /** `traverse` of c, the child i of the node e at path */
    method TraverseChild(c: Expr, path: Path, i: nat, ghost e: Expr, ghost m: map<Path, Prec>)
      requires Child(e, i) == Some(c) && Ready(precedences, e, path) && Within(m, precedences, path)
      modifies `source, `precedences
      ensures source == old(source) + Print(c, old(GetPrecedence(path + [i])))
      ensures Ready(precedences, e, path) && Within(m, precedences, path)
      ensures Within(old(precedences), precedences, path + [i])
      decreases c, 5
    {
      ChildIsReady(precedences, e, path, i);
      Traverse(c, path + [i]);
      AfterChild(old(precedences), precedences, e, path, i);
      WithinTransitive(m, old(precedences), precedences, path);
    }

    /** `set_precedence` and then `traverse`, for the child i */
    method TraverseAt(c: Expr, path: Path, i: nat, p: Prec, ghost e: Expr, ghost m: map<Path, Prec>)
      requires Child(e, i) == Some(c) && !KeepsDefault(e, i)
      requires Ready(precedences, e, path) && Within(m, precedences, path)
      modifies `source, `precedences
      ensures source == old(source) + Print(c, p)
      ensures Ready(precedences, e, path) && Within(m, precedences, path)
      decreases c, 6
    {
      SetPrecedence(p, path, i, e, m);
      TraverseChild(c, path, i, e, m);
    }

    /** `traverse` of a child whose precedence is not set */
    method TraverseDefault(c: Expr, path: Path, i: nat, ghost e: Expr, ghost m: map<Path, Prec>)
      requires Child(e, i) == Some(c) && KeepsDefault(e, i)
      requires Ready(precedences, e, path) && Within(m, precedences, path)
      modifies `source, `precedences
      ensures source == old(source) + Print(c, TEST)
      ensures Ready(precedences, e, path) && Within(m, precedences, path)
      decreases c, 6
    {
      NoEntry(precedences, e, path, i);
      TraverseChild(c, path, i, e, m);
    }

    /** `traverse`: what is written is what the specification prints at the precedence found in the table. */
    method Traverse(e: Expr, path: Path)
      requires Ready(precedences, e, path)
      modifies `source, `precedences
      ensures source == old(source) + Print(e, old(GetPrecedence(path)))
      ensures Within(old(precedences), precedences, path) && Ready(precedences, e, path)
      decreases e, 4
    {
      match e
      case Name(id) => Write([Tight(Word(id))]);
      case Constant(c) => Write([Tight(ConstantToken(c))]);
      case UnaryOp(_, _) => VisitUnaryOp(e, path);
      case BinOp(_, _, _) => VisitBinOp(e, path);
      case Compare(_, _) => VisitCompare(e, path);
      case BoolOp(_, _) => VisitBoolOp(e, path);
      case IfExp(_, _, _) => VisitIfExp(e, path);
      case Lambda(_, _) => VisitLambda(e, path);
      case Attribute(_, _) => VisitAttribute(e, path);
      case Call(_, _, _) => VisitCall(e, path);
      case Subscript(_, _) => VisitSubscript(e, path);
      case Tuple(_) => VisitTuple(e, path);
      case List(_) => VisitList(e, path);
      case NamedExpr(_, _) => VisitNamedExpr(e, path);
    }

    method VisitUnaryOp(e: Expr, path: Path)
      requires e.UnaryOp? && Ready(precedences, e, path)
      modifies `source, `precedences
      ensures source == old(source) + Print(e, old(GetPrecedence(path)))
      ensures Within(old(precedences), precedences, path) && Ready(precedences, e, path)
      decreases e, 3
    {
      var precedence: Prec := if e.unop == Not then NOT else FACTOR;
      var parens := GetPrecedence(path) > precedence;
      Delimit(parens, LParen);
      WriteUnary(e, path, precedence);
      Delimit(parens, RParen);
      Enclosed(old(source), e, old(GetPrecedence(path)));
    }

    method WriteUnary(e: Expr, path: Path, precedence: Prec)
      requires e.UnaryOp? && Ready(precedences, e, path) && precedence == UnaryLevel(e.unop)
      modifies `source, `precedences
      ensures source == old(source) + Body(e)
      ensures Within(old(precedences), precedences, path) && Ready(precedences, e, path)
      decreases e, 2
    {
      ghost var m := precedences;
      var operator := Piece(false, UnaryToken(e.unop), precedence != FACTOR);
      Write([operator]);
      TraverseAt(e.operand, path, 0, precedence, e, m);
      Associate(old(source), [operator], Print(e.operand, precedence));
    }

    method VisitBinOp(e: Expr, path: Path)
      requires e.BinOp? && Ready(precedences, e, path)
      modifies `source, `precedences
      ensures source == old(source) + Print(e, old(GetPrecedence(path)))
      ensures Within(old(precedences), precedences, path) && Ready(precedences, e, path)
      decreases e, 3
    {
      var precedence := BinLevel(e.op);
      var parens := GetPrecedence(path) > precedence;
      Delimit(parens, LParen);
      WriteBinary(e, path, precedence);
      Delimit(parens, RParen);
      Enclosed(old(source), e, old(GetPrecedence(path)));
    }

    method WriteBinary(e: Expr, path: Path, precedence: Prec)
      requires e.BinOp? && Ready(precedences, e, path) && precedence == BinLevel(e.op)
      modifies `source, `precedences
      ensures source == old(source) + Body(e)
      ensures Within(old(precedences), precedences, path) && Ready(precedences, e, path)
      decreases e, 2
    {
      ghost var m := precedences;
      var left, right := precedence, Next(precedence);
      if e.op == Pow {
        left, right := right, left;
      }
      TraverseAt(e.left, path, 0, left, e, m);
      Write([Spaced(BinToken(e.op))]);
      TraverseAt(e.right, path, 1, right, e, m);
      Append3(old(source), Print(e.left, left), [Spaced(BinToken(e.op))], Print(e.right, right));
    }

    method VisitCompare(e: Expr, path: Path)
      requires e.Compare? && Ready(precedences, e, path)
      modifies `source, `precedences
      ensures source == old(source) + Print(e, old(GetPrecedence(path)))
      ensures Within(old(precedences), precedences, path) && Ready(precedences, e, path)
      decreases e, 3
    {
      var parens := GetPrecedence(path) > CMP;
      Delimit(parens, LParen);
      WriteComparison(e, path);
      Delimit(parens, RParen);
      Enclosed(old(source), e, old(GetPrecedence(path)));
    }

    method WriteComparison(e: Expr, path: Path)
      requires e.Compare? && Ready(precedences, e, path)
      modifies `source, `precedences
      ensures source == old(source) + Body(e)
      ensures Within(old(precedences), precedences, path) && Ready(precedences, e, path)
      decreases e, 2
    {
      ghost var m := precedences;
      SetPrecedences(Next(CMP), path, 1 + |e.links|, e, m);
      TraverseChild(e.first, path, 0, e, m);
      assert forall j: nat :: 0 < j <= |e.links| ==> !Under(path + [0], path + [j]);
      WriteLinks(e, path, m);
      Associate(old(source), Print(e.first, Next(CMP)), PrintLinks(e.links));
    }

    /** `set_precedence` for the first n children at once */
    method SetPrecedences(p: Prec, path: Path, n: nat, ghost e: Expr, ghost m: map<Path, Prec>)
      requires Ready(precedences, e, path) && Within(m, precedences, path)
      requires forall i: nat :: i < n ==> !KeepsDefault(e, i)
      modifies `precedences
      ensures Ready(precedences, e, path) && Within(m, precedences, path) && AllSet(precedences, path, 0, n, p)
    {
      var i := 0;
      while i < n
        invariant i <= n
        invariant Ready(precedences, e, path) && Within(m, precedences, path) && AllSet(precedences, path, 0, i, p)
      {
        SetPrecedence(p, path, i, e, m);
        i := i + 1;
      }
    }

    method WriteLinks(e: Expr, path: Path, ghost m: map<Path, Prec>)
      requires e.Compare? && Ready(precedences, e, path) && Within(m, precedences, path)
      requires AllSet(precedences, path, 1, 1 + |e.links|, Next(CMP))
      modifies `source, `precedences
      ensures source == old(source) + PrintLinks(e.links)
      ensures Ready(precedences, e, path) && Within(m, precedences, path)
      decreases e, 1
    {
      var links := e.links;
      var i := 0;
      assert links[0..] == links;
      while i < |links|
        invariant i <= |links|
        invariant source + PrintLinks(links[i..]) == old(source) + PrintLinks(links)
        invariant Ready(precedences, e, path) && Within(m, precedences, path)
        invariant AllSet(precedences, path, 1 + i, 1 + |links|, Next(CMP))
      {
        Slice(links, i);
        ghost var before := source;
        WriteLink(links[i], path, 1 + i, e, 1 + |links|, m);
        Associate(before, PrintLink(links[i]), PrintLinks(links[i + 1..]));
        i := i + 1;
      }
    }

    method WriteLink(link: Link, path: Path, i: nat, ghost e: Expr, ghost n: nat, ghost m: map<Path, Prec>)
      requires Child(e, i) == Some(link.operand) && Ready(precedences, e, path) && Within(m, precedences, path)
      requires i < n && AllSet(precedences, path, i, n, Next(CMP))
      modifies `source, `precedences
      ensures source == old(source) + PrintLink(link)
      ensures Ready(precedences, e, path) && Within(m, precedences, path)
      ensures AllSet(precedences, path, i + 1, n, Next(CMP))
      decreases link, 0
    {
      Write(ComparatorPieces(link.cmp));
      assert path + [i] in precedences && precedences[path + [i]] == Next(CMP);
      ghost var before := precedences;
      TraverseChild(link.operand, path, i, e, m);
      OthersSet(before, precedences, path, i, n, Next(CMP));
      Associate(old(source), ComparatorPieces(link.cmp), Print(link.operand, Next(CMP)));
    }

    method VisitBoolOp(e: Expr, path: Path)
      requires e.BoolOp? && Ready(precedences, e, path)
      modifies `source, `precedences
      ensures source == old(source) + Print(e, old(GetPrecedence(path)))
      ensures Within(old(precedences), precedences, path) && Ready(precedences, e, path)
      decreases e, 3
    {
      var precedence := BoolLevel(e.boolop);
      var parens := GetPrecedence(path) > precedence;
      Delimit(parens, LParen);
      WriteValues(e, path, precedence);
      Delimit(parens, RParen);
      Enclosed(old(source), e, old(GetPrecedence(path)));
    }

    /** The values with their operator between them; the precedence rises with every value. */
    method WriteValues(e: Expr, path: Path, level: Prec)
      requires e.BoolOp? && Ready(precedences, e, path) && level == BoolLevel(e.boolop)
      modifies `source, `precedences
      ensures source == old(source) + Body(e)
      ensures Within(old(precedences), precedences, path) && Ready(precedences, e, path)
      decreases e, 2
    {
      ghost var m := precedences;
      var values, t := e.values, BoolToken(e.boolop);
      var precedence := level;
      var i := 0;
      assert values[0..] == values;
      while i < |values|
        invariant i <= |values|
        invariant source + ValuesFrom(values, t, precedence, i) == old(source) + PrintValues(values, t, Next(level))
        invariant Ready(precedences, e, path) && Within(m, precedences, path)
      {
        ghost var before := source;
        ValuesStep(values, t, precedence, i);
        precedence := Next(precedence);
        WriteValue(values[i], t, path, precedence, i, e, m);
        Append3(before, if i > 0 then [Spaced(t)] else [], Print(values[i], precedence),
          ValuesFrom(values, t, precedence, i + 1));
        i := i + 1;
      }
    }

    method WriteValue(value: Expr, t: Token, path: Path, precedence: Prec, i: nat, ghost e: Expr,
        ghost m: map<Path, Prec>)
      requires Child(e, i) == Some(value) && !KeepsDefault(e, i)
      requires Ready(precedences, e, path) && Within(m, precedences, path)
      modifies `source, `precedences
      ensures source == old(source) + (if i > 0 then [Spaced(t)] else []) + Print(value, precedence)
      ensures Ready(precedences, e, path) && Within(m, precedences, path)
      decreases value, 7
    {
      if i > 0 {
        Write([Spaced(t)]);
      }
      TraverseAt(value, path, i, precedence, e, m);
    }

    method VisitIfExp(e: Expr, path: Path)
      requires e.IfExp? && Ready(precedences, e, path)
      modifies `source, `precedences
      ensures source == old(source) + Print(e, old(GetPrecedence(path)))
      ensures Within(old(precedences), precedences, path) && Ready(precedences, e, path)
      decreases e, 3
    {
      var parens := GetPrecedence(path) > TEST;
      Delimit(parens, LParen);
      WriteConditional(e, path);
      Delimit(parens, RParen);
      Enclosed(old(source), e, old(GetPrecedence(path)));
    }

    method WriteConditional(e: Expr, path: Path)
      requires e.IfExp? && Ready(precedences, e, path)
      modifies `source, `precedences
      ensures source == old(source) + Body(e)
      ensures Within(old(precedences), precedences, path) && Ready(precedences, e, path)
      decreases e, 2
    {
      ghost var m := precedences;
      SetPrecedences(Next(TEST), path, 2, e, m);
      ghost var set_ := precedences;
      TraverseChild(e.body, path, 0, e, m);
      OthersSet(set_, precedences, path, 0, 2, Next(TEST));
      Write([Spaced(KwIf)]);
      TraverseChild(e.test, path, 1, e, m);
      Write([Spaced(KwElse)]);
      TraverseAt(e.orelse, path, 2, TEST, e, m);
      Append5(old(source), Print(e.body, Next(TEST)), [Spaced(KwIf)], Print(e.test, Next(TEST)), [Spaced(KwElse)],
        Print(e.orelse, TEST));
    }

    method VisitLambda(e: Expr, path: Path)
      requires e.Lambda? && Ready(precedences, e, path)
      modifies `source, `precedences
      ensures source == old(source) + Print(e, old(GetPrecedence(path)))
      ensures Within(old(precedences), precedences, path) && Ready(precedences, e, path)
      decreases e, 3
    {
      var parens := GetPrecedence(path) > TEST;
      Delimit(parens, LParen);
      WriteLambda(e, path);
      Delimit(parens, RParen);
      Enclosed(old(source), e, old(GetPrecedence(path)));
    }

    method WriteLambda(e: Expr, path: Path)
      requires e.Lambda? && Ready(precedences, e, path)
      modifies `source, `precedences
      ensures source == old(source) + Body(e)
      ensures Within(old(precedences), precedences, path) && Ready(precedences, e, path)
      decreases e, 2
    {
      ghost var m := precedences;
      var original := source;
      source := [];
      VisitArguments(e.params, path, e, m);
      var buffer := source;
      source := original;
      var keyword := Piece(false, KwLambda, buffer != []);
      Write([keyword]);
      Write(buffer);
      Write([Piece(false, Colon, true)]);
      TraverseAt(e.result, path, 0, TEST, e, m);
      Append4(old(source), [keyword], buffer, [Piece(false, Colon, true)], Print(e.result, TEST));
    }

    /** `visit_arguments`, into a buffer of its own */
    method VisitArguments(params: Params, path: Path, ghost e: Expr, ghost m: map<Path, Prec>)
      requires e.Lambda? && e.params == params && source == []
      requires Ready(precedences, e, path) && Within(m, precedences, path)
      modifies `source, `precedences
      ensures source == PrintParams(params)
      ensures Ready(precedences, e, path) && Within(m, precedences, path)
      decreases params, 2
    {
      var first := WritePositional(params, path, e, m);
      ghost var written := source;
      if params.vararg.Some? || params.kwonly != [] {
        WriteStar(params, first);
        first := false;
      }
      WriteKeywordOnly(params, path, e, m);
      if params.kwarg.Some? {
        WriteMark([Tight(StarStar), Tight(Word(params.kwarg.value))], first);
      }
      SeparatedAssociates(written, StarPieces(params), PrintPlain(params.kwonly));
      SeparatedAssociates(written, Separated(StarPieces(params), PrintPlain(params.kwonly)), DoubleStarPieces(params));
      SeparatedAssociates(StarPieces(params), PrintPlain(params.kwonly), DoubleStarPieces(params));
    }

    /** Something in the list, after a comma unless it comes first */
    method WriteMark(ps: seq<Piece>, first: bool)
      requires ps != [] && (first <==> source == [])
      modifies `source
      ensures source == Separated(old(source), ps)
    {
      if !first {
        Write([COMMA]);
      }
      Write(ps);
    }

    method WriteStar(params: Params, first: bool)
      requires (params.vararg.Some? || params.kwonly != []) && (first <==> source == [])
      modifies `source
      ensures source == Separated(old(source), StarPieces(params)) && source != []
    {
      if !first {
        Write([COMMA]);
      }
      Write([Tight(Star)]);
      if params.vararg.Some? {
        Write([Tight(Word(params.vararg.value))]);
      }
    }

    /** The first loop of `visit_arguments` */
    method WritePositional(params: Params, path: Path, ghost e: Expr, ghost m: map<Path, Prec>) returns (first: bool)
      requires e.Lambda? && e.params == params && source == []
      requires Ready(precedences, e, path) && Within(m, precedences, path)
      modifies `source, `precedences
      ensures Separated(source, Others(params)) == PrintParams(params) && (first <==> source == [])
      ensures Ready(precedences, e, path) && Within(m, precedences, path)
      decreases params, 1
    {
      var all := params.posonly + params.args;
      first := true;
      var i := 0;
      PositionalStart(params);
      while i < |all|
        invariant i <= |all|
        invariant Separated(source, PositionalFrom(params, i)) == PrintParams(params) && (first <==> source == [])
        invariant Ready(precedences, e, path) && Within(m, precedences, path)
      {
        ghost var before := source;
        WriteOnePositional(params, all[i], path, i, first, e, m);
        first := false;
        PositionalStep(params, i);
        SeparatedAssociates(before, Positional(params, i), PositionalFrom(params, i + 1));
        i := i + 1;
      }
      PositionalEnd(params);
    }

    method WriteOnePositional(params: Params, param: Param, path: Path, i: nat, first: bool, ghost e: Expr,
        ghost m: map<Path, Prec>)
      requires i < |params.posonly| + |params.args| && param == (params.posonly + params.args)[i]
      requires e.Lambda? && e.params == params && (first <==> source == [])
      requires Ready(precedences, e, path) && Within(m, precedences, path)
      modifies `source, `precedences
      ensures source == Separated(old(source), Positional(params, i)) && source != []
      ensures Ready(precedences, e, path) && Within(m, precedences, path)
      decreases param, 1
    {
      WriteParam(param, path, i, first, e, m);
      if i + 1 == |params.posonly| {
        Write([COMMA, Tight(Slash)]);
        SlashWritten(old(source), PrintParam(param));
      }
    }

    method WriteParam(param: Param, path: Path, i: nat, first: bool, ghost e: Expr, ghost m: map<Path, Prec>)
      requires e.Lambda? && DefaultOf(e.params, i) == param.default && (first <==> source == [])
      requires Ready(precedences, e, path) && Within(m, precedences, path)
      modifies `source, `precedences
      ensures source == Separated(old(source), PrintParam(param)) && source != []
      ensures Ready(precedences, e, path) && Within(m, precedences, path)
      decreases param, 0
    {
      if !first {
        Write([COMMA]);
      }
      Write([Tight(Word(param.name))]);
      match param.default
      case None =>
      case Some(value) =>
        Write([Tight(Assign)]);
        TraverseDefault(value, path, 1 + i, e, m);
        DefaultWritten(if first then [] else old(source) + [COMMA], param, value);
    }

    /** The loop over the keyword-only parameters, which come after a star */
    method WriteKeywordOnly(params: Params, path: Path, ghost e: Expr, ghost m: map<Path, Prec>)
      requires e.Lambda? && e.params == params && (params.kwonly != [] ==> source != [])
      requires Ready(precedences, e, path) && Within(m, precedences, path)
      modifies `source, `precedences
      ensures source == Separated(old(source), PrintPlain(params.kwonly))
      ensures Ready(precedences, e, path) && Within(m, precedences, path)
      decreases params, 1
    {
      var before, kwonly := |params.posonly| + |params.args|, params.kwonly;
      var j := 0;
      assert kwonly[0..] == kwonly;
      while j < |kwonly|
        invariant j <= |kwonly| && (kwonly != [] ==> source != [])
        invariant Separated(source, PrintPlain(kwonly[j..])) == Separated(old(source), PrintPlain(kwonly))
        invariant Ready(precedences, e, path) && Within(m, precedences, path)
      {
        ghost var written := source;
        WriteParam(kwonly[j], path, before + j, false, e, m);
        PlainStep(kwonly, j, []);
        SeparatedAssociates(written, PrintParam(kwonly[j]), PrintPlain(kwonly[j + 1..]));
        j := j + 1;
      }
      assert kwonly[j..] == [];
    }

    method VisitAttribute(e: Expr, path: Path)
      requires e.Attribute? && Ready(precedences, e, path)
      modifies `source, `precedences
      ensures source == old(source) + Print(e, old(GetPrecedence(path)))
      ensures Within(old(precedences), precedences, path) && Ready(precedences, e, path)
      decreases e, 3
    {
      ghost var m := precedences;
      TraverseAt(e.object_, path, 0, ATOM, e, m);
      var space := e.object_.Constant? && (e.object_.constant.Int? || e.object_.constant.Bool?);
      Write([Piece(space, Dot, false), Tight(Word(e.attr))]);
      Associate(old(source), Print(e.object_, ATOM), [Piece(space, Dot, false), Tight(Word(e.attr))]);
    }

    method VisitCall(e: Expr, path: Path)
      requires e.Call? && Ready(precedences, e, path)
      modifies `source, `precedences
      ensures source == old(source) + Print(e, old(GetPrecedence(path)))
      ensures Within(old(precedences), precedences, path) && Ready(precedences, e, path)
      decreases e, 3
    {
      ghost var m := precedences;
      TraverseAt(e.func, path, 0, ATOM, e, m);
      Write([Tight(LParen)]);
      WriteArguments(e, path, m);
      Write([Tight(RParen)]);
      Append4(old(source), Print(e.func, ATOM), [Tight(LParen)],
        PrintArgs(e.args, e.keywords != []) + PrintKeywords(e.keywords), [Tight(RParen)]);
    }

    method WriteArguments(e: Expr, path: Path, ghost m: map<Path, Prec>)
      requires e.Call? && Ready(precedences, e, path) && Within(m, precedences, path)
      modifies `source, `precedences
      ensures source == old(source) + (PrintArgs(e.args, e.keywords != []) + PrintKeywords(e.keywords))
      ensures Ready(precedences, e, path) && Within(m, precedences, path)
      decreases e, 2
    {
      WriteArgs(e, path, m);
      WriteKeywords(e, path, m);
    }

    /** The loop over the arguments, with a comma before all but the first */
    method WriteArgs(e: Expr, path: Path, ghost m: map<Path, Prec>)
      requires e.Call? && Ready(precedences, e, path) && Within(m, precedences, path)
      modifies `source, `precedences
      ensures source + KeywordsFrom(|e.args|, e.keywords, 0)
           == old(source) + (PrintArgs(e.args, e.keywords != []) + PrintKeywords(e.keywords))
      ensures Ready(precedences, e, path) && Within(m, precedences, path)
      decreases e, 1
    {
      var args := e.args;
      ghost var keywords := e.keywords;
      var i := 0;
      assert args[0..] == args;
      while i < |args|
        invariant i <= |args|
        invariant source + ArgsFrom(args, keywords, i)
               == old(source) + (PrintArgs(args, keywords != []) + PrintKeywords(keywords))
        invariant Ready(precedences, e, path) && Within(m, precedences, path)
      {
        ghost var before := source;
        ArgsStep(args, keywords, i);
        WriteItem(args[i], path, i > 0, 1 + i, e, m);
        Append3(before, if i > 0 then [COMMA] else [], Print(args[i], TEST), ArgsFrom(args, keywords, i + 1));
        i := i + 1;
      }
      ArgsEnd(args, keywords);
    }

    /** An item, after a comma unless it is the first */
    method WriteItem(c: Expr, path: Path, comma: bool, i: nat, ghost e: Expr, ghost m: map<Path, Prec>)
      requires Child(e, i) == Some(c) && KeepsDefault(e, i)
      requires Ready(precedences, e, path) && Within(m, precedences, path)
      modifies `source, `precedences
      ensures source == old(source) + (if comma then [COMMA] else []) + Print(c, TEST)
      ensures Ready(precedences, e, path) && Within(m, precedences, path)
      decreases c, 7
    {
      if comma {
        Write([COMMA]);
      }
      TraverseDefault(c, path, i, e, m);
    }

    /** The loop over the keywords */
    method WriteKeywords(e: Expr, path: Path, ghost m: map<Path, Prec>)
      requires e.Call? && Ready(precedences, e, path) && Within(m, precedences, path)
      modifies `source, `precedences
      ensures source == old(source) + KeywordsFrom(|e.args|, e.keywords, 0)
      ensures Ready(precedences, e, path) && Within(m, precedences, path)
      decreases e, 1
    {
      var k, keywords := |e.args|, e.keywords;
      var j := 0;
      while j < |keywords|
        invariant j <= |keywords|
        invariant source + KeywordsFrom(k, keywords, j) == old(source) + KeywordsFrom(k, keywords, 0)
        invariant Ready(precedences, e, path) && Within(m, precedences, path)
      {
        ghost var before := source;
        KeywordsStep(k, keywords, j);
        if k + j > 0 {
          Write([COMMA]);
        }
        VisitKeyword(keywords[j], path, 1 + k + j, e, m);
        Append3(before, if k + j > 0 then [COMMA] else [], PrintKeyword(keywords[j]), KeywordsFrom(k, keywords, j + 1));
        j := j + 1;
      }
    }

    method VisitKeyword(k: Keyword, path: Path, i: nat, ghost e: Expr, ghost m: map<Path, Prec>)
      requires Child(e, i) == Some(k.value) && KeepsDefault(e, i)
      requires Ready(precedences, e, path) && Within(m, precedences, path)
      modifies `source, `precedences
      ensures source == old(source) + PrintKeyword(k)
      ensures Ready(precedences, e, path) && Within(m, precedences, path)
      decreases k, 0
    {
      var name := [Tight(StarStar)];
      if k.arg.Some? {
        name := [Tight(Word(k.arg.value)), Tight(Assign)];
      }
      Write(name);
      TraverseDefault(k.value, path, i, e, m);
      Associate(old(source), name, Print(k.value, TEST));
    }

    method VisitSubscript(e: Expr, path: Path)
      requires e.Subscript? && Ready(precedences, e, path)
      modifies `source, `precedences
      ensures source == old(source) + Print(e, old(GetPrecedence(path)))
      ensures Within(old(precedences), precedences, path) && Ready(precedences, e, path)
      decreases e, 3
    {
      ghost var m := precedences;
      TraverseAt(e.base, path, 0, ATOM, e, m);
      Write([Tight(LBracket)]);
      WriteSlice(e.slice, path, e, m);
      Write([Tight(RBracket)]);
      Append4(old(source), Print(e.base, ATOM), [Tight(LBracket)], PrintSlice(e.slice), [Tight(RBracket)]);
    }

    /** Parentheses can be omitted if the slice is a tuple that is not empty. */
    method WriteSlice(slice: Expr, path: Path, ghost e: Expr, ghost m: map<Path, Prec>)
      requires e.Subscript? && e.slice == slice && Ready(precedences, e, path) && Within(m, precedences, path)
      modifies `source, `precedences
      ensures source == old(source) + PrintSlice(slice)
      ensures Ready(precedences, e, path) && Within(m, precedences, path)
      decreases slice, 7
    {
      if slice.Tuple? && slice.elts != [] {
        ChildIsReady(precedences, e, path, 1);
        ItemsView(slice.elts, path + [1], slice, precedences);
        AfterChild(old(precedences), precedences, e, path, 1);
        WithinTransitive(m, old(precedences), precedences, path);
      } else {
        TraverseDefault(slice, path, 1, e, m);
      }
    }

    method VisitTuple(e: Expr, path: Path)
      requires e.Tuple? && Ready(precedences, e, path)
      modifies `source, `precedences
      ensures source == old(source) + Print(e, old(GetPrecedence(path)))
      ensures Within(old(precedences), precedences, path) && Ready(precedences, e, path)
      decreases e, 3
    {
      var parens := |e.elts| == 0 || GetPrecedence(path) > TUPLE;
      Delimit(parens, LParen);
      ItemsView(e.elts, path, e, precedences);
      Delimit(parens, RParen);
      if e.elts == [] {
        assert PrintItems(e.elts) == [];
      } else {
        Enclosed(old(source), e, old(GetPrecedence(path)));
      }
    }

    method VisitList(e: Expr, path: Path)
      requires e.List? && Ready(precedences, e, path)
      modifies `source, `precedences
      ensures source == old(source) + Print(e, old(GetPrecedence(path)))
      ensures Within(old(precedences), precedences, path) && Ready(precedences, e, path)
      decreases e, 3
    {
      Write([Tight(LBracket)]);
      Interleave(e.items, path, e, precedences);
      Write([Tight(RBracket)]);
      Append3(old(source), [Tight(LBracket)], PrintElements(e.items), [Tight(RBracket)]);
    }

    /** `items_view` */
    method ItemsView(elts: seq<Expr>, path: Path, ghost e: Expr, ghost m: map<Path, Prec>)
      requires (e.Tuple? && e.elts == elts) || (e.List? && e.items == elts)
      requires Ready(precedences, e, path) && Within(m, precedences, path)
      modifies `source, `precedences
      ensures source == old(source) + PrintItems(elts)
      ensures Ready(precedences, e, path) && Within(m, precedences, path)
      decreases elts, 1
    {
      if |elts| == 1 {
        TraverseDefault(elts[0], path, 0, e, m);
        Write([Tight(Comma)]);
      } else {
        Interleave(elts, path, e, m);
      }
    }

    /** `interleave`, with commas */
    method Interleave(elts: seq<Expr>, path: Path, ghost e: Expr, ghost m: map<Path, Prec>)
      requires (e.Tuple? && e.elts == elts) || (e.List? && e.items == elts)
      requires Ready(precedences, e, path) && Within(m, precedences, path)
      modifies `source, `precedences
      ensures source == old(source) + PrintElements(elts)
      ensures Ready(precedences, e, path) && Within(m, precedences, path)
      decreases elts, 0
    {
      var i := 0;
      assert elts[0..] == elts;
      while i < |elts|
        invariant i <= |elts|
        invariant source + ElementsFrom(elts, i) == old(source) + PrintElements(elts)
        invariant Ready(precedences, e, path) && Within(m, precedences, path)
      {
        ghost var before := source;
        ElementsStep(elts, i);
        WriteItem(elts[i], path, i > 0, i, e, m);
        Append3(before, if i > 0 then [COMMA] else [], Print(elts[i], TEST), ElementsFrom(elts, i + 1));
        i := i + 1;
      }
    }

    method VisitNamedExpr(e: Expr, path: Path)
      requires e.NamedExpr? && Ready(precedences, e, path)
      modifies `source, `precedences
      ensures source == old(source) + Print(e, old(GetPrecedence(path)))
      ensures Within(old(precedences), precedences, path) && Ready(precedences, e, path)
      decreases e, 3
    {
      var parens := GetPrecedence(path) > NAMED_EXPR;
      Delimit(parens, LParen);
      WriteNamed(e, path);
      Delimit(parens, RParen);
      Enclosed(old(source), e, old(GetPrecedence(path)));
    }

    method WriteNamed(e: Expr, path: Path)
      requires e.NamedExpr? && Ready(precedences, e, path)
      modifies `source, `precedences
      ensures source == old(source) + Body(e)
      ensures Within(old(precedences), precedences, path) && Ready(precedences, e, path)
      decreases e, 2
    {
      ghost var m := precedences;
      SetPrecedences(ATOM, path, 2, e, m);
      Write([Tight(Word(e.target)), Spaced(Walrus)]);
      TraverseChild(e.bound, path, 1, e, m);
      Associate(old(source), [Tight(Word(e.target)), Spaced(Walrus)], Print(e.bound, ATOM));
    }

    /** `set_precedence` for a whole tree, as before the parts of a formatted string are unparsed */
    method SetRootPrecedence(p: Prec, root: nat)
      requires Valid()
      modifies `precedences
      ensures Valid() && precedences == old(precedences)[[root] := p]
    {
      precedences := precedences[[root] := p];
    }

    /** `visit`, any number of times: the text that is returned reads as the expression. */
    method Visit(e: Expr, root: nat, printable: int -> bool) returns (text: string)
      requires Valid() && (root in trees ==> trees[root] == e)
      modifies this
      ensures Valid() && trees == old(trees)[root := e]
      ensures text == ExpressionLexer.Text(Print(e, old(GetPrecedence([root]))), printable)
      ensures WellFormed(e) && PrintedText.Proper(e) && ExpressionLexer.TextTable(printable) ==>
        PrintedText.ParseText(text, old(GetPrecedence([root]))) == Some(e)
    {
      ghost var p := GetPrecedence([root]);
      VisitTree(e, root);
      text := ExpressionLexer.Text(source, printable);
      ReadsBack(e, p, printable);
    }

    /** The buffer that is written, from an empty one */
    method VisitTree(e: Expr, root: nat)
      requires Valid() && (root in trees ==> trees[root] == e)
      modifies this
      ensures Valid() && trees == old(trees)[root := e]
      ensures source == Print(e, old(GetPrecedence([root])))
    {
      ghost var m, p := precedences, GetPrecedence([root]);
      ReadyForVisit(m, trees, e, root);
      source := [];
      Traverse(e, [root]);
      assert [] + Print(e, p) == Print(e, p);
      AfterVisit(m, precedences, trees, e, root);
      trees := trees[root := e];
    }
  }

  lemma ReadsBack(e: Expr, p: Prec, printable: int -> bool)
    ensures WellFormed(e) && PrintedText.Proper(e) && ExpressionLexer.TextTable(printable) ==>
      PrintedText.ParseText(ExpressionLexer.Text(Print(e, p), printable), p) == Some(e)
  {
    if WellFormed(e) && PrintedText.Proper(e) && ExpressionLexer.TextTable(printable) {
      PrintedText.TextRoundTrip(e, p, printable);
    }
  }
}
