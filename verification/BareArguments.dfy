/** Reading a call, a subscript, a named expression or a lambda back of which one operand has been written without
    parentheses. */
module BareArguments {
  import opened Basics
  import opened Expressions
  import opened ExpressionParser
  import opened ExpressionRoundTrip
  import opened Parentheses
  import opened OperandParentheses
  import opened BareOperands
  import opened ParsedTrees

  // ----- Positional arguments -----

  /** After a keyword no positional argument is read. */
  lemma {:induction false} OnlyKeywords(ts: seq<Token>)
    ensures var r := ParseArguments(true, ts); r.Parsed? ==> r.value.0 == []
    ensures var r := ParseAfterArgument(true, ts); r.Parsed? ==> r.value.0 == []
    decreases |ts|
  {
    if Sees(ts, Comma) {
      OnlyKeywords(ts[1..]);
    } else if SeesWord(ts, Assign) {
      var r := Parse(TEST, ts[2..]);
      if r.Parsed? {
        OnlyKeywords(r.rest);
      }
    } else if Sees(ts, StarStar) {
      var r := Parse(TEST, ts[1..]);
      if r.Parsed? {
        OnlyKeywords(r.rest);
      }
    }
  }

  /** The positional arguments that are read are others than these. */
  ghost predicate ArgsDiffer(ts: seq<Token>, args: seq<Expr>) {
    var r := ParseArguments(false, ts); r.Parsed? ==> r.value.0 != args
  }

  lemma FirstArgDiffers(ts: seq<Token>, args: seq<Expr>)
    requires args != [] && (var r := ParseItem(NAMED_EXPR, ts); r.Parsed? ==> r.value != args[0])
    ensures ArgsDiffer(ts, args)
  {
    if SeesWord(ts, Assign) {
      var r := Parse(TEST, ts[2..]);
      if r.Parsed? {
        OnlyKeywords(r.rest);
      }
    } else if Sees(ts, StarStar) {
      var r := Parse(TEST, ts[1..]);
      if r.Parsed? {
        OnlyKeywords(r.rest);
      }
    } else if !Sees(ts, RParen) {
      PositionalDiffers(ts, args);
    }
  }

  lemma PositionalDiffers(ts: seq<Token>, args: seq<Expr>)
    requires args != [] && (var r := ParseItem(NAMED_EXPR, ts); r.Parsed? ==> r.value != args[0])
    requires !Sees(ts, RParen) && !SeesWord(ts, Assign) && !Sees(ts, StarStar)
    ensures ArgsDiffer(ts, args)
  {
    var r := ParseItem(NAMED_EXPR, ts);
    if r.Parsed? {
      var more := ParseAfterArgument(false, r.rest);
      assert more.Parsed? ==> ([r.value] + more.value.0)[0] == r.value;
    }
  }

  lemma LaterArgDiffers(ts: seq<Token>, args: seq<Expr>, more: seq<Token>)
    requires args != [] && ParseArguments(false, ts) == AddArgument(args[0], ParseAfterArgument(false, [Comma] + more))
    requires ArgsDiffer(more, args[1..])
    ensures ArgsDiffer(ts, args)
  {
    AfterComma(false, more);
    var r := ParseArguments(false, more);
    assert r.Parsed? ==> ([args[0]] + r.value.0)[1..] == r.value.0;
  }

  lemma FirstArgNever(args: seq<Expr>, more: bool, end: seq<Token>)
    requires args != [] && WellFormed(args[0]) && Level(args[0]) < TEST && !args[0].NamedExpr?
    ensures ArgsDiffer(K(BareArgs(args, more, 0)) + end, args)
  {
    var comma := if |args| > 1 || more then [COMMA] else [];
    var others := comma + PrintArgs(args[1..], more);
    Associate(Body(args[0]), comma, PrintArgs(args[1..], more));
    Split2(Body(args[0]), others, end);
    ItemNever(NAMED_EXPR, args[0], K(others) + end);
    FirstArgDiffers(K(Body(args[0])) + (K(others) + end), args);
  }

  lemma {:induction false} ArgsNever(args: seq<Expr>, more: bool, i: nat, end: seq<Token>)
    requires i < |args| && (forall a :: a in args ==> WellFormed(a))
    requires Level(args[i]) < TEST && !args[i].NamedExpr?
    ensures ArgsDiffer(K(BareArgs(args, more, i)) + end, args)
    decreases i
  {
    if i == 0 {
      FirstArgNever(args, more, end);
    } else {
      ArgsNever(args[1..], more, i - 1, end);
      ArgBefore(args, BareArgs(args[1..], more, i - 1), end);
    }
  }

  lemma ArgBefore(args: seq<Expr>, others: seq<Piece>, end: seq<Token>)
    requires args != [] && WellFormed(args[0]) && ArgsDiffer(K(others) + end, args[1..])
    ensures ArgsDiffer(K(Print(args[0], TEST) + [COMMA] + others) + end, args)
  {
    SplitAround(Print(args[0], TEST), COMMA, others, end);
    ArgumentStep(args[0], K(Print(args[0], TEST)) + ([Comma] + (K(others) + end)), [Comma] + (K(others) + end));
    LaterArgDiffers(K(Print(args[0], TEST)) + ([Comma] + (K(others) + end)), args, K(others) + end);
  }

  /** With other arguments it is another call. */
  lemma CallNever(e: Expr, ts: seq<Token>, all: seq<Token>)
    requires e.Call? && (var r := ParseArguments(false, ts); r.Parsed? ==> r.value != (e.args, e.keywords))
    requires ParsePrimary(all) == ParseTrailers(e.func, [LParen] + ts)
    ensures NotRead(ATOM, all, e)
  {
    OtherCall(e, ts);
  }

  lemma OtherCall(e: Expr, ts: seq<Token>)
    requires e.Call? && (var r := ParseArguments(false, ts); r.Parsed? ==> r.value != (e.args, e.keywords))
    ensures var r := ParseTrailers(e.func, [LParen] + ts); r.Parsed? ==> r.value != e
  {
    Tail(LParen, ts);
    var r := ParseArguments(false, ts);
    if r.Parsed? {
      var y := Call(e.func, r.value.0, r.value.1);
      if ParseTrailers(y, r.rest).Parsed? {
        TrailersBuild(y, r.rest);
      }
    }
  }

  /** What is written for a call, with these pieces between the parentheses */
  function CallPieces(func: Expr, pieces: seq<Piece>): seq<Piece> {
    Print(func, ATOM) + [Tight(LParen)] + pieces + [Tight(RParen)]
  }

  lemma BareArgIs(e: Expr, i: nat)
    requires e.Call? && i < |e.args|
    ensures Bare(e, i + 1) == CallPieces(e.func, BareArgs(e.args, e.keywords != [], i) + PrintKeywords(e.keywords))
  {
  }

  lemma BareKeywordIs(e: Expr, i: nat)
    requires e.Call? && i < |e.keywords|
    ensures Bare(e, |e.args| + 1 + i) == CallPieces(e.func, PrintArgs(e.args, true) + BareKeywords(e.keywords, i))
  {
  }

  lemma CallTokens(e: Expr, pieces: seq<Piece>, more: seq<Token>)
    requires WellFormed(e) && e.Call?
    ensures ParsePrimary(K(CallPieces(e.func, pieces)) + more)
         == ParseTrailers(e.func, [LParen] + (K(pieces) + ([RParen] + more)))
  {
    SplitTrailer(Print(e.func, ATOM), Tight(LParen), pieces, Tight(RParen), more);
    PrimaryParses(e.func, [LParen] + (K(pieces) + ([RParen] + more)));
  }

  lemma ArgNever(e: Expr, i: nat, more: seq<Token>)
    requires WellFormed(e) && e.Call? && i < |e.args| && Level(e.args[i]) < TEST && !e.args[i].NamedExpr?
    ensures NotRead(Level(e), K(Bare(e, i + 1)) + more, e)
  {
    BareArgIs(e, i);
    ArgInCall(e, i, BareArgs(e.args, e.keywords != [], i) + PrintKeywords(e.keywords), more);
  }

  lemma ArgInCall(e: Expr, i: nat, pieces: seq<Piece>, more: seq<Token>)
    requires WellFormed(e) && e.Call? && i < |e.args| && Level(e.args[i]) < TEST && !e.args[i].NamedExpr?
    requires pieces == BareArgs(e.args, e.keywords != [], i) + PrintKeywords(e.keywords)
    ensures NotRead(ATOM, K(CallPieces(e.func, pieces)) + more, e)
  {
    CallTokens(e, pieces, more);
    ArgAmongArguments(e, i, [RParen] + more);
    CallNever(e, K(pieces) + ([RParen] + more), K(CallPieces(e.func, pieces)) + more);
  }

  lemma ArgAmongArguments(e: Expr, i: nat, end: seq<Token>)
    requires WellFormed(e) && e.Call? && i < |e.args| && Level(e.args[i]) < TEST && !e.args[i].NamedExpr?
    ensures ArgsDiffer(K(BareArgs(e.args, e.keywords != [], i) + PrintKeywords(e.keywords)) + end, e.args)
  {
    var args, keywords := BareArgs(e.args, e.keywords != [], i), PrintKeywords(e.keywords);
    Split2(args, keywords, end);
    ArgsNever(e.args, e.keywords != [], i, K(keywords) + end);
  }

  // ----- A named expression as a positional argument -----

  lemma WalrusArgument(c: Expr, more: seq<Token>)
    requires WellFormed(c) && c.NamedExpr? && more != [] && (more[0] == Comma || more[0] == RParen)
    ensures ParseArguments(false, K(Body(c)) + more) == AddArgument(c, ParseAfterArgument(false, more))
  {
    WalrusReads(c, more);
    NamedExprIsArgument(c, K(Body(c)) + more, more);
  }

  lemma NamedExprIsArgument(c: Expr, ts: seq<Token>, more: seq<Token>)
    requires ParseItem(NAMED_EXPR, ts) == Parsed(c, more) && ts != [] && ts[0].Word? && !SeesWord(ts, Assign)
    ensures ParseArguments(false, ts) == AddArgument(c, ParseAfterArgument(false, more))
  {
  }

  lemma {:induction false} ArgsRead(args: seq<Expr>, keywords: seq<Keyword>, i: nat, ts: seq<Token>, rest: seq<Token>)
    requires ParseArguments(false, ts) == Parsed(([], keywords), rest)
    requires keywords == [] ==> ts == [RParen] + rest
    requires i < |args| && (forall a :: a in args ==> WellFormed(a)) && args[i].NamedExpr?
    ensures ParseArguments(false, K(BareArgs(args, keywords != [], i)) + ts) == Parsed((args, keywords), rest)
    decreases i
  {
    if i > 0 {
      var others := BareArgs(args[1..], keywords != [], i - 1);
      SplitAround(Print(args[0], TEST), COMMA, others, ts);
      ArgsRead(args[1..], keywords, i - 1, ts, rest);
      AfterComma(false, K(others) + ts);
      HeadTail(args);
      ArgumentStep(args[0], K(BareArgs(args, keywords != [], i)) + ts, [Comma] + (K(others) + ts));
    } else if |args| == 1 && keywords == [] {
      LastBareArgument(args);
      AfterLast(false, rest);
      WalrusArgument(args[0], ts);
    } else {
      var others := PrintArgs(args[1..], keywords != []);
      SplitAround(Body(args[0]), COMMA, others, ts);
      ArgsParse(args[1..], keywords, ts, rest);
      AfterComma(false, K(others) + ts);
      HeadTail(args);
      WalrusArgument(args[0], [Comma] + (K(others) + ts));
    }
  }

  lemma LastBareArgument(args: seq<Expr>)
    requires |args| == 1
    ensures BareArgs(args, false, 0) == Body(args[0]) && args == [args[0]] + []
  {
    assert args[1..] == [] && PrintArgs(args[1..], false) == [];
  }

  lemma WalrusInCall(e: Expr, i: nat)
    requires WellFormed(e) && e.Call? && i < |e.args| && e.args[i].NamedExpr?
    ensures Parse(Level(e), K(Bare(e, i + 1)) + []) == Parsed(e, [])
  {
    BareArgIs(e, i);
    CallReads(e, BareArgs(e.args, e.keywords != [], i) + PrintKeywords(e.keywords), i);
  }

  lemma CallReads(e: Expr, pieces: seq<Piece>, i: nat)
    requires WellFormed(e) && e.Call? && i < |e.args| && e.args[i].NamedExpr?
    requires pieces == BareArgs(e.args, e.keywords != [], i) + PrintKeywords(e.keywords)
    ensures Parse(ATOM, K(CallPieces(e.func, pieces)) + []) == Parsed(e, [])
  {
    CallTokens(e, pieces, []);
    WalrusAmongArguments(e, i);
    CallStep(e.func, e.args, e.keywords, K(pieces) + ([RParen] + []), []);
    PrimaryEnds(K(CallPieces(e.func, pieces)) + [], e);
  }

  lemma WalrusAmongArguments(e: Expr, i: nat)
    requires WellFormed(e) && e.Call? && i < |e.args| && e.args[i].NamedExpr?
    ensures ParseArguments(false,
      K(BareArgs(e.args, e.keywords != [], i) + PrintKeywords(e.keywords)) + ([RParen] + []))
         == Parsed((e.args, e.keywords), [])
  {
    var args, keywords := BareArgs(e.args, e.keywords != [], i), PrintKeywords(e.keywords);
    var end := [RParen] + [];
    Split2(args, keywords, end);
    KeywordsParse(false, e.keywords, []);
    assert e.keywords == [] ==> K(keywords) + end == end;
    ArgsRead(e.args, e.keywords, i, K(keywords) + end, []);
  }

  // ----- Keyword arguments -----

  ghost predicate KeywordsDiffer(only: bool, ts: seq<Token>, keywords: seq<Keyword>) {
    var r := ParseArguments(only, ts); r.Parsed? ==> r.value.1 != keywords
  }

  lemma BareKeywordDiffers(only: bool, keywords: seq<Keyword>, more: seq<Token>)
    requires keywords != [] && WellFormed(keywords[0].value) && Level(keywords[0].value) < TEST
    ensures KeywordsDiffer(only, K(BareKeyword(keywords[0])) + more, keywords)
  {
    var k := keywords[0];
    var value := K(Body(k.value)) + more;
    BareNotRead(TEST, k.value, more);
    if k.arg.Some? {
      Split2([Tight(Word(k.arg.value)), Tight(Assign)], Body(k.value), more);
      assert K([Tight(Word(k.arg.value)), Tight(Assign)]) == [Word(k.arg.value), Assign];
      NamedDiffers(only, k.arg.value, value, keywords);
    } else {
      SplitHead(Tight(StarStar), Body(k.value), more);
      UnpackingDiffers(only, value, keywords);
    }
  }

  lemma NamedDiffers(only: bool, id: string, ts: seq<Token>, keywords: seq<Keyword>)
    requires keywords != [] && NotRead(TEST, ts, keywords[0].value)
    ensures KeywordsDiffer(only, [Word(id), Assign] + ts, keywords)
  {
    Tail2(Word(id), Assign, ts);
    var r := Parse(TEST, ts);
    if r.Parsed? {
      AddedDiffers(Keyword(Some(id), r.value), ParseAfterArgument(true, r.rest), keywords);
    }
  }

  lemma UnpackingDiffers(only: bool, ts: seq<Token>, keywords: seq<Keyword>)
    requires keywords != [] && NotRead(TEST, ts, keywords[0].value)
    ensures KeywordsDiffer(only, [StarStar] + ts, keywords)
  {
    Tail(StarStar, ts);
    var r := Parse(TEST, ts);
    if r.Parsed? {
      AddedDiffers(Keyword(None, r.value), ParseAfterArgument(true, r.rest), keywords);
    }
  }

  lemma AddedDiffers(k: Keyword, r: Parsed<(seq<Expr>, seq<Keyword>)>, keywords: seq<Keyword>)
    requires keywords != [] && (k != keywords[0] || (r.Parsed? ==> r.value.1 != keywords[1..]))
    ensures var a := AddKeyword(k, r); a.Parsed? ==> a.value.1 != keywords
  {
    assert r.Parsed? ==> ([k] + r.value.1)[0] == k && ([k] + r.value.1)[1..] == r.value.1;
  }

  lemma FirstKeywordNever(only: bool, keywords: seq<Keyword>, end: seq<Token>)
    requires keywords != [] && WellFormed(keywords[0].value) && Level(keywords[0].value) < TEST
    ensures KeywordsDiffer(only, K(BareKeywords(keywords, 0)) + end, keywords)
  {
    var comma := if |keywords| > 1 then [COMMA] else [];
    var others := comma + PrintKeywords(keywords[1..]);
    Associate(BareKeyword(keywords[0]), comma, PrintKeywords(keywords[1..]));
    Split2(BareKeyword(keywords[0]), others, end);
    BareKeywordDiffers(only, keywords, K(others) + end);
  }

  lemma {:induction false} KeywordsNever(only: bool, keywords: seq<Keyword>, i: nat, end: seq<Token>)
    requires i < |keywords| && (forall k :: k in keywords ==> WellFormed(k.value)) && Level(keywords[i].value) < TEST
    ensures KeywordsDiffer(only, K(BareKeywords(keywords, i)) + end, keywords)
    decreases i
  {
    if i == 0 {
      FirstKeywordNever(only, keywords, end);
    } else {
      KeywordsNever(true, keywords[1..], i - 1, end);
      KeywordBefore(only, keywords, BareKeywords(keywords[1..], i - 1), end);
    }
  }

  lemma KeywordBefore(only: bool, keywords: seq<Keyword>, others: seq<Piece>, end: seq<Token>)
    requires keywords != [] && WellFormed(keywords[0].value) && KeywordsDiffer(true, K(others) + end, keywords[1..])
    ensures KeywordsDiffer(only, K(PrintKeyword(keywords[0]) + [COMMA] + others) + end, keywords)
  {
    SplitAround(PrintKeyword(keywords[0]), COMMA, others, end);
    KeywordParses(only, keywords[0], [Comma] + (K(others) + end));
    AfterComma(true, K(others) + end);
    AddedDiffers(keywords[0], ParseArguments(true, K(others) + end), keywords);
  }

  /** Printed arguments before the keywords */
  lemma {:induction false} ArgsThen(args: seq<Expr>, ts: seq<Token>, keywords: seq<Keyword>)
    requires (forall a :: a in args ==> WellFormed(a)) && KeywordsDiffer(false, ts, keywords)
    ensures KeywordsDiffer(false, K(PrintArgs(args, true)) + ts, keywords)
    decreases args
  {
    if args == [] {
      assert K(PrintArgs(args, true)) + ts == ts;
    } else {
      var others := PrintArgs(args[1..], true);
      SplitAround(Print(args[0], TEST), COMMA, others, ts);
      ArgumentStep(args[0], K(PrintArgs(args, true)) + ts, [Comma] + (K(others) + ts));
      AfterComma(false, K(others) + ts);
      ArgsThen(args[1..], ts, keywords);
    }
  }

  lemma KeywordNever(e: Expr, i: nat, more: seq<Token>)
    requires WellFormed(e) && e.Call? && i < |e.keywords| && Level(e.keywords[i].value) < TEST
    ensures NotRead(Level(e), K(Bare(e, |e.args| + 1 + i)) + more, e)
  {
    BareKeywordIs(e, i);
    KeywordInCall(e, i, PrintArgs(e.args, true) + BareKeywords(e.keywords, i), more);
  }

  lemma KeywordInCall(e: Expr, i: nat, pieces: seq<Piece>, more: seq<Token>)
    requires WellFormed(e) && e.Call? && i < |e.keywords| && Level(e.keywords[i].value) < TEST
    requires pieces == PrintArgs(e.args, true) + BareKeywords(e.keywords, i)
    ensures NotRead(ATOM, K(CallPieces(e.func, pieces)) + more, e)
  {
    CallTokens(e, pieces, more);
    KeywordAmongArguments(e, i, [RParen] + more);
    CallNever(e, K(pieces) + ([RParen] + more), K(CallPieces(e.func, pieces)) + more);
  }

  lemma KeywordAmongArguments(e: Expr, i: nat, end: seq<Token>)
    requires WellFormed(e) && e.Call? && i < |e.keywords| && Level(e.keywords[i].value) < TEST
    ensures KeywordsDiffer(false, K(PrintArgs(e.args, true) + BareKeywords(e.keywords, i)) + end, e.keywords)
  {
    var args, keywords := PrintArgs(e.args, true), BareKeywords(e.keywords, i);
    Split2(args, keywords, end);
    KeywordsNever(false, e.keywords, i, end);
    ArgsThen(e.args, K(keywords) + end, e.keywords);
  }

  // ----- Subscripts -----

  /** Nothing between the brackets needs parentheses. */
  lemma SliceReads(e: Expr)
    requires WellFormed(e) && e.Subscript?
    ensures Parse(Level(e), K(Bare(e, 1)) + []) == Parsed(e, [])
  {
    var end := [RBracket] + [];
    SplitTrailer(Print(e.base, ATOM), Tight(LBracket), Body(e.slice), Tight(RBracket), []);
    PrimaryParses(e.base, [LBracket] + (K(Body(e.slice)) + end));
    BareSliceReads(e.base, e.slice);
    PrimaryEnds(K(Bare(e, 1)) + [], e);
  }

  lemma BareSliceReads(base: Expr, slice: Expr)
    requires WellFormed(slice)
    ensures ParseTrailers(base, [LBracket] + (K(Body(slice)) + ([RBracket] + [])))
         == ParseTrailers(Subscript(base, slice), [])
  {
    InsideParses(slice, [RBracket] + []);
    BracketStep(base, slice, K(Body(slice)) + ([RBracket] + []), []);
  }

  lemma BracketStep(base: Expr, slice: Expr, ts: seq<Token>, rest: seq<Token>)
    requires Parse(NAMED_EXPR, ts) == Parsed(slice, [RBracket] + rest)
    ensures ParseTrailers(base, [LBracket] + ts) == ParseTrailers(Subscript(base, slice), rest)
  {
    Tail(LBracket, ts);
    Tail(RBracket, rest);
  }

  // ----- Named expressions -----

  lemma BoundReads(e: Expr)
    requires WellFormed(e) && e.NamedExpr? && Level(e.bound) >= TEST
    ensures Parse(Level(e), K(Bare(e, 1)) + []) == Parsed(e, [])
  {
    PrintParses(e.bound, Level(e.bound), TEST, []);
    Split2([Tight(Word(e.target)), Spaced(Walrus)], Body(e.bound), []);
    assert K([Tight(Word(e.target)), Spaced(Walrus)]) == [Word(e.target), Walrus];
    NamedExprStep(e.target, K(Body(e.bound)) + [], e.bound, []);
  }

  lemma BoundNever(e: Expr, more: seq<Token>)
    requires WellFormed(e) && e.NamedExpr? && Level(e.bound) < TEST
    ensures NotRead(Level(e), K(Bare(e, 1)) + more, e)
  {
    var bound := K(Body(e.bound)) + more;
    Split2([Tight(Word(e.target)), Spaced(Walrus)], Body(e.bound), more);
    assert K([Tight(Word(e.target)), Spaced(Walrus)]) == [Word(e.target), Walrus];
    BareNotRead(TEST, e.bound, more);
    BoundDiffers(e, bound);
  }

  lemma BoundDiffers(e: Expr, ts: seq<Token>)
    requires e.NamedExpr? && NotRead(TEST, ts, e.bound)
    ensures NotRead(NAMED_EXPR, [Word(e.target), Walrus] + ts, e)
  {
    Tail2(Word(e.target), Walrus, ts);
    var r := ParseItem(NAMED_EXPR, [Word(e.target), Walrus] + ts);
    assert r.Parsed? ==> r.value.NamedExpr? && r.value != e;
  }

  // ----- Lambdas -----

  lemma ResultNever(e: Expr, more: seq<Token>)
    requires WellFormed(e) && e.Lambda? && Level(e.result) < TEST
    ensures NotRead(Level(e), K(Bare(e, 0)) + more, e)
  {
    BareLambda(e, 0);
    BareNotRead(TEST, e.result, more);
    LambdaTokens(PrintParams(e.params), Body(e.result), more);
    ResultDiffers(e, K(Body(e.result)) + more);
  }

  function LambdaPieces(buffer: seq<Piece>, result: seq<Piece>): seq<Piece> {
    [Piece(false, KwLambda, buffer != [])] + buffer + [Piece(false, Colon, true)] + result
  }

  lemma BareLambda(e: Expr, i: nat)
    requires e.Lambda? && Child(e, i).Some?
    ensures Level(e) == TEST
    ensures i == 0 ==> Bare(e, i) == LambdaPieces(PrintParams(e.params), Body(e.result))
    ensures i > 0 ==> Bare(e, i) == LambdaPieces(BareParams(e.params, i - 1), Print(e.result, TEST))
  {
  }

  lemma LambdaTokens(buffer: seq<Piece>, result: seq<Piece>, more: seq<Token>)
    ensures K(LambdaPieces(buffer, result)) + more == [KwLambda] + (K(buffer) + ([Colon] + (K(result) + more)))
  {
    SplitLambda(Piece(false, KwLambda, buffer != []), buffer, Piece(false, Colon, true), result, more);
  }

  lemma ResultDiffers(e: Expr, ts: seq<Token>)
    requires e.Lambda? && WellFormedParams(e.params) && NotRead(TEST, ts, e.result)
    ensures NotRead(TEST, [KwLambda] + (K(PrintParams(e.params)) + ([Colon] + ts)), e)
  {
    ParamsParse(e.params, ts);
    ItemsAssemble(e.params);
    Tail(KwLambda, K(PrintParams(e.params)) + ([Colon] + ts));
  }

  /** The parameters that are read on are others than these. */
  ghost predicate Misses(next: seq<Piece>, ts: seq<Token>, items: seq<Item>) {
    var r := ReadOn(next, ts); r.Parsed? ==> r.value != items
  }

  lemma MissesAfter(first: seq<Item>, r: Parsed<seq<Item>>, items: seq<Item>)
    requires r.Parsed? ==> r.value != items
    ensures var b := Before(first, r); b.Parsed? ==> b.value != first + items
  {
    assert r.Parsed? ==> (first + r.value)[|first|..] == r.value && (first + items)[|first|..] == items;
  }

  lemma BareParamMisses(param: Param, next: seq<Piece>, ts: seq<Token>, items: seq<Item>)
    requires WellFormedParam(param) && param.default.Some? && Level(param.default.value) < TEST
    ensures Misses(Separated(BareParam(param), next), ts, [Plain(param)] + items)
  {
    var more := Continued(next, [Colon] + ts);
    SeparatedTokens(BareParam(param), next, [Colon] + ts);
    Split2([Tight(Word(param.name)), Tight(Assign)], Body(param.default.value), more);
    assert K([Tight(Word(param.name)), Tight(Assign)]) == [Word(param.name), Assign];
    BareNotRead(TEST, param.default.value, more);
    DefaultDiffers(param, K(Body(param.default.value)) + more);
    var all := K(Separated(BareParam(param), next)) + ([Colon] + ts);
    AfterParam(all);
    FirstItemDiffers(all, Plain(param), items);
  }

  lemma DefaultDiffers(param: Param, ts: seq<Token>)
    requires param.default.Some? && NotRead(TEST, ts, param.default.value)
    ensures var r := ParseParam([Word(param.name), Assign] + ts); r.Parsed? ==> r.value != Plain(param)
    ensures !Sees([Word(param.name), Assign] + ts, Colon)
  {
    Tail2(Word(param.name), Assign, ts);
  }

  lemma FirstItemDiffers(ts: seq<Token>, x: Item, items: seq<Item>)
    requires !Sees(ts, Colon) && (var r := ParseParam(ts); r.Parsed? ==> r.value != x)
    ensures var r := ParseParams(ts); r.Parsed? ==> r.value != [x] + items
  {
    var r := ParseParam(ts);
    if r.Parsed? {
      var more := ParseAfterParam(r.rest);
      assert more.Parsed? ==> ([r.value] + more.value)[0] == r.value;
    }
  }

  lemma BarePlainSeparated(params: seq<Param>, i: int, next: seq<Piece>)
    requires params != []
    ensures var first := if i == 0 && params[0].default.Some? then BareParam(params[0]) else PrintParam(params[0]);
      Separated(BarePlain(params, i), next) == Separated(first, Separated(BarePlain(params[1..], i - 1), next))
  {
    var first := if i == 0 && params[0].default.Some? then BareParam(params[0]) else PrintParam(params[0]);
    StartsWithName(params[0]);
    if |params| == 1 {
      assert params[1..] == [] && BarePlain(params, i) == first;
    } else {
      PlainSame(params[1..], i - 1);
      PlainIsNotEmpty(params[1..]);
      SeparatedTwice(first, BarePlain(params[1..], i - 1), next);
    }
  }

  lemma {:induction false} BareGroupMisses(params: seq<Param>, i: nat, next: seq<Piece>, ts: seq<Token>,
      items: seq<Item>)
    requires i < |params| && (forall p :: p in params ==> WellFormedParam(p))
    requires params[i].default.Some? && Level(params[i].default.value) < TEST
    ensures Misses(Separated(BarePlain(params, i), next), ts, Plains(params) + items)
    decreases i
  {
    var rest := Separated(BarePlain(params[1..], i - 1), next);
    BarePlainSeparated(params, i, next);
    Associate([Plain(params[0])], Plains(params[1..]), items);
    if i == 0 {
      BareParamMisses(params[0], rest, ts, Plains(params[1..]) + items);
    } else {
      BareGroupMisses(params[1..], i - 1, next, ts, items);
      ParamBefore(params[0], rest, ts, Plains(params[1..]) + items);
    }
  }

  lemma ParamBefore(param: Param, next: seq<Piece>, ts: seq<Token>, items: seq<Item>)
    requires WellFormedParam(param) && Misses(next, ts, items)
    ensures Misses(Separated(PrintParam(param), next), ts, [Plain(param)] + items)
  {
    FirstOfGroup(param, next, ts);
    MissesAfter([Plain(param)], ReadOn(next, ts), items);
  }

  /** A group that is written as usual, before groups that are not */
  lemma GroupMisses(params: seq<Param>, i: int, next: seq<Piece>, ts: seq<Token>, items: seq<Item>)
    requires !(0 <= i < |params|) && (forall p :: p in params ==> WellFormedParam(p)) && Misses(next, ts, items)
    ensures Misses(Separated(BarePlain(params, i), next), ts, Plains(params) + items)
  {
    NotMine(params, i);
    PlainGroup(params, next, ts);
    MissesAfter(Plains(params), ReadOn(next, ts), items);
  }

  lemma SlashMisses(params: Params, next: seq<Piece>, ts: seq<Token>, items: seq<Item>)
    requires Misses(next, ts, items)
    ensures Misses(Separated(SlashPieces(params), next), ts, SlashItems(params) + items)
  {
    SlashGroup(params, next, ts);
    MissesAfter(SlashItems(params), ReadOn(next, ts), items);
  }

  lemma StarMisses(params: Params, next: seq<Piece>, ts: seq<Token>, items: seq<Item>)
    requires Misses(next, ts, items)
    ensures Misses(Separated(StarPieces(params), next), ts, StarItems(params) + items)
  {
    StarGroup(params, next, ts);
    MissesAfter(StarItems(params), ReadOn(next, ts), items);
  }

  lemma ParamsMiss(params: Params, i: nat, ts: seq<Token>)
    requires WellFormedParams(params) && DefaultOf(params, i).Some? && Level(DefaultOf(params, i).value) < TEST
    ensures Misses(BareParams(params, i), ts, ItemsOf(params))
  {
    var j := i - |params.posonly|;
    var next, items := BareFromArgs(params, j), Plains(params.args) + LaterItems(params);
    if j < 0 {
      FirstParamsMiss(params, i, next, ts, items);
    } else {
      FromArgsMiss(params, j, ts);
      PositionalOnlyMiss(params, i, next, ts, items);
    }
  }

  function LaterItems(params: Params): seq<Item> {
    StarItems(params) + (Plains(params.kwonly) + DoubleStarItems(params))
  }

  lemma FirstParamsMiss(params: Params, i: nat, next: seq<Piece>, ts: seq<Token>, items: seq<Item>)
    requires WellFormedParams(params) && i < |params.posonly| && DefaultOf(params, i).Some?
    requires Level(DefaultOf(params, i).value) < TEST
    ensures Misses(Separated(BarePlain(params.posonly, i), Separated(SlashPieces(params), next)), ts,
      Plains(params.posonly) + (SlashItems(params) + items))
  {
    BareGroupMisses(params.posonly, i, Separated(SlashPieces(params), next), ts, SlashItems(params) + items);
  }

  lemma FromArgsMiss(params: Params, i: nat, ts: seq<Token>)
    requires WellFormedParams(params) && DefaultOf(params, |params.posonly| + i).Some?
    requires Level(DefaultOf(params, |params.posonly| + i).value) < TEST
    ensures Misses(BareFromArgs(params, i), ts, Plains(params.args) + LaterItems(params))
  {
    var k := i - |params.args|;
    if k < 0 {
      BareGroupMisses(params.args, i, BareFromStar(params, k), ts, LaterItems(params));
    } else {
      FromStarMiss(params, k, ts);
      GroupMisses(params.args, i, BareFromStar(params, k), ts, LaterItems(params));
    }
  }

  lemma PositionalOnlyMiss(params: Params, i: nat, next: seq<Piece>, ts: seq<Token>, items: seq<Item>)
    requires WellFormedParams(params) && i >= |params.posonly| && Misses(next, ts, items)
    ensures Misses(Separated(BarePlain(params.posonly, i), Separated(SlashPieces(params), next)), ts,
      Plains(params.posonly) + (SlashItems(params) + items))
  {
    SlashMisses(params, next, ts, items);
    GroupMisses(params.posonly, i, Separated(SlashPieces(params), next), ts, SlashItems(params) + items);
  }

  lemma FromStarMiss(params: Params, i: nat, ts: seq<Token>)
    requires WellFormedParams(params) && i < |params.kwonly| && params.kwonly[i].default.Some?
    requires Level(params.kwonly[i].default.value) < TEST
    ensures Misses(BareFromStar(params, i), ts, LaterItems(params))
  {
    var pieces, items := DoubleStarPieces(params), DoubleStarItems(params);
    BareGroupMisses(params.kwonly, i, pieces, ts, items);
    StarMisses(params, Separated(BarePlain(params.kwonly, i), pieces), ts, Plains(params.kwonly) + items);
  }

  lemma LambdaDiffers(e: Expr, ts: seq<Token>)
    requires e.Lambda? && (var r := ParseParams(ts); r.Parsed? ==> r.value != ItemsOf(e.params))
    ensures NotRead(TEST, [KwLambda] + ts, e)
  {
    Tail(KwLambda, ts);
    var items := ParseParams(ts);
    if items.Parsed? && Assembled(items.value) == Some(e.params) {
      AssembledFrom(items.value, e.params);
    }
  }

  lemma DefaultNever(e: Expr, i: nat, more: seq<Token>)
    requires WellFormed(e) && e.Lambda? && i > 0 && Child(e, i).Some? && Level(Child(e, i).value) < TEST
    ensures NotRead(Level(e), K(Bare(e, i)) + more, e)
  {
    DefaultIs(e, i);
    DefaultInLambda(e, i - 1, Print(e.result, TEST), more);
    BareLambda(e, i);
  }

  lemma DefaultIs(e: Expr, i: nat)
    requires WellFormed(e) && e.Lambda? && i > 0
    ensures Child(e, i) == DefaultOf(e.params, i - 1) && WellFormedParams(e.params)
  {
  }

  lemma DefaultInLambda(e: Expr, i: nat, result: seq<Piece>, more: seq<Token>)
    requires e.Lambda? && WellFormedParams(e.params) && DefaultOf(e.params, i).Some?
    requires Level(DefaultOf(e.params, i).value) < TEST
    ensures NotRead(TEST, K(LambdaPieces(BareParams(e.params, i), result)) + more, e)
  {
    LambdaTokens(BareParams(e.params, i), result, more);
    BareDefaultDiffers(e, i, K(result) + more);
  }

  lemma BareDefaultDiffers(e: Expr, i: nat, ts: seq<Token>)
    requires e.Lambda? && WellFormedParams(e.params) && DefaultOf(e.params, i).Some?
    requires Level(DefaultOf(e.params, i).value) < TEST
    ensures NotRead(TEST, [KwLambda] + (K(BareParams(e.params, i)) + ([Colon] + ts)), e)
  {
    ParamsMiss(e.params, i, ts);
    WholeReads(BareParams(e.params, i), ts);
    LambdaDiffers(e, K(BareParams(e.params, i)) + ([Colon] + ts));
  }
}
