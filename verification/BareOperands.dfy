/** Reading a node back of which one operand has been written without parentheses. */
module BareOperands {
  import opened Basics
  import opened Expressions
  import opened ExpressionParser
  import opened ExpressionRoundTrip
  import opened Parentheses
  import opened OperandParentheses

  /** Whatever is parsed at level k, it is not e. */
  ghost predicate NotRead(k: Prec, ts: seq<Token>, e: Expr) {
    var r := Parse(k, ts); r.Parsed? ==> r.value != e
  }

  /** The tokens do not start with e in parentheses, so that a tighter level does not give e. */
  lemma TighterIsNot(k: Prec, ts: seq<Token>, e: Expr)
    requires NotGrouped(ts, e) && Level(e) < k
    ensures NotRead(k, ts, e)
  {
    if Parse(k, ts).Parsed? {
      ParsedFits(k, ts);
    }
  }

  lemma BareStarts(c: Expr, more: seq<Token>, e: Expr)
    requires WellFormed(c) && c < e
    ensures NotGrouped(K(Body(c)) + more, e)
  {
    BodyNotGrouped(c, more);
  }

  lemma BareNotRead(k: Prec, c: Expr, more: seq<Token>)
    requires WellFormed(c) && Level(c) < k
    ensures NotRead(k, K(Body(c)) + more, c)
  {
    BareIsNotRead(k, c, more);
  }

  // ----- Unary operations -----

  lemma UnaryNever(e: Expr, more: seq<Token>)
    requires WellFormed(e) && e.UnaryOp? && Level(e.operand) < UnaryLevel(e.unop)
    ensures NotRead(Level(e), K(Bare(e, 0)) + more, e)
  {
    var k := UnaryLevel(e.unop);
    SplitHead(Piece(false, UnaryToken(e.unop), e.unop == Not), Body(e.operand), more);
    BareNotRead(k, e.operand, more);
  }

  // ----- Binary operations -----

  lemma LeftNever(e: Expr, more: seq<Token>)
    requires WellFormed(e) && e.BinOp? && e.op != Pow && Level(e.left) < BinLevel(e.op)
    ensures NotRead(Level(e), K(Bare(e, 0)) + more, e)
  {
    var k := BinLevel(e.op);
    var rest := [BinToken(e.op)] + (K(Print(e.right, RightLevel(e.op))) + more);
    var ts := K(Body(e.left)) + rest;
    SplitAround(Body(e.left), Spaced(BinToken(e.op)), Print(e.right, RightLevel(e.op)), more);
    BareStarts(e.left, rest, e);
    TighterIsNot(k + 1, ts, e);
    BareNotRead(k + 1, e.left, rest);
    OperandNever(k, ts, e);
  }

  lemma OperandNever(k: Prec, ts: seq<Token>, e: Expr)
    requires e.BinOp? && 9 <= k <= 14 && NotRead(k + 1, ts, e) && NotRead(k + 1, ts, e.left) && Level(e.left) != k
    ensures NotRead(k, ts, e)
  {
    var r := Parse(k + 1, ts);
    if r.Parsed? && ParseOperands(k, r.value, r.rest).Parsed? {
      OperandsBuild(k, r.value, r.rest);
    }
  }

  lemma RightNever(e: Expr, more: seq<Token>)
    requires WellFormed(e) && e.BinOp? && e.op != Pow && Level(e.right) <= BinLevel(e.op)
    ensures NotRead(Level(e), K(Bare(e, 1)) + more, e)
  {
    var k := BinLevel(e.op);
    var right := K(Body(e.right)) + more;
    SplitAround(Print(e.left, k), Spaced(BinToken(e.op)), Body(e.right), more);
    BareNotRead(k + 1, e.right, more);
    RightOf(k, e, right);
  }

  lemma RightOf(k: Prec, e: Expr, right: seq<Token>)
    requires WellFormed(e) && e.BinOp? && e.op != Pow && k == BinLevel(e.op) && NotRead(k + 1, right, e.right)
    ensures NotRead(k, K(Print(e.left, k)) + ([BinToken(e.op)] + right), e)
  {
    LeftParses(k, e.left, [BinToken(e.op)] + right);
    RightStep(k, e, right);
  }

  lemma RightStep(k: Prec, e: Expr, right: seq<Token>)
    requires e.BinOp? && e.op != Pow && k == BinLevel(e.op) && NotRead(k + 1, right, e.right)
    ensures var r := ParseOperands(k, e.left, [BinToken(e.op)] + right); r.Parsed? ==> r.value != e
  {
    var r := Parse(k + 1, right);
    Tail(BinToken(e.op), right);
    if r.Parsed? {
      var y := BinOp(e.left, e.op, r.value);
      OperandStep(k, e.left, e.op, r.value, right, r.rest);
      if ParseOperands(k, y, r.rest).Parsed? {
        OperandsBuild(k, y, r.rest);
      }
    }
  }

  lemma PowerLeftNever(e: Expr, more: seq<Token>)
    requires WellFormed(e) && e.BinOp? && e.op == Pow && Level(e.left) < AWAIT
    ensures NotRead(Level(e), K(Bare(e, 0)) + more, e)
  {
    var rest := [StarStar] + (K(Print(e.right, POWER)) + more);
    var ts := K(Body(e.left)) + rest;
    SplitAround(Body(e.left), Spaced(StarStar), Print(e.right, POWER), more);
    BareStarts(e.left, rest, e);
    TighterIsNot(AWAIT, ts, e);
    BareNotRead(AWAIT, e.left, rest);
  }

  lemma PowerRightNever(e: Expr, more: seq<Token>)
    requires WellFormed(e) && e.BinOp? && e.op == Pow && Level(e.right) < FACTOR
    ensures NotRead(Level(e), K(Bare(e, 1)) + more, e)
  {
    var right := K(Body(e.right)) + more;
    SplitAround(Print(e.left, AWAIT), Spaced(StarStar), Body(e.right), more);
    PrintParses(e.left, AWAIT, AWAIT, [StarStar] + right);
    Tail(StarStar, right);
    BareNotRead(FACTOR, e.right, more);
  }

  /** A sign is read on the right of a power. */
  lemma SignReads(e: Expr)
    requires WellFormed(e) && e.BinOp? && e.op == Pow && Level(e.right) == FACTOR
    ensures Parse(Level(e), K(Bare(e, 1)) + []) == Parsed(e, [])
  {
    var right := K(Body(e.right)) + [];
    SplitAround(Print(e.left, AWAIT), Spaced(StarStar), Body(e.right), []);
    PrintParses(e.left, AWAIT, AWAIT, [StarStar] + right);
    Tail(StarStar, right);
    BodyParses(e.right, []);
  }

  // ----- Comparisons -----

  lemma FirstNever(e: Expr, more: seq<Token>)
    requires WellFormed(e) && e.Compare? && Level(e.first) < EXPR
    ensures NotRead(Level(e), K(Bare(e, 0)) + more, e)
  {
    var rest := K(PrintLinks(e.links)) + more;
    var ts := K(Body(e.first)) + rest;
    Split2(Body(e.first), PrintLinks(e.links), more);
    BareStarts(e.first, rest, e);
    TighterIsNot(EXPR, ts, e);
    BareNotRead(EXPR, e.first, rest);
  }

  lemma ComparatorStep(op: Comparator, ts: seq<Token>)
    ensures var r := ParseComparator(K(ComparatorPieces(op)) + ts); r.Parsed? && r.value == op ==> r.rest == ts
  {
    var t := ComparatorPieces(op)[0].token;
    if op == IsNot || op == NotIn {
      var u := ComparatorPieces(op)[1].token;
      assert K(ComparatorPieces(op)) == [t, u];
      Tail2(t, u, ts);
    } else {
      assert K(ComparatorPieces(op)) == [t];
      Tail(t, ts);
    }
  }

  lemma {:induction false} LinksNever(links: seq<Link>, i: nat, more: seq<Token>)
    requires i < |links| && (forall l :: l in links ==> WellFormed(l.operand)) && Level(links[i].operand) < EXPR
    ensures var r := ParseLinks(K(BareLinks(links, i)) + more); r.Parsed? ==> r.value != links
    decreases i
  {
    if i == 0 {
      var link, rest := links[0], K(PrintLinks(links[1..])) + more;
      SplitLink(link.cmp, Body(link.operand), PrintLinks(links[1..]), more);
      BareNotRead(EXPR, link.operand, rest);
      ComparatorStep(link.cmp, K(Body(link.operand)) + rest);
    } else {
      var rest := K(BareLinks(links[1..], i - 1)) + more;
      Split2(PrintLink(links[0]), BareLinks(links[1..], i - 1), more);
      LinksNever(links[1..], i - 1, more);
      BareLinksFollow(links[1..], i - 1, more);
      LinkParses(links[0], rest);
      LaterLink(K(BareLinks(links, i)) + more, links, rest);
    }
  }

  lemma LaterLink(ts: seq<Token>, links: seq<Link>, rest: seq<Token>)
    requires links != [] && (var r := ParseLinks(rest); r.Parsed? ==> r.value != links[1..])
    requires var r := ParseComparator(ts);
      r.Parsed? && r.value == links[0].cmp && Parse(EXPR, r.rest) == Parsed(links[0].operand, rest)
    ensures var r := ParseLinks(ts); r.Parsed? ==> r.value != links
  {
    var more := ParseLinks(rest);
    if more.Parsed? {
      assert ([Link(links[0].cmp, links[0].operand)] + more.value)[1..] == more.value;
    }
  }

  lemma SplitLink(op: Comparator, a: seq<Piece>, b: seq<Piece>, more: seq<Token>)
    ensures K(ComparatorPieces(op) + a + b) + more == K(ComparatorPieces(op)) + (K(a) + (K(b) + more))
  {
    Split2(ComparatorPieces(op) + a, b, more);
    Split2(ComparatorPieces(op), a, K(b) + more);
  }

  lemma BareLinksFollow(links: seq<Link>, i: nat, more: seq<Token>)
    requires i < |links|
    ensures Follows(EXPR, K(BareLinks(links, i)) + more)
  {
    var op, pieces := ComparatorPieces(links[0].cmp), BareLinks(links, i);
    assert op <= pieces;
  }

  lemma ComparisonStep(e: Expr, ts: seq<Token>, rest: seq<Token>)
    requires e.Compare? && Parse(EXPR, ts) == Parsed(e.first, rest)
    requires var r := ParseLinks(rest); r.Parsed? ==> r.value != e.links
    ensures NotRead(CMP, ts, e)
  {
  }

  lemma LinkNever(e: Expr, i: nat, more: seq<Token>)
    requires WellFormed(e) && e.Compare? && 1 <= i <= |e.links| && Level(e.links[i - 1].operand) < EXPR
    ensures NotRead(Level(e), K(Bare(e, i)) + more, e)
  {
    var rest := K(BareLinks(e.links, i - 1)) + more;
    Split2(Print(e.first, EXPR), BareLinks(e.links, i - 1), more);
    BareLinksFollow(e.links, i - 1, more);
    PrintParses(e.first, EXPR, EXPR, rest);
    LinksNever(e.links, i - 1, more);
    ComparisonStep(e, K(Print(e.first, EXPR)) + rest, rest);
  }

  // ----- Boolean operations -----

  lemma FirstValueNever(e: Expr, more: seq<Token>)
    requires WellFormed(e) && e.BoolOp? && Level(e.values[0]) <= BoolLevel(e.boolop)
    ensures NotRead(Level(e), K(Bare(e, 0)) + more, e)
  {
    var k: Prec, t := BoolLevel(e.boolop), BoolToken(e.boolop);
    var others := PrintValues(e.values[1..], t, Next(Next(k)));
    var rest := [t] + (K(others) + more);
    var ts := K(Body(e.values[0])) + rest;
    SplitAround(Body(e.values[0]), Spaced(t), others, more);
    BareStarts(e.values[0], rest, e);
    TighterIsNot(k + 1, ts, e);
    BareNotRead(k + 1, e.values[0], rest);
    BoolStep(k, ts, e);
  }

  lemma BoolStep(k: Prec, ts: seq<Token>, e: Expr)
    requires (k == 5 || k == 6) && NotRead(k + 1, ts, e) && e.BoolOp? && e.values != []
    requires NotRead(k + 1, ts, e.values[0])
    ensures NotRead(k, ts, e)
  {
    var op, r := if k == 5 then Or else And, Parse(k + 1, ts);
    if r.Parsed? && Sees(r.rest, BoolToken(op)) {
      var more := ParseValues(k, op, r.rest);
      assert more.Parsed? ==> ([r.value] + more.value)[0] == r.value;
    }
  }

  /** The values after the first, of which the one at i is bare and too loose */
  lemma {:induction false} LaterValueNever(k: Prec, op: BoolOperator, values: seq<Expr>, q: Prec, i: nat,
      more: seq<Token>)
    requires k == BoolLevel(op) && q > k && i < |values| && (forall v :: v in values ==> WellFormed(v))
    requires Level(values[i]) <= k
    ensures var r := ParseValues(k, op, [BoolToken(op)] + (K(BareValues(values, BoolToken(op), q, i)) + more));
      r.Parsed? ==> r.value != values
    decreases i
  {
    var t := BoolToken(op);
    var ts := K(BareValues(values, t, q, i)) + more;
    if i == 0 {
      BareValueFirst(k, values, t, q, more);
      ValueDiffers(k, op, ts, values);
    } else {
      LaterValueNever(k, op, values[1..], Next(q), i - 1, more);
      ValueBefore(k, op, values, q, BareValues(values[1..], t, Next(q), i - 1), more);
    }
  }

  lemma BareValueFirst(k: Prec, values: seq<Expr>, t: Token, q: Prec, more: seq<Token>)
    requires k < 18 && values != [] && WellFormed(values[0]) && Level(values[0]) <= k
    ensures NotRead(k + 1, K(BareValues(values, t, q, 0)) + more, values[0])
  {
    if |values| == 1 {
      BareNotRead(k + 1, values[0], more);
    } else {
      var others := PrintValues(values[1..], t, Next(q));
      SplitAround(Body(values[0]), Spaced(t), others, more);
      BareNotRead(k + 1, values[0], [t] + (K(others) + more));
    }
  }

  lemma ValueBefore(k: Prec, op: BoolOperator, values: seq<Expr>, q: Prec, others: seq<Piece>, more: seq<Token>)
    requires k == BoolLevel(op) && q > k && values != [] && WellFormed(values[0])
    requires var r := ParseValues(k, op, [BoolToken(op)] + (K(others) + more)); r.Parsed? ==> r.value != values[1..]
    ensures var r := ParseValues(k, op,
        [BoolToken(op)] + (K(Print(values[0], q) + [Spaced(BoolToken(op))] + others) + more));
      r.Parsed? ==> r.value != values
  {
    var t := BoolToken(op);
    var rest := [t] + (K(others) + more);
    SplitAround(Print(values[0], q), Spaced(t), others, more);
    PrintParses(values[0], q, k + 1, rest);
    ValuesTail(k, op, K(Print(values[0], q)) + rest, values, rest);
  }

  lemma ValueDiffers(k: Prec, op: BoolOperator, ts: seq<Token>, values: seq<Expr>)
    requires (k == 5 || k == 6) && values != [] && NotRead(k + 1, ts, values[0])
    ensures var r := ParseValues(k, op, [BoolToken(op)] + ts); r.Parsed? ==> r.value != values
  {
    Tail(BoolToken(op), ts);
    var r := Parse(k + 1, ts);
    if r.Parsed? {
      var more := ParseValues(k, op, r.rest);
      assert more.Parsed? ==> ([r.value] + more.value)[0] == r.value;
    }
  }

  lemma ValuesTail(k: Prec, op: BoolOperator, ts: seq<Token>, values: seq<Expr>, rest: seq<Token>)
    requires (k == 5 || k == 6) && values != [] && Parse(k + 1, ts) == Parsed(values[0], rest)
    requires var r := ParseValues(k, op, rest); r.Parsed? ==> r.value != values[1..]
    ensures var r := ParseValues(k, op, [BoolToken(op)] + ts); r.Parsed? ==> r.value != values
  {
    Tail(BoolToken(op), ts);
    var more := ParseValues(k, op, rest);
    if more.Parsed? {
      assert ([values[0]] + more.value)[1..] == more.value;
    }
  }

  lemma ValueNever(e: Expr, i: nat, more: seq<Token>)
    requires WellFormed(e) && e.BoolOp? && 1 <= i < |e.values| && Level(e.values[i]) <= BoolLevel(e.boolop)
    ensures NotRead(Level(e), K(Bare(e, i)) + more, e)
  {
    var k: Prec, t := BoolLevel(e.boolop), BoolToken(e.boolop);
    LaterValueNever(k, e.boolop, e.values[1..], Next(Next(k)), i - 1, more);
    var rest := FirstValueReads(e, i, more);
    ValuesDiffer(k, K(Bare(e, i)) + more, e, rest);
  }

  /** The first value is printed, and then come the others. */
  lemma FirstValueReads(e: Expr, i: nat, more: seq<Token>) returns (rest: seq<Token>)
    requires WellFormed(e) && e.BoolOp? && 1 <= i < |e.values|
    ensures var k, t := BoolLevel(e.boolop), BoolToken(e.boolop);
      && rest == [t] + (K(BareValues(e.values[1..], t, Next(Next(k)), i - 1)) + more)
      && Parse(k + 1, K(Bare(e, i)) + more) == Parsed(e.values[0], rest)
  {
    var k: Prec, t := BoolLevel(e.boolop), BoolToken(e.boolop);
    var others := BareValues(e.values[1..], t, Next(Next(k)), i - 1);
    rest := [t] + (K(others) + more);
    SplitAround(Print(e.values[0], k + 1), Spaced(t), others, more);
    PrintParses(e.values[0], k + 1, k + 1, rest);
  }

  lemma ValuesDiffer(k: Prec, ts: seq<Token>, e: Expr, rest: seq<Token>)
    requires e.BoolOp? && k == BoolLevel(e.boolop) && e.values != []
    requires Parse(k + 1, ts) == Parsed(e.values[0], rest) && Sees(rest, BoolToken(e.boolop))
    requires var r := ParseValues(k, e.boolop, rest); r.Parsed? ==> r.value != e.values[1..]
    ensures NotRead(k, ts, e)
  {
    var more := ParseValues(k, e.boolop, rest);
    if more.Parsed? {
      assert ([e.values[0]] + more.value)[1..] == more.value;
    }
  }

  /** A bare value that is tight enough is read. */
  lemma {:induction false} LaterValueReads(k: Prec, op: BoolOperator, values: seq<Expr>, q: Prec, i: nat)
    requires k == BoolLevel(op) && q > k && i < |values| && (forall v :: v in values ==> WellFormed(v))
    requires Level(values[i]) > k
    ensures ParseValues(k, op, [BoolToken(op)] + (K(BareValues(values, BoolToken(op), q, i)) + []))
         == Parsed(values, [])
    decreases i
  {
    var t := BoolToken(op);
    var ts := K(BareValues(values, t, q, i)) + [];
    if |values| == 1 {
      PrintParses(values[0], k + 1, k + 1, []);
      ValuesMore(k, op, ts, values, []);
    } else if i == 0 {
      ValuesGoOn(k, op, values[1..], Next(q));
      PrintedBefore(k, op, values, k + 1, PrintValues(values[1..], t, Next(q)));
    } else {
      LaterValueReads(k, op, values[1..], Next(q), i - 1);
      PrintedBefore(k, op, values, q, BareValues(values[1..], t, Next(q), i - 1));
    }
  }

  lemma PrintedBefore(k: Prec, op: BoolOperator, values: seq<Expr>, q: Prec, others: seq<Piece>)
    requires k == BoolLevel(op) && q > k && values != [] && WellFormed(values[0])
    requires ParseValues(k, op, [BoolToken(op)] + (K(others) + [])) == Parsed(values[1..], [])
    ensures ParseValues(k, op,
      [BoolToken(op)] + (K(Print(values[0], q) + [Spaced(BoolToken(op))] + others) + [])) == Parsed(values, [])
  {
    var t := BoolToken(op);
    var rest := [t] + (K(others) + []);
    SplitAround(Print(values[0], q), Spaced(t), others, []);
    PrintParses(values[0], q, k + 1, rest);
    ValuesMore(k, op, K(Print(values[0], q)) + rest, values, rest);
  }

  lemma ValuesMore(k: Prec, op: BoolOperator, ts: seq<Token>, values: seq<Expr>, rest: seq<Token>)
    requires (k == 5 || k == 6) && values != [] && Parse(k + 1, ts) == Parsed(values[0], rest)
    requires ParseValues(k, op, rest) == Parsed(values[1..], [])
    ensures ParseValues(k, op, [BoolToken(op)] + ts) == Parsed(values, [])
  {
    Tail(BoolToken(op), ts);
    HeadTail(values);
  }

  lemma ValuesGoOn(k: Prec, op: BoolOperator, values: seq<Expr>, q: Prec)
    requires k == BoolLevel(op) && q > k && values != [] && (forall v :: v in values ==> WellFormed(v))
    ensures ParseValues(k, op, [BoolToken(op)] + (K(PrintValues(values, BoolToken(op), q)) + [])) == Parsed(values, [])
  {
    var more := ValuesParse(k, op, values, q, []);
    Tail(BoolToken(op), K(PrintValues(values, BoolToken(op), q)) + []);
    HeadTail(values);
  }

  lemma ValuesAre(e: Expr, ts: seq<Token>, rest: seq<Token>)
    requires e.BoolOp? && e.values != [] && Parse(BoolLevel(e.boolop) + 1, ts) == Parsed(e.values[0], rest)
    requires Sees(rest, BoolToken(e.boolop))
    requires ParseValues(BoolLevel(e.boolop), e.boolop, rest) == Parsed(e.values[1..], [])
    ensures Parse(BoolLevel(e.boolop), ts) == Parsed(e, [])
  {
    HeadTail(e.values);
  }

  lemma ValueReads(e: Expr, i: nat)
    requires WellFormed(e) && e.BoolOp? && 1 <= i < |e.values| && Level(e.values[i]) > BoolLevel(e.boolop)
    ensures Parse(Level(e), K(Bare(e, i)) + []) == Parsed(e, [])
  {
    var k: Prec, t := BoolLevel(e.boolop), BoolToken(e.boolop);
    LaterValueReads(k, e.boolop, e.values[1..], Next(Next(k)), i - 1);
    var rest := FirstValueReads(e, i, []);
    ValuesAre(e, K(Bare(e, i)) + [], rest);
  }

  // ----- Conditional expressions -----

  lemma ConditionalNever(e: Expr, i: nat, more: seq<Token>)
    requires WellFormed(e) && e.IfExp? && i <= 2 && Level(Child(e, i).value) < ReadAt(e, i)
    ensures NotRead(Level(e), K(Bare(e, i)) + more, e)
  {
    var body := if i == 0 then Body(e.body) else Print(e.body, OR);
    var test := if i == 1 then Body(e.test) else Print(e.test, OR);
    var orelse := if i == 2 then Body(e.orelse) else Print(e.orelse, TEST);
    var last := K(orelse) + more;
    var middle := K(test) + ([KwElse] + last);
    SplitIf(body, Spaced(KwIf), test, Spaced(KwElse), orelse, more);
    if i == 0 {
      BareStarts(e.body, [KwIf] + middle, e);
      BodyNever(e, K(body) + ([KwIf] + middle), [KwIf] + middle);
    } else {
      PrintParses(e.body, OR, OR, [KwIf] + middle);
      MiddleNever(e, i == 1, middle, last, more);
      TestNever(e, K(body) + ([KwIf] + middle), middle);
    }
  }

  lemma MiddleNever(e: Expr, bareTest: bool, middle: seq<Token>, last: seq<Token>, more: seq<Token>)
    requires WellFormed(e) && e.IfExp? && Level(if bareTest then e.test else e.orelse) < (if bareTest then OR else TEST)
    requires middle == K(if bareTest then Body(e.test) else Print(e.test, OR)) + ([KwElse] + last)
    requires !bareTest ==> last == K(Body(e.orelse)) + more
    ensures var test := Parse(OR, middle);
      test.Parsed? && test.value == e.test && Sees(test.rest, KwElse) ==> NotRead(TEST, test.rest[1..], e.orelse)
  {
    if bareTest {
      BareNotRead(OR, e.test, [KwElse] + last);
    } else {
      PrintParses(e.test, OR, OR, [KwElse] + last);
      Tail(KwElse, last);
      BareNotRead(TEST, e.orelse, more);
    }
  }

  lemma BodyNever(e: Expr, ts: seq<Token>, rest: seq<Token>)
    requires WellFormed(e) && e.IfExp? && ts == K(Body(e.body)) + rest && NotGrouped(ts, e) && Level(e.body) < OR
    ensures NotRead(TEST, ts, e)
  {
    TighterIsNot(OR, ts, e);
    BareNotRead(OR, e.body, rest);
  }

  lemma TestNever(e: Expr, ts: seq<Token>, middle: seq<Token>)
    requires e.IfExp? && Parse(OR, ts) == Parsed(e.body, [KwIf] + middle)
    requires var test := Parse(OR, middle);
      test.Parsed? && test.value == e.test && Sees(test.rest, KwElse) ==> NotRead(TEST, test.rest[1..], e.orelse)
    ensures NotRead(TEST, ts, e)
  {
    Starts(OR, ts);
    Tail(KwIf, middle);
  }

  // ----- Attributes, calls and subscripts -----

  lemma AtomIs(ts: seq<Token>)
    requires ParseAtom(ts).Parsed?
    ensures var e := ParseAtom(ts).value; e.Name? || e.Constant? || e.List? || e == Tuple([]) || Grouped(ts, e)
  {
  }

  lemma PrimaryEnds(ts: seq<Token>, e: Expr)
    requires ParsePrimary(ts) == ParseTrailers(e, [])
    ensures Parse(ATOM, ts) == Parsed(e, [])
  {
    NoTrailer(e, []);
  }

  lemma BaseNever(e: Expr, c: Expr, rest: seq<Token>)
    requires WellFormed(c) && OperandIs(e, c) && !e.BinOp? && c < e && Level(c) < ATOM
    ensures NotRead(ATOM, K(Body(c)) + rest, e)
  {
    BodyNotGrouped(c, rest);
    TrailersNever(e, c, K(Body(c)) + rest);
  }

  lemma TrailersNever(e: Expr, c: Expr, ts: seq<Token>)
    requires OperandIs(e, c) && !e.BinOp? && c < e && Level(c) < ATOM && NotGrouped(ts, c)
    ensures NotRead(ATOM, ts, e)
  {
    var r := ParseAtom(ts);
    if r.Parsed? {
      AtomIs(ts);
      TrailerNever(e, c, ts, r.value, r.rest);
    }
  }

  lemma TrailerNever(e: Expr, c: Expr, ts: seq<Token>, x: Expr, rest: seq<Token>)
    requires OperandIs(e, c) && !e.BinOp? && Level(c) < ATOM && NotGrouped(ts, c) && c < e
    requires x.Name? || x.Constant? || x.List? || x == Tuple([]) || Grouped(ts, x)
    ensures var r := ParseTrailers(x, rest); r.Parsed? ==> r.value != e
  {
    if ParseTrailers(x, rest).Parsed? {
      TrailersBuild(x, rest);
    }
  }

  lemma BareBaseNever(e: Expr, more: seq<Token>)
    requires WellFormed(e) && (e.Attribute? || e.Call? || e.Subscript?) && Level(Child(e, 0).value) < ATOM
    ensures NotRead(Level(e), K(Bare(e, 0)) + more, e)
  {
    var c := Child(e, 0).value;
    var rest := Bare(e, 0)[|Body(c)|..];
    assert Bare(e, 0) == Body(c) + rest;
    Split2(Body(c), rest, more);
    BaseNever(e, c, K(rest) + more);
  }

  // ----- Items between commas -----

  /** An expression that is too loose for an item, except a named expression between brackets */
  lemma ItemNever(k: Prec, c: Expr, more: seq<Token>)
    requires k <= 2 && WellFormed(c) && Level(c) < TEST && !(k == 1 && c.NamedExpr?)
    ensures var r := ParseItem(k, K(Body(c)) + more); r.Parsed? ==> r.value != c
  {
    BareNotRead(TEST, c, more);
  }

  /** A named expression between brackets */
  lemma WalrusReads(c: Expr, more: seq<Token>)
    requires WellFormed(c) && c.NamedExpr? && Follows(TEST, more)
    ensures var ts := K(Body(c)) + more;
      && ParseItem(NAMED_EXPR, ts) == Parsed(c, more) && ts != [] && ts[0].Word? && !SeesWord(ts, Assign)
  {
    var ts := K(Print(c.bound, ATOM)) + more;
    Split2([Tight(Word(c.target)), Spaced(Walrus)], Print(c.bound, ATOM), more);
    assert K([Tight(Word(c.target)), Spaced(Walrus)]) == [Word(c.target), Walrus];
    Tail2(Word(c.target), Walrus, ts);
    PrintParses(c.bound, ATOM, TEST, more);
  }

  lemma BareHead(k: Prec, elts: seq<Expr>, more: seq<Token>)
    requires k <= 2 && elts != [] && WellFormed(elts[0]) && Level(elts[0]) < TEST && !(k == 1 && elts[0].NamedExpr?)
    ensures var r := ParseItem(k, K(BareElements(elts, 0)) + more); r.Parsed? ==> r.value != elts[0]
  {
    var rest := if |elts| == 1 then more else [Comma] + (K(PrintElements(elts[1..])) + more);
    if |elts| > 1 {
      SplitAround(Body(elts[0]), COMMA, PrintElements(elts[1..]), more);
    }
    ItemNever(k, elts[0], rest);
  }

  lemma PrintedHead(k: Prec, elts: seq<Expr>, i: nat, more: seq<Token>)
    requires k <= 2 && 0 < i < |elts| && WellFormed(elts[0])
    ensures ParseItem(k, K(BareElements(elts, i)) + more)
         == Parsed(elts[0], [Comma] + (K(BareElements(elts[1..], i - 1)) + more))
    ensures var ts := K(BareElements(elts, i)) + more; ts != [] && StartsAt(ts[0]) != 0
  {
    var ts := K(BareElements(elts, i)) + more;
    var rest := [Comma] + (K(BareElements(elts[1..], i - 1)) + more);
    SplitAround(Print(elts[0], TEST), COMMA, BareElements(elts[1..], i - 1), more);
    PrintParses(elts[0], TEST, TEST, rest);
    Starts(TEST, ts);
    ItemIsTest(k, ts, elts[0], rest);
  }

  lemma {:induction false} LaterElementNever(k: Prec, elts: seq<Expr>, i: nat, more: seq<Token>)
    requires k <= 2 && i < |elts| && (forall v :: v in elts ==> WellFormed(v))
    requires Level(elts[i]) < TEST && !(k == 1 && elts[i].NamedExpr?)
    ensures var r := ParseMore(k, [Comma] + (K(BareElements(elts, i)) + more)); r.Parsed? ==> r.value != elts
    decreases i
  {
    var ts := K(BareElements(elts, i)) + more;
    if i == 0 {
      BareHead(k, elts, more);
      FirstDiffers(k, ts, elts);
    } else {
      PrintedHead(k, elts, i, more);
      LaterElementNever(k, elts[1..], i - 1, more);
      OthersDiffer(k, ts, elts, [Comma] + (K(BareElements(elts[1..], i - 1)) + more));
    }
  }

  lemma FirstDiffers(k: Prec, ts: seq<Token>, elts: seq<Expr>)
    requires k <= 2 && elts != [] && (var r := ParseItem(k, ts); r.Parsed? ==> r.value != elts[0])
    ensures var r := ParseMore(k, [Comma] + ts); r.Parsed? ==> r.value != elts
  {
    Tail(Comma, ts);
    var r := ParseItem(k, ts);
    if r.Parsed? {
      var more := ParseMore(k, r.rest);
      assert more.Parsed? ==> ([r.value] + more.value)[0] == r.value;
    }
  }

  lemma OthersDiffer(k: Prec, ts: seq<Token>, elts: seq<Expr>, rest: seq<Token>)
    requires k <= 2 && elts != [] && ParseItem(k, ts) == Parsed(elts[0], rest)
    requires var r := ParseMore(k, rest); r.Parsed? ==> r.value != elts[1..]
    ensures var r := ParseMore(k, [Comma] + ts); r.Parsed? ==> r.value != elts
  {
    Tail(Comma, ts);
    var more := ParseMore(k, rest);
    assert more.Parsed? ==> ([elts[0]] + more.value)[1..] == more.value;
  }

  /** What is read for a tuple or between the brackets of a list: an item, and more after commas */
  ghost predicate ItemsDiffer(k: Prec, ts: seq<Token>, elts: seq<Expr>)
    requires k <= 2
  {
    var r := ParseItem(k, ts);
    r.Parsed? ==> var more := ParseMore(k, r.rest); more.Parsed? ==> [r.value] + more.value != elts
  }

  lemma ElementNever(k: Prec, elts: seq<Expr>, i: nat, more: seq<Token>)
    requires k <= 2 && i < |elts| && (forall v :: v in elts ==> WellFormed(v))
    requires Level(elts[i]) < TEST && !(k == 1 && elts[i].NamedExpr?)
    ensures ItemsDiffer(k, K(BareElements(elts, i)) + more, elts)
  {
    if i == 0 {
      BareHead(k, elts, more);
      FirstOfItems(k, K(BareElements(elts, i)) + more, elts);
    } else {
      LaterOfItems(k, elts, i, more);
    }
  }

  lemma LaterOfItems(k: Prec, elts: seq<Expr>, i: nat, more: seq<Token>)
    requires k <= 2 && 0 < i < |elts| && (forall v :: v in elts ==> WellFormed(v))
    requires Level(elts[i]) < TEST && !(k == 1 && elts[i].NamedExpr?)
    ensures ItemsDiffer(k, K(BareElements(elts, i)) + more, elts)
  {
    PrintedHead(k, elts, i, more);
    LaterElementNever(k, elts[1..], i - 1, more);
    OthersOfItems(k, K(BareElements(elts, i)) + more, elts, [Comma] + (K(BareElements(elts[1..], i - 1)) + more));
  }

  lemma FirstOfItems(k: Prec, ts: seq<Token>, elts: seq<Expr>)
    requires k <= 2 && elts != [] && (var r := ParseItem(k, ts); r.Parsed? ==> r.value != elts[0])
    ensures ItemsDiffer(k, ts, elts)
  {
    var r := ParseItem(k, ts);
    if r.Parsed? {
      var more := ParseMore(k, r.rest);
      assert more.Parsed? ==> ([r.value] + more.value)[0] == r.value;
    }
  }

  lemma OthersOfItems(k: Prec, ts: seq<Token>, elts: seq<Expr>, rest: seq<Token>)
    requires k <= 2 && elts != [] && ParseItem(k, ts) == Parsed(elts[0], rest)
    requires var r := ParseMore(k, rest); r.Parsed? ==> r.value != elts[1..]
    ensures ItemsDiffer(k, ts, elts)
  {
    var more := ParseMore(k, rest);
    assert more.Parsed? ==> ([elts[0]] + more.value)[1..] == more.value;
  }

  // ----- Tuples -----

  lemma TupleNever(e: Expr, i: nat, more: seq<Token>)
    requires WellFormed(e) && e.Tuple? && i < |e.elts| && Level(e.elts[i]) < TEST
    ensures NotRead(Level(e), K(Bare(e, i)) + more, e)
  {
    var ts := K(BareItems(e.elts, i)) + more;
    TupleNotGrouped(e, i, more);
    TighterIsNot(TEST, ts, e);
    if |e.elts| == 1 {
      SplitLast(Body(e.elts[0]), Tight(Comma), more);
      ItemNever(TUPLE, e.elts[0], [Comma] + more);
      FirstOfItems(TUPLE, ts, e.elts);
    } else {
      ElementNever(TUPLE, e.elts, i, more);
    }
  }

  lemma TupleNotGrouped(e: Expr, i: nat, more: seq<Token>)
    requires WellFormed(e) && e.Tuple? && i < |e.elts|
    ensures NotGrouped(K(BareItems(e.elts, i)) + more, e)
  {
    var c := e.elts[0];
    var first := if i == 0 then Body(c) else Print(c, TEST);
    var rest := BareItems(e.elts, i)[|first|..];
    assert BareItems(e.elts, i) == first + rest;
    Split2(first, rest, more);
    if i == 0 {
      BareStarts(c, K(rest) + more, e);
    } else {
      PrintNotGrouped(c, TEST, K(rest) + more, e);
    }
  }

  // ----- Lists -----

  lemma ListNever(e: Expr, i: nat, more: seq<Token>)
    requires WellFormed(e) && e.List? && i < |e.items| && Level(e.items[i]) < TEST && !e.items[i].NamedExpr?
    ensures NotRead(Level(e), K(Bare(e, i)) + more, e)
  {
    var items := BareElements(e.items, i);
    var ts := K(items) + ([RBracket] + more);
    SplitEnclosed(Tight(LBracket), items, Tight(RBracket), more);
    ElementNever(NAMED_EXPR, e.items, i, [RBracket] + more);
    ListDiffers(e, ts);
  }

  lemma ListDiffers(e: Expr, ts: seq<Token>)
    requires e.List? && e.items != [] && ItemsDiffer(NAMED_EXPR, ts, e.items)
    ensures NotRead(ATOM, [LBracket] + ts, e)
  {
    var r := ParseAtom([LBracket] + ts);
    ListIsOther(e, ts);
    if r.Parsed? && ParseTrailers(r.value, r.rest).Parsed? {
      TrailersBuild(r.value, r.rest);
    }
  }

  lemma ListIsOther(e: Expr, ts: seq<Token>)
    requires e.List? && e.items != [] && ItemsDiffer(NAMED_EXPR, ts, e.items)
    ensures var r := ParseAtom([LBracket] + ts); r.Parsed? ==> r.value.List? && r.value != e
  {
    Tail(LBracket, ts);
    assert ParseAtom([LBracket] + ts) == ParseList(ts);
  }

  lemma WalrusHead(elts: seq<Expr>, rest: seq<Token>)
    requires |elts| > 1 && (forall v :: v in elts ==> WellFormed(v)) && elts[0].NamedExpr? && Sees(rest, RBracket)
    ensures ElementsAre(K(BareElements(elts, 0)) + rest, elts, rest)
  {
    var others := K(PrintElements(elts[1..])) + rest;
    SplitAround(Body(elts[0]), COMMA, PrintElements(elts[1..]), rest);
    ElementsGoOn(elts[1..], rest);
    WalrusBefore(K(Body(elts[0])) + ([Comma] + others), elts, others, rest);
  }

  lemma WalrusBefore(ts: seq<Token>, elts: seq<Expr>, others: seq<Token>, rest: seq<Token>)
    requires |elts| > 1 && elts[0].NamedExpr? && WellFormed(elts[0]) && ts == K(Body(elts[0])) + ([Comma] + others)
    requires ElementsAre(others, elts[1..], rest)
    ensures ElementsAre(ts, elts, rest)
  {
    WalrusReads(elts[0], [Comma] + others);
    ElementsMore(ts, elts, others, rest);
  }

  lemma {:induction false} LaterElementReads(elts: seq<Expr>, i: nat, rest: seq<Token>)
    requires i < |elts| && (forall v :: v in elts ==> WellFormed(v)) && elts[i].NamedExpr?
    requires Sees(rest, RBracket)
    ensures ElementsAre(K(BareElements(elts, i)) + rest, elts, rest)
    decreases i
  {
    if |elts| == 1 {
      WalrusReads(elts[0], rest);
    } else if i == 0 {
      WalrusHead(elts, rest);
    } else {
      LaterElementReads(elts[1..], i - 1, rest);
      PrintedHead(NAMED_EXPR, elts, i, rest);
      ElementsMore(K(BareElements(elts, i)) + rest, elts, K(BareElements(elts[1..], i - 1)) + rest, rest);
    }
  }

  /** ts is read as these items between brackets. */
  ghost predicate ElementsAre(ts: seq<Token>, elts: seq<Expr>, rest: seq<Token>) {
    && elts != [] && ts != [] && StartsAt(ts[0]) != 0
    && var r := ParseItem(NAMED_EXPR, ts);
      r.Parsed? && r.value == elts[0] && ParseMore(NAMED_EXPR, r.rest) == Parsed(elts[1..], rest)
  }

  lemma ElementsGoOn(elts: seq<Expr>, rest: seq<Token>)
    requires elts != [] && (forall v :: v in elts ==> WellFormed(v)) && Sees(rest, RBracket)
    ensures ElementsAre(K(PrintElements(elts)) + rest, elts, rest)
  {
    var more := ElementsParse(NAMED_EXPR, elts, rest);
  }

  lemma ElementsMore(ts: seq<Token>, elts: seq<Expr>, others: seq<Token>, rest: seq<Token>)
    requires |elts| > 1 && ts != [] && StartsAt(ts[0]) != 0
    requires ParseItem(NAMED_EXPR, ts) == Parsed(elts[0], [Comma] + others) && ElementsAre(others, elts[1..], rest)
    ensures ElementsAre(ts, elts, rest)
  {
    MoreStep(NAMED_EXPR, others, elts[1..], ParseItem(NAMED_EXPR, others).rest, rest);
  }

  lemma ListIs(ts: seq<Token>, items: seq<Expr>, rest: seq<Token>)
    requires ElementsAre(ts, items, [RBracket] + rest)
    ensures ParsePrimary([LBracket] + ts) == ParseTrailers(List(items), rest)
  {
    ListStep(ts, items, ParseItem(NAMED_EXPR, ts).rest, rest);
  }

  lemma BracketsRead(pieces: seq<Piece>, items: seq<Expr>)
    requires ElementsAre(K(pieces) + ([RBracket] + []), items, [RBracket] + [])
    ensures ParsePrimary(K([Tight(LBracket)] + pieces + [Tight(RBracket)]) + []) == ParseTrailers(List(items), [])
  {
    SplitEnclosed(Tight(LBracket), pieces, Tight(RBracket), []);
    ListIs(K(pieces) + ([RBracket] + []), items, []);
  }

  lemma WalrusInList(e: Expr, i: nat)
    requires WellFormed(e) && e.List? && i < |e.items| && e.items[i].NamedExpr?
    ensures Parse(Level(e), K(Bare(e, i)) + []) == Parsed(e, [])
  {
    BracketsAroundWalrus(e.items, i);
    assert Bare(e, i) == [Tight(LBracket)] + BareElements(e.items, i) + [Tight(RBracket)];
  }

  lemma BracketsAroundWalrus(items: seq<Expr>, i: nat)
    requires i < |items| && (forall v :: v in items ==> WellFormed(v)) && items[i].NamedExpr?
    ensures Parse(ATOM, K([Tight(LBracket)] + BareElements(items, i) + [Tight(RBracket)]) + [])
         == Parsed(List(items), [])
  {
    LaterElementReads(items, i, [RBracket] + []);
    BracketsRead(BareElements(items, i), items);
    PrimaryEnds(K([Tight(LBracket)] + BareElements(items, i) + [Tight(RBracket)]) + [], List(items));
  }
}
