/** The parentheses around the operands of a node are those that are needed, and the ones that are listed. */
module MinimalParentheses {
  import opened Basics
  import opened Expressions
  import opened ExpressionParser
  import opened ExpressionRoundTrip
  import opened OperandParentheses
  import opened BareOperands
  import opened BareArguments

  /** Without the parentheses of operand i, the tokens of e are still read as e. */
  predicate ReadsBack(e: Expr, i: nat)
    requires Child(e, i).Some?
  {
    Parse(Level(e), K(Bare(e, i))) == Parsed(e, [])
  }

  lemma NeverReadsBack(e: Expr, i: nat)
    requires Child(e, i).Some? && NotRead(Level(e), K(Bare(e, i)) + [], e)
    ensures !ReadsBack(e, i)
  {
    assert K(Bare(e, i)) + [] == K(Bare(e, i));
  }

  lemma DoesReadBack(e: Expr, i: nat)
    requires Child(e, i).Some? && Parse(Level(e), K(Bare(e, i)) + []) == Parsed(e, [])
    ensures ReadsBack(e, i)
  {
    assert K(Bare(e, i)) + [] == K(Bare(e, i));
  }

  // ----- Operands that are not accepted bare -----

  lemma BinaryNever(e: Expr, i: nat)
    requires WellFormed(e) && e.BinOp? && i <= 1 && !Accepts(e, i)
    ensures NotRead(Level(e), K(Bare(e, i)) + [], e)
  {
    if e.op == Pow {
      if i == 0 {
        PowerLeftNever(e, []);
      } else {
        PowerRightNever(e, []);
      }
    } else if i == 0 {
      LeftNever(e, []);
    } else {
      RightNever(e, []);
    }
  }

  lemma ChainNever(e: Expr, i: nat)
    requires WellFormed(e) && (e.Compare? || e.BoolOp?) && Child(e, i).Some? && !Accepts(e, i)
    ensures NotRead(Level(e), K(Bare(e, i)) + [], e)
  {
    if e.Compare? {
      if i == 0 {
        FirstNever(e, []);
      } else {
        LinkNever(e, i, []);
      }
    } else if i == 0 {
      FirstValueNever(e, []);
    } else {
      ValueNever(e, i, []);
    }
  }

  lemma CallOperandNever(e: Expr, i: nat)
    requires WellFormed(e) && e.Call? && Child(e, i).Some? && !Accepts(e, i)
    ensures NotRead(Level(e), K(Bare(e, i)) + [], e)
  {
    if i == 0 {
      BareBaseNever(e, []);
    } else if i <= |e.args| {
      ArgNever(e, i - 1, []);
    } else {
      KeywordNever(e, i - 1 - |e.args|, []);
    }
  }

  lemma LambdaNever(e: Expr, i: nat)
    requires WellFormed(e) && e.Lambda? && Child(e, i).Some? && !Accepts(e, i)
    ensures NotRead(Level(e), K(Bare(e, i)) + [], e)
  {
    if i == 0 {
      ResultNever(e, []);
    } else {
      DefaultNever(e, i, []);
    }
  }

  /** A trailer's operand, an item, or the only operand */
  lemma OtherNever(e: Expr, i: nat)
    requires WellFormed(e) && Child(e, i).Some? && !Accepts(e, i)
    requires e.UnaryOp? || e.Attribute? || e.Subscript? || e.Tuple? || e.List? || e.NamedExpr?
    ensures NotRead(Level(e), K(Bare(e, i)) + [], e)
  {
    if e.UnaryOp? {
      UnaryNever(e, []);
    } else if e.Tuple? {
      TupleNever(e, i, []);
    } else if e.List? {
      ListNever(e, i, []);
    } else if e.NamedExpr? {
      BoundNever(e, []);
    } else {
      BareBaseNever(e, []);
    }
  }

  lemma RefusedBare(e: Expr, i: nat)
    requires WellFormed(e) && Child(e, i).Some? && !Accepts(e, i)
    ensures !ReadsBack(e, i)
  {
    if e.BinOp? {
      BinaryNever(e, i);
    } else if e.Compare? || e.BoolOp? {
      ChainNever(e, i);
    } else if e.IfExp? {
      ConditionalNever(e, i, []);
    } else if e.Call? {
      CallOperandNever(e, i);
    } else if e.Lambda? {
      LambdaNever(e, i);
    } else {
      OtherNever(e, i);
    }
    NeverReadsBack(e, i);
  }

  // ----- Operands that are accepted bare -----

  lemma NeedlessReads(e: Expr, i: nat)
    requires WellFormed(e) && Child(e, i).Some? && Needless(e, i)
    ensures ReadsBack(e, i)
  {
    if e.BinOp? {
      SignReads(e);
    } else if e.BoolOp? {
      ValueReads(e, i);
    } else if e.NamedExpr? {
      BoundReads(e);
    } else if e.List? {
      WalrusInList(e, i);
    } else if e.Call? {
      WalrusInCall(e, i - 1);
    } else {
      SliceReads(e);
    }
    DoesReadBack(e, i);
  }

  lemma WrittenReads(e: Expr, i: nat)
    requires WellFormed(e) && Child(e, i).Some? && Accepts(e, i) && !Needless(e, i)
    ensures ReadsBack(e, i)
  {
    WrittenBare(e, i);
    RoundTrip(e, Level(e));
  }

  // ----- The main results -----

  /** A node is read back with operand i bare if and only if the rule of the grammar there accepts the operand. */
  lemma BareOperand(e: Expr, i: nat)
    requires WellFormed(e) && Child(e, i).Some?
    ensures Parse(Level(e), K(Bare(e, i))) == Parsed(e, []) <==> Accepts(e, i)
  {
    if !Accepts(e, i) {
      RefusedBare(e, i);
    } else if Needless(e, i) {
      NeedlessReads(e, i);
    } else {
      WrittenReads(e, i);
    }
    assert ReadsBack(e, i) <==> Accepts(e, i);
  }

  /** An operand is written in parentheses if and only if without them the tokens of the node do not parse to it at its
      level, or it is one of the listed operands; these would parse without them. */
  lemma ParenthesesAreNeeded(e: Expr, i: nat)
    requires WellFormed(e) && Child(e, i).Some?
    ensures Body(e) != Bare(e, i) <==> (Parse(Level(e), K(Bare(e, i))) != Parsed(e, []) || Needless(e, i))
    ensures Needless(e, i) ==> Parse(Level(e), K(Bare(e, i))) == Parsed(e, [])
  {
    BareOperand(e, i);
    WrittenBare(e, i);
  }
}
