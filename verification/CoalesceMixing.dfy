/** `??` next to `||` or `&&`: the root-only checks keep every accepted tree free of bare mixtures. */
module CoalesceMixing {
  import opened Expressions
  import opened Canonical
  import opened PrecedenceClimbing
  import opened Reassociation
  import opened ExpressionParser

  predicate Mixed(p: Operator, q: Operator) {
    (p == NullishCoalescing && OrAnd(q)) || (OrAnd(p) && q == NullishCoalescing)
  }

  /** Nowhere in the tree, groups and arms included, does a bare `??` meet a `||` or `&&` as parent or child. */
  predicate MixFree(e: Expr) {
    match e
    case Operand(_, _, _) => true
    case Unary(_, argument, _) => MixFree(argument)
    case Conditional(test, consequent, alternate, _) => MixFree(test) && MixFree(consequent) && MixFree(alternate)
    case Binop(op, left, right, _) =>
      && MixFree(left) && MixFree(right)
      && (Open(left) ==> !Mixed(op, left.op))
      && (Open(right) ==> !Mixed(op, right.op))
  }

  /** What the check at the root says about the next node of the spine, and about `op` below the root. */
  lemma RootsBelow(op: Operator, right: Expr)
    requires Amendable(right, op) && IsCanonical(right) && MixFree(right) && !RootsMix(op, right)
    ensures !RootsMix(op, right.left) && !Mixed(right.op, op)
  {
  }

  lemma {:induction false} SpliceKeepsMixFree(left: Expr, op: Operator, right: Expr)
    requires Closed(left) && MixFree(left) && MixFree(right) && IsCanonical(right)
    requires !RootsMix(op, right)
    ensures MixFree(Splice(left, op, right))
  {
    hide Ops, Units;
    if Amendable(right, op) {
      RootsBelow(op, right);
      hide Amendable, RootsMix, FitsLeft, FitsRight, Precedence;
      SpliceKeepsMixFree(left, op, right.left);
      SpliceIsCanonical(left, op, right.left);
      SpliceConserves(left, op, right.left);
    }
  }

  lemma {:induction false} ReassociateKeepsMixFree(c: Chain)
    requires IsChain(c) && Reassociate(c).Ok?
    requires MixFree(c.first) && forall l :: l in c.links ==> MixFree(l.operand)
    ensures MixFree(Reassociate(c).value)
    decreases |c.links|
  {
    if c.links != [] {
      ReassociateKeepsMixFree(Tail(c));
      ReassociateIsCanonical(Tail(c));
      SpliceKeepsMixFree(c.first, c.links[0].op, Reassociate(Tail(c)).value);
    }
  }

  /** Every accepted expression is free of bare mixtures. */
  lemma AcceptedIsMixFree(toks: Tokens, pos: nat)
    requires ParseExpression(toks, pos).Ok?
    ensures MixFree(ParseExpression(toks, pos).value.e)
  {
    ParserRefinesReference(toks, pos);
    ExpressionIsMixFree(toks, pos);
  }

  lemma {:induction false} ExpressionIsMixFree(toks: Tokens, pos: nat)
    requires RefExpression(toks, pos).Ok?
    ensures MixFree(RefExpression(toks, pos).value.e)
    decreases |toks| - pos, 3
  {
    var c := RefChain(toks, pos).value;
    ChainsAreChains(toks, pos);
    ChainIsMixFree(toks, pos);
    AcceptsIff(c.chain);
    ReassociateKeepsMixFree(c.chain);
    ReassociateIsClimbing(c.chain);
    ConditionalIsMixFree(toks, ClimbAll(c.chain), c.next);
  }

  lemma {:induction false} ConditionalIsMixFree(toks: Tokens, test: Expr, pos: nat)
    requires RefConditional(toks, test, pos).Ok? && MixFree(test)
    ensures MixFree(RefConditional(toks, test, pos).value.e)
    decreases |toks| - pos, 4
  {
    if TokenAt(toks, pos) == QuestionMark {
      ExpressionIsMixFree(toks, pos + 1);
      ExpressionIsMixFree(toks, RefExpression(toks, pos + 1).value.next + 1);
    }
  }

  lemma {:induction false} ChainIsMixFree(toks: Tokens, pos: nat)
    requires RefChain(toks, pos).Ok?
    ensures var c := RefChain(toks, pos).value.chain;
      MixFree(c.first) && forall l :: l in c.links ==> MixFree(l.operand)
    decreases |toks| - pos, 2
  {
    OperandIsMixFree(toks, pos);
    var u := RefOperand(toks, pos).value;
    if TokenAt(toks, u.next).Binary? {
      ChainIsMixFree(toks, u.next + 1);
    }
  }

  lemma {:induction false} OperandIsMixFree(toks: Tokens, pos: nat)
    requires RefOperand(toks, pos).Ok?
    ensures MixFree(RefOperand(toks, pos).value.e)
    decreases |toks| - pos, 1
  {
    var t := TokenAt(toks, pos);
    if t == LeftParenthesis {
      ExpressionIsMixFree(toks, pos + 1);
    } else if IsUnaryToken(t) {
      OperandIsMixFree(toks, pos + 1);
    }
  }
}
