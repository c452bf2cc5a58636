/**
 * The recursive expression parser on whole token sequences, and the reference grammar it refines:
 * collect a chain of operands and operators, climb precedences, then look for `?`.
 */
module ExpressionParser {
  import opened Expressions
  import opened PrecedenceClimbing
  import opened Reassociation

  type Tokens = seq<Token>

  datatype Parsed = Parsed(e: Expr, next: nat)

  datatype Arms = Arms(consequent: Expr, alternate: Expr, next: nat)

  /** The token at `pos`; past the end the lexer keeps reporting a token no expression accepts. */
  function TokenAt(toks: Tokens, pos: nat): Token {
    if pos < |toks| then toks[pos] else Semicolon
  }

  /** Token::IsUnary. */
  predicate IsUnaryToken(t: Token) {
    t.Prefix? || t == Binary(Plus) || t == Binary(Minus)
  }

  /** What the prefix operators ask of their argument. */
  function FormOf(e: Expr): Form {
    if e.Operand? then e.form else Other
  }

  /** The kind of node a prefix operator builds, or the syntax error its argument causes. */
  function UnaryKindOf(t: Token, argument: Form): Result<UnaryKind>
    requires IsUnaryToken(t)
  {
    match t
    case Binary(op) => Ok(Signed(op))
    case Prefix(p) =>
      if p == PlusPlus || p == MinusMinus then
        if argument != Other then Ok(Update(p == PlusPlus)) else Err
      else if p == Delete && argument == Identifier then
        Err
      else
        Ok(if p == Await then Awaiting else Plain(p))
  }

  function MakeUnary(t: Token, argument: Expr): Result<Expr>
    requires IsUnaryToken(t)
  {
    var kind :- UnaryKindOf(t, FormOf(argument));
    Ok(Unary(kind, argument, false))
  }

  // ---- The parser as the source has it.

  function ParseExpression(toks: Tokens, pos: nat): (r: Result<Parsed>)
    ensures r.Ok? ==> pos < r.value.next <= |toks|
    decreases |toks| - pos, 2
  {
    var u :- ParseUnary(toks, pos);
    ParseAssignment(toks, u.e, u.next)
  }

  function ParseUnary(toks: Tokens, pos: nat): (r: Result<Parsed>)
    ensures r.Ok? ==> pos < r.value.next <= |toks|
    decreases |toks| - pos, 1
  {
    var t := TokenAt(toks, pos);
    if IsUnaryToken(t) then
      var u :- ParseUnary(toks, pos + 1);
      var e :- MakeUnary(t, u.e);
      Ok(Parsed(e, u.next))
    else if t.Lhs? then
      Ok(Parsed(Operand(t.id, t.form, false), pos + 1))
    else if t == LeftParenthesis then
      var p :- ParseExpression(toks, pos + 1);
      if TokenAt(toks, p.next) == RightParenthesis then
        Ok(Parsed(p.e.(grouped := true), p.next + 1))
      else
        Err
    else
      Err
  }

  function ParseAssignment(toks: Tokens, lhs: Expr, pos: nat): (r: Result<Parsed>)
    requires pos <= |toks|
    ensures r.Ok? ==> pos <= r.value.next <= |toks|
    decreases |toks| - pos, 1
  {
    match TokenAt(toks, pos)
    case QuestionMark =>
      var arms :- ParseArms(toks, pos + 1);
      Ok(Parsed(Conditional(lhs, arms.consequent, arms.alternate, false), arms.next))
    case Binary(_) =>
      var b :- ParseBinary(toks, lhs, pos);
      ParseAssignment(toks, b.e, b.next)
    case _ => Ok(Parsed(lhs, pos))
  }

  /** `consequent : alternate` */
  function ParseArms(toks: Tokens, pos: nat): (r: Result<Arms>)
    ensures r.Ok? ==> pos < r.value.next <= |toks|
    decreases |toks| - pos, 3
  {
    var yes :- ParseExpression(toks, pos);
    if TokenAt(toks, yes.next) != Colon then
      Err
    else
      var no :- ParseExpression(toks, yes.next + 1);
      Ok(Arms(yes.e, no.e, no.next))
  }

  function ParseBinary(toks: Tokens, left: Expr, pos: nat): (r: Result<Parsed>)
    requires TokenAt(toks, pos).Binary?
    ensures r.Ok? ==> pos < r.value.next <= |toks|
    decreases |toks| - pos, 0
  {
    var right :- ParseExpression(toks, pos + 1);
    var e :- Attach(left, TokenAt(toks, pos).op, right.e);
    Ok(Parsed(e, right.next))
  }

  // ---- The reference grammar.

  datatype ParsedChain = ParsedChain(chain: Chain, next: nat)

  function RefExpression(toks: Tokens, pos: nat): (r: Result<Parsed>)
    ensures r.Ok? ==> pos < r.value.next <= |toks|
    decreases |toks| - pos, 2
  {
    var c :- RefChain(toks, pos);
    RefFinish(toks, c)
  }

  /** Build the chain's tree, then read a `?:` if one follows. */
  function RefFinish(toks: Tokens, c: ParsedChain): (r: Result<Parsed>)
    ensures r.Ok? && c.next <= |toks| ==> c.next <= r.value.next <= |toks|
    decreases |toks| - c.next, 4
  {
    if ChainAccepted(c.chain) then RefConditional(toks, ClimbAll(c.chain), c.next) else Err
  }

  function RefConditional(toks: Tokens, test: Expr, pos: nat): (r: Result<Parsed>)
    ensures r.Ok? && pos <= |toks| ==> pos <= r.value.next <= |toks|
    decreases |toks| - pos, 3
  {
    if TokenAt(toks, pos) == QuestionMark then
      var arms :- RefArms(toks, pos + 1);
      Ok(Parsed(Conditional(test, arms.consequent, arms.alternate, false), arms.next))
    else
      Ok(Parsed(test, pos))
  }

  function RefArms(toks: Tokens, pos: nat): (r: Result<Arms>)
    ensures r.Ok? ==> pos < r.value.next <= |toks|
    decreases |toks| - pos, 3
  {
    var yes :- RefExpression(toks, pos);
    if TokenAt(toks, yes.next) != Colon then
      Err
    else
      var no :- RefExpression(toks, yes.next + 1);
      Ok(Arms(yes.e, no.e, no.next))
  }

  /** Operands separated by operators, as many as there are. */
  function RefChain(toks: Tokens, pos: nat): (r: Result<ParsedChain>)
    ensures r.Ok? ==> pos < r.value.next <= |toks|
    decreases |toks| - pos, 1
  {
    var u :- RefOperand(toks, pos);
    var t := TokenAt(toks, u.next);
    if t.Binary? then
      var c :- RefChain(toks, u.next + 1);
      Ok(ParsedChain(Chain(u.e, [Link(t.op, c.chain.first)] + c.chain.links), c.next))
    else
      Ok(ParsedChain(Chain(u.e, []), u.next))
  }

  function RefOperand(toks: Tokens, pos: nat): (r: Result<Parsed>)
    ensures r.Ok? ==> pos < r.value.next <= |toks|
    decreases |toks| - pos, 0
  {
    var t := TokenAt(toks, pos);
    if t.Lhs? then
      Ok(Parsed(Operand(t.id, t.form, false), pos + 1))
    else if t == LeftParenthesis then
      var p :- RefExpression(toks, pos + 1);
      if TokenAt(toks, p.next) == RightParenthesis then
        Ok(Parsed(p.e.(grouped := true), p.next + 1))
      else
        Err
    else if IsUnaryToken(t) then
      var u :- RefOperand(toks, pos + 1);
      var e :- MakeUnary(t, u.e);
      Ok(Parsed(e, u.next))
    else
      Err
  }

  // ---- The refinement.

  /** The reference result, given that the first operand `u` ends at `pos`. */
  function RefAfterOperand(toks: Tokens, u: Expr, pos: nat): Result<Parsed>
    requires pos <= |toks|
  {
    var t := TokenAt(toks, pos);
    if t.Binary? then
      var tail :- RefChain(toks, pos + 1);
      RefFinish(toks, ParsedChain(Chain(u, [Link(t.op, tail.chain.first)] + tail.chain.links), tail.next))
    else
      RefFinish(toks, ParsedChain(Chain(u, []), pos))
  }

  lemma ExpressionFromOperand(toks: Tokens, pos: nat)
    ensures RefExpression(toks, pos) ==
      match RefOperand(toks, pos)
      case Ok(u) => RefAfterOperand(toks, u.e, u.next)
      case Err => Err
  {
    hide RefExpression, RefFinish, RefOperand;
    ExpressionIsFinish(toks, pos);
  }

  /** On every token sequence and from every position the two parsers agree, trees and rejections alike. */
  lemma {:induction false} ParserRefinesReference(toks: Tokens, pos: nat)
    ensures ParseExpression(toks, pos) == RefExpression(toks, pos)
    decreases |toks| - pos, 2
  {
    UnaryRefinesOperand(toks, pos);
    ExpressionFromOperand(toks, pos);
    if RefOperand(toks, pos).Ok? {
      var u := RefOperand(toks, pos).value;
      OperandsAreClosed(toks, pos);
      AssignmentRefines(toks, u.e, u.next);
    }
  }

  lemma {:induction false} AssignmentRefines(toks: Tokens, u: Expr, pos: nat)
    requires pos <= |toks| && Closed(u)
    ensures ParseAssignment(toks, u, pos) == RefAfterOperand(toks, u, pos)
    decreases |toks| - pos, 3
  {
    if TokenAt(toks, pos).Binary? {
      ParserRefinesReference(toks, pos + 1);
      OperatorCase(toks, u, pos);
    } else {
      ConditionalRefines(toks, u, pos);
    }
  }

  lemma {:induction false} ConditionalRefines(toks: Tokens, u: Expr, pos: nat)
    requires pos <= |toks| && !TokenAt(toks, pos).Binary?
    ensures ParseAssignment(toks, u, pos) == RefConditional(toks, u, pos)
    decreases |toks| - pos, 2
  {
    if TokenAt(toks, pos) == QuestionMark {
      ArmsRefine(toks, pos + 1);
    }
  }

  lemma {:induction false} ArmsRefine(toks: Tokens, pos: nat)
    ensures ParseArms(toks, pos) == RefArms(toks, pos)
    decreases |toks| - pos, 4
  {
    hide ParseExpression, RefExpression;
    ParserRefinesReference(toks, pos);
    if RefExpression(toks, pos).Ok? {
      ParserRefinesReference(toks, RefExpression(toks, pos).value.next + 1);
    }
  }

  /** A longer chain: the tail is parsed as an expression of its own and `u op` attached to it. */
  lemma OperatorCase(toks: Tokens, u: Expr, pos: nat)
    requires Closed(u) && TokenAt(toks, pos).Binary?
    requires ParseExpression(toks, pos + 1) == RefExpression(toks, pos + 1)
    ensures ParseAssignment(toks, u, pos) == RefAfterOperand(toks, u, pos)
  {
    var r := AttachParsed(u, TokenAt(toks, pos).op, ParseExpression(toks, pos + 1));
    AfterOperandAttaches(toks, u, pos);
    if r.Ok? {
      NothingFollows(toks, u, pos, r.value);
    }
  }

  /** After the right-hand side, ParseAssignment finds neither an operator nor a `?`. */
  lemma NothingFollows(toks: Tokens, u: Expr, pos: nat, b: Parsed)
    requires TokenAt(toks, pos).Binary?
    requires ParseExpression(toks, pos + 1) == RefExpression(toks, pos + 1)
    requires AttachParsed(u, TokenAt(toks, pos).op, ParseExpression(toks, pos + 1)) == Ok(b)
    ensures ParseAssignment(toks, b.e, b.next) == Ok(b)
  {
    StopsAfter(toks, pos + 1);
  }

  lemma AfterOperandAttaches(toks: Tokens, u: Expr, pos: nat)
    requires Closed(u) && TokenAt(toks, pos).Binary?
    ensures RefAfterOperand(toks, u, pos) == AttachParsed(u, TokenAt(toks, pos).op, RefExpression(toks, pos + 1))
  {
    var op, tail := TokenAt(toks, pos).op, RefChain(toks, pos + 1);
    ExpressionIsFinish(toks, pos + 1);
    if tail.Ok? {
      ChainsAreChains(toks, pos + 1);
      var c := Chain(u, [Link(op, tail.value.chain.first)] + tail.value.chain.links);
      assert Tail(c) == tail.value.chain;
      FinishExtends(toks, c, tail.value.next);
    }
  }

  lemma ExpressionIsFinish(toks: Tokens, pos: nat)
    ensures RefExpression(toks, pos) ==
      match RefChain(toks, pos)
      case Ok(c) => RefFinish(toks, c)
      case Err => Err
  {
  }

  /** The reference expression of a chain with one more operator in front. */
  lemma FinishExtends(toks: Tokens, c: Chain, next: nat)
    requires IsChain(c) && c.links != []
    ensures RefFinish(toks, ParsedChain(c, next)) ==
      AttachParsed(c.first, c.links[0].op, RefFinish(toks, ParsedChain(Tail(c), next)))
  {
    AttachExtends(c);
    if ChainAccepted(Tail(c)) {
      ConditionalExtends(toks, ClimbAll(Tail(c)), ClimbAll(c), next);
    }
  }

  function AttachParsed(left: Expr, op: Operator, right: Result<Parsed>): Result<Parsed> {
    var r :- right;
    var e :- Attach(left, op, r.e);
    Ok(Parsed(e, r.next))
  }

  lemma ConditionalExtends(toks: Tokens, tail: Expr, tree: Expr, pos: nat)
    ensures RefConditional(toks, tail, pos).Ok? <==> RefConditional(toks, tree, pos).Ok?
    ensures RefConditional(toks, tail, pos).Ok? ==>
      var t, w := RefConditional(toks, tail, pos).value, RefConditional(toks, tree, pos).value;
      && t.next == w.next
      && ((t.e == tail && w.e == tree) ||
          (exists yes, no :: t.e == Conditional(tail, yes, no, false) && w.e == Conditional(tree, yes, no, false)))
  {
  }

  /** One more operator in front: what Attach does to the tree of the tail, with or without a `?:` around it. */
  lemma AttachExtends(c: Chain)
    requires IsChain(c) && c.links != []
    ensures ChainAccepted(c) ==> ChainAccepted(Tail(c))
    ensures ChainAccepted(Tail(c)) ==>
      var tail, op := ClimbAll(Tail(c)), c.links[0].op;
      && Attach(c.first, op, tail) == (if ChainAccepted(c) then Ok(ClimbAll(c)) else Err)
      && forall yes, no :: Attach(c.first, op, Conditional(tail, yes, no, false)) ==
           if ChainAccepted(c) then Ok(Conditional(ClimbAll(c), yes, no, false)) else Err
  {
    AcceptsIff(c);
    AcceptsIff(Tail(c));
    if Reassociate(Tail(c)).Ok? {
      ReassociateIsClimbing(Tail(c));
      ReassociateIsCanonical(Tail(c));
      if Reassociate(c).Ok? {
        ReassociateIsClimbing(c);
      }
    }
  }

  /** An expression ends where no operator and no `?` follows. */
  lemma {:induction false} StopsAfter(toks: Tokens, pos: nat)
    ensures RefExpression(toks, pos).Ok? ==>
      var t := TokenAt(toks, RefExpression(toks, pos).value.next); !t.Binary? && t != QuestionMark
    decreases |toks| - pos
  {
    ChainStops(toks, pos);
    if RefChain(toks, pos).Ok? {
      ConditionalStops(toks, ClimbAll(RefChain(toks, pos).value.chain), RefChain(toks, pos).value.next);
    }
  }

  lemma {:induction false} ConditionalStops(toks: Tokens, test: Expr, pos: nat)
    requires !TokenAt(toks, pos).Binary?
    ensures RefConditional(toks, test, pos).Ok? ==>
      var t := TokenAt(toks, RefConditional(toks, test, pos).value.next); !t.Binary? && t != QuestionMark
    decreases |toks| - pos
  {
    if TokenAt(toks, pos) == QuestionMark && RefArms(toks, pos + 1).Ok? {
      StopsAfter(toks, RefExpression(toks, pos + 1).value.next + 1);
    }
  }

  lemma {:induction false} ChainStops(toks: Tokens, pos: nat)
    ensures RefChain(toks, pos).Ok? ==> !TokenAt(toks, RefChain(toks, pos).value.next).Binary?
    decreases |toks| - pos
  {
    if RefOperand(toks, pos).Ok? {
      var u := RefOperand(toks, pos).value;
      if TokenAt(toks, u.next).Binary? {
        ChainStops(toks, u.next + 1);
      }
    }
  }

  lemma {:induction false} UnaryRefinesOperand(toks: Tokens, pos: nat)
    ensures ParseUnary(toks, pos) == RefOperand(toks, pos)
    decreases |toks| - pos, 1
  {
    var t := TokenAt(toks, pos);
    if IsUnaryToken(t) {
      UnaryRefinesOperand(toks, pos + 1);
    } else if t == LeftParenthesis {
      ParserRefinesReference(toks, pos + 1);
    }
  }

  lemma OperandsAreClosed(toks: Tokens, pos: nat)
    requires RefOperand(toks, pos).Ok?
    ensures Closed(RefOperand(toks, pos).value.e)
  {
  }

  lemma {:induction false} ChainsAreChains(toks: Tokens, pos: nat)
    ensures RefChain(toks, pos).Ok? ==> IsChain(RefChain(toks, pos).value.chain)
    decreases |toks| - pos
  {
    if RefOperand(toks, pos).Ok? {
      var u := RefOperand(toks, pos).value;
      OperandsAreClosed(toks, pos);
      if TokenAt(toks, u.next).Binary? {
        ChainsAreChains(toks, u.next + 1);
      }
    }
  }
}
