/** Tokens, operators and expression trees shared by the parser modules. */
module Expressions {

  /** The tokens from `??` to `**` that Token::IsBinaryToken accepts. */
  datatype Operator =
    | NullishCoalescing | LogicalOr | LogicalAnd
    | BitwiseOr | BitwiseXor | BitwiseAnd
    | Equal | NotEqual | StrictEqual | NotStrictEqual
    | LessThan | LessThanEqual | GreaterThan | GreaterThanEqual
    | LeftShift | RightShift | UnsignedRightShift
    | Plus | Minus
    | Multiply | Divide | Mod
    | In | Instanceof
    | Exponentiation

  /** Prefix operators other than `+` and `-`, which are shared with `Operator`. */
  datatype PrefixOperator = Tilde | Exclamation | PlusPlus | MinusMinus | Typeof | Void | Delete | Await

  /** What a left-hand-side expression is, as far as the prefix operators ask. */
  datatype Form = Identifier | Member | Other

  /** A left-hand-side expression other than a parenthesised one arrives as one `Lhs` token. */
  datatype Token =
    | Lhs(id: nat, form: Form)
    | Binary(op: Operator)
    | Prefix(prefix: PrefixOperator)
    | LeftParenthesis | RightParenthesis
    | QuestionMark | Colon
    | Semicolon

  /** The node a prefix operator builds. */
  datatype UnaryKind = Update(increment: bool) | Awaiting | Signed(op: Operator) | Plain(prefix: PrefixOperator)

  datatype Expr =
    | Operand(id: nat, form: Form, grouped: bool)
    | Unary(kind: UnaryKind, argument: Expr, grouped: bool)
    | Binop(op: Operator, left: Expr, right: Expr, grouped: bool)
    | Conditional(test: Expr, consequent: Expr, alternate: Expr, grouped: bool)

  datatype Result<+T> = Ok(value: T) | Err {
    predicate IsFailure() {
      Err?
    }

    function PropagateFailure<U>(): Result<U>
      requires Err?
    {
      Err
    }

    function Extract(): T
      requires Ok?
    {
      value
    }
  }

  function Precedence(op: Operator): (p: nat)
    ensures 1 <= p <= 11
    ensures p == 1 <==> op == NullishCoalescing
    ensures p == 11 <==> op == Exponentiation
  {
    match op
    case NullishCoalescing => 1
    case LogicalOr => 2
    case LogicalAnd => 3
    case BitwiseOr => 3
    case BitwiseXor => 4
    case BitwiseAnd => 5
    case Equal => 6
    case NotEqual => 6
    case StrictEqual => 6
    case NotStrictEqual => 6
    case LessThan => 7
    case LessThanEqual => 7
    case GreaterThan => 7
    case GreaterThanEqual => 7
    case Instanceof => 7
    case In => 7
    case LeftShift => 8
    case RightShift => 8
    case UnsignedRightShift => 8
    case Plus => 9
    case Minus => 9
    case Multiply => 10
    case Divide => 10
    case Mod => 10
    case Exponentiation => 11
  }

  predicate OrAnd(op: Operator) {
    op == LogicalOr || op == LogicalAnd
  }

  /** BinaryExpression::IsLogical: the first three binary tokens. */
  predicate IsLogical(op: Operator) {
    op == NullishCoalescing || OrAnd(op)
  }

  /** An ungrouped binary node, the only kind of node the splice may enter. */
  predicate Open(e: Expr) {
    e.Binop? && !e.grouped
  }

  /** The lifted case: an ungrouped `?:`. */
  predicate OpenConditional(e: Expr) {
    e.Conditional? && !e.grouped
  }

  predicate ShouldBeAmended(node: Expr, op: Operator)
    requires node.Binop?
  {
    && Precedence(node.op) <= Precedence(op)
    && !node.grouped
    && (op != Exponentiation || node.op != Exponentiation)
  }

  predicate Amendable(e: Expr, op: Operator) {
    e.Binop? && ShouldBeAmended(e, op)
  }

  /** The operands and operators of a chain, left to right; grouped nodes count as operands. */
  function Units(e: Expr): (us: seq<Expr>)
    ensures |us| == |Ops(e)| + 1
  {
    if Open(e) then Units(e.left) + Units(e.right) else [e]
  }

  function Ops(e: Expr): seq<Operator> {
    if Open(e) then Ops(e.left) + [e.op] + Ops(e.right) else []
  }
}
