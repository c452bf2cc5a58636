/**
 * Operator re-association: everything right of an operator is parsed as a finished tree, and the new
 * `left op` node is then spliced into that tree's left spine.
 */
module Reassociation {
  import opened Expressions
  import opened Canonical

  /** `left op right`, entering the left spine of `right` as long as its nodes should be amended. */
  function Splice(left: Expr, op: Operator, right: Expr): Expr {
    if Amendable(right, op) then
      right.(left := Splice(left, op, right.left))
    else
      Binop(op, left, right, false)
  }

  /** ir::UnaryExpression without parentheses; `++`/`--` and `await` build other nodes. */
  predicate BareUnary(e: Expr) {
    e.Unary? && !e.grouped && (e.kind.Signed? || e.kind.Plain?)
  }

  /** The two checks that `??` is not mixed with `||` or `&&`; both look at the root of `right` only. */
  predicate RootsMix(op: Operator, right: Expr) {
    if Amendable(right, op) then
      OrAnd(op) && right.op == NullishCoalescing
    else
      op == NullishCoalescing && right.Binop? && IsLogical(right.op) && !right.grouped
  }

  /** What ParseBinaryExpression makes of `left`, the operator and the finished right-hand side. */
  function Attach(left: Expr, op: Operator, right: Expr): Result<Expr> {
    if op == Exponentiation && BareUnary(left) then
      Err
    else
      var target := if OpenConditional(right) then right.test else right;
      if RootsMix(op, target) then
        Err
      else
        var tree := Splice(left, op, target);
        Ok(if OpenConditional(right) then right.(test := tree) else tree)
  }

  /** The splice keeps the order of operands and operators, and grouped nodes stay whole. */
  lemma {:induction false} SpliceConserves(left: Expr, op: Operator, right: Expr)
    requires !Open(left)
    ensures Open(Splice(left, op, right))
    ensures Ops(Splice(left, op, right)) == [op] + Ops(right)
    ensures Units(Splice(left, op, right)) == [left] + Units(right)
  {
    if Amendable(right, op) {
      SpliceConserves(left, op, right.left);
    }
  }

  lemma {:induction false} SpliceIsCanonical(left: Expr, op: Operator, right: Expr)
    requires !Open(left) && IsCanonical(right)
    ensures IsCanonical(Splice(left, op, right))
    ensures var root := Splice(left, op, right).op;
      if Amendable(right, op) then root == right.op else root == op
  {
    if Amendable(right, op) {
      SpliceIsCanonical(left, op, right.left);
      SpliceConserves(left, op, right.left);
    }
  }

  /** Conservation and the lifted conditional, for one whole ParseBinaryExpression call. */
  lemma AttachConserves(left: Expr, op: Operator, right: Expr)
    requires !Open(left) && Attach(left, op, right).Ok?
    ensures var e := Attach(left, op, right).value;
      if OpenConditional(right) then
        && OpenConditional(e)
        && e.consequent == right.consequent && e.alternate == right.alternate
        && Ops(e.test) == [op] + Ops(right.test) && Units(e.test) == [left] + Units(right.test)
      else
        Open(e) && Ops(e) == [op] + Ops(right) && Units(e) == [left] + Units(right)
  {
    SpliceConserves(left, op, if OpenConditional(right) then right.test else right);
  }
}
