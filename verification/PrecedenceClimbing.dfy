/** The splicing parser and a textbook precedence climber make the same tree of every chain of operands. */
module PrecedenceClimbing {
  import opened Expressions
  import opened Canonical
  import opened Reassociation

  // ---- Chains u0 op1 u1 ... opn un, and the two ways of building a tree from one.

  datatype Link = Link(op: Operator, operand: Expr)

  datatype Chain = Chain(first: Expr, links: seq<Link>)

  function ChainOps(links: seq<Link>): (ops: seq<Operator>)
    ensures |ops| == |links|
  {
    seq(|links|, i requires 0 <= i < |links| => links[i].op)
  }

  function ChainOperands(links: seq<Link>): (us: seq<Expr>)
    ensures |us| == |links|
  {
    seq(|links|, i requires 0 <= i < |links| => links[i].operand)
  }

  function ChainUnits(c: Chain): (us: seq<Expr>)
    ensures |us| == |c.links| + 1
  {
    [c.first] + ChainOperands(c.links)
  }

  /** Operands of a chain: unary, left-hand-side or parenthesised expressions. */
  predicate Closed(e: Expr) {
    !Open(e) && !OpenConditional(e)
  }

  predicate IsChain(c: Chain) {
    Closed(c.first) && forall l :: l in c.links ==> Closed(l.operand)
  }

  function Tail(c: Chain): Chain
    requires c.links != []
  {
    Chain(c.links[0].operand, c.links[1..])
  }

  lemma TailOf(c: Chain)
    requires c.links != []
    ensures ChainOps(c.links) == [c.links[0].op] + ChainOps(Tail(c).links)
    ensures ChainUnits(c) == [c.first] + ChainUnits(Tail(c))
    ensures IsChain(c) ==> IsChain(Tail(c))
  {
  }

  /** The implementation: right to left, one Attach for each operator. */
  function Reassociate(c: Chain): Result<Expr>
    decreases |c.links|
  {
    if c.links == [] then
      Ok(c.first)
    else
      var right :- Reassociate(Tail(c));
      Attach(c.first, c.links[0].op, right)
  }

  datatype Climbed = Climbed(tree: Expr, next: nat)

  /** Textbook precedence climbing from link `i` on: absorb operators of level `level` and above into `lhs`. */
  function Climb(lhs: Expr, links: seq<Link>, i: nat, level: nat): (r: Climbed)
    requires i <= |links|
    ensures i <= r.next <= |links|
    decreases |links| - i
  {
    if i == |links| || Precedence(links[i].op) < level then
      Climbed(lhs, i)
    else
      var op := links[i].op;
      var tighter := if op == Exponentiation then Precedence(op) else Precedence(op) + 1;
      var rhs := Climb(links[i].operand, links, i + 1, tighter);
      Climb(Binop(op, lhs, rhs.tree, false), links, rhs.next, level)
  }

  function ClimbAll(c: Chain): Expr {
    Climb(c.first, c.links, 0, 0).tree
  }

  /** No unparenthesised unary operator stands directly left of a `**`. */
  predicate PowersOk(c: Chain) {
    forall i :: 0 <= i < |c.links| && c.links[i].op == Exponentiation ==> !BareUnary(ChainUnits(c)[i])
  }

  predicate NoOrAndBeforeNullish(ops: seq<Operator>) {
    forall i, j :: 0 <= i < j < |ops| && OrAnd(ops[i]) ==> ops[j] != NullishCoalescing
  }

  /**
   * No `||` or `&&` stands anywhere left of a `??`, and after a `??` the loosest remaining operator
   * (the last one among equals) is not `||` or `&&`.
   */
  predicate MixOk(ops: seq<Operator>) {
    && NoOrAndBeforeNullish(ops)
    && (forall i :: 0 <= i < |ops| - 1 && ops[i] == NullishCoalescing ==> !OrAnd(Loosest(ops[i + 1..])))
  }

  predicate ChainAccepted(c: Chain) {
    PowersOk(c) && MixOk(ChainOps(c.links))
  }

  // ---- Both builders make the canonical tree of the chain.

  predicate CanonicalFor(e: Expr, c: Chain) {
    IsCanonical(e) && Ops(e) == ChainOps(c.links) && Units(e) == ChainUnits(c)
  }

  lemma {:induction false} ReassociateIsCanonical(c: Chain)
    requires IsChain(c) && Reassociate(c).Ok?
    ensures CanonicalFor(Reassociate(c).value, c)
    ensures !OpenConditional(Reassociate(c).value)
    decreases |c.links|
  {
    if c.links != [] {
      TailOf(c);
      ReassociateIsCanonical(Tail(c));
      var right := Reassociate(Tail(c)).value;
      SpliceIsCanonical(c.first, c.links[0].op, right);
      SpliceConserves(c.first, c.links[0].op, right);
    }
  }

  /** The climber's tree so far may stand left of the next operator. */
  predicate FitsBefore(lhs: Expr, links: seq<Link>, i: nat) {
    Open(lhs) && i < |links| ==> FitsLeft(lhs.op, links[i].op)
  }

  lemma {:induction false} ClimbIsCanonical(lhs: Expr, links: seq<Link>, i: nat, level: nat)
    requires i <= |links| && IsCanonical(lhs) && FitsBefore(lhs, links, i)
    requires forall l :: l in links ==> Closed(l.operand)
    requires level <= 11
    ensures var r := Climb(lhs, links, i, level);
      && IsCanonical(r.tree)
      && (r.next < |links| ==> Precedence(links[r.next].op) < level)
      && (r.tree == lhs || (Open(r.tree) && Precedence(r.tree.op) >= level))
    decreases |links| - i
  {
    if i < |links| && Precedence(links[i].op) >= level {
      var op, u := links[i].op, links[i].operand;
      var tighter := if op == Exponentiation then Precedence(op) else Precedence(op) + 1;
      ClimbIsCanonical(u, links, i + 1, tighter);
      var rhs := Climb(u, links, i + 1, tighter);
      assert Open(rhs.tree) ==> FitsRight(rhs.tree.op, op);
      ClimbIsCanonical(Binop(op, lhs, rhs.tree, false), links, rhs.next, level);
    }
  }

  lemma {:induction false} ClimbConserves(lhs: Expr, links: seq<Link>, i: nat, level: nat)
    requires i <= |links|
    requires forall l :: l in links ==> Closed(l.operand)
    ensures var r := Climb(lhs, links, i, level);
      && Ops(r.tree) == Ops(lhs) + ChainOps(links)[i..r.next]
      && Units(r.tree) == Units(lhs) + ChainOperands(links)[i..r.next]
    decreases |links| - i
  {
    hide ChainOps, ChainOperands, Precedence, Climb, Ops, Units, Open;
    ClimbStep(lhs, links, i, level);
    if i < |links| && Precedence(links[i].op) >= level {
      var op, u := links[i].op, links[i].operand;
      var tighter := if op == Exponentiation then Precedence(op) else Precedence(op) + 1;
      ClimbConserves(u, links, i + 1, tighter);
      var rhs := Climb(u, links, i + 1, tighter);
      var lhs' := Binop(op, lhs, rhs.tree, false);
      ClimbConserves(lhs', links, rhs.next, level);
      var r := Climb(lhs', links, rhs.next, level);
      NodeAdded(op, lhs, rhs.tree, u);
      LinkAt(links, i);
      OpsJoined(ChainOps(links), i, rhs.next, r.next, Ops(lhs), Ops(rhs.tree), Ops(lhs'), Ops(r.tree));
      UnitsJoined(ChainOperands(links), i, rhs.next, r.next, Units(lhs), Units(rhs.tree), Units(lhs'), Units(r.tree));
    }
  }

  lemma ClimbStep(lhs: Expr, links: seq<Link>, i: nat, level: nat)
    requires i <= |links|
    ensures i == |links| || Precedence(links[i].op) < level ==> Climb(lhs, links, i, level) == Climbed(lhs, i)
    ensures Ops(lhs) + ChainOps(links)[i..i] == Ops(lhs) && Units(lhs) + ChainOperands(links)[i..i] == Units(lhs)
    ensures i < |links| && Precedence(links[i].op) >= level ==>
      var op := links[i].op;
      var rhs := Climb(links[i].operand, links, i + 1,
                       if op == Exponentiation then Precedence(op) else Precedence(op) + 1);
      Climb(lhs, links, i, level) == Climb(Binop(op, lhs, rhs.tree, false), links, rhs.next, level)
  {
    hide Precedence, ChainOps, ChainOperands, Ops, Units;
  }

  lemma NodeAdded(op: Operator, left: Expr, right: Expr, u: Expr)
    ensures var e := Binop(op, left, right, false);
      && Ops(e) == Ops(left) + [op] + Ops(right)
      && Units(e) == Units(left) + Units(right)
    ensures !Open(u) ==> Ops(u) == [] && Units(u) == [u]
  {
  }

  lemma LinkAt(links: seq<Link>, i: nat)
    requires i < |links|
    ensures ChainOps(links)[i] == links[i].op && ChainOperands(links)[i] == links[i].operand
  {
  }

  /** The operators from `i` to `n`: one, those of the right-hand side, and the rest. */
  lemma OpsJoined(s: seq<Operator>, i: nat, m: nat, n: nat, before: seq<Operator>, right: seq<Operator>,
                  joined: seq<Operator>, whole: seq<Operator>)
    requires i < m <= n <= |s| && right == [] + s[i + 1..m]
    requires joined == before + [s[i]] + right && whole == joined + s[m..n]
    ensures whole == before + s[i..n]
  {
    assert s[i..n] == [s[i]] + s[i + 1..m] + s[m..n];
  }

  lemma UnitsJoined(s: seq<Expr>, i: nat, m: nat, n: nat, before: seq<Expr>, right: seq<Expr>, joined: seq<Expr>,
                    whole: seq<Expr>)
    requires i < m <= n <= |s| && right == [s[i]] + s[i + 1..m]
    requires joined == before + right && whole == joined + s[m..n]
    ensures whole == before + s[i..n]
  {
    assert s[i..n] == [s[i]] + s[i + 1..m] + s[m..n];
  }

  /** When it accepts, the splicing parser yields the precedence climber's tree. */
  lemma ReassociateIsClimbing(c: Chain)
    requires IsChain(c) && Reassociate(c).Ok?
    ensures Reassociate(c).value == ClimbAll(c)
  {
    var r := Climb(c.first, c.links, 0, 0);
    ClimbIsCanonical(c.first, c.links, 0, 0);
    ClimbConserves(c.first, c.links, 0, 0);
    ReassociateIsCanonical(c);
    assert ChainOps(c.links)[0..r.next] == ChainOps(c.links);
    assert ChainOperands(c.links)[0..r.next] == ChainOperands(c.links);
    CanonicalUnique(Reassociate(c).value, r.tree);
  }

  /** The splicing parser rejects exactly the chains with a bare unary before `**` or a `??` mix-up. */
  lemma {:induction false} AcceptsIff(c: Chain)
    requires IsChain(c)
    ensures Reassociate(c).Ok? <==> ChainAccepted(c)
    decreases |c.links|
  {
    if c.links != [] {
      TailOf(c);
      AcceptsIff(Tail(c));
      PowersSplit(c);
      MixSplit(ChainOps(c.links));
      var ops := ChainOps(c.links);
      if Reassociate(Tail(c)).Ok? {
        var right := Reassociate(Tail(c)).value;
        ReassociateIsCanonical(Tail(c));
        if Open(right) {
          RootIsLoosest(right);
        }
      }
    }
  }

  lemma PowersSplit(c: Chain)
    requires c.links != []
    ensures PowersOk(c) <==> PowersOk(Tail(c)) && !(c.links[0].op == Exponentiation && BareUnary(c.first))
  {
    var t := Tail(c);
    TailOf(c);
    assert forall i :: 0 <= i < |t.links| ==> t.links[i] == c.links[i + 1] && ChainUnits(t)[i] == ChainUnits(c)[i + 1];
    assert forall i :: 0 < i < |c.links| ==> c.links[i] == t.links[i - 1] && ChainUnits(c)[i] == ChainUnits(t)[i - 1];
  }

  /** One step of MixOk, in terms of the loosest operator of the tail. */
  lemma MixSplit(ops: seq<Operator>)
    requires ops != []
    ensures MixOk(ops) <==>
      && MixOk(ops[1..])
      && (|ops| > 1 ==> !(OrAnd(ops[0]) && Loosest(ops[1..]) == NullishCoalescing))
      && (|ops| > 1 ==> !(ops[0] == NullishCoalescing && OrAnd(Loosest(ops[1..]))))
  {
    var t := ops[1..];
    if t != [] {
      LoosestIsMember(t);
      LoosestIsNullish(t);
    }
    OrderSplit(ops);
    assert t != [] ==> ops[0 + 1..] == t;
    assert forall i :: 0 <= i < |t| - 1 ==> t[i] == ops[i + 1] && t[i + 1..] == ops[(i + 1) + 1..];
    assert forall i :: 0 < i < |ops| - 1 ==> ops[i] == t[i - 1] && ops[i + 1..] == t[(i - 1) + 1..];
  }

  lemma LoosestIsNullish(ops: seq<Operator>)
    requires ops != []
    ensures Loosest(ops) == NullishCoalescing <==> NullishCoalescing in ops
  {
    LoosestIsMember(ops);
  }

  lemma OrderSplit(ops: seq<Operator>)
    requires ops != []
    ensures NoOrAndBeforeNullish(ops) <==>
      NoOrAndBeforeNullish(ops[1..]) && !(OrAnd(ops[0]) && NullishCoalescing in ops[1..])
  {
    var t := ops[1..];
    assert forall i :: 0 <= i < |t| ==> t[i] == ops[i + 1];
    assert forall i :: 0 < i < |ops| ==> ops[i] == t[i - 1];
  }
}
