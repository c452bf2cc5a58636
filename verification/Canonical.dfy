/** Canonical operator trees: the shape that the precedence table and associativity give a chain. */
module Canonical {
  import opened Expressions

  /** May an ungrouped `child` stand left of `op`?  Looser operators must not, and nothing open stands left of `**`. */
  predicate FitsLeft(child: Operator, op: Operator) {
    Precedence(child) >= Precedence(op) && op != Exponentiation
  }

  /** May an ungrouped `child` stand right of `op`?  Only tighter ones, and `**` under `**`. */
  predicate FitsRight(child: Operator, op: Operator) {
    Precedence(child) > Precedence(op) || (op == Exponentiation && child == Exponentiation)
  }

  /** Every open node binds tighter than its open parent, equal levels leaning left, `**` leaning right. */
  predicate IsCanonical(e: Expr) {
    Open(e) ==>
      && IsCanonical(e.left)
      && IsCanonical(e.right)
      && (Open(e.left) ==> FitsLeft(e.left.op, e.op))
      && (Open(e.right) ==> FitsRight(e.right.op, e.op))
  }

  lemma {:induction false} OpsAroundRoot(e: Expr)
    requires Open(e) && IsCanonical(e)
    ensures forall o :: o in Ops(e.left) ==> FitsLeft(o, e.op)
    ensures forall o :: o in Ops(e.right) ==> FitsRight(o, e.op)
  {
    if Open(e.left) {
      OpsAroundRoot(e.left);
    }
    if Open(e.right) {
      OpsAroundRoot(e.right);
    }
  }

  /** A chain has at most one canonical tree. */
  lemma {:induction false} CanonicalUnique(s: Expr, t: Expr)
    requires IsCanonical(s) && IsCanonical(t)
    requires Ops(s) == Ops(t) && Units(s) == Units(t)
    ensures s == t
  {
    if !Open(s) || !Open(t) {
      assert |Ops(s)| == 0 && Units(s)[0] == s && Units(t)[0] == t;
    } else {
      RootsAgree(s, t);
      PartsOfRoot(s);
      PartsOfRoot(t);
      hide Ops, Units;
      CanonicalUnique(s.left, t.left);
      CanonicalUnique(s.right, t.right);
    }
  }

  /** The position of the root's operator cuts the chain. */
  lemma PartsOfRoot(e: Expr)
    requires Open(e)
    ensures var k := |Ops(e.left)|;
      && k < |Ops(e)| && e.op == Ops(e)[k]
      && Ops(e.left) == Ops(e)[..k] && Ops(e.right) == Ops(e)[k + 1..]
      && Units(e.left) == Units(e)[..k + 1] && Units(e.right) == Units(e)[k + 1..]
  {
    assert Ops(e) == Ops(e.left) + [e.op] + Ops(e.right) && Units(e) == Units(e.left) + Units(e.right);
    hide Ops, Units;
    CutAround(Ops(e.left), e.op, Ops(e.right));
    CutAt(Units(e.left), Units(e.right));
  }

  lemma CutAt<T>(s: seq<T>, t: seq<T>)
    ensures (s + t)[..|s|] == s && (s + t)[|s|..] == t
  {
  }

  lemma CutAround<T>(s: seq<T>, x: T, t: seq<T>)
    ensures var u := s + [x] + t; u[..|s|] == s && u[|s|] == x && u[|s| + 1..] == t
  {
  }

  /** Two canonical trees over the same operators split at the same operator. */
  lemma RootsAgree(s: Expr, t: Expr)
    requires Open(s) && Open(t) && IsCanonical(s) && IsCanonical(t)
    requires Ops(s) == Ops(t)
    ensures |Ops(s.left)| == |Ops(t.left)|
  {
    RootNotEarlier(s, t);
    RootNotEarlier(t, s);
  }

  lemma RootNotEarlier(s: Expr, t: Expr)
    requires Open(s) && Open(t) && IsCanonical(s) && IsCanonical(t)
    requires Ops(s) == Ops(t)
    ensures |Ops(s.left)| >= |Ops(t.left)|
  {
    hide Ops, Units, Precedence, IsCanonical, FitsLeft, FitsRight;
    PartsOfRoot(s);
    PartsOfRoot(t);
    var ops, i, j := Ops(s), |Ops(s.left)|, |Ops(t.left)|;
    if i < j {
      OpsAroundRoot(s);
      OpsAroundRoot(t);
      assert s.op == ops[i] == Ops(t.left)[i];
      assert t.op == ops[j] == Ops(s.right)[j - i - 1];
      NotBoth(s.op, t.op);
    }
  }

  lemma NotBoth(a: Operator, b: Operator)
    ensures !(FitsLeft(a, b) && FitsRight(b, a))
  {
  }

  /** The loosest operator of a chain, the last one among equals. */
  function Loosest(ops: seq<Operator>): Operator
    requires ops != []
  {
    if |ops| == 1 || Precedence(ops[0]) < Precedence(Loosest(ops[1..])) then ops[0] else Loosest(ops[1..])
  }

  lemma {:induction false} LoosestAt(ops: seq<Operator>, k: nat)
    requires k < |ops|
    requires forall i :: 0 <= i < k ==> FitsLeft(ops[i], ops[k])
    requires forall i :: k < i < |ops| ==> FitsRight(ops[i], ops[k])
    ensures Loosest(ops) == ops[k]
  {
    var rest := ops[1..];
    if k > 0 {
      LoosestAt(rest, k - 1);
    } else if |ops| > 1 {
      LoosestIsMember(rest);
    }
  }

  lemma {:induction false} LoosestIsMember(ops: seq<Operator>)
    requires ops != []
    ensures Loosest(ops) in ops
    ensures forall o :: o in ops ==> Precedence(Loosest(ops)) <= Precedence(o)
  {
    if |ops| > 1 {
      LoosestIsMember(ops[1..]);
      assert forall o :: o in ops ==> o == ops[0] || o in ops[1..];
    }
  }

  /** The root of a canonical tree is the loosest operator of its chain. */
  lemma RootIsLoosest(e: Expr)
    requires Open(e) && IsCanonical(e)
    ensures Ops(e) != [] && e.op == Loosest(Ops(e))
  {
    OpsAroundRoot(e);
    var ops, k := Ops(e), |Ops(e.left)|;
    assert forall i :: 0 <= i < k ==> ops[i] == Ops(e.left)[i];
    assert forall i :: k < i < |ops| ==> ops[i] == Ops(e.right)[i - k - 1];
    LoosestAt(ops, k);
  }
}
