/**
 * The same parser on heap nodes.  ParseBinaryExpression rewires the left spine of the finished
 * right-hand side in place; every method is proved against the function of the same name.
 */
module NodeParser {
  import opened Expressions
  import opened Reassociation
  import opened ExpressionParser

  datatype NodeType =
    | OperandNode(id: nat, form: Form)
    | UnaryNode(kind: UnaryKind)
    | BinaryNode(op: Operator)
    | ConditionalNode

  /**
   * An expression node.  `first` is the left operand, the test of a `?:` or the argument of a unary
   * operator; only it and the grouped flag are ever reassigned.
   */
  class Node {
    const nodeType: NodeType
    var grouped: bool
    var first: Node?
    const second: Node?
    const third: Node?

    constructor (nodeType: NodeType, first: Node?, second: Node?, third: Node?)
      ensures this.nodeType == nodeType && this.first == first && this.second == second && this.third == third
      ensures !grouped
    {
      this.nodeType := nodeType;
      this.grouped := false;
      this.first := first;
      this.second := second;
      this.third := third;
    }
  }

  /** The nodes of an expression, arranged as they are linked. */
  datatype Shape =
    | Leaf(node: Node)
    | One(node: Node, first: Shape)
    | Two(node: Node, first: Shape, second: Shape)
    | Three(node: Node, first: Shape, second: Shape, third: Shape)

  ghost function Footprint(s: Shape): (nodes: set<Node>)
    ensures s.node in nodes
  {
    match s
    case Leaf(n) => {n}
    case One(n, a) => {n} + Footprint(a)
    case Two(n, a, b) => {n} + Footprint(a) + Footprint(b)
    case Three(n, a, b, c) => {n} + Footprint(a) + Footprint(b) + Footprint(c)
  }

  /**
   * The nodes of `s` are distinct, linked as `s` says, and carry the expression `e`; the `first` link of
   * `hole` is not looked at.
   */
  ghost predicate Denotes(s: Shape, e: Expr, hole: Node?)
    reads Footprint(s)`grouped, (Footprint(s) - {hole})`first
  {
    match s
    case Leaf(n) => e.Operand? && n.nodeType == OperandNode(e.id, e.form) && n.grouped == e.grouped
    case One(n, a) =>
      && e.Unary? && n.nodeType == UnaryNode(e.kind) && n.grouped == e.grouped
      && (n != hole ==> n.first == a.node)
      && n !in Footprint(a)
      && Denotes(a, e.argument, hole)
    case Two(n, a, b) =>
      && e.Binop? && n.nodeType == BinaryNode(e.op) && n.grouped == e.grouped
      && (n != hole ==> n.first == a.node) && n.second == b.node
      && n !in Footprint(a) && n !in Footprint(b) && Footprint(a) !! Footprint(b)
      && Denotes(a, e.left, hole) && Denotes(b, e.right, hole)
    case Three(n, a, b, c) =>
      && e.Conditional? && n.nodeType == ConditionalNode && n.grouped == e.grouped
      && (n != hole ==> n.first == a.node) && n.second == b.node && n.third == c.node
      && n !in Footprint(a) && n !in Footprint(b) && n !in Footprint(c)
      && Footprint(a) !! Footprint(b) && Footprint(a) !! Footprint(c) && Footprint(b) !! Footprint(c)
      && Denotes(a, e.test, hole) && Denotes(b, e.consequent, hole) && Denotes(c, e.alternate, hole)
  }

  /** The tree at `n` is `e`. */
  ghost predicate IsTree(n: Node, s: Shape, e: Expr)
    reads Footprint(s)`grouped, Footprint(s)`first
  {
    s.node == n && Denotes(s, e, null)
  }

  lemma {:induction false} IgnoreHole(s: Shape, e: Expr, hole: Node)
    ensures Denotes(s, e, null) ==> Denotes(s, e, hole)
    ensures hole !in Footprint(s) && Denotes(s, e, hole) ==> Denotes(s, e, null)
  {
    match s
    case Leaf(_) =>
    case One(_, a) =>
      if e.Unary? { IgnoreHole(a, e.argument, hole); }
    case Two(_, a, b) =>
      if e.Binop? { IgnoreHole(a, e.left, hole); IgnoreHole(b, e.right, hole); }
    case Three(_, a, b, c) =>
      if e.Conditional? {
        IgnoreHole(a, e.test, hole);
        IgnoreHole(b, e.consequent, hole);
        IgnoreHole(c, e.alternate, hole);
      }
  }

  lemma BinaryNodes(s: Shape, e: Expr, op: Operator)
    requires Denotes(s, e, null)
    ensures s.node.nodeType.BinaryNode? <==> e.Binop?
    ensures e.Binop? ==> s.Two? && (ShouldAmend(s.node, op) <==> Amendable(e, op))
    ensures e.Binop? ==> s.node.nodeType.op == e.op && s.node.grouped == e.grouped
  {
  }

  lemma ConditionalNodes(s: Shape, e: Expr)
    requires Denotes(s, e, null)
    ensures s.node.nodeType.ConditionalNode? && !s.node.grouped <==> OpenConditional(e)
    ensures e.Conditional? ==>
      && s.Three? && s.node.first == s.first.node && s.node.second == s.second.node && s.node.third == s.third.node
      && s.node.grouped == e.grouped && s.node.nodeType == ConditionalNode
      && Denotes(s.first, e.test, null) && Denotes(s.second, e.consequent, null) && Denotes(s.third, e.alternate, null)
      && Footprint(s) == {s.node} + Footprint(s.first) + Footprint(s.second) + Footprint(s.third)
      && s.node !in Footprint(s.first) + Footprint(s.second) + Footprint(s.third)
      && Footprint(s.first) !! Footprint(s.second) !! Footprint(s.third)
  {
  }

  lemma ConditionalLinked(s: Shape, t: Expr, c: Expr, x: Expr)
    requires s.Three? && s.node.nodeType == ConditionalNode
    requires Denotes(s.first, t, null) && Denotes(s.second, c, null) && Denotes(s.third, x, null)
    requires s.node.first == s.first.node && s.node.second == s.second.node && s.node.third == s.third.node
    requires s.node !in Footprint(s.first) + Footprint(s.second) + Footprint(s.third)
    requires Footprint(s.first) !! Footprint(s.second) !! Footprint(s.third)
    ensures Denotes(s, Conditional(t, c, x, s.node.grouped), null)
    ensures Footprint(s) == {s.node} + Footprint(s.first) + Footprint(s.second) + Footprint(s.third)
  {
  }

  // ---- The left spine.

  /** ShouldBinaryExpressionBeAmended, on a node. */
  predicate ShouldAmend(n: Node, op: Operator)
    requires n.nodeType.BinaryNode?
    reads n`grouped
  {
    && Precedence(n.nodeType.op) <= Precedence(op)
    && !n.grouped
    && (op != Exponentiation || n.nodeType.op != Exponentiation)
  }

  /** The last spine node of `e` that should be amended, with its expression. */
  ghost function LastAmended(s: Shape, e: Expr, op: Operator): (Shape, Expr) {
    if s.Two? && e.Binop? && Amendable(e.left, op) then LastAmended(s.first, e.left, op) else (s, e)
  }

  /** `s` with the left child of that node replaced. */
  ghost function Respliced(s: Shape, e: Expr, op: Operator, spliced: Shape): Shape {
    if !s.Two? || !e.Binop? then
      s
    else if Amendable(e.left, op) then
      Two(s.node, Respliced(s.first, e.left, op, spliced), s.second)
    else
      Two(s.node, spliced, s.second)
  }

  lemma {:induction false} LastAmendedInside(s: Shape, e: Expr, op: Operator, hole: Node?)
    requires Denotes(s, e, hole) && Amendable(e, op)
    ensures var (m, f) := LastAmended(s, e, op);
      && m.Two? && Denotes(m, f, hole)
      && Amendable(f, op) && !Amendable(f.left, op)
      && Footprint(m) <= Footprint(s)
  {
    if Amendable(e.left, op) {
      LastAmendedInside(s.first, e.left, op, hole);
    }
  }

  /** Once the one pointer of the last amended node leads to the new node, the whole tree is the splice. */
  lemma {:induction false} Rewired(s: Shape, e: Expr, op: Operator, m: Shape, f: Expr, spliced: Shape, left: Expr)
    requires Amendable(e, op) && s.Two? && (m, f) == LastAmended(s, e, op)
    requires m.Two? && f.Binop?
    requires Denotes(s, e, m.node)
    requires IsTree(spliced.node, spliced, Binop(op, left, f.left, false))
    requires m.node.first == spliced.node
    requires Footprint(spliced) * Footprint(s) <= Footprint(m.first)
    ensures IsTree(s.node, Respliced(s, e, op, spliced), Splice(left, op, e))
    ensures Footprint(Respliced(s, e, op, spliced)) <= Footprint(s) + Footprint(spliced)
  {
    LastAmendedInside(s, e, op, m.node);
    IgnoreHole(s.second, e.right, m.node);
    if Amendable(e.left, op) {
      LastAmendedInside(s.first, e.left, op, m.node);
      Rewired(s.first, e.left, op, m, f, spliced, left);
    }
  }

  // ---- The parser.

  class Parser {
    const toks: Tokens
    var pos: nat

    constructor (toks: Tokens)
      ensures this.toks == toks && pos == 0
    {
      this.toks := toks;
      this.pos := 0;
    }

    /** The node returned is the tree that `spec` says, and as many tokens are eaten. */
    ghost predicate Agrees(res: Result<Node>, s: Result<Shape>, spec: Result<Parsed>)
      reads this, if s.Ok? then Footprint(s.value) else {}
    {
      && (res.Ok? <==> spec.Ok?)
      && (res.Ok? ==> s.Ok? && IsTree(res.value, s.value, spec.value.e) && pos == spec.value.next)
    }

    // Allocation of the three inner nodes, over trees of disjoint nodes.

    method NewUnary(kind: UnaryKind, argument: Node, ghost a: Shape, ghost e: Expr)
      returns (node: Node, ghost s: Shape)
      requires IsTree(argument, a, e)
      ensures IsTree(node, s, Unary(kind, e, false)) && fresh(node) && Footprint(s) == {node} + Footprint(a)
    {
      assert allocated(Footprint(a));
      node := new Node(UnaryNode(kind), argument, null, null);
      s := One(node, a);
    }

    method NewBinary(op: Operator, left: Node, ghost ls: Shape, ghost l: Expr, right: Node, ghost rs: Shape,
                     ghost r: Expr)
      returns (node: Node, ghost s: Shape)
      requires IsTree(left, ls, l) && IsTree(right, rs, r) && Footprint(ls) !! Footprint(rs)
      ensures IsTree(node, s, Binop(op, l, r, false)) && fresh(node)
      ensures Footprint(s) == {node} + Footprint(ls) + Footprint(rs)
    {
      assert allocated(Footprint(ls)) && allocated(Footprint(rs));
      node := new Node(BinaryNode(op), left, right, null);
      s := Two(node, ls, rs);
    }

    method NewConditional(test: Node, ghost ts: Shape, ghost t: Expr, consequent: Node, ghost cs: Shape, ghost c: Expr,
                          alternate: Node, ghost xs: Shape, ghost x: Expr)
      returns (node: Node, ghost s: Shape)
      requires IsTree(test, ts, t) && IsTree(consequent, cs, c) && IsTree(alternate, xs, x)
      requires Footprint(ts) !! Footprint(cs) !! Footprint(xs)
      ensures IsTree(node, s, Conditional(t, c, x, false)) && fresh(node)
      ensures Footprint(s) == {node} + Footprint(ts) + Footprint(cs) + Footprint(xs)
    {
      hide Denotes, Footprint;
      assert allocated(Footprint(ts)) && allocated(Footprint(cs)) && allocated(Footprint(xs));
      node := new Node(ConditionalNode, test, consequent, alternate);
      s := Three(node, ts, cs, xs);
      ConditionalLinked(s, t, c, x);
    }

    method SetGrouped(node: Node, ghost s: Shape, ghost e: Expr)
      requires IsTree(node, s, e)
      modifies node`grouped
      ensures IsTree(node, s, e.(grouped := true))
    {
      node.grouped := true;
    }

    /** Replace the test of a `?:` by a tree that shares no node with its arms. */
    method SetTest(node: Node, ghost s: Shape, ghost e: Expr, test: Node, ghost ts: Shape, ghost t: Expr)
      returns (ghost s': Shape)
      requires s.Three? && node == s.node && e.Conditional? && IsTree(test, ts, t)
      requires Denotes(s.second, e.consequent, null) && Denotes(s.third, e.alternate, null)
      requires node.nodeType == ConditionalNode && node.grouped == e.grouped
      requires node.second == s.second.node && node.third == s.third.node
      requires Footprint(ts) !! Footprint(s.second) !! Footprint(s.third)
      requires node !in Footprint(ts) + Footprint(s.second) + Footprint(s.third)
      modifies node`first
      ensures IsTree(node, s', e.(test := t))
      ensures Footprint(s') == {node} + Footprint(ts) + Footprint(s.second) + Footprint(s.third)
    {
      node.first := test;
      s' := Three(node, ts, s.second, s.third);
    }

    /** A whole expression: the spliced nodes are the tree of the reference grammar. */
    method Parse() returns (res: Result<Node>, ghost s: Result<Shape>)
      modifies `pos
      ensures Agrees(res, s, RefExpression(toks, old(pos)))
    {
      hide *;
      ParserRefinesReference(toks, pos);
      res, s := ParseExpression();
    }

    method ParseExpression() returns (res: Result<Node>, ghost s: Result<Shape>)
      modifies `pos
      ensures Agrees(res, s, ExpressionParser.ParseExpression(toks, old(pos)))
      ensures s.Ok? ==> forall n :: n in Footprint(s.value) ==> fresh(n)
      decreases |toks| - pos, 2
    {
      var unary;
      unary, s := ParseUnary();
      if unary.Err? {
        return Err, Err;
      }
      ghost var u := ExpressionParser.ParseUnary(toks, old(pos)).value.e;
      res, s := ParseAssignment(unary.value, s.value, u);
    }

    method ParseUnary() returns (res: Result<Node>, ghost s: Result<Shape>)
      modifies `pos
      ensures Agrees(res, s, ExpressionParser.ParseUnary(toks, old(pos)))
      ensures s.Ok? ==> forall n :: n in Footprint(s.value) ==> fresh(n)
      decreases |toks| - pos, 1
    {
      var t := TokenAt(toks, pos);
      if IsUnaryToken(t) {
        pos := pos + 1;
        var argument;
        argument, s := ParseUnary();
        if argument.Err? {
          return Err, Err;
        }
        var form := if argument.value.nodeType.OperandNode? then argument.value.nodeType.form else Other;
        var kind := UnaryKindOf(t, form);
        if kind.Err? {
          return Err, Err;
        }
        ghost var a := ExpressionParser.ParseUnary(toks, old(pos) + 1).value.e;
        var node;
        ghost var ns;
        node, ns := NewUnary(kind.value, argument.value, s.value, a);
        res, s := Ok(node), Ok(ns);
      } else if t.Lhs? {
        pos := pos + 1;
        var node := new Node(OperandNode(t.id, t.form), null, null, null);
        res, s := Ok(node), Ok(Leaf(node));
      } else if t == LeftParenthesis {
        pos := pos + 1;
        res, s := ParseExpression();
        if res.Ok? {
          if TokenAt(toks, pos) == RightParenthesis {
            assert res.value in Footprint(s.value);
            SetGrouped(res.value, s.value, ExpressionParser.ParseExpression(toks, old(pos) + 1).value.e);
            pos := pos + 1;
          } else {
            res, s := Err, Err;
          }
        }
      } else {
        res, s := Err, Err;
      }
    }

    method ParseAssignment(lhs: Node, ghost ls: Shape, ghost l: Expr)
      returns (res: Result<Node>, ghost s: Result<Shape>)
      requires pos <= |toks| && IsTree(lhs, ls, l)
      modifies `pos
      ensures Agrees(res, s, ExpressionParser.ParseAssignment(toks, l, old(pos)))
      ensures s.Ok? ==> forall n :: n in Footprint(s.value) ==> n in Footprint(ls) || fresh(n)
      decreases |toks| - pos, 1
    {
      match TokenAt(toks, pos)
      case QuestionMark =>
        res, s := ParseConditional(lhs, ls, l);
      case Binary(_) =>
        var binaryExpression;
        binaryExpression, s := ParseBinaryExpression(lhs, ls, l);
        if binaryExpression.Err? {
          return Err, Err;
        }
        ghost var b := ParseBinary(toks, l, old(pos)).value.e;
        res, s := ParseAssignment(binaryExpression.value, s.value, b);
      case _ =>
        res, s := Ok(lhs), Ok(ls);
    }

    /** The `?:` arm of ParseAssignment. */
    method ParseConditional(lhs: Node, ghost ls: Shape, ghost l: Expr)
      returns (res: Result<Node>, ghost s: Result<Shape>)
      requires TokenAt(toks, pos) == QuestionMark && IsTree(lhs, ls, l)
      modifies `pos
      ensures var arms := ParseArms(toks, old(pos) + 1);
        Agrees(res, s, if arms.Err? then Err else
          Ok(Parsed(Conditional(l, arms.value.consequent, arms.value.alternate, false), arms.value.next)))
      ensures s.Ok? ==> forall n :: n in Footprint(s.value) ==> n in Footprint(ls) || fresh(n)
      decreases |toks| - pos, 0
    {
      hide Denotes, Footprint, ExpressionParser.ParseExpression;
      assert allocated(Footprint(ls));
      pos := pos + 1;
      var consequent, alternate;
      ghost var cs, xs;
      consequent, cs := ParseExpression();
      if consequent.Err? || TokenAt(toks, pos) != Colon {
        return Err, Err;
      }
      assert allocated(Footprint(cs.value));
      pos := pos + 1;
      alternate, xs := ParseExpression();
      if alternate.Err? {
        return Err, Err;
      }
      ghost var arms := ParseArms(toks, old(pos) + 1).value;
      var node;
      ghost var ns;
      node, ns := NewConditional(lhs, ls, l, consequent.value, cs.value, arms.consequent,
                                 alternate.value, xs.value, arms.alternate);
      res, s := Ok(node), Ok(ns);
    }

    method ParseBinaryExpression(left: Node, ghost ls: Shape, ghost l: Expr)
      returns (res: Result<Node>, ghost s: Result<Shape>)
      requires TokenAt(toks, pos).Binary? && IsTree(left, ls, l)
      modifies `pos
      ensures Agrees(res, s, ParseBinary(toks, l, old(pos)))
      ensures s.Ok? ==> forall n :: n in Footprint(s.value) ==> n in Footprint(ls) || fresh(n)
      decreases |toks| - pos, 0
    {
      hide Footprint, ExpressionParser.ParseExpression;
      assert allocated(Footprint(ls));
      var op := TokenAt(toks, pos).op;
      if op == Exponentiation && left.nodeType.UnaryNode? && !left.grouped
         && (left.nodeType.kind.Signed? || left.nodeType.kind.Plain?) {
        return Err, Err;
      }
      pos := pos + 1;
      var right;
      ghost var rs;
      right, rs := ParseExpression();
      if right.Err? {
        return Err, Err;
      }
      res, s := AttachTo(left, ls, l, op, right.value, rs.value,
                         ExpressionParser.ParseExpression(toks, old(pos) + 1).value.e);
    }

    /** The rest of ParseBinaryExpression, with the right-hand side finished: lift a `?:`, combine, put it back. */
    method AttachTo(left: Node, ghost ls: Shape, ghost l: Expr, op: Operator, right: Node, ghost rs: Shape,
                    ghost r: Expr)
      returns (res: Result<Node>, ghost s: Result<Shape>)
      requires IsTree(left, ls, l) && IsTree(right, rs, r) && Footprint(ls) !! Footprint(rs)
      requires !(op == Exponentiation && BareUnary(l))
      modifies Footprint(rs)`first
      ensures res.Ok? <==> Attach(l, op, r).Ok?
      ensures res.Ok? ==> s.Ok? && IsTree(res.value, s.value, Attach(l, op, r).value)
      ensures s.Ok? ==> forall n :: n in Footprint(s.value) ==> n in Footprint(ls) || n in Footprint(rs) || fresh(n)
    {
      hide Denotes, Footprint, Splice, RootsMix, Precedence;
      ConditionalNodes(rs, r);
      if right.nodeType.ConditionalNode? && !right.grouped {
        res, s := AttachToTest(left, ls, l, op, right, rs, r);
      } else {
        res, s := Combine(left, ls, l, op, right, rs, r);
      }
    }

    /** The lifted case: the test of the `?:` is combined, and put back into its node. */
    method AttachToTest(left: Node, ghost ls: Shape, ghost l: Expr, op: Operator, right: Node, ghost rs: Shape,
                        ghost r: Expr)
      returns (res: Result<Node>, ghost s: Result<Shape>)
      requires IsTree(left, ls, l) && IsTree(right, rs, r) && Footprint(ls) !! Footprint(rs) && r.Conditional?
      modifies Footprint(rs)`first
      ensures res.Err? <==> RootsMix(op, r.test)
      ensures res.Ok? ==> s.Ok? && IsTree(res.value, s.value, r.(test := Splice(l, op, r.test)))
      ensures s.Ok? ==> forall n :: n in Footprint(s.value) ==> n in Footprint(ls) || n in Footprint(rs) || fresh(n)
    {
      hide Denotes, Footprint, Splice, RootsMix, Precedence;
      ConditionalNodes(rs, r);
      assert allocated(Footprint(rs.second)) && allocated(Footprint(rs.third));
      var test;
      ghost var ts;
      test, ts := Combine(left, ls, l, op, right.first, rs.first, r.test);
      if test.Err? {
        return Err, Err;
      }
      ghost var lifted := SetTest(right, rs, r, test.value, ts.value, Splice(l, op, r.test));
      res, s := Ok(right), Ok(lifted);
    }

    /** Splice `left op` into `right` if its root should be amended, else put a node above both. */
    method Combine(left: Node, ghost ls: Shape, ghost l: Expr, op: Operator,
                   right: Node, ghost rs: Shape, ghost r: Expr)
      returns (res: Result<Node>, ghost s: Result<Shape>)
      requires IsTree(left, ls, l) && IsTree(right, rs, r) && Footprint(ls) !! Footprint(rs)
      modifies Footprint(rs)`first
      ensures res.Err? <==> RootsMix(op, r)
      ensures res.Ok? ==> s.Ok? && IsTree(res.value, s.value, Splice(l, op, r))
      ensures s.Ok? ==> forall n :: n in Footprint(s.value) ==> n in Footprint(ls) || n in Footprint(rs) || fresh(n)
    {
      hide Denotes, Footprint, Precedence;
      BinaryNodes(rs, r, op);
      assert allocated(Footprint(ls)) && allocated(Footprint(rs));
      if right.nodeType.BinaryNode? && ShouldAmend(right, op) {
        if OrAnd(op) && right.nodeType.op == NullishCoalescing {
          return Err, Err;
        }
        ghost var spliced := SpliceIntoSpine(left, ls, l, op, right, rs, r);
        res, s := Ok(right), Ok(spliced);
      } else {
        if op == NullishCoalescing && right.nodeType.BinaryNode? && IsLogical(right.nodeType.op) && !right.grouped {
          return Err, Err;
        }
        var node;
        ghost var ns;
        node, ns := NewBinary(op, left, ls, l, right, rs, r);
        res, s := Ok(node), Ok(ns);
      }
    }

    /** Enter the left spine of `right` and put `left op` in front of the part that binds tighter. */
    method SpliceIntoSpine(left: Node, ghost ls: Shape, ghost l: Expr, op: Operator,
                           right: Node, ghost rs: Shape, ghost r: Expr)
      returns (ghost s: Shape)
      requires IsTree(left, ls, l) && IsTree(right, rs, r) && Footprint(ls) !! Footprint(rs)
      requires Amendable(r, op)
      modifies Footprint(rs)`first
      ensures IsTree(right, s, Splice(l, op, r))
      ensures forall n :: n in Footprint(s) ==> n in Footprint(ls) || n in Footprint(rs) || fresh(n)
    {
      hide Denotes, Footprint, Splice, LastAmended, Amendable;
      assert allocated(Footprint(ls)) && allocated(Footprint(rs));
      var binaryExpression, parentExpression, shouldBeAmended := WalkSpine(right, rs, r, op);
      if shouldBeAmended {
        s := InsertLeft(binaryExpression, left, ls, l, op, rs, r);
      } else {
        s := InsertLeft(parentExpression, left, ls, l, op, rs, r);
      }
    }

    /** Allocate `left op node.left` and make it the new left child of `node`. */
    method InsertLeft(node: Node, left: Node, ghost ls: Shape, ghost l: Expr, op: Operator, ghost rs: Shape,
                      ghost r: Expr)
      returns (ghost s: Shape)
      requires IsTree(left, ls, l) && Denotes(rs, r, null) && Footprint(ls) !! Footprint(rs)
      requires Amendable(r, op) && node == LastAmended(rs, r, op).0.node
      modifies Footprint(rs)`first
      ensures IsTree(rs.node, s, Splice(l, op, r))
      ensures forall n :: n in Footprint(s) ==> n in Footprint(ls) || n in Footprint(rs) || fresh(n)
    {
      hide Splice, LastAmended, Respliced, Precedence;
      ghost var (m, f) := LastAmended(rs, r, op);
      LastAmendedInside(rs, r, op, null);
      IgnoreHole(rs, r, node);
      assert Denotes(m.first, f.left, null) && node !in Footprint(m.first) && node !in Footprint(ls);
      assert allocated(Footprint(ls)) && allocated(Footprint(rs)) && allocated(Footprint(m.first));
      var leftExprNode := new Node(BinaryNode(op), left, node.first, null);
      ghost var ns := Two(leftExprNode, ls, m.first);
      node.first := leftExprNode;
      assert Denotes(ls, l, null) && Denotes(m.first, f.left, null);
      assert IsTree(leftExprNode, ns, Binop(op, l, f.left, false));
      s := Respliced(rs, r, op, ns);
      Rewired(rs, r, op, m, f, ns, l);
    }

    /** The search: either stop on the last node to amend, or one step below it, with it as the parent. */
    method WalkSpine(right: Node, ghost rs: Shape, ghost r: Expr, op: Operator)
      returns (binaryExpression: Node, parentExpression: Node?, shouldBeAmended: bool)
      requires IsTree(right, rs, r) && Amendable(r, op)
      ensures var m := LastAmended(rs, r, op).0;
        if shouldBeAmended then binaryExpression == m.node else parentExpression == m.node
    {
      shouldBeAmended, binaryExpression, parentExpression := true, right, null;
      ghost var bs, b := rs, r;
      ghost var (m, f) := LastAmended(rs, r, op);
      BinaryNodes(rs, r, op);
      BinaryNodes(rs.first, r.left, op);
      while binaryExpression.first.nodeType.BinaryNode? && shouldBeAmended
        invariant IsTree(binaryExpression, bs, b) && b.Binop? && bs.Two?
        invariant binaryExpression.first != null && binaryExpression.first.nodeType.BinaryNode? <==> b.left.Binop?
        invariant shouldBeAmended ==> Amendable(b, op) && LastAmended(bs, b, op) == (m, f)
        invariant !shouldBeAmended ==> parentExpression == m.node
        decreases bs, shouldBeAmended
      {
        parentExpression := binaryExpression;
        binaryExpression := binaryExpression.first;
        bs, b := bs.first, b.left;
        BinaryNodes(bs, b, op);
        BinaryNodes(bs.first, b.left, op);
        shouldBeAmended := ShouldAmend(binaryExpression, op);
      }
    }
  }
}
