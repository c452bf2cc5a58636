/** CompilerDriver.postOrderAnalysis: the order in which functions are compiled. */
module PostOrder {

  /** A variable scope and the variable scopes directly inside it. */
  datatype Scope = Scope(id: nat, children: seq<Scope>)

  function PostOrder(s: Scope): seq<Scope>
    decreases s, 1
  {
    PostOrders(s, |s.children|) + [s]
  }

  /** Of the first `n` children of `s`, left to right. */
  function PostOrders(s: Scope, n: nat): seq<Scope>
    requires n <= |s.children|
    decreases s, 0, n
  {
    if n == 0 then [] else PostOrders(s, n - 1) + PostOrder(s.children[n - 1])
  }

  function Size(s: Scope): nat {
    |PostOrder(s)|
  }

  // ---- Every scope comes right after its descendants.

  /** The scopes that end at position `k` are the one there, preceded by exactly its own descendants. */
  predicate ClosedAt(order: seq<Scope>, k: nat)
    requires k < |order|
  {
    Size(order[k]) <= k + 1 && order[k + 1 - Size(order[k])..k + 1] == PostOrder(order[k])
  }

  lemma {:induction false} DescendantsFirst(s: Scope, k: nat)
    requires k < Size(s)
    ensures ClosedAt(PostOrder(s), k)
    decreases s, 1
  {
    if k < Size(s) - 1 {
      DescendantsFirstAmong(s, |s.children|, k);
      ClosedExtends(PostOrders(s, |s.children|), [], [s], k);
    }
  }

  lemma {:induction false} DescendantsFirstAmong(s: Scope, n: nat, k: nat)
    requires n <= |s.children| && k < |PostOrders(s, n)|
    ensures ClosedAt(PostOrders(s, n), k)
    decreases s, 0, n
  {
    var init, last := PostOrders(s, n - 1), s.children[n - 1];
    if k < |init| {
      DescendantsFirstAmong(s, n - 1, k);
      ClosedExtends(init, [], PostOrder(last), k);
    } else {
      DescendantsFirst(last, k - |init|);
      ClosedExtends(PostOrder(last), init, [], k - |init|);
    }
  }

  lemma ClosedExtends(order: seq<Scope>, before: seq<Scope>, after: seq<Scope>, k: nat)
    requires k < |order| && ClosedAt(order, k)
    ensures ClosedAt(before + order + after, |before| + k)
    ensures before == [] ==> before + order + after == order + after
    ensures after == [] ==> before + order + after == before + order
  {
    hide PostOrder;
    var whole, n, m := before + order + after, Size(order[k]), |before| + k;
    assert whole[m] == order[k];
    assert whole[m + 1 - n..m + 1] == order[k + 1 - n..k + 1];
  }

  // ---- Visiting a scope before its children, right to left, is post-order backwards.

  function Reverse(s: seq<Scope>): seq<Scope> {
    if s == [] then [] else Reverse(s[1..]) + [s[0]]
  }

  lemma {:induction false} ReverseConcat(a: seq<Scope>, b: seq<Scope>)
    ensures Reverse(a + b) == Reverse(b) + Reverse(a)
    decreases |a|
  {
    if a == [] {
      assert a + b == b && Reverse(b) + [] == Reverse(b);
    } else {
      ReverseConcat(a[1..], b);
      assert (a + b)[1..] == a[1..] + b;
    }
  }

  /** What the stack still has to give, in post-order: the bottom first. */
  function Pending(stack: seq<Scope>): seq<Scope> {
    if stack == [] then [] else PostOrder(stack[0]) + Pending(stack[1..])
  }

  lemma {:induction false} PendingConcat(a: seq<Scope>, b: seq<Scope>)
    ensures Pending(a + b) == Pending(a) + Pending(b)
    decreases |a|
  {
    hide PostOrder;
    if a == [] {
      assert a + b == b;
    } else {
      PendingConcat(a[1..], b);
      assert (a + b)[1..] == a[1..] + b;
    }
  }

  lemma PendingOne(s: Scope)
    ensures Pending([s]) == PostOrder(s)
  {
    hide PostOrder;
    assert [s][1..] == [] && PostOrder(s) + [] == PostOrder(s);
  }

  lemma {:induction false} PendingChildren(s: Scope, n: nat)
    requires n <= |s.children|
    ensures Pending(s.children[..n]) == PostOrders(s, n)
  {
    hide PostOrder;
    if n == 0 {
    } else {
      PendingChildren(s, n - 1);
      assert s.children[..n] == s.children[..n - 1] + [s.children[n - 1]];
      PendingConcat(s.children[..n - 1], [s.children[n - 1]]);
      PendingOne(s.children[n - 1]);
    }
  }

  method PostOrderAnalysis(scope: Scope) returns (order: seq<Scope>)
    ensures order == PostOrder(scope)
  {
    hide PostOrder, PostOrders, Pending, Reverse;
    var spArray: seq<Scope> := [];
    var stack := [scope];
    PendingOne(scope);
    NothingReversed(Pending(stack));
    while |stack| > 0
      invariant Pending(stack) + Reverse(spArray) == PostOrder(scope)
      decreases |Pending(stack)|
    {
      var temp := stack[|stack| - 1];
      ghost var below := stack[..|stack| - 1];
      assert stack == below + [temp];
      PendingPopped(below, temp, spArray);
      stack := stack[..|stack| - 1];
      spArray := spArray + [temp];
      for i := 0 to |temp.children|
        invariant stack == below + temp.children[..i]
      {
        assert temp.children[..i + 1] == temp.children[..i] + [temp.children[i]];
        stack := stack + [temp.children[i]];
      }
      assert temp.children[..|temp.children|] == temp.children;
    }
    NothingPending(Reverse(spArray));
    order := Reverse(spArray);
  }

  lemma PendingPopped(below: seq<Scope>, top: Scope, visited: seq<Scope>)
    ensures Pending(below + [top]) + Reverse(visited) == Pending(below + top.children) + Reverse(visited + [top])
    ensures |Pending(below + [top])| == |Pending(below + top.children)| + 1
  {
    hide Pending, PostOrders;
    PendingConcat(below, [top]);
    PendingConcat(below, top.children);
    PendingOne(top);
    PendingChildren(top, |top.children|);
    assert top.children[..|top.children|] == top.children;
    ReverseConcat(visited, [top]);
    assert [top][1..] == [] && Reverse([top]) == [] + [top];
  }

  lemma NothingReversed(order: seq<Scope>)
    ensures order + Reverse([]) == order
  {
  }

  lemma NothingPending(order: seq<Scope>)
    ensures Pending([]) + order == order
  {
  }
}
