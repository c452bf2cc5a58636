/** Which variables get captured, told from the scopes that the parser left and the references in the program alone. */
module Captures {
  import opened Scopes
  import opened Slots
  import opened SyntaxTree
  import opened References
  import opened Conversion
  import opened ArgumentsObject

  type Refs = set<(ScopeId, string)>

  // ---- What the program says.

  /** The innermost scope around `s` that binds `name`, except that functions have an `arguments` of their own. */
  ghost function Reach(a0: Arena, s: ScopeId, name: string): (h: Option<ScopeId>)
    requires ArenaOk(a0) && s < |a0.nodes|
    ensures h.Some? ==> h.value <= s && name in a0.bindings[h.value] && h.value in Chain(a0.nodes, s)
    decreases s
  {
    if name in a0.bindings[s] then Some(s)
    else if (name == FUNCTION_ARGUMENTS && HasArguments(a0.nodes[s])) || a0.nodes[s].parent.None? then None
    else Reach(a0, a0.nodes[s].parent.value, name)
  }

  /** A reference to `name` in `s` reaches the local `v` from another function. */
  ghost predicate ReachesAcross(a0: Arena, s: ScopeId, name: string, v: VariableId)
    requires ArenaOk(a0)
  {
    s < |a0.nodes| && v < |a0.vars| && a0.vars[v].kind == LocalVariable
    && var h := Reach(a0, s, name);
       h.Some? && a0.bindings[h.value][name] == v && !SameFunction(a0.nodes, s, h.value)
  }

  ghost predicate CapturedBy(a0: Arena, refs: Refs, v: VariableId)
    requires ArenaOk(a0)
  {
    exists r {:trigger r in refs} :: r in refs && ReachesAcross(a0, r.0, r.1, v)
  }

  /** Some `let` of the body scope `l` is captured. */
  ghost predicate LetReached(a0: Arena, refs: Refs, l: ScopeId)
    requires ArenaOk(a0) && l < |a0.nodes|
  {
    exists n {:trigger n in a0.bindings[l]} ::
      n in a0.bindings[l] && a0.vars[a0.bindings[l][n]].decl.kind == Let && CapturedBy(a0, refs, a0.bindings[l][n])
  }

  /** Some declaration of the loop head `d` is captured. */
  ghost predicate DeclReached(a0: Arena, refs: Refs, d: ScopeId)
    requires ArenaOk(a0) && d < |a0.nodes|
  {
    exists n {:trigger n in a0.bindings[d]} ::
      n in a0.bindings[d] && LetOrConst(a0.vars[a0.bindings[d][n]]) && CapturedBy(a0, refs, a0.bindings[d][n])
  }

  /** A `for` loop with a captured `let` in its body scope also has a captured declaration in its head. */
  ghost predicate LoopFits(a0: Arena, refs: Refs, l: ScopeId)
    requires ArenaOk(a0)
  {
    l < |a0.nodes| && a0.nodes[l].class_ == Loop && a0.nodes[l].declScope.Some? &&
      a0.nodes[l].declScope.value < |a0.nodes| ==>
      LetReached(a0, refs, l) ==> DeclReached(a0, refs, a0.nodes[l].declScope.value)
  }

  ghost predicate LoopsFit(a0: Arena, refs: Refs, ls: set<ScopeId>)
    requires ArenaOk(a0)
  {
    forall l {:trigger l in ls} :: l in ls ==> LoopFits(a0, refs, l)
  }

  // ---- Which functions use `arguments`.

  /** The function marked for a reference to `arguments` in `s`: a list that binds the name already marks none. */
  ghost function ArgumentsUser(a0: Arena, s: ScopeId): Option<ScopeId>
    requires ArenaOk(a0) && s < |a0.nodes|
  {
    match ArgumentsScope(a0.nodes, s)
    case None => None
    case Some(t) =>
      if a0.nodes[t].class_ != FunctionParam then Some(t)
      else if FUNCTION_ARGUMENTS in a0.bindings[t] then None
      else a0.nodes[t].functionScope
  }

  ghost predicate UsesArguments(a0: Arena, refs: Refs, f: ScopeId)
    requires ArenaOk(a0)
  {
    exists r {:trigger r in refs} ::
      r in refs && r.1 == FUNCTION_ARGUMENTS && r.0 < |a0.nodes| && ArgumentsUser(a0, r.0) == Some(f)
  }

  predicate IsParamScope(nodes: seq<ScopeNode>, p: ScopeId) {
    p < |nodes| && nodes[p].class_ == FunctionParam && nodes[p].kind != Arrow
  }

  /** Parameter lists bind `arguments` if the parser did it or they refer to it. */
  ghost predicate ParamsDeclared(a0: Arena, a: Arena, refs: Refs) {
    forall p: ScopeId {:trigger IsParamScope(a0.nodes, p)} ::
      IsParamScope(a0.nodes, p) && p < |a0.bindings| && p < |a.bindings| ==>
        (FUNCTION_ARGUMENTS in a.bindings[p] <==>
          FUNCTION_ARGUMENTS in a0.bindings[p] || (p, FUNCTION_ARGUMENTS) in refs)
  }

  /** What declaring `arguments` for the code in `s` does to parameter lists, and whom it says to mark. */
  ghost predicate Instantiated(a0: Arena, a: Arena, a': Arena, s: ScopeId, user: Option<ScopeId>) {
    && ArenaOk(a0) && s < |a0.nodes| <= |a.bindings| <= |a'.bindings|
    && (forall p: ScopeId {:trigger IsParamScope(a0.nodes, p)} :: IsParamScope(a0.nodes, p) ==>
          (FUNCTION_ARGUMENTS in a'.bindings[p] <==>
           FUNCTION_ARGUMENTS in a.bindings[p] || ArgumentsScope(a0.nodes, s) == Some(p)))
    && user == match ArgumentsScope(a0.nodes, s)
               case None => None
               case Some(t) =>
                 if a0.nodes[t].class_ != FunctionParam then Some(t)
                 else if FUNCTION_ARGUMENTS in a.bindings[t] then None
                 else a0.nodes[t].functionScope
  }

  ghost predicate UserFound(a0: Arena, a: Arena, a': Arena, s: ScopeId, name: string, user: Option<ScopeId>) {
    if name == FUNCTION_ARGUMENTS then Instantiated(a0, a, a', s, user) else a'.bindings == a.bindings && user == None
  }

  /** Parameter scopes lie right around their functions. */
  ghost predicate ListsOk(nodes: seq<ScopeNode>) {
    TreeOk(nodes) && ParamScopesOk(nodes) &&
    forall s {:trigger nodes[s]} :: 0 <= s < |nodes| && nodes[s].parent.Some? ==>
      var p := nodes[s].parent.value;
      nodes[p].class_ == FunctionParam ==> nodes[s].class_ == Function && nodes[p].functionScope == Some(s)
  }

  lemma ListsAreOk(st: State)
    requires ArenaOk(st.a) && BindingsOk(st) && ParamScopesOk(st.a.nodes)
    ensures ListsOk(st.a.nodes)
  {
    forall s {:trigger st.a.nodes[s]} | 0 <= s < |st.a.nodes|
      ensures ScopeOk(st, s)
    {
    }
  }

  /** Only the list itself gets its `arguments` from a parameter scope. */
  lemma {:induction false} ListIsItself(nodes: seq<ScopeNode>, s: ScopeId)
    requires ListsOk(nodes) && s < |nodes|
    ensures var t := ArgumentsScope(nodes, s); t.Some? && nodes[t.value].class_ == FunctionParam ==> t.value == s
    decreases s
  {
    if !HasArguments(nodes[s]) && nodes[s].parent.Some? {
      ListIsItself(nodes, nodes[s].parent.value);
    }
  }

  /** After one more reference, the functions that use `arguments` are those before and the one to be marked. */
  lemma UserIsMarked(a0: Arena, a: Arena, a': Arena, refs: Refs, s: ScopeId, name: string, user: Option<ScopeId>)
    requires ArenaOk(a0) && ListsOk(a0.nodes) && s < |a0.nodes| <= |a.bindings|
    requires ParamsDeclared(a0, a, refs) && UserFound(a0, a, a', s, name, user)
    ensures ParamsDeclared(a0, a', refs + {(s, name)})
    ensures forall f: ScopeId {:trigger UsesArguments(a0, refs + {(s, name)}, f)} ::
      UsesArguments(a0, refs + {(s, name)}, f) <==> UsesArguments(a0, refs, f) || user == Some(f)
  {
    var more := refs + {(s, name)};
    ListIsItself(a0.nodes, s);
    forall p: ScopeId {:trigger IsParamScope(a0.nodes, p)} | IsParamScope(a0.nodes, p)
      ensures (p, FUNCTION_ARGUMENTS) in more <==>
        (p, FUNCTION_ARGUMENTS) in refs || (name == FUNCTION_ARGUMENTS && p == s)
      ensures p == s ==> ArgumentsScope(a0.nodes, s) == Some(p)
    {
    }
    forall f: ScopeId {:trigger UsesArguments(a0, more, f)}
      ensures UsesArguments(a0, more, f) <==> UsesArguments(a0, refs, f) || user == Some(f)
    {
      UserOfOneMore(a0, a, a', refs, s, name, user, f);
    }
  }

  lemma UserOfOneMore(a0: Arena, a: Arena, a': Arena, refs: Refs, s: ScopeId, name: string, user: Option<ScopeId>,
                      f: ScopeId)
    requires ArenaOk(a0) && ListsOk(a0.nodes) && s < |a0.nodes| <= |a.bindings|
    requires ParamsDeclared(a0, a, refs) && UserFound(a0, a, a', s, name, user)
    ensures UsesArguments(a0, refs + {(s, name)}, f) <==> UsesArguments(a0, refs, f) || user == Some(f)
  {
    var more := refs + {(s, name)};
    ListIsItself(a0.nodes, s);
    assert (s, name) in more;
    if UsesArguments(a0, refs, f) {
      var r :| r in refs && r.1 == FUNCTION_ARGUMENTS && r.0 < |a0.nodes| && ArgumentsUser(a0, r.0) == Some(f);
      assert r in more;
    }
    if UsesArguments(a0, more, f) && !UsesArguments(a0, refs, f) {
      assert name == FUNCTION_ARGUMENTS && ArgumentsUser(a0, s) == Some(f);
      assert IsParamScope(a0.nodes, s) ==> (s, name) !in refs;
    }
    assert user == Some(f) && IsParamScope(a0.nodes, s) ==> FUNCTION_ARGUMENTS !in a0.bindings[s];
  }

  // ---- References elsewhere do not matter to a loop.

  ghost predicate Avoids(nodes: seq<ScopeNode>, refs: Refs, ls: set<ScopeId>) {
    TreeOk(nodes) && forall r {:trigger r in refs} :: r in refs ==> r.0 < |nodes| && NotAround(nodes, r.0, ls)
  }

  lemma {:induction false} RefsAvoid(nodes: seq<ScopeNode>, n: Ast, cur: ScopeId, lexes: set<ScopeId>, ls: set<ScopeId>)
    requires Around(nodes, lexes) && WellScoped(nodes, n, lexes) && cur < |nodes| && ls !! LoopsOf(nodes, n)
    requires Apart(nodes, lexes, ls) && NotAround(nodes, cur, ls)
    requires forall l {:trigger l in ls} :: l in ls ==> l < |nodes| && IsLoopClass(nodes[l].class_)
    ensures Avoids(nodes, RefsOf(nodes, n, cur), ls)
    decreases n, 1
  {
    match n
    case Reference(_) =>
    case Super =>
    case Other(children) => AllRefsAvoid(nodes, children, cur, lexes, ls);
    case Scoped(s, children) =>
      ScopeInside(nodes, s, lexes, ls);
      AllRefsAvoid(nodes, children, s, {s}, ls);
    case ScriptFunction(f, params, body) =>
      var p := nodes[f].parent.value;
      ScopeInside(nodes, p, lexes, ls);
      AllRefsAvoid(nodes, params, p, {p}, ls);
      ScopeInside(nodes, f, {p}, ls);
      AllRefsAvoid(nodes, body, f, {f}, ls);
    case While(_, _, _) => LoopRefsAvoid(nodes, n, cur, lexes, ls);
    case DoWhile(_, _, _) => LoopRefsAvoid(nodes, n, cur, lexes, ls);
    case ForUpdate(_, _, _, _, _) => ForUpdateRefsAvoid(nodes, n, cur, lexes, ls);
    case ForInOf(_, _, _, _) => ForInOfRefsAvoid(nodes, n, cur, lexes, ls);
  }

  lemma {:induction false} LoopRefsAvoid(nodes: seq<ScopeNode>, n: Ast, cur: ScopeId, lexes: set<ScopeId>,
                                         ls: set<ScopeId>)
    requires n.While? || n.DoWhile?
    requires Around(nodes, lexes) && WellScoped(nodes, n, lexes) && cur < |nodes| && ls !! LoopsOf(nodes, n)
    requires Apart(nodes, lexes, ls) && NotAround(nodes, cur, ls)
    requires forall l {:trigger l in ls} :: l in ls ==> l < |nodes| && IsLoopClass(nodes[l].class_)
    ensures Avoids(nodes, RefsOf(nodes, n, cur), ls)
    decreases n, 0
  {
    ScopeInside(nodes, n.loop, lexes, ls);
    RefsAvoid(nodes, n.body_, n.loop, {n.loop}, ls);
    RefsAvoid(nodes, n.test, cur, if n.While? then lexes else {n.loop}, ls);
  }

  lemma {:induction false} ForUpdateRefsAvoid(nodes: seq<ScopeNode>, n: Ast, cur: ScopeId, lexes: set<ScopeId>,
                                              ls: set<ScopeId>)
    requires n.ForUpdate?
    requires Around(nodes, lexes) && WellScoped(nodes, n, lexes) && cur < |nodes| && ls !! LoopsOf(nodes, n)
    requires Apart(nodes, lexes, ls) && NotAround(nodes, cur, ls)
    requires forall l {:trigger l in ls} :: l in ls ==> l < |nodes| && IsLoopClass(nodes[l].class_)
    ensures Avoids(nodes, RefsOf(nodes, n, cur), ls)
    decreases n, 0
  {
    var l, d := n.loop, nodes[n.loop].declScope.value;
    ForInside(nodes, l, lexes, ls);
    RefsAvoid(nodes, n.init, d, {d, l}, ls);
    RefsAvoid(nodes, n.update, d, {l}, ls);
    RefsAvoid(nodes, n.test, l, {l}, ls);
    RefsAvoid(nodes, n.body_, l, {l}, ls);
    hide Avoids, WellScoped, LoopsOf;
    AvoidAll(nodes, RefsOf(nodes, n.init, d), RefsOf(nodes, n.update, d), RefsOf(nodes, n.test, l),
             RefsOf(nodes, n.body_, l), ls);
  }

  lemma {:induction false} ForInOfRefsAvoid(nodes: seq<ScopeNode>, n: Ast, cur: ScopeId, lexes: set<ScopeId>,
                                            ls: set<ScopeId>)
    requires n.ForInOf?
    requires Around(nodes, lexes) && WellScoped(nodes, n, lexes) && cur < |nodes| && ls !! LoopsOf(nodes, n)
    requires Apart(nodes, lexes, ls) && NotAround(nodes, cur, ls)
    requires forall l {:trigger l in ls} :: l in ls ==> l < |nodes| && IsLoopClass(nodes[l].class_)
    ensures Avoids(nodes, RefsOf(nodes, n, cur), ls)
    decreases n, 0
  {
    var l, d := n.loop, nodes[n.loop].declScope.value;
    ForInside(nodes, l, lexes, ls);
    RefsAvoid(nodes, n.right, d, {d, l}, ls);
    RefsAvoid(nodes, n.left, d, {d, l}, ls);
    RefsAvoid(nodes, n.body_, l, {l}, ls);
    hide Avoids, WellScoped, LoopsOf;
    AvoidBoth(nodes, RefsOf(nodes, n.right, d), RefsOf(nodes, n.left, d), ls);
    AvoidBoth(nodes, RefsOf(nodes, n.right, d) + RefsOf(nodes, n.left, d), RefsOf(nodes, n.body_, l), ls);
  }

  lemma AvoidAll(nodes: seq<ScopeNode>, first: Refs, second: Refs, third: Refs, fourth: Refs, ls: set<ScopeId>)
    requires Avoids(nodes, first, ls) && Avoids(nodes, second, ls) && Avoids(nodes, third, ls)
    requires Avoids(nodes, fourth, ls)
    ensures Avoids(nodes, first + second + third + fourth, ls)
  {
  }

  lemma AvoidBoth(nodes: seq<ScopeNode>, refs: Refs, more: Refs, ls: set<ScopeId>)
    requires Avoids(nodes, refs, ls) && Avoids(nodes, more, ls)
    ensures Avoids(nodes, refs + more, ls)
  {
  }

  /** The two scopes of a `for` loop. */
  lemma ForInside(nodes: seq<ScopeNode>, l: ScopeId, lexes: set<ScopeId>, ls: set<ScopeId>)
    requires Around(nodes, lexes) && Apart(nodes, lexes, ls) && ForScopes(nodes, l, lexes)
    requires l !in ls && nodes[l].declScope.value !in ls
    ensures var d := nodes[l].declScope.value;
      && Around(nodes, {l}) && Around(nodes, {d, l}) && Apart(nodes, {l}, ls) && Apart(nodes, {d, l}, ls)
      && NotAround(nodes, d, ls) && NotAround(nodes, l, ls)
  {
    var d := nodes[l].declScope.value;
    ScopeInside(nodes, d, lexes, ls);
    ScopeInside(nodes, l, {d}, ls);
  }

  lemma {:induction false} AllRefsAvoid(nodes: seq<ScopeNode>, ns: seq<Ast>, cur: ScopeId, lexes: set<ScopeId>,
                                        ls: set<ScopeId>)
    requires Around(nodes, lexes) && AllWellScoped(nodes, ns, lexes) && cur < |nodes| && ls !! LoopsOfAll(nodes, ns)
    requires Apart(nodes, lexes, ls) && NotAround(nodes, cur, ls)
    requires forall l {:trigger l in ls} :: l in ls ==> l < |nodes| && IsLoopClass(nodes[l].class_)
    ensures Avoids(nodes, RefsOfAll(nodes, ns, cur), ls)
    decreases ns, 0
  {
    if ns != [] {
      RefsAvoid(nodes, ns[0], cur, lexes, ls);
      AllRefsAvoid(nodes, ns[1..], cur, lexes, ls);
    }
  }

  /** A scope right inside one of `lexes` that is none of the loops. */
  lemma ScopeInside(nodes: seq<ScopeNode>, s: ScopeId, lexes: set<ScopeId>, ls: set<ScopeId>)
    requires Around(nodes, lexes) && Apart(nodes, lexes, ls) && Within(nodes, s, lexes) && s !in ls
    ensures Around(nodes, {s}) && NotAround(nodes, s, ls) && Apart(nodes, {s}, ls)
  {
    assert NotAround(nodes, nodes[s].parent.value, ls);
    assert Chain(nodes, s) == [s] + Chain(nodes, nodes[s].parent.value);
  }

  /** The variables of `l` are bound nowhere else. */
  ghost predicate Unshared(a0: Arena, l: ScopeId)
    requires ArenaOk(a0) && l < |a0.nodes|
  {
    forall t, m, n {:trigger m in a0.bindings[t], n in a0.bindings[l]} ::
      0 <= t < |a0.nodes| && m in a0.bindings[t] && n in a0.bindings[l] && a0.bindings[t][m] == a0.bindings[l][n] ==>
        t == l
  }

  ghost predicate LoopsUnshared(a0: Arena)
    requires ArenaOk(a0)
  {
    forall l {:trigger Unshared(a0, l)} :: 0 <= l < |a0.nodes| && IsLoopClass(a0.nodes[l].class_) ==> Unshared(a0, l)
  }

  lemma HomesAreUnshared(st: State)
    requires ArenaOk(st.a) && BindingsOk(st) && ParamScopesOk(st.a.nodes) && st.g.initOf == map[]
    ensures LoopsUnshared(st.a)
  {
    forall l {:trigger Unshared(st.a, l)} | 0 <= l < |st.a.nodes| && IsLoopClass(st.a.nodes[l].class_)
      ensures Unshared(st.a, l)
    {
      forall t, m, n {:trigger m in st.a.bindings[t], n in st.a.bindings[l]} |
          0 <= t < |st.a.nodes| && m in st.a.bindings[t] && n in st.a.bindings[l] &&
            st.a.bindings[t][m] == st.a.bindings[l][n]
        ensures t == l
      {
        BoundAtHome(st, t, m);
        BoundAtHome(st, l, n);
      }
    }
  }

  lemma BoundAtHome(st: State, t: ScopeId, m: string)
    requires ArenaOk(st.a) && BindingsOk(st) && ParamScopesOk(st.a.nodes) && st.g.initOf == map[]
    requires t < |st.a.nodes| && m in st.a.bindings[t]
    ensures var h := st.g.home[st.a.bindings[t][m]];
      if st.a.nodes[t].class_ == FunctionParam then h < |st.a.nodes| && st.a.nodes[h].class_ == Function else h == t
  {
    assert ScopeOk(st, t);
    if st.a.nodes[t].class_ == FunctionParam {
      assert ScopeOk(st, st.a.nodes[t].functionScope.value);
    }
  }

  /** What is bound in a loop is reached from inside only. */
  lemma AvoidedNotReached(a0: Arena, refs: Refs, ls: set<ScopeId>, l: ScopeId, n: string)
    requires ArenaOk(a0) && Avoids(a0.nodes, refs, ls) && l in ls && l < |a0.nodes| && n in a0.bindings[l]
    requires Unshared(a0, l)
    ensures !CapturedBy(a0, refs, a0.bindings[l][n])
  {
    forall r {:trigger r in refs} | r in refs
      ensures !ReachesAcross(a0, r.0, r.1, a0.bindings[l][n])
    {
      assert NotAround(a0.nodes, r.0, ls);
    }
  }

  lemma CapturedByEither(a0: Arena, refs: Refs, more: Refs, v: VariableId)
    requires ArenaOk(a0)
    ensures CapturedBy(a0, refs + more, v) <==> CapturedBy(a0, refs, v) || CapturedBy(a0, more, v)
  {
    forall r {:trigger r in refs + more} | r in refs + more && ReachesAcross(a0, r.0, r.1, v)
      ensures CapturedBy(a0, refs, v) || CapturedBy(a0, more, v)
    {
      assert r in refs || r in more;
    }
    if CapturedBy(a0, refs, v) {
      var r :| r in refs && ReachesAcross(a0, r.0, r.1, v);
      assert r in refs + more;
    } else if CapturedBy(a0, more, v) {
      var r :| r in more && ReachesAcross(a0, r.0, r.1, v);
      assert r in refs + more;
    }
  }

  /** References that avoid the loops `ls` do not change whether those fit. */
  lemma FitsWithMore(a0: Arena, refs: Refs, more: Refs, ls: set<ScopeId>)
    requires ArenaOk(a0) && LoopsUnshared(a0) && LoopsWhole(a0.nodes, ls) && Avoids(a0.nodes, more, ls)
    ensures LoopsFit(a0, refs + more, ls) <==> LoopsFit(a0, refs, ls)
  {
    forall l {:trigger l in ls} | l in ls
      ensures LoopFits(a0, refs + more, l) <==> LoopFits(a0, refs, l)
    {
      ReachedAlike(a0, refs, more, ls, l);
      if a0.nodes[l].class_ == Loop && a0.nodes[l].declScope.Some? {
        ReachedAlike(a0, refs, more, ls, a0.nodes[l].declScope.value);
      }
    }
  }

  lemma ReachedAlike(a0: Arena, refs: Refs, more: Refs, ls: set<ScopeId>, l: ScopeId)
    requires ArenaOk(a0) && LoopsUnshared(a0) && Avoids(a0.nodes, more, ls) && l in ls && l < |a0.nodes|
    requires IsLoopClass(a0.nodes[l].class_)
    ensures LetReached(a0, refs + more, l) <==> LetReached(a0, refs, l)
    ensures DeclReached(a0, refs + more, l) <==> DeclReached(a0, refs, l)
  {
    assert Unshared(a0, l);
    forall n {:trigger n in a0.bindings[l]} | n in a0.bindings[l]
      ensures CapturedBy(a0, refs + more, a0.bindings[l][n]) <==> CapturedBy(a0, refs, a0.bindings[l][n])
    {
      CapturedByEither(a0, refs, more, a0.bindings[l][n]);
      AvoidedNotReached(a0, more, ls, l, n);
    }
  }

  /**
   * One part of the tree after the other: the references `more` of the second do not bear on the loops `ls` of the
   * first.
   */
  lemma FitsInTurn(a0: Arena, refs: Refs, more: Refs, ls: set<ScopeId>, rest: set<ScopeId>)
    requires ArenaOk(a0) && LoopsUnshared(a0) && LoopsWhole(a0.nodes, ls) && Avoids(a0.nodes, more, ls)
    ensures LoopsFit(a0, refs + more, ls + rest) <==> LoopsFit(a0, refs, ls) && LoopsFit(a0, refs + more, rest)
  {
    FitsWithMore(a0, refs, more, ls);
    assert forall l {:trigger l in ls + rest} :: l in ls + rest <==> l in ls || l in rest;
    assert forall l {:trigger l in ls} :: l in ls ==> l in ls + rest;
    assert forall l {:trigger l in rest} :: l in rest ==> l in ls + rest;
  }

  /** Without a `let` of its own in the body scope, a loop always fits. */
  lemma NoLetsFit(a0: Arena, refs: Refs, ls: set<ScopeId>)
    requires ArenaOk(a0)
    requires forall l, n {:trigger l in ls, n in a0.bindings[l]} :: l in ls && l < |a0.nodes| && n in a0.bindings[l] ==>
      a0.vars[a0.bindings[l][n]].decl.kind != Let
    ensures LoopsFit(a0, refs, ls)
  {
  }
}
