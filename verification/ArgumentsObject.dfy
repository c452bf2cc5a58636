/** The implicit declaration of `arguments`. */
module ArgumentsObject {
  import opened Scopes
  import opened Slots
  import opened References

  /** Parameter scopes and function scopes come in pairs. */
  ghost predicate ParamScopesOk(nodes: seq<ScopeNode>) {
    forall p {:trigger nodes[p]} :: 0 <= p < |nodes| && nodes[p].class_ == FunctionParam ==>
      && nodes[p].functionScope.Some? && nodes[p].functionScope.value < |nodes|
      && var f := nodes[nodes[p].functionScope.value];
         f.class_ == Function && f.parent == Some(p) && f.kind == nodes[p].kind
  }

  function FunctionScopeOf(nodes: seq<ScopeNode>, t: ScopeId): (f: ScopeId)
    requires t < |nodes| && HasArguments(nodes[t])
    requires (nodes[t].class_ == FunctionParam ==> nodes[t].functionScope.Some?)
  {
    if nodes[t].class_ == FunctionParam then nodes[t].functionScope.value else t
  }

  /** A variable of the function, bound in its scope and, when needed there, in that of its parameters. */
  function DeclareArguments(a: Arena, t: ScopeId, f: ScopeId): Arena
    requires a.Has(t) && a.Has(f)
  {
    if FUNCTION_ARGUMENTS in a.bindings[t] then
      a
    else
      var declared := AddVariable(a, f, FUNCTION_ARGUMENTS, NewLocal(Decl(Const, FUNCTION_ARGUMENTS), {Initialized}));
      declared.(bindings := declared.bindings[t := Inserted(declared.bindings[t], FUNCTION_ARGUMENTS, |a.vars|)])
  }

  ghost function WithArguments(st: State, t: ScopeId, f: ScopeId): State
    requires st.a.Has(t) && st.a.Has(f)
  {
    State(DeclareArguments(st.a, t, f),
          if FUNCTION_ARGUMENTS in st.a.bindings[t] then st.g else st.g.(home := st.g.home + [f]))
  }

  lemma ArgumentsKeepGood(st: State, seen: set<(ScopeId, string)>, t: ScopeId)
    requires Good(st, seen) && st.a.Has(t) && HasArguments(st.a.nodes[t])
    requires ParamScopesOk(st.a.nodes)
    requires FunctionScopeOf(st.a.nodes, t) !in st.g.initOf
    ensures st.a.Has(FunctionScopeOf(st.a.nodes, t))
    ensures var st' := WithArguments(st, t, FunctionScopeOf(st.a.nodes, t));
      Good(st', seen) && Later(st, st') && FUNCTION_ARGUMENTS in st'.a.bindings[t]
  {
    hide Resolved, Later, Chain, TreeOk;
    LaterReflexive(st);
    var f := FunctionScopeOf(st.a.nodes, t);
    if FUNCTION_ARGUMENTS !in st.a.bindings[t] {
      var x := NewLocal(Decl(Const, FUNCTION_ARGUMENTS), {Initialized});
      var st1 := WithVariable(st, f, FUNCTION_ARGUMENTS, x, None);
      NewVariableKeepsInv(st, f, FUNCTION_ARGUMENTS, x, None);
      forall r {:trigger r in seen} | r in seen
        ensures Resolved(st1, r.0, r.1)
      {
        ArgumentsKeepResolved(st, st1, f, |st.a.vars|, r.0, r.1);
      }
      ParamBindingKeepsGood(st1, seen, t, |st.a.vars|);
      LaterTransitive(st, st1, WithArguments(st, t, f));
    }
  }

  ghost function WithParamBinding(st: State, t: ScopeId, v: VariableId): State
    requires st.a.Has(t)
  {
    State(st.a.(bindings := st.a.bindings[t := Inserted(st.a.bindings[t], FUNCTION_ARGUMENTS, v)]), st.g)
  }

  lemma ParamBindingKeepsGood(st: State, seen: set<(ScopeId, string)>, t: ScopeId, v: VariableId)
    requires Good(st, seen) && st.a.Has(t) && HasArguments(st.a.nodes[t]) && v < |st.a.vars|
    requires st.a.nodes[t].class_ != FunctionParam ==> FUNCTION_ARGUMENTS in st.a.bindings[t]
    requires st.a.nodes[t].class_ == FunctionParam ==>
      var f := st.a.nodes[t].functionScope;
      && f.Some? && f.value < |st.a.nodes|
      && FUNCTION_ARGUMENTS in st.a.bindings[f.value] && st.g.home[v] == f.value
    ensures Good(WithParamBinding(st, t, v), seen) && Later(st, WithParamBinding(st, t, v))
  {
    var st' := WithParamBinding(st, t, v);
    ParamBindingKeepsBindings(st, t, v);
    SlotsFrame(st, st');
    ParamBindingKeepsLoops(st, t, v);
    LaterReflexive(st);
    assert Later(st, st');
    forall r {:trigger r in seen} | r in seen
      ensures Resolved(st', r.0, r.1)
    {
      ArgumentsKeepResolved(st, st', t, v, r.0, r.1);
    }
  }

  lemma ParamBindingKeepsBindings(st: State, t: ScopeId, v: VariableId)
    requires ArenaOk(st.a) && BindingsOk(st) && st.a.Has(t) && HasArguments(st.a.nodes[t]) && v < |st.a.vars|
    requires st.a.nodes[t].class_ != FunctionParam ==> FUNCTION_ARGUMENTS in st.a.bindings[t]
    requires st.a.nodes[t].class_ == FunctionParam ==>
      var f := st.a.nodes[t].functionScope;
      && f.Some? && f.value < |st.a.nodes|
      && FUNCTION_ARGUMENTS in st.a.bindings[f.value] && st.g.home[v] == f.value
    ensures ArenaOk(WithParamBinding(st, t, v).a) && BindingsOk(WithParamBinding(st, t, v))
  {
    var st' := WithParamBinding(st, t, v);
    forall s {:trigger ScopeOk(st', s)} | 0 <= s < |st'.a.nodes|
      ensures ScopeOk(st', s)
    {
      assert ScopeOk(st, s);
    }
    forall s {:trigger s in st'.g.initOf} | s in st'.g.initOf
      ensures InitScopeOk(st', s)
    {
      assert InitScopeOk(st, s);
    }
  }

  lemma ParamBindingKeepsLoops(st: State, t: ScopeId, v: VariableId)
    requires Inv(st) && st.a.Has(t) && v < |st.a.vars| && ArenaOk(WithParamBinding(st, t, v).a)
    requires st.a.nodes[t].class_ != FunctionParam ==> FUNCTION_ARGUMENTS in st.a.bindings[t]
    ensures LoopsOk(WithParamBinding(st, t, v).a)
  {
    var a' := WithParamBinding(st, t, v).a;
    forall l {:trigger LoopOk(a', l)} | 0 <= l < |a'.nodes| && IsLoopClass(a'.nodes[l].class_)
      ensures LoopOk(a', l)
    {
      assert LoopOk(st.a, l);
      forall s {:trigger RoomFor(a', s, a'.slotIndex[l])} |
          Converted(a', l) && 0 <= s < |a'.nodes| && a'.nodes[s].class_ != FunctionParam &&
            l in LoopsAround(a'.nodes, s)
        ensures RoomFor(a', s, a'.slotIndex[l])
      {
        assert Converted(st.a, l) && RoomFor(st.a, s, st.a.slotIndex[l]);
      }
    }
  }

  /** `arguments` is there, if the code in `s` has one. */
  ghost predicate ArgumentsDeclared(a: Arena, s: ScopeId)
    requires ArenaOk(a) && s < |a.nodes|
  {
    ArgumentsScope(a.nodes, s).Some? ==> FUNCTION_ARGUMENTS in a.bindings[ArgumentsScope(a.nodes, s).value]
  }

  /** Between a scope and its function there is no other place for `arguments`. */
  lemma {:induction false} ArgumentsOfFunction(st: State, s: ScopeId)
    requires ArenaOk(st.a) && BindingsOk(st) && s < |st.a.nodes| && st.a.nodes[s].class_ != FunctionParam
    ensures ArgumentsScope(st.a.nodes, s) == ArgumentsScope(st.a.nodes, FunctionOf(st.a.nodes, s))
    decreases s
  {
    if !IsFunctionType(st.a.nodes[s].class_) {
      assert ScopeOk(st, s);
      ArgumentsOfFunction(st, st.a.nodes[s].parent.value);
    }
  }

  /** The walk outwards of InstantiateArguments, past arrows. */
  method FindArgumentsScope(a: Arena, ghost g: Ledger, s: ScopeId) returns (r: Option<ScopeId>)
    requires Inv(State(a, g)) && s < |a.nodes| && Open(a, s)
    ensures r == ArgumentsScope(a.nodes, s)
  {
    var iter: ScopeId := s;
    while true
      invariant iter < |a.nodes| && Open(a, iter) && ArgumentsScope(a.nodes, s) == ArgumentsScope(a.nodes, iter)
      decreases iter
    {
      var target := iter;
      if a.nodes[iter].class_ != FunctionParam {
        ArgumentsOfFunction(State(a, g), iter);
        OpenIsPlain(a, iter, iter);
        PlainLoopsSkipped(a, iter);
        var varScope := EnclosingVariableScope(a, iter);
        target := varScope.value;
      }
      OpenAbove(a, iter, target);
      if IsTopType(a.nodes[target].class_) {
        return None;
      }
      if a.nodes[target].kind != Arrow {
        return Some(target);
      }
      iter := a.nodes[target].parent.value;
    }
  }

  /** Declare `arguments` where the code in `s` gets it from; `user` is the function to be marked as using it. */
  method InstantiateArguments(a0: Arena, ghost g0: Ledger, ghost seen: set<(ScopeId, string)>, s: ScopeId)
    returns (a: Arena, ghost g: Ledger, user: Option<ScopeId>)
    requires Good(State(a0, g0), seen) && s < |a0.nodes| && Open(a0, s) && ParamScopesOk(a0.nodes)
    requires forall i {:trigger i in g0.initOf} :: i in g0.initOf ==> a0.Has(i) && a0.nodes[i].class_ == Local
    ensures Good(State(a, g), seen) && Later(State(a0, g0), State(a, g))
    ensures a.nodes == a0.nodes && a.loopType == a0.loopType && g.initOf == g0.initOf
    ensures match ArgumentsScope(a0.nodes, s)
      case None => State(a, g) == State(a0, g0) && user == None
      case Some(t) =>
        var f := FunctionScopeOf(a0.nodes, t);
        && a0.Has(t) && a0.Has(f) && State(a, g) == WithArguments(State(a0, g0), t, f)
        && FUNCTION_ARGUMENTS in a.bindings[t]
        && user == if f == t || FUNCTION_ARGUMENTS !in a0.bindings[t] then Some(f) else None
  {
    LaterReflexive(State(a0, g0));
    a, g, user := a0, g0, None;
    var target := FindArgumentsScope(a, g, s);
    if target.Some? {
      var t := target.value;
      var f := FunctionScopeOf(a.nodes, t);
      ArgumentsKeepGood(State(a, g), seen, t);
      if f == t || FUNCTION_ARGUMENTS !in a.bindings[t] {
        user := Some(f);
      }
      g := WithArguments(State(a, g), t, f).g;
      a := DeclareArguments(a, t, f);
    }
  }
}
