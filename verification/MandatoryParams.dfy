/** The hidden parameters of every function, and how arrows reach those of the function around them. */
module MandatoryParams {
  import opened Scopes
  import opened Slots
  import opened SyntaxTree
  import opened References
  import opened Progress

  const FUNCTION_MANDATORY_PARAMS: seq<string> := [MANDATORY_PARAM_FUNC, MANDATORY_PARAM_NEW_TARGET,
                                                   MANDATORY_PARAM_THIS]
  const ARROW_MANDATORY_PARAMS: seq<string> :=
    [MANDATORY_PARAM_FUNC, LEXICAL_MANDATORY_PARAM_NEW_TARGET, LEXICAL_MANDATORY_PARAM_THIS]
  const CTOR_ARROW_MANDATORY_PARAMS: seq<string> :=
    [LEXICAL_MANDATORY_PARAM_FUNC, LEXICAL_MANDATORY_PARAM_NEW_TARGET, LEXICAL_MANDATORY_PARAM_THIS]

  // ---- Variables that have been there before.

  /** Mandatory names are bound to the variables from `low` on. */
  ghost predicate NamesAbove(a: Arena, low: nat) {
    forall s, n {:trigger n in a.bindings[s]} :: 0 <= s < |a.bindings| && n in a.bindings[s] && n in MANDATORY_NAMES ==>
      a.bindings[s][n] >= low
  }

  ghost predicate SameBelow(a: Arena, a': Arena, low: nat) {
    forall v {:trigger a'.vars[v]} :: 0 <= v < low && v < |a.vars| && v < |a'.vars| ==>
      (a'.vars[v].Bound() <==> a.vars[v].Bound())
  }

  /** All other names are bound as before. */
  ghost predicate SameNames(a: Arena, a': Arena) {
    && a'.nodes == a.nodes && a'.loopType == a.loopType && |a'.bindings| == |a.bindings|
    && forall s, n {:trigger n in a'.bindings[s]} :: 0 <= s < |a.bindings| && n !in MANDATORY_NAMES ==>
         && (n in a'.bindings[s] <==> n in a.bindings[s])
         && (n in a.bindings[s] ==> a'.bindings[s][n] == a.bindings[s][n])
  }

  /** Variables not made for mandatory parameters are bound and captured as before. */
  ghost predicate LeavesOthers(a: Arena, a': Arena) {
    && |a.vars| <= |a'.vars| && SameNames(a, a')
    && forall low: nat {:trigger NamesAbove(a', low)} :: low <= |a.vars| && NamesAbove(a, low) ==>
         NamesAbove(a', low) && SameBelow(a, a', low)
  }

  lemma LeavesTransitive(a: Arena, a': Arena, a'': Arena)
    requires LeavesOthers(a, a') && LeavesOthers(a', a'')
    ensures LeavesOthers(a, a'')
  {
    forall low: nat {:trigger NamesAbove(a'', low)} | low <= |a.vars| && NamesAbove(a, low)
      ensures NamesAbove(a'', low) && SameBelow(a, a'', low)
    {
      assert NamesAbove(a', low);
      assert forall v {:trigger a''.vars[v]} :: 0 <= v < low ==> (a'.vars[v].Bound() <==> a.vars[v].Bound());
    }
  }

  lemma LeavesReflexive(a: Arena)
    ensures LeavesOthers(a, a)
  {
  }

  lemma NewVariableLeavesOthers(a: Arena, f: ScopeId, name: string, x: Variable)
    requires ArenaOk(a) && a.Has(f) && name in MANDATORY_NAMES
    ensures LeavesOthers(a, AddVariable(a, f, name, x))
  {
    var a' := AddVariable(a, f, name, x);
    assert SameNames(a, a');
    forall low: nat {:trigger NamesAbove(a', low)} | low <= |a.vars| && NamesAbove(a, low)
      ensures NamesAbove(a', low) && SameBelow(a, a', low)
    {
      NewNameAbove(a, f, name, x, low);
    }
  }

  lemma NewNameAbove(a: Arena, f: ScopeId, name: string, x: Variable, low: nat)
    requires ArenaOk(a) && a.Has(f) && low <= |a.vars| && NamesAbove(a, low)
    ensures NamesAbove(AddVariable(a, f, name, x), low)
  {
    var a' := AddVariable(a, f, name, x);
    forall s, n {:trigger n in a'.bindings[s]} | 0 <= s < |a'.bindings| && n in a'.bindings[s] && n in MANDATORY_NAMES
      ensures a'.bindings[s][n] >= low
    {
      assert n in a.bindings[s] ==> a.bindings[s][n] >= low;
    }
  }

  /** Only the variable that `name` was found to be bound to may have got a slot. */
  lemma LookupLeavesOthers(st: State, s: ScopeId, name: string)
    requires Inv(st) && s < |st.a.nodes| && name in MANDATORY_NAMES
    ensures LeavesOthers(st.a, LookedUp(st, s, name).a)
  {
    hide Inv, SameNames, NamesAbove, SameBelow, LookedUp;
    LookupSameNames(st, s, name);
    var a' := LookedUp(st, s, name).a;
    forall low: nat {:trigger NamesAbove(a', low)} | low <= |st.a.vars| && NamesAbove(st.a, low)
      ensures NamesAbove(a', low) && SameBelow(st.a, a', low)
    {
      LookupAbove(st, s, name, low);
    }
  }

  lemma LookupSameNames(st: State, s: ScopeId, name: string)
    requires Inv(st) && s < |st.a.nodes|
    ensures var a' := LookedUp(st, s, name).a; |a'.vars| == |st.a.vars| && SameNames(st.a, a')
  {
    hide Inv, Chain, FindIn;
    InvIsOk(st);
    FindIsHolder(st.a, s, name);
  }

  lemma LookupAbove(st: State, s: ScopeId, name: string, low: nat)
    requires Inv(st) && s < |st.a.nodes| && name in MANDATORY_NAMES && low <= |st.a.vars| && NamesAbove(st.a, low)
    ensures var a' := LookedUp(st, s, name).a; NamesAbove(a', low) && SameBelow(st.a, a', low)
  {
    hide Inv, Chain;
    InvIsOk(st);
    FindIsHolder(st.a, s, name);
    var r := FindIn(st.a, Chain(st.a.nodes, s), name);
    assert r.Found? ==> st.a.bindings[r.scope][name] >= low;
  }

  // ---- Adding parameters to one function.

  ghost function NamesIn(names: seq<string>): set<string> {
    set n | n in names
  }

  /** Only `f` has new bindings, of `names`. */
  ghost predicate OnlyBound(a0: Arena, a: Arena, f: ScopeId, names: set<string>)
    requires ArenaOk(a0) && a0.Has(f)
  {
    && a.nodes == a0.nodes && a.loopType == a0.loopType && |a.bindings| == |a0.bindings|
    && (forall s {:trigger a.bindings[s]} :: 0 <= s < |a0.bindings| && s != f ==> a.bindings[s] == a0.bindings[s])
    && (forall n {:trigger n in a.bindings[f]} :: n in a.bindings[f] <==> n in a0.bindings[f] || n in names)
    && (forall n {:trigger a.bindings[f][n]} :: n in a0.bindings[f] ==> a.bindings[f][n] == a0.bindings[f][n])
    && (forall n {:trigger a.bindings[f][n]} :: n in names && n !in a0.bindings[f] ==>
          n in a.bindings[f] && a.bindings[f][n] < |a.vars| && a.vars[a.bindings[f][n]].kind == LocalVariable)
  }

  /** `params` are variables named `names`, followed by what was there. */
  ghost predicate Prepended(a: Arena, names: seq<string>, rest: seq<VariableId>, params: seq<VariableId>) {
    && |params| == |names| + |rest| && params[|names|..] == rest
    && forall i {:trigger params[i]} :: 0 <= i < |names| ==>
         params[i] < |a.vars| && a.vars[params[i]].decl == Decl(Param, names[i])
  }

  ghost predicate MayTakeParams(st: State, f: ScopeId) {
    st.a.Has(f) && st.a.nodes[f].class_ != FunctionParam && f !in st.g.initOf
  }

  lemma GoodIsOk(st: State, seen: set<(ScopeId, string)>, f: ScopeId)
    requires Good(st, seen) && MayTakeParams(st, f)
    ensures ArenaOk(st.a) && st.a.Has(f)
  {
  }

  /** One round of AddMandatoryParams, which goes through the names backwards. */
  method AddMandatoryParam(a0: Arena, ghost g0: Ledger, ghost seen: set<(ScopeId, string)>, f: ScopeId, name: string,
                           params0: seq<VariableId>)
    returns (a: Arena, ghost g: Ledger, params: seq<VariableId>)
    requires Good(State(a0, g0), seen) && MayTakeParams(State(a0, g0), f) && name in MANDATORY_NAMES
    ensures Good(State(a, g), seen) && Later(State(a0, g0), State(a, g)) && MayTakeParams(State(a, g), f)
    ensures OnlyBound(a0, a, f, {name}) && g.initOf == g0.initOf
    ensures params == [|a0.vars|] + params0 && |a.vars| == |a0.vars| + 1 && a.vars[|a0.vars|].decl == Decl(Param, name)
    ensures LeavesOthers(a0, a)
  {
    var param := NewLocal(Decl(Param, name), {VarLike});
    MandatoryParamKeepsGood(State(a0, g0), seen, f, name, param);
    a := AddVariable(a0, f, name, param);
    g := WithVariable(State(a0, g0), f, name, param, None).g;
    params := [|a0.vars|] + params0;
    NewVariableLeavesOthers(a0, f, name, param);
  }

  method AddMandatoryParams(a0: Arena, ghost g0: Ledger, ghost seen: set<(ScopeId, string)>, f: ScopeId,
                            names: seq<string>,
                            params0: seq<VariableId>)
    returns (a: Arena, ghost g: Ledger, params: seq<VariableId>)
    requires Good(State(a0, g0), seen) && MayTakeParams(State(a0, g0), f)
    requires forall n {:trigger n in names} :: n in names ==> n in MANDATORY_NAMES
    ensures Good(State(a, g), seen) && Later(State(a0, g0), State(a, g))
    ensures OnlyBound(a0, a, f, NamesIn(names)) && Prepended(a, names, params0, params) && g.initOf == g0.initOf
    ensures LeavesOthers(a0, a)
  {
    hide *;
    LeavesReflexive(a0);
    GoodIsOk(State(a0, g0), seen, f);
    a, g, params := a0, g0, params0;
    LaterReflexive(State(a, g));
    NothingAdded(a0, f, names, params);
    var i := |names|;
    while i > 0
      invariant 0 <= i <= |names|
      invariant Good(State(a, g), seen) && Later(State(a0, g0), State(a, g)) && MayTakeParams(State(a, g), f)
      invariant OnlyBound(a0, a, f, NamesIn(names[i..])) && Prepended(a, names[i..], params0, params)
      invariant g.initOf == g0.initOf
      invariant LeavesOthers(a0, a)
    {
      i := i - 1;
      assert names[i] in names;
      ghost var st1, params1 := State(a, g), params;
      GoodIsOk(st1, seen, f);
      a, g, params := AddMandatoryParam(a, g, seen, f, names[i], params);
      GoodIsOk(State(a, g), seen, f);
      ParamAdded(State(a0, g0), st1, State(a, g), f, names, i, params0, params1, params);
      LeavesTransitive(a0, st1.a, a);
    }
    assert names[0..] == names;
  }

  lemma NothingAdded(a: Arena, f: ScopeId, names: seq<string>, params: seq<VariableId>)
    requires ArenaOk(a) && a.Has(f)
    ensures OnlyBound(a, a, f, NamesIn(names[|names|..])) && Prepended(a, names[|names|..], params, params)
  {
  }

  lemma ParamAdded(st0: State, st1: State, st: State, f: ScopeId, names: seq<string>, i: nat,
                   rest: seq<VariableId>, params1: seq<VariableId>, params: seq<VariableId>)
    requires ArenaOk(st0.a) && st0.a.Has(f) && ArenaOk(st1.a) && st1.a.Has(f) && i < |names|
    requires Later(st0, st1) && Later(st1, st)
    requires OnlyBound(st0.a, st1.a, f, NamesIn(names[i + 1..])) && OnlyBound(st1.a, st.a, f, {names[i]})
    requires Prepended(st1.a, names[i + 1..], rest, params1)
    requires params == [|st1.a.vars|] + params1 && |st.a.vars| == |st1.a.vars| + 1
    requires st.a.vars[|st1.a.vars|].decl == Decl(Param, names[i])
    ensures Later(st0, st) && OnlyBound(st0.a, st.a, f, NamesIn(names[i..]))
    ensures Prepended(st.a, names[i..], rest, params)
  {
    hide OnlyBound;
    LaterTransitive(st0, st1, st);
    assert names[i..] == [names[i]] + names[i + 1..];
    forall k {:trigger params[k]} | 0 <= k < |names[i..]|
      ensures params[k] < |st.a.vars| && st.a.vars[params[k]].decl == Decl(Param, names[i..][k])
    {
      if k > 0 {
        assert params[k] == params1[k - 1];
        assert SameVariable(st1.a.vars[params[k]], st.a.vars[params[k]]);
      }
    }
    assert NamesIn(names[i..]) == NamesIn(names[i + 1..]) + {names[i]};
    BoundMore(st0, st1, st, f, NamesIn(names[i + 1..]), names[i]);
  }

  lemma BoundMore(st0: State, st1: State, st: State, f: ScopeId, done: set<string>, name: string)
    requires ArenaOk(st0.a) && st0.a.Has(f) && ArenaOk(st1.a) && st1.a.Has(f) && Later(st1, st)
    requires OnlyBound(st0.a, st1.a, f, done) && OnlyBound(st1.a, st.a, f, {name})
    ensures OnlyBound(st0.a, st.a, f, done + {name})
  {
    forall n {:trigger st.a.bindings[f][n]} | n in done + {name} && n !in st0.a.bindings[f]
      ensures n in st.a.bindings[f] && st.a.bindings[f][n] < |st.a.vars|
      ensures st.a.vars[st.a.bindings[f][n]].kind == LocalVariable
    {
      if n in st1.a.bindings[f] {
        assert SameVariable(st1.a.vars[st1.a.bindings[f][n]], st.a.vars[st1.a.bindings[f][n]]);
      }
    }
  }

  // ---- Which function an arrow gets its `this` from.

  /** The innermost scope around `s`, itself included, that is one of `ds`. */
  ghost function Nearest(nodes: seq<ScopeNode>, s: ScopeId, ds: set<ScopeId>): (r: Option<ScopeId>)
    requires TreeOk(nodes) && s < |nodes|
    ensures r.Some? ==> r.value <= s && r.value in ds && r.value in Chain(nodes, s)
    decreases s
  {
    if s in ds then Some(s) else if nodes[s].parent.None? then None else Nearest(nodes, nodes[s].parent.value, ds)
  }

  /** The functions with a `this` of their own. */
  ghost function NonArrows(nodes: seq<ScopeNode>): set<ScopeId> {
    set s: nat | s < |nodes| && IsFunctionType(nodes[s].class_) && nodes[s].kind != Arrow
  }

  /**
   * An arrow with `super` that belongs to the constructor of a derived class; `supers` are the functions with `super`.
   */
  ghost predicate PassesSuper(nodes: seq<ScopeNode>, supers: set<ScopeId>, f: ScopeId)
    requires TreeOk(nodes) && f < |nodes|
  {
    nodes[f].kind == Arrow && f in supers &&
    var r := Nearest(nodes, f, NonArrows(nodes));
    r.Some? && nodes[r.value].kind == DerivedConstructor
  }

  /** The functions whose function object `=f` names. */
  ghost function FunctionObjects(nodes: seq<ScopeNode>, supers: set<ScopeId>): set<ScopeId>
    requires TreeOk(nodes)
  {
    set s: nat | s < |nodes| && IsFunctionType(nodes[s].class_) && !PassesSuper(nodes, supers, s)
  }

  ghost function MandatoryParamsOf(nodes: seq<ScopeNode>, supers: set<ScopeId>, f: ScopeId): seq<string>
    requires TreeOk(nodes) && f < |nodes|
  {
    if nodes[f].kind != Arrow then FUNCTION_MANDATORY_PARAMS
    else if PassesSuper(nodes, supers, f) then CTOR_ARROW_MANDATORY_PARAMS
    else ARROW_MANDATORY_PARAMS
  }

  lemma {:induction false} HolderIsNearestOf(a: Arena, s: ScopeId, name: string, ds: set<ScopeId>)
    requires ArenaOk(a) && s < |a.nodes|
    requires forall t {:trigger t in Chain(a.nodes, s)} :: t in Chain(a.nodes, s) ==>
      (name in a.bindings[t] <==> t in ds)
    ensures Holder(a, s, name) == Nearest(a.nodes, s, ds)
    decreases s
  {
    assert s in Chain(a.nodes, s);
    if name !in a.bindings[s] && a.nodes[s].parent.Some? {
      assert forall t {:trigger t in Chain(a.nodes, a.nodes[s].parent.value)} ::
        t in Chain(a.nodes, a.nodes[s].parent.value) ==> t in Chain(a.nodes, s);
      HolderIsNearestOf(a, a.nodes[s].parent.value, name, ds);
    }
  }

  /**
   * With an arrow passing `super` on, the function object found is that of the constructor if and only if
   * all arrows in between pass `super` on too.
   */
  lemma {:induction false} FunctionObjectIsConstructorsIff(nodes: seq<ScopeNode>, supers: set<ScopeId>, s: ScopeId)
    requires TreeOk(nodes) && s < |nodes| && Nearest(nodes, s, NonArrows(nodes)).Some?
    ensures var g := Nearest(nodes, s, NonArrows(nodes));
      Nearest(nodes, s, FunctionObjects(nodes, supers)) == g <==>
      forall t {:trigger PassesSuper(nodes, supers, t)} ::
        g.value < t <= s && t in Chain(nodes, s) && IsFunctionType(nodes[t].class_) ==>
        PassesSuper(nodes, supers, t)
    decreases s
  {
    var g := Nearest(nodes, s, NonArrows(nodes)).value;
    if s != g {
      var p := nodes[s].parent.value;
      FunctionObjectIsConstructorsIff(nodes, supers, p);
      assert forall t {:trigger t in Chain(nodes, s)} :: t in Chain(nodes, s) <==> t == s || t in Chain(nodes, p);
    }
  }

  // ---- The run over all functions.

  /** Every function comes after the functions around it. */
  ghost predicate OuterFirst(nodes: seq<ScopeNode>, fs: seq<ScopeId>)
    requires TreeOk(nodes)
  {
    forall i {:trigger fs[i]} :: 0 <= i < |fs| ==> fs[i] < |nodes| && OuterBefore(nodes, fs, i)
  }

  ghost predicate OuterBefore(nodes: seq<ScopeNode>, fs: seq<ScopeId>, i: nat)
    requires TreeOk(nodes) && i < |fs| && fs[i] < |nodes|
  {
    forall t {:trigger t in Chain(nodes, fs[i])} :: t in Chain(nodes, fs[i]) && IsFunctionType(nodes[t].class_) ==>
      t in fs[..i + 1]
  }

  /** The functions in `done`, and no other scopes, have got the names they declare. */
  ghost predicate NamesBound(a: Arena, nodes: seq<ScopeNode>, supers: set<ScopeId>, done: seq<ScopeId>)
    requires TreeOk(nodes)
  {
    && Declared(a, MANDATORY_PARAM_NEW_TARGET, NonArrows(nodes), done)
    && Declared(a, MANDATORY_PARAM_THIS, NonArrows(nodes), done)
    && Declared(a, MANDATORY_PARAM_FUNC, FunctionObjects(nodes, supers), done)
  }

  ghost predicate Declared(a: Arena, name: string, ds: set<ScopeId>, done: seq<ScopeId>) {
    forall s {:trigger a.bindings[s]} :: 0 <= s < |a.bindings| ==>
      && (name in a.bindings[s] <==> s in done && s in ds)
      && (name in a.bindings[s] ==> a.bindings[s][name] < |a.vars| && a.vars[a.bindings[s][name]].kind == LocalVariable)
  }

  /** From `f`, `name` is found in the nearest of `ds`, in an environment. */
  ghost predicate Reaches(a: Arena, nodes: seq<ScopeNode>, f: ScopeId, name: string, ds: set<ScopeId>)
    requires TreeOk(nodes) && f < |nodes|
  {
    var g := Nearest(nodes, f, ds);
    && g.Some? && g.value != f && g.value < |a.bindings| && name in a.bindings[g.value]
    && a.bindings[g.value][name] < |a.vars|
    && a.vars[a.bindings[g.value][name]].kind == LocalVariable && a.vars[a.bindings[g.value][name]].Bound()
  }

  /** `f` has what an arrow needs from outside. */
  ghost predicate ArrowServed(a: Arena, nodes: seq<ScopeNode>, supers: set<ScopeId>, f: ScopeId)
    requires TreeOk(nodes) && f < |nodes|
  {
    nodes[f].kind == Arrow ==>
      && Reaches(a, nodes, f, MANDATORY_PARAM_NEW_TARGET, NonArrows(nodes))
      && Reaches(a, nodes, f, MANDATORY_PARAM_THIS, NonArrows(nodes))
      && (PassesSuper(nodes, supers, f) ==> Reaches(a, nodes, f, MANDATORY_PARAM_FUNC, FunctionObjects(nodes, supers)))
  }

  /** Parameters bring the names of `f`, and only those. */
  lemma ParamsBindNames(a0: Arena, a: Arena, nodes: seq<ScopeNode>, supers: set<ScopeId>, done: seq<ScopeId>,
                        f: ScopeId)
    requires ArenaOk(a0) && ArenaOk(a) && a0.Has(f) && TreeOk(nodes) && f < |nodes| && f !in done
    requires IsFunctionType(nodes[f].class_)
    requires NamesBound(a0, nodes, supers, done)
    requires OnlyBound(a0, a, f, NamesIn(MandatoryParamsOf(nodes, supers, f)))
    requires |a0.vars| <= |a.vars|
    requires forall v {:trigger a.vars[v]} :: 0 <= v < |a0.vars| ==> SameVariable(a0.vars[v], a.vars[v])
    ensures NamesBound(a, nodes, supers, done + [f])
  {
    var names := NamesIn(MandatoryParamsOf(nodes, supers, f));
    assert MANDATORY_PARAM_NEW_TARGET in names <==> f in NonArrows(nodes) by { NamesDiffer(); }
    assert MANDATORY_PARAM_THIS in names <==> f in NonArrows(nodes) by { NamesDiffer(); }
    assert MANDATORY_PARAM_FUNC in names <==> f in FunctionObjects(nodes, supers) by { NamesDiffer(); }
    DeclaredMore(a0, a, f, names, MANDATORY_PARAM_NEW_TARGET, NonArrows(nodes), done);
    DeclaredMore(a0, a, f, names, MANDATORY_PARAM_THIS, NonArrows(nodes), done);
    DeclaredMore(a0, a, f, names, MANDATORY_PARAM_FUNC, FunctionObjects(nodes, supers), done);
  }

  lemma NamesDiffer()
    ensures forall n :: n in FUNCTION_MANDATORY_PARAMS <==>
      n == MANDATORY_PARAM_FUNC || n == MANDATORY_PARAM_NEW_TARGET || n == MANDATORY_PARAM_THIS
    ensures forall n :: n in ARROW_MANDATORY_PARAMS <==>
      n == MANDATORY_PARAM_FUNC || n == LEXICAL_MANDATORY_PARAM_NEW_TARGET || n == LEXICAL_MANDATORY_PARAM_THIS
    ensures forall n :: n in CTOR_ARROW_MANDATORY_PARAMS <==>
      n == LEXICAL_MANDATORY_PARAM_FUNC || n == LEXICAL_MANDATORY_PARAM_NEW_TARGET || n == LEXICAL_MANDATORY_PARAM_THIS
    ensures |MANDATORY_PARAM_FUNC| == |MANDATORY_PARAM_THIS| == |LEXICAL_MANDATORY_PARAM_FUNC| ==
      |LEXICAL_MANDATORY_PARAM_THIS| == 2
    ensures |MANDATORY_PARAM_NEW_TARGET| == |LEXICAL_MANDATORY_PARAM_NEW_TARGET| == 3
    ensures MANDATORY_PARAM_FUNC[0] == MANDATORY_PARAM_NEW_TARGET[0] == MANDATORY_PARAM_THIS[0] == '='
    ensures LEXICAL_MANDATORY_PARAM_FUNC[0] == LEXICAL_MANDATORY_PARAM_NEW_TARGET[0] ==
      LEXICAL_MANDATORY_PARAM_THIS[0] == '!'
    ensures MANDATORY_PARAM_FUNC[1] != MANDATORY_PARAM_THIS[1]
  {
  }

  lemma DeclaredMore(a0: Arena, a: Arena, f: ScopeId, names: set<string>, name: string, ds: set<ScopeId>,
                     done: seq<ScopeId>)
    requires ArenaOk(a0) && ArenaOk(a) && a0.Has(f) && OnlyBound(a0, a, f, names) && Declared(a0, name, ds, done)
    requires f !in done
    requires name in names <==> f in ds
    requires |a0.vars| <= |a.vars|
    requires forall v {:trigger a.vars[v]} :: 0 <= v < |a0.vars| ==> SameVariable(a0.vars[v], a.vars[v])
    ensures Declared(a, name, ds, done + [f])
  {
    forall s {:trigger a.bindings[s]} | 0 <= s < |a.bindings|
      ensures name in a.bindings[s] <==> s in done + [f] && s in ds
      ensures name in a.bindings[s] ==>
        a.bindings[s][name] < |a.vars| && a.vars[a.bindings[s][name]].kind == LocalVariable
    {
      assert name in a0.bindings[s] <==> s in done && s in ds;
      if name in a0.bindings[s] {
        assert SameVariable(a0.vars[a0.bindings[s][name]], a.vars[a0.bindings[s][name]]);
      }
    }
  }

  // ---- One function.

  lemma {:induction false} NearestKept(nodes: seq<ScopeNode>, nodes': seq<ScopeNode>, s: ScopeId, ds: set<ScopeId>)
    requires TreeOk(nodes) && TreeOk(nodes') && nodes <= nodes' && s < |nodes|
    ensures Nearest(nodes', s, ds) == Nearest(nodes, s, ds)
    decreases s
  {
    assert nodes'[s] == nodes[s];
    if s !in ds && nodes[s].parent.Some? {
      NearestKept(nodes, nodes', nodes[s].parent.value, ds);
    }
  }

  /** `ds` are functions other than `f`, and all those around `f` have been dealt with. */
  ghost predicate MayLookup(a: Arena, tree: seq<ScopeNode>, done: seq<ScopeId>, f: ScopeId, name: string,
                            ds: set<ScopeId>) {
    && ArenaOk(a) && TreeOk(tree) && tree <= a.nodes && f < |tree| && IsFunctionType(tree[f].class_)
    && f !in ds && (forall t {:trigger t in ds} :: t in ds ==> t < |tree| && IsFunctionType(tree[t].class_))
    && (forall t {:trigger t in Chain(tree, f)} :: t in Chain(tree, f) && IsFunctionType(tree[t].class_) ==> t in done)
    && Nearest(tree, f, ds).Some? && Declared(a, name, ds, done)
  }

  lemma LookupLandsOnNearest(a: Arena, tree: seq<ScopeNode>, done: seq<ScopeId>, f: ScopeId, name: string,
                             ds: set<ScopeId>)
    requires MayLookup(a, tree, done, f, name, ds)
    ensures Holder(a, f, name) == Nearest(tree, f, ds) && HolderIsPlain(a, f, name)
    ensures Holder(a, f, name).value != f && !SameFunction(a.nodes, f, Holder(a, f, name).value)
  {
    ChainKept(tree, a.nodes, f);
    NearestKept(tree, a.nodes, f, ds);
    forall t {:trigger t in Chain(a.nodes, f)} | t in Chain(a.nodes, f)
      ensures name in a.bindings[t] <==> t in ds
    {
      assert t in Chain(tree, f);
    }
    HolderIsNearestOf(a, f, name, ds);
    var g := Holder(a, f, name).value;
    assert a.nodes[g] == tree[g] && a.nodes[f] == tree[f];
  }

  /** A lookup made on behalf of an arrow: it leaves the arrow, ends at the nearest of `ds`, and captures. */
  method LookupFromArrow(a0: Arena, ghost g0: Ledger, ghost seen: set<(ScopeId, string)>, ghost tree: seq<ScopeNode>,
                         ghost done: seq<ScopeId>, f: ScopeId, name: string, ghost ds: set<ScopeId>)
    returns (a: Arena, ghost g: Ledger, res: FindResult)
    requires Good(State(a0, g0), seen) && MayLookup(a0, tree, done, f, name, ds) && name in MANDATORY_NAMES
    ensures Good(State(a, g), seen) && Later(State(a0, g0), State(a, g)) && g.initOf == g0.initOf
    ensures a.bindings == a0.bindings && a.nodes == a0.nodes && a.loopType == a0.loopType
    ensures res.Found? && res.level >= 1 && Nearest(tree, f, ds) == Some(res.scope)
    ensures Reaches(a, tree, f, name, ds)
    ensures LeavesOthers(a0, a)
  {
    LookupLeavesOthers(State(a0, g0), f, name);
    LookupLandsOnNearest(a0, tree, done, f, name, ds);
    FindIsHolder(a0, f, name);
    res, a, g := LookupReference(a0, g0, seen, f, name);
    HolderKept(a0, a, f, name);
    assert SameVariable(a0.vars[a0.bindings[res.scope][name]], a.vars[a0.bindings[res.scope][name]]);
  }

  /** What is bound stays bound to the same variable. */
  ghost predicate BindingsStay(a: Arena, a': Arena) {
    |a.bindings| <= |a'.bindings| &&
    forall s {:trigger a'.bindings[s]} :: 0 <= s < |a.bindings| ==>
      forall n {:trigger n in a.bindings[s]} :: n in a.bindings[s] ==>
        n in a'.bindings[s] && a'.bindings[s][n] == a.bindings[s][n]
  }

  /** `f` has its parameters, and what it needs from outside if it is an arrow. */
  ghost predicate Served(a: Arena, tree: seq<ScopeNode>, supers: set<ScopeId>, f: ScopeId, rest: seq<VariableId>,
                         params: seq<VariableId>)
    requires TreeOk(tree) && f < |tree|
  {
    Prepended(a, MandatoryParamsOf(tree, supers, f), rest, params) && ArrowServed(a, tree, supers, f)
  }

  lemma ServedKept(st: State, st': State, tree: seq<ScopeNode>, supers: set<ScopeId>, f: ScopeId, rest: seq<VariableId>,
                   params: seq<VariableId>)
    requires TreeOk(tree) && f < |tree| && Served(st.a, tree, supers, f, rest, params)
    requires Later(st, st') && BindingsStay(st.a, st'.a)
    ensures Served(st'.a, tree, supers, f, rest, params)
  {
    PrependedKept(st, st', MandatoryParamsOf(tree, supers, f), rest, params);
    if tree[f].kind == Arrow {
      ReachesKept(st, st', tree, f, MANDATORY_PARAM_NEW_TARGET, NonArrows(tree));
      ReachesKept(st, st', tree, f, MANDATORY_PARAM_THIS, NonArrows(tree));
      if PassesSuper(tree, supers, f) {
        ReachesKept(st, st', tree, f, MANDATORY_PARAM_FUNC, FunctionObjects(tree, supers));
      }
    }
  }

  lemma ReachesKept(st: State, st': State, tree: seq<ScopeNode>, f: ScopeId, name: string, ds: set<ScopeId>)
    requires TreeOk(tree) && f < |tree| && Reaches(st.a, tree, f, name, ds) && Later(st, st')
    requires BindingsStay(st.a, st'.a)
    ensures Reaches(st'.a, tree, f, name, ds)
  {
    var g := Nearest(tree, f, ds).value;
    assert st'.a.bindings[g][name] == st.a.bindings[g][name];
    assert SameVariable(st.a.vars[st.a.bindings[g][name]], st'.a.vars[st.a.bindings[g][name]]);
  }

  lemma DeclaredKept(st: State, st': State, name: string, ds: set<ScopeId>, done: seq<ScopeId>)
    requires Later(st, st') && st'.a.bindings == st.a.bindings && Declared(st.a, name, ds, done)
    ensures Declared(st'.a, name, ds, done)
  {
    forall s {:trigger st'.a.bindings[s]} | 0 <= s < |st'.a.bindings| && name in st'.a.bindings[s]
      ensures st'.a.bindings[s][name] < |st'.a.vars| && st'.a.vars[st'.a.bindings[s][name]].kind == LocalVariable
    {
      assert SameVariable(st.a.vars[st.a.bindings[s][name]], st'.a.vars[st.a.bindings[s][name]]);
    }
  }

  /** The outermost scopes have a `this`. */
  ghost predicate TopsOk(nodes: seq<ScopeNode>) {
    forall s {:trigger nodes[s]} :: 0 <= s < |nodes| && IsTopType(nodes[s].class_) ==> nodes[s].kind == Plain
  }

  lemma {:induction false} SomeNonArrow(nodes: seq<ScopeNode>, supers: set<ScopeId>, s: ScopeId)
    requires TreeOk(nodes) && TopsOk(nodes) && s < |nodes|
    ensures Nearest(nodes, s, NonArrows(nodes)).Some? && Nearest(nodes, s, FunctionObjects(nodes, supers)).Some?
    decreases s
  {
    if s !in NonArrows(nodes) {
      assert nodes[s].parent.Some?;
      SomeNonArrow(nodes, supers, nodes[s].parent.value);
    } else {
      assert !PassesSuper(nodes, supers, s);
    }
  }

  /** All functions in `done` have their parameters, and `f` is an arrow among them that comes after those around it. */
  ghost predicate ArrowReady(a: Arena, tree: seq<ScopeNode>, supers: set<ScopeId>, done: seq<ScopeId>, f: ScopeId) {
    && ArenaOk(a) && TreeOk(tree) && TopsOk(tree) && tree <= a.nodes && f < |tree|
    && IsFunctionType(tree[f].class_) && tree[f].kind == Arrow && NamesBound(a, tree, supers, done)
    && (forall t {:trigger t in Chain(tree, f)} :: t in Chain(tree, f) && IsFunctionType(tree[t].class_) ==> t in done)
  }

  lemma ArrowMayLookup(a: Arena, tree: seq<ScopeNode>, supers: set<ScopeId>, done: seq<ScopeId>, f: ScopeId)
    requires ArrowReady(a, tree, supers, done, f)
    ensures MayLookup(a, tree, done, f, MANDATORY_PARAM_NEW_TARGET, NonArrows(tree))
    ensures MayLookup(a, tree, done, f, MANDATORY_PARAM_THIS, NonArrows(tree))
    ensures PassesSuper(tree, supers, f) ==>
      MayLookup(a, tree, done, f, MANDATORY_PARAM_FUNC, FunctionObjects(tree, supers))
  {
    SomeNonArrow(tree, supers, f);
  }

  lemma ArrowStaysReady(st: State, st': State, tree: seq<ScopeNode>, supers: set<ScopeId>, done: seq<ScopeId>,
                        f: ScopeId)
    requires ArrowReady(st.a, tree, supers, done, f) && Later(st, st') && ArenaOk(st'.a)
    requires st'.a.bindings == st.a.bindings && st'.a.nodes == st.a.nodes
    ensures ArrowReady(st'.a, tree, supers, done, f)
  {
    DeclaredKept(st, st', MANDATORY_PARAM_NEW_TARGET, NonArrows(tree), done);
    DeclaredKept(st, st', MANDATORY_PARAM_THIS, NonArrows(tree), done);
    DeclaredKept(st, st', MANDATORY_PARAM_FUNC, FunctionObjects(tree, supers), done);
  }

  /** The lookups of AddMandatoryParams for an arrow; `lexicalFunctionObject` is whether it passes `super` on. */
  method ServeArrow(a0: Arena, ghost g0: Ledger, ghost seen: set<(ScopeId, string)>, ghost tree: seq<ScopeNode>,
                    ghost supers: set<ScopeId>,
                    ghost done: seq<ScopeId>, f: ScopeId, lexicalFunctionObject: bool)
    returns (a: Arena, ghost g: Ledger)
    requires Good(State(a0, g0), seen) && ArrowReady(a0, tree, supers, done, f)
    requires lexicalFunctionObject == PassesSuper(tree, supers, f)
    ensures Good(State(a, g), seen) && Later(State(a0, g0), State(a, g)) && g.initOf == g0.initOf
    ensures a.bindings == a0.bindings && a.nodes == a0.nodes && a.loopType == a0.loopType
    ensures ArrowReady(a, tree, supers, done, f) && ArrowServed(a, tree, supers, f) && LeavesOthers(a0, a)
  {
    ArrowMayLookup(a0, tree, supers, done, f);
    var res;
    a, g, res := LookupFromArrow(a0, g0, seen, tree, done, f, MANDATORY_PARAM_NEW_TARGET, NonArrows(tree));
    ghost var st1 := State(a, g);
    ArrowStaysReady(State(a0, g0), st1, tree, supers, done, f);
    ArrowMayLookup(a, tree, supers, done, f);
    a, g, res := LookupFromArrow(a, g, seen, tree, done, f, MANDATORY_PARAM_THIS, NonArrows(tree));
    ghost var st2 := State(a, g);
    ArrowStaysReady(st1, st2, tree, supers, done, f);
    LaterTransitive(State(a0, g0), st1, st2);
    LeavesTransitive(a0, st1.a, a);
    ReachesKept(st1, st2, tree, f, MANDATORY_PARAM_NEW_TARGET, NonArrows(tree));
    if lexicalFunctionObject {
      ArrowMayLookup(a, tree, supers, done, f);
      a, g, res := LookupFromArrow(a, g, seen, tree, done, f, MANDATORY_PARAM_FUNC, FunctionObjects(tree, supers));
      ArrowStaysReady(st2, State(a, g), tree, supers, done, f);
      LaterTransitive(State(a0, g0), st2, State(a, g));
      LeavesTransitive(a0, st2.a, a);
      ReachesKept(st2, State(a, g), tree, f, MANDATORY_PARAM_NEW_TARGET, NonArrows(tree));
      ReachesKept(st2, State(a, g), tree, f, MANDATORY_PARAM_THIS, NonArrows(tree));
    }
  }

  /** Function `i` of `fs` is next. */
  ghost predicate NextFunction(st: State, tree: seq<ScopeNode>, supers: set<ScopeId>, fs: seq<ScopeId>, i: nat) {
    && TreeOk(tree) && TopsOk(tree) && tree <= st.a.nodes && i < |fs| && OuterFirst(tree, fs)
    && (forall j {:trigger fs[j]} :: 0 <= j < |fs| ==> IsFunctionType(tree[fs[j]].class_) && (j < i ==> fs[j] != fs[i]))
    && MayTakeParams(st, fs[i]) && NamesBound(st.a, tree, supers, fs[..i])
  }

  method ServeFunction(a0: Arena, ghost g0: Ledger, ghost seen: set<(ScopeId, string)>, ghost tree: seq<ScopeNode>,
                       ghost supers: set<ScopeId>,
                       ghost fs: seq<ScopeId>, ghost i: nat, f: ScopeId, lexicalFunctionObject: bool,
                       rest: seq<VariableId>)
    returns (a: Arena, ghost g: Ledger, params: seq<VariableId>)
    requires Good(State(a0, g0), seen) && NextFunction(State(a0, g0), tree, supers, fs, i) && f == fs[i]
    requires tree[f].kind == Arrow ==> lexicalFunctionObject == PassesSuper(tree, supers, f)
    ensures Good(State(a, g), seen) && Later(State(a0, g0), State(a, g)) && g.initOf == g0.initOf
    ensures a.nodes == a0.nodes && a.loopType == a0.loopType && BindingsStay(a0, a)
    ensures NamesBound(a, tree, supers, fs[..i + 1]) && Served(a, tree, supers, f, rest, params)
    ensures LeavesOthers(a0, a)
  {
    hide *;
    NextMeans(State(a0, g0), tree, supers, fs, i);
    var names := HiddenParams(a0.nodes[f].kind, lexicalFunctionObject);
    NamesAreMandatory(tree, supers, f, lexicalFunctionObject);
    a, g, params := AddMandatoryParams(a0, g0, seen, f, names, rest);
    ghost var st1 := State(a, g);
    ParamsTaken(State(a0, g0), st1, seen, tree, supers, fs, i);
    if a0.nodes[f].kind == Arrow {
      a, g := ServeArrow(a, g, seen, tree, supers, fs[..i + 1], f, lexicalFunctionObject);
      LaterTransitive(State(a0, g0), st1, State(a, g));
      LeavesTransitive(a0, st1.a, a);
      PrependedKept(st1, State(a, g), names, rest, params);
      ReadyMeans(a, tree, supers, fs[..i + 1], f);
      BindingsStayToo(a0, st1.a, a);
    }
    ServedMeans(a, tree, supers, f, rest, params);
  }

  function HiddenParams(kind: FunctionKind, lexicalFunctionObject: bool): seq<string> {
    if kind != Arrow then FUNCTION_MANDATORY_PARAMS
    else if lexicalFunctionObject then CTOR_ARROW_MANDATORY_PARAMS
    else ARROW_MANDATORY_PARAMS
  }

  lemma NextMeans(st: State, tree: seq<ScopeNode>, supers: set<ScopeId>, fs: seq<ScopeId>, i: nat)
    requires NextFunction(st, tree, supers, fs, i)
    ensures TreeOk(tree) && i < |fs| && fs[i] < |tree| <= |st.a.nodes| && st.a.nodes[fs[i]] == tree[fs[i]]
    ensures MayTakeParams(st, fs[i])
  {
  }

  /** What the new parameters of the next function do for it. */
  lemma ParamsTaken(st0: State, st: State, seen: set<(ScopeId, string)>, tree: seq<ScopeNode>, supers: set<ScopeId>,
                    fs: seq<ScopeId>,
                    i: nat)
    requires NextFunction(st0, tree, supers, fs, i) && Good(st0, seen) && Good(st, seen) && Later(st0, st)
    requires OnlyBound(st0.a, st.a, fs[i], NamesIn(MandatoryParamsOf(tree, supers, fs[i])))
    ensures NamesBound(st.a, tree, supers, fs[..i + 1]) && BindingsStay(st0.a, st.a)
    ensures st.a.nodes == st0.a.nodes && st.a.loopType == st0.a.loopType
    ensures tree[fs[i]].kind == Arrow ==> ArrowReady(st.a, tree, supers, fs[..i + 1], fs[i])
    ensures tree[fs[i]].kind != Arrow ==> ArrowServed(st.a, tree, supers, fs[i])
  {
    hide Inv, NamesBound, MandatoryParamsOf;
    InvIsOk(st0);
    InvIsOk(st);
    ParamsBindNames(st0.a, st.a, tree, supers, fs[..i], fs[i]);
    assert fs[..i] + [fs[i]] == fs[..i + 1];
    assert OuterBefore(tree, fs, i);
  }

  lemma InvIsOk(st: State)
    requires Inv(st)
    ensures ArenaOk(st.a)
  {
  }

  lemma ReadyMeans(a: Arena, tree: seq<ScopeNode>, supers: set<ScopeId>, done: seq<ScopeId>, f: ScopeId)
    requires ArrowReady(a, tree, supers, done, f)
    ensures TreeOk(tree) && NamesBound(a, tree, supers, done)
  {
  }

  lemma BindingsStayToo(a: Arena, a1: Arena, a': Arena)
    requires BindingsStay(a, a1) && a'.bindings == a1.bindings
    ensures BindingsStay(a, a')
  {
  }

  lemma ServedMeans(a: Arena, tree: seq<ScopeNode>, supers: set<ScopeId>, f: ScopeId, rest: seq<VariableId>,
                    params: seq<VariableId>)
    requires TreeOk(tree) && f < |tree| && Prepended(a, MandatoryParamsOf(tree, supers, f), rest, params)
    requires ArrowServed(a, tree, supers, f)
    ensures Served(a, tree, supers, f, rest, params)
  {
  }

  lemma NamesAreMandatory(tree: seq<ScopeNode>, supers: set<ScopeId>, f: ScopeId, lexicalFunctionObject: bool)
    requires TreeOk(tree) && f < |tree|
    requires tree[f].kind == Arrow ==> lexicalFunctionObject == PassesSuper(tree, supers, f)
    ensures var names := HiddenParams(tree[f].kind, lexicalFunctionObject);
      && names == MandatoryParamsOf(tree, supers, f)
      && forall n {:trigger n in names} :: n in names ==> n in MANDATORY_NAMES
  {
  }

  lemma PrependedKept(st: State, st': State, names: seq<string>, rest: seq<VariableId>, params: seq<VariableId>)
    requires Later(st, st') && Prepended(st.a, names, rest, params)
    ensures Prepended(st'.a, names, rest, params)
  {
    forall i {:trigger params[i]} | 0 <= i < |names|
      ensures params[i] < |st'.a.vars| && st'.a.vars[params[i]].decl == Decl(Param, names[i])
    {
      assert SameVariable(st.a.vars[params[i]], st'.a.vars[params[i]]);
    }
  }

  /** The constructor of a derived class that the arrow `f` belongs to. */
  method FindConstructor(nodes: seq<ScopeNode>, f: ScopeId) returns (r: Option<ScopeId>)
    requires TreeOk(nodes) && f < |nodes| && nodes[f].kind == Arrow
    ensures var g := Nearest(nodes, f, NonArrows(nodes));
      r == if g.Some? && nodes[g.value].kind == DerivedConstructor then g else None
  {
    var iter: Option<ScopeId> := nodes[f].parent;
    while iter.Some?
      invariant iter.Some? ==> iter.value < |nodes|
      invariant Nearest(nodes, f, NonArrows(nodes)) == if iter.None? then None
        else Nearest(nodes, iter.value, NonArrows(nodes))
      decreases if iter.None? then 0 else iter.value + 1
    {
      var s := iter.value;
      if IsFunctionType(nodes[s].class_) && nodes[s].kind != Arrow {
        return if nodes[s].kind == DerivedConstructor then Some(s) else None;
      }
      iter := nodes[s].parent;
    }
    return None;
  }

  lemma {:induction false} FunctionEncloses(nodes: seq<ScopeNode>, s: ScopeId)
    requires TreeOk(nodes) && s < |nodes|
    ensures FunctionOf(nodes, s) in Chain(nodes, s)
    decreases s
  {
    if !IsFunctionType(nodes[s].class_) {
      FunctionEncloses(nodes, nodes[s].parent.value);
    }
  }

  lemma {:induction false} NearestFromFunction(nodes: seq<ScopeNode>, s: ScopeId)
    requires TreeOk(nodes) && s < |nodes|
    ensures Nearest(nodes, s, NonArrows(nodes)) == Nearest(nodes, FunctionOf(nodes, s), NonArrows(nodes))
    decreases s
  {
    if !IsFunctionType(nodes[s].class_) {
      NearestFromFunction(nodes, nodes[s].parent.value);
    }
  }

  // ---- The order of the functions.

  /** With functions around `lexes` among `outer`, every function of `fs` comes after the functions around it. */
  ghost predicate After(nodes: seq<ScopeNode>, outer: set<ScopeId>, fs: seq<ScopeId>)
    requires TreeOk(nodes)
  {
    forall i {:trigger fs[i]} :: 0 <= i < |fs| ==> fs[i] < |nodes| && AfterOuter(nodes, outer, fs, i)
  }

  ghost predicate AfterOuter(nodes: seq<ScopeNode>, outer: set<ScopeId>, fs: seq<ScopeId>, i: nat)
    requires TreeOk(nodes) && i < |fs| && fs[i] < |nodes|
  {
    forall t {:trigger t in Chain(nodes, fs[i])} :: t in Chain(nodes, fs[i]) && IsFunctionType(nodes[t].class_) ==>
      t in outer || t in fs[..i + 1]
  }

  ghost predicate FunctionsAmong(nodes: seq<ScopeNode>, lexes: set<ScopeId>, outer: set<ScopeId>)
    requires Around(nodes, lexes)
  {
    forall p {:trigger p in lexes} :: p in lexes ==>
      forall t {:trigger t in Chain(nodes, p)} :: t in Chain(nodes, p) && IsFunctionType(nodes[t].class_) ==> t in outer
  }

  lemma AfterAppend(nodes: seq<ScopeNode>, outer: set<ScopeId>, fs: seq<ScopeId>, fs': seq<ScopeId>)
    requires TreeOk(nodes) && After(nodes, outer, fs) && After(nodes, outer, fs')
    ensures After(nodes, outer, fs + fs')
  {
    forall i {:trigger (fs + fs')[i]} | 0 <= i < |fs + fs'|
      ensures (fs + fs')[i] < |nodes| && AfterOuter(nodes, outer, fs + fs', i)
    {
      if i < |fs| {
        assert AfterOuter(nodes, outer, fs, i);
        assert (fs + fs')[..i + 1] == fs[..i + 1];
      } else {
        assert AfterOuter(nodes, outer, fs', i - |fs|);
        assert (fs + fs')[..i + 1] == fs + fs'[..i - |fs| + 1];
      }
    }
  }

  lemma AfterEnter(nodes: seq<ScopeNode>, outer: set<ScopeId>, f: ScopeId, fs: seq<ScopeId>)
    requires TreeOk(nodes) && f < |nodes| && After(nodes, outer + {f}, fs)
    requires forall t {:trigger t in Chain(nodes, f)} :: t in Chain(nodes, f) && IsFunctionType(nodes[t].class_) ==>
      t in outer || t == f
    ensures After(nodes, outer, [f] + fs)
  {
    forall i {:trigger ([f] + fs)[i]} | 0 <= i < |[f] + fs|
      ensures ([f] + fs)[i] < |nodes| && AfterOuter(nodes, outer, [f] + fs, i)
    {
      if i > 0 {
        assert AfterOuter(nodes, outer + {f}, fs, i - 1);
        assert ([f] + fs)[..i + 1] == [f] + fs[..i];
      } else {
        assert ([f] + fs)[..1] == [f];
      }
    }
  }

  /** A scope that lies in `lexes` adds no function around. */
  lemma FunctionsWithin(nodes: seq<ScopeNode>, lexes: set<ScopeId>, outer: set<ScopeId>, s: ScopeId)
    requires Around(nodes, lexes) && FunctionsAmong(nodes, lexes, outer) && Within(nodes, s, lexes)
    ensures forall t {:trigger t in Chain(nodes, s)} :: t in Chain(nodes, s) && IsFunctionType(nodes[t].class_) ==>
      t in outer || t == s
  {
    var p := nodes[s].parent.value;
    assert Chain(nodes, s) == [s] + Chain(nodes, p);
    assert p in lexes;
  }

  lemma EnteredAmong(nodes: seq<ScopeNode>, lexes: set<ScopeId>, outer: set<ScopeId>, s: ScopeId, inner: set<ScopeId>,
                     outer': set<ScopeId>)
    requires Around(nodes, lexes) && FunctionsAmong(nodes, lexes, outer) && Within(nodes, s, lexes)
    requires inner <= lexes + {s} && outer' == if IsFunctionType(nodes[s].class_) then outer + {s} else outer
    ensures Around(nodes, inner) && FunctionsAmong(nodes, inner, outer')
  {
    FunctionsWithin(nodes, lexes, outer, s);
    assert forall p {:trigger p in inner} :: p in inner ==> p in lexes || p == s;
  }

  /** The walk meets functions in pre-order. */
  lemma {:induction false} FunctionsInOrder(nodes: seq<ScopeNode>, n: Ast, lexes: set<ScopeId>, outer: set<ScopeId>)
    requires Around(nodes, lexes) && WellScoped(nodes, n, lexes) && FunctionsAmong(nodes, lexes, outer)
    ensures After(nodes, outer, FunctionsOf(n))
    decreases n, 1
  {
    match n
    case Reference(_) =>
    case Super =>
    case Other(children) =>
      AllInOrder(nodes, children, lexes, outer);
    case Scoped(s, children) =>
      EnteredAmong(nodes, lexes, outer, s, {s}, outer);
      AllInOrder(nodes, children, {s}, outer);
    case ScriptFunction(_, _, _) => BodyInOrder(nodes, n, lexes, outer);
    case While(_, _, _) => LoopInOrder(nodes, n, lexes, outer);
    case DoWhile(_, _, _) => LoopInOrder(nodes, n, lexes, outer);
    case ForUpdate(_, _, _, _, _) => ForUpdateInOrder(nodes, n, lexes, outer);
    case ForInOf(_, _, _, _) => ForInOfInOrder(nodes, n, lexes, outer);
  }

  lemma {:induction false} BodyInOrder(nodes: seq<ScopeNode>, n: Ast, lexes: set<ScopeId>, outer: set<ScopeId>)
    requires n.ScriptFunction? && Around(nodes, lexes) && WellScoped(nodes, n, lexes)
    requires FunctionsAmong(nodes, lexes, outer)
    ensures After(nodes, outer, FunctionsOf(n))
    decreases n, 0
  {
    var f, p := n.scope, nodes[n.scope].parent.value;
    EnteredAmong(nodes, lexes, outer, p, {p}, outer);
    EnteredAmong(nodes, {p}, outer, f, {f}, outer + {f});
    AllInOrder(nodes, n.body, {f}, outer + {f});
    FunctionsWithin(nodes, {p}, outer, f);
    AfterEnter(nodes, outer, f, FunctionsOfAll(n.body));
    assert FunctionsOf(n) == [f] + FunctionsOfAll(n.body);
  }

  lemma {:induction false} LoopInOrder(nodes: seq<ScopeNode>, n: Ast, lexes: set<ScopeId>, outer: set<ScopeId>)
    requires n.While? || n.DoWhile?
    requires Around(nodes, lexes) && WellScoped(nodes, n, lexes) && FunctionsAmong(nodes, lexes, outer)
    ensures After(nodes, outer, FunctionsOf(n))
    decreases n, 0
  {
    EnteredAmong(nodes, lexes, outer, n.loop, {n.loop}, outer);
    FunctionsInOrder(nodes, n.test, if n.While? then lexes else {n.loop}, outer);
    FunctionsInOrder(nodes, n.body_, {n.loop}, outer);
    AfterAppend(nodes, outer, FunctionsOf(n.test), FunctionsOf(n.body_));
    AfterAppend(nodes, outer, FunctionsOf(n.body_), FunctionsOf(n.test));
  }

  lemma {:induction false} ForUpdateInOrder(nodes: seq<ScopeNode>, n: Ast, lexes: set<ScopeId>, outer: set<ScopeId>)
    requires n.ForUpdate? && Around(nodes, lexes) && WellScoped(nodes, n, lexes) && FunctionsAmong(nodes, lexes, outer)
    ensures After(nodes, outer, FunctionsOf(n))
    decreases n, 0
  {
    var d := ForAmong(nodes, n.loop, lexes, outer);
    FunctionsInOrder(nodes, n.init, {d, n.loop}, outer);
    FunctionsInOrder(nodes, n.update, {n.loop}, outer);
    FunctionsInOrder(nodes, n.test, {n.loop}, outer);
    FunctionsInOrder(nodes, n.body_, {n.loop}, outer);
    AppendFour(nodes, outer, FunctionsOf(n.init), FunctionsOf(n.update), FunctionsOf(n.test), FunctionsOf(n.body_));
  }

  lemma {:induction false} ForInOfInOrder(nodes: seq<ScopeNode>, n: Ast, lexes: set<ScopeId>, outer: set<ScopeId>)
    requires n.ForInOf? && Around(nodes, lexes) && WellScoped(nodes, n, lexes) && FunctionsAmong(nodes, lexes, outer)
    ensures After(nodes, outer, FunctionsOf(n))
    decreases n, 0
  {
    var d := ForAmong(nodes, n.loop, lexes, outer);
    FunctionsInOrder(nodes, n.right, {d, n.loop}, outer);
    FunctionsInOrder(nodes, n.left, {d, n.loop}, outer);
    FunctionsInOrder(nodes, n.body_, {n.loop}, outer);
    AppendFour(nodes, outer, FunctionsOf(n.right), FunctionsOf(n.left), FunctionsOf(n.body_), []);
    assert FunctionsOf(n) == FunctionsOf(n.right) + FunctionsOf(n.left) + FunctionsOf(n.body_) + [];
  }

  lemma ForAmong(nodes: seq<ScopeNode>, l: ScopeId, lexes: set<ScopeId>, outer: set<ScopeId>) returns (d: ScopeId)
    requires Around(nodes, lexes) && ForScopes(nodes, l, lexes) && FunctionsAmong(nodes, lexes, outer)
    ensures d == nodes[l].declScope.value
    ensures Around(nodes, {d, l}) && FunctionsAmong(nodes, {d, l}, outer) && Around(nodes, {l})
    ensures FunctionsAmong(nodes, {l}, outer)
  {
    d := nodes[l].declScope.value;
    EnteredAmong(nodes, lexes, outer, d, {d}, outer);
    EnteredAmong(nodes, {d}, outer, l, {d, l}, outer);
    EnteredAmong(nodes, {d}, outer, l, {l}, outer);
  }

  lemma AppendFour(nodes: seq<ScopeNode>, outer: set<ScopeId>, a: seq<ScopeId>, b: seq<ScopeId>, c: seq<ScopeId>,
                   d: seq<ScopeId>)
    requires TreeOk(nodes) && After(nodes, outer, a) && After(nodes, outer, b) && After(nodes, outer, c)
    requires After(nodes, outer, d)
    ensures After(nodes, outer, a + b + c + d)
  {
    AfterAppend(nodes, outer, a, b);
    AfterAppend(nodes, outer, a + b, c);
    AfterAppend(nodes, outer, a + b + c, d);
  }

  lemma {:induction false} AllInOrder(nodes: seq<ScopeNode>, ns: seq<Ast>, lexes: set<ScopeId>, outer: set<ScopeId>)
    requires Around(nodes, lexes) && AllWellScoped(nodes, ns, lexes) && FunctionsAmong(nodes, lexes, outer)
    ensures After(nodes, outer, FunctionsOfAll(ns))
    decreases ns, 0
  {
    if ns != [] {
      FunctionsInOrder(nodes, ns[0], lexes, outer);
      AllInOrder(nodes, ns[1..], lexes, outer);
      AfterAppend(nodes, outer, FunctionsOf(ns[0]), FunctionsOfAll(ns[1..]));
    }
  }
}
