/** What the slots and hop counts mean at run time: the environments are those variable scopes that need one. */
module Environments {
  import opened Scopes
  import opened Slots
  import opened References

  // ---- Slots.

  /** The slots of a function are 0 up to its counter, and each belongs to one variable. */
  lemma SlotsAreDense(st: State, f: ScopeId)
    requires Inv(st) && st.a.Has(f) && IsFunctionType(st.a.nodes[f].class_)
    ensures f in st.g.owners && |st.g.owners[f]| == st.a.slotIndex[f]
    ensures forall i {:trigger st.g.owners[f][i]} :: 0 <= i < st.a.slotIndex[f] ==>
      var v := st.g.owners[f][i];
      v < |st.a.vars| && v !in st.g.origin && st.a.vars[v].Bound() && st.a.vars[v].vreg == i
    ensures forall v {:trigger st.g.home[v]} ::
      0 <= v < |st.a.vars| && st.a.vars[v].Bound() && FunctionOf(st.a.nodes, st.g.home[v]) == f ==>
      st.a.vars[v].vreg < st.a.slotIndex[f] && st.g.owners[f][st.a.vars[v].vreg] == Original(st.g, v)
  {
    forall i {:trigger st.g.owners[f][i]} | 0 <= i < st.a.slotIndex[f]
      ensures var v := st.g.owners[f][i];
        v < |st.a.vars| && v !in st.g.origin && st.a.vars[v].Bound() && st.a.vars[v].vreg == i
    {
      assert OwnsSlot(st, f, i);
    }
    forall v {:trigger st.g.home[v]} | 0 <= v < |st.a.vars| && st.a.vars[v].Bound() &&
      FunctionOf(st.a.nodes, st.g.home[v]) == f
      ensures st.a.vars[v].vreg < st.a.slotIndex[f] && st.g.owners[f][st.a.vars[v].vreg] == Original(st.g, v)
    {
      assert HasSlot(st, v);
    }
  }

  /** Two variables of one function that are not copies of the same one have different slots. */
  lemma SlotsAreDistinct(st: State, u: VariableId, v: VariableId)
    requires Inv(st) && u < |st.a.vars| && v < |st.a.vars| && st.a.vars[u].Bound() && st.a.vars[v].Bound()
    requires FunctionOf(st.a.nodes, st.g.home[u]) == FunctionOf(st.a.nodes, st.g.home[v])
    ensures Original(st.g, u) != Original(st.g, v) <==> st.a.vars[u].vreg != st.a.vars[v].vreg
  {
    assert HasSlot(st, u) && HasSlot(st, v);
    var f := FunctionOf(st.a.nodes, st.g.home[u]);
    assert OwnsSlot(st, f, st.a.vars[u].vreg) && OwnsSlot(st, f, st.a.vars[v].vreg);
  }

  lemma {:induction false} FirstIsFunctionOrLoop(a: Arena, s: ScopeId)
    requires ArenaOk(a) && s < |a.nodes|
    ensures var e := FirstVariableScope(a, Chain(a.nodes, s));
      && e.Some? && e.value < |a.nodes|
      && (e.value == FunctionOf(a.nodes, s) || (e.value in LoopsAround(a.nodes, s) && Converted(a, e.value)))
    decreases s
  {
    if !a.IsVariableScope(s) {
      assert Chain(a.nodes, s)[1..] == Chain(a.nodes, a.nodes[s].parent.value);
      FirstIsFunctionOrLoop(a, a.nodes[s].parent.value);
    }
  }

  /** Every captured variable has its slot in the environment of the variable scope around it, re-homed or not. */
  lemma SlotFitsItsScope(st: State, s: ScopeId)
    requires Inv(st) && s < |st.a.nodes| && st.a.nodes[s].class_ != FunctionParam
    ensures var e := FirstVariableScope(st.a, Chain(st.a.nodes, s));
      e.Some? && st.a.Has(e.value) && RoomFor(st.a, s, st.a.slotIndex[e.value])
  {
    FirstIsFunctionOrLoop(st.a, s);
    var e := FirstVariableScope(st.a, Chain(st.a.nodes, s)).value;
    if e == FunctionOf(st.a.nodes, s) {
      SlotsBelowCounter(st, s);
    } else {
      assert LoopOk(st.a, e) && RoomFor(st.a, s, st.a.slotIndex[e]);
    }
  }

  // ---- Hop counts.

  /** The environments along `c` at run time, innermost first. */
  ghost function EnvironmentsOf(a: Arena, c: seq<ScopeId>): seq<ScopeId>
    requires forall i {:trigger c[i]} :: 0 <= i < |c| ==> a.Has(c[i])
  {
    if c == [] then []
    else EnvironmentAt(a, c[0]) + EnvironmentsOf(a, c[1..])
  }

  lemma {:induction false} HopsSkipEnvironments(a: Arena, s: ScopeId, name: string)
    requires ArenaOk(a) && s < |a.nodes|
    ensures var r := FindIn(a, Chain(a.nodes, s), name);
      r.Found? ==>
        && r.scope < |a.nodes| && r.lexLevel <= |EnvironmentsOf(a, Chain(a.nodes, s))|
        && EnvironmentsOf(a, Chain(a.nodes, s))[r.lexLevel..] == EnvironmentsOf(a, Chain(a.nodes, r.scope))
    decreases s
  {
    if name !in a.bindings[s] && a.nodes[s].parent.Some? {
      var p := a.nodes[s].parent.value;
      OneFurther(a, s, name);
      HopsSkipEnvironments(a, p, name);
      var r := FindIn(a, Chain(a.nodes, p), name);
      hide EnvironmentsOf, FindIn, Chain;
      if r.Found? {
        DropPast(EnvironmentAt(a, s), EnvironmentsOf(a, Chain(a.nodes, p)), r.lexLevel);
      }
    } else if name !in a.bindings[s] {
      assert Chain(a.nodes, s)[1..] == [];
    }
  }

  ghost function EnvironmentAt(a: Arena, s: ScopeId): seq<ScopeId>
    requires a.Has(s)
  {
    if a.IsVariableScope(s) && a.NeedLexEnv(s) then [s] else []
  }

  /** A scope that does not bind the name leaves its environment behind, if it has one. */
  lemma OneFurther(a: Arena, s: ScopeId, name: string)
    requires ArenaOk(a) && s < |a.nodes| && name !in a.bindings[s] && a.nodes[s].parent.Some?
    ensures var p := a.nodes[s].parent.value;
      var r, r' := FindIn(a, Chain(a.nodes, p), name), FindIn(a, Chain(a.nodes, s), name);
      && EnvironmentsOf(a, Chain(a.nodes, s)) == EnvironmentAt(a, s) + EnvironmentsOf(a, Chain(a.nodes, p))
      && (r.NotFound? <==> r'.NotFound?)
      && (r.Found? ==> r'.scope == r.scope && r'.lexLevel == |EnvironmentAt(a, s)| + r.lexLevel)
  {
    assert Chain(a.nodes, s)[1..] == Chain(a.nodes, a.nodes[s].parent.value);
  }

  lemma DropPast(own: seq<ScopeId>, rest: seq<ScopeId>, k: nat)
    requires k <= |rest|
    ensures (own + rest)[|own| + k..] == rest[k..]
  {
  }

  lemma {:induction false} FirstEnvironment(a: Arena, s: ScopeId, e: ScopeId)
    requires ArenaOk(a) && s < |a.nodes| && a.Has(e) && a.NeedLexEnv(e)
    requires FirstVariableScope(a, Chain(a.nodes, s)) == Some(e)
    ensures EnvironmentsOf(a, Chain(a.nodes, s)) != [] && EnvironmentsOf(a, Chain(a.nodes, s))[0] == e
    decreases s
  {
    if !a.IsVariableScope(s) && a.nodes[s].parent.Some? {
      assert Chain(a.nodes, s)[1..] == Chain(a.nodes, a.nodes[s].parent.value);
      FirstEnvironment(a, a.nodes[s].parent.value, e);
    }
  }

  /** Past the counted environments of the scopes around `s` comes that of the scope where the name was found. */
  lemma HopsReachScope(st: State, s: ScopeId, name: string)
    requires Inv(st) && s < |st.a.nodes| && FindIn(st.a, Chain(st.a.nodes, s), name).Found?
    requires var h := FindIn(st.a, Chain(st.a.nodes, s), name).scope;
      && h < |st.a.nodes|
      && st.a.nodes[h].class_ != FunctionParam
    ensures var r, envs := FindIn(st.a, Chain(st.a.nodes, s), name), EnvironmentsOf(st.a, Chain(st.a.nodes, s));
      && r.variable < |st.a.vars| && r.scope < |st.a.nodes|
      && (st.a.vars[r.variable].Bound() ==>
            && r.lexLevel < |envs| && FirstVariableScope(st.a, Chain(st.a.nodes, r.scope)) == Some(envs[r.lexLevel])
            && st.a.Has(envs[r.lexLevel]) && st.a.vars[r.variable].vreg < st.a.slotIndex[envs[r.lexLevel]])
  {
    FindIsHolder(st.a, s, name);
    HopsSkipEnvironments(st.a, s, name);
    var r := FindIn(st.a, Chain(st.a.nodes, s), name);
    if st.a.vars[r.variable].Bound() {
      SlotFitsItsScope(st, r.scope);
      var e := FirstVariableScope(st.a, Chain(st.a.nodes, r.scope)).value;
      FirstEnvironment(st.a, r.scope, e);
    }
  }

  /**
   * Following as many environments as Find counted from the code in `s`, in a function body, leads to the
   * environment of the variable scope around the innermost binding of the name, and the variable's slot exists there.
   */
  lemma HopsLeadToBinding(st: State, s: ScopeId, name: string)
    requires Inv(st) && s < |st.a.nodes| && st.a.nodes[s].class_ != FunctionParam
    requires FindIn(st.a, Chain(st.a.nodes, s), name).Found?
    ensures var r, envs := FindIn(st.a, Chain(st.a.nodes, s), name), EnvironmentsOf(st.a, Chain(st.a.nodes, s));
      && r.scope < |st.a.nodes| && r.variable < |st.a.vars| && Holder(st.a, s, name) == Some(r.scope)
      && (st.a.vars[r.variable].Bound() ==>
            && r.lexLevel < |envs| && FirstVariableScope(st.a, Chain(st.a.nodes, r.scope)) == Some(envs[r.lexLevel])
            && st.a.Has(envs[r.lexLevel]) && st.a.vars[r.variable].vreg < st.a.slotIndex[envs[r.lexLevel]])
  {
    hide Inv, EnvironmentsOf, FirstVariableScope;
    HolderNotParam(st, s, name);
    HopsReachScope(st, s, name);
  }

  lemma HolderNotParam(st: State, s: ScopeId, name: string)
    requires Inv(st) && s < |st.a.nodes| && FindIn(st.a, Chain(st.a.nodes, s), name).Found?
    ensures ArenaOk(st.a) && FindIn(st.a, Chain(st.a.nodes, s), name).variable < |st.a.vars|
    ensures var h := FindIn(st.a, Chain(st.a.nodes, s), name).scope;
      && h <= s && Holder(st.a, s, name) == Some(h)
      && (h != s || st.a.nodes[s].class_ != FunctionParam ==> st.a.nodes[h].class_ != FunctionParam)
  {
    FindIsHolder(st.a, s, name);
    HolderIsNoParamScope(st, s, name);
  }
}
