/**
 * References in parameter lists.  Identifier analysis looks them up from the parameter scope, which lies outside the
 * function that runs them, so what it makes of them is right only in part.
 */
module ParameterReferences {
  import opened Scopes
  import opened Slots
  import opened References
  import opened ArgumentsObject
  import opened Environments

  // ---- Capturing.

  /**
   * A reference from a parameter scope captures a local exactly when the level that Find returns is not 0.  So it is
   * settled exactly if it finds a parameter, or leaves the function around as well, or needs no capture any more.
   */
  lemma ParameterSettledIff(st: State, s: ScopeId, name: string)
    requires Inv(st) && ParamScopesOk(st.a.nodes) && s < |st.a.nodes| && st.a.nodes[s].class_ == FunctionParam
    requires Open(st.a, s) && FindIn(st.a, Chain(st.a.nodes, s), name).Found?
    ensures var r, st' := FindIn(st.a, Chain(st.a.nodes, s), name), LookedUp(st, s, name);
      && r.scope < |st.a.nodes| && r.variable < |st.a.vars| && ArenaOk(st'.a) && s < |st'.a.nodes| &&
           |st'.a.vars| == |st.a.vars|
      && var v := st.a.vars[r.variable];
         && (v.kind == LocalVariable && !v.Bound() ==> (st'.a.vars[r.variable].Bound() <==> r.level != 0))
         && (r.level != 0 <==> !SameFunction(st.a.nodes, s, r.scope))
         && (Settled(st', s, name) <==> r.scope == s || r.level != 0 || v.kind != LocalVariable || v.Bound())
  {
    FindIsHolder(st.a, s, name);
    LevelIsZeroIff(st.a, s, name);
    OpenHolderIsPlain(st.a, s, name);
    LookupKeepsInv(st, s, name);
    HolderKept(st.a, LookedUp(st, s, name).a, s, name);
    HolderIsNoParamScope(st, s, name);
  }

  // ---- Hop counts.

  /** The environments when the parameter list with scope `s` runs: that of its function comes first. */
  ghost function EnvironmentsInParameters(a: Arena, s: ScopeId): seq<ScopeId>
    requires ArenaOk(a) && ParamScopesOk(a.nodes) && s < |a.nodes| && a.nodes[s].class_ == FunctionParam
  {
    var f := Runner(a.nodes, s);
    (if a.NeedLexEnv(f) then [f] else []) + EnvironmentsOf(a, Chain(a.nodes, s))
  }

  /** From `top` on, inner scopes first; those are the younger ones. */
  ghost predicate Descending(envs: seq<ScopeId>, top: ScopeId) {
    && (forall i {:trigger envs[i]} :: 0 <= i < |envs| ==> envs[i] <= top)
    && (forall i, j {:trigger envs[i], envs[j]} :: 0 <= i < j < |envs| ==> envs[i] > envs[j])
  }

  lemma {:induction false} EnvironmentsDescend(a: Arena, s: ScopeId)
    requires ArenaOk(a) && s < |a.nodes|
    ensures Descending(EnvironmentsOf(a, Chain(a.nodes, s)), s)
    decreases s
  {
    EnvironmentsFromHere(a, s);
    if a.nodes[s].parent.Some? {
      hide EnvironmentsOf, Chain;
      var p := a.nodes[s].parent.value;
      EnvironmentsDescend(a, p);
      OneMoreDescends(EnvironmentAt(a, s), EnvironmentsOf(a, Chain(a.nodes, p)), s, p);
    }
  }

  lemma EnvironmentsFromHere(a: Arena, s: ScopeId)
    requires ArenaOk(a) && s < |a.nodes|
    ensures EnvironmentsOf(a, Chain(a.nodes, s)) ==
      EnvironmentAt(a, s) + if a.nodes[s].parent.Some? then EnvironmentsOf(a, Chain(a.nodes, a.nodes[s].parent.value))
        else []
  {
    if a.nodes[s].parent.Some? {
      assert Chain(a.nodes, s)[1..] == Chain(a.nodes, a.nodes[s].parent.value);
    } else {
      assert Chain(a.nodes, s)[1..] == [];
    }
  }

  lemma OneMoreDescends(own: seq<ScopeId>, rest: seq<ScopeId>, s: ScopeId, p: ScopeId)
    requires (own == [] || own == [s]) && p < s && Descending(rest, p)
    ensures Descending(own + rest, s)
  {
  }

  /** A captured parameter has its slot in the environment of its function. */
  lemma ParameterSlot(st: State, s: ScopeId, name: string)
    requires Inv(st) && ParamScopesOk(st.a.nodes) && s < |st.a.nodes| && st.a.nodes[s].class_ == FunctionParam
    requires name in st.a.bindings[s] && st.a.vars[st.a.bindings[s][name]].Bound()
    ensures var f := Runner(st.a.nodes, s); st.a.Has(f) && st.a.vars[st.a.bindings[s][name]].vreg < st.a.slotIndex[f]
  {
    var f := Runner(st.a.nodes, s);
    assert ScopeOk(st, f) && st.a.Has(f) && FunctionOf(st.a.nodes, f) == f;
    assert HasSlot(st, st.a.bindings[s][name]);
  }

  /**
   * The hops counted from a parameter list lead to the right environment exactly if a parameter was found, or the
   * function of the list has no environment of its own.
   */
  lemma ParameterHopsIff(st: State, s: ScopeId, name: string)
    requires Inv(st) && ParamScopesOk(st.a.nodes) && s < |st.a.nodes| && st.a.nodes[s].class_ == FunctionParam
    requires var r := FindIn(st.a, Chain(st.a.nodes, s), name);
      r.Found? && r.variable < |st.a.vars| && st.a.vars[r.variable].Bound()
    ensures var r, f := FindIn(st.a, Chain(st.a.nodes, s), name), Runner(st.a.nodes, s);
      var envs := EnvironmentsInParameters(st.a, s);
      && r.scope < |st.a.nodes| && st.a.Has(f)
      && var e := if r.scope == s then Some(f) else FirstVariableScope(st.a, Chain(st.a.nodes, r.scope));
         r.lexLevel < |envs| && Some(envs[r.lexLevel]) == e <==> r.scope == s || !st.a.NeedLexEnv(f)
  {
    var r := FindIn(st.a, Chain(st.a.nodes, s), name);
    hide Inv, FirstVariableScope, EnvironmentsOf, Chain, Holder, FindIn;
    HolderNotParam(st, s, name);
    FunctionIsInside(st.a, s);
    if r.scope == s {
      FoundRightThere(st.a, s, name);
      ParameterSlot(st, s, name);
    } else {
      HopsReachScope(st, s, name);
      EnvironmentsDescend(st.a, s);
      hide Descending;
      OneMoreInFront(Runner(st.a.nodes, s), EnvironmentsOf(st.a, Chain(st.a.nodes, s)), r.lexLevel, s);
    }
  }

  /** With `f` in front, all the others move on by one. */
  lemma OneMoreInFront(f: ScopeId, envs: seq<ScopeId>, k: nat, top: ScopeId)
    requires Descending(envs, top) && top < f && k < |envs|
    ensures ([f] + envs)[k] != envs[k] && ([] + envs)[k] == envs[k]
  {
    if k > 0 {
      assert envs[k - 1] > envs[k];
    }
  }

  lemma FunctionIsInside(a: Arena, s: ScopeId)
    requires ArenaOk(a) && ParamScopesOk(a.nodes) && s < |a.nodes| && a.nodes[s].class_ == FunctionParam
    ensures s < Runner(a.nodes, s) && a.Has(Runner(a.nodes, s))
  {
  }

  lemma FoundRightThere(a: Arena, s: ScopeId, name: string)
    requires ArenaOk(a) && s < |a.nodes| && Holder(a, s, name) == Some(s)
    ensures name in a.bindings[s]
    ensures FindIn(a, Chain(a.nodes, s), name) == Found(s, 0, 0, a.bindings[s][name])
  {
  }
}
