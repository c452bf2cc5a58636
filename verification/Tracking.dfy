/** While the walk goes on, exactly the variables that the references seen so far capture have slots. */
module Tracking {
  import opened Scopes
  import opened Slots
  import opened SyntaxTree
  import opened References
  import opened Conversion
  import opened ArgumentsObject
  import opened Captures

  /** `t` binds what the parser bound there, and maybe an `arguments` that has been declared since. */
  ghost predicate Alike(a0: Arena, a: Arena, t: ScopeId)
    requires t < |a0.nodes| && t < |a0.bindings| && t < |a.bindings|
  {
    && (forall n {:trigger n in a0.bindings[t]} :: n in a0.bindings[t] ==>
          n in a.bindings[t] && a.bindings[t][n] == a0.bindings[t][n])
    && (forall n {:trigger n in a.bindings[t]} :: n in a.bindings[t] && n !in a0.bindings[t] ==>
          n == FUNCTION_ARGUMENTS && HasArguments(a0.nodes[t]) && a.bindings[t][n] >= |a0.vars|)
  }

  /** Only inside loops that have been converted are there other bindings than the parser's. */
  ghost predicate Faithful(a0: Arena, a: Arena) {
    && ArenaOk(a0) && ArenaOk(a) && a0.nodes <= a.nodes && |a0.vars| <= |a.vars|
    && (forall v {:trigger a.vars[v]} :: 0 <= v < |a0.vars| ==>
          a.vars[v].kind == a0.vars[v].kind && a.vars[v].decl == a0.vars[v].decl)
    && (forall t {:trigger Alike(a0, a, t)} :: 0 <= t < |a0.nodes| && Open(a, t) ==> Alike(a0, a, t))
  }

  /** Of the parser's variables, those are bound to slots that the references `refs` capture. */
  ghost predicate Exact(a0: Arena, a: Arena, refs: Refs)
    requires ArenaOk(a0) && |a0.vars| <= |a.vars|
  {
    forall v {:trigger a.vars[v]} :: 0 <= v < |a0.vars| ==> (a.vars[v].Bound() <==> CapturedBy(a0, refs, v))
  }

  ghost predicate Tracks(a0: Arena, a: Arena, refs: Refs) {
    Faithful(a0, a) && Exact(a0, a, refs)
  }

  /** Outside converted loops, ordinary names are bound as the parser bound them. */
  ghost predicate Retained(a0: Arena, a: Arena) {
    && ArenaOk(a0) && ArenaOk(a) && a0.nodes <= a.nodes && |a0.vars| <= |a.vars|
    && forall t, n {:trigger n in a.bindings[t]} ::
         0 <= t < |a0.nodes| && Open(a, t) && n !in MANDATORY_NAMES && n != FUNCTION_ARGUMENTS ==>
           && (n in a.bindings[t] <==> n in a0.bindings[t])
           && (n in a.bindings[t] ==> a.bindings[t][n] == a0.bindings[t][n])
  }

  /** What a lookup finds now is what the program says, an `arguments` object aside. */
  lemma {:induction false} HolderIsReached(a0: Arena, a: Arena, s: ScopeId, name: string)
    requires Faithful(a0, a) && s < |a0.nodes| && Open(a, s)
    requires name == FUNCTION_ARGUMENTS ==> ArgumentsDeclared(a, s)
    ensures match Holder(a, s, name)
      case None => Reach(a0, s, name) == None
      case Some(h) =>
        h < |a0.nodes| && if name in a0.bindings[h]
          then Reach(a0, s, name) == Some(h) && a.bindings[h][name] == a0.bindings[h][name]
                          else Reach(a0, s, name) == None && a.bindings[h][name] >= |a0.vars|
    decreases s
  {
    assert Alike(a0, a, s) && a.nodes[s] == a0.nodes[s];
    if name !in a.bindings[s] && a.nodes[s].parent.Some? {
      HolderIsReached(a0, a, a.nodes[s].parent.value, name);
    }
  }

  // ---- Lookups.

  /** What a lookup captures is what the reference captures. */
  lemma LookupCaptures(a0: Arena, a: Arena, s: ScopeId, name: string, v: VariableId)
    requires Faithful(a0, a) && s < |a0.nodes| && Open(a, s) && v < |a0.vars|
    requires name == FUNCTION_ARGUMENTS ==> ArgumentsDeclared(a, s)
    ensures var r := FindIn(a, Chain(a.nodes, s), name);
      ReachesAcross(a0, s, name, v) <==> r.Found? && r.level != 0 && r.variable == v && a.vars[v].kind == LocalVariable
  {
    hide Chain, FindIn, FunctionOf, LoopsAround, Holder, Reach, Open, Alike, ArgumentsDeclared;
    HolderIsReached(a0, a, s, name);
    FindIsHolder(a, s, name);
    var r := FindIn(a, Chain(a.nodes, s), name);
    if r.Found? {
      LevelIsZeroIff(a, s, name);
      PlaceKept(a0.nodes, a.nodes, s);
      PlaceKept(a0.nodes, a.nodes, r.scope);
    }
  }

  lemma LookupBinds(st: State, s: ScopeId, name: string, v: VariableId)
    requires Inv(st) && s < |st.a.nodes| && v < |st.a.vars|
    ensures var r, st' := FindIn(st.a, Chain(st.a.nodes, s), name), LookedUp(st, s, name);
      && |st'.a.vars| == |st.a.vars| && st'.a.vars[v].kind == st.a.vars[v].kind &&
           st'.a.vars[v].decl == st.a.vars[v].decl
      && (st'.a.vars[v].Bound() <==>
          st.a.vars[v].Bound() || (r.Found? && r.level != 0 && r.variable == v && st.a.vars[v].kind == LocalVariable))
      && st'.a.nodes == st.a.nodes && st'.a.loopType == st.a.loopType && st'.a.bindings == st.a.bindings
  {
    FindIsHolder(st.a, s, name);
  }

  /** The same scopes open, with the same bindings. */
  lemma FaithfulKept(a0: Arena, a: Arena, a': Arena)
    requires Faithful(a0, a) && ArenaOk(a') && |a.vars| <= |a'.vars| && a'.nodes == a.nodes && a'.loopType == a.loopType
    requires forall v {:trigger a'.vars[v]} :: 0 <= v < |a0.vars| ==>
      a'.vars[v].kind == a.vars[v].kind && a'.vars[v].decl == a.vars[v].decl
    requires forall t {:trigger Alike(a0, a', t)} :: 0 <= t < |a0.nodes| && Alike(a0, a, t) ==> Alike(a0, a', t)
    ensures Faithful(a0, a')
  {
    forall t {:trigger Alike(a0, a', t)} | 0 <= t < |a0.nodes| && Open(a', t)
      ensures Alike(a0, a', t)
    {
      OpenKept(a', a, t);
      assert Alike(a0, a, t);
    }
  }

  lemma LookupTracks(a0: Arena, st: State, refs: Refs, s: ScopeId, name: string)
    requires Inv(st) && Tracks(a0, st.a, refs) && s < |a0.nodes| && Open(st.a, s)
    requires name == FUNCTION_ARGUMENTS ==> ArgumentsDeclared(st.a, s)
    requires ArenaOk(LookedUp(st, s, name).a)
    ensures Tracks(a0, LookedUp(st, s, name).a, refs + {(s, name)})
  {
    hide CapturedBy, ReachesAcross, Alike, LookedUp, FindIn, Inv, Chain, Open, ArgumentsDeclared;
    var a' := LookedUp(st, s, name).a;
    LookupBindsNothing(st, s, name);
    forall v {:trigger a'.vars[v]} | 0 <= v < |a0.vars|
      ensures a'.vars[v].kind == st.a.vars[v].kind && a'.vars[v].decl == st.a.vars[v].decl
      ensures a'.vars[v].Bound() <==> CapturedBy(a0, refs + {(s, name)}, v)
    {
      LookupBinds(st, s, name, v);
      LookupCaptures(a0, st.a, s, name, v);
      OneMore(a0, refs, s, name, v);
    }
    SameBindingsAlike(a0, st.a, a');
    FaithfulKept(a0, st.a, a');
  }

  lemma SameBindingsAlike(a0: Arena, a: Arena, a': Arena)
    requires |a0.nodes| <= |a0.bindings| && |a0.nodes| <= |a.bindings| && a'.bindings == a.bindings
    ensures forall t {:trigger Alike(a0, a', t)} :: 0 <= t < |a0.nodes| && Alike(a0, a, t) ==> Alike(a0, a', t)
  {
  }

  lemma LookupBindsNothing(st: State, s: ScopeId, name: string)
    requires Inv(st) && s < |st.a.nodes|
    ensures var st' := LookedUp(st, s, name);
      |st'.a.vars| == |st.a.vars| && st'.a.nodes == st.a.nodes && st'.a.loopType == st.a.loopType &&
        st'.a.bindings == st.a.bindings
  {
    FindIsHolder(st.a, s, name);
  }

  lemma OneMore(a0: Arena, refs: Refs, s: ScopeId, name: string, v: VariableId)
    requires ArenaOk(a0)
    ensures CapturedBy(a0, refs + {(s, name)}, v) <==> CapturedBy(a0, refs, v) || ReachesAcross(a0, s, name, v)
  {
    CapturedByEither(a0, refs, {(s, name)}, v);
    assert (s, name) in {(s, name)};
  }

  // ---- Declaring `arguments`.

  lemma ArgumentsTrack(a0: Arena, st: State, refs: Refs, t: ScopeId, f: ScopeId)
    requires Tracks(a0, st.a, refs) && st.a.Has(t) && st.a.Has(f) && HasArguments(st.a.nodes[t])
    requires HasArguments(st.a.nodes[f])
    requires ArenaOk(WithArguments(st, t, f).a)
    ensures Tracks(a0, WithArguments(st, t, f).a, refs)
  {
    var a' := WithArguments(st, t, f).a;
    forall u {:trigger Alike(a0, a', u)} | 0 <= u < |a0.nodes| && Alike(a0, st.a, u)
      ensures Alike(a0, a', u)
    {
      assert st.a.nodes[u] == a0.nodes[u];
    }
    assert forall v {:trigger a'.vars[v]} :: 0 <= v < |a0.vars| ==> a'.vars[v] == st.a.vars[v];
    FaithfulKept(a0, st.a, a');
  }

  // ---- Converting a loop.

  /** A scope that is open has been so all the time. */
  lemma {:induction false} OpenBefore(a: Arena, a': Arena, s: ScopeId)
    requires ArenaOk(a) && ArenaOk(a') && a.nodes <= a'.nodes && s < |a.nodes| && Open(a', s)
    requires forall l: ScopeId {:trigger StaysConverted(a, a', l)} :: StaysConverted(a, a', l)
    ensures Open(a, s)
    decreases s
  {
    assert a'.nodes[s] == a.nodes[s] && StaysConverted(a, a', s);
    if a.nodes[s].parent.Some? {
      OpenBefore(a, a', a.nodes[s].parent.value);
    }
  }

  lemma ConversionTracks(a0: Arena, st: State, st': State, refs: Refs, copied: Arena, a1: Arena, d: ScopeId,
                         body: ScopeId)
    requires Tracks(a0, st.a, refs) && IsForLoop(st, d, body) && HeadConverted(st.a, copied, a1, d, body)
    requires ArenaOk(a1) && a1.Has(d) && a1.Has(body) && BodyConverted(a1, st'.a, d, body) && ArenaOk(st'.a)
    requires Later(st, st')
    ensures Tracks(a0, st'.a, refs)
  {
    var a, a' := st.a, st'.a;
    assert OnlyFlagged(a, copied) && a'.vars == copied.vars;
    forall v {:trigger a'.vars[v]} | 0 <= v < |a0.vars|
      ensures a'.vars[v].kind == a.vars[v].kind && a'.vars[v].decl == a.vars[v].decl
      ensures (a'.vars[v].Bound() <==> a.vars[v].Bound())
    {
      assert copied.vars[v] == a.vars[v] || copied.vars[v] == a.vars[v].AddFlags({LoopDeclared});
    }
    forall t {:trigger Alike(a0, a', t)} | 0 <= t < |a0.nodes| && Open(a', t)
      ensures Alike(a0, a', t)
    {
      OpenBefore(a, a', t);
      assert Alike(a0, a, t);
      OthersBound(st, a', copied, a1, d, body, t);
    }
  }

  lemma ConversionLeavesParams(a0: Arena, a: Arena, a': Arena, copied: Arena, a1: Arena, d: ScopeId, body: ScopeId,
                               refs: Refs)
    requires ArenaOk(a) && a.Has(d) && a.Has(body) && d != body && IsLoopClass(a.nodes[body].class_)
    requires a0.nodes <= a.nodes
    requires HeadConverted(a, copied, a1, d, body)
    requires ArenaOk(a1) && a1.Has(d) && a1.Has(body) && BodyConverted(a1, a', d, body) && ParamsDeclared(a0, a, refs)
    ensures ParamsDeclared(a0, a', refs)
  {
    forall p: ScopeId {:trigger IsParamScope(a0.nodes, p)} | IsParamScope(a0.nodes, p) && p < |a.bindings|
      ensures p < |a'.bindings| && a'.bindings[p] == a.bindings[p]
    {
      assert a.nodes[p] == a0.nodes[p];
      assert copied.bindings[p] == a.bindings[p];
    }
  }

  /** A scope that is open after the conversion has the bindings that it had. */
  lemma OthersBound(st: State, a': Arena, copied: Arena, a1: Arena, d: ScopeId, body: ScopeId, t: ScopeId)
    requires IsForLoop(st, d, body) && HeadConverted(st.a, copied, a1, d, body)
    requires ArenaOk(a1) && a1.Has(d) && a1.Has(body) && BodyConverted(a1, a', d, body) && ArenaOk(a')
    requires t < |st.a.nodes| && Open(a', t) && st.a.nodes <= a'.nodes
    ensures t < |a'.bindings| && a'.bindings[t] == st.a.bindings[t]
  {
    if CapturedNames(st.a, d) != {} {
      assert Converted(a', d) && a'.nodes[body].parent == Some(d);
      assert t != body;
      assert copied.bindings[t] == st.a.bindings[t];
    }
  }

  // ---- What the conversion of a loop meets.

  lemma LoopReads(a0: Arena, a: Arena, refs: Refs, l: ScopeId)
    requires Tracks(a0, a, refs) && l < |a0.nodes| && IsLoopClass(a0.nodes[l].class_) && Open(a, l) && a.Has(l)
    ensures HasCapturedLet(a, l) <==> LetReached(a0, refs, l)
    ensures CapturedNames(a, l) != {} <==> DeclReached(a0, refs, l)
  {
    hide Open, CapturedBy;
    SameBindings(a0, a, l);
    assert forall n {:trigger n in a.bindings[l]} :: n in a.bindings[l] ==>
      (a.vars[a.bindings[l][n]].Bound() <==> CapturedBy(a0, refs, a0.bindings[l][n]))
      && a.vars[a.bindings[l][n]].decl == a0.vars[a0.bindings[l][n]].decl;
    SomeCaptured(a, l);
  }

  lemma SameBindings(a0: Arena, a: Arena, l: ScopeId)
    requires Faithful(a0, a) && l < |a0.nodes| && IsLoopClass(a0.nodes[l].class_) && Open(a, l)
    ensures a.bindings[l] == a0.bindings[l]
  {
    assert Alike(a0, a, l);
  }

  lemma SomeCaptured(a: Arena, l: ScopeId)
    requires ArenaOk(a) && a.Has(l)
    ensures CapturedNames(a, l) != {} <==>
      exists n {:trigger n in a.bindings[l]} :: n in a.bindings[l] && IsCaptured(a.vars[a.bindings[l][n]])
  {
    if n :| n in a.bindings[l] && IsCaptured(a.vars[a.bindings[l][n]]) {
      assert n in CapturedNames(a, l);
    }
    if CapturedNames(a, l) != {} {
      var n :| n in CapturedNames(a, l);
      assert n in a.bindings[l];
    }
  }
}
