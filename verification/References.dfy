/** What a reference finds, and why it goes on finding a variable that lives in an environment. */
module References {
  import opened Scopes
  import opened Slots
  import opened SyntaxTree

  // ---- Lookup without the counters.

  /** The innermost scope binding `name`. */
  ghost function Holder(a: Arena, s: ScopeId, name: string): (h: Option<ScopeId>)
    requires ArenaOk(a) && s < |a.nodes|
    ensures h.Some? ==> h.value <= s && name in a.bindings[h.value]
    decreases s
  {
    if name in a.bindings[s] then Some(s) else if a.nodes[s].parent.None? then None
      else Holder(a, a.nodes[s].parent.value, name)
  }

  ghost predicate SameFunction(nodes: seq<ScopeNode>, s: ScopeId, t: ScopeId)
    requires TreeOk(nodes) && s < |nodes| && t < |nodes|
  {
    FunctionOf(nodes, s) == FunctionOf(nodes, t)
  }

  lemma {:induction false} FindIsHolder(a: Arena, s: ScopeId, name: string)
    requires ArenaOk(a) && s < |a.nodes|
    ensures var r, h := FindIn(a, Chain(a.nodes, s), name), Holder(a, s, name);
      && (r.NotFound? <==> h.None?)
      && (r.Found? ==> r.scope == h.value && r.variable == a.bindings[r.scope][name]
                       && (r.scope == s ==> r.level == 0)
                       && (r.level == 0 ==> SameFunction(a.nodes, s, r.scope)))
    decreases s
  {
    if name !in a.bindings[s] && a.nodes[s].parent.Some? {
      assert Chain(a.nodes, s)[1..] == Chain(a.nodes, a.nodes[s].parent.value);
      FindIsHolder(a, a.nodes[s].parent.value, name);
    } else if name !in a.bindings[s] {
      assert Chain(a.nodes, s)[1..] == [];
    }
  }

  /** Beyond the scope it starts in, a lookup finds no parameter scope: the function scope comes first. */
  lemma {:induction false} HolderIsNoParamScope(st: State, s: ScopeId, name: string)
    requires ArenaOk(st.a) && BindingsOk(st) && s < |st.a.nodes| && Holder(st.a, s, name).Some?
    ensures var h := Holder(st.a, s, name).value;
      h != s ==> st.a.nodes[h].class_ != FunctionParam && h !in st.g.initOf
    decreases s
  {
    if name !in st.a.bindings[s] {
      assert ScopeOk(st, s);
      HolderIsNoParamScope(st, st.a.nodes[s].parent.value, name);
    }
  }

  lemma {:induction false} HolderEncloses(a: Arena, s: ScopeId, name: string)
    requires ArenaOk(a) && s < |a.nodes| && Holder(a, s, name).Some?
    ensures Holder(a, s, name).value in Chain(a.nodes, s)
    decreases s
  {
    if name !in a.bindings[s] {
      HolderEncloses(a, a.nodes[s].parent.value, name);
    }
  }

  // ---- Open scopes.

  /** No loop around `s`, in any function, has become a variable scope. */
  ghost predicate Open(a: Arena, s: ScopeId)
    requires ArenaOk(a) && s < |a.nodes|
    decreases s
  {
    !Converted(a, s) && (a.nodes[s].parent.Some? ==> Open(a, a.nodes[s].parent.value))
  }

  lemma {:induction false} OpenIsPlain(a: Arena, s: ScopeId, t: ScopeId)
    requires ArenaOk(a) && s < |a.nodes| && Open(a, s) && t in Chain(a.nodes, s)
    ensures PlainLoops(a, t)
    decreases s
  {
    if t != s {
      OpenIsPlain(a, a.nodes[s].parent.value, t);
    } else if !IsFunctionType(a.nodes[s].class_) {
      OpenIsPlain(a, a.nodes[s].parent.value, a.nodes[s].parent.value);
    }
  }

  /** Plain loops are skipped, so the enclosing variable scope is the function. */
  lemma {:induction false} PlainLoopsSkipped(a: Arena, s: ScopeId)
    requires ArenaOk(a) && s < |a.nodes| && PlainLoops(a, s)
    ensures FirstVariableScope(a, Chain(a.nodes, s)) == Some(FunctionOf(a.nodes, s))
    decreases s
  {
    if !IsFunctionType(a.nodes[s].class_) {
      var p := a.nodes[s].parent.value;
      assert Chain(a.nodes, s)[1..] == Chain(a.nodes, p);
      assert s in LoopsAround(a.nodes, s) ==> !Converted(a, s);
      PlainLoopsSkipped(a, p);
    }
  }

  /** Scopes stay open as long as only loops elsewhere are converted. */
  lemma {:induction false} StaysOpen(a: Arena, a': Arena, s: ScopeId)
    requires ArenaOk(a) && ArenaOk(a') && a.nodes <= a'.nodes && s < |a.nodes| && Open(a, s)
    requires forall l: ScopeId :: l in Chain(a.nodes, s) && Converted(a', l) ==> Converted(a, l)
    ensures Open(a', s)
    decreases s
  {
    assert a'.nodes[s] == a.nodes[s];
    assert s in Chain(a.nodes, s);
    if a.nodes[s].parent.Some? {
      StaysOpen(a, a', a.nodes[s].parent.value);
    }
  }

  lemma {:induction false} OpenAbove(a: Arena, s: ScopeId, t: ScopeId)
    requires ArenaOk(a) && s < |a.nodes| && Open(a, s) && (t == s || t == FunctionOf(a.nodes, s))
    ensures Open(a, t)
    decreases s
  {
    if t != s {
      OpenAbove(a, a.nodes[s].parent.value, t);
    }
  }

  lemma OpenKept(a: Arena, a': Arena, s: ScopeId)
    requires ArenaOk(a) && ArenaOk(a') && a.nodes == a'.nodes && a.loopType == a'.loopType && s < |a.nodes|
    requires Open(a, s)
    ensures Open(a', s)
  {
    StaysOpen(a, a', s);
  }

  // ---- References that leave a function.

  /**
   * The function that runs the code in `s`, and whose frame holds the variables of `s`: parameters belong to their
   * function.
   */
  ghost function Runner(nodes: seq<ScopeNode>, s: ScopeId): ScopeId
    requires TreeOk(nodes) && s < |nodes|
  {
    if nodes[s].class_ == FunctionParam && nodes[s].functionScope.Some? then nodes[s].functionScope.value
      else FunctionOf(nodes, s)
  }

  /** What a reference in `s` finds in another function lives in an environment. */
  ghost predicate Settled(st: State, s: ScopeId, name: string)
    requires ArenaOk(st.a) && s < |st.a.nodes|
  {
    var h := Holder(st.a, s, name);
    h.Some? && Runner(st.a.nodes, s) != Runner(st.a.nodes, h.value) ==>
      var v := st.a.vars[st.a.bindings[h.value][name]];
      v.kind == LocalVariable ==> v.Bound()
  }

  /** Where `arguments` of the code in `s` is declared: arrows have none, and neither has the top scope. */
  ghost function ArgumentsScope(nodes: seq<ScopeNode>, s: ScopeId): (r: Option<ScopeId>)
    requires TreeOk(nodes) && s < |nodes|
    ensures r.Some? ==> r.value <= s && HasArguments(nodes[r.value])
    decreases s
  {
    if HasArguments(nodes[s]) then Some(s)
    else if nodes[s].parent.None? then None
    else ArgumentsScope(nodes, nodes[s].parent.value)
  }

  predicate HasArguments(n: ScopeNode) {
    (n.class_ == Function || n.class_ == FunctionParam) && n.kind != Arrow
  }

  const FUNCTION_ARGUMENTS := "arguments"

  /**
   * A reference that has been resolved: in code of a function body it is settled, and `arguments` has been
   * declared where it belongs.
   */
  ghost predicate Resolved(st: State, s: ScopeId, name: string)
    requires ArenaOk(st.a)
  {
    && s < |st.a.nodes| && name !in MANDATORY_NAMES && (st.a.nodes[s].class_ != FunctionParam ==> Settled(st, s, name))
    && (name == FUNCTION_ARGUMENTS && ArgumentsScope(st.a.nodes, s).Some? ==>
          name in st.a.bindings[ArgumentsScope(st.a.nodes, s).value])
  }

  lemma {:induction false} HolderKept(a: Arena, a': Arena, s: ScopeId, name: string)
    requires ArenaOk(a) && ArenaOk(a') && a.nodes <= a'.nodes && s < |a.nodes|
    requires forall t {:trigger a'.bindings[t]} :: 0 <= t <= s ==> (name in a'.bindings[t] <==> name in a.bindings[t])
    ensures Holder(a', s, name) == Holder(a, s, name)
    decreases s
  {
    assert a'.nodes[s] == a.nodes[s];
    assert name in a'.bindings[s] <==> name in a.bindings[s];
    if name !in a.bindings[s] && a.nodes[s].parent.Some? {
      HolderKept(a, a', a.nodes[s].parent.value, name);
    }
  }

  /** Inserting `name` into `t` either goes unnoticed in `s` or makes `t` the holder, nearer than the old one. */
  lemma {:induction false} HolderAfterInsert(a: Arena, a': Arena, t: ScopeId, s: ScopeId, name: string)
    requires ArenaOk(a) && ArenaOk(a') && a'.nodes == a.nodes && s < |a.nodes| && t < |a.nodes|
    requires name !in a.bindings[t] && name in a'.bindings[t]
    requires forall u {:trigger a'.bindings[u]} :: 0 <= u < |a.nodes| && u != t ==> a'.bindings[u] == a.bindings[u]
    ensures var h, h' := Holder(a, s, name), Holder(a', s, name);
      h' == h || (h' == Some(t) && t in Chain(a.nodes, s) && (h.Some? ==> h.value < t))
    decreases s
  {
    if s == t {
      if a.nodes[s].parent.Some? {
        assert Holder(a, s, name) == Holder(a, a.nodes[s].parent.value, name);
      }
    } else {
      assert a'.bindings[s] == a.bindings[s];
      if name !in a.bindings[s] && a.nodes[s].parent.Some? {
        HolderAfterInsert(a, a', t, a.nodes[s].parent.value, name);
      }
    }
  }

  /** Steps that leave scopes and bindings alone, and unbind nothing, keep resolved references. */
  lemma ResolvedKept(st: State, st': State, s: ScopeId, name: string)
    requires ArenaOk(st.a) && ArenaOk(st'.a) && Later(st, st') && Resolved(st, s, name)
    requires forall t {:trigger st'.a.bindings[t]} :: 0 <= t < |st.a.nodes| ==>
      (name in st'.a.bindings[t] <==> name in st.a.bindings[t])
    requires forall t {:trigger st'.a.bindings[t]} ::
      0 <= t < |st.a.nodes| && name in st.a.bindings[t] && name in st'.a.bindings[t] ==>
      st'.a.bindings[t][name] == st.a.bindings[t][name]
    ensures Resolved(st', s, name)
  {
    HolderKept(st.a, st'.a, s, name);
    ArgumentsScopeKept(st.a.nodes, st'.a.nodes, s);
    PlaceKept(st.a.nodes, st'.a.nodes, s);
    var h := Holder(st.a, s, name);
    if h.Some? {
      PlaceKept(st.a.nodes, st'.a.nodes, h.value);
      assert st'.a.bindings[h.value][name] == st.a.bindings[h.value][name];
      var v := st.a.bindings[h.value][name];
      assert SameVariable(st.a.vars[v], st'.a.vars[v]);
    }
  }

  lemma {:induction false} ArgumentsScopeKept(nodes: seq<ScopeNode>, nodes': seq<ScopeNode>, s: ScopeId)
    requires TreeOk(nodes) && TreeOk(nodes') && nodes <= nodes' && s < |nodes|
    ensures ArgumentsScope(nodes', s) == ArgumentsScope(nodes, s)
    decreases s
  {
    assert nodes'[s] == nodes[s];
    if nodes[s].parent.Some? {
      ArgumentsScopeKept(nodes, nodes', nodes[s].parent.value);
    }
  }

  lemma {:induction false} ArgumentsScopeIsNearest(nodes: seq<ScopeNode>, s: ScopeId, t: ScopeId)
    requires TreeOk(nodes) && s < |nodes| && t in Chain(nodes, s) && HasArguments(nodes[t])
    ensures var r := ArgumentsScope(nodes, s); r.Some? && t <= r.value && r.value in Chain(nodes, s)
    decreases s
  {
    if !HasArguments(nodes[s]) {
      ArgumentsScopeIsNearest(nodes, nodes[s].parent.value, t);
    }
  }

  lemma {:induction false} HolderIsNearest(a: Arena, s: ScopeId, t: ScopeId, name: string)
    requires ArenaOk(a) && s < |a.nodes| && t in Chain(a.nodes, s) && name in a.bindings[t]
    ensures Holder(a, s, name).Some? && t <= Holder(a, s, name).value
    decreases s
  {
    if name !in a.bindings[s] {
      HolderIsNearest(a, a.nodes[s].parent.value, t, name);
    }
  }

  /**
   * With no loop around converted, the level of a lookup tells whether the name was found outside the function around.
   */
  lemma {:induction false} LevelIsZeroIff(a: Arena, s: ScopeId, name: string)
    requires ArenaOk(a) && s < |a.nodes| && Open(a, s) && FindIn(a, Chain(a.nodes, s), name).Found?
    ensures var r := FindIn(a, Chain(a.nodes, s), name);
      r.scope < |a.nodes| && (r.level == 0 <==> SameFunction(a.nodes, s, r.scope))
    decreases s
  {
    if name !in a.bindings[s] {
      FindIsHolder(a, s, name);
      var p := a.nodes[s].parent.value;
      assert Chain(a.nodes, s)[1..] == Chain(a.nodes, p);
      LevelIsZeroIff(a, p, name);
    }
  }

  // ---- What the steps do to resolved references.

  ghost predicate Good(st: State, seen: set<(ScopeId, string)>) {
    Inv(st) && forall r {:trigger r in seen} :: r in seen ==> Resolved(st, r.0, r.1)
  }

  /** A step that keeps bindings and the invariant. */
  lemma GoodKept(st: State, st': State, seen: set<(ScopeId, string)>)
    requires Good(st, seen) && Inv(st') && Later(st, st')
    requires forall t {:trigger st'.a.bindings[t]} :: 0 <= t < |st.a.nodes| ==> st'.a.bindings[t] == st.a.bindings[t]
    ensures Good(st', seen)
  {
    forall r {:trigger r in seen} | r in seen
      ensures Resolved(st', r.0, r.1)
    {
      ResolvedKept(st, st', r.0, r.1);
    }
  }

  lemma MandatoryParamKeepsGood(st: State, seen: set<(ScopeId, string)>, f: ScopeId, name: string, x: Variable)
    requires Good(st, seen) && MayAdd(st, f, x, None) && name in MANDATORY_NAMES
    ensures Good(WithVariable(st, f, name, x, None), seen) && Later(st, WithVariable(st, f, name, x, None))
  {
    NewVariableKeepsInv(st, f, name, x, None);
    forall r {:trigger r in seen} | r in seen
      ensures Resolved(WithVariable(st, f, name, x, None), r.0, r.1)
    {
      ResolvedKept(st, WithVariable(st, f, name, x, None), r.0, r.1);
    }
  }

  /** References inside the loop that find the copy stay settled, since it has a slot. */
  lemma CopyKeepsGood(st: State, seen: set<(ScopeId, string)>, body: ScopeId, name: string, x: Variable, v: VariableId)
    requires Good(st, seen) && MayAdd(st, body, x, Some(v))
    ensures Good(WithVariable(st, body, name, x, Some(v)), seen) && Later(st, WithVariable(st, body, name, x, Some(v)))
  {
    NewVariableKeepsInv(st, body, name, x, Some(v));
    forall r {:trigger r in seen} | r in seen
      ensures Resolved(WithVariable(st, body, name, x, Some(v)), r.0, r.1)
    {
      CopyKeepsResolved(st, body, name, x, v, r.0, r.1);
    }
  }

  /**
   * Everything inside the body finds the copy, with the slot of its original, unless a scope further in binds the name.
   */
  lemma CopyIsFound(st: State, body: ScopeId, name: string, x: Variable, v: VariableId, s: ScopeId)
    requires MayAdd(st, body, x, Some(v)) && name !in st.a.bindings[body]
    requires s < |st.a.nodes| && body in Chain(st.a.nodes, s)
    ensures var st', h := WithVariable(st, body, name, x, Some(v)), Holder(st.a, s, name);
      && ArenaOk(st'.a) && Holder(st'.a, s, name) == (if h.Some? && body < h.value then h else Some(body))
      && st'.a.bindings[body][name] == |st.a.vars| && st'.a.vars[|st.a.vars|] == x
      && x.Bound() && x.vreg == st.a.vars[v].vreg && Original(st'.g, |st.a.vars|) == Original(st.g, v)
  {
    var st' := WithVariable(st, body, name, x, Some(v));
    NewVariableKeepsInv(st, body, name, x, Some(v));
    HolderAfterInsert(st.a, st'.a, body, s, name);
    HolderIsNearest(st'.a, s, body, name);
  }

  lemma CopyKeepsResolved(st: State, body: ScopeId, n: string, x: Variable, v: VariableId, s: ScopeId, name: string)
    requires MayAdd(st, body, x, Some(v)) && Resolved(st, s, name)
    requires var st' := WithVariable(st, body, n, x, Some(v)); ArenaOk(st'.a) && Later(st, st')
    ensures Resolved(WithVariable(st, body, n, x, Some(v)), s, name)
  {
    var st' := WithVariable(st, body, n, x, Some(v));
    if name == n && n !in st.a.bindings[body] {
      HolderAfterInsert(st.a, st'.a, body, s, name);
      assert st'.a.vars[|st.a.vars|] == x;
    } else {
      ResolvedKept(st, st', s, name);
    }
  }

  /** `arguments` is declared in a scope that has it before any reference could have found it further out. */
  lemma ArgumentsKeepResolved(st: State, st': State, t: ScopeId, w: VariableId, s: ScopeId, name: string)
    requires ArenaOk(st.a) && ArenaOk(st'.a) && Later(st, st') && Resolved(st, s, name)
    requires st.a.Has(t) && HasArguments(st.a.nodes[t]) && st'.a.nodes == st.a.nodes
    requires st'.a.bindings == st.a.bindings[t := Inserted(st.a.bindings[t], FUNCTION_ARGUMENTS, w)]
    ensures Resolved(st', s, name)
  {
    hide Chain, Holder, Settled, Later, ArgumentsScope, TreeOk;
    if name == FUNCTION_ARGUMENTS && name !in st.a.bindings[t] && t in Chain(st.a.nodes, s) {
      ArgumentsScopeIsNearest(st.a.nodes, s, t);
      HolderIsNearest(st.a, s, ArgumentsScope(st.a.nodes, s).value, name);
      HolderAfterInsert(st.a, st'.a, t, s, name);
      HolderStaysSettled(st, st', s, name);
    } else if name == FUNCTION_ARGUMENTS && name !in st.a.bindings[t] {
      HolderAfterInsert(st.a, st'.a, t, s, name);
      HolderStaysSettled(st, st', s, name);
    } else {
      ResolvedKept(st, st', s, name);
    }
  }

  lemma HolderStaysSettled(st: State, st': State, s: ScopeId, name: string)
    requires ArenaOk(st.a) && ArenaOk(st'.a) && Later(st, st') && Resolved(st, s, name) && st'.a.nodes == st.a.nodes
    requires Holder(st'.a, s, name) == Holder(st.a, s, name)
    requires forall t {:trigger st'.a.bindings[t]} :: 0 <= t < |st.a.nodes| && name in st.a.bindings[t] ==>
      name in st'.a.bindings[t] && st'.a.bindings[t][name] == st.a.bindings[t][name]
    ensures Resolved(st', s, name)
  {
    var h := Holder(st.a, s, name);
    if h.Some? {
      assert st'.a.bindings[h.value][name] == st.a.bindings[h.value][name];
      assert SameVariable(st.a.vars[st.a.bindings[h.value][name]], st'.a.vars[st.a.bindings[h.value][name]]);
    }
  }

  // ---- Looking up a name.

  /** The state after a lookup of `name` in `s` that captures what it finds across a variable scope. */
  ghost function LookedUp(st: State, s: ScopeId, name: string): State
    requires Inv(st) && s < |st.a.nodes|
  {
    FindIsHolder(st.a, s, name);
    match FindIn(st.a, Chain(st.a.nodes, s), name)
    case NotFound => st
    case Found(h, level, _, v) =>
      var f := FunctionOf(st.a.nodes, h);
      assert st.a.Has(f);
      if level == 0 then st else Captured(st, v, f)
  }

  lemma LookupKeepsInv(st: State, s: ScopeId, name: string)
    requires Inv(st) && s < |st.a.nodes| && HolderIsPlain(st.a, s, name)
    ensures var st' := LookedUp(st, s, name);
      Inv(st') && Later(st, st') && st'.a.bindings == st.a.bindings && st'.a.nodes == st.a.nodes
  {
    LaterReflexive(st);
    FindIsHolder(st.a, s, name);
    var r := FindIn(st.a, Chain(st.a.nodes, s), name);
    if r.Found? && r.level != 0 {
      HolderIsNoParamScope(st, s, name);
      CaptureKeepsInv(st, r.variable, r.scope, name);
    }
  }

  /** A lookup from a function body settles the reference. */
  lemma LookupSettles(st: State, s: ScopeId, name: string)
    requires Inv(st) && s < |st.a.nodes| && st.a.nodes[s].class_ != FunctionParam
    requires var st' := LookedUp(st, s, name);
      && ArenaOk(st'.a) && st'.a.bindings == st.a.bindings
      && st'.a.nodes == st.a.nodes
    ensures Settled(LookedUp(st, s, name), s, name)
  {
    FindIsHolder(st.a, s, name);
    HolderKept(st.a, LookedUp(st, s, name).a, s, name);
    if Holder(st.a, s, name).Some? {
      HolderIsNoParamScope(st, s, name);
    }
  }

  lemma LookupKeepsGood(st: State, seen: set<(ScopeId, string)>, s: ScopeId, name: string)
    requires Good(st, seen) && s < |st.a.nodes| && HolderIsPlain(st.a, s, name)
    ensures var st' := LookedUp(st, s, name);
      && Good(st', seen) && Later(st, st') && st'.a.bindings == st.a.bindings && st'.a.nodes == st.a.nodes
      && (st.a.nodes[s].class_ != FunctionParam ==> Settled(st', s, name))
  {
    LookupKeepsInv(st, s, name);
    GoodKept(st, LookedUp(st, s, name), seen);
    if st.a.nodes[s].class_ != FunctionParam {
      LookupSettles(st, s, name);
    }
  }

  /** LocalVariable::SetLexical; other kinds of variables ignore it. */
  method SetLexical(a0: Arena, ghost g0: Ledger, v: VariableId, s: ScopeId, ghost name: string)
    returns (a: Arena, ghost g: Ledger)
    requires Inv(State(a0, g0)) && Binds(State(a0, g0), s, name, v) && PlainLoops(a0, s)
    ensures var f := FunctionOf(a0.nodes, s);
      a0.Has(f) && f in g0.owners && v < |a0.vars| && State(a, g) == Captured(State(a0, g0), v, f)
  {
    assert a0.Has(FunctionOf(a0.nodes, s));
    a, g := a0, g0;
    if a.vars[v].kind != LocalVariable || a.vars[v].Bound() {
      return;
    }
    PlainLoopsSkipped(a, s);
    var varScope := EnclosingVariableScope(a, s);
    a := DrawSlot(a, v, varScope.value);
    g := g.(owners := g.owners[varScope.value := g.owners[varScope.value] + [v]]);
  }

  /** The name is bound outside of converted loops, if it is bound. */
  ghost predicate HolderIsPlain(a: Arena, s: ScopeId, name: string)
    requires ArenaOk(a) && s < |a.nodes|
  {
    var h := Holder(a, s, name);
    h.Some? ==> PlainLoops(a, h.value)
  }

  lemma OpenHolderIsPlain(a: Arena, s: ScopeId, name: string)
    requires ArenaOk(a) && s < |a.nodes| && Open(a, s)
    ensures HolderIsPlain(a, s, name)
  {
    if Holder(a, s, name).Some? {
      HolderEncloses(a, s, name);
      OpenIsPlain(a, s, Holder(a, s, name).value);
    }
  }

  method LookupReference(a0: Arena, ghost g0: Ledger, ghost seen: set<(ScopeId, string)>, s: ScopeId, name: string)
    returns (res: FindResult, a: Arena, ghost g: Ledger)
    requires Good(State(a0, g0), seen) && s < |a0.nodes| && HolderIsPlain(a0, s, name)
    ensures res == FindIn(a0, Chain(a0.nodes, s), name)
    ensures State(a, g) == LookedUp(State(a0, g0), s, name)
    ensures Good(State(a, g), seen) && Later(State(a0, g0), State(a, g))
    ensures a0.nodes[s].class_ != FunctionParam ==> Settled(State(a, g), s, name)
    ensures a.bindings == a0.bindings && a.nodes == a0.nodes && a.loopType == a0.loopType
  {
    LookupKeepsGood(State(a0, g0), seen, s, name);
    FindIsHolder(a0, s, name);
    a, g := a0, g0;
    res := Find(a, s, name);
    if res.Found? && res.level != 0 {
      HolderIsNoParamScope(State(a, g), s, name);
      a, g := SetLexical(a, g, res.variable, res.scope, name);
    }
  }
}
