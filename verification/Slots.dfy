/**
 * Environment slots as identifier analysis hands them out and re-homes them: the invariant of the arena,
 * and what each kind of step does to it.
 */
module Slots {
  import opened Scopes

  /** What the arena itself does not record. */
  datatype Ledger = Ledger(
    /** The scope that introduced a variable; parameters count for the function scope. */
    home: seq<ScopeId>,
    /** Per-iteration copies and what they were first copied from. */
    origin: map<VariableId, VariableId>,
    /** Init scopes of converted loops and the declaration scope they duplicate. */
    initOf: map<ScopeId, ScopeId>,
    /** Who drew the slots of a function-like scope, in order. */
    owners: map<ScopeId, seq<VariableId>>)

  datatype State = State(a: Arena, g: Ledger)

  // ---- Where a scope is.

  ghost function FunctionOf(nodes: seq<ScopeNode>, s: ScopeId): (f: ScopeId)
    requires TreeOk(nodes) && s < |nodes|
    ensures f <= s && IsFunctionType(nodes[f].class_)
    decreases s
  {
    if IsFunctionType(nodes[s].class_) then s else FunctionOf(nodes, nodes[s].parent.value)
  }

  /** The loop scopes around `s`, itself included, up to the function. */
  ghost function LoopsAround(nodes: seq<ScopeNode>, s: ScopeId): (loops: set<ScopeId>)
    requires TreeOk(nodes) && s < |nodes|
    ensures forall l {:trigger l in loops} :: l in loops ==>
      l <= s && IsLoopClass(nodes[l].class_) && FunctionOf(nodes, l) == FunctionOf(nodes, s)
    decreases s
  {
    if IsFunctionType(nodes[s].class_) then
      {}
    else
      LoopsAround(nodes, nodes[s].parent.value) + if IsLoopClass(nodes[s].class_) then {s} else {}
  }

  lemma {:induction false} PlaceKept(nodes: seq<ScopeNode>, nodes': seq<ScopeNode>, s: ScopeId)
    requires TreeOk(nodes) && TreeOk(nodes') && nodes <= nodes' && s < |nodes|
    ensures FunctionOf(nodes', s) == FunctionOf(nodes, s) && LoopsAround(nodes', s) == LoopsAround(nodes, s)
    decreases s
  {
    assert nodes'[s] == nodes[s];
    if !IsFunctionType(nodes[s].class_) {
      PlaceKept(nodes, nodes', nodes[s].parent.value);
    }
  }

  predicate Converted(a: Arena, l: ScopeId)
    requires a.Has(l)
  {
    IsLoopClass(a.nodes[l].class_) && a.loopType[l] != Local
  }

  /** No loop around `s`, up to its function, has become a variable scope. */
  ghost predicate PlainLoops(a: Arena, s: ScopeId)
    requires ArenaOk(a) && s < |a.nodes|
  {
    forall l {:trigger Converted(a, l)} :: l in LoopsAround(a.nodes, s) ==> !Converted(a, l)
  }

  // ---- Who is bound where.

  /** The scope whose bindings `s` shows: itself, or the loop scope it was copied from. */
  ghost function Primary(g: Ledger, s: ScopeId): ScopeId {
    if s in g.initOf then g.initOf[s] else s
  }

  ghost predicate BindingsOk(st: State)
    requires ArenaOk(st.a)
  {
    && |st.g.home| == |st.a.vars|
    && (forall s {:trigger ScopeOk(st, s)} :: 0 <= s < |st.a.nodes| ==> ScopeOk(st, s))
    && (forall v {:trigger st.g.home[v]} :: 0 <= v < |st.g.home| ==>
          st.g.home[v] < |st.a.nodes| && st.a.nodes[st.g.home[v]].class_ != FunctionParam)
    && (forall s {:trigger s in st.g.initOf} :: s in st.g.initOf ==> InitScopeOk(st, s))
  }

  ghost predicate ScopeOk(st: State, s: ScopeId)
    requires ArenaOk(st.a) && |st.g.home| == |st.a.vars| && s < |st.a.nodes|
  {
    && (st.a.nodes[s].class_ != FunctionParam ==>
          forall n {:trigger n in st.a.bindings[s]} :: n in st.a.bindings[s] ==>
            st.g.home[st.a.bindings[s][n]] == Primary(st.g, s))
    && (st.a.nodes[s].parent.Some? ==>
          var p := st.a.nodes[s].parent.value;
          && p !in st.g.initOf
          && (st.a.nodes[p].class_ == FunctionParam ==>
                && st.a.nodes[s].class_ == Function && st.a.nodes[p].functionScope == Some(s)
                && st.a.bindings[p].Keys <= st.a.bindings[s].Keys
                && (forall n {:trigger n in st.a.bindings[p]} :: n in st.a.bindings[p] ==>
                      st.g.home[st.a.bindings[p][n]] == s)))
  }

  ghost predicate InitScopeOk(st: State, s: ScopeId)
    requires ArenaOk(st.a) && s in st.g.initOf
  {
    var d := st.g.initOf[s];
    && s < |st.a.nodes| && d < |st.a.nodes|
    && st.a.nodes[s].class_ == Local && st.a.nodes[d].class_ == LoopDecl && st.a.nodes[s].parent == st.a.nodes[d].parent
  }

  // ---- Slots.

  ghost function Original(g: Ledger, v: VariableId): VariableId {
    if v in g.origin then g.origin[v] else v
  }

  /** Slots of a function run from 0 to its counter, each drawn by one variable; copies share their original's. */
  ghost predicate SlotsOk(st: State)
    requires ArenaOk(st.a) && BindingsOk(st)
  {
    && (forall f {:trigger f in st.g.owners} :: f in st.g.owners ==>
          f < |st.a.nodes| && IsFunctionType(st.a.nodes[f].class_))
    && (forall f: ScopeId {:trigger st.a.Has(f)} :: st.a.Has(f) && IsFunctionType(st.a.nodes[f].class_) ==>
          f in st.g.owners && |st.g.owners[f]| == st.a.slotIndex[f])
    && (forall f, i {:trigger OwnsSlot(st, f, i)} :: f in st.g.owners && 0 <= i < |st.g.owners[f]| ==>
          OwnsSlot(st, f, i))
    && (forall v {:trigger HasSlot(st, v)} :: 0 <= v < |st.a.vars| && st.a.vars[v].Bound() ==> HasSlot(st, v))
    && (forall v {:trigger v in st.g.origin} :: v in st.g.origin ==> v < |st.a.vars| && st.a.vars[v].Bound())
  }

  ghost predicate OwnsSlot(st: State, f: ScopeId, i: nat)
    requires ArenaOk(st.a) && BindingsOk(st) && f in st.g.owners && i < |st.g.owners[f]|
  {
    var v := st.g.owners[f][i];
    && v < |st.a.vars| && v !in st.g.origin
    && st.a.vars[v].Bound() && st.a.vars[v].vreg == i
    && FunctionOf(st.a.nodes, st.g.home[v]) == f
  }

  ghost predicate HasSlot(st: State, v: VariableId)
    requires ArenaOk(st.a) && BindingsOk(st) && v < |st.a.vars|
  {
    var f, slot := FunctionOf(st.a.nodes, st.g.home[v]), st.a.vars[v].vreg;
    && st.a.vars[v].kind == LocalVariable
    && f in st.g.owners && slot < |st.g.owners[f]| && st.g.owners[f][slot] == Original(st.g, v)
  }

  /** Every bound variable of `s` has its slot below `limit`. */
  ghost predicate RoomFor(a: Arena, s: ScopeId, limit: nat)
    requires ArenaOk(a) && a.Has(s)
  {
    forall n {:trigger n in a.bindings[s]} :: n in a.bindings[s] && a.vars[a.bindings[s][n]].Bound() ==>
      a.vars[a.bindings[s][n]].vreg < limit
  }

  /** A converted loop scope has room for every slot used within it. */
  ghost predicate LoopsOk(a: Arena)
    requires ArenaOk(a)
  {
    forall l {:trigger LoopOk(a, l)} :: 0 <= l < |a.nodes| && IsLoopClass(a.nodes[l].class_) ==> LoopOk(a, l)
  }

  ghost predicate LoopOk(a: Arena, l: ScopeId)
    requires ArenaOk(a) && a.Has(l)
  {
    if Converted(a, l) then
      a.loopType[l] == a.nodes[l].class_ && a.slotIndex[l] > 0 && HasRoom(a, l)
    else
      a.slotIndex[l] == 0
  }

  ghost predicate HasRoom(a: Arena, l: ScopeId)
    requires ArenaOk(a) && a.Has(l)
  {
    forall s {:trigger RoomFor(a, s, a.slotIndex[l])} ::
      0 <= s < |a.nodes| && a.nodes[s].class_ != FunctionParam && l in LoopsAround(a.nodes, s) ==>
      RoomFor(a, s, a.slotIndex[l])
  }

  ghost predicate Inv(st: State) {
    ArenaOk(st.a) && BindingsOk(st) && SlotsOk(st) && LoopsOk(st.a)
  }

  /** What never changes once it holds: scopes, homes, slots that were given, and who drew them. */
  ghost predicate Later(st: State, st': State) {
    && st.a.nodes <= st'.a.nodes && |st.a.vars| <= |st'.a.vars| && st.g.home <= st'.g.home
    && (forall v {:trigger st'.a.vars[v]} :: 0 <= v < |st.a.vars| ==> SameVariable(st.a.vars[v], st'.a.vars[v]))
    && (forall f {:trigger f in st'.g.owners} :: f in st.g.owners ==>
          f in st'.g.owners && st.g.owners[f] <= st'.g.owners[f])
    && (forall l: ScopeId {:trigger StaysConverted(st.a, st'.a, l)} :: StaysConverted(st.a, st'.a, l))
    && (forall s {:trigger s in st'.g.initOf} :: s < |st.a.nodes| ==> (s in st'.g.initOf <==> s in st.g.initOf))
  }

  predicate StaysConverted(a: Arena, a': Arena, l: ScopeId) {
    a.Has(l) ==> a'.Has(l) && (Converted(a, l) ==> Converted(a', l))
  }

  predicate SameVariable(v: Variable, v': Variable) {
    v'.kind == v.kind && v'.decl == v.decl && (v.Bound() ==> v'.Bound() && v'.vreg == v.vreg)
  }

  lemma LaterReflexive(st: State)
    ensures Later(st, st)
  {
  }

  lemma LaterTransitive(st: State, st': State, st'': State)
    requires Later(st, st') && Later(st', st'')
    ensures Later(st, st'')
  {
    forall v {:trigger st''.a.vars[v]} | 0 <= v < |st.a.vars|
      ensures SameVariable(st.a.vars[v], st''.a.vars[v])
    {
      assert SameVariable(st.a.vars[v], st'.a.vars[v]);
    }
    forall f {:trigger f in st''.g.owners} | f in st.g.owners
      ensures f in st''.g.owners && st.g.owners[f] <= st''.g.owners[f]
    {
      assert f in st'.g.owners;
    }
    forall l: ScopeId {:trigger StaysConverted(st.a, st''.a, l)} | true
      ensures StaysConverted(st.a, st''.a, l)
    {
      assert StaysConverted(st.a, st'.a, l) && StaysConverted(st'.a, st''.a, l);
    }
    forall s {:trigger s in st''.g.initOf} | s < |st.a.nodes|
      ensures s in st''.g.initOf <==> s in st.g.initOf
    {
      assert s in st'.g.initOf <==> s in st.g.initOf;
    }
  }

  // ---- Frames.

  /** Nothing about slots changes for what is already there. */
  ghost predicate SameSlots(st: State, st': State)
    requires ArenaOk(st.a) && ArenaOk(st'.a)
  {
    && st.a.nodes <= st'.a.nodes && |st.a.vars| <= |st'.a.vars| && st.g.home <= st'.g.home &&
         st'.g.owners == st.g.owners
    && (forall f: ScopeId {:trigger st'.a.Has(f)} :: st'.a.Has(f) && IsFunctionType(st'.a.nodes[f].class_) ==>
          st.a.Has(f) && st'.a.slotIndex[f] == st.a.slotIndex[f])
    && (forall v {:trigger st'.a.vars[v]} :: 0 <= v < |st.a.vars| ==>
          SameVariable(st.a.vars[v], st'.a.vars[v]) && (st'.a.vars[v].Bound() ==> st.a.vars[v].Bound()))
    && (forall v {:trigger SameOrigin(st.g, st'.g, v)} :: 0 <= v < |st.a.vars| ==> SameOrigin(st.g, st'.g, v))
  }

  ghost predicate SameOrigin(g: Ledger, g': Ledger, v: VariableId) {
    && (v in g'.origin <==> v in g.origin)
    && (v in g.origin ==> g'.origin[v] == g.origin[v])
  }

  lemma SlotsFrame(st: State, st': State)
    requires ArenaOk(st.a) && BindingsOk(st) && SlotsOk(st)
    requires ArenaOk(st'.a) && BindingsOk(st') && SameSlots(st, st')
    requires forall v {:trigger HasSlot(st', v)} :: |st.a.vars| <= v < |st'.a.vars| && st'.a.vars[v].Bound() ==>
      HasSlot(st', v)
    requires forall v {:trigger v in st'.g.origin} :: v in st'.g.origin && v >= |st.a.vars| ==>
      v < |st'.a.vars| && st'.a.vars[v].Bound()
    ensures SlotsOk(st')
  {
    forall f, i {:trigger OwnsSlot(st', f, i)} | f in st'.g.owners && 0 <= i < |st'.g.owners[f]|
      ensures OwnsSlot(st', f, i)
    {
      assert OwnsSlot(st, f, i);
      var v := st.g.owners[f][i];
      PlaceKept(st.a.nodes, st'.a.nodes, st.g.home[v]);
      assert SameOrigin(st.g, st'.g, v);
    }
    forall v {:trigger HasSlot(st', v)} | 0 <= v < |st'.a.vars| && st'.a.vars[v].Bound()
      ensures HasSlot(st', v)
    {
      if v < |st.a.vars| {
        assert HasSlot(st, v);
        PlaceKept(st.a.nodes, st'.a.nodes, st.g.home[v]);
        assert SameOrigin(st.g, st'.g, v);
      }
    }
    forall v {:trigger v in st'.g.origin} | v in st'.g.origin
      ensures v < |st'.a.vars| && st'.a.vars[v].Bound()
    {
      assert v < |st.a.vars| ==> SameOrigin(st.g, st'.g, v) && SameVariable(st.a.vars[v], st'.a.vars[v]);
    }
  }

  // ---- First capture of a variable.

  /** `s` is a scope that lookups may find, and binds `name` to `v`. */
  ghost predicate Binds(st: State, s: ScopeId, name: string, v: VariableId) {
    && st.a.Has(s) && st.a.nodes[s].class_ != FunctionParam && s !in st.g.initOf
    && name in st.a.bindings[s] && st.a.bindings[s][name] == v
  }

  /** LocalVariable::SetLexical on a variable whose enclosing variable scope is `f`. */
  ghost function Captured(st: State, v: VariableId, f: ScopeId): State
    requires v < |st.a.vars| && st.a.Has(f) && f in st.g.owners
  {
    if st.a.vars[v].kind != LocalVariable || st.a.vars[v].Bound() then
      st
    else
      State(DrawSlot(st.a, v, f), st.g.(owners := st.g.owners[f := st.g.owners[f] + [v]]))
  }

  function DrawSlot(a: Arena, v: VariableId, f: ScopeId): Arena
    requires v < |a.vars| && a.Has(f)
  {
    var slot := a.slotIndex[f];
    a.(slotIndex := a.slotIndex[f := slot + 1], vars := a.vars[v := a.vars[v].BindLexEnvSlot(slot)])
  }

  lemma CaptureKeepsInv(st: State, v: VariableId, s: ScopeId, name: string)
    requires Inv(st) && Binds(st, s, name, v) && PlainLoops(st.a, s)
    ensures var f := FunctionOf(st.a.nodes, s);
      v < |st.a.vars| && f in st.g.owners && Inv(Captured(st, v, f)) && Later(st, Captured(st, v, f))
  {
    var f := FunctionOf(st.a.nodes, s);
    assert ScopeOk(st, s) && st.a.Has(f);
    CaptureIsLater(st, v, f);
    if Captured(st, v, f) != st {
      assert ArenaOk(DrawSlot(st.a, v, f));
      CaptureKeepsBindings(st, v, f);
      CaptureKeepsSlots(st, v, f);
      CaptureKeepsLoops(st, v, s, name);
    }
  }

  lemma CaptureIsLater(st: State, v: VariableId, f: ScopeId)
    requires v < |st.a.vars| && st.a.Has(f) && f in st.g.owners
    ensures Later(st, Captured(st, v, f))
  {
  }

  lemma CaptureKeepsBindings(st: State, v: VariableId, f: ScopeId)
    requires ArenaOk(st.a) && BindingsOk(st) && v < |st.a.vars| && st.a.Has(f) && f in st.g.owners
    ensures ArenaOk(Captured(st, v, f).a) && BindingsOk(Captured(st, v, f))
  {
    var st' := Captured(st, v, f);
    forall t {:trigger ScopeOk(st', t)} | 0 <= t < |st'.a.nodes|
      ensures ScopeOk(st', t)
    {
      assert ScopeOk(st, t);
    }
    forall t {:trigger t in st'.g.initOf} | t in st'.g.initOf
      ensures InitScopeOk(st', t)
    {
      assert InitScopeOk(st, t);
    }
  }

  lemma CaptureKeepsSlots(st: State, v: VariableId, f: ScopeId)
    requires ArenaOk(st.a) && BindingsOk(st) && SlotsOk(st)
    requires v < |st.a.vars| && FunctionOf(st.a.nodes, st.g.home[v]) == f && st.a.Has(f) && f in st.g.owners
    requires st.a.vars[v].kind == LocalVariable && !st.a.vars[v].Bound()
    requires ArenaOk(Captured(st, v, f).a) && BindingsOk(Captured(st, v, f))
    ensures SlotsOk(Captured(st, v, f))
  {
    var st' := Captured(st, v, f);
    forall g: ScopeId {:trigger st'.a.Has(g)} | st'.a.Has(g) && IsFunctionType(st'.a.nodes[g].class_)
      ensures g in st'.g.owners && |st'.g.owners[g]| == st'.a.slotIndex[g]
    {
      assert st.a.Has(g);
    }
    forall g, i {:trigger OwnsSlot(st', g, i)} | g in st'.g.owners && 0 <= i < |st'.g.owners[g]|
      ensures OwnsSlot(st', g, i)
    {
      if g != f || i < |st.g.owners[f]| {
        assert OwnsSlot(st, g, i);
      }
    }
    forall u {:trigger HasSlot(st', u)} | 0 <= u < |st'.a.vars| && st'.a.vars[u].Bound()
      ensures HasSlot(st', u)
    {
      if u != v {
        assert HasSlot(st, u);
      }
    }
  }

  lemma CaptureKeepsLoops(st: State, v: VariableId, s: ScopeId, name: string)
    requires Inv(st) && Binds(st, s, name, v) && PlainLoops(st.a, s) && !st.a.vars[v].Bound()
    requires st.a.Has(FunctionOf(st.a.nodes, s)) && ArenaOk(DrawSlot(st.a, v, FunctionOf(st.a.nodes, s)))
    ensures LoopsOk(DrawSlot(st.a, v, FunctionOf(st.a.nodes, s)))
  {
    var a' := DrawSlot(st.a, v, FunctionOf(st.a.nodes, s));
    forall l {:trigger LoopOk(a', l)} | 0 <= l < |a'.nodes| && IsLoopClass(a'.nodes[l].class_)
      ensures LoopOk(a', l)
    {
      assert LoopOk(st.a, l);
      forall t {:trigger RoomFor(a', t, a'.slotIndex[l])} |
          Converted(a', l) && 0 <= t < |a'.nodes| && a'.nodes[t].class_ != FunctionParam &&
            l in LoopsAround(a'.nodes, t)
        ensures RoomFor(a', t, a'.slotIndex[l])
      {
        assert Converted(st.a, l) && RoomFor(st.a, t, st.a.slotIndex[l]);
        NotBoundWithin(st, v, s, name, t, l);
      }
    }
  }

  /** A variable of `s` is not bound inside a loop that does not surround `s`. */
  lemma NotBoundWithin(st: State, v: VariableId, s: ScopeId, name: string, t: ScopeId, l: ScopeId)
    requires ArenaOk(st.a) && BindingsOk(st) && Binds(st, s, name, v)
    requires t < |st.a.nodes| && st.a.nodes[t].class_ != FunctionParam
    requires l in LoopsAround(st.a.nodes, t) && l !in LoopsAround(st.a.nodes, s)
    ensures forall n :: n in st.a.bindings[t] ==> st.a.bindings[t][n] != v
  {
    assert ScopeOk(st, t) && ScopeOk(st, s);
    if t in st.g.initOf {
      assert InitScopeOk(st, t);
    }
  }

  // ---- New variables.

  /** std::unordered_map::insert: an existing entry stays. */
  function Inserted(b: map<string, VariableId>, name: string, v: VariableId): map<string, VariableId> {
    if name in b then b else b[name := v]
  }

  /** A new variable of `s`, inserted into its bindings. */
  function AddVariable(a: Arena, s: ScopeId, name: string, x: Variable): Arena
    requires a.Has(s)
  {
    a.(bindings := a.bindings[s := Inserted(a.bindings[s], name, |a.vars|)], vars := a.vars + [x])
  }

  /** The same with the ledger; `of` is the variable that `x` copies, if it copies one. */
  ghost function WithVariable(st: State, s: ScopeId, name: string, x: Variable, of: Option<VariableId>): State
    requires st.a.Has(s)
  {
    State(AddVariable(st.a, s, name, x),
          st.g.(home := st.g.home + [s],
                origin := if of.None? then st.g.origin else st.g.origin[|st.a.vars| := Original(st.g, of.value)]))
  }

  /** A fresh variable has no slot; a per-iteration copy has that of a variable of the same function. */
  ghost predicate MayAdd(st: State, s: ScopeId, x: Variable, of: Option<VariableId>) {
    && Inv(st) && st.a.Has(s) && st.a.nodes[s].class_ != FunctionParam && s !in st.g.initOf
    && match of
       case None => !x.Bound()
       case Some(v) =>
         && v < |st.a.vars| && st.a.vars[v].Bound() && x.kind == LocalVariable && x.Bound() &&
              x.vreg == st.a.vars[v].vreg
         && FunctionOf(st.a.nodes, st.g.home[v]) == FunctionOf(st.a.nodes, s) && PlainLoops(st.a, s)
  }

  lemma NewVariableKeepsInv(st: State, s: ScopeId, name: string, x: Variable, of: Option<VariableId>)
    requires MayAdd(st, s, x, of)
    ensures Inv(WithVariable(st, s, name, x, of)) && Later(st, WithVariable(st, s, name, x, of))
  {
    NewVariableKeepsBindings(st, s, name, x, of);
    NewVariableKeepsSlots(st, s, name, x, of);
    NewVariableKeepsLoops(st, s, name, x, of);
  }

  lemma NewVariableKeepsBindings(st: State, s: ScopeId, name: string, x: Variable, of: Option<VariableId>)
    requires ArenaOk(st.a) && BindingsOk(st) && st.a.Has(s) && st.a.nodes[s].class_ != FunctionParam
    requires s !in st.g.initOf
    ensures var st' := WithVariable(st, s, name, x, of); ArenaOk(st'.a) && BindingsOk(st')
  {
    var st' := WithVariable(st, s, name, x, of);
    forall t {:trigger ScopeOk(st', t)} | 0 <= t < |st'.a.nodes|
      ensures ScopeOk(st', t)
    {
      assert ScopeOk(st, t);
    }
    forall t {:trigger t in st'.g.initOf} | t in st'.g.initOf
      ensures InitScopeOk(st', t)
    {
      assert InitScopeOk(st, t);
    }
  }

  lemma NewVariableKeepsSlots(st: State, s: ScopeId, name: string, x: Variable, of: Option<VariableId>)
    requires MayAdd(st, s, x, of)
    requires var st' := WithVariable(st, s, name, x, of); ArenaOk(st'.a) && BindingsOk(st')
    ensures SlotsOk(WithVariable(st, s, name, x, of))
  {
    var st' := WithVariable(st, s, name, x, of);
    assert st'.a.vars[|st.a.vars|] == x;
    if of.Some? {
      assert HasSlot(st, of.value);
      assert HasSlot(st', |st.a.vars|);
    }
    SlotsFrame(st, st');
  }

  lemma NewVariableKeepsLoops(st: State, s: ScopeId, name: string, x: Variable, of: Option<VariableId>)
    requires MayAdd(st, s, x, of)
    requires var st' := WithVariable(st, s, name, x, of); ArenaOk(st'.a)
    ensures LoopsOk(WithVariable(st, s, name, x, of).a)
  {
    var a' := WithVariable(st, s, name, x, of).a;
    forall l {:trigger LoopOk(a', l)} | 0 <= l < |a'.nodes| && IsLoopClass(a'.nodes[l].class_)
      ensures LoopOk(a', l)
    {
      assert LoopOk(st.a, l);
      forall t {:trigger RoomFor(a', t, a'.slotIndex[l])} |
          Converted(a', l) && 0 <= t < |a'.nodes| && a'.nodes[t].class_ != FunctionParam &&
            l in LoopsAround(a'.nodes, t)
        ensures RoomFor(a', t, a'.slotIndex[l])
      {
        assert Converted(st.a, l) && RoomFor(st.a, t, st.a.slotIndex[l]);
      }
    }
  }

  // ---- Conversion of a for loop.

  /** The scope the loop head is evaluated in once its declarations live per iteration. */
  function AddInitScope(a: Arena, d: ScopeId): Arena
    requires a.Has(d)
  {
    a.(nodes := a.nodes + [ScopeNode(Local, a.nodes[d].parent, Plain, None, None, None)],
       bindings := a.bindings + [a.bindings[d]], slotIndex := a.slotIndex + [0], loopType := a.loopType + [Local])
  }

  ghost function WithInitScope(st: State, d: ScopeId): State
    requires st.a.Has(d)
  {
    State(AddInitScope(st.a, d), st.g.(initOf := st.g.initOf[|st.a.nodes| := d]))
  }

  lemma InitScopeKeepsInv(st: State, d: ScopeId)
    requires Inv(st) && st.a.Has(d) && st.a.nodes[d].class_ == LoopDecl && d !in st.g.initOf && PlainLoops(st.a, d)
    ensures Inv(WithInitScope(st, d)) && Later(st, WithInitScope(st, d))
  {
    InitScopeKeepsBindings(st, d);
    SlotsFrame(st, WithInitScope(st, d));
    InitScopeKeepsLoops(st, d);
  }

  lemma InitScopeKeepsBindings(st: State, d: ScopeId)
    requires ArenaOk(st.a) && BindingsOk(st) && st.a.Has(d) && st.a.nodes[d].class_ == LoopDecl && d !in st.g.initOf
    ensures var st' := WithInitScope(st, d); ArenaOk(st'.a) && BindingsOk(st')
  {
    var st' := WithInitScope(st, d);
    assert ScopeOk(st, d);
    forall t {:trigger t in st'.g.initOf} | t in st'.g.initOf
      ensures InitScopeOk(st', t)
    {
      assert t in st.g.initOf ==> InitScopeOk(st, t);
    }
    forall t {:trigger ScopeOk(st', t)} | 0 <= t < |st'.a.nodes|
      ensures ScopeOk(st', t)
    {
      if t < |st.a.nodes| {
        assert ScopeOk(st, t) && Primary(st'.g, t) == Primary(st.g, t);
      }
    }
  }

  lemma InitScopeKeepsLoops(st: State, d: ScopeId)
    requires ArenaOk(st.a) && LoopsOk(st.a) && st.a.Has(d) && !IsFunctionType(st.a.nodes[d].class_)
    requires PlainLoops(st.a, d)
    requires ArenaOk(AddInitScope(st.a, d))
    ensures LoopsOk(AddInitScope(st.a, d))
  {
    var a' := AddInitScope(st.a, d);
    forall l {:trigger LoopOk(a', l)} | 0 <= l < |a'.nodes| && IsLoopClass(a'.nodes[l].class_)
      ensures LoopOk(a', l)
    {
      assert LoopOk(st.a, l);
      forall t {:trigger RoomFor(a', t, a'.slotIndex[l])} |
          Converted(a', l) && 0 <= t < |a'.nodes| && a'.nodes[t].class_ != FunctionParam &&
            l in LoopsAround(a'.nodes, t)
        ensures RoomFor(a', t, a'.slotIndex[l])
      {
        var outer := if t < |st.a.nodes| then t else st.a.nodes[d].parent.value;
        PlaceKept(st.a.nodes, a'.nodes, outer);
        assert outer == t && Converted(st.a, l) && RoomFor(st.a, t, st.a.slotIndex[l]);
      }
    }
  }

  /** The loop scope becomes a variable scope with `n` slots. */
  function Rehome(a: Arena, l: ScopeId, n: nat): Arena
    requires a.Has(l)
  {
    a.(slotIndex := a.slotIndex[l := n], loopType := a.loopType[l := a.nodes[l].class_])
  }

  /** With at least as many slots as the function has handed out, a loop scope has room for all that moves into it. */
  lemma RehomingKeepsInv(st: State, l: ScopeId, n: nat)
    requires Inv(st) && st.a.Has(l) && IsLoopClass(st.a.nodes[l].class_)
    requires n > 0 && n >= st.a.slotIndex[FunctionOf(st.a.nodes, l)]
    ensures var st' := State(Rehome(st.a, l, n), st.g); Inv(st') && Later(st, st')
  {
    RehomingKeepsBindings(st, l, n);
    SlotsFrame(st, State(Rehome(st.a, l, n), st.g));
    forall s | 0 <= s < |st.a.nodes| && st.a.nodes[s].class_ != FunctionParam && l in LoopsAround(st.a.nodes, s)
      ensures RoomFor(st.a, s, n)
    {
      SlotsBelowCounter(st, s);
    }
    RehomingKeepsLoops(st, l, n);
  }

  lemma RehomingKeepsBindings(st: State, l: ScopeId, n: nat)
    requires ArenaOk(st.a) && BindingsOk(st) && st.a.Has(l)
    ensures var st' := State(Rehome(st.a, l, n), st.g); ArenaOk(st'.a) && BindingsOk(st')
  {
    var st' := State(Rehome(st.a, l, n), st.g);
    forall t {:trigger ScopeOk(st', t)} | 0 <= t < |st'.a.nodes|
      ensures ScopeOk(st', t)
    {
      assert ScopeOk(st, t);
    }
    forall t {:trigger t in st'.g.initOf} | t in st'.g.initOf
      ensures InitScopeOk(st', t)
    {
      assert InitScopeOk(st, t);
    }
  }

  lemma RehomingKeepsLoops(st: State, l: ScopeId, n: nat)
    requires ArenaOk(st.a) && LoopsOk(st.a) && st.a.Has(l) && IsLoopClass(st.a.nodes[l].class_) && n > 0
    requires ArenaOk(Rehome(st.a, l, n))
    requires forall s ::
      0 <= s < |st.a.nodes| && st.a.nodes[s].class_ != FunctionParam && l in LoopsAround(st.a.nodes, s) ==>
      RoomFor(st.a, s, n)
    ensures LoopsOk(Rehome(st.a, l, n))
  {
    var a' := Rehome(st.a, l, n);
    forall k {:trigger LoopOk(a', k)} | 0 <= k < |a'.nodes| && IsLoopClass(a'.nodes[k].class_)
      ensures LoopOk(a', k)
    {
      assert LoopOk(st.a, k);
      forall t {:trigger RoomFor(a', t, a'.slotIndex[k])} |
          Converted(a', k) && 0 <= t < |a'.nodes| && a'.nodes[t].class_ != FunctionParam &&
            k in LoopsAround(a'.nodes, t)
        ensures RoomFor(a', t, a'.slotIndex[k])
      {
        assert if k == l then RoomFor(st.a, t, n) else Converted(st.a, k) && RoomFor(st.a, t, st.a.slotIndex[k]);
      }
    }
  }

  /** Whatever is bound in a scope has its slot below the counter of the function. */
  lemma SlotsBelowCounter(st: State, s: ScopeId)
    requires Inv(st) && s < |st.a.nodes| && st.a.nodes[s].class_ != FunctionParam
    ensures RoomFor(st.a, s, st.a.slotIndex[FunctionOf(st.a.nodes, s)])
  {
    assert ScopeOk(st, s) && st.a.Has(FunctionOf(st.a.nodes, s));
    if s in st.g.initOf {
      assert InitScopeOk(st, s);
    }
    forall n {:trigger n in st.a.bindings[s]} | n in st.a.bindings[s] && st.a.vars[st.a.bindings[s][n]].Bound()
      ensures st.a.vars[st.a.bindings[s][n]].vreg < st.a.slotIndex[FunctionOf(st.a.nodes, s)]
    {
      assert HasSlot(st, st.a.bindings[s][n]);
    }
  }
}
