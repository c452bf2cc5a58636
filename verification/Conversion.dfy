/** How a for loop whose declarations closures captured becomes an environment for each iteration. */
module Conversion {
  import opened Scopes
  import opened Slots
  import opened References

  predicate LetOrConst(v: Variable) {
    v.decl.kind == Let || v.decl.kind == Const
  }

  /** The `let` and `const` variables of `s` that some closure captured. */
  ghost function CapturedNames(a: Arena, s: ScopeId): set<string>
    requires ArenaOk(a) && a.Has(s)
  {
    set n | n in a.bindings[s] && IsCaptured(a.vars[a.bindings[s][n]])
  }

  predicate IsCaptured(v: Variable) {
    v.Bound() && LetOrConst(v)
  }

  /** What an iteration sees of `v`: a variable with the same slot, initialised. */
  predicate IsIterationCopy(copy: Variable, v: Variable) {
    copy.kind == LocalVariable && copy.decl == v.decl && copy.vreg == v.vreg &&
      copy.flags >= {LexicalBound, Initialized, PerIteration}
  }

  /** The scopes of a for loop that has not been converted. */
  ghost predicate IsForLoop(st: State, d: ScopeId, body: ScopeId) {
    && ArenaOk(st.a) && st.a.Has(d) && st.a.Has(body)
    && st.a.nodes[d].class_ == LoopDecl && st.a.nodes[body].class_ == Loop && st.a.nodes[body].parent == Some(d)
    && d !in st.g.initOf && body !in st.g.initOf && PlainLoops(st.a, body)
  }

  // ---- One declaration.

  /** The arena with the loop head `d` as it was before the conversion began counting. */
  ghost function Parked(st: State, d: ScopeId): State
    requires st.a.Has(d)
  {
    State(st.a.(slotIndex := st.a.slotIndex[d := 0], loopType := st.a.loopType[d := Local]), st.g)
  }

  /** One round of the loop in LoopDeclarationScope::ConvertToVariableScope. */
  function CopyBinding(a: Arena, d: ScopeId, body: ScopeId, name: string, v: VariableId): Arena
    requires a.Has(d) && a.Has(body) && v < |a.vars|
  {
    var copy := a.vars[v].Copy().AddFlags({Initialized, PerIteration});
    var counted := a.(slotIndex := a.slotIndex[d := a.slotIndex[d] + 1], loopType := a.loopType[d := LoopDecl],
                      vars := a.vars[v := a.vars[v].AddFlags({LoopDeclared})]);
    AddVariable(counted, body, name, copy)
  }

  ghost function WithCopy(st: State, d: ScopeId, body: ScopeId, name: string, v: VariableId): State
    requires st.a.Has(d) && st.a.Has(body) && v < |st.a.vars|
  {
    State(CopyBinding(st.a, d, body, name, v),
          st.g.(home := st.g.home + [body], origin := st.g.origin[|st.a.vars| := Original(st.g, v)]))
  }

  lemma CopyBindingKeepsGood(st: State, seen: set<(ScopeId, string)>, d: ScopeId, body: ScopeId, name: string,
                             v: VariableId)
    requires st.a.Has(d) && st.a.Has(body) && Good(Parked(st, d), seen) && IsForLoop(Parked(st, d), d, body)
    requires name in st.a.bindings[d] && st.a.bindings[d][name] == v && IsCaptured(st.a.vars[v])
    ensures Good(Parked(WithCopy(st, d, body, name, v), d), seen)
    ensures Later(Parked(st, d), Parked(WithCopy(st, d, body, name, v), d))
  {
    var parked := Parked(st, d);
    var copy := st.a.vars[v].Copy().AddFlags({Initialized, PerIteration});
    FlagsKeepGood(parked, seen, v, {LoopDeclared});
    var flagged := WithFlags(parked, v, {LoopDeclared});
    CopyMayBeAdded(parked, d, body, name, v);
    CopyKeepsGood(flagged, seen, body, name, copy, v);
    LaterTransitive(parked, flagged, WithVariable(flagged, body, name, copy, Some(v)));
    var st' := WithCopy(st, d, body, name, v);
    assert Parked(st', d).a.slotIndex == parked.a.slotIndex && Parked(st', d).a.loopType == parked.a.loopType;
    assert Parked(st', d) == WithVariable(flagged, body, name, copy, Some(v));
  }

  lemma CopyMayBeAdded(st: State, d: ScopeId, body: ScopeId, name: string, v: VariableId)
    requires Inv(st) && IsForLoop(st, d, body)
    requires name in st.a.bindings[d] && st.a.bindings[d][name] == v && st.a.vars[v].Bound()
    requires Inv(WithFlags(st, v, {LoopDeclared}))
    ensures MayAdd(WithFlags(st, v, {LoopDeclared}), body, st.a.vars[v].Copy().AddFlags({Initialized, PerIteration}),
                   Some(v))
  {
    assert ScopeOk(st, d) && HasSlot(st, v);
    var a' := WithFlags(st, v, {LoopDeclared}).a;
    forall l {:trigger Converted(a', l)} | l in LoopsAround(a'.nodes, body)
      ensures !Converted(a', l)
    {
      assert !Converted(st.a, l);
    }
  }

  // ---- Flags that say nothing about slots.

  ghost function WithFlags(st: State, v: VariableId, flags: set<Flag>): State
    requires v < |st.a.vars|
  {
    State(st.a.(vars := st.a.vars[v := st.a.vars[v].AddFlags(flags)]), st.g)
  }

  lemma FlagsKeepGood(st: State, seen: set<(ScopeId, string)>, v: VariableId, flags: set<Flag>)
    requires Good(st, seen) && v < |st.a.vars| && LexicalBound !in flags
    ensures Good(WithFlags(st, v, flags), seen) && Later(st, WithFlags(st, v, flags))
  {
    var st' := WithFlags(st, v, flags);
    FlagsKeepBindings(st, v, flags);
    SlotsFrame(st, st');
    FlagsKeepLoops(st, v, flags);
    GoodKept(st, st', seen);
  }

  lemma FlagsKeepBindings(st: State, v: VariableId, flags: set<Flag>)
    requires ArenaOk(st.a) && BindingsOk(st) && v < |st.a.vars|
    ensures ArenaOk(WithFlags(st, v, flags).a) && BindingsOk(WithFlags(st, v, flags))
  {
    var st' := WithFlags(st, v, flags);
    forall t {:trigger ScopeOk(st', t)} | 0 <= t < |st'.a.nodes|
      ensures ScopeOk(st', t)
    {
      assert ScopeOk(st, t);
    }
    forall t {:trigger t in st'.g.initOf} | t in st'.g.initOf
      ensures InitScopeOk(st', t)
    {
      assert InitScopeOk(st, t);
    }
  }

  lemma FlagsKeepLoops(st: State, v: VariableId, flags: set<Flag>)
    requires Inv(st) && v < |st.a.vars| && LexicalBound !in flags && ArenaOk(WithFlags(st, v, flags).a)
    ensures LoopsOk(WithFlags(st, v, flags).a)
  {
    var a' := WithFlags(st, v, flags).a;
    forall l {:trigger LoopOk(a', l)} | 0 <= l < |a'.nodes| && IsLoopClass(a'.nodes[l].class_)
      ensures LoopOk(a', l)
    {
      assert LoopOk(st.a, l);
      forall t {:trigger RoomFor(a', t, a'.slotIndex[l])} |
          Converted(a', l) && 0 <= t < |a'.nodes| && a'.nodes[t].class_ != FunctionParam &&
            l in LoopsAround(a'.nodes, t)
        ensures RoomFor(a', t, a'.slotIndex[l])
      {
        assert Converted(st.a, l) && RoomFor(st.a, t, st.a.slotIndex[l]);
      }
    }
  }

  // ---- All declarations of the loop head.

  /** Between `a0` and `a`, the declarations `names` of `d` have been copied into `body`, where own bindings stay. */
  ghost predicate Copied(a0: Arena, a: Arena, d: ScopeId, body: ScopeId, names: set<string>)
    requires ArenaOk(a0) && a0.Has(d) && a0.Has(body) && d != body
  {
    && a.nodes == a0.nodes && Counted(a0, a, d, |names|)
    && OnlyFlagged(a0, a) && OnlyIn(a0, a, body)
    && (forall n {:trigger n in a.bindings[body]} :: n in a.bindings[body] <==> n in a0.bindings[body] || n in names)
    && (forall n {:trigger n in names} :: n in names ==>
          n in a0.bindings[d] && (n !in a0.bindings[body] ==> CopiedName(a0, a, d, body, n)))
  }

  ghost predicate Counted(a0: Arena, a: Arena, d: ScopeId, count: nat)
    requires a0.Has(d)
  {
    && a.slotIndex == a0.slotIndex[d := count]
    && a.loopType == a0.loopType[d := if count == 0 then Local else LoopDecl]
  }

  /** The variables of `a0` have at most been marked as copied. */
  ghost predicate OnlyFlagged(a0: Arena, a: Arena) {
    && |a0.vars| <= |a.vars|
    && (forall v {:trigger a.vars[v]} :: 0 <= v < |a0.vars| ==>
          a.vars[v] == a0.vars[v] || a.vars[v] == a0.vars[v].AddFlags({LoopDeclared}))
  }

  /** The bindings of `a0` are still there, and only `body` has new ones. */
  ghost predicate OnlyIn(a0: Arena, a: Arena, body: ScopeId)
    requires body < |a0.bindings|
  {
    && |a.bindings| == |a0.bindings|
    && (forall t {:trigger a.bindings[t]} :: 0 <= t < |a0.bindings| && t != body ==> a.bindings[t] == a0.bindings[t])
    && (forall n {:trigger n in a0.bindings[body]} :: n in a0.bindings[body] ==>
          n in a.bindings[body] && a.bindings[body][n] == a0.bindings[body][n])
  }

  ghost predicate CopiedName(a0: Arena, a: Arena, d: ScopeId, body: ScopeId, n: string)
    requires ArenaOk(a0) && a0.Has(d) && a0.Has(body)
  {
    && body < |a.bindings| && n in a.bindings[body] && n in a0.bindings[d]
    && |a0.vars| <= a.bindings[body][n] < |a.vars|
    && IsIterationCopy(a.vars[a.bindings[body][n]], a0.vars[a0.bindings[d][n]])
  }

  lemma CopiedExtends(a0: Arena, a: Arena, d: ScopeId, body: ScopeId, names: set<string>, name: string)
    requires ArenaOk(a0) && a0.Has(d) && a0.Has(body) && d != body && Copied(a0, a, d, body, names)
    requires name in a0.bindings[d] && name !in names && a0.vars[a0.bindings[d][name]].kind == LocalVariable
    requires a0.vars[a0.bindings[d][name]].Bound()
    ensures Copied(a0, CopyBinding(a, d, body, name, a0.bindings[d][name]), d, body, names + {name})
  {
    var v := a0.bindings[d][name];
    CopyFlagsOnly(a0, a, d, body, name, v);
    CopiedNamesKept(a0, a, d, body, names, name);
    assert |names + {name}| == |names| + 1;
  }

  lemma CopyFlagsOnly(a0: Arena, a: Arena, d: ScopeId, body: ScopeId, name: string, v: VariableId)
    requires OnlyFlagged(a0, a) && a.Has(d) && a.Has(body) && v < |a0.vars|
    ensures OnlyFlagged(a0, CopyBinding(a, d, body, name, v))
  {
    var a' := CopyBinding(a, d, body, name, v);
    forall u {:trigger a'.vars[u]} | 0 <= u < |a0.vars|
      ensures a'.vars[u] == a0.vars[u] || a'.vars[u] == a0.vars[u].AddFlags({LoopDeclared})
    {
      assert a.vars[u].AddFlags({LoopDeclared}).AddFlags({LoopDeclared}) == a.vars[u].AddFlags({LoopDeclared});
    }
  }

  lemma CopiedNamesKept(a0: Arena, a: Arena, d: ScopeId, body: ScopeId, names: set<string>, name: string)
    requires ArenaOk(a0) && a0.Has(d) && a0.Has(body) && d != body && Copied(a0, a, d, body, names)
    requires name in a0.bindings[d] && name !in names && a0.vars[a0.bindings[d][name]].kind == LocalVariable
    requires a0.vars[a0.bindings[d][name]].Bound()
    ensures var a' := CopyBinding(a, d, body, name, a0.bindings[d][name]);
      forall n {:trigger n in names} :: n in names + {name} && n !in a0.bindings[body] ==>
        CopiedName(a0, a', d, body, n)
  {
    var v := a0.bindings[d][name];
    var a' := CopyBinding(a, d, body, name, v);
    assert a'.vars[|a.vars|] == a.vars[v].Copy().AddFlags({Initialized, PerIteration});
    forall n {:trigger n in names} | n in names + {name} && n !in a0.bindings[body]
      ensures CopiedName(a0, a', d, body, n)
    {
      if n in names {
        assert CopiedName(a0, a, d, body, n);
        assert a'.vars[a.bindings[body][n]] == a.vars[a.bindings[body][n]];
      } else {
        assert n !in a.bindings[body];
      }
    }
  }

  /** A loop head with captured declarations becomes a variable scope, and gets a scope to evaluate its init in. */
  ghost function WithHead(st: State, d: ScopeId, n: nat): State
    requires st.a.Has(d)
  {
    State(Rehome(AddInitScope(st.a, d), d, n), WithInitScope(st, d).g)
  }

  lemma HeadKeepsGood(st: State, seen: set<(ScopeId, string)>, d: ScopeId, n: nat)
    requires Good(st, seen) && st.a.Has(d) && st.a.nodes[d].class_ == LoopDecl && d !in st.g.initOf
    requires PlainLoops(st.a, d)
    requires n > 0 && n >= st.a.slotIndex[FunctionOf(st.a.nodes, d)]
    ensures Good(WithHead(st, d, n), seen) && Later(st, WithHead(st, d, n))
  {
    InitScopeKeepsInv(st, d);
    var st1 := WithInitScope(st, d);
    PlaceKept(st.a.nodes, st1.a.nodes, d);
    RehomingKeepsInv(st1, d, n);
    LaterTransitive(st, st1, WithHead(st, d, n));
    GoodKept(st, WithHead(st, d, n), seen);
  }

  /** The loop over the bindings of `d` has copied `names`. */
  ghost predicate Copying(st0: State, st: State, d: ScopeId, body: ScopeId, names: set<string>)
    requires IsForLoop(st0, d, body)
  {
    && Copied(st0.a, st.a, d, body, names) && st.a.Has(d) && st.a.Has(body)
    && IsForLoop(Parked(st, d), d, body) && Later(st0, Parked(st, d)) && st.g.initOf == st0.g.initOf
    && (names == {} ==> st == st0)
  }

  /** Of the names bound in `d` that are not left `todo`, those captured are `names`. */
  ghost predicate CapturedSoFar(a: Arena, d: ScopeId, names: set<string>, todo: set<string>)
    requires ArenaOk(a) && a.Has(d)
  {
    && names !! todo && names <= a.bindings[d].Keys && todo <= a.bindings[d].Keys
    && forall n {:trigger n in names} :: n in a.bindings[d] && n !in todo ==>
         (n in names <==> IsCaptured(a.vars[a.bindings[d][n]]))
  }

  lemma PairIsPlain(st: State, d: ScopeId, body: ScopeId)
    requires IsForLoop(st, d, body)
    ensures PlainLoops(st.a, d) && !Converted(st.a, d) && !Converted(st.a, body)
    ensures FunctionOf(st.a.nodes, d) == FunctionOf(st.a.nodes, body)
  {
    assert d in LoopsAround(st.a.nodes, d) && body in LoopsAround(st.a.nodes, body);
    assert LoopsAround(st.a.nodes, d) <= LoopsAround(st.a.nodes, body);
  }

  lemma CopyingStarts(st: State, d: ScopeId, body: ScopeId)
    requires Inv(st) && IsForLoop(st, d, body)
    ensures Parked(st, d) == st && Copying(st, st, d, body, {})
  {
    PairIsPlain(st, d, body);
    assert LoopOk(st.a, d);
    LaterReflexive(st);
  }

  lemma CopyingCopies(st0: State, st: State, seen: set<(ScopeId, string)>, d: ScopeId, body: ScopeId,
                      names: set<string>, name: string)
    requires Inv(st0) && IsForLoop(st0, d, body) && Copying(st0, st, d, body, names) && name !in names
    requires name in st0.a.bindings[d]
    requires IsCaptured(st.a.vars[st0.a.bindings[d][name]]) && Good(Parked(st, d), seen)
    ensures var st' := WithCopy(st, d, body, name, st0.a.bindings[d][name]);
      Copying(st0, st', d, body, names + {name}) && Good(Parked(st', d), seen)
  {
    var v := st0.a.bindings[d][name];
    var st' := WithCopy(st, d, body, name, v);
    CopyBindingKeepsGood(st, seen, d, body, name, v);
    LaterTransitive(st0, Parked(st, d), Parked(st', d));
    CopiedMore(st0, st, d, body, names, name);
    PlainLoopsKept(Parked(st, d).a, Parked(st', d).a, body);
  }

  lemma CopiedMore(st0: State, st: State, d: ScopeId, body: ScopeId, names: set<string>, name: string)
    requires Inv(st0) && IsForLoop(st0, d, body) && Copying(st0, st, d, body, names) && name !in names
    requires name in st0.a.bindings[d]
    requires IsCaptured(st.a.vars[st0.a.bindings[d][name]])
    ensures Copied(st0.a, CopyBinding(st.a, d, body, name, st0.a.bindings[d][name]), d, body, names + {name})
  {
    assert HasSlot(st0, st0.a.bindings[d][name]);
    CopiedExtends(st0.a, st.a, d, body, names, name);
  }

  /** What the loop over the bindings of `d` keeps. */
  ghost predicate CopyLoop(st0: State, st: State, seen: set<(ScopeId, string)>, d: ScopeId, body: ScopeId,
                           names: set<string>,
                           todo: set<string>)
    requires IsForLoop(st0, d, body)
  {
    Copying(st0, st, d, body, names) && Good(Parked(st, d), seen) && CapturedSoFar(st0.a, d, names, todo)
  }

  lemma CopyLoopReads(st0: State, st: State, d: ScopeId, body: ScopeId, names: set<string>, name: string)
    requires Inv(st0) && IsForLoop(st0, d, body) && Copying(st0, st, d, body, names) && name in st0.a.bindings[d]
    ensures name in st.a.bindings[d] && st.a.bindings[d][name] == st0.a.bindings[d][name] < |st.a.vars|
    ensures IsCaptured(st.a.vars[st0.a.bindings[d][name]]) == IsCaptured(st0.a.vars[st0.a.bindings[d][name]])
  {
    var v := st0.a.bindings[d][name];
    assert st.a.vars[v] == st0.a.vars[v] || st.a.vars[v] == st0.a.vars[v].AddFlags({LoopDeclared});
  }

  /** One round, for a declaration that was captured or not. */
  lemma CopyLoopStep(st0: State, st: State, seen: set<(ScopeId, string)>, d: ScopeId, body: ScopeId, names: set<string>,
                     todo: set<string>, name: string)
    requires Inv(st0) && IsForLoop(st0, d, body) && CopyLoop(st0, st, seen, d, body, names, todo) && name in todo
    ensures name in st0.a.bindings[d] && st0.a.bindings[d][name] < |st.a.vars|
    ensures var v := st0.a.bindings[d][name];
      if IsCaptured(st.a.vars[v]) then
        CopyLoop(st0, WithCopy(st, d, body, name, v), seen, d, body, names + {name}, todo - {name})
      else
        CopyLoop(st0, st, seen, d, body, names, todo - {name})
  {
    CopyLoopReads(st0, st, d, body, names, name);
    if IsCaptured(st.a.vars[st0.a.bindings[d][name]]) {
      CopyingCopies(st0, st, seen, d, body, names, name);
    }
    NamesStep(st0.a, d, names, todo, name);
  }

  lemma NamesStep(a: Arena, d: ScopeId, names: set<string>, todo: set<string>, name: string)
    requires ArenaOk(a) && a.Has(d) && CapturedSoFar(a, d, names, todo) && name in todo
    ensures var names' := if IsCaptured(a.vars[a.bindings[d][name]]) then names + {name} else names;
      CapturedSoFar(a, d, names', todo - {name})
  {
  }

  lemma PlainLoopsKept(a: Arena, a': Arena, s: ScopeId)
    requires ArenaOk(a) && ArenaOk(a') && a.nodes == a'.nodes && a.loopType == a'.loopType && s < |a.nodes|
    requires PlainLoops(a, s)
    ensures PlainLoops(a', s)
  {
    forall l {:trigger Converted(a', l)} | l in LoopsAround(a'.nodes, s)
      ensures !Converted(a', l)
    {
      assert !Converted(a, l);
    }
  }

  /** The loop of LoopDeclarationScope::ConvertToVariableScope: copy what closures captured into the body scope. */
  method CopyCaptured(a0: Arena, ghost g0: Ledger, ghost seen: set<(ScopeId, string)>, d: ScopeId, body: ScopeId)
    returns (a: Arena, ghost g: Ledger)
    requires Good(State(a0, g0), seen) && IsForLoop(State(a0, g0), d, body)
    ensures CopyLoop(State(a0, g0), State(a, g), seen, d, body, CapturedNames(a0, d), {})
  {
    a, g := a0, g0;
    ghost var names: set<string> := {};
    var todo := a.bindings[d].Keys;
    CopyingStarts(State(a0, g0), d, body);
    while todo != {}
      invariant CopyLoop(State(a0, g0), State(a, g), seen, d, body, names, todo)
    {
      var name :| name in todo;
      CopyLoopStep(State(a0, g0), State(a, g), seen, d, body, names, todo, name);
      CopyLoopReads(State(a0, g0), State(a, g), d, body, names, name);
      var v := a.bindings[d][name];
      if a.vars[v].Bound() && LetOrConst(a.vars[v]) {
        g := WithCopy(State(a, g), d, body, name, v).g;
        a := CopyBinding(a, d, body, name, v);
        names := names + {name};
      }
      todo := todo - {name};
    }
    assert names == CapturedNames(a0, d);
  }

  function Max(m: nat, n: nat): nat {
    if m < n then n else m
  }

  /** The counter of the function that a loop head lies in. */
  ghost function Counter(a: Arena, s: ScopeId): nat
    requires ArenaOk(a) && s < |a.nodes|
  {
    a.slotIndex[FunctionOf(a.nodes, s)]
  }

  /** What LoopDeclarationScope::ConvertToVariableScope makes of `a0`, by way of `copied`. */
  ghost predicate HeadConverted(a0: Arena, copied: Arena, a: Arena, d: ScopeId, body: ScopeId)
    requires ArenaOk(a0) && a0.Has(d) && a0.Has(body) && d != body
  {
    var names := CapturedNames(a0, d);
    && Copied(a0, copied, d, body, names)
    && if names == {} then
         a == a0 == copied
       else
         copied.Has(d) && a == Rehome(AddInitScope(copied, d), d, Max(|names|, Counter(a0, d)))
  }

  /** The enclosing variable scope of the loop head is the function, whose counter has not moved. */
  lemma HeadLiesInFunction(st0: State, st: State, d: ScopeId, body: ScopeId, names: set<string>)
    requires IsForLoop(st0, d, body) && Copying(st0, st, d, body, names) && ArenaOk(st.a)
    ensures st.a.nodes[d].parent.Some?
    ensures FirstVariableScope(st.a, Chain(st.a.nodes, st.a.nodes[d].parent.value)) == Some(FunctionOf(st0.a.nodes, d))
    ensures st.a.Has(FunctionOf(st0.a.nodes, d)) && st.a.slotIndex[FunctionOf(st0.a.nodes, d)] == Counter(st0.a, d)
  {
    var p := st.a.nodes[d].parent.value;
    PairIsPlain(st0, d, body);
    forall l {:trigger Converted(st.a, l)} | l in LoopsAround(st.a.nodes, p)
      ensures !Converted(st.a, l)
    {
      assert !Converted(st0.a, l);
    }
    PlainLoopsSkipped(st.a, p);
  }

  /** The counting done, `d` gets its slots and its init scope. */
  lemma HeadStepKeepsGood(st0: State, st: State, seen: set<(ScopeId, string)>, d: ScopeId, body: ScopeId,
                          names: set<string>, n: nat)
    requires Inv(st0) && IsForLoop(st0, d, body) && Copying(st0, st, d, body, names) && Good(Parked(st, d), seen)
    requires n > 0 && n >= Counter(st0.a, d)
    ensures var st' := State(Rehome(AddInitScope(st.a, d), d, n), WithInitScope(st, d).g);
      Good(st', seen) && Later(st0, st')
  {
    var parked := Parked(st, d);
    PairIsPlain(parked, d, body);
    HeadKeepsGood(parked, seen, d, n);
    LaterTransitive(st0, parked, WithHead(parked, d, n));
    var a' := Rehome(AddInitScope(st.a, d), d, n);
    assert WithHead(parked, d, n).a.slotIndex == a'.slotIndex;
    assert WithHead(parked, d, n).a.loopType == a'.loopType;
    assert WithHead(parked, d, n).a == a';
  }

  method ConvertDecl(a0: Arena, ghost g0: Ledger, ghost seen: set<(ScopeId, string)>, d: ScopeId, body: ScopeId)
    returns (a: Arena, ghost g: Ledger, init: Option<ScopeId>, ghost copied: Arena)
    requires Good(State(a0, g0), seen) && IsForLoop(State(a0, g0), d, body)
    ensures init == if CapturedNames(a0, d) == {} then None else Some(|a0.nodes|)
    ensures HeadConverted(a0, copied, a, d, body)
    ensures Good(State(a, g), seen) && Later(State(a0, g0), State(a, g))
  {
    hide Inv, Later, Resolved;
    ghost var st0 := State(a0, g0);
    CopyingStarts(st0, d, body);
    a, g, init, copied := a0, g0, None, a0;
    if !a.NeedLexEnv(d) {
      a, g := CopyCaptured(a0, g0, seen, d, body);
      copied := a;
      if a.loopType[d] == LoopDecl {
        ghost var names := CapturedNames(a0, d);
        HeadLiesInFunction(st0, State(a, g), d, body, names);
        var varScope := EnclosingVariableScope(a, a.nodes[d].parent.value);
        var slots := Max(a.slotIndex[d], a.slotIndex[varScope.value]);
        HeadStepKeepsGood(st0, State(a, g), seen, d, body, names, slots);
        g := WithInitScope(State(a, g), d).g;
        init := Some(|a.nodes|);
        a := Rehome(AddInitScope(a, d), d, slots);
      }
    }
  }

  // ---- The body scope.

  /** A `let` of `s` that some closure captured. */
  ghost predicate HasCapturedLet(a: Arena, s: ScopeId)
    requires ArenaOk(a) && a.Has(s)
  {
    exists n {:trigger n in a.bindings[s]} :: n in a.bindings[s] && IsCapturedLet(a.vars[a.bindings[s][n]])
  }

  predicate IsCapturedLet(v: Variable) {
    v.Bound() && v.decl.kind == Let
  }

  /** The search of LoopScope::ConvertToVariableScope, which stops at the first hit. */
  method FindCapturedLet(a: Arena, s: ScopeId) returns (found: bool)
    requires ArenaOk(a) && a.Has(s)
    ensures found == HasCapturedLet(a, s)
  {
    var todo := a.bindings[s].Keys;
    while todo != {}
      invariant todo <= a.bindings[s].Keys
      invariant forall n {:trigger n in a.bindings[s]} :: n in a.bindings[s] && n !in todo ==>
        !IsCapturedLet(a.vars[a.bindings[s][n]])
    {
      var name :| name in todo;
      if IsCapturedLet(a.vars[a.bindings[s][name]]) {
        return true;
      }
      todo := todo - {name};
    }
    return false;
  }

  /**
   * The body scope after its declaration scope: with a captured `let` of its own or a copied one, it has as many slots.
   */
  ghost predicate BodyConverted(a1: Arena, a: Arena, d: ScopeId, body: ScopeId)
    requires ArenaOk(a1) && a1.Has(d) && a1.Has(body)
  {
    a == if HasCapturedLet(a1, body) then Rehome(a1, body, a1.slotIndex[d]) else a1
  }

  /**
   * LoopScope::ConvertToVariableScope.  `ok` is whether its assertion holds: it fails exactly for a body
   * scope with a captured `let` of its own below a head without captured declarations.
   */
  method ConvertLoop(a0: Arena, ghost g0: Ledger, ghost seen: set<(ScopeId, string)>, d: ScopeId, body: ScopeId)
    returns (ok: bool, a: Arena, ghost g: Ledger, init: Option<ScopeId>, ghost copied: Arena, ghost a1: Arena)
    requires Good(State(a0, g0), seen) && IsForLoop(State(a0, g0), d, body)
    ensures ok <==> (HasCapturedLet(a0, body) ==> CapturedNames(a0, d) != {})
    ensures HeadConverted(a0, copied, a1, d, body) && ArenaOk(a1) && a1.Has(d) && a1.Has(body)
    ensures init == if CapturedNames(a0, d) == {} then None else Some(|a0.nodes|)
    ensures ok ==> BodyConverted(a1, a, d, body)
    ensures ok ==> Good(State(a, g), seen) && Later(State(a0, g0), State(a, g))
  {
    ok := true;
    a, g, init, copied := ConvertDecl(a0, g0, seen, d, body);
    a1 := a;
    ConvertedHeadReads(State(a0, g0), copied, State(a, g), d, body);
    if a.loopType[body] == Local {
      var found := FindCapturedLet(a, body);
      if found {
        if !a.NeedLexEnv(d) {
          ok := false;
          return;
        }
        var slots := Max(a.slotIndex[body], a.slotIndex[d]);
        RehomingKeepsInv(State(a, g), body, slots);
        GoodKept(State(a, g), State(Rehome(a, body, slots), g), seen);
        LaterTransitive(State(a0, g0), State(a, g), State(Rehome(a, body, slots), g));
        a := Rehome(a, body, slots);
      }
    }
  }

  /**
   * After the head: its slots cover the function's, the body still has none, and captured `let`s are its own or copies.
   */
  lemma ConvertedHeadReads(st0: State, copied: Arena, st: State, d: ScopeId, body: ScopeId)
    requires Inv(st0) && IsForLoop(st0, d, body) && HeadConverted(st0.a, copied, st.a, d, body) && Inv(st)
    requires Later(st0, st)
    ensures st.a.Has(d) && st.a.Has(body) && st.a.nodes[body] == st0.a.nodes[body]
    ensures st.a.loopType[body] == Local && st.a.slotIndex[body] == 0
    ensures st.a.NeedLexEnv(d) <==> CapturedNames(st0.a, d) != {}
    ensures st.a.NeedLexEnv(d) ==> st.a.slotIndex[d] >= st.a.slotIndex[FunctionOf(st.a.nodes, body)]
    ensures !st.a.NeedLexEnv(d) ==> (HasCapturedLet(st.a, body) <==> HasCapturedLet(st0.a, body))
  {
    PairIsPlain(st0, d, body);
    PlaceKept(st0.a.nodes, st.a.nodes, body);
    assert LoopOk(st0.a, d) && LoopOk(st0.a, body);
    assert st0.a.Has(FunctionOf(st0.a.nodes, d));
  }
}
