/** Declarations while parsing: hoisting of `var`, and the clashes that are refused, over whole runs. */
module Redeclaration {
  import opened Scopes
  import opened Slots

  /** The scopes made so far, what was declared in each, and the scope the parser is in. */
  datatype DeclState = DeclState(a: Arena, decls: seq<seq<Decl>>, scope: ScopeId)

  /** The scope that introduced a variable, and the names hoisted out of a block whose variables were not marked. */
  datatype DeclLedger = DeclLedger(home: seq<ScopeId>, stale: set<(ScopeId, string)>)

  // ---- Names.

  /** Functions count as lexical declarations in blocks only. */
  predicate IsLexical(class_: ScopeType, d: Decl) {
    d.kind == Let || d.kind == Const || (d.kind == Func && !IsFunctionType(class_))
  }

  function LexicalNames(class_: ScopeType, ds: seq<Decl>): set<string> {
    set d | d in ds && IsLexical(class_, d) :: d.name
  }

  function VarNames(ds: seq<Decl>): set<string> {
    set d | d in ds && d.kind == Var :: d.name
  }

  function ParamNames(ds: seq<Decl>): set<string> {
    set d | d in ds && d.kind == Param :: d.name
  }

  lemma NamesAppend(class_: ScopeType, ds: seq<Decl>, d: Decl)
    ensures LexicalNames(class_, ds + [d]) == LexicalNames(class_, ds) + if IsLexical(class_, d) then {d.name} else {}
    ensures VarNames(ds + [d]) == VarNames(ds) + if d.kind == Var then {d.name} else {}
    ensures ParamNames(ds + [d]) == ParamNames(ds) + if d.kind == Param then {d.name} else {}
  {
    assert forall e {:trigger e in ds + [d]} :: e in ds + [d] <==> e in ds || e == d;
    assert d in ds + [d];
    forall e | e in ds
      ensures IsLexical(class_, e) ==> e.name in LexicalNames(class_, ds + [d])
      ensures e.kind == Var ==> e.name in VarNames(ds + [d])
      ensures e.kind == Param ==> e.name in ParamNames(ds + [d])
    {
      assert e in ds + [d];
    }
  }

  /** No name is declared twice as a lexical declaration. */
  ghost predicate UniqueLexical(class_: ScopeType, ds: seq<Decl>) {
    forall i, j :: 0 <= i < j < |ds| && IsLexical(class_, ds[i]) && IsLexical(class_, ds[j]) ==>
      ds[i].name != ds[j].name
  }

  // ---- The soundness that the flags are there for.

  ghost predicate Shape(st: DeclState) {
    ArenaOk(st.a) && |st.decls| == |st.a.nodes| && st.scope < |st.a.nodes|
  }

  /** `b` is `s` or encloses it within the same function. */
  ghost predicate Encloses(nodes: seq<ScopeNode>, b: ScopeId, s: ScopeId)
    requires TreeOk(nodes) && s < |nodes|
    decreases s
  {
    b == s || (!IsFunctionType(nodes[s].class_) && Encloses(nodes, b, nodes[s].parent.value))
  }

  /** No two lexical declarations of a block clash, and none clashes with a `var` at or below the block. */
  ghost predicate Sound(st: DeclState, g: DeclLedger)
    requires Shape(st)
  {
    && (forall s {:trigger st.decls[s]} :: 0 <= s < |st.decls| ==> UniqueLexical(st.a.nodes[s].class_, st.decls[s]))
    && (forall b, s {:trigger Encloses(st.a.nodes, b, s)} ::
          0 <= b < |st.decls| && 0 <= s < |st.decls| && Encloses(st.a.nodes, b, s) ==>
          NoClash(st, g, b, s))
  }

  ghost predicate NoClash(st: DeclState, g: DeclLedger, b: ScopeId, s: ScopeId)
    requires Shape(st) && b < |st.decls| && s < |st.decls|
  {
    forall x {:trigger x in VarNames(st.decls[s])} ::
      x in LexicalNames(st.a.nodes[b].class_, st.decls[b]) && x in VarNames(st.decls[s]) ==> (s, x) in g.stale
  }

  /** Neither a parameter of the function nor that of the `catch` clause is declared again as a lexical declaration. */
  ghost predicate ParamsSound(st: DeclState)
    requires Shape(st) && CatchesOk(st.a.nodes)
  {
    && (forall s {:trigger st.decls[s]} :: 0 <= s < |st.decls| && IsFunctionType(st.a.nodes[s].class_) ==>
          ParamNames(st.decls[s]) !! LexicalNames(st.a.nodes[s].class_, st.decls[s]))
    && (forall s {:trigger st.decls[s]} :: 0 <= s < |st.decls| && st.a.nodes[s].class_ == Catch ==>
          ParamNames(st.decls[st.a.nodes[s].parent.value]) !! LexicalNames(Catch, st.decls[s]))
  }

  // ---- The invariant.

  predicate LikeVar(v: Variable) {
    VarLike in v.flags
  }

  predicate Marked(v: Variable) {
    LexicalVar in v.flags
  }

  /** What `n` is bound to in `s`. */
  ghost function Value(a: Arena, s: ScopeId, n: string): Option<Variable>
    requires ArenaOk(a) && s < |a.nodes|
  {
    if n in a.bindings[s] then Some(a.vars[a.bindings[s][n]]) else None
  }

  /** No two bindings share a variable. */
  ghost predicate Unshared(a: Arena, home: seq<ScopeId>)
    requires ArenaOk(a)
  {
    && |home| == |a.vars|
    && forall s, n {:trigger n in a.bindings[s]} :: 0 <= s < |a.nodes| && n in a.bindings[s] ==>
         home[a.bindings[s][n]] == s && a.vars[a.bindings[s][n]].decl.name == n
  }

  /** Bindings are those of the declarations made, hoisted ones aside. */
  ghost predicate BindingsFit(st: DeclState)
    requires Shape(st)
  {
    forall s {:trigger ScopeFits(st, s)} :: 0 <= s < |st.a.nodes| ==> ScopeFits(st, s)
  }

  ghost predicate ScopeFits(st: DeclState, s: ScopeId)
    requires Shape(st) && s < |st.a.nodes|
  {
    && (forall n {:trigger Value(st.a, s, n)} :: Value(st.a, s, n).Some? ==>
          BindingFits(st.a.nodes[s].class_, Value(st.a, s, n).value))
    && (forall x {:trigger x in LexicalNames(st.a.nodes[s].class_, st.decls[s])} ::
          x in LexicalNames(st.a.nodes[s].class_, st.decls[s]) ==>
            Value(st.a, s, x).Some? && !LikeVar(Value(st.a, s, x).value))
    && (forall x {:trigger x in ParamNames(st.decls[s])} :: x in ParamNames(st.decls[s]) ==> Value(st.a, s, x).Some?)
  }

  /** Function scopes hold `let`, `const` and what behaves like `var`; blocks hold nothing of the latter. */
  predicate BindingFits(class_: ScopeType, v: Variable) {
    if IsFunctionType(class_) then
      LikeVar(v) <==> v.decl.kind != Let && v.decl.kind != Const
    else
      !LikeVar(v) && !Marked(v)
  }

  /** Every `var` is bound in its function. */
  ghost predicate VarsHoisted(st: DeclState)
    requires Shape(st)
  {
    forall s {:trigger VarsIn(st, s)} :: 0 <= s < |st.decls| ==> VarsIn(st, s)
  }

  ghost predicate VarsIn(st: DeclState, s: ScopeId)
    requires Shape(st) && s < |st.decls|
  {
    var f := FunctionOf(st.a.nodes, s);
    forall x {:trigger x in VarNames(st.decls[s])} :: x in VarNames(st.decls[s]) ==>
      Value(st.a, f, x).Some? && LikeVar(Value(st.a, f, x).value)
  }

  /** While a block is open, the variables hoisted out of it are marked. */
  ghost predicate OpenMarked(st: DeclState, g: DeclLedger)
    requires Shape(st)
  {
    forall b, s {:trigger Encloses(st.a.nodes, b, s)} ::
      (&& 0 <= b < |st.decls| && 0 <= s < |st.decls| && b in Chain(st.a.nodes, st.scope)
       && !IsFunctionType(st.a.nodes[b].class_) && Encloses(st.a.nodes, b, s)) ==>
      MarkedFrom(st, g, s)
  }

  ghost predicate MarkedFrom(st: DeclState, g: DeclLedger, s: ScopeId)
    requires Shape(st) && s < |st.decls|
  {
    var f := FunctionOf(st.a.nodes, s);
    forall x {:trigger x in VarNames(st.decls[s])} :: x in VarNames(st.decls[s]) ==>
      (Value(st.a, f, x).Some? && Marked(Value(st.a, f, x).value)) || (s, x) in g.stale
  }

  /** A `catch` clause is a pair of scopes. */
  ghost predicate CatchesOk(nodes: seq<ScopeNode>)
    requires TreeOk(nodes)
  {
    forall s {:trigger nodes[s]} :: 0 <= s < |nodes| && nodes[s].class_ == Catch ==>
      nodes[s].parent.Some? && nodes[s].paramScope == nodes[s].parent &&
        nodes[nodes[s].parent.value].class_ == CatchParam
  }

  /** The function of a script's top is the only one where marks can be missing. */
  ghost predicate StaleAtTop(nodes: seq<ScopeNode>, g: DeclLedger)
    requires TreeOk(nodes)
  {
    forall r {:trigger r in g.stale} :: r in g.stale ==> r.0 < |nodes| && nodes[FunctionOf(nodes, r.0)].class_ == Global
  }

  ghost predicate DeclInv(st: DeclState, g: DeclLedger) {
    && Shape(st) && CatchesOk(st.a.nodes) && Unshared(st.a, g.home)
    && Sound(st, g) && ParamsSound(st) && BindingsFit(st) && VarsHoisted(st) && OpenMarked(st, g)
    && StaleAtTop(st.a.nodes, g)
  }

  // ---- Shadowing.

  /**
   * The first scope from `s` outwards, up to the function scope, that binds `name` to a variable that `visitor`
   * accepts.
   */
  ghost function Shadow(a: Arena, s: ScopeId, name: string, visitor: Variable -> bool): (r: Option<ScopeId>)
    requires ArenaOk(a) && s < |a.nodes|
    decreases s
  {
    if name in a.bindings[s] && visitor(a.vars[a.bindings[s][name]]) then Some(s)
    else if IsFunctionType(a.nodes[s].class_) then None
    else Shadow(a, a.nodes[s].parent.value, name, visitor)
  }

  method IterateShadowedVariables(a: Arena, s: ScopeId, name: string, visitor: Variable -> bool)
    returns (scope: ScopeId, shadowed: bool)
    requires ArenaOk(a) && s < |a.nodes|
    ensures shadowed <==> Shadow(a, s, name, visitor).Some?
    ensures scope == if shadowed then Shadow(a, s, name, visitor).value else FunctionOf(a.nodes, s)
  {
    var iter: ScopeId := s;
    while true
      invariant iter < |a.nodes|
      invariant Shadow(a, s, name, visitor) == Shadow(a, iter, name, visitor)
      invariant FunctionOf(a.nodes, s) == FunctionOf(a.nodes, iter)
      decreases iter
    {
      if name in a.bindings[iter] && visitor(a.vars[a.bindings[iter][name]]) {
        return iter, true;
      }
      if IsFunctionType(a.nodes[iter].class_) {
        break;
      }
      iter := a.nodes[iter].parent.value;
    }
    return iter, false;
  }

  lemma {:induction false} ShadowSees(a: Arena, s: ScopeId, t: ScopeId, name: string, visitor: Variable -> bool)
    requires ArenaOk(a) && s < |a.nodes| && t < |a.nodes| && Encloses(a.nodes, t, s)
    requires Value(a, t, name).Some? && visitor(Value(a, t, name).value)
    ensures Shadow(a, s, name, visitor).Some?
    decreases s
  {
    if t != s {
      ShadowSees(a, a.nodes[s].parent.value, t, name, visitor);
    }
  }

  lemma {:induction false} EnclosedIsSame(nodes: seq<ScopeNode>, b: ScopeId, s: ScopeId)
    requires TreeOk(nodes) && s < |nodes| && Encloses(nodes, b, s)
    ensures b <= s && FunctionOf(nodes, b) == FunctionOf(nodes, s)
    decreases s
  {
    if b != s {
      EnclosedIsSame(nodes, b, nodes[s].parent.value);
    }
  }

  lemma {:induction false} FunctionEncloses(nodes: seq<ScopeNode>, s: ScopeId)
    requires TreeOk(nodes) && s < |nodes|
    ensures Encloses(nodes, FunctionOf(nodes, s), s)
    decreases s
  {
    if !IsFunctionType(nodes[s].class_) {
      FunctionEncloses(nodes, nodes[s].parent.value);
    }
  }

  // ---- One declaration.

  /** The state after `d` has been declared in the current scope, with the arena `a`. */
  ghost function After(st: DeclState, a: Arena, d: Decl): DeclState
    requires Shape(st)
  {
    DeclState(a, st.decls[st.scope := st.decls[st.scope] + [d]], st.scope)
  }

  /** At most the binding of `name` in `t` differs. */
  ghost predicate OnlyChanges(a: Arena, a': Arena, t: ScopeId, name: string) {
    && ArenaOk(a) && ArenaOk(a') && a'.nodes == a.nodes && t < |a.nodes|
    && forall s, n {:trigger Value(a', s, n)} :: 0 <= s < |a.nodes| && (s != t || n != name) ==>
         Value(a', s, n) == Value(a, s, n)
  }

  /** `d` has become what `t` binds its name to, or left there what already does the same service. */
  ghost predicate Declares(st: DeclState, g: DeclLedger, a: Arena, d: Decl, t: ScopeId)
    requires Shape(st)
  {
    && OnlyChanges(st.a, a, t, d.name)
    && var was, now := Value(st.a, t, d.name), Value(a, t, d.name);
       && now.Some? && BindingFits(a.nodes[t].class_, now.value)
       && (was.Some? ==> (LikeVar(was.value) <==> LikeVar(now.value)))
       && (d.kind == Var ==> LikeVar(now.value) && t == FunctionOf(a.nodes, st.scope))
       && (d.kind != Var ==> t == st.scope)
       && (IsLexical(a.nodes[t].class_, d) ==> !LikeVar(now.value) && was.None?)
       && (IsFunctionType(a.nodes[t].class_) ==> t == st.scope || Marked(now.value) || (st.scope, d.name) in g.stale)
       && (t != st.scope && was.Some? && Marked(was.value) ==> Marked(now.value))
  }

  /** `d` clashes with nothing declared so far. */
  ghost predicate Fits(st: DeclState, g: DeclLedger, d: Decl)
    requires Shape(st) && CatchesOk(st.a.nodes)
  {
    var cur := st.scope;
    && (IsLexical(st.a.nodes[cur].class_, d) ==>
          && d.name !in LexicalNames(st.a.nodes[cur].class_, st.decls[cur])
          && (forall s {:trigger Encloses(st.a.nodes, cur, s)} ::
                0 <= s < |st.decls| && Encloses(st.a.nodes, cur, s) ==>
                d.name !in VarNames(st.decls[s]) || (s, d.name) in g.stale)
          && (IsFunctionType(st.a.nodes[cur].class_) ==> d.name !in ParamNames(st.decls[cur]))
          && (st.a.nodes[cur].class_ == Catch ==> d.name !in ParamNames(st.decls[st.a.nodes[cur].parent.value])))
    && (d.kind == Var ==>
          forall b {:trigger Encloses(st.a.nodes, b, cur)} :: 0 <= b < |st.decls| && Encloses(st.a.nodes, b, cur) ==>
            d.name !in LexicalNames(st.a.nodes[b].class_, st.decls[b]))
    && (d.kind == Param ==> d.name !in LexicalNames(st.a.nodes[cur].class_, st.decls[cur]) && NothingInside(st))
  }

  /** No scope lies in the current one. */
  ghost predicate NothingInside(st: DeclState)
    requires Shape(st)
  {
    forall s {:trigger st.a.nodes[s]} :: 0 <= s < |st.a.nodes| ==> st.a.nodes[s].parent != Some(st.scope)
  }

  /**
   * What the parser sees to: parameters come first in a function, and alone in the parameter scope of a `catch` clause.
   */
  ghost predicate MayDeclare(st: DeclState, d: Decl)
    requires Shape(st)
  {
    && st.a.nodes[st.scope].class_ != FunctionParam
    && (st.a.nodes[st.scope].class_ == CatchParam ==> d.kind == Param)
    && (d.kind == Param ==> st.a.nodes[st.scope].class_ in {CatchParam, Function} && NothingInside(st))
  }

  ghost predicate Grows(g: DeclLedger, g': DeclLedger) {
    g.stale <= g'.stale
  }

  lemma StepKeepsSound(st: DeclState, g: DeclLedger, g': DeclLedger, a: Arena, d: Decl)
    requires Shape(st) && CatchesOk(st.a.nodes) && Sound(st, g) && ArenaOk(a) && a.nodes == st.a.nodes && Grows(g, g')
    requires Fits(st, g, d)
    ensures Sound(After(st, a, d), g')
  {
    var st' := After(st, a, d);
    var cur := st.scope;
    NamesAppend(a.nodes[cur].class_, st.decls[cur], d);
    forall s {:trigger st'.decls[s]} | 0 <= s < |st'.decls|
      ensures UniqueLexical(a.nodes[s].class_, st'.decls[s])
    {
      assert UniqueLexical(a.nodes[s].class_, st.decls[s]);
    }
    forall b, s {:trigger Encloses(a.nodes, b, s)} | 0 <= b < |st'.decls| && 0 <= s < |st'.decls| &&
      Encloses(a.nodes, b, s)
      ensures NoClash(st', g', b, s)
    {
      assert NoClash(st, g, b, s);
    }
  }

  lemma StepKeepsParamsSound(st: DeclState, g: DeclLedger, a: Arena, d: Decl)
    requires Shape(st) && CatchesOk(st.a.nodes) && ParamsSound(st) && ArenaOk(a) && a.nodes == st.a.nodes
    requires Fits(st, g, d)
    ensures ParamsSound(After(st, a, d))
  {
    var st' := After(st, a, d);
    NamesAppend(a.nodes[st.scope].class_, st.decls[st.scope], d);
    forall s {:trigger st'.decls[s]} | 0 <= s < |st'.decls| && a.nodes[s].class_ == Catch
      ensures ParamNames(st'.decls[a.nodes[s].parent.value]) !! LexicalNames(Catch, st'.decls[s])
    {
      assert ParamNames(st.decls[a.nodes[s].parent.value]) !! LexicalNames(Catch, st.decls[s]);
    }
    forall s {:trigger st'.decls[s]} | 0 <= s < |st'.decls| && IsFunctionType(a.nodes[s].class_)
      ensures ParamNames(st'.decls[s]) !! LexicalNames(a.nodes[s].class_, st'.decls[s])
    {
      assert ParamNames(st.decls[s]) !! LexicalNames(a.nodes[s].class_, st.decls[s]);
    }
  }

  lemma StepKeepsBindings(st: DeclState, g': DeclLedger, a: Arena, d: Decl, t: ScopeId)
    requires Shape(st) && BindingsFit(st) && Declares(st, g', a, d, t)
    ensures BindingsFit(After(st, a, d))
  {
    var st' := After(st, a, d);
    NamesAppend(a.nodes[st.scope].class_, st.decls[st.scope], d);
    forall s {:trigger ScopeFits(st', s)} | 0 <= s < |a.nodes|
      ensures ScopeFits(st', s)
    {
      assert ScopeFits(st, s);
    }
  }

  lemma StepKeepsHoisted(st: DeclState, g': DeclLedger, a: Arena, d: Decl, t: ScopeId)
    requires Shape(st) && VarsHoisted(st) && Declares(st, g', a, d, t)
    ensures VarsHoisted(After(st, a, d))
  {
    var st' := After(st, a, d);
    NamesAppend(a.nodes[st.scope].class_, st.decls[st.scope], d);
    forall s {:trigger VarsIn(st', s)} | 0 <= s < |st'.decls|
      ensures VarsIn(st', s)
    {
      assert VarsIn(st, s);
    }
  }

  lemma StepKeepsMarks(st: DeclState, g: DeclLedger, g': DeclLedger, a: Arena, d: Decl, t: ScopeId)
    requires Shape(st) && OpenMarked(st, g) && Grows(g, g') && Declares(st, g', a, d, t)
    ensures OpenMarked(After(st, a, d), g')
  {
    var st' := After(st, a, d);
    NamesAppend(a.nodes[st.scope].class_, st.decls[st.scope], d);
    forall b, s {:trigger Encloses(a.nodes, b, s)} |
        && 0 <= b < |st'.decls| && 0 <= s < |st'.decls| && b in Chain(a.nodes, st'.scope)
        && !IsFunctionType(a.nodes[b].class_) && Encloses(a.nodes, b, s)
      ensures MarkedFrom(st', g', s)
    {
      assert MarkedFrom(st, g, s);
      EnclosedIsSame(a.nodes, b, s);
    }
  }

  lemma StepKeepsInv(st: DeclState, g: DeclLedger, g': DeclLedger, a: Arena, d: Decl, t: ScopeId)
    requires DeclInv(st, g) && MayDeclare(st, d) && Fits(st, g, d) && Declares(st, g', a, d, t) && Grows(g, g')
    requires Unshared(a, g'.home)
    requires StaleAtTop(a.nodes, g')
    ensures DeclInv(After(st, a, d), g')
  {
    StepKeepsSound(st, g, g', a, d);
    StepKeepsParamsSound(st, g, a, d);
    StepKeepsBindings(st, g', a, d, t);
    StepKeepsHoisted(st, g', a, d, t);
    StepKeepsMarks(st, g, g', a, d, t);
  }

  // ---- Changing one variable.

  function Reset(a: Arena, v: VariableId, d: Decl, flags: set<Flag>): Arena
    requires v < |a.vars|
  {
    a.(vars := a.vars[v := a.vars[v].(decl := d, flags := flags)])
  }

  lemma ResetChanges(a: Arena, home: seq<ScopeId>, t: ScopeId, d: Decl, flags: set<Flag>)
    requires ArenaOk(a) && Unshared(a, home) && t < |a.nodes| && d.name in a.bindings[t]
    ensures var a' := Reset(a, a.bindings[t][d.name], d, flags);
      && OnlyChanges(a, a', t, d.name) && Unshared(a', home)
      && Value(a', t, d.name) == Some(a.vars[a.bindings[t][d.name]].(decl := d, flags := flags))
  {
    var v := a.bindings[t][d.name];
    var a' := Reset(a, v, d, flags);
    forall s, n {:trigger Value(a', s, n)} | 0 <= s < |a.nodes| && (s != t || n != d.name)
      ensures Value(a', s, n) == Value(a, s, n)
    {
      assert n in a.bindings[s] ==> home[a.bindings[s][n]] == s && a.vars[a.bindings[s][n]].decl.name == n;
    }
  }

  lemma InsertChanges(a: Arena, home: seq<ScopeId>, t: ScopeId, x: Variable)
    requires ArenaOk(a) && Unshared(a, home) && t < |a.nodes| && |a.nodes| == |a.slotIndex|
    ensures var a' := AddVariable(a, t, x.decl.name, x);
      && OnlyChanges(a, a', t, x.decl.name) && Unshared(a', home + [t])
      && Value(a', t, x.decl.name) == if x.decl.name in a.bindings[t] then Value(a, t, x.decl.name) else Some(x)
  {
    var a' := AddVariable(a, t, x.decl.name, x);
    assert a'.vars[|a.vars|] == x;
    assert forall v {:trigger a'.vars[v]} :: 0 <= v < |a.vars| ==> a'.vars[v] == a.vars[v];
  }

  // ---- What a declaration does.

  /** AddVar, AddFunction and AddLexical of a function scope. */
  ghost function DeclareInFunction(a: Arena, f: ScopeId, d: Decl): Option<Arena>
    requires ArenaOk(a) && f < |a.nodes|
  {
    var kind := if a.nodes[f].class_ == Global then GlobalVariable else LocalVariable;
    var was := Value(a, f, d.name);
    match d.kind
    case Var =>
      if was.None? then Some(AddVariable(a, f, d.name, Variable(kind, d, HOIST_VAR, 0)))
      else if was.value.decl.kind == Var then Some(Reset(a, a.bindings[f][d.name], d, HOIST_VAR))
      else if was.value.decl.kind == Param || was.value.decl.kind == Func then Some(a)
      else None
    case Func =>
      if was.None? then Some(AddVariable(a, f, d.name, Variable(kind, d, HOIST_VAR, 0)))
      else if a.nodes[f].class_ == Module then None
      else if was.value.decl.kind == Var || was.value.decl.kind == Func
        then Some(Reset(a, a.bindings[f][d.name], d, HOIST_VAR))
      else None
    case _ =>
      if was.None? then Some(AddVariable(a, f, d.name, NewLocal(d, if d.kind == Param then {VarLike} else {})))
        else None
  }

  /** AddLocal, with the hoisting of `var`. */
  ghost function DeclareInBlock(a: Arena, s: ScopeId, d: Decl): Option<Arena>
    requires ArenaOk(a) && s < |a.nodes|
  {
    var f := FunctionOf(a.nodes, s);
    if d.kind == Var then
      if Shadow(a, s, d.name, v => !LikeVar(v)).Some? then None
      else if a.nodes[f].class_ == Global
        then Some(AddVariable(a, f, d.name, Variable(GlobalVariable, d, HOIST_VAR + {LexicalVar}, 0)))
      else if d.name !in a.bindings[f] then Some(AddVariable(a, f, d.name, NewLocal(d, HOIST_VAR + {LexicalVar})))
      else Some(Reset(a, a.bindings[f][d.name], d, HOIST_VAR + {LexicalVar}))
    else
      if d.name in a.bindings[s] || Shadow(a, s, d.name, v => Marked(v)).Some? then None
      else Some(AddVariable(a, s, d.name, NewLocal(d, if d.kind == Func then {Hoist} else {})))
  }

  ghost function DeclareIn(a: Arena, s: ScopeId, d: Decl): Option<Arena>
    requires ArenaOk(a) && CatchesOk(a.nodes) && s < |a.nodes|
  {
    if IsFunctionType(a.nodes[s].class_) then DeclareInFunction(a, s, d)
    else if a.nodes[s].class_ == CatchParam then
      if d.name in a.bindings[s] then None else Some(AddVariable(a, s, d.name, NewLocal(d, {Initialized})))
    else if a.nodes[s].class_ == Catch && d.kind != Var && d.name in a.bindings[a.nodes[s].parent.value] then None
    else DeclareInBlock(a, s, d)
  }

  /** The ledger notes the new variable, if there is one, and a hoisted name that an old global variable answers for. */
  ghost function Noted(st: DeclState, g: DeclLedger, d: Decl, a: Arena): DeclLedger
    requires Shape(st) && ArenaOk(a) && a.nodes == st.a.nodes
  {
    var f := FunctionOf(st.a.nodes, st.scope);
    g.(home := if |a.vars| == |st.a.vars| then g.home else g.home + [if d.kind == Var then f else st.scope],
       stale := if d.kind == Var && f != st.scope && Value(a, f, d.name).Some? && !Marked(Value(a, f, d.name).value)
                then g.stale + {(st.scope, d.name)} else g.stale)
  }

  lemma FunctionDeclares(st: DeclState, g: DeclLedger, d: Decl)
    requires DeclInv(st, g) && MayDeclare(st, d) && IsFunctionType(st.a.nodes[st.scope].class_)
    requires DeclareInFunction(st.a, st.scope, d).Some?
    ensures var a := DeclareInFunction(st.a, st.scope, d).value;
      ArenaOk(a) && a.nodes == st.a.nodes && var g' := Noted(st, g, d, a);
      && Declares(st, g', a, d, st.scope)
      && Unshared(a, g'.home)
  {
    var f, a := st.scope, DeclareInFunction(st.a, st.scope, d).value;
    assert ScopeFits(st, f);
    var was := Value(st.a, f, d.name);
    if was.None? {
      var kind := if st.a.nodes[f].class_ == Global then GlobalVariable else LocalVariable;
      InsertChanges(st.a, g.home, f, if d.kind == Var || d.kind == Func then Variable(kind, d, HOIST_VAR, 0)
                                     else NewLocal(d, if d.kind == Param then {VarLike} else {}));
    } else if a != st.a {
      ResetChanges(st.a, g.home, f, d, HOIST_VAR);
    }
  }

  lemma FunctionFits(st: DeclState, g: DeclLedger, d: Decl)
    requires DeclInv(st, g) && MayDeclare(st, d) && IsFunctionType(st.a.nodes[st.scope].class_)
    requires DeclareInFunction(st.a, st.scope, d).Some?
    ensures Fits(st, g, d)
  {
    var f := st.scope;
    assert ScopeFits(st, f);
    forall s {:trigger Encloses(st.a.nodes, f, s)} | 0 <= s < |st.decls| && Encloses(st.a.nodes, f, s)
      ensures IsLexical(st.a.nodes[f].class_, d) ==> d.name !in VarNames(st.decls[s])
    {
      EnclosedIsSame(st.a.nodes, f, s);
      assert VarsIn(st, s);
    }
  }

  lemma BlockVarDeclares(st: DeclState, g: DeclLedger, d: Decl)
    requires DeclInv(st, g) && MayDeclare(st, d) && !IsFunctionType(st.a.nodes[st.scope].class_) && d.kind == Var
    requires DeclareInBlock(st.a, st.scope, d).Some?
    ensures var a, f := DeclareInBlock(st.a, st.scope, d).value, FunctionOf(st.a.nodes, st.scope);
      ArenaOk(a) && a.nodes == st.a.nodes && var g' := Noted(st, g, d, a);
      && Declares(st, g', a, d, f)
      && Unshared(a, g'.home)
  {
    var f, flags := FunctionOf(st.a.nodes, st.scope), HOIST_VAR + {LexicalVar};
    FunctionEncloses(st.a.nodes, st.scope);
    assert ScopeFits(st, f);
    if Value(st.a, f, d.name).Some? && !LikeVar(Value(st.a, f, d.name).value) {
      ShadowSees(st.a, st.scope, f, d.name, v => !LikeVar(v));
    }
    if st.a.nodes[f].class_ == Global {
      InsertChanges(st.a, g.home, f, Variable(GlobalVariable, d, flags, 0));
    } else if d.name !in st.a.bindings[f] {
      InsertChanges(st.a, g.home, f, NewLocal(d, flags));
    } else {
      ResetChanges(st.a, g.home, f, d, flags);
    }
  }

  lemma BlockVarFits(st: DeclState, g: DeclLedger, d: Decl)
    requires DeclInv(st, g) && MayDeclare(st, d) && !IsFunctionType(st.a.nodes[st.scope].class_) && d.kind == Var
    requires DeclareInBlock(st.a, st.scope, d).Some?
    requires st.a.nodes[st.scope].class_ != CatchParam
    ensures Fits(st, g, d)
  {
    forall b {:trigger Encloses(st.a.nodes, b, st.scope)} | 0 <= b < |st.decls| && Encloses(st.a.nodes, b, st.scope)
      ensures d.name !in LexicalNames(st.a.nodes[b].class_, st.decls[b])
    {
      assert ScopeFits(st, b);
      if d.name in LexicalNames(st.a.nodes[b].class_, st.decls[b]) {
        ShadowSees(st.a, st.scope, b, d.name, v => !LikeVar(v));
      }
    }
  }

  lemma BlockLexicalDeclares(st: DeclState, g: DeclLedger, d: Decl)
    requires DeclInv(st, g) && MayDeclare(st, d) && !IsFunctionType(st.a.nodes[st.scope].class_) && d.kind != Var
    requires DeclareIn(st.a, st.scope, d).Some?
    ensures var a := DeclareIn(st.a, st.scope, d).value;
      ArenaOk(a) && a.nodes == st.a.nodes && var g' := Noted(st, g, d, a);
      && Declares(st, g', a, d, st.scope)
      && Unshared(a, g'.home)
  {
    var flags: set<Flag> :=
      if st.a.nodes[st.scope].class_ == CatchParam then {Initialized} else if d.kind == Func then {Hoist} else {};
    InsertChanges(st.a, g.home, st.scope, NewLocal(d, flags));
  }

  lemma BlockLexicalFits(st: DeclState, g: DeclLedger, d: Decl)
    requires DeclInv(st, g) && MayDeclare(st, d) && !IsFunctionType(st.a.nodes[st.scope].class_) && d.kind != Var
    requires DeclareIn(st.a, st.scope, d).Some?
    ensures Fits(st, g, d)
  {
    var cur := st.scope;
    assert cur in Chain(st.a.nodes, cur);
    assert ScopeFits(st, cur);
    if IsLexical(st.a.nodes[cur].class_, d) {
      forall s {:trigger Encloses(st.a.nodes, cur, s)} | 0 <= s < |st.decls| && Encloses(st.a.nodes, cur, s)
        ensures d.name !in VarNames(st.decls[s]) || (s, d.name) in g.stale
      {
        var f := FunctionOf(st.a.nodes, cur);
        EnclosedIsSame(st.a.nodes, cur, s);
        FunctionEncloses(st.a.nodes, cur);
        assert MarkedFrom(st, g, s);
        if Value(st.a, f, d.name).Some? && Marked(Value(st.a, f, d.name).value) {
          ShadowSees(st.a, cur, f, d.name, v => Marked(v));
        }
      }
      if st.a.nodes[cur].class_ == Catch {
        CatchParamsDiffer(st, g, d);
      }
    }
  }

  lemma CatchParamsDiffer(st: DeclState, g: DeclLedger, d: Decl)
    requires DeclInv(st, g) && st.a.nodes[st.scope].class_ == Catch
    requires d.name !in st.a.bindings[st.a.nodes[st.scope].parent.value]
    ensures d.name !in ParamNames(st.decls[st.a.nodes[st.scope].parent.value])
  {
    assert ScopeFits(st, st.a.nodes[st.scope].parent.value);
  }

  /** An accepted declaration keeps everything in order. */
  lemma AcceptedKeepsInv(st: DeclState, g: DeclLedger, d: Decl)
    requires DeclInv(st, g) && MayDeclare(st, d) && DeclareIn(st.a, st.scope, d).Some?
    ensures var a := DeclareIn(st.a, st.scope, d).value;
      ArenaOk(a) && a.nodes == st.a.nodes && DeclInv(After(st, a, d), Noted(st, g, d, a))
  {
    var a := DeclareIn(st.a, st.scope, d).value;
    var t := if d.kind == Var then FunctionOf(st.a.nodes, st.scope) else st.scope;
    if IsFunctionType(st.a.nodes[st.scope].class_) {
      FunctionDeclares(st, g, d);
      FunctionFits(st, g, d);
    } else if d.kind == Var {
      BlockVarDeclares(st, g, d);
      BlockVarFits(st, g, d);
    } else {
      BlockLexicalDeclares(st, g, d);
      BlockLexicalFits(st, g, d);
    }
    StepKeepsInv(st, g, Noted(st, g, d, a), a, d, t);
  }

  // ---- Entering and leaving scopes.

  /** A new scope in the current one, which is then the current scope. */
  function EnterScope(st: DeclState, class_: ScopeType): DeclState {
    var node := ScopeNode(class_, Some(st.scope), Plain, None, if class_ == Catch then Some(st.scope) else None, None);
    DeclState(st.a.(nodes := st.a.nodes + [node], bindings := st.a.bindings + [map[]],
                    slotIndex := st.a.slotIndex + [0], loopType := st.a.loopType + [Local]),
              st.decls + [[]], |st.a.nodes|)
  }

  ghost predicate MayEnter(st: DeclState, class_: ScopeType)
    requires Shape(st)
  {
    && class_ in {Local, Loop, LoopDecl, CatchParam, Catch, Function}
    && (class_ == Catch ==> st.a.nodes[st.scope].class_ == CatchParam)
  }

  function ExitScope(st: DeclState): DeclState
    requires st.scope < |st.a.nodes| && st.a.nodes[st.scope].parent.Some?
  {
    st.(scope := st.a.nodes[st.scope].parent.value)
  }

  lemma {:induction false} EnclosesKept(nodes: seq<ScopeNode>, nodes': seq<ScopeNode>, b: ScopeId, s: ScopeId)
    requires TreeOk(nodes) && TreeOk(nodes') && nodes <= nodes' && s < |nodes|
    ensures Encloses(nodes', b, s) == Encloses(nodes, b, s)
    ensures Chain(nodes', s) == Chain(nodes, s)
    decreases s
  {
    assert nodes'[s] == nodes[s];
    if nodes[s].parent.Some? {
      EnclosesKept(nodes, nodes', b, nodes[s].parent.value);
    }
  }

  /** `st'` has one more scope than `st`, with nothing declared in it. */
  ghost predicate OneMore(st: DeclState, st': DeclState) {
    && Shape(st) && Shape(st') && |st'.a.nodes| == |st.a.nodes| + 1 && st.a.nodes <= st'.a.nodes &&
         st'.scope == |st.a.nodes|
    && st'.a.nodes[st'.scope].parent == Some(st.scope) && st'.decls == st.decls + [[]]
    && (forall s, n {:trigger Value(st'.a, s, n)} :: 0 <= s < |st.a.nodes| ==> Value(st'.a, s, n) == Value(st.a, s, n))
    && (forall n {:trigger Value(st'.a, st'.scope, n)} :: Value(st'.a, st'.scope, n).None?)
  }

  lemma NoNames()
    ensures VarNames([]) == {} && ParamNames([]) == {} && forall c :: LexicalNames(c, []) == {}
  {
  }

  lemma EnterKeepsInv(st: DeclState, g: DeclLedger, class_: ScopeType)
    requires DeclInv(st, g) && MayEnter(st, class_)
    ensures DeclInv(EnterScope(st, class_), g)
  {
    var st' := EnterScope(st, class_);
    assert OneMore(st, st') && CatchesOk(st'.a.nodes);
    EnterKeepsSound(st, g, st');
    EnterKeepsBindings(st, st');
    EnterKeepsMarks(st, g, st');
    EnterKeepsStale(st, g, st');
  }

  lemma EnterKeepsStale(st: DeclState, g: DeclLedger, st': DeclState)
    requires OneMore(st, st') && StaleAtTop(st.a.nodes, g)
    ensures StaleAtTop(st'.a.nodes, g)
  {
    forall r {:trigger r in g.stale} | r in g.stale
      ensures r.0 < |st'.a.nodes| && st'.a.nodes[FunctionOf(st'.a.nodes, r.0)].class_ == Global
    {
      PlaceKept(st.a.nodes, st'.a.nodes, r.0);
    }
  }

  lemma EnterKeepsSound(st: DeclState, g: DeclLedger, st': DeclState)
    requires OneMore(st, st') && Sound(st, g) && VarsHoisted(st)
    ensures Sound(st', g) && VarsHoisted(st')
  {
    NoNames();
    var n := |st.a.nodes|;
    forall b, s {:trigger Encloses(st'.a.nodes, b, s)} | 0 <= b < |st'.decls| && 0 <= s < |st'.decls| &&
      Encloses(st'.a.nodes, b, s)
      ensures NoClash(st', g, b, s)
    {
      if s < n {
        EnclosesKept(st.a.nodes, st'.a.nodes, b, s);
        EnclosedIsSame(st.a.nodes, b, s);
        PlaceKept(st.a.nodes, st'.a.nodes, b);
        assert NoClash(st, g, b, s);
      }
    }
    forall s {:trigger st'.decls[s]} | 0 <= s < |st'.decls|
      ensures UniqueLexical(st'.a.nodes[s].class_, st'.decls[s])
    {
      assert s < n ==> st'.decls[s] == st.decls[s] && UniqueLexical(st.a.nodes[s].class_, st.decls[s]);
    }
    forall s {:trigger VarsIn(st', s)} | 0 <= s < |st'.decls|
      ensures VarsIn(st', s)
    {
      if s < n {
        PlaceKept(st.a.nodes, st'.a.nodes, s);
        assert VarsIn(st, s);
      }
    }
  }

  lemma EnterKeepsBindings(st: DeclState, st': DeclState)
    requires OneMore(st, st') && BindingsFit(st)
    ensures BindingsFit(st')
  {
    NoNames();
    forall s {:trigger ScopeFits(st', s)} | 0 <= s < |st'.a.nodes|
      ensures ScopeFits(st', s)
    {
      if s < |st.a.nodes| {
        assert ScopeFits(st, s);
      }
    }
  }

  lemma EnterKeepsMarks(st: DeclState, g: DeclLedger, st': DeclState)
    requires OneMore(st, st') && OpenMarked(st, g)
    ensures OpenMarked(st', g)
  {
    NoNames();
    var n := |st.a.nodes|;
    assert Chain(st'.a.nodes, n) == [n] + Chain(st'.a.nodes, st.scope);
    EnclosesKept(st.a.nodes, st'.a.nodes, 0, st.scope);
    forall b, s {:trigger Encloses(st'.a.nodes, b, s)} |
        && 0 <= b < |st'.decls| && 0 <= s < |st'.decls| && b in Chain(st'.a.nodes, st'.scope)
        && !IsFunctionType(st'.a.nodes[b].class_) && Encloses(st'.a.nodes, b, s)
      ensures MarkedFrom(st', g, s)
    {
      if s < n {
        EnclosesKept(st.a.nodes, st'.a.nodes, b, s);
        EnclosedIsSame(st.a.nodes, b, s);
        PlaceKept(st.a.nodes, st'.a.nodes, s);
        assert MarkedFrom(st, g, s);
      }
    }
  }

  lemma ExitKeepsInv(st: DeclState, g: DeclLedger)
    requires DeclInv(st, g) && st.a.nodes[st.scope].parent.Some?
    ensures DeclInv(ExitScope(st), g)
  {
    var st' := ExitScope(st);
    assert Chain(st.a.nodes, st.scope) == [st.scope] + Chain(st.a.nodes, st'.scope);
    forall s {:trigger VarsIn(st', s)} | 0 <= s < |st'.decls|
      ensures VarsIn(st', s)
    {
      assert VarsIn(st, s);
    }
    forall s {:trigger ScopeFits(st', s)} | 0 <= s < |st'.a.nodes|
      ensures ScopeFits(st', s)
    {
      assert ScopeFits(st, s);
    }
    forall b, s {:trigger Encloses(st.a.nodes, b, s)} | 0 <= b < |st.decls| && 0 <= s < |st.decls| &&
      Encloses(st.a.nodes, b, s)
      ensures NoClash(st', g, b, s) && (MarkedFrom(st, g, s) ==> MarkedFrom(st', g, s))
    {
      assert NoClash(st, g, b, s);
    }
  }
}
