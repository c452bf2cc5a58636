/** Identifier analysis: the second phase of the binder. */
module Analysis {
  import opened Scopes
  import opened Slots
  import opened SyntaxTree
  import opened References
  import opened Conversion
  import opened ArgumentsObject
  import opened Captures
  import opened Tracking
  import opened Progress
  import opened MandatoryParams

  /** `tree` is what the parser made; conversions only add init scopes. */
  ghost predicate Grown(tree: seq<ScopeNode>, st: State) {
    && tree <= st.a.nodes && ParamScopesOk(st.a.nodes)
    && (forall s {:trigger st.a.nodes[s]} :: |tree| <= s < |st.a.nodes| ==> st.a.nodes[s].class_ == Local)
    && (forall s {:trigger s in st.g.initOf} :: s in st.g.initOf ==> |tree| <= s < |st.a.nodes|)
  }

  lemma StaysGrown(tree: seq<ScopeNode>, st: State, st': State, ls: set<ScopeId>)
    requires Grown(tree, st) && Advanced(st, st', ls) && Inv(st')
    ensures Grown(tree, st')
  {
    forall s {:trigger st'.a.nodes[s]} | |tree| <= s < |st'.a.nodes|
      ensures st'.a.nodes[s].class_ == Local
    {
      assert s < |st.a.nodes| ==> st'.a.nodes[s] == st.a.nodes[s];
    }
    forall s {:trigger s in st'.g.initOf} | s in st'.g.initOf
      ensures |tree| <= s < |st'.a.nodes|
    {
      assert InitScopeOk(st', s);
    }
  }

  method DeclareArgumentsFor(ghost parsed: Arena, a0: Arena, ghost g0: Ledger, ghost seen: Refs, s: ScopeId)
    returns (a: Arena, ghost g: Ledger, user: Option<ScopeId>)
    requires Good(State(a0, g0), seen) && Grown(parsed.nodes, State(a0, g0)) && Tracks(parsed, a0, seen)
    requires s < |parsed.nodes| && Open(a0, s)
    ensures Good(State(a, g), seen) && Grown(parsed.nodes, State(a, g)) && Tracks(parsed, a, seen)
    ensures Advanced(State(a0, g0), State(a, g), {})
    ensures s < |a.nodes| && Open(a, s) && ArgumentsDeclared(a, s)
    ensures user.Some? ==> user.value < |parsed.nodes| && parsed.nodes[user.value].kind != Arrow
    ensures Instantiated(parsed, a0, a, s, user)
  {
    hide Inv, Resolved, Tracks, Advanced, Open, Grown, ArgumentsScope, WithArguments, Later, Instantiated;
    GrownMeans(parsed.nodes, State(a0, g0), s);
    TracksOk(parsed, a0, seen);
    a, g, user := InstantiateArguments(a0, g0, seen, s);
    DeclaredArguments(parsed, State(a0, g0), State(a, g), seen, s);
    ArgumentsInstantiated(parsed, State(a0, g0), State(a, g), s, user);
    StaysGrown(parsed.nodes, State(a0, g0), State(a, g), {});
  }

  lemma TracksOk(parsed: Arena, a: Arena, seen: Refs)
    requires Tracks(parsed, a, seen)
    ensures ArenaOk(parsed)
  {
  }

  lemma GrownMeans(tree: seq<ScopeNode>, st: State, s: ScopeId)
    requires Grown(tree, st) && Inv(st) && s < |tree|
    ensures s < |st.a.nodes| && TreeOk(st.a.nodes) && ParamScopesOk(st.a.nodes)
    ensures var t := ArgumentsScope(st.a.nodes, s);
      t.Some? ==> var f := FunctionScopeOf(st.a.nodes, t.value); f < |tree| && tree[f].kind != Arrow
    ensures forall i {:trigger i in st.g.initOf} :: i in st.g.initOf ==> st.a.Has(i) && st.a.nodes[i].class_ == Local
  {
  }

  method ResolveName(ghost parsed: Arena, a0: Arena, ghost g0: Ledger, ghost seen: Refs, s: ScopeId, name: string)
    returns (res: FindResult, a: Arena, ghost g: Ledger)
    requires Good(State(a0, g0), seen) && Grown(parsed.nodes, State(a0, g0)) && Tracks(parsed, a0, seen)
    requires s < |parsed.nodes| && Open(a0, s) && name !in MANDATORY_NAMES
    requires name == FUNCTION_ARGUMENTS ==> ArgumentsDeclared(a0, s)
    ensures res == FindIn(a0, Chain(a0.nodes, s), name) && State(a, g) == LookedUp(State(a0, g0), s, name)
    ensures Good(State(a, g), seen + {(s, name)}) && Grown(parsed.nodes, State(a, g))
    ensures Tracks(parsed, a, seen + {(s, name)})
    ensures Advanced(State(a0, g0), State(a, g), {}) && a.bindings == a0.bindings
  {
    OpenHolderIsPlain(a0, s, name);
    res, a, g := LookupReference(a0, g0, seen, s, name);
    assert Resolved(State(a, g), s, name);
    LookupTracks(parsed, State(a0, g0), seen, s, name);
    LookupAdvances(State(a0, g0), State(a, g));
    StaysGrown(parsed.nodes, State(a0, g0), State(a, g), {});
  }

  /** `st'` has the `arguments` of `s`, and `st` had it already or not. */
  ghost predicate HasDeclared(st: State, st': State, s: ScopeId) {
    && Inv(st) && ParamScopesOk(st.a.nodes) && s < |st.a.nodes| && Inv(st') && Later(st, st')
    && st'.a.nodes == st.a.nodes && st'.a.loopType == st.a.loopType
    && match ArgumentsScope(st.a.nodes, s)
       case None => st' == st
       case Some(t) =>
         var f := FunctionScopeOf(st.a.nodes, t);
         st.a.Has(t) && st.a.Has(f) && st' == WithArguments(st, t, f) && FUNCTION_ARGUMENTS in st'.a.bindings[t]
  }

  lemma DeclaredArguments(parsed: Arena, st: State, st': State, seen: Refs, s: ScopeId)
    requires Tracks(parsed, st.a, seen) && s < |parsed.nodes| && HasDeclared(st, st', s) && Open(st.a, s)
    ensures Tracks(parsed, st'.a, seen) && Advanced(st, st', {}) && Open(st'.a, s) && ArgumentsDeclared(st'.a, s)
  {
    OpenKept(st.a, st'.a, s);
    DeclaredTracks(parsed, st, st', seen, s);
    DeclaredAdvances(st, st', s);
  }

  lemma ArgumentsInstantiated(parsed: Arena, st: State, st': State, s: ScopeId, user: Option<ScopeId>)
    requires ArenaOk(parsed) && Grown(parsed.nodes, st) && s < |parsed.nodes| && HasDeclared(st, st', s)
    requires match ArgumentsScope(st.a.nodes, s)
      case None => user == None
      case Some(t) =>
        var f := FunctionScopeOf(st.a.nodes, t);
        user == if f == t || FUNCTION_ARGUMENTS !in st.a.bindings[t] then Some(f) else None
    ensures Instantiated(parsed, st.a, st'.a, s, user)
  {
    hide Inv, Later;
    InvIsOk(st);
    ArgumentsScopeKept(parsed.nodes, st.a.nodes, s);
    var t := ArgumentsScope(parsed.nodes, s);
    if t.Some? {
      assert st.a.nodes[t.value] == parsed.nodes[t.value];
    }
  }

  lemma DeclaredTracks(parsed: Arena, st: State, st': State, seen: Refs, s: ScopeId)
    requires Tracks(parsed, st.a, seen) && HasDeclared(st, st', s)
    ensures Tracks(parsed, st'.a, seen)
  {
    hide Tracks, Later, WithArguments, Inv;
    InvIsOk(st);
    InvIsOk(st');
    var t := ArgumentsScope(st.a.nodes, s);
    if t.Some? {
      FunctionHasArguments(st.a.nodes, t.value);
      ArgumentsTrack(parsed, st, seen, t.value, FunctionScopeOf(st.a.nodes, t.value));
    }
  }

  lemma FunctionHasArguments(nodes: seq<ScopeNode>, t: ScopeId)
    requires TreeOk(nodes) && ParamScopesOk(nodes) && t < |nodes| && HasArguments(nodes[t])
    ensures var f := FunctionScopeOf(nodes, t); f < |nodes| && HasArguments(nodes[f])
  {
  }

  lemma DeclaredAdvances(st: State, st': State, s: ScopeId)
    requires HasDeclared(st, st', s)
    ensures Advanced(st, st', {})
  {
    hide Later, Advanced, Inv;
    InvIsOk(st);
    InvIsOk(st');
    var t := ArgumentsScope(st.a.nodes, s);
    if t.Some? {
      FunctionHasArguments(st.a.nodes, t.value);
      PlainStepAdvances(st, st', t.value, FunctionScopeOf(st.a.nodes, t.value));
    } else {
      AdvancedReflexive(st, {});
    }
  }

  lemma LookupAdvances(st: State, st': State)
    requires ArenaOk(st.a) && ArenaOk(st'.a) && Later(st, st')
    requires st'.a.nodes == st.a.nodes && st'.a.loopType == st.a.loopType && st'.a.bindings == st.a.bindings
    ensures Advanced(st, st', {})
  {
  }

  /** A reference in the syntax tree; `user` is a function to be marked as using `arguments`. */
  method LookupIdentReference(ghost parsed: Arena, a0: Arena, ghost g0: Ledger, ghost seen: Refs, s: ScopeId,
                              name: string)
    returns (res: FindResult, a: Arena, ghost g: Ledger, user: Option<ScopeId>)
    requires Good(State(a0, g0), seen) && Grown(parsed.nodes, State(a0, g0)) && Tracks(parsed, a0, seen)
    requires s < |parsed.nodes| && Open(a0, s) && name !in MANDATORY_NAMES
    ensures Good(State(a, g), seen + {(s, name)}) && Grown(parsed.nodes, State(a, g))
    ensures Tracks(parsed, a, seen + {(s, name)})
    ensures Advanced(State(a0, g0), State(a, g), {})
    ensures name != FUNCTION_ARGUMENTS ==>
      res == FindIn(a0, Chain(a0.nodes, s), name) && State(a, g) == LookedUp(State(a0, g0), s, name)
    ensures UserFound(parsed, a0, a, s, name, user)
    ensures user.Some? ==> user.value < |parsed.nodes| && parsed.nodes[user.value].kind != Arrow
  {
    hide Good, Tracks, Grown, Advanced, Open, ArgumentsDeclared, Instantiated;
    if name == FUNCTION_ARGUMENTS {
      a, g, user := DeclareArgumentsFor(parsed, a0, g0, seen, s);
      ghost var st1 := State(a, g);
      res, a, g := ResolveName(parsed, a, g, seen, s, name);
      AdvancedTransitive(State(a0, g0), st1, State(a, g), {}, {}, {});
      SameBindingsInstantiated(parsed, a0, st1.a, a, s, user);
    } else {
      user := None;
      res, a, g := ResolveName(parsed, a0, g0, seen, s, name);
    }
  }

  lemma SameBindingsInstantiated(parsed: Arena, a0: Arena, a1: Arena, a: Arena, s: ScopeId, user: Option<ScopeId>)
    requires Instantiated(parsed, a0, a1, s, user) && a.bindings == a1.bindings
    ensures Instantiated(parsed, a0, a, s, user)
  {
  }

  // ---- The state in which the parser leaves the scopes.

  /** No variable has a slot, and no loop is a variable scope. */
  ghost predicate Untouched(st: State)
    requires ArenaOk(st.a)
  {
    && (forall s {:trigger st.a.slotIndex[s]} :: 0 <= s < |st.a.nodes| ==> st.a.slotIndex[s] == 0)
    && (forall s {:trigger st.a.loopType[s]} :: 0 <= s < |st.a.nodes| ==> st.a.loopType[s] == Local)
    && (forall v {:trigger st.a.vars[v]} :: 0 <= v < |st.a.vars| ==> !st.a.vars[v].Bound())
    && st.g.origin == map[] && st.g.initOf == map[]
    && st.g.owners == map s: nat | s < |st.a.nodes| && IsFunctionType(st.a.nodes[s].class_) :: []
  }

  lemma UntouchedIsInv(st: State)
    requires ArenaOk(st.a) && BindingsOk(st) && Untouched(st)
    ensures Inv(st)
  {
    forall l {:trigger LoopOk(st.a, l)} | 0 <= l < |st.a.nodes| && IsLoopClass(st.a.nodes[l].class_)
      ensures LoopOk(st.a, l)
    {
      assert st.a.loopType[l] == Local;
    }
  }

  /** The parser's scopes for the program `ast` with the top scope `top`. */
  ghost predicate Parsed(st: State, top: ScopeId, ast: Ast) {
    && ArenaOk(st.a) && BindingsOk(st) && Untouched(st) && NoMandatoryNames(st.a)
    && ParamScopesOk(st.a.nodes) && TopsOk(st.a.nodes) && top < |st.a.nodes| && IsTopType(st.a.nodes[top].class_)
    && WellScoped(st.a.nodes, ast, {top})
    && (forall i, j :: 0 <= i < j < |FunctionsOf(ast)| ==> FunctionsOf(ast)[i] != FunctionsOf(ast)[j])
  }

  lemma ParsedIsReady(st: State, top: ScopeId, ast: Ast)
    requires Parsed(st, top, ast)
    ensures Good(st, {}) && Grown(st.a.nodes, st)
    ensures Ready(st.a.nodes, st, {top}, LoopsOf(st.a.nodes, ast))
  {
    UntouchedIsInv(st);
    ScopesFit(st.a.nodes, ast, {top});
    forall l {:trigger l in LoopsOf(st.a.nodes, ast)} | l in LoopsOf(st.a.nodes, ast)
      ensures !Converted(st.a, l)
    {
      assert st.a.loopType[l] == Local;
    }
    assert st.a.loopType[top] == Local;
  }

  lemma ParsedIsOrdered(st: State, top: ScopeId, ast: Ast)
    requires Parsed(st, top, ast)
    ensures OuterFirst(st.a.nodes, [top] + FunctionsOf(ast))
  {
    var nodes, fs := st.a.nodes, [top] + FunctionsOf(ast);
    assert Chain(nodes, top) == [top];
    FunctionsInOrder(nodes, ast, {top}, {top});
    assert {} + {top} == {top};
    AfterEnter(nodes, {}, top, FunctionsOf(ast));
    AfterNothing(nodes, fs);
  }

  lemma AfterNothing(nodes: seq<ScopeNode>, fs: seq<ScopeId>)
    requires TreeOk(nodes) && After(nodes, {}, fs)
    ensures OuterFirst(nodes, fs)
  {
    hide TreeOk, AfterOuter, OuterBefore;
    forall i {:trigger fs[i]} | 0 <= i < |fs|
      ensures fs[i] < |nodes| && OuterBefore(nodes, fs, i)
    {
      AfterNone(nodes, fs, i);
    }
  }

  lemma AfterNone(nodes: seq<ScopeNode>, fs: seq<ScopeId>, i: nat)
    requires TreeOk(nodes) && i < |fs| && fs[i] < |nodes| && AfterOuter(nodes, {}, fs, i)
    ensures OuterBefore(nodes, fs, i)
  {
    hide TreeOk, Chain;
  }

  lemma ParsedFunctions(st: State, top: ScopeId, ast: Ast)
    requires Parsed(st, top, ast)
    ensures var fs := [top] + FunctionsOf(ast);
      && (forall i {:trigger fs[i]} :: 0 <= i < |fs| ==>
            fs[i] < |st.a.nodes| && IsFunctionType(st.a.nodes[fs[i]].class_))
      && (forall i, j :: 0 <= i < j < |fs| ==> fs[i] != fs[j])
  {
    ScopesFit(st.a.nodes, ast, {top});
    var fs := [top] + FunctionsOf(ast);
    forall i {:trigger fs[i]} | 0 < i < |fs|
      ensures fs[i] < |st.a.nodes| && st.a.nodes[fs[i]].class_ == Function
    {
      assert FunctionsOf(ast)[i - 1] in FunctionsOf(ast);
    }
  }

  /** The function around the function with scope `f`. */
  ghost function OuterFunction(nodes: seq<ScopeNode>, f: ScopeId): ScopeId
    requires TreeOk(nodes) && f < |nodes|
  {
    if nodes[f].parent.Some? then FunctionOf(nodes, nodes[f].parent.value) else f
  }

  class Binder {
    const topScope: ScopeId
    var arena: Arena
    var scopeFlags: map<ScopeId, set<ScopeFlag>>
    var params: map<ScopeId, seq<VariableId>>
    var initScope: map<ScopeId, ScopeId>
    var scope: ScopeId
    var functionScopes: seq<ScopeId>

    /** What the parser made, and its scopes. */
    ghost const parsed: Arena
    ghost const tree: seq<ScopeNode>
    ghost var ledger: Ledger
    /** The references resolved so far. */
    ghost var seen: set<(ScopeId, string)>

    function FlagsOf(s: ScopeId): set<ScopeFlag>
      reads `scopeFlags
    {
      if s in scopeFlags then scopeFlags[s] else {}
    }

    /** The functions that `super` has marked. */
    ghost function Supers(): set<ScopeId>
      reads `scopeFlags
    {
      set s | s in scopeFlags && UseSuper in scopeFlags[s]
    }

    ghost predicate Valid()
      reads `arena, `ledger, `seen, `scopeFlags, `functionScopes
    {
      && TreeOk(tree) && Given() && Good(State(arena, ledger), seen) && Grown(tree, State(arena, ledger)) && Marked()
      && ArgumentsMarked()
    }

    /** Only functions with an `arguments` of their own use it, and a function knows of the arrows right inside it. */
    ghost predicate Marked()
      requires TreeOk(tree)
      reads `scopeFlags, `functionScopes
    {
      && (forall s {:trigger s in scopeFlags} :: s in scopeFlags && UseArgs in scopeFlags[s] ==>
            s < |tree| && tree[s].kind != Arrow)
      && (forall f {:trigger f in functionScopes} :: f in functionScopes ==>
            f < |tree| && (tree[f].kind == Arrow ==> InnerArrow in FlagsOf(OuterFunction(tree, f))))
    }

    /** Exactly the functions are marked as using `arguments` for which a reference has been resolved. */
    ghost predicate ArgumentsMarked()
      requires ArenaOk(parsed)
      reads `scopeFlags, `seen
    {
      forall f: ScopeId {:trigger FlagsOf(f)} :: UseArgs in FlagsOf(f) <==> UsesArguments(parsed, seen, f)
    }

    /** Of the parser's variables, exactly those have slots that the references resolved so far capture. */
    ghost predicate Tracked()
      reads `arena, `seen
    {
      Given() && Tracks(parsed, arena, seen) && ParamsDeclared(parsed, arena, seen)
    }

    ghost predicate Given() {
      parsed.nodes == tree && ArenaOk(parsed) && LoopsUnshared(parsed) && ListsOk(tree)
    }

    /** What the assertion in the conversion of loops asks of the loops `ls`, as far as the references `refs` go. */
    ghost predicate Fits(refs: Refs, ls: set<ScopeId>) {
      ArenaOk(parsed) && LoopsFit(parsed, refs, ls)
    }

    lemma ValidMeans()
      requires Valid()
      ensures TreeOk(tree) && Good(State(arena, ledger), seen) && Inv(State(arena, ledger)) && ArenaOk(arena)
      ensures Grown(tree, State(arena, ledger)) && tree <= arena.nodes
    {
    }

    method AddScopeFlag(s: ScopeId, flag: ScopeFlag)
      modifies `scopeFlags
      ensures scopeFlags == old(scopeFlags)[s := old(FlagsOf(s)) + {flag}]
      ensures Supers() == old(Supers()) + if flag == UseSuper then {s} else {}
      ensures forall f: ScopeId {:trigger FlagsOf(f)} ::
        UseArgs in FlagsOf(f) <==> UseArgs in old(FlagsOf(f)) || (flag == UseArgs && f == s)
      ensures old(Valid()) && flag != UseArgs ==> Valid()
    {
      hide Good, Grown, UsesArguments, TreeOk, Given;
      scopeFlags := scopeFlags[s := FlagsOf(s) + {flag}];
      assert forall f: ScopeId {:trigger FlagsOf(f)} :: FlagsOf(f) == old(FlagsOf(f)) + if f == s then {flag} else {};
    }

    method ResolveIdentifier(name: string)
      requires Valid() && Tracked() && scope < |tree| <= |arena.nodes| && ArenaOk(arena) && Open(arena, scope)
      requires name !in MANDATORY_NAMES
      modifies `arena, `ledger, `seen, `scopeFlags
      ensures Valid() && Tracked() && Advanced(old(State(arena, ledger)), State(arena, ledger), {})
      ensures seen == old(seen) + {(scope, name)} && Supers() == old(Supers())
    {
      hide Good, Grown, Tracks, Advanced, Open, UserFound, UsesArguments, ParamsDeclared, LoopsUnshared;
      ghost var a0, refs := arena, seen;
      var res, user;
      res, arena, ledger, user := LookupIdentReference(parsed, arena, ledger, seen, scope, name);
      UserIsMarked(parsed, a0, arena, refs, scope, name, user);
      seen := seen + {(scope, name)};
      assert forall f: ScopeId {:trigger FlagsOf(f)} :: UseArgs in FlagsOf(f) <==> UsesArguments(parsed, refs, f);
      if user.Some? {
        AddScopeFlag(user.value, UseArgs);
      }
    }

    method ResolveSuper()
      requires Valid() && scope < |tree| <= |arena.nodes| && ArenaOk(arena) && Open(arena, scope)
      modifies `scopeFlags
      ensures Valid() && TreeOk(tree) && Supers() == old(Supers()) + {FunctionOf(tree, scope)}
    {
      hide Resolved, Given, UsesArguments, Supers, FlagsOf;
      OpenIsPlain(arena, scope, scope);
      PlainLoopsSkipped(arena, scope);
      var varScope := EnclosingVariableScope(arena, scope);
      PlaceKept(tree, arena.nodes, scope);
      AddScopeFlag(varScope.value, UseSuper);
    }

    /** `n` may be resolved in the scope `cur`: its own scopes lie in `lexes`, in the same function. */
    ghost predicate Placed(n: Ast, cur: ScopeId, lexes: set<ScopeId>) {
      Around(tree, lexes) && WellScoped(tree, n, lexes) && InFunction(lexes, cur)
    }

    ghost predicate AllPlaced(ns: seq<Ast>, cur: ScopeId, lexes: set<ScopeId>) {
      Around(tree, lexes) && AllWellScoped(tree, ns, lexes) && InFunction(lexes, cur)
    }

    ghost predicate InFunction(lexes: set<ScopeId>, cur: ScopeId)
      requires Around(tree, lexes)
    {
      cur < |tree| && forall p {:trigger p in lexes} :: p in lexes ==> SameFunction(tree, p, cur)
    }

    /** `ok` is whether every assertion met on the way holds; the walk ends at the first one that does not. */
    method ResolveReference(n: Ast, ghost lexes: set<ScopeId>) returns (ok: bool)
      requires Valid() && Tracked() && Placed(n, scope, lexes)
      requires Ready(tree, State(arena, ledger), lexes + {scope}, LoopsOf(tree, n))
      modifies `arena, `ledger, `seen, `scopeFlags, `initScope, `scope, `functionScopes
      ensures ok ==>
        && Valid() && Tracked() && scope == old(scope)
        && Advanced(old(State(arena, ledger)), State(arena, ledger), LoopsOf(tree, n))
      ensures ok ==>
        functionScopes == old(functionScopes) + FunctionsOf(n) && seen == old(seen) + RefsOf(tree, n, scope)
      ensures ok ==> Supers() == old(Supers()) + SupersOf(tree, n, scope)
      ensures ok <==> Fits(old(seen) + RefsOf(tree, n, old(scope)), LoopsOf(tree, n))
      decreases n, 4
    {
      hide *;
      TrackedMeans();
      PlacedMeans(n, lexes);
      match n
      case Reference(name) =>
        NothingToFit(seen + RefsOf(tree, n, scope));
        assert Supers() == Supers() + {};
        ResolveIdentifier(name);
        ok := true;
      case Super =>
        NothingToFit(seen + RefsOf(tree, n, scope));
        ResolveSuper();
        AdvancedReflexive(State(arena, ledger), {});
        assert seen == seen + {};
        ok := true;
      case Other(children) =>
        ok := ResolveReferences(children, lexes);
      case Scoped(_, _) =>
        ok := ResolveScoped(n, lexes);
      case ScriptFunction(_, _, _) =>
        ok := ResolveScriptFunction(n, lexes);
      case While(_, _, _) =>
        ok := ResolveWhile(n, lexes);
      case DoWhile(_, _, _) =>
        ok := ResolveDoWhile(n, lexes);
      case ForUpdate(_, _, _, _, _) =>
        ok := BuildForUpdateLoop(n, lexes);
      case ForInOf(_, _, _, _) =>
        ok := BuildForInOfLoop(n, lexes);
    }

    lemma TrackedMeans()
      requires Tracked()
      ensures Given()
    {
    }

    lemma NothingToFit(refs: Refs)
      requires Given()
      ensures Fits(refs, {})
    {
    }

    /** Of two parts, the references `more` of the second do not bear on the loops `ls` of the first. */
    lemma FitInTurn(refs: Refs, more: Refs, ls: set<ScopeId>, rest: set<ScopeId>)
      requires Given() && LoopsWhole(tree, ls) && Avoids(tree, more, ls)
      ensures Fits(refs + more, ls + rest) <==> Fits(refs, ls) && Fits(refs + more, rest)
    {
      FitsInTurn(parsed, refs, more, ls, rest);
    }

    /** A part of the tree refers to nothing in the loops `ls` of other parts. */
    lemma PartAvoids(n: Ast, cur: ScopeId, lexes: set<ScopeId>, around: set<ScopeId>, ls: set<ScopeId>)
      requires Placed(n, cur, lexes) && lexes + {cur} <= around && ls !! LoopsOf(tree, n)
      requires Around(tree, around) && Apart(tree, around, ls) && LoopsWhole(tree, ls)
      ensures Avoids(tree, RefsOf(tree, n, cur), ls)
    {
      assert forall p {:trigger p in lexes} :: p in lexes ==> p in around;
      assert cur in around;
      RefsAvoid(tree, n, cur, lexes, ls);
    }

    lemma PartWhole(n: Ast, cur: ScopeId, lexes: set<ScopeId>)
      requires Placed(n, cur, lexes)
      ensures LoopsWhole(tree, LoopsOf(tree, n))
    {
      ScopesFit(tree, n, lexes);
    }

    /** The nodes without scopes of their own. */
    lemma PlacedMeans(n: Ast, lexes: set<ScopeId>)
      requires Placed(n, scope, lexes) && Ready(tree, State(arena, ledger), lexes + {scope}, LoopsOf(tree, n))
      ensures scope < |tree| <= |arena.nodes| && ArenaOk(arena) && Open(arena, scope)
      ensures n.Reference? ==>
        n.name !in MANDATORY_NAMES && LoopsOf(tree, n) == {} && FunctionsOf(n) == [] &&
          RefsOf(tree, n, scope) == {(scope, n.name)} && SupersOf(tree, n, scope) == {}
      ensures n.Super? ==>
        && LoopsOf(tree, n) == {} && FunctionsOf(n) == [] && RefsOf(tree, n, scope) == {}
        && TreeOk(tree) && SupersOf(tree, n, scope) == {FunctionOf(tree, scope)}
      ensures n.Other? ==>
        && AllPlaced(n.children, scope, lexes) && LoopsOf(tree, n) == LoopsOfAll(tree, n.children)
        && FunctionsOf(n) == FunctionsOfAll(n.children) && RefsOf(tree, n, scope) == RefsOfAll(tree, n.children, scope)
        && SupersOf(tree, n, scope) == SupersOfAll(tree, n.children, scope)
    {
      assert scope in lexes + {scope};
    }

    method ResolveScoped(n: Ast, ghost lexes: set<ScopeId>) returns (ok: bool)
      requires n.Scoped?
      requires Valid() && Tracked() && Placed(n, scope, lexes)
      requires Ready(tree, State(arena, ledger), lexes + {scope}, LoopsOf(tree, n))
      modifies `arena, `ledger, `seen, `scopeFlags, `initScope, `scope, `functionScopes
      ensures ok ==>
        && Valid() && Tracked() && scope == old(scope)
        && Advanced(old(State(arena, ledger)), State(arena, ledger), LoopsOf(tree, n))
      ensures ok ==>
        functionScopes == old(functionScopes) + FunctionsOf(n) && seen == old(seen) + RefsOf(tree, n, scope)
      ensures ok ==> Supers() == old(Supers()) + SupersOf(tree, n, scope)
      ensures ok <==> Fits(old(seen) + RefsOf(tree, n, old(scope)), LoopsOf(tree, n))
      decreases n, 3
    {
      hide *;
      ScopedMeans(n, lexes);
      var prev := scope;
      scope := n.scope;
      assert {scope} == {scope} + {scope};
      ok := ResolveReferences(n.children, {scope});
      scope := prev;
    }

    lemma ScopedMeans(n: Ast, lexes: set<ScopeId>)
      requires n.Scoped?
      requires Placed(n, scope, lexes) && Ready(tree, State(arena, ledger), lexes + {scope}, LoopsOf(tree, n))
      ensures AllPlaced(n.children, n.scope, {n.scope})
      ensures Ready(tree, State(arena, ledger), {n.scope}, LoopsOf(tree, n))
      ensures LoopsOf(tree, n) == LoopsOfAll(tree, n.children)
      ensures FunctionsOf(n) == FunctionsOfAll(n.children)
      ensures RefsOf(tree, n, scope) == RefsOfAll(tree, n.children, n.scope)
      ensures SupersOf(tree, n, scope) == SupersOfAll(tree, n.children, n.scope)
    {
      assert Around(tree, {n.scope});
      AllApart(tree, n.children, {n.scope});
      EnterScope(tree, State(arena, ledger), lexes + {scope}, n.scope, {n.scope}, LoopsOf(tree, n));
    }

    method ResolveReferences(ns: seq<Ast>, ghost lexes: set<ScopeId>) returns (ok: bool)
      requires Valid() && Tracked() && AllPlaced(ns, scope, lexes)
      requires Ready(tree, State(arena, ledger), lexes + {scope}, LoopsOfAll(tree, ns))
      modifies `arena, `ledger, `seen, `scopeFlags, `initScope, `scope, `functionScopes
      ensures ok ==>
        && Valid() && Tracked() && scope == old(scope)
        && Advanced(old(State(arena, ledger)), State(arena, ledger), LoopsOfAll(tree, ns))
      ensures ok ==>
        functionScopes == old(functionScopes) + FunctionsOfAll(ns) && seen == old(seen) + RefsOfAll(tree, ns, scope)
      ensures ok ==> Supers() == old(Supers()) + SupersOfAll(tree, ns, scope)
      ensures ok <==> Fits(old(seen) + RefsOfAll(tree, ns, old(scope)), LoopsOfAll(tree, ns))
      decreases ns, 0
    {
      hide *;
      ok := true;
      ghost var st0, refs, supers := State(arena, ledger), seen, Supers();
      TrackedMeans();
      if ns == [] {
        AdvancedReflexive(st0, {});
        NothingIn(tree, scope);
        NothingToFit(seen + {});
        assert seen + {} == seen && supers + {} == supers;
      } else {
        ghost var first, rest := RefsOf(tree, ns[0], scope), RefsOfAll(tree, ns[1..], scope);
        FirstAndRest(tree, ns, scope);
        SplitPlaced(ns, scope, lexes);
        ListInTurn(ns, lexes, refs);
        ok := ResolveAt(ns[0], scope, lexes, lexes + {scope}, LoopsOfAll(tree, ns));
        if ok {
          ghost var st1 := State(arena, ledger);
          ok := ResolveReferences(ns[1..], lexes);
          assert refs + first + rest == refs + (first + rest);
          Joined(supers, SupersOf(tree, ns[0], scope), SupersOfAll(tree, ns[1..], scope));
          if ok {
            AdvancedTransitive(st0, st1, State(arena, ledger), LoopsOf(tree, ns[0]), LoopsOfAll(tree, ns[1..]),
                               LoopsOfAll(tree, ns));
          }
        }
      }
    }

    lemma Joined(supers: set<ScopeId>, first: set<ScopeId>, rest: set<ScopeId>)
      ensures supers + first + rest == supers + (first + rest)
    {
    }

    lemma ListInTurn(ns: seq<Ast>, lexes: set<ScopeId>, refs: Refs)
      requires ns != [] && Given() && AllPlaced(ns, scope, lexes)
      requires Ready(tree, State(arena, ledger), lexes + {scope}, LoopsOfAll(tree, ns))
      ensures var first, rest := RefsOf(tree, ns[0], scope), RefsOfAll(tree, ns[1..], scope);
        Fits(refs + (first + rest), LoopsOfAll(tree, ns)) <==>
        Fits(refs + first, LoopsOf(tree, ns[0])) && Fits(refs + first + rest, LoopsOfAll(tree, ns[1..]))
    {
      hide Fits, Given;
      var first, rest := RefsOf(tree, ns[0], scope), RefsOfAll(tree, ns[1..], scope);
      PartWhole(ns[0], scope, lexes);
      assert NotAround(tree, scope, LoopsOf(tree, ns[0])) by { assert scope in lexes + {scope}; }
      AllRefsAvoid(tree, ns[1..], scope, lexes, LoopsOf(tree, ns[0]));
      FitInTurn(refs + first, rest, LoopsOf(tree, ns[0]), LoopsOfAll(tree, ns[1..]));
      assert refs + first + rest == refs + (first + rest);
    }

    lemma SplitPlaced(ns: seq<Ast>, cur: ScopeId, lexes: set<ScopeId>)
      requires ns != [] && AllPlaced(ns, cur, lexes)
      ensures Placed(ns[0], cur, lexes) && AllPlaced(ns[1..], cur, lexes)
      ensures LoopsOfAll(tree, ns[1..]) == LoopsOfAll(tree, ns) - LoopsOf(tree, ns[0])
    {
    }

    /** Resolve a part of a node in the scope `cur`; the loops left of `ls` stay to be resolved. */
    method ResolveAt(n: Ast, cur: ScopeId, ghost lexes: set<ScopeId>, ghost around: set<ScopeId>,
                     ghost ls: set<ScopeId>)
      returns (ok: bool)
      requires Valid() && Tracked() && Placed(n, cur, lexes)
      requires Ready(tree, State(arena, ledger), around, ls) && lexes + {cur} <= around && LoopsOf(tree, n) <= ls
      modifies `arena, `ledger, `seen, `scopeFlags, `initScope, `scope, `functionScopes
      ensures ok ==>
        && Valid() && Tracked() && scope == old(scope)
        && Advanced(old(State(arena, ledger)), State(arena, ledger), LoopsOf(tree, n))
      ensures ok ==> functionScopes == old(functionScopes) + FunctionsOf(n) && seen == old(seen) + RefsOf(tree, n, cur)
      ensures ok ==> Supers() == old(Supers()) + SupersOf(tree, n, cur)
      ensures ok ==> Ready(tree, State(arena, ledger), around, ls - LoopsOf(tree, n))
      ensures ok <==> Fits(old(seen) + RefsOf(tree, n, cur), LoopsOf(tree, n))
      decreases n, 5
    {
      hide *;
      ghost var st0 := State(arena, ledger);
      ValidMeans();
      Narrow(tree, st0, around, ls, lexes + {cur}, LoopsOf(tree, n));
      Narrow(tree, st0, around, ls, around, ls - LoopsOf(tree, n));
      var prev := scope;
      scope := cur;
      ok := ResolveReference(n, lexes);
      scope := prev;
      if ok {
        ValidMeans();
        assert LoopsOf(tree, n) + (ls - LoopsOf(tree, n)) == ls;
        StaysReady(tree, st0, State(arena, ledger), around, LoopsOf(tree, n), ls - LoopsOf(tree, n));
      }
    }

    // ---- Functions.

    method ResolveScriptFunction(n: Ast, ghost lexes: set<ScopeId>) returns (ok: bool)
      requires n.ScriptFunction?
      requires Valid() && Tracked() && Placed(n, scope, lexes)
      requires Ready(tree, State(arena, ledger), lexes + {scope}, LoopsOf(tree, n))
      modifies `arena, `ledger, `seen, `scopeFlags, `initScope, `scope, `functionScopes
      ensures ok ==>
        && Valid() && Tracked() && scope == old(scope)
        && Advanced(old(State(arena, ledger)), State(arena, ledger), LoopsOf(tree, n))
      ensures ok ==>
        functionScopes == old(functionScopes) + FunctionsOf(n) && seen == old(seen) + RefsOf(tree, n, scope)
      ensures ok ==> Supers() == old(Supers()) + SupersOf(tree, n, scope)
      ensures ok <==> Fits(old(seen) + RefsOf(tree, n, old(scope)), LoopsOf(tree, n))
      decreases n, 3
    {
      hide *;
      var outerScope := scope;
      ghost var st0, refs, supers := State(arena, ledger), seen, Supers();
      TrackedMeans();
      ParamsMean(n, lexes);
      scope := arena.nodes[n.scope].parent.value;
      assert {scope} == {scope} + {scope};
      ghost var inParams, inBody := RefsOfAll(tree, n.params, scope), RefsOfAll(tree, n.body, n.scope);
      ghost var paramSupers := SupersOfAll(tree, n.params, scope);
      NothingToFit(refs + inParams);
      assert refs + inParams + inBody == refs + (inParams + inBody);
      ok := ResolveReferences(n.params, {scope});
      if ok {
        ghost var st1 := State(arena, ledger);
        ValidMeans();
        BodyMeans(n, lexes, outerScope, st0);
        scope := n.scope;
        BuildScriptFunction(outerScope);
        assert {scope} == {scope} + {scope};
        ok := ResolveReferences(n.body, {scope});
        if ok {
          AdvancedTransitive(st0, st1, State(arena, ledger), {}, LoopsOf(tree, n), LoopsOf(tree, n));
          Joined(supers, paramSupers, SupersOfAll(tree, n.body, n.scope));
          scope := outerScope;
        }
      }
    }

    lemma ParamsMean(n: Ast, lexes: set<ScopeId>)
      requires n.ScriptFunction?
      requires Placed(n, scope, lexes) && Ready(tree, State(arena, ledger), lexes + {scope}, LoopsOf(tree, n))
      ensures n.scope < |tree| <= |arena.nodes| && tree[n.scope].parent.Some? && arena.nodes[n.scope] == tree[n.scope]
      ensures var p := tree[n.scope].parent.value;
        AllPlaced(n.params, p, {p}) && Ready(tree, State(arena, ledger), {p}, {})
      ensures LoopsOfAll(tree, n.params) == {} && FunctionsOfAll(n.params) == []
      ensures RefsOf(tree, n, scope) ==
        RefsOfAll(tree, n.params, tree[n.scope].parent.value) + RefsOfAll(tree, n.body, n.scope)
      ensures SupersOf(tree, n, scope) ==
        SupersOfAll(tree, n.params, tree[n.scope].parent.value) + SupersOfAll(tree, n.body, n.scope)
      ensures FunctionsOf(n) == [n.scope] + FunctionsOfAll(n.body)
    {
      hide Ready;
      var p := tree[n.scope].parent.value;
      assert AllPlaced(n.params, p, {p});
      ParamsReady(lexes, p, LoopsOf(tree, n));
    }

    lemma ParamsReady(lexes: set<ScopeId>, p: ScopeId, ls: set<ScopeId>)
      requires Ready(tree, State(arena, ledger), lexes + {scope}, ls)
      requires Within(tree, p, lexes) && tree[p].class_ == FunctionParam
      ensures Ready(tree, State(arena, ledger), {p}, {}) && tree <= arena.nodes
    {
      Narrow(tree, State(arena, ledger), lexes + {scope}, ls, lexes + {scope}, {});
      assert arena.nodes[p] == tree[p];
      EnterScope(tree, State(arena, ledger), lexes + {scope}, p, {p}, {});
    }

    lemma BodyMeans(n: Ast, lexes: set<ScopeId>, outerScope: ScopeId, st0: State)
      requires n.ScriptFunction?
      requires Placed(n, outerScope, lexes) && Ready(tree, st0, lexes + {outerScope}, LoopsOf(tree, n))
      requires ArenaOk(arena) && tree <= arena.nodes && Advanced(st0, State(arena, ledger), {})
      ensures LoopsOf(tree, n) == LoopsOfAll(tree, n.body)
      ensures AllPlaced(n.body, n.scope, {n.scope})
      ensures Ready(tree, State(arena, ledger), {n.scope}, LoopsOfAll(tree, n.body))
      ensures IsFunctionIn(n.scope, outerScope) && outerScope < |arena.nodes| && Open(arena, outerScope)
    {
      var p := tree[n.scope].parent.value;
      var st := State(arena, ledger);
      var ls := LoopsOf(tree, n);
      assert {} + ls == ls;
      StaysReady(tree, st0, st, lexes + {outerScope}, {}, ls);
      assert arena.nodes[p] == tree[p] && arena.nodes[n.scope] == tree[n.scope];
      AllApart(tree, n.body, {n.scope});
      assert Chain(tree, n.scope) == [n.scope] + Chain(tree, p);
      assert Apart(tree, {p}, ls);
      EnterScope(tree, st, lexes + {outerScope}, p, lexes + {outerScope, p}, ls);
      EnterScope(tree, st, lexes + {outerScope, p}, n.scope, {n.scope}, ls);
      assert outerScope in lexes + {outerScope};
      assert SameFunction(tree, tree[p].parent.value, outerScope);
    }

    /** `f` is a function right inside the function of `outerScope`. */
    ghost predicate IsFunctionIn(f: ScopeId, outerScope: ScopeId) {
      && TreeOk(tree) && f < |tree| && outerScope < |tree| && tree[f].class_ == Function
      && OuterFunction(tree, f) == FunctionOf(tree, outerScope)
    }

    method BuildScriptFunction(outerScope: ScopeId)
      requires Valid() && IsFunctionIn(scope, outerScope)
      requires ArenaOk(arena) && outerScope < |arena.nodes| && Open(arena, outerScope)
      modifies `functionScopes, `scopeFlags
      ensures Valid() && functionScopes == old(functionScopes) + [scope] && Supers() == old(Supers())
    {
      hide Good, Grown, Open, Given, UsesArguments, Supers;
      ValidMeans();
      if arena.nodes[scope].kind == Arrow {
        OuterVariableScope(outerScope);
        var outerVarScope := EnclosingVariableScope(arena, outerScope);
        AddScopeFlag(outerVarScope.value, InnerArrow);
      }
      functionScopes := functionScopes + [scope];
    }

    lemma OuterVariableScope(outerScope: ScopeId)
      requires Valid() && outerScope < |tree|
      requires ArenaOk(arena) && outerScope < |arena.nodes| && Open(arena, outerScope)
      ensures FirstVariableScope(arena, Chain(arena.nodes, outerScope)) == Some(FunctionOf(tree, outerScope))
    {
      hide Inv, Resolved;
      OpenIsPlain(arena, outerScope, outerScope);
      PlainLoopsSkipped(arena, outerScope);
      PlaceKept(tree, arena.nodes, outerScope);
    }

    // ---- Loops.

    method ResolveWhile(n: Ast, ghost lexes: set<ScopeId>) returns (ok: bool)
      requires n.While?
      requires Valid() && Tracked() && Placed(n, scope, lexes)
      requires Ready(tree, State(arena, ledger), lexes + {scope}, LoopsOf(tree, n))
      modifies `arena, `ledger, `seen, `scopeFlags, `initScope, `scope, `functionScopes
      ensures ok ==>
        && Valid() && Tracked() && scope == old(scope)
        && Advanced(old(State(arena, ledger)), State(arena, ledger), LoopsOf(tree, n))
      ensures ok ==>
        functionScopes == old(functionScopes) + FunctionsOf(n) && seen == old(seen) + RefsOf(tree, n, scope)
      ensures ok ==> Supers() == old(Supers()) + SupersOf(tree, n, scope)
      ensures ok <==> Fits(old(seen) + RefsOf(tree, n, old(scope)), LoopsOf(tree, n))
      decreases n, 3
    {
      hide *;
      ghost var st0, around := State(arena, ledger), lexes + {scope} + {n.loop};
      ghost var inTest, inBody := LoopsOf(tree, n.test), LoopsOf(tree, n.body_);
      Joined(Supers(), SupersOf(tree, n.test, scope), SupersOf(tree, n.body_, n.loop));
      TrackedMeans();
      WhileMeans(n, lexes);
      WhileInTurn(n, lexes, seen);
      ok := ResolveAt(n.test, scope, lexes, around, inTest + inBody);
      if ok {
        ghost var st1 := State(arena, ledger);
        ok := ResolveAt(n.body_, n.loop, {n.loop}, around, inTest + inBody - inTest);
        if ok {
          AdvancedTransitive(st0, st1, State(arena, ledger), inTest, inBody, LoopsOf(tree, n));
        }
      }
    }

    lemma WhileMeans(n: Ast, lexes: set<ScopeId>)
      requires n.While?
      requires Placed(n, scope, lexes) && Ready(tree, State(arena, ledger), lexes + {scope}, LoopsOf(tree, n))
      ensures LoopsOf(tree, n) == LoopsOf(tree, n.test) + LoopsOf(tree, n.body_) + {n.loop}
      ensures LoopsOf(tree, n.test) !! LoopsOf(tree, n.body_)
      ensures Ready(tree, State(arena, ledger), lexes + {scope} + {n.loop},
                    LoopsOf(tree, n.test) + LoopsOf(tree, n.body_))
      ensures Placed(n.test, scope, lexes) && Placed(n.body_, n.loop, {n.loop})
      ensures FunctionsOf(n) == FunctionsOf(n.test) + FunctionsOf(n.body_)
      ensures RefsOf(tree, n, scope) == RefsOf(tree, n.test, scope) + RefsOf(tree, n.body_, n.loop)
      ensures SupersOf(tree, n, scope) == SupersOf(tree, n.test, scope) + SupersOf(tree, n.body_, n.loop)
    {
      var ls := LoopsOf(tree, n.test) + LoopsOf(tree, n.body_);
      LoopsApart(tree, n.body_, {n.loop}, n.loop);
      EnterLoop(tree, State(arena, ledger), lexes + {scope}, lexes, n.loop, ls);
    }

    lemma WhileInTurn(n: Ast, lexes: set<ScopeId>, refs: Refs)
      requires n.While? && Given()
      requires Placed(n, scope, lexes) && Ready(tree, State(arena, ledger), lexes + {scope}, LoopsOf(tree, n))
      ensures var first, rest := RefsOf(tree, n.test, scope), RefsOf(tree, n.body_, n.loop);
        Fits(refs + RefsOf(tree, n, scope), LoopsOf(tree, n)) <==>
        Fits(refs + first, LoopsOf(tree, n.test)) && Fits(refs + first + rest, LoopsOf(tree, n.body_))
    {
      hide *;
      WhileMeans(n, lexes);
      TwoInTurn(n.test, scope, lexes, n.body_, n.loop, {n.loop}, lexes + {scope} + {n.loop}, refs);
      WithPlainLoop(n, scope, lexes, refs);
    }

    /** A loop that is not a `for` loop asks nothing itself. */
    lemma WithPlainLoop(n: Ast, cur: ScopeId, lexes: set<ScopeId>, refs: Refs)
      requires (n.While? || n.DoWhile?) && Given() && Placed(n, cur, lexes)
      ensures var ls := LoopsOf(tree, n.test) + LoopsOf(tree, n.body_);
        Fits(refs + RefsOf(tree, n, cur), LoopsOf(tree, n)) <==> Fits(refs + RefsOf(tree, n, cur), ls)
    {
      var all, ls := LoopsOf(tree, n), LoopsOf(tree, n.test) + LoopsOf(tree, n.body_);
      assert all == ls + {n.loop};
      assert forall l {:trigger l in all} :: l in all <==> l in ls || l == n.loop;
      assert forall l {:trigger l in ls} :: l in ls ==> l in all;
    }

    /** Two parts that follow one another. */
    lemma TwoInTurn(m: Ast, cur: ScopeId, lexes: set<ScopeId>, n: Ast, cur': ScopeId, lexes': set<ScopeId>,
                    around: set<ScopeId>, refs: Refs)
      requires Given() && Placed(m, cur, lexes) && Placed(n, cur', lexes') && LoopsOf(tree, m) !! LoopsOf(tree, n)
      requires Ready(tree, State(arena, ledger), around, LoopsOf(tree, m) + LoopsOf(tree, n))
      requires lexes' + {cur'} <= around
      ensures var first, rest := RefsOf(tree, m, cur), RefsOf(tree, n, cur');
        Fits(refs + (first + rest), LoopsOf(tree, m) + LoopsOf(tree, n)) <==>
        Fits(refs + first, LoopsOf(tree, m)) && Fits(refs + first + rest, LoopsOf(tree, n))
    {
      hide *;
      var first, rest := RefsOf(tree, m, cur), RefsOf(tree, n, cur');
      PartWhole(m, cur, lexes);
      ApartFrom(around, LoopsOf(tree, m) + LoopsOf(tree, n), LoopsOf(tree, m));
      PartAvoids(n, cur', lexes', around, LoopsOf(tree, m));
      FitInTurn(refs + first, rest, LoopsOf(tree, m), LoopsOf(tree, n));
      assert refs + first + rest == refs + (first + rest);
    }

    lemma ApartFrom(around: set<ScopeId>, ls: set<ScopeId>, fewer: set<ScopeId>)
      requires Ready(tree, State(arena, ledger), around, ls) && fewer <= ls
      ensures Around(tree, around) && Apart(tree, around, fewer)
    {
      assert forall l {:trigger l in fewer} :: l in fewer ==> l in ls;
    }

    method ResolveDoWhile(n: Ast, ghost lexes: set<ScopeId>) returns (ok: bool)
      requires n.DoWhile?
      requires Valid() && Tracked() && Placed(n, scope, lexes)
      requires Ready(tree, State(arena, ledger), lexes + {scope}, LoopsOf(tree, n))
      modifies `arena, `ledger, `seen, `scopeFlags, `initScope, `scope, `functionScopes
      ensures ok ==>
        && Valid() && Tracked() && scope == old(scope)
        && Advanced(old(State(arena, ledger)), State(arena, ledger), LoopsOf(tree, n))
      ensures ok ==>
        functionScopes == old(functionScopes) + FunctionsOf(n) && seen == old(seen) + RefsOf(tree, n, scope)
      ensures ok ==> Supers() == old(Supers()) + SupersOf(tree, n, scope)
      ensures ok <==> Fits(old(seen) + RefsOf(tree, n, old(scope)), LoopsOf(tree, n))
      decreases n, 3
    {
      hide *;
      ghost var st0, around := State(arena, ledger), lexes + {scope} + {n.loop};
      ghost var inBody, inTest := LoopsOf(tree, n.body_), LoopsOf(tree, n.test);
      Joined(Supers(), SupersOf(tree, n.body_, n.loop), SupersOf(tree, n.test, scope));
      TrackedMeans();
      DoWhileMeans(n, lexes);
      DoWhileInTurn(n, lexes, seen);
      ok := ResolveAt(n.body_, n.loop, {n.loop}, around, inBody + inTest);
      if ok {
        ghost var st1 := State(arena, ledger);
        ok := ResolveAt(n.test, scope, {n.loop}, around, inBody + inTest - inBody);
        if ok {
          AdvancedTransitive(st0, st1, State(arena, ledger), inBody, inTest, LoopsOf(tree, n));
        }
      }
    }

    lemma DoWhileMeans(n: Ast, lexes: set<ScopeId>)
      requires n.DoWhile?
      requires Placed(n, scope, lexes) && Ready(tree, State(arena, ledger), lexes + {scope}, LoopsOf(tree, n))
      ensures LoopsOf(tree, n) == LoopsOf(tree, n.body_) + LoopsOf(tree, n.test) + {n.loop}
      ensures LoopsOf(tree, n.body_) !! LoopsOf(tree, n.test)
      ensures Ready(tree, State(arena, ledger), lexes + {scope} + {n.loop},
                    LoopsOf(tree, n.body_) + LoopsOf(tree, n.test))
      ensures Placed(n.body_, n.loop, {n.loop}) && Placed(n.test, scope, {n.loop})
      ensures FunctionsOf(n) == FunctionsOf(n.body_) + FunctionsOf(n.test)
      ensures RefsOf(tree, n, scope) == RefsOf(tree, n.body_, n.loop) + RefsOf(tree, n.test, scope)
      ensures SupersOf(tree, n, scope) == SupersOf(tree, n.body_, n.loop) + SupersOf(tree, n.test, scope)
    {
      var ls := LoopsOf(tree, n.body_) + LoopsOf(tree, n.test);
      DoWhilePlaced(n, lexes);
      EnterLoop(tree, State(arena, ledger), lexes + {scope}, lexes, n.loop, ls);
    }

    lemma DoWhileInTurn(n: Ast, lexes: set<ScopeId>, refs: Refs)
      requires n.DoWhile? && Given()
      requires Placed(n, scope, lexes) && Ready(tree, State(arena, ledger), lexes + {scope}, LoopsOf(tree, n))
      ensures var first, rest := RefsOf(tree, n.body_, n.loop), RefsOf(tree, n.test, scope);
        Fits(refs + RefsOf(tree, n, scope), LoopsOf(tree, n)) <==>
        Fits(refs + first, LoopsOf(tree, n.body_)) && Fits(refs + first + rest, LoopsOf(tree, n.test))
    {
      hide *;
      DoWhileMeans(n, lexes);
      assert {n.loop} + {scope} <= lexes + {scope} + {n.loop};
      TwoInTurn(n.body_, n.loop, {n.loop}, n.test, scope, {n.loop}, lexes + {scope} + {n.loop}, refs);
      WithPlainLoop(n, scope, lexes, refs);
      assert LoopsOf(tree, n.test) + LoopsOf(tree, n.body_) == LoopsOf(tree, n.body_) + LoopsOf(tree, n.test);
    }

    lemma DoWhilePlaced(n: Ast, lexes: set<ScopeId>)
      requires n.DoWhile? && Placed(n, scope, lexes)
      ensures Placed(n.body_, n.loop, {n.loop}) && Placed(n.test, scope, {n.loop})
      ensures NotAround(tree, n.loop, LoopsOf(tree, n.body_) + LoopsOf(tree, n.test))
    {
      LoopsApart(tree, n.body_, {n.loop}, n.loop);
      LoopsApart(tree, n.test, {n.loop}, n.loop);
      assert SameFunction(tree, n.loop, scope);
    }

    method BuildForUpdateLoop(n: Ast, ghost lexes: set<ScopeId>) returns (ok: bool)
      requires n.ForUpdate?
      requires Valid() && Tracked() && Placed(n, scope, lexes)
      requires Ready(tree, State(arena, ledger), lexes + {scope}, LoopsOf(tree, n))
      modifies `arena, `ledger, `seen, `scopeFlags, `initScope, `scope, `functionScopes
      ensures ok ==>
        && Valid() && Tracked() && scope == old(scope)
        && Advanced(old(State(arena, ledger)), State(arena, ledger), LoopsOf(tree, n))
      ensures ok ==>
        functionScopes == old(functionScopes) + FunctionsOf(n) && seen == old(seen) + RefsOf(tree, n, scope)
      ensures ok ==> Supers() == old(Supers()) + SupersOf(tree, n, scope)
      ensures ok <==> Fits(old(seen) + RefsOf(tree, n, old(scope)), LoopsOf(tree, n))
      decreases n, 3
    {
      hide *;
      ghost var st0 := State(arena, ledger);
      ghost var inInit, inUpdate, inTest, inBody :=
        LoopsOf(tree, n.init), LoopsOf(tree, n.update), LoopsOf(tree, n.test), LoopsOf(tree, n.body_);
      ghost var ls := inInit + inUpdate + inTest + inBody;
      TrackedMeans();
      ForUpdateMeans(n, lexes);
      ForUpdateInTurn(n, lexes, seen);
      var d := arena.nodes[n.loop].declScope.value;
      ghost var around := {d, n.loop};
      JoinedFour(Supers(), SupersOf(tree, n.init, d), SupersOf(tree, n.update, d), SupersOf(tree, n.test, n.loop),
                 SupersOf(tree, n.body_, n.loop));
      ok := ResolveAt(n.init, d, around, around, ls);
      if !ok { return; }
      ghost var st1 := State(arena, ledger);
      ok := ResolveAt(n.update, d, {n.loop}, around, ls - inInit);
      if !ok { return; }
      ghost var st2 := State(arena, ledger);
      AdvancedTransitive(st0, st1, st2, inInit, inUpdate, ls);
      ok := ResolveAt(n.test, n.loop, {n.loop}, around, ls - inInit - inUpdate);
      if !ok { return; }
      ghost var st3 := State(arena, ledger);
      AdvancedTransitive(st0, st2, st3, ls, inTest, ls);
      ok := ResolveAt(n.body_, n.loop, {n.loop}, around, ls - inInit - inUpdate - inTest);
      if !ok { return; }
      AdvancedTransitive(st0, st3, State(arena, ledger), ls, inBody, ls);
      assert ls - inInit - inUpdate - inTest - inBody == {};
      ok := ConvertLoopScope(n.loop, lexes, st0, ls, around);
    }

    lemma JoinedFour(supers: set<ScopeId>, r1: set<ScopeId>, r2: set<ScopeId>, r3: set<ScopeId>, r4: set<ScopeId>)
      ensures supers + r1 + r2 + r3 + r4 == supers + (r1 + r2 + r3 + r4)
      ensures supers + r1 + r2 + r3 == supers + (r1 + r2 + r3)
    {
    }

    lemma ForUpdateMeans(n: Ast, lexes: set<ScopeId>)
      requires n.ForUpdate?
      requires Placed(n, scope, lexes) && Ready(tree, State(arena, ledger), lexes + {scope}, LoopsOf(tree, n))
      ensures n.loop < |tree| <= |arena.nodes| && arena.nodes[n.loop] == tree[n.loop] && ForPlaced(n.loop, lexes)
      ensures arena.nodes[n.loop].declScope.Some?
      ensures var d, ls := tree[n.loop].declScope.value, ForUpdateLoops(n);
        && LoopsOf(tree, n) == ls + {d, n.loop} && ls !! {d, n.loop}
        && Ready(tree, State(arena, ledger), {d, n.loop}, ls)
      ensures LoopsOf(tree, n.init) !! LoopsOf(tree, n.update) !! LoopsOf(tree, n.test) !! LoopsOf(tree, n.body_)
      ensures var d := tree[n.loop].declScope.value;
        && Placed(n.init, d, {d, n.loop}) && Placed(n.update, d, {n.loop})
        && Placed(n.test, n.loop, {n.loop}) && Placed(n.body_, n.loop, {n.loop})
      ensures FunctionsOf(n) == FunctionsOf(n.init) + FunctionsOf(n.update) + FunctionsOf(n.test) + FunctionsOf(n.body_)
      ensures var d := tree[n.loop].declScope.value;
        RefsOf(tree, n, scope) == RefsOf(tree, n.init, d) + RefsOf(tree, n.update, d) + RefsOf(tree, n.test, n.loop) +
          RefsOf(tree, n.body_, n.loop)
      ensures var d := tree[n.loop].declScope.value;
        SupersOf(tree, n, scope) == SupersOf(tree, n.init, d) + SupersOf(tree, n.update, d) +
          SupersOf(tree, n.test, n.loop) + SupersOf(tree, n.body_, n.loop)
    {
      ForUpdateApart(n, lexes);
      ForEntered(lexes, n.loop, ForUpdateLoops(n));
    }

    lemma ForUpdateInTurn(n: Ast, lexes: set<ScopeId>, refs: Refs)
      requires n.ForUpdate? && Given()
      requires Placed(n, scope, lexes) && Ready(tree, State(arena, ledger), lexes + {scope}, LoopsOf(tree, n))
      ensures n.loop < |tree| && tree[n.loop].declScope.Some?
      ensures var d := tree[n.loop].declScope.value;
        var r1, r2 := RefsOf(tree, n.init, d), RefsOf(tree, n.update, d);
        var r3, r4 := RefsOf(tree, n.test, n.loop), RefsOf(tree, n.body_, n.loop);
        Fits(refs + RefsOf(tree, n, scope), LoopsOf(tree, n)) <==>
        && Fits(refs + r1, LoopsOf(tree, n.init)) && Fits(refs + r1 + r2, LoopsOf(tree, n.update))
        && Fits(refs + r1 + r2 + r3, LoopsOf(tree, n.test)) && Fits(refs + r1 + r2 + r3 + r4, LoopsOf(tree, n.body_))
        && Fits(refs + r1 + r2 + r3 + r4, {d, n.loop})
    {
      hide *;
      ForUpdateMeans(n, lexes);
      ForUpdateAvoids(n, lexes);
      var d := tree[n.loop].declScope.value;
      FourInTurn(refs, RefsOf(tree, n.init, d), RefsOf(tree, n.update, d), RefsOf(tree, n.test, n.loop),
                 RefsOf(tree, n.body_, n.loop),
                 LoopsOf(tree, n.init), LoopsOf(tree, n.update), LoopsOf(tree, n.test), LoopsOf(tree, n.body_),
                 {d, n.loop});
    }

    lemma ForUpdateAvoids(n: Ast, lexes: set<ScopeId>)
      requires n.ForUpdate?
      requires Placed(n, scope, lexes) && Ready(tree, State(arena, ledger), lexes + {scope}, LoopsOf(tree, n))
      ensures n.loop < |tree| && tree[n.loop].declScope.Some?
      ensures var l, d := n.loop, tree[n.loop].declScope.value;
        var l1, l2, l3 := LoopsOf(tree, n.init), LoopsOf(tree, n.update), LoopsOf(tree, n.test);
        && LoopsWhole(tree, l1) && LoopsWhole(tree, l1 + l2) && LoopsWhole(tree, l1 + l2 + l3)
        && Avoids(tree, RefsOf(tree, n.update, d), l1) && Avoids(tree, RefsOf(tree, n.test, l), l1 + l2)
        && Avoids(tree, RefsOf(tree, n.body_, l), l1 + l2 + l3)
    {
      hide *;
      ForUpdateMeans(n, lexes);
      var l, d := n.loop, tree[n.loop].declScope.value;
      var pair, ls := {d, l}, ForUpdateLoops(n);
      var l1, l2, l3 := LoopsOf(tree, n.init), LoopsOf(tree, n.update), LoopsOf(tree, n.test);
      PartWhole(n.init, d, pair);
      PartWhole(n.update, d, {l});
      PartWhole(n.test, l, {l});
      BothWhole(l1, l2);
      BothWhole(l1 + l2, l3);
      NextAvoids(n.update, d, {l}, pair, ls, l1);
      NextAvoids(n.test, l, {l}, pair, ls, l1 + l2);
      NextAvoids(n.body_, l, {l}, pair, ls, l1 + l2 + l3);
    }

    /** Four parts that follow one another, and then the loop around them with the scopes `pair`. */
    lemma FourInTurn(refs: Refs, r1: Refs, r2: Refs, r3: Refs, r4: Refs,
                     l1: set<ScopeId>, l2: set<ScopeId>, l3: set<ScopeId>, l4: set<ScopeId>, pair: set<ScopeId>)
      requires Given() && LoopsWhole(tree, l1) && LoopsWhole(tree, l1 + l2) && LoopsWhole(tree, l1 + l2 + l3)
      requires Avoids(tree, r2, l1) && Avoids(tree, r3, l1 + l2) && Avoids(tree, r4, l1 + l2 + l3)
      ensures Fits(refs + (r1 + r2 + r3 + r4), l1 + l2 + l3 + l4 + pair) <==>
        && Fits(refs + r1, l1) && Fits(refs + r1 + r2, l2) && Fits(refs + r1 + r2 + r3, l3)
        && Fits(refs + r1 + r2 + r3 + r4, l4) && Fits(refs + r1 + r2 + r3 + r4, pair)
    {
      hide *;
      FitInTurn(refs + r1, r2, l1, l2);
      FitInTurn(refs + r1 + r2, r3, l1 + l2, l3);
      FitInTurn(refs + r1 + r2 + r3, r4, l1 + l2 + l3, l4);
      FitsBoth(refs + r1 + r2 + r3 + r4, l1 + l2 + l3 + l4, pair);
      assert refs + (r1 + r2 + r3 + r4) == refs + r1 + r2 + r3 + r4;
    }

    /** The same with three parts. */
    lemma ThreeInTurn(refs: Refs, r1: Refs, r2: Refs, r3: Refs, l1: set<ScopeId>, l2: set<ScopeId>, l3: set<ScopeId>,
                      pair: set<ScopeId>)
      requires Given() && LoopsWhole(tree, l1) && LoopsWhole(tree, l1 + l2) && Avoids(tree, r2, l1)
      requires Avoids(tree, r3, l1 + l2)
      ensures Fits(refs + (r1 + r2 + r3), l1 + l2 + l3 + pair) <==>
        && Fits(refs + r1, l1) && Fits(refs + r1 + r2, l2) && Fits(refs + r1 + r2 + r3, l3)
        && Fits(refs + r1 + r2 + r3, pair)
    {
      hide *;
      FitInTurn(refs + r1, r2, l1, l2);
      FitInTurn(refs + r1 + r2, r3, l1 + l2, l3);
      FitsBoth(refs + r1 + r2 + r3, l1 + l2 + l3, pair);
      assert refs + (r1 + r2 + r3) == refs + r1 + r2 + r3;
    }

    lemma FitsBoth(refs: Refs, ls: set<ScopeId>, more: set<ScopeId>)
      requires Given()
      ensures Fits(refs, ls + more) <==> Fits(refs, ls) && Fits(refs, more)
    {
      assert forall l {:trigger l in ls} :: l in ls ==> l in ls + more;
      assert forall l {:trigger l in more} :: l in more ==> l in ls + more;
    }

    lemma BothWhole(ls: set<ScopeId>, more: set<ScopeId>)
      requires LoopsWhole(tree, ls) && LoopsWhole(tree, more)
      ensures LoopsWhole(tree, ls + more)
    {
    }

    /** A part of a `for` loop with the scopes `pair`, after the parts with the loops `fewer`. */
    lemma NextAvoids(n: Ast, cur: ScopeId, lexes: set<ScopeId>, pair: set<ScopeId>, ls: set<ScopeId>,
                     fewer: set<ScopeId>)
      requires Placed(n, cur, lexes) && Ready(tree, State(arena, ledger), pair, ls) && lexes + {cur} <= pair
      requires fewer <= ls && fewer !! LoopsOf(tree, n) && LoopsWhole(tree, fewer)
      ensures Avoids(tree, RefsOf(tree, n, cur), fewer)
    {
      ApartFrom(pair, ls, fewer);
      PartAvoids(n, cur, lexes, pair, fewer);
    }

    ghost function ForUpdateLoops(n: Ast): (ls: set<ScopeId>)
      requires n.ForUpdate?
      ensures ls == LoopsOf(tree, n.init) + LoopsOf(tree, n.update) + LoopsOf(tree, n.test) + LoopsOf(tree, n.body_)
    {
      LoopsOf(tree, n.init) + LoopsOf(tree, n.update) + LoopsOf(tree, n.test) + LoopsOf(tree, n.body_)
    }

    lemma ForUpdateApart(n: Ast, lexes: set<ScopeId>)
      requires n.ForUpdate? && Placed(n, scope, lexes)
      ensures ForPlaced(n.loop, lexes) && NotAround(tree, n.loop, ForUpdateLoops(n))
      ensures LoopsOf(tree, n) == ForUpdateLoops(n) + {tree[n.loop].declScope.value, n.loop}
      ensures tree[n.loop].declScope.value !in ForUpdateLoops(n) && n.loop !in ForUpdateLoops(n)
    {
      ForUpdateParts(n, lexes);
      HeadAndBody(n.loop, lexes);
      ForUpdateIs(n);
      hide WellScoped, LoopsOf, Placed, ForPlaced, Around;
      var d := tree[n.loop].declScope.value;
      LoopsApart(tree, n.init, {d, n.loop}, n.loop);
      LoopsApart(tree, n.update, {n.loop}, n.loop);
      LoopsApart(tree, n.test, {n.loop}, n.loop);
      LoopsApart(tree, n.body_, {n.loop}, n.loop);
      NoneAround(n.loop, d, ForUpdateLoops(n));
    }

    lemma ForUpdateParts(n: Ast, lexes: set<ScopeId>)
      requires n.ForUpdate? && Placed(n, scope, lexes)
      ensures ForPlaced(n.loop, lexes)
      ensures var d := tree[n.loop].declScope.value;
        && Around(tree, {d, n.loop}) && Around(tree, {n.loop})
        && WellScoped(tree, n.init, {d, n.loop}) && WellScoped(tree, n.update, {n.loop})
        && WellScoped(tree, n.test, {n.loop}) && WellScoped(tree, n.body_, {n.loop})
    {
    }

    lemma ForUpdateIs(n: Ast)
      requires n.ForUpdate? && n.loop < |tree| && tree[n.loop].declScope.Some?
      ensures LoopsOf(tree, n) == ForUpdateLoops(n) + {tree[n.loop].declScope.value, n.loop}
      ensures ForUpdateLoops(n) ==
        LoopsOf(tree, n.init) + LoopsOf(tree, n.update) + LoopsOf(tree, n.test) + LoopsOf(tree, n.body_)
    {
    }

    lemma HeadAndBody(l: ScopeId, lexes: set<ScopeId>)
      requires ForPlaced(l, lexes)
      ensures var d := tree[l].declScope.value;
        Around(tree, {d, l}) && Around(tree, {l}) && d in Chain(tree, l) && l in Chain(tree, l)
    {
      assert Chain(tree, l) == [l] + Chain(tree, tree[l].declScope.value);
    }

    lemma NoneAround(l: ScopeId, d: ScopeId, ls: set<ScopeId>)
      requires TreeOk(tree) && l < |tree| && NotAround(tree, l, ls) && d in Chain(tree, l) && l in Chain(tree, l)
      ensures d !in ls && l !in ls
    {
    }

    ghost predicate ForPlaced(l: ScopeId, lexes: set<ScopeId>) {
      Around(tree, lexes) && ForScopes(tree, l, lexes)
    }

    lemma ForEntered(lexes: set<ScopeId>, l: ScopeId, ls: set<ScopeId>)
      requires ForPlaced(l, lexes)
      requires Ready(tree, State(arena, ledger), lexes + {scope}, ls + {tree[l].declScope.value, l})
      requires NotAround(tree, l, ls)
      ensures Ready(tree, State(arena, ledger), {tree[l].declScope.value, l}, ls)
    {
      var d := tree[l].declScope.value;
      Narrow(tree, State(arena, ledger), lexes + {scope}, ls + {d, l}, lexes, ls + {d, l});
      assert forall k {:trigger k in ls} :: k in ls ==> k in ls + {d, l};
    }

    /** The end of a for loop, whose parts with the loops `ls` have taken the analysis from `st0` here. */
    method ConvertLoopScope(l: ScopeId, ghost lexes: set<ScopeId>, ghost st0: State, ghost ls: set<ScopeId>,
                            ghost pair: set<ScopeId>)
      returns (ok: bool)
      requires Valid() && Tracked() && ForPlaced(l, lexes) && pair == {tree[l].declScope.value, l}
      requires Advanced(st0, State(arena, ledger), ls) && Ready(tree, State(arena, ledger), pair, {})
      modifies `arena, `ledger, `initScope
      ensures ok ==> Valid() && Tracked() && Advanced(st0, State(arena, ledger), ls + pair)
      ensures ok <==> Fits(seen, pair)
    {
      hide *;
      ghost var st := State(arena, ledger);
      TrackedMeans();
      LoopMeans(l, lexes, pair);
      PairFits(l, lexes, pair);
      var d := arena.nodes[l].declScope.value;
      var init;
      ghost var copied, headDone;
      var converted: Arena;
      ghost var ledger': Ledger;
      ok, converted, ledger', init, copied, headDone := ConvertLoop(arena, ledger, seen, d, l);
      if ok {
        ConvertedMeans(st, State(converted, ledger'), copied, headDone, d, l, pair);
        AdvancedTransitive(st0, st, State(converted, ledger'), ls, pair, ls + pair);
        Take(converted, ledger');
        if init.Some? {
          initScope := initScope[d := init.value];
        }
      }
    }

    /** The condition of the assertion, on the arena and on the references. */
    lemma PairFits(l: ScopeId, lexes: set<ScopeId>, pair: set<ScopeId>)
      requires Tracked() && ForPlaced(l, lexes) && pair == {tree[l].declScope.value, l}
      requires Ready(tree, State(arena, ledger), pair, {})
      requires ArenaOk(arena) && l < |arena.nodes|
      ensures var d := tree[l].declScope.value;
        && arena.Has(l) && arena.Has(d)
        && (Fits(seen, pair) <==> (HasCapturedLet(arena, l) ==> CapturedNames(arena, d) != {}))
    {
      hide ListsOk, ParamsDeclared;
      var d := tree[l].declScope.value;
      assert d in pair && l in pair;
      LoopReads(parsed, arena, seen, l);
      LoopReads(parsed, arena, seen, d);
      hide LetReached, DeclReached, HasCapturedLet, CapturedNames, Tracks;
      assert LoopFits(parsed, seen, d);
      assert LoopsFit(parsed, seen, pair) <==> LoopFits(parsed, seen, l);
    }

    lemma LoopMeans(l: ScopeId, lexes: set<ScopeId>, pair: set<ScopeId>)
      requires Valid() && ForPlaced(l, lexes) && pair == {tree[l].declScope.value, l}
      requires Ready(tree, State(arena, ledger), pair, {})
      ensures l < |tree| <= |arena.nodes| && arena.nodes[l] == tree[l] && arena.nodes[l].declScope.Some?
      ensures Good(State(arena, ledger), seen) && IsForLoop(State(arena, ledger), tree[l].declScope.value, l)
      ensures ArenaOk(arena)
    {
      assert l in pair;
      OpenIsForLoop(tree, State(arena, ledger), l, lexes);
    }

    lemma ConvertedMeans(st: State, st': State, copied: Arena, headDone: Arena, d: ScopeId, l: ScopeId,
                         pair: set<ScopeId>)
      requires Valid() && Tracked() && st == State(arena, ledger) && IsForLoop(st, d, l) && Good(st', seen)
      requires Later(st, st') && pair == {d, l}
      requires HeadConverted(st.a, copied, headDone, d, l) && ArenaOk(headDone) && headDone.Has(d) && headDone.Has(l)
      requires BodyConverted(headDone, st'.a, d, l)
      ensures Advanced(st, st', pair) && Grown(tree, st') && Tracks(parsed, st'.a, seen)
      ensures ParamsDeclared(parsed, st'.a, seen)
    {
      ConversionLeavesParams(parsed, st.a, st'.a, copied, headDone, d, l, seen);
      ConversionTracks(parsed, st, st', seen, copied, headDone, d, l);
      ConversionAdvances(st, copied, headDone, st', d, l);
      StaysGrown(tree, st, st', pair);
    }

    method Take(a: Arena, ghost g: Ledger)
      requires Valid() && Good(State(a, g), seen) && Grown(tree, State(a, g))
      modifies `arena, `ledger
      ensures Valid() && arena == a && ledger == g
      ensures Given() && Tracks(parsed, a, seen) && ParamsDeclared(parsed, a, seen) ==> Tracked()
    {
      arena := a;
      ledger := g;
    }

    method BuildForInOfLoop(n: Ast, ghost lexes: set<ScopeId>) returns (ok: bool)
      requires n.ForInOf?
      requires Valid() && Tracked() && Placed(n, scope, lexes)
      requires Ready(tree, State(arena, ledger), lexes + {scope}, LoopsOf(tree, n))
      modifies `arena, `ledger, `seen, `scopeFlags, `initScope, `scope, `functionScopes
      ensures ok ==>
        && Valid() && Tracked() && scope == old(scope)
        && Advanced(old(State(arena, ledger)), State(arena, ledger), LoopsOf(tree, n))
      ensures ok ==>
        functionScopes == old(functionScopes) + FunctionsOf(n) && seen == old(seen) + RefsOf(tree, n, scope)
      ensures ok ==> Supers() == old(Supers()) + SupersOf(tree, n, scope)
      ensures ok <==> Fits(old(seen) + RefsOf(tree, n, old(scope)), LoopsOf(tree, n))
      decreases n, 3
    {
      hide *;
      ghost var st0 := State(arena, ledger);
      ghost var inRight, inLeft, inBody := LoopsOf(tree, n.right), LoopsOf(tree, n.left), LoopsOf(tree, n.body_);
      ghost var ls := inRight + inLeft + inBody;
      TrackedMeans();
      ForInOfMeans(n, lexes);
      ForInOfInTurn(n, lexes, seen);
      var d := arena.nodes[n.loop].declScope.value;
      ghost var around := {d, n.loop};
      JoinedFour(Supers(), SupersOf(tree, n.right, d), SupersOf(tree, n.left, d), SupersOf(tree, n.body_, n.loop), {});
      ok := ResolveAt(n.right, d, around, around, ls);
      if !ok { return; }
      ghost var st1 := State(arena, ledger);
      ok := ResolveAt(n.left, d, around, around, ls - inRight);
      if !ok { return; }
      ghost var st2 := State(arena, ledger);
      AdvancedTransitive(st0, st1, st2, inRight, inLeft, ls);
      ok := ResolveAt(n.body_, n.loop, {n.loop}, around, ls - inRight - inLeft);
      if !ok { return; }
      AdvancedTransitive(st0, st2, State(arena, ledger), ls, inBody, ls);
      assert ls - inRight - inLeft - inBody == {};
      ok := ConvertLoopScope(n.loop, lexes, st0, ls, around);
    }

    lemma ForInOfMeans(n: Ast, lexes: set<ScopeId>)
      requires n.ForInOf?
      requires Placed(n, scope, lexes) && Ready(tree, State(arena, ledger), lexes + {scope}, LoopsOf(tree, n))
      ensures n.loop < |tree| <= |arena.nodes| && arena.nodes[n.loop] == tree[n.loop] && ForPlaced(n.loop, lexes)
      ensures arena.nodes[n.loop].declScope.Some?
      ensures var d, ls := tree[n.loop].declScope.value, ForInOfLoops(n);
        && LoopsOf(tree, n) == ls + {d, n.loop} && ls !! {d, n.loop}
        && Ready(tree, State(arena, ledger), {d, n.loop}, ls)
      ensures LoopsOf(tree, n.right) !! LoopsOf(tree, n.left) !! LoopsOf(tree, n.body_)
      ensures var d := tree[n.loop].declScope.value;
        Placed(n.right, d, {d, n.loop}) && Placed(n.left, d, {d, n.loop}) && Placed(n.body_, n.loop, {n.loop})
      ensures FunctionsOf(n) == FunctionsOf(n.right) + FunctionsOf(n.left) + FunctionsOf(n.body_)
      ensures var d := tree[n.loop].declScope.value;
        && RefsOf(tree, n, scope) == RefsOf(tree, n.right, d) + RefsOf(tree, n.left, d) + RefsOf(tree, n.body_, n.loop)
        && SupersOf(tree, n, scope) ==
             SupersOf(tree, n.right, d) + SupersOf(tree, n.left, d) + SupersOf(tree, n.body_, n.loop)
    {
      ForInOfApart(n, lexes);
      ForEntered(lexes, n.loop, ForInOfLoops(n));
    }

    lemma ForInOfInTurn(n: Ast, lexes: set<ScopeId>, refs: Refs)
      requires n.ForInOf? && Given()
      requires Placed(n, scope, lexes) && Ready(tree, State(arena, ledger), lexes + {scope}, LoopsOf(tree, n))
      ensures n.loop < |tree| && tree[n.loop].declScope.Some?
      ensures var d := tree[n.loop].declScope.value;
        var r1, r2, r3 := RefsOf(tree, n.right, d), RefsOf(tree, n.left, d), RefsOf(tree, n.body_, n.loop);
        Fits(refs + RefsOf(tree, n, scope), LoopsOf(tree, n)) <==>
        && Fits(refs + r1, LoopsOf(tree, n.right)) && Fits(refs + r1 + r2, LoopsOf(tree, n.left))
        && Fits(refs + r1 + r2 + r3, LoopsOf(tree, n.body_)) && Fits(refs + r1 + r2 + r3, {d, n.loop})
    {
      hide *;
      ForInOfMeans(n, lexes);
      var l, d := n.loop, tree[n.loop].declScope.value;
      var pair, ls := {d, l}, ForInOfLoops(n);
      var l1, l2 := LoopsOf(tree, n.right), LoopsOf(tree, n.left);
      PartWhole(n.right, d, pair);
      PartWhole(n.left, d, pair);
      BothWhole(l1, l2);
      NextAvoids(n.left, d, pair, pair, ls, l1);
      NextAvoids(n.body_, l, {l}, pair, ls, l1 + l2);
      ThreeInTurn(refs, RefsOf(tree, n.right, d), RefsOf(tree, n.left, d), RefsOf(tree, n.body_, l), l1, l2,
                  LoopsOf(tree, n.body_), pair);
    }

    ghost function ForInOfLoops(n: Ast): (ls: set<ScopeId>)
      requires n.ForInOf?
      ensures ls == LoopsOf(tree, n.right) + LoopsOf(tree, n.left) + LoopsOf(tree, n.body_)
    {
      LoopsOf(tree, n.right) + LoopsOf(tree, n.left) + LoopsOf(tree, n.body_)
    }

    lemma ForInOfApart(n: Ast, lexes: set<ScopeId>)
      requires n.ForInOf? && Placed(n, scope, lexes)
      ensures ForPlaced(n.loop, lexes) && NotAround(tree, n.loop, ForInOfLoops(n))
      ensures LoopsOf(tree, n) == ForInOfLoops(n) + {tree[n.loop].declScope.value, n.loop}
      ensures tree[n.loop].declScope.value !in ForInOfLoops(n) && n.loop !in ForInOfLoops(n)
    {
      ForInOfParts(n, lexes);
      HeadAndBody(n.loop, lexes);
      ForInOfIs(n);
      hide WellScoped, LoopsOf, Placed, ForPlaced, Around;
      var d := tree[n.loop].declScope.value;
      LoopsApart(tree, n.right, {d, n.loop}, n.loop);
      LoopsApart(tree, n.left, {d, n.loop}, n.loop);
      LoopsApart(tree, n.body_, {n.loop}, n.loop);
      NoneAround(n.loop, d, ForInOfLoops(n));
    }

    lemma ForInOfParts(n: Ast, lexes: set<ScopeId>)
      requires n.ForInOf? && Placed(n, scope, lexes)
      ensures ForPlaced(n.loop, lexes)
      ensures var d := tree[n.loop].declScope.value;
        && Around(tree, {d, n.loop}) && Around(tree, {n.loop})
        && WellScoped(tree, n.right, {d, n.loop}) && WellScoped(tree, n.left, {d, n.loop})
        && WellScoped(tree, n.body_, {n.loop})
    {
    }

    lemma ForInOfIs(n: Ast)
      requires n.ForInOf? && n.loop < |tree| && tree[n.loop].declScope.Some?
      ensures LoopsOf(tree, n) == ForInOfLoops(n) + {tree[n.loop].declScope.value, n.loop}
      ensures ForInOfLoops(n) == LoopsOf(tree, n.right) + LoopsOf(tree, n.left) + LoopsOf(tree, n.body_)
    {
    }

    // ---- Mandatory parameters.

    /** All functions have been found, and none has its mandatory parameters. */
    ghost predicate AllFound(fs: seq<ScopeId>)
      reads `arena, `ledger
    {
      && TreeOk(tree) && TopsOk(tree) && OuterFirst(tree, fs)
      && (forall i {:trigger fs[i]} :: 0 <= i < |fs| ==> IsFunctionType(tree[fs[i]].class_))
      && (forall i, j :: 0 <= i < j < |fs| ==> fs[i] != fs[j])
    }

    /** The first `i` functions have been served; `rest` are the parameters all had in the beginning. */
    ghost predicate Stage(fs: seq<ScopeId>, supers: set<ScopeId>, rest: map<ScopeId, seq<VariableId>>, i: nat)
      reads `arena, `ledger, `seen, `scopeFlags, `functionScopes, `params
    {
      && Valid() && functionScopes == fs && AllFound(fs) && i <= |fs| && Supers() == supers
      && NamesBound(arena, tree, supers, fs[..i]) && ServedUpTo(arena, fs, supers, rest, params, i)
    }

    ghost predicate ServedUpTo(a: Arena, fs: seq<ScopeId>, supers: set<ScopeId>, rest: map<ScopeId, seq<VariableId>>,
                               now: map<ScopeId, seq<VariableId>>, i: nat)
      requires TreeOk(tree) && OuterFirst(tree, fs) && i <= |fs|
    {
      forall j {:trigger fs[j]} :: 0 <= j < |fs| ==>
        if j < i then Served(a, tree, supers, fs[j], Had(rest, fs[j]), Had(now, fs[j]))
          else Had(now, fs[j]) == Had(rest, fs[j])
    }

    function Had(lists: map<ScopeId, seq<VariableId>>, f: ScopeId): seq<VariableId> {
      if f in lists then lists[f] else []
    }

    method AddMandatoryParams()
      requires Valid() && AllFound(functionScopes) && NamesBound(arena, tree, Supers(), [])
      modifies `arena, `ledger, `params, `scopeFlags, `scope
      ensures functionScopes == old(functionScopes) && scope == old(scope) && seen == old(seen)
      ensures Stage(functionScopes, old(Supers()), old(params), |functionScopes|)
      ensures Later(old(State(arena, ledger)), State(arena, ledger)) && LeavesOthers(old(arena), arena)
    {
      hide *;
      ghost var fs, supers, rest, st0 := functionScopes, Supers(), params, State(arena, ledger);
      FirstStage();
      LaterReflexive(st0);
      LeavesReflexive(st0.a);
      var i := 0;
      while i < |functionScopes|
        invariant 0 <= i <= |functionScopes| && functionScopes == fs
        invariant Stage(fs, supers, rest, i)
        invariant Later(st0, State(arena, ledger)) && LeavesOthers(st0.a, arena) && scope == old(scope)
      {
        ghost var st1 := State(arena, ledger);
        ServeNext(fs, supers, rest, i);
        LaterTransitive(st0, st1, State(arena, ledger));
        LeavesTransitive(st0.a, st1.a, arena);
        i := i + 1;
      }
    }

    lemma FirstStage()
      requires Valid() && AllFound(functionScopes) && NamesBound(arena, tree, Supers(), [])
      ensures Stage(functionScopes, Supers(), params, 0)
    {
    }

    method ServeNext(ghost fs: seq<ScopeId>, ghost supers: set<ScopeId>, ghost rest: map<ScopeId, seq<VariableId>>,
                     i: nat)
      requires i < |fs| && Stage(fs, supers, rest, i) && functionScopes == fs
      modifies `arena, `ledger, `params, `scopeFlags, `scope
      ensures Stage(fs, supers, rest, i + 1)
      ensures Later(old(State(arena, ledger)), State(arena, ledger)) && LeavesOthers(old(arena), arena)
      ensures scope == old(scope)
    {
      hide *;
      var prev := scope;
      var f := functionScopes[i];
      scope := f;
      StageMeans(fs, supers, rest, i);
      var lexicalFunctionObject := false;
      if arena.nodes[f].kind == Arrow {
        lexicalFunctionObject := UseConstructor(fs, supers, rest, i, f);
        StageMeans(fs, supers, rest, i);
      }
      var a, ps;
      ghost var g;
      a, g, ps := ServeFunction(arena, ledger, seen, tree, supers, fs, i, f, lexicalFunctionObject, Had(params, f));
      Put(fs, supers, rest, i, a, g, ps);
      scope := prev;
    }

    lemma StageMeans(fs: seq<ScopeId>, supers: set<ScopeId>, rest: map<ScopeId, seq<VariableId>>, i: nat)
      requires i < |fs| && Stage(fs, supers, rest, i)
      ensures fs[i] < |tree| <= |arena.nodes| && arena.nodes[fs[i]] == tree[fs[i]] && TreeOk(tree)
      ensures Good(State(arena, ledger), seen) && NextFunction(State(arena, ledger), tree, supers, fs, i)
      ensures Had(params, fs[i]) == Had(rest, fs[i])
    {
    }

    /** What the two functions have in common is what `f` passes on: its constructor learns of it. */
    method UseConstructor(ghost fs: seq<ScopeId>, ghost supers: set<ScopeId>, ghost rest: map<ScopeId, seq<VariableId>>,
                          ghost i: nat,
                          f: ScopeId)
      returns (lexicalFunctionObject: bool)
      requires i < |fs| && Stage(fs, supers, rest, i) && fs[i] == f < |arena.nodes| && arena.nodes[f].kind == Arrow
      modifies `scopeFlags
      ensures Stage(fs, supers, rest, i) && f < |tree| && TreeOk(tree)
      ensures lexicalFunctionObject == PassesSuper(tree, supers, f)
      ensures lexicalFunctionObject ==>
        SetLexicalFunction in FlagsOf(Nearest(tree, f, NonArrows(tree)).value)
    {
      StageMeans(fs, supers, rest, i);
      SameNearest(f);
      var ctor := FindConstructor(arena.nodes, f);
      lexicalFunctionObject := false;
      // The flag is set on functions with an `arguments` of their own only, so there is nothing to look up for it.
      assert UseArgs !in FlagsOf(f);
      if ctor.Some? && UseSuper in FlagsOf(f) {
        InnerArrowIsKnown(fs, f);
        assert InnerArrow in FlagsOf(ctor.value);
        MarkConstructor(fs, supers, rest, i, ctor.value);
        lexicalFunctionObject := true;
      }
    }

    method MarkConstructor(ghost fs: seq<ScopeId>, ghost supers: set<ScopeId>,
                           ghost rest: map<ScopeId, seq<VariableId>>, ghost i: nat,
                           ctor: ScopeId)
      requires Stage(fs, supers, rest, i)
      modifies `scopeFlags
      ensures Stage(fs, supers, rest, i) && SetLexicalFunction in FlagsOf(ctor)
    {
      AddScopeFlag(ctor, SetLexicalFunction);
      assert Supers() == supers;
    }

    lemma SameNearest(f: ScopeId)
      requires Valid() && f < |tree|
      ensures TreeOk(arena.nodes) && f < |arena.nodes|
      ensures Nearest(arena.nodes, f, NonArrows(arena.nodes)) == Nearest(tree, f, NonArrows(tree))
      ensures forall s: nat :: s < |tree| ==> arena.nodes[s] == tree[s]
    {
      assert NonArrows(arena.nodes) == NonArrows(tree);
      NearestKept(tree, arena.nodes, f, NonArrows(tree));
    }

    /** Some arrow lies right inside the function that serves `f`. */
    lemma InnerArrowIsKnown(fs: seq<ScopeId>, f: ScopeId)
      requires Valid() && functionScopes == fs && AllFound(fs) && f in fs && f < |tree| && tree[f].kind == Arrow
      ensures Nearest(tree, f, NonArrows(tree)).Some? ==> InnerArrow in FlagsOf(Nearest(tree, f, NonArrows(tree)).value)
      decreases f
    {
      var o := OuterFunction(tree, f);
      if tree[f].parent.Some? {
        var p := tree[f].parent.value;
        NearestFromFunction(tree, p);
        if tree[o].kind == Arrow {
          OuterIsFound(fs, f, o);
          InnerArrowIsKnown(fs, o);
        }
      }
    }

    lemma OuterIsFound(fs: seq<ScopeId>, f: ScopeId, o: ScopeId)
      requires TreeOk(tree) && AllFound(fs) && f in fs && f < |tree| && tree[f].parent.Some?
      requires o == OuterFunction(tree, f)
      ensures o in fs && o < f
    {
      var i :| 0 <= i < |fs| && fs[i] == f;
      assert OuterBefore(tree, fs, i);
      FunctionEncloses(tree, tree[f].parent.value);
      assert Chain(tree, f) == [f] + Chain(tree, tree[f].parent.value);
      assert o in Chain(tree, fs[i]);
    }

    /** The results for function `i` become the state of the binder. */
    method Put(ghost fs: seq<ScopeId>, ghost supers: set<ScopeId>, ghost rest: map<ScopeId, seq<VariableId>>, i: nat,
               a: Arena, ghost g: Ledger, ps: seq<VariableId>)
      requires i < |fs| && Stage(fs, supers, rest, i) && functionScopes == fs && fs[i] < |tree| && TreeOk(tree)
      requires Good(State(a, g), seen) && Later(State(arena, ledger), State(a, g)) && g.initOf == ledger.initOf
      requires a.nodes == arena.nodes && a.loopType == arena.loopType && BindingsStay(arena, a)
      requires LeavesOthers(arena, a)
      requires NamesBound(a, tree, supers, fs[..i + 1]) && Served(a, tree, supers, fs[i], Had(rest, fs[i]), ps)
      modifies `arena, `ledger, `params
      ensures Stage(fs, supers, rest, i + 1)
      ensures Later(old(State(arena, ledger)), State(arena, ledger)) && LeavesOthers(old(arena), arena)
    {
      ghost var st0 := State(arena, ledger);
      ServedMore(st0, State(a, g), fs, supers, rest, params, i, ps);
      assert Grown(tree, State(a, g));
      Take(a, g);
      params := params[functionScopes[i] := ps];
    }

    lemma ServedMore(st: State, st': State, fs: seq<ScopeId>, supers: set<ScopeId>, rest: map<ScopeId, seq<VariableId>>,
                     now: map<ScopeId, seq<VariableId>>, i: nat, ps: seq<VariableId>)
      requires AllFound(fs) && i < |fs| && ServedUpTo(st.a, fs, supers, rest, now, i)
      requires Later(st, st') && BindingsStay(st.a, st'.a) && Served(st'.a, tree, supers, fs[i], Had(rest, fs[i]), ps)
      ensures ServedUpTo(st'.a, fs, supers, rest, now[fs[i] := ps], i + 1)
    {
      forall j {:trigger fs[j]} | 0 <= j < i
        ensures Served(st'.a, tree, supers, fs[j], Had(rest, fs[j]), Had(now, fs[j])) && fs[j] != fs[i]
      {
        ServedKept(st, st', tree, supers, fs[j], Had(rest, fs[j]), Had(now, fs[j]));
      }
    }

    // ---- The whole phase.

    constructor (arena: Arena, topScope: ScopeId, ghost ledger: Ledger)
      ensures this.arena == arena && this.topScope == topScope && this.ledger == ledger && parsed == arena
      ensures tree == arena.nodes
      ensures scope == topScope && functionScopes == [] && scopeFlags == map[] && params == map[] && seen == {}
    {
      this.arena, this.topScope, this.scope := arena, topScope, topScope;
      this.functionScopes, this.scopeFlags, this.params, this.initScope := [], map[], map[], map[];
      this.parsed, this.tree, this.ledger, this.seen := arena, arena.nodes, ledger, {};
    }

    /**
     * After the analysis, the slots are in order, every reference that leaves its function ends at a variable
     * in an environment, and every function has its parameters and every arrow its `this`.
     */
    method IdentifierAnalysis(ast: Ast) returns (ok: bool)
      requires Parsed(State(arena, ledger), topScope, ast) && parsed == arena && tree == arena.nodes
      requires scope == topScope && functionScopes == [] && scopeFlags == map[] && seen == {}
      modifies this
      ensures ok ==>
        functionScopes == [topScope] + FunctionsOf(ast) && seen == RefsOf(tree, ast, topScope) && scope == topScope
      ensures ok ==> Supers() == SupersOf(tree, ast, topScope)
      ensures ok ==> Stage(functionScopes, Supers(), old(params), |functionScopes|)
      ensures ok ==>
        Later(old(State(arena, ledger)), State(arena, ledger)) && ArenaOk(parsed) && |parsed.vars| <= |arena.vars|
      ensures ok ==> Exact(parsed, arena, seen) && Retained(parsed, arena) && ArgumentsMarked()
      ensures ok <==> Fits(RefsOf(tree, ast, topScope), LoopsOf(tree, ast))
    {
      hide *;
      ghost var st0 := State(arena, ledger);
      Begins(ast);
      assert {} + RefsOf(tree, ast, topScope) == RefsOf(tree, ast, topScope);
      assert {} + SupersOf(tree, ast, topScope) == SupersOf(tree, ast, topScope);
      BuildFunction(topScope);
      ok := ResolveReference(ast, {topScope});
      if ok {
        ghost var st1 := State(arena, ledger);
        AllIsFound(st0, ast);
        TracksNow();
        ghost var supers := Supers();
        AddMandatoryParams();
        LaterTransitive(st0, st1, State(arena, ledger));
        SupersStay(functionScopes, supers, old(params), |functionScopes|);
        StaysExact(st1.a, arena);
        StaysRetained(st1.a, arena);
      }
    }

    lemma Begins(ast: Ast)
      requires Parsed(State(arena, ledger), topScope, ast) && parsed == arena && tree == arena.nodes
      requires scope == topScope && functionScopes == [] && scopeFlags == map[] && seen == {}
      ensures Valid() && Tracked() && topScope < |tree| && tree[topScope].kind != Arrow && Supers() == {}
      ensures Placed(ast, topScope, {topScope})
      ensures Ready(tree, State(arena, ledger), {topScope} + {scope}, LoopsOf(tree, ast))
    {
      ParsedIsReady(State(arena, ledger), topScope, ast);
      HomesAreUnshared(State(arena, ledger));
      ListsAreOk(State(arena, ledger));
      assert {topScope} + {scope} == {topScope};
    }

    lemma AllIsFound(st0: State, ast: Ast)
      requires Parsed(st0, topScope, ast) && tree == st0.a.nodes && Valid()
      requires Advanced(st0, State(arena, ledger), LoopsOf(tree, ast))
      requires functionScopes == [topScope] + FunctionsOf(ast)
      ensures NoMandatoryNames(arena) && AllFound(functionScopes) && NamesBound(arena, tree, Supers(), [])
      ensures Later(st0, State(arena, ledger))
    {
      ParsedIsOrdered(st0, topScope, ast);
      ParsedFunctions(st0, topScope, ast);
      assert NoMandatoryNames(arena);
      forall s {:trigger arena.bindings[s]} | 0 <= s < |arena.bindings|
        ensures forall n :: n in MANDATORY_NAMES ==> n !in arena.bindings[s]
      {
        assert arena.bindings[s].Keys !! MANDATORY_NAMES;
      }
    }

    lemma TracksNow()
      requires Tracked()
      ensures Given() && Tracks(parsed, arena, seen)
    {
    }

    /** Serving the functions captures none of the parser's variables. */
    lemma StaysExact(a: Arena, a': Arena)
      requires Given() && Tracks(parsed, a, seen) && NoMandatoryNames(a) && LeavesOthers(a, a')
      ensures ArenaOk(parsed) && |parsed.vars| <= |a'.vars| && Exact(parsed, a', seen)
    {
      forall s, n {:trigger n in a.bindings[s]} | 0 <= s < |a.bindings| && n in a.bindings[s]
        ensures n !in MANDATORY_NAMES
      {
        assert a.bindings[s].Keys !! MANDATORY_NAMES;
      }
      assert NamesAbove(a, |parsed.vars|);
      assert NamesAbove(a', |parsed.vars|) && SameBelow(a, a', |parsed.vars|);
    }

    lemma StaysRetained(a: Arena, a': Arena)
      requires Given() && Tracks(parsed, a, seen) && LeavesOthers(a, a') && ArenaOk(a')
      ensures Retained(parsed, a')
    {
      forall t, n {:trigger n in a'.bindings[t]} |
          0 <= t < |parsed.nodes| && Open(a', t) && n !in MANDATORY_NAMES && n != FUNCTION_ARGUMENTS
        ensures n in a'.bindings[t] <==> n in parsed.bindings[t]
        ensures n in a'.bindings[t] ==> a'.bindings[t][n] == parsed.bindings[t][n]
      {
        OpenKept(a', a, t);
        assert Alike(parsed, a, t);
      }
    }

    lemma StageMeansInv(fs: seq<ScopeId>, supers: set<ScopeId>, rest: map<ScopeId, seq<VariableId>>)
      requires Stage(fs, supers, rest, |fs|)
      ensures Inv(State(arena, ledger)) && ParamScopesOk(arena.nodes) && tree <= arena.nodes
      ensures TreeOk(tree) && NamesBound(arena, tree, supers, fs)
    {
      assert fs[..|fs|] == fs;
    }

    lemma SupersStay(fs: seq<ScopeId>, supers: set<ScopeId>, rest: map<ScopeId, seq<VariableId>>, i: nat)
      requires Stage(fs, supers, rest, i)
      ensures Supers() == supers && fs == functionScopes && ArenaOk(arena) && ArenaOk(parsed) && ArgumentsMarked()
    {
    }

    method BuildFunction(f: ScopeId)
      requires Valid() && f < |tree| && tree[f].kind != Arrow
      modifies `functionScopes
      ensures Valid() && functionScopes == old(functionScopes) + [f]
      ensures old(Tracked()) ==> Tracked()
    {
      functionScopes := functionScopes + [f];
    }
  }
}
