/** A hop count from a parameter list that leads to the wrong environment. */
module ParameterHops {
  import opened Scopes
  import opened Slots
  import opened SyntaxTree
  import opened References
  import opened ArgumentsObject
  import opened Captures
  import opened Tracking
  import opened Progress
  import opened MandatoryParams
  import opened Analysis
  import opened Environments
  import opened ParameterReferences
  import P = Programs

  // The program is: (function () { let x; () => x; (function (a = x, b) { () => b; }); });

  const TOP: ScopeId := 0
  const NO_PARAMS: ScopeId := 1
  const OUTER: ScopeId := 2
  const ARROW: ScopeId := 4
  const LIST: ScopeId := 5
  const INNER: ScopeId := 6
  const INNER_ARROW: ScopeId := 8

  const NODES: seq<ScopeNode> := [
    ScopeNode(Global, None, Plain, None, None, None),
    ScopeNode(FunctionParam, Some(TOP), Plain, None, None, Some(OUTER)),
    ScopeNode(Function, Some(NO_PARAMS), Plain, None, Some(NO_PARAMS), None),
    ScopeNode(FunctionParam, Some(OUTER), Arrow, None, None, Some(ARROW)),
    ScopeNode(Function, Some(3), Arrow, None, Some(3), None),
    ScopeNode(FunctionParam, Some(OUTER), Plain, None, None, Some(INNER)),
    ScopeNode(Function, Some(LIST), Plain, None, Some(LIST), None),
    ScopeNode(FunctionParam, Some(INNER), Arrow, None, None, Some(INNER_ARROW)),
    ScopeNode(Function, Some(7), Arrow, None, Some(7), None)]

  const X: VariableId := 0
  const A: VariableId := 1
  const B: VariableId := 2

  const ARENA := Arena(NODES,
                       [map[], map[], map["x" := X], map[], map[], map["a" := A, "b" := B], map["a" := A, "b" := B],
                        map[], map[]],
                       [0, 0, 0, 0, 0, 0, 0, 0, 0], [Local, Local, Local, Local, Local, Local, Local, Local, Local],
                       [NewLocal(Decl(Let, "x"), {}), NewLocal(Decl(Param, "a"), {}), NewLocal(Decl(Param, "b"), {})])

  const LEDGER := Ledger([OUTER, INNER, INNER], map[], map[],
                         map[TOP := [], OUTER := [], ARROW := [], INNER := [], INNER_ARROW := []])

  const READS_X := ScriptFunction(ARROW, [], [Reference("x")])
  const READS_B := ScriptFunction(INNER_ARROW, [], [Reference("b")])
  const PARAMETERS: seq<Ast> := [Reference("a")] + ([Reference("x")] + [Reference("b")])
  const WITH_LIST := ScriptFunction(INNER, PARAMETERS, [READS_B])
  const PROGRAM := ScriptFunction(OUTER, [], [READS_X] + [WITH_LIST])

  const REFS: Refs := {(ARROW, "x"), (LIST, "a"), (LIST, "x"), (LIST, "b"), (INNER_ARROW, "b")}

  // ---- The scopes are ones that the parser makes.

  lemma ScopesAreWhole()
    ensures ArenaOk(ARENA)
  {
  }

  lemma VariablesAreBound()
    requires ArenaOk(ARENA)
    ensures BindingsOk(State(ARENA, LEDGER))
  {
    forall s: ScopeId {:trigger ScopeOk(State(ARENA, LEDGER), s)} | s < |NODES|
      ensures ScopeOk(State(ARENA, LEDGER), s)
    {
      ScopeIsBound(s);
    }
  }

  lemma ScopeIsBound(s: ScopeId)
    requires ArenaOk(ARENA) && s < |NODES|
    ensures ScopeOk(State(ARENA, LEDGER), s)
  {
  }

  lemma NothingIsCaptured()
    requires ArenaOk(ARENA)
    ensures Untouched(State(ARENA, LEDGER))
  {
    assert LEDGER.owners == map s: nat | s < |NODES| && IsFunctionType(NODES[s].class_) :: [];
  }

  lemma NamesAreOrdinary()
    ensures "a" !in MANDATORY_NAMES && "b" !in MANDATORY_NAMES && "x" !in MANDATORY_NAMES
    ensures FUNCTION_ARGUMENTS !in {"a", "b", "x"}
  {
    assert |"a"| == |"b"| == |"x"| == 1;
  }

  lemma NodesFit()
    ensures ParamScopesOk(NODES) && TopsOk(NODES) && NoMandatoryNames(ARENA)
  {
    NamesAreOrdinary();
  }

  lemma FunctionsLie()
    ensures P.FunctionIn(NODES, OUTER, {TOP}) && P.FunctionIn(NODES, ARROW, {OUTER})
    ensures P.FunctionIn(NODES, INNER, {OUTER}) && P.FunctionIn(NODES, INNER_ARROW, {INNER})
  {
  }

  /** An arrow without parameters that reads one name. */
  lemma ArrowReads(f: ScopeId, p: ScopeId, name: string, lexes: set<ScopeId>, cur: ScopeId)
    requires P.FunctionIn(NODES, f, lexes) && NODES[f].parent == Some(p) && name !in MANDATORY_NAMES
    ensures P.Has(NODES, ScriptFunction(f, [], [Reference(name)]), lexes, cur, P.Contents([f], {(f, name)}, {}))
  {
    hide P.Has, P.AllHave;
    P.None(NODES, {p}, p);
    P.Name(NODES, name, {f}, f);
    P.Only(NODES, Reference(name), {f}, f, P.Contents([], {(f, name)}, {}));
    P.Function(NODES, f, [], [Reference(name)], lexes, cur, P.NOTHING, P.Contents([], {(f, name)}, {}));
    assert P.Contents([f], {}, {}).And(P.NOTHING).And(P.Contents([], {(f, name)}, {})) ==
      P.Contents([f], {(f, name)}, {});
  }

  lemma ListReads()
    ensures Around(NODES, {LIST})
    ensures P.AllHave(NODES, PARAMETERS, {LIST}, LIST, P.Contents([], {(LIST, "a"), (LIST, "x"), (LIST, "b")}, {}))
  {
    hide P.Has, P.AllHave;
    FunctionsLie();
    NamesAreOrdinary();
    P.Name(NODES, "a", {LIST}, LIST);
    P.Name(NODES, "x", {LIST}, LIST);
    P.Name(NODES, "b", {LIST}, LIST);
    var a := P.Contents([], {(LIST, "a")}, {});
    var x := P.Contents([], {(LIST, "x")}, {});
    var b := P.Contents([], {(LIST, "b")}, {});
    P.Only(NODES, Reference("b"), {LIST}, LIST, b);
    P.First(NODES, Reference("x"), [Reference("b")], {LIST}, LIST, x, b);
    P.First(NODES, Reference("a"), [Reference("x")] + [Reference("b")], {LIST}, LIST, a, x.And(b));
    assert a.And(x.And(b)) == P.Contents([], {(LIST, "a"), (LIST, "x"), (LIST, "b")}, {});
  }

  lemma ProgramHas()
    ensures P.Has(NODES, PROGRAM, {TOP}, TOP, P.Contents([OUTER, ARROW, INNER, INNER_ARROW], REFS, {}))
  {
    hide P.Has, P.AllHave, P.FunctionIn;
    FunctionsLie();
    NamesAreOrdinary();
    var list := P.Contents([], {(LIST, "a"), (LIST, "x"), (LIST, "b")}, {});
    var readsX, readsB := P.Contents([ARROW], {(ARROW, "x")}, {}), P.Contents([INNER_ARROW], {(INNER_ARROW, "b")}, {});
    ArrowReads(ARROW, 3, "x", {OUTER}, OUTER);
    ArrowReads(INNER_ARROW, 7, "b", {INNER}, INNER);
    ListReads();
    P.Only(NODES, READS_B, {INNER}, INNER, readsB);
    P.Function(NODES, INNER, PARAMETERS, [READS_B], {OUTER}, OUTER, list, readsB);
    var withList := P.Contents([INNER], {}, {}).And(list).And(readsB);
    P.Only(NODES, WITH_LIST, {OUTER}, OUTER, withList);
    P.First(NODES, READS_X, [WITH_LIST], {OUTER}, OUTER, readsX, withList);
    NothingBefore();
    P.Function(NODES, OUTER, [], [READS_X] + [WITH_LIST], {TOP}, TOP, P.NOTHING, readsX.And(withList));
    assert P.Contents([OUTER], {}, {}).And(P.NOTHING).And(readsX.And(withList)) ==
      P.Contents([OUTER, ARROW, INNER, INNER_ARROW], REFS, {});
  }

  lemma NothingBefore()
    ensures P.AllHave(NODES, [], {NO_PARAMS}, NO_PARAMS, P.NOTHING)
  {
    P.None(NODES, {NO_PARAMS}, NO_PARAMS);
  }

  lemma ProgramIsParsed()
    ensures Parsed(State(ARENA, LEDGER), TOP, PROGRAM)
    ensures RefsOf(NODES, PROGRAM, TOP) == REFS && LoopsOf(NODES, PROGRAM) == {}
  {
    hide BindingsOk, Untouched, WellScoped;
    ProgramHas();
    ScopesAreWhole();
    VariablesAreBound();
    NothingIsCaptured();
    NodesFit();
  }

  // ---- What the analysis makes of them.

  lemma BothCaptured()
    ensures ArenaOk(ARENA) && CapturedBy(ARENA, REFS, X) && CapturedBy(ARENA, REFS, B)
  {
    ScopesAreWhole();
    OuterArrowReaches();
    InnerArrowReaches();
    hide ReachesAcross;
    assert (ARROW, "x") in REFS && (INNER_ARROW, "b") in REFS;
  }

  lemma OuterArrowReaches()
    requires ArenaOk(ARENA)
    ensures ReachesAcross(ARENA, ARROW, "x", X)
  {
    assert Reach(ARENA, OUTER, "x") == Some(OUTER) && Reach(ARENA, 3, "x") == Some(OUTER);
    assert Reach(ARENA, ARROW, "x") == Some(OUTER);
    assert FunctionOf(NODES, ARROW) == ARROW && FunctionOf(NODES, OUTER) == OUTER;
  }

  lemma InnerArrowReaches()
    requires ArenaOk(ARENA)
    ensures ReachesAcross(ARENA, INNER_ARROW, "b", B)
  {
    assert Reach(ARENA, INNER, "b") == Some(INNER) && Reach(ARENA, 7, "b") == Some(INNER);
    assert Reach(ARENA, INNER_ARROW, "b") == Some(INNER);
    assert FunctionOf(NODES, INNER_ARROW) == INNER_ARROW && FunctionOf(NODES, INNER) == INNER;
  }

  lemma {:induction false} AlwaysOpen(a: Arena, s: ScopeId)
    requires ArenaOk(a) && NODES <= a.nodes && s < |NODES|
    ensures Open(a, s)
    decreases s
  {
    assert a.nodes[s] == NODES[s];
    if a.nodes[s].parent.Some? {
      AlwaysOpen(a, a.nodes[s].parent.value);
    }
  }

  /** Where the names of the parameter list are bound afterwards. */
  lemma NamesStay(a: Arena)
    requires Retained(ARENA, a)
    ensures |a.bindings| > INNER && "x" !in a.bindings[LIST]
    ensures "x" in a.bindings[OUTER] && a.bindings[OUTER]["x"] == X
    ensures "b" in a.bindings[LIST] && a.bindings[LIST]["b"] == B
  {
    NamesAreOrdinary();
    AlwaysOpen(a, LIST);
    AlwaysOpen(a, OUTER);
    assert "x" in a.bindings[LIST] <==> "x" in ARENA.bindings[LIST];
    assert "x" in a.bindings[OUTER] <==> "x" in ARENA.bindings[OUTER];
    assert "b" in a.bindings[LIST] <==> "b" in ARENA.bindings[LIST];
  }

  /** Both functions have an environment, and that of the inner one comes first. */
  lemma InnerComesFirst(st: State)
    requires Inv(st) && ParamScopesOk(st.a.nodes) && NODES <= st.a.nodes
    requires Retained(ARENA, st.a) && Exact(ARENA, st.a, REFS)
    ensures st.a.nodes[LIST] == NODES[LIST] && st.a.Has(INNER) && st.a.NeedLexEnv(INNER)
    ensures EnvironmentsInParameters(st.a, LIST) != [] && EnvironmentsInParameters(st.a, LIST)[0] == INNER
    ensures st.a.vars[X].Bound()
  {
    hide Inv, EnvironmentsOf, Retained, CapturedBy;
    InvIsOk(st);
    assert st.a.nodes[LIST] == NODES[LIST];
    NamesStay(st.a);
    BothCaptured();
    assert st.a.vars[X].Bound() && st.a.vars[B].Bound();
    ParameterSlot(st, LIST, "b");
  }

  lemma XIsFoundOutside(a: Arena)
    requires Retained(ARENA, a)
    ensures FindIn(a, Chain(a.nodes, LIST), "x") == Found(OUTER, 0, 0, X)
  {
    NamesStay(a);
    ListLiesIn(a);
    hide Retained, Chain;
    assert FindIn(a, Chain(a.nodes, OUTER), "x") == Found(OUTER, 0, 0, X);
  }

  lemma ListLiesIn(a: Arena)
    requires ArenaOk(a) && NODES <= a.nodes
    ensures a.nodes[LIST] == NODES[LIST] && Chain(a.nodes, LIST)[1..] == Chain(a.nodes, OUTER)
  {
    assert a.nodes[LIST] == NODES[LIST];
  }

  /** The initialiser of `a` is left to look for `x` in the environment of its own function instead of the outer one. */
  method AnalyseProgram() returns (ok: bool, found: FindResult, a: Arena)
    ensures ok && ArenaOk(a) && ParamScopesOk(a.nodes) && NODES <= a.nodes
    ensures found == FindIn(a, Chain(a.nodes, LIST), "x") == Found(OUTER, 0, 0, X) && X < |a.vars| && a.vars[X].Bound()
    ensures a.nodes[LIST] == NODES[LIST] && EnvironmentsInParameters(a, LIST) != []
    ensures EnvironmentsInParameters(a, LIST)[found.lexLevel] == INNER != OUTER
  {
    hide LoopsFit, RefsOf, LoopsOf, Parsed, Exact, Retained, Inv, ParamScopesOk, NamesBound;
    hide EnvironmentsInParameters, FindIn, Chain;
    ProgramIsParsed();
    NoLoops();
    ScopesAreWhole();
    var binder := new Binder(ARENA, TOP, LEDGER);
    ok := binder.IdentifierAnalysis(PROGRAM);
    binder.StageMeansInv(binder.functionScopes, binder.Supers(), map[]);
    a := binder.arena;
    InnerComesFirst(State(a, binder.ledger));
    XIsFoundOutside(a);
    found := Find(a, LIST, "x");
  }

  lemma NoLoops()
    ensures ArenaOk(ARENA) && LoopsFit(ARENA, REFS, {})
  {
    ScopesAreWhole();
  }
}
