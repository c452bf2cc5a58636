/** An initialiser of a parameter is left to read a register of another function. */
module InitialiserCapture {
  import opened Scopes
  import opened Slots
  import opened SyntaxTree
  import opened References
  import opened ArgumentsObject
  import opened Captures
  import opened Progress
  import opened MandatoryParams
  import opened Analysis
  import P = Programs

  // The program is: (function () { let x; (function (a = x) {}); });

  const TOP: ScopeId := 0
  const NO_PARAMS: ScopeId := 1
  const OUTER: ScopeId := 2
  const LIST: ScopeId := 3
  const INNER: ScopeId := 4

  const NODES: seq<ScopeNode> := [
    ScopeNode(Global, None, Plain, None, None, None),
    ScopeNode(FunctionParam, Some(TOP), Plain, None, None, Some(OUTER)),
    ScopeNode(Function, Some(NO_PARAMS), Plain, None, Some(NO_PARAMS), None),
    ScopeNode(FunctionParam, Some(OUTER), Plain, None, None, Some(INNER)),
    ScopeNode(Function, Some(LIST), Plain, None, Some(LIST), None)]

  const X: VariableId := 0
  const A: VariableId := 1

  const ARENA := Arena(NODES, [map[], map[], map["x" := X], map["a" := A], map["a" := A]], [0, 0, 0, 0, 0],
                       [Local, Local, Local, Local, Local],
                       [NewLocal(Decl(Let, "x"), {}), NewLocal(Decl(Param, "a"), {})])

  const LEDGER := Ledger([OUTER, INNER], map[], map[], map[TOP := [], OUTER := [], INNER := []])

  const PARAMETERS: seq<Ast> := [Reference("a")] + [Reference("x")]
  const CLOSURE := ScriptFunction(INNER, PARAMETERS, [])
  const PROGRAM := ScriptFunction(OUTER, [], [CLOSURE])

  /** The parameter's own name is looked up as well. */
  const REFS: Refs := {(LIST, "a"), (LIST, "x")}

  lemma ScopesAreBound()
    ensures ArenaOk(ARENA) && BindingsOk(State(ARENA, LEDGER)) && Untouched(State(ARENA, LEDGER))
  {
    hide BindingsOk, Untouched, ArenaOk;
    ScopesAreWhole();
    VariablesAreBound();
    NothingIsCaptured();
  }

  lemma ScopesAreWhole()
    ensures ArenaOk(ARENA)
  {
  }

  lemma VariablesAreBound()
    requires ArenaOk(ARENA)
    ensures BindingsOk(State(ARENA, LEDGER))
  {
    forall s: ScopeId {:trigger ScopeOk(State(ARENA, LEDGER), s)} | s < |NODES|
      ensures ScopeOk(State(ARENA, LEDGER), s)
    {
      ScopeIsBound(s);
    }
  }

  lemma ScopeIsBound(s: ScopeId)
    requires ArenaOk(ARENA) && s < |NODES|
    ensures ScopeOk(State(ARENA, LEDGER), s)
  {
  }

  lemma NothingIsCaptured()
    requires ArenaOk(ARENA)
    ensures Untouched(State(ARENA, LEDGER))
  {
    assert LEDGER.owners == map s: nat | s < |NODES| && IsFunctionType(NODES[s].class_) :: [];
  }

  lemma NodesFit()
    ensures ParamScopesOk(NODES) && TopsOk(NODES) && NoMandatoryNames(ARENA)
  {
    NamesAreOrdinary();
  }

  lemma NamesAreOrdinary()
    ensures "a" !in MANDATORY_NAMES && "x" !in MANDATORY_NAMES
  {
    assert |"a"| == |"x"| == 1;
  }

  lemma FunctionsLie()
    ensures P.FunctionIn(NODES, OUTER, {TOP}) && P.FunctionIn(NODES, INNER, {OUTER})
  {
  }

  lemma ListReads()
    ensures P.AllHave(NODES, PARAMETERS, {LIST}, LIST, P.Contents([], REFS, {}))
  {
    hide P.Has, P.AllHave;
    FunctionsLie();
    NamesAreOrdinary();
    P.Name(NODES, "a", {LIST}, LIST);
    P.Name(NODES, "x", {LIST}, LIST);
    var a, x := P.Contents([], {(LIST, "a")}, {}), P.Contents([], {(LIST, "x")}, {});
    P.Only(NODES, Reference("x"), {LIST}, LIST, x);
    P.First(NODES, Reference("a"), [Reference("x")], {LIST}, LIST, a, x);
    assert a.And(x) == P.Contents([], REFS, {});
  }

  lemma NothingElse()
    ensures P.AllHave(NODES, [], {NO_PARAMS}, NO_PARAMS, P.NOTHING) && P.AllHave(NODES, [], {INNER}, INNER, P.NOTHING)
  {
    P.None(NODES, {NO_PARAMS}, NO_PARAMS);
    P.None(NODES, {INNER}, INNER);
  }

  lemma ProgramHas()
    ensures P.Has(NODES, PROGRAM, {TOP}, TOP, P.Contents([OUTER, INNER], REFS, {}))
  {
    hide P.Has, P.AllHave, P.FunctionIn;
    FunctionsLie();
    ListReads();
    NothingElse();
    var list := P.Contents([], REFS, {});
    P.Function(NODES, INNER, PARAMETERS, [], {OUTER}, OUTER, list, P.NOTHING);
    var closure := P.Contents([INNER], {}, {}).And(list).And(P.NOTHING);
    P.Only(NODES, CLOSURE, {OUTER}, OUTER, closure);
    P.Function(NODES, OUTER, [], [CLOSURE], {TOP}, TOP, P.NOTHING, closure);
    assert P.Contents([OUTER], {}, {}).And(P.NOTHING).And(closure) == P.Contents([OUTER, INNER], REFS, {});
  }

  lemma ProgramIsParsed()
    ensures Parsed(State(ARENA, LEDGER), TOP, PROGRAM)
    ensures RefsOf(NODES, PROGRAM, TOP) == REFS && LoopsOf(NODES, PROGRAM) == {}
  {
    hide BindingsOk, Untouched, WellScoped;
    ProgramHas();
    ScopesAreBound();
    NodesFit();
  }

  /** The initialiser reaches the `x` around, runs in the inner function, and yet captures nothing. */
  lemma InitialiserReachesOut()
    ensures ArenaOk(ARENA) && Reach(ARENA, LIST, "x") == Some(OUTER) && ARENA.bindings[OUTER]["x"] == X
    ensures Runner(NODES, LIST) == INNER && Runner(NODES, OUTER) == OUTER
    ensures RefsOf(NODES, PROGRAM, TOP) == REFS && !CapturedBy(ARENA, REFS, X)
  {
    hide Parsed;
    ScopesAreBound();
    ProgramIsParsed();
    assert FunctionOf(NODES, OUTER) == OUTER && FunctionOf(NODES, LIST) == OUTER;
    assert Reach(ARENA, OUTER, "x") == Some(OUTER);
    assert Reach(ARENA, LIST, "x") == Some(OUTER) && Reach(ARENA, LIST, "a") == Some(LIST);
  }

  lemma NoLoops()
    ensures ArenaOk(ARENA) && LoopsFit(ARENA, REFS, {})
  {
    ScopesAreBound();
  }

  /** The analysis succeeds, with `x` still in a register of the outer function. */
  method AnalyseProgram() returns (ok: bool, bound: bool)
    ensures ok && !bound
  {
    hide LoopsFit, RefsOf, LoopsOf, Parsed, CapturedBy;
    ProgramIsParsed();
    NoLoops();
    InitialiserReachesOut();
    var binder := new Binder(ARENA, TOP, LEDGER);
    ok := binder.IdentifierAnalysis(PROGRAM);
    bound := binder.arena.vars[X].Bound();
  }
}
