/** The assertion in LoopScope::ConvertToVariableScope does not always hold. */
module LoopAssertion {
  import opened Scopes
  import opened Slots
  import opened SyntaxTree
  import opened ArgumentsObject
  import opened Captures
  import opened Progress
  import opened MandatoryParams
  import opened Analysis

  // The program is: for (;;) if (c) let y = () => y;

  const TOP: ScopeId := 0
  const HEAD: ScopeId := 1
  const BODY: ScopeId := 2
  const PARAMS: ScopeId := 3
  const ARROW: ScopeId := 4

  const NODES: seq<ScopeNode> := [
    ScopeNode(Global, None, Plain, None, None, None),
    ScopeNode(LoopDecl, Some(TOP), Plain, None, None, None),
    ScopeNode(Loop, Some(HEAD), Plain, Some(HEAD), None, None),
    ScopeNode(FunctionParam, Some(BODY), Arrow, None, None, Some(ARROW)),
    ScopeNode(Function, Some(PARAMS), Arrow, None, Some(PARAMS), None)]

  const ARENA := Arena(NODES, [map[], map[], map["y" := 0], map[], map[]], [0, 0, 0, 0, 0],
                       [Local, Local, Local, Local, Local],
                       [NewLocal(Decl(Let, "y"), {})])

  const LEDGER := Ledger([BODY], map[], map[], map[TOP := [], ARROW := []])

  const PROGRAM := ForUpdate(BODY, Other([]), Other([]), Other([]), ScriptFunction(ARROW, [], [Reference("y")]))

  lemma Chains()
    ensures TreeOk(NODES)
    ensures Chain(NODES, TOP) == [TOP] && Chain(NODES, HEAD) == [HEAD, TOP] && Chain(NODES, BODY) == [BODY, HEAD, TOP]
    ensures Chain(NODES, PARAMS) == [PARAMS, BODY, HEAD, TOP] && Chain(NODES, ARROW) == [ARROW, PARAMS, BODY, HEAD, TOP]
  {
    assert Chain(NODES, TOP) == [TOP];
    assert Chain(NODES, HEAD) == [HEAD] + Chain(NODES, TOP);
    assert Chain(NODES, BODY) == [BODY] + Chain(NODES, HEAD);
    assert Chain(NODES, PARAMS) == [PARAMS] + Chain(NODES, BODY);
    assert Chain(NODES, ARROW) == [ARROW] + Chain(NODES, PARAMS);
  }

  lemma Places()
    ensures TreeOk(NODES)
    ensures FunctionOf(NODES, TOP) == FunctionOf(NODES, HEAD) == FunctionOf(NODES, BODY) == TOP
    ensures FunctionOf(NODES, ARROW) == ARROW
    ensures LoopsAround(NODES, TOP) == {} && LoopsAround(NODES, HEAD) == {HEAD}
    ensures LoopsAround(NODES, BODY) == {HEAD, BODY}
  {
    assert LoopsAround(NODES, HEAD) == LoopsAround(NODES, TOP) + {HEAD};
    assert LoopsAround(NODES, BODY) == LoopsAround(NODES, HEAD) + {BODY};
  }

  lemma NothingScoped(lexes: set<ScopeId>)
    requires TreeOk(NODES) && Around(NODES, lexes)
    ensures LoopsOf(NODES, Other([])) == {} && FunctionsOf(Other([])) == [] && WellScoped(NODES, Other([]), lexes)
  {
  }

  lemma ClosureScoped()
    ensures TreeOk(NODES) && Around(NODES, {BODY})
    ensures var closure := ScriptFunction(ARROW, [], [Reference("y")]);
      LoopsOf(NODES, closure) == {} && FunctionsOf(closure) == [ARROW] && WellScoped(NODES, closure, {BODY})
  {
    assert "y" !in MANDATORY_NAMES by { assert |"y"| == 1; }
    var body := [Reference("y")];
    assert Around(NODES, {ARROW}) && Around(NODES, {PARAMS});
    assert body[1..] == [] && LoopsOfAll(NODES, []) == {} && AllWellScoped(NODES, [], {ARROW});
    assert LoopsOf(NODES, body[0]) == {} && LoopsOfAll(NODES, body) == {} && WellScoped(NODES, body[0], {ARROW});
    assert AllWellScoped(NODES, body, {ARROW});
    assert AllWellScoped(NODES, [], {PARAMS});
    assert FunctionsOfAll(body) == FunctionsOf(body[0]) + FunctionsOfAll(body[1..]);
  }

  lemma ProgramScoped()
    ensures TreeOk(NODES) && Around(NODES, {TOP}) && WellScoped(NODES, PROGRAM, {TOP})
    ensures FunctionsOf(PROGRAM) == [ARROW]
  {
    Chains();
    assert Around(NODES, {HEAD, BODY}) && Around(NODES, {TOP});
    NothingScoped({HEAD, BODY});
    NothingScoped({BODY});
    ClosureScoped();
    assert LoopsOf(NODES, PROGRAM) == {HEAD, BODY};
  }

  lemma ProgramIsParsed()
    ensures Parsed(State(ARENA, LEDGER), TOP, PROGRAM)
  {
    ProgramScoped();
    ScopesAreBound();
    NodesFit();
  }

  lemma NodesFit()
    ensures ParamScopesOk(NODES) && TopsOk(NODES) && NoMandatoryNames(ARENA)
  {
    assert "y" !in MANDATORY_NAMES by { assert |"y"| == 1; }
  }

  lemma ScopesAreBound()
    ensures ArenaOk(ARENA) && BindingsOk(State(ARENA, LEDGER)) && Untouched(State(ARENA, LEDGER))
  {
    hide BindingsOk, Untouched, ArenaOk;
    ScopesAreWhole();
    VariablesAreBound();
    NothingIsCaptured();
  }

  lemma ScopesAreWhole()
    ensures ArenaOk(ARENA)
  {
  }

  lemma VariablesAreBound()
    requires ArenaOk(ARENA)
    ensures BindingsOk(State(ARENA, LEDGER))
  {
  }

  lemma NothingIsCaptured()
    requires ArenaOk(ARENA)
    ensures Untouched(State(ARENA, LEDGER))
  {
    assert LEDGER.owners == map s: nat | s < |NODES| && IsFunctionType(NODES[s].class_) :: [];
  }

  lemma ReferencesOfProgram()
    ensures TreeOk(NODES) && RefsOf(NODES, PROGRAM, TOP) == {(ARROW, "y")} && LoopsOf(NODES, PROGRAM) == {HEAD, BODY}
  {
    Chains();
    var body := [Reference("y")];
    assert body[1..] == [] && RefsOfAll(NODES, [], ARROW) == {};
    assert RefsOf(NODES, body[0], ARROW) == {(ARROW, "y")} && RefsOfAll(NODES, body, ARROW) == {(ARROW, "y")};
    assert RefsOfAll(NODES, [], PARAMS) == {} && RefsOf(NODES, PROGRAM.body_, BODY) == {(ARROW, "y")};
    assert RefsOf(NODES, Other([]), HEAD) == {} && RefsOf(NODES, Other([]), BODY) == {};
    ClosureScoped();
    assert LoopsOf(NODES, Other([])) == {};
  }

  /** The closure captures the `let` of the body, and there is nothing in the head to be captured. */
  lemma ProgramDoesNotFit()
    ensures ArenaOk(ARENA) && !LoopsFit(ARENA, RefsOf(NODES, PROGRAM, TOP), LoopsOf(NODES, PROGRAM))
  {
    ScopesAreBound();
    Places();
    ReferencesOfProgram();
    var refs := {(ARROW, "y")};
    assert Reach(ARENA, BODY, "y") == Some(BODY);
    assert Reach(ARENA, PARAMS, "y") == Some(BODY);
    assert Reach(ARENA, ARROW, "y") == Some(BODY);
    assert ReachesAcross(ARENA, ARROW, "y", 0);
    assert (ARROW, "y") in refs && "y" in ARENA.bindings[BODY];
    assert LetReached(ARENA, refs, BODY);
    assert !DeclReached(ARENA, refs, HEAD);
    assert !LoopFits(ARENA, refs, BODY);
    assert BODY in LoopsOf(NODES, PROGRAM);
  }

  /** On this program, the analysis ends at the assertion. */
  method AnalyseProgram() returns (ok: bool)
    ensures !ok
  {
    hide LoopsFit, RefsOf, LoopsOf, Parsed;
    ProgramIsParsed();
    ProgramDoesNotFit();
    var binder := new Binder(ARENA, TOP, LEDGER);
    ok := binder.IdentifierAnalysis(PROGRAM);
  }
}
