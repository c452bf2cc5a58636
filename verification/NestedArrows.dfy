/** An arrow with `super` that takes the arrow around it for its function object. */
module NestedArrows {
  import opened Scopes
  import opened Slots
  import opened SyntaxTree
  import opened References
  import opened ArgumentsObject
  import opened Captures
  import opened Tracking
  import opened Progress
  import opened MandatoryParams
  import opened Analysis
  import P = Programs

  // The program is: (class extends A { constructor() { () => { () => super(); }; } });

  const TOP: ScopeId := 0
  const CLASS: ScopeId := 1
  const CTOR: ScopeId := 3
  const OUTER_ARROW: ScopeId := 5
  const INNER_ARROW: ScopeId := 7

  const NODES: seq<ScopeNode> := [
    ScopeNode(Global, None, Plain, None, None, None),
    ScopeNode(Local, Some(TOP), Plain, None, None, None),
    ScopeNode(FunctionParam, Some(CLASS), DerivedConstructor, None, None, Some(CTOR)),
    ScopeNode(Function, Some(2), DerivedConstructor, None, Some(2), None),
    ScopeNode(FunctionParam, Some(CTOR), Arrow, None, None, Some(OUTER_ARROW)),
    ScopeNode(Function, Some(4), Arrow, None, Some(4), None),
    ScopeNode(FunctionParam, Some(OUTER_ARROW), Arrow, None, None, Some(INNER_ARROW)),
    ScopeNode(Function, Some(6), Arrow, None, Some(6), None)]

  const ARENA := Arena(NODES, [map[], map[], map[], map[], map[], map[], map[], map[]], [0, 0, 0, 0, 0, 0, 0, 0],
                       [Local, Local, Local, Local, Local, Local, Local, Local], [])

  const LEDGER := Ledger([], map[], map[], map[TOP := [], CTOR := [], OUTER_ARROW := [], INNER_ARROW := []])

  const CALLS_SUPER := ScriptFunction(INNER_ARROW, [], [Super])
  const AROUND_IT := ScriptFunction(OUTER_ARROW, [], [CALLS_SUPER])
  const CONSTRUCTOR := ScriptFunction(CTOR, [], [AROUND_IT])
  const PROGRAM := Scoped(CLASS, [Reference("A")] + [CONSTRUCTOR])

  const REFS: Refs := {(CLASS, "A")}

  // ---- The scopes are ones that the parser makes.

  lemma ScopesAreBound()
    ensures ArenaOk(ARENA) && BindingsOk(State(ARENA, LEDGER)) && Untouched(State(ARENA, LEDGER))
  {
    hide BindingsOk, Untouched, ArenaOk;
    ScopesAreWhole();
    NothingIsBound();
    NothingIsCaptured();
  }

  lemma ScopesAreWhole()
    ensures ArenaOk(ARENA)
  {
  }

  lemma NothingIsBound()
    requires ArenaOk(ARENA)
    ensures BindingsOk(State(ARENA, LEDGER))
  {
  }

  lemma NothingIsCaptured()
    requires ArenaOk(ARENA)
    ensures Untouched(State(ARENA, LEDGER))
  {
    assert LEDGER.owners == map s: nat | s < |NODES| && IsFunctionType(NODES[s].class_) :: [];
  }

  lemma NodesFit()
    ensures ParamScopesOk(NODES) && TopsOk(NODES) && NoMandatoryNames(ARENA)
  {
  }

  lemma NameIsOrdinary()
    ensures "A" !in MANDATORY_NAMES
  {
    assert |"A"| == 1;
  }

  lemma FunctionsLie()
    ensures P.FunctionIn(NODES, CTOR, {CLASS}) && P.FunctionIn(NODES, OUTER_ARROW, {CTOR})
    ensures P.FunctionIn(NODES, INNER_ARROW, {OUTER_ARROW}) && Around(NODES, {TOP}) && Around(NODES, {CLASS})
  {
  }

  /** A function without parameters around one other part. */
  lemma OneFunction(f: ScopeId, p: ScopeId, n: Ast, lexes: set<ScopeId>, cur: ScopeId, fs: seq<ScopeId>,
                    supers: set<ScopeId>)
    requires P.FunctionIn(NODES, f, lexes) && NODES[f].parent == Some(p)
    requires P.Has(NODES, n, {f}, f, P.Contents(fs, {}, supers))
    ensures P.Has(NODES, ScriptFunction(f, [], [n]), lexes, cur, P.Contents([f] + fs, {}, supers))
  {
    P.None(NODES, {p}, p);
    hide P.Has, P.AllHave, P.FunctionIn;
    P.Only(NODES, n, {f}, f, P.Contents(fs, {}, supers));
    P.Function(NODES, f, [], [n], lexes, cur, P.NOTHING, P.Contents(fs, {}, supers));
    assert P.Contents([f], {}, {}).And(P.NOTHING).And(P.Contents(fs, {}, supers)) == P.Contents([f] + fs, {}, supers);
  }

  lemma ProgramHas()
    ensures P.Has(NODES, PROGRAM, {TOP}, TOP, P.Contents([CTOR, OUTER_ARROW, INNER_ARROW], REFS, {INNER_ARROW}))
  {
    hide P.Has, P.AllHave;
    FunctionsLie();
    NameIsOrdinary();
    var supers := {INNER_ARROW};
    assert [INNER_ARROW] + [] == [INNER_ARROW] && [OUTER_ARROW] + [INNER_ARROW] == [OUTER_ARROW, INNER_ARROW];
    assert [CTOR] + [OUTER_ARROW, INNER_ARROW] == [CTOR, OUTER_ARROW, INNER_ARROW];
    P.SuperCall(NODES, {INNER_ARROW}, INNER_ARROW);
    OneFunction(INNER_ARROW, 6, Super, {OUTER_ARROW}, OUTER_ARROW, [], supers);
    OneFunction(OUTER_ARROW, 4, CALLS_SUPER, {CTOR}, CTOR, [INNER_ARROW], supers);
    OneFunction(CTOR, 2, AROUND_IT, {CLASS}, CLASS, [OUTER_ARROW, INNER_ARROW], supers);
    P.Name(NODES, "A", {CLASS}, CLASS);
    var name, ctor := P.Contents([], REFS, {}), P.Contents([CTOR, OUTER_ARROW, INNER_ARROW], {}, supers);
    P.Only(NODES, CONSTRUCTOR, {CLASS}, CLASS, ctor);
    P.First(NODES, Reference("A"), [CONSTRUCTOR], {CLASS}, CLASS, name, ctor);
    P.InScope(NODES, CLASS, [Reference("A")] + [CONSTRUCTOR], {TOP}, TOP, name.And(ctor));
    assert name.And(ctor) == P.Contents([CTOR, OUTER_ARROW, INNER_ARROW], REFS, supers);
  }

  lemma ProgramIsParsed()
    ensures Parsed(State(ARENA, LEDGER), TOP, PROGRAM)
    ensures RefsOf(NODES, PROGRAM, TOP) == REFS && LoopsOf(NODES, PROGRAM) == {}
    ensures FunctionsOf(PROGRAM) == [CTOR, OUTER_ARROW, INNER_ARROW] && SupersOf(NODES, PROGRAM, TOP) == {INNER_ARROW}
  {
    hide BindingsOk, Untouched, WellScoped;
    ProgramHas();
    ScopesAreBound();
    NodesFit();
  }

  // ---- What the analysis makes of them.

  /** The inner arrow passes `super` on for the constructor, and takes the outer arrow for its function object. */
  lemma OuterArrowIsTaken()
    ensures TreeOk(NODES) && PassesSuper(NODES, {INNER_ARROW}, INNER_ARROW)
    ensures Nearest(NODES, INNER_ARROW, NonArrows(NODES)) == Some(CTOR)
    ensures Nearest(NODES, INNER_ARROW, FunctionObjects(NODES, {INNER_ARROW})) == Some(OUTER_ARROW)
  {
    var ns := NonArrows(NODES);
    assert Nearest(NODES, CTOR, ns) == Some(CTOR);
    assert Nearest(NODES, OUTER_ARROW, ns) == Nearest(NODES, 4, ns) == Some(CTOR);
    assert Nearest(NODES, INNER_ARROW, ns) == Nearest(NODES, 6, ns) == Some(CTOR);
    var os := FunctionObjects(NODES, {INNER_ARROW});
    assert OUTER_ARROW in os && INNER_ARROW !in os && 6 !in os;
    assert Nearest(NODES, 6, os) == Some(OUTER_ARROW);
  }

  /** After the analysis, a lookup of the function object from the inner arrow ends at the outer one. */
  lemma FunctionObjectFound(a: Arena)
    requires ArenaOk(a) && NODES <= a.nodes
    requires Declared(a, MANDATORY_PARAM_FUNC, FunctionObjects(NODES, {INNER_ARROW}),
                      [TOP, CTOR, OUTER_ARROW, INNER_ARROW])
    ensures Holder(a, INNER_ARROW, MANDATORY_PARAM_FUNC) == Some(OUTER_ARROW)
  {
    var os := FunctionObjects(NODES, {INNER_ARROW});
    OuterArrowIsTaken();
    assert OUTER_ARROW in os && INNER_ARROW !in os;
    assert a.nodes[INNER_ARROW] == NODES[INNER_ARROW] && a.nodes[6] == NODES[6];
    assert MANDATORY_PARAM_FUNC !in a.bindings[INNER_ARROW] && MANDATORY_PARAM_FUNC !in a.bindings[6];
    assert MANDATORY_PARAM_FUNC in a.bindings[OUTER_ARROW];
    assert Holder(a, 6, MANDATORY_PARAM_FUNC) == Some(OUTER_ARROW);
  }

  /** What code generation finds for the call of `super` is the function object of the outer arrow. */
  method AnalyseProgram() returns (ok: bool, found: FindResult)
    ensures ok && found.Found? && found.scope == OUTER_ARROW
  {
    hide LoopsFit, RefsOf, LoopsOf, FunctionsOf, SupersOf, Parsed, Exact, Retained, Inv, ParamScopesOk, FindIn, Chain;
    hide FunctionObjects, NonArrows, Declared;
    ProgramIsParsed();
    NoLoops();
    var binder := new Binder(ARENA, TOP, LEDGER);
    ok := binder.IdentifierAnalysis(PROGRAM);
    binder.StageMeansInv(binder.functionScopes, binder.Supers(), map[]);
    var a := binder.arena;
    assert binder.functionScopes == [TOP, CTOR, OUTER_ARROW, INNER_ARROW];
    InvIsOk(State(a, binder.ledger));
    FunctionObjectFound(a);
    FindIsHolder(a, INNER_ARROW, MANDATORY_PARAM_FUNC);
    found := Find(a, INNER_ARROW, MANDATORY_PARAM_FUNC);
  }

  lemma NoLoops()
    ensures ArenaOk(ARENA) && LoopsFit(ARENA, REFS, {})
  {
    ScopesAreBound();
  }
}
