/** Whole runs of the parser over nested scopes, and the binder that performs them. */
module DeclarationRuns {
  import opened Scopes
  import opened Slots
  import opened Redeclaration

  // ---- Runs.

  datatype Event = Enter(class_: ScopeType) | Leave | Declare(d: Decl)

  /** A script or module with nothing in it. */
  function Start(top: ScopeType): DeclState {
    DeclState(Arena([ScopeNode(top, None, Plain, None, None, None)], [map[]], [0], [Local], []), [[]], 0)
  }

  /** One step; it fails if a declaration is refused, or if the parser would not take the step. */
  ghost function Step(st: DeclState, e: Event): Option<DeclState> {
    if !Shape(st) || !CatchesOk(st.a.nodes) then
      None
    else
      match e
      case Enter(c) => if MayEnter(st, c) then Some(EnterScope(st, c)) else None
      case Leave => if st.a.nodes[st.scope].parent.Some? then Some(ExitScope(st)) else None
      case Declare(d) =>
        if MayDeclare(st, d) && DeclareIn(st.a, st.scope, d).Some?
          then Some(After(st, DeclareIn(st.a, st.scope, d).value, d)) else None
  }

  ghost function NotedIn(st: DeclState, g: DeclLedger, e: Event): DeclLedger
    requires DeclInv(st, g) && Step(st, e).Some?
  {
    match e
    case Declare(d) =>
      AcceptedKeepsInv(st, g, d);
      Noted(st, g, d, DeclareIn(st.a, st.scope, d).value)
    case _ => g
  }

  lemma StepKeeps(st: DeclState, g: DeclLedger, e: Event) returns (g': DeclLedger)
    requires DeclInv(st, g) && Step(st, e).Some?
    ensures g' == NotedIn(st, g, e)
    ensures DeclInv(Step(st, e).value, g') && Step(st, e).value.a.nodes[..1] == st.a.nodes[..1]
  {
    g' := NotedIn(st, g, e);
    match e
    case Enter(c) => EnterKeepsInv(st, g, c);
    case Leave => ExitKeepsInv(st, g);
    case Declare(d) => AcceptedKeepsInv(st, g, d);
  }

  ghost function Run(st: DeclState, es: seq<Event>): Option<DeclState>
    decreases |es|
  {
    if es == [] then Some(st) else if Step(st, es[0]).None? then None else Run(Step(st, es[0]).value, es[1..])
  }

  lemma {:induction false} RunKeeps(st: DeclState, g: DeclLedger, es: seq<Event>) returns (g': DeclLedger)
    requires DeclInv(st, g) && Run(st, es).Some?
    ensures DeclInv(Run(st, es).value, g') && Run(st, es).value.a.nodes[..1] == st.a.nodes[..1]
    decreases |es|
  {
    if es == [] {
      g' := g;
    } else {
      g' := StepKeeps(st, g, es[0]);
      g' := RunKeeps(Step(st, es[0]).value, g', es[1..]);
    }
  }

  lemma StartKeeps(top: ScopeType)
    requires IsTopType(top)
    ensures DeclInv(Start(top), DeclLedger([], {}))
  {
    var st := Start(top);
    NoNames();
    assert Shape(st) && CatchesOk(st.a.nodes) && Unshared(st.a, []);
    assert st.decls[0] == [];
    StartIsEmpty(top, st);
  }

  lemma StartIsEmpty(top: ScopeType, st: DeclState)
    requires IsTopType(top) && st == Start(top) && Shape(st) && CatchesOk(st.a.nodes)
    ensures Sound(st, DeclLedger([], {})) && ParamsSound(st) && BindingsFit(st) && VarsHoisted(st)
    ensures OpenMarked(st, DeclLedger([], {}))
  {
    NoNames();
    assert forall s {:trigger st.decls[s]} :: 0 <= s < |st.decls| ==> st.decls[s] == [];
  }

  /**
   * Section 14.2.1 of ECMA-262, for everything inside functions and modules: a block has no two lexical
   * declarations of a name, and none of a name that a `var` at or below the block declares.
   */
  ghost predicate NoClashes(st: DeclState)
    requires Shape(st)
  {
    && (forall s {:trigger st.decls[s]} :: 0 <= s < |st.decls| ==> UniqueLexical(st.a.nodes[s].class_, st.decls[s]))
    && (forall b, s {:trigger Encloses(st.a.nodes, b, s)} ::
          (&& 0 <= b < |st.decls| && 0 <= s < |st.decls| && Encloses(st.a.nodes, b, s)
           && st.a.nodes[FunctionOf(st.a.nodes, b)].class_ != Global) ==>
          LexicalNames(st.a.nodes[b].class_, st.decls[b]) !! VarNames(st.decls[s]))
  }

  /** The state after the first `k` steps. */
  ghost function StateAt(top: ScopeType, es: seq<Event>, k: nat): Option<DeclState>
    requires k <= |es|
  {
    Run(Start(top), es[..k])
  }

  lemma {:induction false} RunInTurn(st: DeclState, es: seq<Event>, more: seq<Event>)
    ensures Run(st, es + more) == if Run(st, es).None? then None else Run(Run(st, es).value, more)
    decreases |es|
  {
    if es == [] {
      assert es + more == more;
    } else {
      assert (es + more)[1..] == es[1..] + more;
      if Step(st, es[0]).Some? {
        RunInTurn(Step(st, es[0]).value, es[1..], more);
      }
    }
  }

  lemma StateFollows(top: ScopeType, es: seq<Event>, k: nat)
    requires k < |es| && Run(Start(top), es).Some?
    ensures StateAt(top, es, k).Some? && StateAt(top, es, k + 1) == Step(StateAt(top, es, k).value, es[k])
    ensures StateAt(top, es, k + 1).Some?
  {
    hide Step, Start;
    SplitAt(es, k);
    RunInTurn(Start(top), es[..k], es[k..]);
    RunInTurn(Start(top), es[..k + 1], es[k + 1..]);
    RunInTurn(Start(top), es[..k], [es[k]]);
    assert [es[k]][1..] == [];
  }

  lemma SplitAt(es: seq<Event>, k: nat)
    requires k < |es|
    ensures es[..k] + es[k..] == es && es[..k + 1] + es[k + 1..] == es && es[..k] + [es[k]] == es[..k + 1]
  {
  }

  /** A `var x` in this block would leave the variable of that name at the top of the script as it is, and unmarked. */
  ghost predicate LeftUnmarked(st: DeclState, x: string)
    requires Shape(st)
  {
    var f := FunctionOf(st.a.nodes, st.scope);
    f != st.scope && st.a.nodes[f].class_ == Global && Value(st.a, f, x).Some? && !Marked(Value(st.a, f, x).value)
  }

  /** Step `k` was a `var x` in the block `s` that went that way. */
  ghost predicate WentUnmarked(top: ScopeType, es: seq<Event>, k: nat, s: ScopeId, x: string) {
    && k < |es| && es[k] == Declare(Decl(Var, x)) && StateAt(top, es, k).Some?
    && var st := StateAt(top, es, k).value; Shape(st) && st.scope == s && LeftUnmarked(st, x)
  }

  ghost predicate Witnessed(top: ScopeType, es: seq<Event>, g: DeclLedger) {
    forall r {:trigger r in g.stale} :: r in g.stale ==> exists k: nat :: WentUnmarked(top, es, k, r.0, r.1)
  }

  /** What the ledger notes in one step. */
  lemma NotedMeans(st: DeclState, g: DeclLedger, d: Decl)
    requires DeclInv(st, g) && MayDeclare(st, d) && DeclareIn(st.a, st.scope, d).Some?
    ensures var a := DeclareIn(st.a, st.scope, d).value;
      && ArenaOk(a) && a.nodes == st.a.nodes
      && (Noted(st, g, d, a).stale == g.stale
          || (d.kind == Var && LeftUnmarked(st, d.name) && Noted(st, g, d, a).stale == g.stale + {(st.scope, d.name)}))
  {
    if IsFunctionType(st.a.nodes[st.scope].class_) {
      FunctionDeclares(st, g, d);
    } else if d.kind == Var {
      BlockVarDeclares(st, g, d);
    } else {
      BlockLexicalDeclares(st, g, d);
    }
  }

  lemma {:induction false} RunIsWitnessed(top: ScopeType, es: seq<Event>, k: nat) returns (g: DeclLedger)
    requires IsTopType(top) && Run(Start(top), es).Some? && k <= |es|
    ensures StateAt(top, es, k).Some? && DeclInv(StateAt(top, es, k).value, g) && Witnessed(top, es, g)
    decreases k
  {
    hide DeclInv, Step, Witnessed, NotedIn;
    if k == 0 {
      NothingNoted(top, es);
      StartKeeps(top);
      g := DeclLedger([], {});
    } else {
      var g0 := RunIsWitnessed(top, es, k - 1);
      StateFollows(top, es, k - 1);
      var st := StateAt(top, es, k - 1).value;
      g := StepKeeps(st, g0, es[k - 1]);
      StepWitnessed(top, es, k - 1, g0, g);
    }
  }

  lemma NothingNoted(top: ScopeType, es: seq<Event>)
    ensures Witnessed(top, es, DeclLedger([], {}))
  {
  }

  lemma StepWitnessed(top: ScopeType, es: seq<Event>, k: nat, g: DeclLedger, g': DeclLedger)
    requires k < |es| && StateAt(top, es, k).Some? && Witnessed(top, es, g)
    requires var st := StateAt(top, es, k).value;
      DeclInv(st, g) && Step(st, es[k]).Some? && g' == NotedIn(st, g, es[k])
    ensures Witnessed(top, es, g')
  {
    if es[k].Declare? {
      var st, d := StateAt(top, es, k).value, es[k].d;
      NotedMeans(st, g, d);
      if g'.stale != g.stale {
        assert d == Decl(Var, d.name);
        assert WentUnmarked(top, es, k, st.scope, d.name);
      }
    }
  }

  /** A lexical declaration of `x` in `b`, and a `var x` in `s`, at or below it. */
  ghost predicate Clash(st: DeclState, b: ScopeId, s: ScopeId, x: string)
    requires Shape(st)
  {
    && b < |st.decls| && s < |st.decls| && Encloses(st.a.nodes, b, s)
    && x in LexicalNames(st.a.nodes[b].class_, st.decls[b]) && x in VarNames(st.decls[s])
  }

  /** If a clash was let through, the top of the script had `x` bound without the mark when the `var` was declared. */
  lemma ClashesAtTop(top: ScopeType, es: seq<Event>, b: ScopeId, s: ScopeId, x: string)
    requires IsTopType(top) && Run(Start(top), es).Some?
    requires var st := Run(Start(top), es).value; Shape(st) && Clash(st, b, s, x)
    ensures exists k: nat :: WentUnmarked(top, es, k, s, x)
  {
    assert es[..|es|] == es;
    var g := RunIsWitnessed(top, es, |es|);
    var st := Run(Start(top), es).value;
    assert NoClash(st, g, b, s);
    assert (s, x) in g.stale;
  }

  /** A run in which no declaration was refused has no clash in a function or module. */
  lemma RunsAreSound(top: ScopeType, es: seq<Event>)
    requires IsTopType(top) && Run(Start(top), es).Some?
    ensures var st := Run(Start(top), es).value; Shape(st) && NoClashes(st) && CatchesOk(st.a.nodes) && ParamsSound(st)
  {
    StartKeeps(top);
    var g := RunKeeps(Start(top), DeclLedger([], {}), es);
    InvMeansSound(Run(Start(top), es).value, g);
  }

  lemma InvMeansSound(st: DeclState, g: DeclLedger)
    requires DeclInv(st, g)
    ensures NoClashes(st)
  {
    forall b, s {:trigger Encloses(st.a.nodes, b, s)} |
        && 0 <= b < |st.decls| && 0 <= s < |st.decls| && Encloses(st.a.nodes, b, s)
        && st.a.nodes[FunctionOf(st.a.nodes, b)].class_ != Global
      ensures LexicalNames(st.a.nodes[b].class_, st.decls[b]) !! VarNames(st.decls[s])
    {
      assert NoClash(st, g, b, s);
      EnclosedIsSame(st.a.nodes, b, s);
    }
  }

  // ---- At the top of a script.

  /** A `var` out of a block marks its variable, except where the top of the script has left it. */
  lemma VarMarks(st: DeclState, g: DeclLedger, x: string)
    requires DeclInv(st, g) && Step(st, Declare(Decl(Var, x))).Some? && !IsFunctionType(st.a.nodes[st.scope].class_)
    ensures var a := Step(st, Declare(Decl(Var, x))).value.a;
      ArenaOk(a) && a.nodes == st.a.nodes && MarkedIff(a, FunctionOf(st.a.nodes, st.scope), x, !LeftUnmarked(st, x))
  {
    BlockVarDeclares(st, g, Decl(Var, x));
    var f, d := FunctionOf(st.a.nodes, st.scope), Decl(Var, x);
    if x in st.a.bindings[f] && st.a.nodes[f].class_ == Global {
      InsertChanges(st.a, g.home, f, Variable(GlobalVariable, d, HOIST_VAR + {LexicalVar}, 0));
    }
  }

  ghost predicate MarkedIff(a: Arena, f: ScopeId, x: string, m: bool)
    requires ArenaOk(a) && f < |a.nodes|
  {
    Value(a, f, x).Some? && (Marked(Value(a, f, x).value) <==> m)
  }

  /** All states of the run are inside `b`. */
  ghost predicate StaysIn(st: DeclState, es: seq<Event>, b: ScopeId)
    decreases |es|
  {
    && Shape(st) && b in Chain(st.a.nodes, st.scope)
    && (es == [] || (Step(st, es[0]).Some? && StaysIn(Step(st, es[0]).value, es[1..], b)))
  }

  /** While a block is open, the variables of its function stay marked, and at the top of a script also unmarked. */
  lemma MarkStays(st: DeclState, g: DeclLedger, e: Event, b: ScopeId, x: string, m: bool)
    requires DeclInv(st, g) && Step(st, e).Some? && b in Chain(st.a.nodes, st.scope)
    requires !IsFunctionType(st.a.nodes[b].class_)
    requires MarkedIff(st.a, FunctionOf(st.a.nodes, b), x, m)
    requires (m || st.a.nodes[FunctionOf(st.a.nodes, b)].class_ == Global)
    ensures var a := Step(st, e).value.a;
      ArenaOk(a) && st.a.nodes <= a.nodes && MarkedIff(a, FunctionOf(st.a.nodes, b), x, m)
  {
    match e
    case Enter(c) => EnterKeepsInv(st, g, c);
    case Leave =>
    case Declare(d) => DeclareKeepsMark(st, g, d, b, x, m);
  }

  lemma DeclareKeepsMark(st: DeclState, g: DeclLedger, d: Decl, b: ScopeId, x: string, m: bool)
    requires DeclInv(st, g) && MayDeclare(st, d) && DeclareIn(st.a, st.scope, d).Some?
    requires b in Chain(st.a.nodes, st.scope) && !IsFunctionType(st.a.nodes[b].class_)
    requires MarkedIff(st.a, FunctionOf(st.a.nodes, b), x, m)
    requires (m || st.a.nodes[FunctionOf(st.a.nodes, b)].class_ == Global)
    ensures var a := DeclareIn(st.a, st.scope, d).value;
      ArenaOk(a) && a.nodes == st.a.nodes && MarkedIff(a, FunctionOf(st.a.nodes, b), x, m)
  {
    hide Declares;
    var f, a := FunctionOf(st.a.nodes, b), DeclareIn(st.a, st.scope, d).value;
    FunctionIsOutside(st.a.nodes, b);
    if IsFunctionType(st.a.nodes[st.scope].class_) {
      FunctionDeclares(st, g, d);
      ElsewhereMarked(st, Noted(st, g, d, a), a, d, st.scope, f, x, m);
    } else if d.kind != Var {
      BlockLexicalDeclares(st, g, d);
      ElsewhereMarked(st, Noted(st, g, d, a), a, d, st.scope, f, x, m);
    } else {
      BlockVarDeclares(st, g, d);
      var t := FunctionOf(st.a.nodes, st.scope);
      if st.a.nodes[t].class_ == Global {
        InsertChanges(st.a, g.home, t, Variable(GlobalVariable, d, HOIST_VAR + {LexicalVar}, 0));
      }
      ElsewhereMarked(st, Noted(st, g, d, a), a, d, t, f, x, m);
    }
  }

  lemma ElsewhereMarked(st: DeclState, g': DeclLedger, a: Arena, d: Decl, t: ScopeId, f: ScopeId, x: string, m: bool)
    requires Shape(st) && Declares(st, g', a, d, t) && f < |st.a.nodes| && f != st.scope && MarkedIff(st.a, f, x, m)
    requires t == f && d.name == x && !m ==> Value(a, f, x) == Value(st.a, f, x)
    ensures MarkedIff(a, f, x, m)
  {
  }

  lemma {:induction false} FunctionIsOutside(nodes: seq<ScopeNode>, b: ScopeId)
    requires TreeOk(nodes) && b < |nodes| && !IsFunctionType(nodes[b].class_)
    ensures FunctionOf(nodes, b) < b
    decreases b
  {
    var p := nodes[b].parent.value;
    if !IsFunctionType(nodes[p].class_) {
      FunctionIsOutside(nodes, p);
    }
  }

  lemma {:induction false} MarkStaysInRun(st: DeclState, g: DeclLedger, es: seq<Event>, b: ScopeId, x: string, m: bool)
    requires DeclInv(st, g) && Run(st, es).Some? && StaysIn(st, es, b) && b < |st.a.nodes|
    requires !IsFunctionType(st.a.nodes[b].class_)
    requires MarkedIff(st.a, FunctionOf(st.a.nodes, b), x, m)
    requires (m || st.a.nodes[FunctionOf(st.a.nodes, b)].class_ == Global)
    ensures var a := Run(st, es).value.a;
      ArenaOk(a) && st.a.nodes <= a.nodes && MarkedIff(a, FunctionOf(st.a.nodes, b), x, m)
    decreases |es|
  {
    if es != [] {
      MarkStays(st, g, es[0], b, x, m);
      var next := Step(st, es[0]).value;
      var g' := StepKeeps(st, g, es[0]);
      PlaceKept(st.a.nodes, next.a.nodes, b);
      MarkStaysInRun(next, g', es[1..], b, x, m);
    }
  }

  /** What a block asks of a `let`. */
  lemma {:induction false} BlocksAreUnmarked(st: DeclState, g: DeclLedger, s: ScopeId, x: string)
    requires DeclInv(st, g) && s < |st.a.nodes|
    requires var v := Value(st.a, FunctionOf(st.a.nodes, s), x); v.None? || !Marked(v.value)
    ensures Shadow(st.a, s, x, v => Marked(v)).None?
    decreases s
  {
    if !IsFunctionType(st.a.nodes[s].class_) {
      assert ScopeFits(st, s);
      assert Value(st.a, s, x).Some? ==> !Marked(Value(st.a, s, x).value);
      BlocksAreUnmarked(st, g, st.a.nodes[s].parent.value, x);
    }
  }

  lemma LetAcceptedIff(st: DeclState, g: DeclLedger, x: string)
    requires DeclInv(st, g) && MayDeclare(st, Decl(Let, x)) && !IsFunctionType(st.a.nodes[st.scope].class_)
    ensures Step(st, Declare(Decl(Let, x))).Some? <==>
      Unbound(st, x) && !MarkedIff(st.a, FunctionOf(st.a.nodes, st.scope), x, true)
  {
    FunctionEncloses(st.a.nodes, st.scope);
    if MarkedIff(st.a, FunctionOf(st.a.nodes, st.scope), x, true) {
      ShadowSees(st.a, st.scope, FunctionOf(st.a.nodes, st.scope), x, v => Marked(v));
    } else {
      BlocksAreUnmarked(st, g, st.scope, x);
    }
  }

  lemma MarkIsOne(a: Arena, f: ScopeId, x: string, m: bool)
    requires ArenaOk(a) && f < |a.nodes| && MarkedIff(a, f, x, m)
    ensures MarkedIff(a, f, x, true) <==> m
  {
  }

  /** The block does not bind `x`, and in a `catch` clause neither does the parameter. */
  ghost predicate Unbound(st: DeclState, x: string)
    requires Shape(st) && CatchesOk(st.a.nodes)
  {
    && x !in st.a.bindings[st.scope]
    && (st.a.nodes[st.scope].class_ == Catch ==> x !in st.a.bindings[st.a.nodes[st.scope].parent.value])
  }

  /**
   * After a `var x` somewhere in the block `b`, and whatever follows in there, a clashing `let x` of `b` is accepted
   * exactly if the `var` met an unmarked variable at the top of the script and `b` has no other `x`.
   */
  lemma LaterLetIff(st: DeclState, g: DeclLedger, x: string, es: seq<Event>, b: ScopeId)
    requires DeclInv(st, g) && Step(st, Declare(Decl(Var, x))).Some?
    requires b < |st.a.nodes| && !IsFunctionType(st.a.nodes[b].class_) && Encloses(st.a.nodes, b, st.scope)
    requires var st1 := Step(st, Declare(Decl(Var, x))).value;
      && Run(st1, es).Some? && StaysIn(st1, es, b)
      && var end := Run(st1, es).value; Shape(end) && end.scope == b && MayDeclare(end, Decl(Let, x))
    ensures var end := Run(Step(st, Declare(Decl(Var, x))).value, es).value;
      CatchesOk(end.a.nodes) && (Step(end, Declare(Decl(Let, x))).Some? <==> LeftUnmarked(st, x) && Unbound(end, x))
  {
    hide DeclInv, Step, LeftUnmarked, MarkedIff, Unbound;
    InvMeansCatches(st, g);
    var m := !LeftUnmarked(st, x);
    OpenBlock(st, g, x, b);
    var g1 := StepKeeps(st, g, Declare(Decl(Var, x)));
    var st1 := Step(st, Declare(Decl(Var, x))).value;
    MarkStaysInRun(st1, g1, es, b, x, m);
    var g2 := RunKeeps(st1, g1, es);
    PlaceKept(st1.a.nodes, Run(st1, es).value.a.nodes, b);
    InvMeansCatches(Run(st1, es).value, g2);
    MarkIsOne(Run(st1, es).value.a, FunctionOf(st1.a.nodes, b), x, m);
    LetAcceptedIff(Run(st1, es).value, g2, x);
  }

  /** Right after the `var`, and in the same block, only the parameter of a `catch` clause can be in the way. */
  lemma UnnoticedIff(st: DeclState, g: DeclLedger, x: string)
    requires DeclInv(st, g) && Step(st, Declare(Decl(Var, x))).Some? && !IsFunctionType(st.a.nodes[st.scope].class_)
    ensures Step(Step(st, Declare(Decl(Var, x))).value, Declare(Decl(Let, x))).Some? <==>
      && LeftUnmarked(st, x)
      && (st.a.nodes[st.scope].class_ == Catch ==> x !in st.a.bindings[st.a.nodes[st.scope].parent.value])
  {
    hide DeclInv;
    InvMeansCatches(st, g);
    var st1 := Step(st, Declare(Decl(Var, x))).value;
    BlockStaysUnbound(st, g, x);
    LaterLetIff(st, g, x, [], st.scope);
  }

  /** A block that lets a `var` through does not bind its name, before or after. */
  lemma BlockStaysUnbound(st: DeclState, g: DeclLedger, x: string)
    requires DeclInv(st, g) && Step(st, Declare(Decl(Var, x))).Some? && !IsFunctionType(st.a.nodes[st.scope].class_)
    ensures var st1 := Step(st, Declare(Decl(Var, x))).value;
      && Shape(st1) && st1.scope == st.scope && st1.a.nodes == st.a.nodes && x !in st1.a.bindings[st.scope]
      && (st.a.nodes[st.scope].parent.Some? ==>
            var p := st.a.nodes[st.scope].parent.value;
            st.a.nodes[p].class_ == CatchParam ==> (x in st1.a.bindings[p] <==> x in st.a.bindings[p]))
  {
    var s, a := st.scope, Step(st, Declare(Decl(Var, x))).value.a;
    BlockVarDeclares(st, g, Decl(Var, x));
    FunctionIsOutside(st.a.nodes, s);
    assert ScopeFits(st, s);
    assert Value(a, s, x) == Value(st.a, s, x);
    if st.a.nodes[s].parent.Some? {
      var p := st.a.nodes[s].parent.value;
      assert st.a.nodes[p].class_ == CatchParam ==> p != FunctionOf(st.a.nodes, s);
      assert st.a.nodes[p].class_ == CatchParam ==> Value(a, p, x) == Value(st.a, p, x);
    }
  }

  lemma InvMeansCatches(st: DeclState, g: DeclLedger)
    requires DeclInv(st, g)
    ensures Shape(st) && CatchesOk(st.a.nodes)
  {
  }

  lemma OpenBlock(st: DeclState, g: DeclLedger, x: string, b: ScopeId)
    requires DeclInv(st, g) && Step(st, Declare(Decl(Var, x))).Some?
    requires b < |st.a.nodes| && !IsFunctionType(st.a.nodes[b].class_) && Encloses(st.a.nodes, b, st.scope)
    ensures var a, f := Step(st, Declare(Decl(Var, x))).value.a, FunctionOf(st.a.nodes, b);
      && ArenaOk(a) && a.nodes == st.a.nodes && MarkedIff(a, f, x, !LeftUnmarked(st, x))
      && (LeftUnmarked(st, x) ==> a.nodes[f].class_ == Global)
  {
    EnclosedIsSame(st.a.nodes, b, st.scope);
    VarMarks(st, g, x);
  }

  // The script is: var x; { { var x; } let x; }

  const OUTER: ScopeId := 1
  const INSIDE: ScopeId := 2
  const VAR_X := Declare(Decl(Var, "x"))
  const LET_X := Declare(Decl(Let, "x"))
  const TO_THE_BLOCK := [VAR_X, Enter(Local), Enter(Local)]

  /** In the inner block: `x` is bound at the top, without the mark. */
  ghost predicate InTheBlock(st: DeclState) {
    && Shape(st) && CatchesOk(st.a.nodes) && |st.a.nodes| == 3 && st.scope == INSIDE
    && st.a.nodes[0].class_ == Global
    && st.a.nodes[OUTER].class_ == Local && st.a.nodes[OUTER].parent == Some(0)
    && st.a.nodes[INSIDE].class_ == Local && st.a.nodes[INSIDE].parent == Some(OUTER)
    && Value(st.a, OUTER, "x").None? && Value(st.a, INSIDE, "x").None?
    && Value(st.a, 0, "x") == Some(Variable(GlobalVariable, Decl(Var, "x"), HOIST_VAR, 0))
  }

  lemma VarAtTop()
    ensures Step(Start(Global), VAR_X).Some?
    ensures var st := Step(Start(Global), VAR_X).value;
      && Shape(st) && CatchesOk(st.a.nodes) && st.a.nodes == Start(Global).a.nodes && st.scope == 0
      && Value(st.a, 0, "x") == Some(Variable(GlobalVariable, Decl(Var, "x"), HOIST_VAR, 0))
  {
    assert Start(Global).a.bindings[0] == map[];
  }

  lemma Entered(st: DeclState)
    requires Shape(st) && CatchesOk(st.a.nodes)
    ensures Step(st, Enter(Local)) == Some(EnterScope(st, Local))
    ensures OneMore(st, EnterScope(st, Local)) && CatchesOk(EnterScope(st, Local).a.nodes)
  {
  }

  lemma BlockReached()
    ensures Run(Start(Global), TO_THE_BLOCK).Some? && InTheBlock(Run(Start(Global), TO_THE_BLOCK).value)
  {
    hide Step;
    VarAtTop();
    var st1 := Step(Start(Global), VAR_X).value;
    Entered(st1);
    var st2 := EnterScope(st1, Local);
    Entered(st2);
    var st3 := EnterScope(st2, Local);
    assert Run(st2, [Enter(Local)]) == Run(st3, []) by { assert [Enter(Local)][1..] == []; }
    assert Run(st1, [Enter(Local), Enter(Local)]) == Some(st3) by {
      assert [Enter(Local), Enter(Local)][1..] == [Enter(Local)];
    }
    assert TO_THE_BLOCK[1..] == [Enter(Local), Enter(Local)];
  }

  lemma VarAccepted(st: DeclState)
    requires InTheBlock(st)
    ensures Step(st, VAR_X).Some? && LeftUnmarked(st, "x")
    ensures var st' := Step(st, VAR_X).value;
      && st'.scope == INSIDE && st'.a.nodes == st.a.nodes && Shape(st') && "x" !in st'.a.bindings[OUTER]
  {
    assert Shadow(st.a, INSIDE, "x", v => !LikeVar(v)).None?;
  }

  /** The `let` clashes with the `var` inside, and all of the script is accepted. */
  lemma ScriptClashAccepted()
    ensures Run(Start(Global), TO_THE_BLOCK + [VAR_X, Leave, LET_X]).Some?
  {
    BlockReached();
    StartKeeps(Global);
    var st := Run(Start(Global), TO_THE_BLOCK).value;
    var g := RunKeeps(Start(Global), DeclLedger([], {}), TO_THE_BLOCK);
    RunInTurn(Start(Global), TO_THE_BLOCK, [VAR_X, Leave, LET_X]);
    AfterTheBlock(st, g);
  }

  lemma AfterTheBlock(st: DeclState, g: DeclLedger)
    requires DeclInv(st, g) && InTheBlock(st)
    ensures Run(st, [VAR_X, Leave, LET_X]).Some?
  {
    VarAccepted(st);
    var st1 := Step(st, VAR_X).value;
    var st2 := ExitScope(st1);
    assert Step(st1, Leave) == Some(st2) && Run(st1, [Leave]) == Some(st2);
    assert Chain(st.a.nodes, INSIDE) == [INSIDE] + Chain(st.a.nodes, OUTER);
    assert StaysIn(st1, [Leave], OUTER);
    LaterLetIff(st, g, "x", [Leave], OUTER);
    assert Step(st2, LET_X).Some?;
    assert Run(st2, [LET_X]).Some?;
    assert [VAR_X, Leave, LET_X][1..] == [Leave, LET_X] && [Leave, LET_X][1..] == [LET_X];
  }

  // ---- Refused without a clash: { var x; } { let x; }

  const TO_THE_SIBLING := [Enter(Local), VAR_X, Leave, Enter(Local)]

  ghost predicate InFirstBlock(st: DeclState) {
    && Shape(st) && CatchesOk(st.a.nodes) && |st.a.nodes| == 2 && st.scope == 1
    && st.a.nodes[0].class_ == Module && st.a.nodes[1].class_ == Local && st.a.nodes[1].parent == Some(0)
    && Value(st.a, 0, "x").None? && Value(st.a, 1, "x").None?
  }

  lemma BlockEntered()
    ensures Step(Start(Module), Enter(Local)).Some? && InFirstBlock(Step(Start(Module), Enter(Local)).value)
  {
    assert Start(Module).a.bindings[0] == map[];
    Entered(Start(Module));
  }

  lemma VarAcceptedFirst(st: DeclState, g: DeclLedger)
    requires DeclInv(st, g) && InFirstBlock(st)
    ensures Step(st, VAR_X).Some?
    ensures var st' := Step(st, VAR_X).value;
      && st'.a.nodes == st.a.nodes && st'.scope == 1 && Shape(st') && CatchesOk(st'.a.nodes) &&
           MarkedIff(st'.a, 0, "x", true)
  {
    assert Shadow(st.a, 1, "x", v => !LikeVar(v)).None?;
    VarMarks(st, g, "x");
  }

  /** The mark outlives the block, so a block beside it cannot have a `let` of that name. */
  lemma SiblingRefused()
    ensures Run(Start(Module), TO_THE_SIBLING).Some? && Run(Start(Module), TO_THE_SIBLING + [LET_X]).None?
    ensures var st := Run(Start(Module), TO_THE_SIBLING).value;
      && Shape(st) && st.decls[st.scope] == []
      && NothingInside(st)
  {
    hide Step, DeclInv;
    StartKeeps(Module);
    BlockEntered();
    var g0 := DeclLedger([], {});
    var st1 := Step(Start(Module), Enter(Local)).value;
    var g1 := StepKeeps(Start(Module), g0, Enter(Local));
    VarAcceptedFirst(st1, g1);
    var st2 := Step(st1, VAR_X).value;
    var g2 := StepKeeps(st1, g1, VAR_X);
    BlockBeside(st2, g2);
    assert TO_THE_SIBLING[1..] == [VAR_X, Leave, Enter(Local)] && TO_THE_SIBLING[1..][1..] == [Leave, Enter(Local)];
    RunInTurn(Start(Module), TO_THE_SIBLING, [LET_X]);
  }

  lemma BlockBeside(st: DeclState, g: DeclLedger)
    requires DeclInv(st, g) && |st.a.nodes| == 2 && st.scope == 1 && st.a.nodes[1].class_ == Local
    requires st.a.nodes[1].parent == Some(0)
    requires st.a.nodes[0].class_ == Module && MarkedIff(st.a, 0, "x", true)
    ensures Run(st, [Leave, Enter(Local)]).Some?
    ensures var st' := Run(st, [Leave, Enter(Local)]).value;
      Shape(st') && st'.decls[st'.scope] == [] && NothingInside(st') && Run(st', [LET_X]).None?
  {
    hide DeclInv;
    InvMeansCatches(st, g);
    var st1 := ExitScope(st);
    var g1 := StepKeeps(st, g, Leave);
    var st2 := EnterScope(st1, Local);
    Entered(st1);
    var g2 := StepKeeps(st1, g1, Enter(Local));
    LetAcceptedIff(st2, g2, "x");
    assert Run(st1, [Enter(Local)]) == Some(st2) by { assert [Enter(Local)][1..] == []; }
    assert [Leave, Enter(Local)][1..] == [Enter(Local)];
  }
}
