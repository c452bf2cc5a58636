/** The syntax tree as identifier analysis walks it, and where its scopes have to lie. */
module SyntaxTree {
  import opened Scopes
  import opened Slots

  /**
   * Nodes that only pass the walk on are `Other`; blocks, switches, classes and both halves of a catch
   * clause are `Scoped`.  An absent part of a loop head is `Other([])`.
   */
  datatype Ast =
    | Reference(name: string)
    | Super
    | Other(children: seq<Ast>)
    | Scoped(scope: ScopeId, children: seq<Ast>)
    | ScriptFunction(scope: ScopeId, params: seq<Ast>, body: seq<Ast>)
    | While(loop: ScopeId, test: Ast, body_: Ast)
    | DoWhile(loop: ScopeId, body_: Ast, test: Ast)
    | ForUpdate(loop: ScopeId, init: Ast, update: Ast, test: Ast, body_: Ast)
    | ForInOf(loop: ScopeId, right: Ast, left: Ast, body_: Ast)

  ghost function DeclScope(nodes: seq<ScopeNode>, loop: ScopeId): (d: ScopeId) {
    if loop < |nodes| && nodes[loop].declScope.Some? then nodes[loop].declScope.value else loop
  }

  /** The scopes of all loops. */
  ghost function LoopsOf(nodes: seq<ScopeNode>, n: Ast): set<ScopeId>
    decreases n, 1
  {
    match n
    case Reference(_) => {}
    case Super => {}
    case Other(children) => LoopsOfAll(nodes, children)
    case Scoped(_, children) => LoopsOfAll(nodes, children)
    case ScriptFunction(_, params, body) => LoopsOfAll(nodes, params) + LoopsOfAll(nodes, body)
    case While(loop, test, body) => LoopsOf(nodes, test) + LoopsOf(nodes, body) + {loop}
    case DoWhile(loop, body, test) => LoopsOf(nodes, body) + LoopsOf(nodes, test) + {loop}
    case ForUpdate(loop, init, update, test, body) =>
      LoopsOf(nodes, init) + LoopsOf(nodes, update) + LoopsOf(nodes, test) + LoopsOf(nodes, body) +
        {DeclScope(nodes, loop), loop}
    case ForInOf(loop, right, left, body) =>
      LoopsOf(nodes, right) + LoopsOf(nodes, left) + LoopsOf(nodes, body) + {DeclScope(nodes, loop), loop}
  }

  ghost function LoopsOfAll(nodes: seq<ScopeNode>, ns: seq<Ast>): set<ScopeId>
    decreases ns, 0
  {
    if ns == [] then {} else LoopsOf(nodes, ns[0]) + LoopsOfAll(nodes, ns[1..])
  }

  /** The function scopes in the order in which the walk enters them. */
  ghost function FunctionsOf(n: Ast): seq<ScopeId>
    decreases n, 1
  {
    match n
    case Reference(_) => []
    case Super => []
    case Other(children) => FunctionsOfAll(children)
    case Scoped(_, children) => FunctionsOfAll(children)
    case ScriptFunction(scope, params, body) => FunctionsOfAll(params) + [scope] + FunctionsOfAll(body)
    case While(_, test, body) => FunctionsOf(test) + FunctionsOf(body)
    case DoWhile(_, body, test) => FunctionsOf(body) + FunctionsOf(test)
    case ForUpdate(_, init, update, test, body) => FunctionsOf(init) + FunctionsOf(update) + FunctionsOf(test) +
      FunctionsOf(body)
    case ForInOf(_, right, left, body) => FunctionsOf(right) + FunctionsOf(left) + FunctionsOf(body)
  }

  ghost function FunctionsOfAll(ns: seq<Ast>): seq<ScopeId>
    decreases ns, 0
  {
    if ns == [] then [] else FunctionsOf(ns[0]) + FunctionsOfAll(ns[1..])
  }

  /** Every reference with the scope in which it is looked up; `cur` is the scope the walk is in. */
  ghost function RefsOf(nodes: seq<ScopeNode>, n: Ast, cur: ScopeId): set<(ScopeId, string)>
    decreases n, 1
  {
    match n
    case Reference(name) => {(cur, name)}
    case Super => {}
    case Other(children) => RefsOfAll(nodes, children, cur)
    case Scoped(scope, children) => RefsOfAll(nodes, children, scope)
    case ScriptFunction(scope, params, body) =>
      RefsOfAll(nodes, params, ParamScope(nodes, scope)) + RefsOfAll(nodes, body, scope)
    case While(loop, test, body) => RefsOf(nodes, test, cur) + RefsOf(nodes, body, loop)
    case DoWhile(loop, body, test) => RefsOf(nodes, body, loop) + RefsOf(nodes, test, cur)
    case ForUpdate(loop, init, update, test, body) =>
      var d := DeclScope(nodes, loop);
      RefsOf(nodes, init, d) + RefsOf(nodes, update, d) + RefsOf(nodes, test, loop) + RefsOf(nodes, body, loop)
    case ForInOf(loop, right, left, body) =>
      var d := DeclScope(nodes, loop);
      RefsOf(nodes, right, d) + RefsOf(nodes, left, d) + RefsOf(nodes, body, loop)
  }

  ghost function RefsOfAll(nodes: seq<ScopeNode>, ns: seq<Ast>, cur: ScopeId): set<(ScopeId, string)>
    decreases ns, 0
  {
    if ns == [] then {} else RefsOf(nodes, ns[0], cur) + RefsOfAll(nodes, ns[1..], cur)
  }

  /** The functions that `super` marks: those around it, for a parameter list the function outside. */
  ghost function SupersOf(nodes: seq<ScopeNode>, n: Ast, cur: ScopeId): set<ScopeId>
    decreases n, 1
  {
    match n
    case Reference(_) => {}
    case Super => if TreeOk(nodes) && cur < |nodes| then {FunctionOf(nodes, cur)} else {}
    case Other(children) => SupersOfAll(nodes, children, cur)
    case Scoped(scope, children) => SupersOfAll(nodes, children, scope)
    case ScriptFunction(scope, params, body) =>
      SupersOfAll(nodes, params, ParamScope(nodes, scope)) + SupersOfAll(nodes, body, scope)
    case While(loop, test, body) => SupersOf(nodes, test, cur) + SupersOf(nodes, body, loop)
    case DoWhile(loop, body, test) => SupersOf(nodes, body, loop) + SupersOf(nodes, test, cur)
    case ForUpdate(loop, init, update, test, body) =>
      var d := DeclScope(nodes, loop);
      SupersOf(nodes, init, d) + SupersOf(nodes, update, d) + SupersOf(nodes, test, loop) + SupersOf(nodes, body, loop)
    case ForInOf(loop, right, left, body) =>
      var d := DeclScope(nodes, loop);
      SupersOf(nodes, right, d) + SupersOf(nodes, left, d) + SupersOf(nodes, body, loop)
  }

  ghost function SupersOfAll(nodes: seq<ScopeNode>, ns: seq<Ast>, cur: ScopeId): set<ScopeId>
    decreases ns, 0
  {
    if ns == [] then {} else SupersOf(nodes, ns[0], cur) + SupersOfAll(nodes, ns[1..], cur)
  }

  ghost function ParamScope(nodes: seq<ScopeNode>, f: ScopeId): ScopeId {
    if f < |nodes| && nodes[f].parent.Some? then nodes[f].parent.value else f
  }

  lemma NothingIn(nodes: seq<ScopeNode>, cur: ScopeId)
    ensures LoopsOfAll(nodes, []) == {} && FunctionsOfAll([]) == [] && RefsOfAll(nodes, [], cur) == {}
    ensures SupersOfAll(nodes, [], cur) == {}
  {
  }

  lemma FirstAndRest(nodes: seq<ScopeNode>, ns: seq<Ast>, cur: ScopeId)
    requires ns != []
    ensures LoopsOfAll(nodes, ns) == LoopsOf(nodes, ns[0]) + LoopsOfAll(nodes, ns[1..])
    ensures FunctionsOfAll(ns) == FunctionsOf(ns[0]) + FunctionsOfAll(ns[1..])
    ensures RefsOfAll(nodes, ns, cur) == RefsOf(nodes, ns[0], cur) + RefsOfAll(nodes, ns[1..], cur)
    ensures SupersOfAll(nodes, ns, cur) == SupersOf(nodes, ns[0], cur) + SupersOfAll(nodes, ns[1..], cur)
  {
  }

  // ---- Where the parser puts the scopes.

  ghost predicate Around(nodes: seq<ScopeNode>, lexes: set<ScopeId>) {
    TreeOk(nodes) && forall p {:trigger p in lexes} :: p in lexes ==> p < |nodes|
  }

  /** No scope in `ls` is one of `lexes` or encloses one. */
  ghost predicate Apart(nodes: seq<ScopeNode>, lexes: set<ScopeId>, ls: set<ScopeId>)
    requires Around(nodes, lexes)
  {
    forall p {:trigger p in lexes} :: p in lexes ==> NotAround(nodes, p, ls)
  }

  ghost predicate NotAround(nodes: seq<ScopeNode>, p: ScopeId, ls: set<ScopeId>)
    requires TreeOk(nodes) && p < |nodes|
  {
    forall l {:trigger l in ls} :: l in ls ==> l !in Chain(nodes, p)
  }

  /**
   * The outermost scopes of `n` have their parents in `lexes`.  There may be two of those, since the parser
   * enters the body scope of a for loop halfway through the loop head.  Functions in parameter lists are
   * left out.
   */
  ghost predicate WellScoped(nodes: seq<ScopeNode>, n: Ast, lexes: set<ScopeId>)
    requires Around(nodes, lexes)
    decreases n, 1
  {
    && Apart(nodes, lexes, LoopsOf(nodes, n))
    && match n
       case Reference(name) => name !in MANDATORY_NAMES
       case Super => true
       case Other(children) => AllWellScoped(nodes, children, lexes)
       case Scoped(s, children) =>
         && Within(nodes, s, lexes) && nodes[s].class_ in {Local, Catch, CatchParam}
         && AllWellScoped(nodes, children, {s})
       case ScriptFunction(f, params, body) =>
         && f < |nodes| && nodes[f].class_ == Function && nodes[f].parent.Some?
         && var p := nodes[f].parent.value;
            && Within(nodes, p, lexes) && nodes[p].class_ == FunctionParam && nodes[f].paramScope == Some(p)
            && nodes[p].kind == nodes[f].kind
            && AllWellScoped(nodes, params, {p}) && FunctionsOfAll(params) == [] && LoopsOfAll(nodes, params) == {}
            && AllWellScoped(nodes, body, {f})
       case While(l, test, body) =>
         && Within(nodes, l, lexes) && nodes[l].class_ == Loop && nodes[l].declScope.None?
         && WellScoped(nodes, test, lexes) && WellScoped(nodes, body, {l})
         && LoopsOf(nodes, test) !! LoopsOf(nodes, body) && NotAround(nodes, l, LoopsOf(nodes, test))
       case DoWhile(l, body, test) =>
         && Within(nodes, l, lexes) && nodes[l].class_ == Loop && nodes[l].declScope.None?
         && WellScoped(nodes, body, {l}) && WellScoped(nodes, test, {l})
         && LoopsOf(nodes, body) !! LoopsOf(nodes, test)
       case ForUpdate(l, init, update, test, body) =>
         && ForScopes(nodes, l, lexes)
         && var d := nodes[l].declScope.value;
            && WellScoped(nodes, init, {d, l}) && WellScoped(nodes, update, {l})
            && WellScoped(nodes, test, {l}) && WellScoped(nodes, body, {l})
            && LoopsOf(nodes, init) !! LoopsOf(nodes, update) !! LoopsOf(nodes, test) !! LoopsOf(nodes, body)
       case ForInOf(l, right, left, body) =>
         && ForScopes(nodes, l, lexes)
         && var d := nodes[l].declScope.value;
            && WellScoped(nodes, right, {d, l}) && WellScoped(nodes, left, {d, l}) && WellScoped(nodes, body, {l})
            && LoopsOf(nodes, right) !! LoopsOf(nodes, left) !! LoopsOf(nodes, body)
  }

  ghost predicate AllWellScoped(nodes: seq<ScopeNode>, ns: seq<Ast>, lexes: set<ScopeId>)
    requires Around(nodes, lexes)
    decreases ns, 0
  {
    ns == [] || (&& WellScoped(nodes, ns[0], lexes) && AllWellScoped(nodes, ns[1..], lexes)
                 && LoopsOf(nodes, ns[0]) !! LoopsOfAll(nodes, ns[1..]))
  }

  /** The scopes in `ls` are those of loops, and the body scope of a `for` loop comes with that of its head. */
  ghost predicate LoopsWhole(nodes: seq<ScopeNode>, ls: set<ScopeId>) {
    forall l {:trigger l in ls} :: l in ls ==>
      && l < |nodes| && IsLoopClass(nodes[l].class_)
      && (nodes[l].class_ == Loop && nodes[l].declScope.Some? ==>
            && nodes[l].declScope.value in ls
            && nodes[l].declScope.value < |nodes| && IsLoopClass(nodes[nodes[l].declScope.value].class_))
  }

  /** `ls` are loop scopes, and `fs` function scopes. */
  ghost predicate Fit(nodes: seq<ScopeNode>, ls: set<ScopeId>, fs: seq<ScopeId>) {
    && LoopsWhole(nodes, ls)
    && (forall f {:trigger f in fs} :: f in fs ==> f < |nodes| && nodes[f].class_ == Function)
  }

  /** The scopes of a loop itself. */
  lemma FitWithLoop(nodes: seq<ScopeNode>, ls: set<ScopeId>, fs: seq<ScopeId>, own: set<ScopeId>)
    requires Fit(nodes, ls, fs) && LoopsWhole(nodes, own)
    ensures Fit(nodes, ls + own, fs)
  {
  }

  lemma FitTogether(nodes: seq<ScopeNode>, ls: set<ScopeId>, fs: seq<ScopeId>, ls': set<ScopeId>, fs': seq<ScopeId>)
    requires Fit(nodes, ls, fs) && Fit(nodes, ls', fs')
    ensures Fit(nodes, ls + ls', fs + fs')
  {
  }

  lemma {:induction false} ScopesFit(nodes: seq<ScopeNode>, n: Ast, lexes: set<ScopeId>)
    requires Around(nodes, lexes) && WellScoped(nodes, n, lexes)
    ensures Fit(nodes, LoopsOf(nodes, n), FunctionsOf(n))
    decreases n, 1
  {
    match n
    case Reference(_) =>
    case Super =>
    case Other(children) => AllScopesFit(nodes, children, lexes);
    case Scoped(s, children) => AllScopesFit(nodes, children, {s});
    case ScriptFunction(f, params, body) => AllScopesFit(nodes, body, {f});
    case While(_, _, _) => PlainLoopFits(nodes, n, lexes);
    case DoWhile(_, _, _) => PlainLoopFits(nodes, n, lexes);
    case ForUpdate(_, _, _, _, _) => ForUpdateFits(nodes, n, lexes);
    case ForInOf(_, _, _, _) => ForInOfFits(nodes, n, lexes);
  }

  lemma {:induction false} PlainLoopFits(nodes: seq<ScopeNode>, n: Ast, lexes: set<ScopeId>)
    requires (n.While? || n.DoWhile?) && Around(nodes, lexes) && WellScoped(nodes, n, lexes)
    ensures Fit(nodes, LoopsOf(nodes, n), FunctionsOf(n))
    decreases n, 0
  {
    ScopesFit(nodes, n.test, if n.While? then lexes else {n.loop});
    ScopesFit(nodes, n.body_, {n.loop});
    hide Fit, Apart, NotAround, Around;
    var first, second := if n.While? then n.test else n.body_, if n.While? then n.body_ else n.test;
    FitTogether(nodes, LoopsOf(nodes, first), FunctionsOf(first), LoopsOf(nodes, second), FunctionsOf(second));
    FitWithLoop(nodes, LoopsOf(nodes, first) + LoopsOf(nodes, second), FunctionsOf(n), {n.loop});
  }

  lemma {:induction false} ForUpdateFits(nodes: seq<ScopeNode>, n: Ast, lexes: set<ScopeId>)
    requires n.ForUpdate? && Around(nodes, lexes) && WellScoped(nodes, n, lexes)
    ensures Fit(nodes, LoopsOf(nodes, n), FunctionsOf(n))
    decreases n, 0
  {
    ScopesFit(nodes, n.init, {nodes[n.loop].declScope.value, n.loop});
    ScopesFit(nodes, n.update, {n.loop});
    ScopesFit(nodes, n.test, {n.loop});
    ScopesFit(nodes, n.body_, {n.loop});
    assert LoopsWhole(nodes, {DeclScope(nodes, n.loop), n.loop});
    ForUpdateTogether(nodes, n);
  }

  lemma ForUpdateTogether(nodes: seq<ScopeNode>, n: Ast)
    requires n.ForUpdate? && LoopsWhole(nodes, {DeclScope(nodes, n.loop), n.loop})
    requires Fit(nodes, LoopsOf(nodes, n.init), FunctionsOf(n.init))
    requires Fit(nodes, LoopsOf(nodes, n.update), FunctionsOf(n.update))
    requires Fit(nodes, LoopsOf(nodes, n.test), FunctionsOf(n.test))
    requires Fit(nodes, LoopsOf(nodes, n.body_), FunctionsOf(n.body_))
    ensures Fit(nodes, LoopsOf(nodes, n), FunctionsOf(n))
  {
    hide Fit, LoopsWhole, DeclScope;
    var ls, fs := LoopsOf(nodes, n.init), FunctionsOf(n.init);
    FitTogether(nodes, ls, fs, LoopsOf(nodes, n.update), FunctionsOf(n.update));
    ls, fs := ls + LoopsOf(nodes, n.update), fs + FunctionsOf(n.update);
    FitTogether(nodes, ls, fs, LoopsOf(nodes, n.test), FunctionsOf(n.test));
    ls, fs := ls + LoopsOf(nodes, n.test), fs + FunctionsOf(n.test);
    FitTogether(nodes, ls, fs, LoopsOf(nodes, n.body_), FunctionsOf(n.body_));
    ls, fs := ls + LoopsOf(nodes, n.body_), fs + FunctionsOf(n.body_);
    FitWithLoop(nodes, ls, fs, {DeclScope(nodes, n.loop), n.loop});
  }

  lemma {:induction false} ForInOfFits(nodes: seq<ScopeNode>, n: Ast, lexes: set<ScopeId>)
    requires n.ForInOf? && Around(nodes, lexes) && WellScoped(nodes, n, lexes)
    ensures Fit(nodes, LoopsOf(nodes, n), FunctionsOf(n))
    decreases n, 0
  {
    ScopesFit(nodes, n.right, {nodes[n.loop].declScope.value, n.loop});
    ScopesFit(nodes, n.left, {nodes[n.loop].declScope.value, n.loop});
    ScopesFit(nodes, n.body_, {n.loop});
    hide Fit, Apart, NotAround, Around, Within;
    var ls, fs := LoopsOf(nodes, n.right), FunctionsOf(n.right);
    FitTogether(nodes, ls, fs, LoopsOf(nodes, n.left), FunctionsOf(n.left));
    ls, fs := ls + LoopsOf(nodes, n.left), fs + FunctionsOf(n.left);
    FitTogether(nodes, ls, fs, LoopsOf(nodes, n.body_), FunctionsOf(n.body_));
    ls, fs := ls + LoopsOf(nodes, n.body_), fs + FunctionsOf(n.body_);
    FitWithLoop(nodes, ls, fs, {DeclScope(nodes, n.loop), n.loop});
  }

  lemma {:induction false} AllScopesFit(nodes: seq<ScopeNode>, ns: seq<Ast>, lexes: set<ScopeId>)
    requires Around(nodes, lexes) && AllWellScoped(nodes, ns, lexes)
    ensures Fit(nodes, LoopsOfAll(nodes, ns), FunctionsOfAll(ns))
    decreases ns, 0
  {
    if ns != [] {
      ScopesFit(nodes, ns[0], lexes);
      AllScopesFit(nodes, ns[1..], lexes);
    }
  }

  lemma LoopsApart(nodes: seq<ScopeNode>, n: Ast, lexes: set<ScopeId>, l: ScopeId)
    requires Around(nodes, lexes) && WellScoped(nodes, n, lexes) && l in lexes
    ensures NotAround(nodes, l, LoopsOf(nodes, n))
  {
  }

  lemma AllApart(nodes: seq<ScopeNode>, ns: seq<Ast>, lexes: set<ScopeId>)
    requires Around(nodes, lexes) && AllWellScoped(nodes, ns, lexes)
    ensures Apart(nodes, lexes, LoopsOfAll(nodes, ns))
  {
    if ns != [] {
      AllApart(nodes, ns[1..], lexes);
      forall p {:trigger p in lexes} | p in lexes
        ensures NotAround(nodes, p, LoopsOfAll(nodes, ns))
      {
        assert NotAround(nodes, p, LoopsOf(nodes, ns[0])) && NotAround(nodes, p, LoopsOfAll(nodes, ns[1..]));
      }
    }
  }

  ghost predicate Within(nodes: seq<ScopeNode>, s: ScopeId, lexes: set<ScopeId>) {
    s < |nodes| && nodes[s].parent.Some? && nodes[s].parent.value in lexes
  }

  /** The body scope lies directly in the scope of the declarations. */
  ghost predicate ForScopes(nodes: seq<ScopeNode>, l: ScopeId, lexes: set<ScopeId>) {
    && l < |nodes| && nodes[l].class_ == Loop && nodes[l].declScope.Some? && nodes[l].parent == nodes[l].declScope
    && Within(nodes, nodes[l].declScope.value, lexes) && nodes[nodes[l].declScope.value].class_ == LoopDecl
  }

  const MANDATORY_PARAM_FUNC := "=f"
  const MANDATORY_PARAM_NEW_TARGET := "=nt"
  const MANDATORY_PARAM_THIS := "=t"
  const LEXICAL_MANDATORY_PARAM_FUNC := "!f"
  const LEXICAL_MANDATORY_PARAM_NEW_TARGET := "!nt"
  const LEXICAL_MANDATORY_PARAM_THIS := "!t"

  /** None of these is an identifier. */
  const MANDATORY_NAMES: set<string> := {
    MANDATORY_PARAM_FUNC, MANDATORY_PARAM_NEW_TARGET, MANDATORY_PARAM_THIS,
    LEXICAL_MANDATORY_PARAM_FUNC, LEXICAL_MANDATORY_PARAM_NEW_TARGET, LEXICAL_MANDATORY_PARAM_THIS}
}
