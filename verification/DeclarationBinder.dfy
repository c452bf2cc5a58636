/** The binder while parsing: AddDecl and the scopes it enters and leaves. */
module DeclarationBinder {
  import opened Scopes
  import opened Slots
  import opened Redeclaration
  import opened DeclarationRuns

  // ---- AddBinding of the scope classes; `ok` is their result.

  method AddVar(a0: Arena, f: ScopeId, d: Decl) returns (ok: bool, a: Arena)
    requires ArenaOk(a0) && f < |a0.nodes| && d.kind == Var
    ensures ok == DeclareInFunction(a0, f, d).Some? && (ok ==> Some(a) == DeclareInFunction(a0, f, d))
  {
    a := a0;
    if d.name !in a.bindings[f] {
      var kind := if a.nodes[f].class_ == Global then GlobalVariable else LocalVariable;
      a := AddVariable(a, f, d.name, Variable(kind, d, HOIST_VAR, 0));
      return true, a;
    }
    var current := a.bindings[f][d.name];
    ok := true;
    match a.vars[current].decl.kind
    case Var => a := Reset(a, current, d, HOIST_VAR);
    case Param =>
    case Func =>
    case _ => ok := false;
  }

  method AddFunction(a0: Arena, f: ScopeId, d: Decl) returns (ok: bool, a: Arena)
    requires ArenaOk(a0) && f < |a0.nodes| && d.kind == Func
    ensures ok == DeclareInFunction(a0, f, d).Some? && (ok ==> Some(a) == DeclareInFunction(a0, f, d))
  {
    a := a0;
    if d.name !in a.bindings[f] {
      var kind := if a.nodes[f].class_ == Global then GlobalVariable else LocalVariable;
      a := AddVariable(a, f, d.name, Variable(kind, d, HOIST_VAR, 0));
      return true, a;
    }
    if a.nodes[f].class_ == Module {
      return false, a;
    }
    var current := a.bindings[f][d.name];
    ok := true;
    match a.vars[current].decl.kind
    case Var => a := Reset(a, current, d, HOIST_VAR);
    case Func => a := Reset(a, current, d, HOIST_VAR);
    case _ => ok := false;
  }

  method AddLexical(a0: Arena, f: ScopeId, d: Decl) returns (ok: bool, a: Arena)
    requires ArenaOk(a0) && f < |a0.nodes| && (d.kind == Let || d.kind == Const)
    ensures ok == DeclareInFunction(a0, f, d).Some? && (ok ==> Some(a) == DeclareInFunction(a0, f, d))
  {
    a := a0;
    if d.name in a.bindings[f] {
      return false, a;
    }
    return true, AddVariable(a, f, d.name, NewLocal(d, {}));
  }

  method AddLocal(a0: Arena, s: ScopeId, d: Decl) returns (ok: bool, a: Arena)
    requires ArenaOk(a0) && s < |a0.nodes|
    ensures ok == DeclareInBlock(a0, s, d).Some? && (ok ==> Some(a) == DeclareInBlock(a0, s, d))
  {
    a := a0;
    if d.kind == Var {
      var scope, shadowed := IterateShadowedVariables(a, s, d.name, v => !LikeVar(v));
      if shadowed {
        return false, a;
      }
      var varFlags := HOIST_VAR + {LexicalVar};
      if a.nodes[scope].class_ == Global {
        a := AddVariable(a, scope, d.name, Variable(GlobalVariable, d, varFlags, 0));
      } else {
        a := PropagateBinding(a, scope, d, varFlags);
      }
      return true, a;
    }
    if d.name in a.bindings[s] {
      return false, a;
    }
    var _, shadowed := IterateShadowedVariables(a, s, d.name, v => Marked(v));
    if shadowed {
      return false, a;
    }
    return true, AddVariable(a, s, d.name, NewLocal(d, if d.kind == Func then {Hoist} else {}));
  }

  function PropagateBinding(a: Arena, f: ScopeId, d: Decl, flags: set<Flag>): Arena
    requires ArenaOk(a) && f < |a.nodes|
  {
    if d.name !in a.bindings[f] then AddVariable(a, f, d.name, NewLocal(d, flags))
      else Reset(a, a.bindings[f][d.name], d, flags)
  }

  method AddBinding(a0: Arena, s: ScopeId, d: Decl) returns (ok: bool, a: Arena)
    requires ArenaOk(a0) && CatchesOk(a0.nodes) && s < |a0.nodes| && a0.nodes[s].class_ != FunctionParam
    ensures ok == DeclareIn(a0, s, d).Some? && (ok ==> Some(a) == DeclareIn(a0, s, d))
  {
    match a0.nodes[s].class_
    case CatchParam =>
      ok, a := AddParam(a0, s, d, {Initialized});
    case Catch =>
      if d.kind != Var && d.name in a0.bindings[a0.nodes[s].paramScope.value] {
        return false, a0;
      }
      ok, a := AddLocal(a0, s, d);
    case Local => ok, a := AddLocal(a0, s, d);
    case Loop => ok, a := AddLocal(a0, s, d);
    case LoopDecl => ok, a := AddLocal(a0, s, d);
    case _ =>
      match d.kind {
        case Var => ok, a := AddVar(a0, s, d);
        case Func => ok, a := AddFunction(a0, s, d);
        case Param => ok, a := AddParam(a0, s, d, {VarLike});
        case _ => ok, a := AddLexical(a0, s, d);
      }
  }

  method AddParam(a0: Arena, s: ScopeId, d: Decl, flags: set<Flag>) returns (ok: bool, a: Arena)
    requires ArenaOk(a0) && s < |a0.nodes|
    ensures ok <==> Value(a0, s, d.name).None?
    ensures ok ==> a == AddVariable(a0, s, d.name, NewLocal(d, flags))
  {
    if d.name in a0.bindings[s] {
      return false, a0;
    }
    return true, AddVariable(a0, s, d.name, NewLocal(d, flags));
  }

  class Binder {
    var arena: Arena
    var decls: seq<seq<Decl>>
    var scope: ScopeId
    ghost var ledger: DeclLedger

    ghost function Now(): DeclState
      reads `arena, `decls, `scope
    {
      DeclState(arena, decls, scope)
    }

    /** In particular, no clash has gone unnoticed. */
    ghost predicate Valid()
      reads this
    {
      DeclInv(Now(), ledger)
    }

    constructor (top: ScopeType)
      requires IsTopType(top)
      ensures Valid() && Now() == Start(top)
    {
      var start := Start(top);
      arena, decls, scope := start.a, start.decls, start.scope;
      ledger := DeclLedger([], {});
      new;
      StartKeeps(top);
    }

    /** `ok` is false where the parser throws. */
    method AddDecl(d: Decl) returns (ok: bool)
      requires Valid() && MayDeclare(Now(), d)
      modifies this
      ensures ok <==> Step(old(Now()), Declare(d)).Some?
      ensures ok ==> Valid() && Now() == Step(old(Now()), Declare(d)).value
    {
      ghost var st0 := Now();
      decls := decls[scope := decls[scope] + [d]];
      var a;
      ok, a := AddBinding(arena, scope, d);
      if ok {
        AcceptedKeepsInv(st0, ledger, d);
        ledger := Noted(st0, ledger, d, a);
        arena := a;
      }
    }

    method Enter(class_: ScopeType)
      requires Valid() && MayEnter(Now(), class_)
      modifies this
      ensures Valid() && Now() == Step(old(Now()), DeclarationRuns.Enter(class_)).value
    {
      EnterKeepsInv(Now(), ledger, class_);
      var next := EnterScope(DeclState(arena, decls, scope), class_);
      arena, decls, scope := next.a, next.decls, next.scope;
    }

    method Exit()
      requires Valid() && arena.nodes[scope].parent.Some?
      modifies this
      ensures Valid() && Now() == Step(old(Now()), Leave).value
    {
      ExitKeepsInv(Now(), ledger);
      scope := arena.nodes[scope].parent.value;
    }
  }
}
