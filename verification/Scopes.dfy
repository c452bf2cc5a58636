/**
 * Scopes and variables, as both phases of the binder see them.  The binder allocates them in an arena and
 * passes pointers around; here a pointer is an index into the arena, and an object is the entry there.
 */
module Scopes {

  datatype Option<+T> = None | Some(value: T)

  type ScopeId = nat
  type VariableId = nat

  // ---- Variables.

  datatype DeclKind = Var | Let | Const | Func | Param

  datatype Decl = Decl(kind: DeclKind, name: string)

  datatype Flag = Hoist | VarLike | LexicalVar | Initialized | ReadOnly | LoopDeclared | PerIteration | LexicalBound

  const HOIST_VAR: set<Flag> := {Hoist, VarLike}

  /** The concrete classes; only local variables ever get a slot. */
  datatype VariableKind = LocalVariable | GlobalVariable

  datatype Variable = Variable(kind: VariableKind, decl: Decl, flags: set<Flag>, vreg: nat) {
    predicate Bound() {
      LexicalBound in flags
    }

    function AddFlags(added: set<Flag>): Variable {
      this.(flags := flags + added)
    }

    function BindLexEnvSlot(slot: nat): Variable {
      this.(flags := flags + {LexicalBound}, vreg := slot)
    }

    /** A variable of its own with the same declaration, flags and slot. */
    function Copy(): Variable {
      NewLocal(decl, flags).(vreg := vreg)
    }
  }

  function NewLocal(decl: Decl, flags: set<Flag>): Variable {
    Variable(LocalVariable, decl, if decl.kind == Const then flags + {ReadOnly} else flags, 0)
  }

  // ---- Scopes.

  /** In the order of the enumeration: everything after `Local` is a variable scope. */
  datatype ScopeType = CatchParam | FunctionParam | Catch | Local | Loop | LoopDecl | Function | Global | Module

  predicate IsVariableType(t: ScopeType) {
    t.Loop? || t.LoopDecl? || IsFunctionType(t)
  }

  predicate IsFunctionType(t: ScopeType) {
    t.Function? || t.Global? || t.Module?
  }

  predicate IsTopType(t: ScopeType) {
    t.Global? || t.Module?
  }

  predicate IsLoopClass(t: ScopeType) {
    t.Loop? || t.LoopDecl?
  }

  /** What the binder asks of the script function behind a function scope. */
  datatype FunctionKind = Plain | Arrow | DerivedConstructor

  datatype ScopeFlag = SetLexicalFunction | UseArgs | UseSuper | InnerArrow

  /** The part of a scope that construction fixes; `class_` is the concrete class. */
  datatype ScopeNode = ScopeNode(
    class_: ScopeType,
    parent: Option<ScopeId>,
    kind: FunctionKind,
    /** For a loop scope, the scope of the declarations in its head. */
    declScope: Option<ScopeId>,
    /** For a function scope, the scope of its parameters, and the other way round. */
    paramScope: Option<ScopeId>,
    functionScope: Option<ScopeId>)

  /** One sequence for each field of the scopes that changes; `loopType` matters for the two loop classes only. */
  datatype Arena = Arena(
    nodes: seq<ScopeNode>,
    bindings: seq<map<string, VariableId>>,
    slotIndex: seq<nat>,
    loopType: seq<ScopeType>,
    vars: seq<Variable>)
  {
    predicate Has(s: ScopeId) {
      s < |nodes| == |bindings| == |slotIndex| == |loopType|
    }

    function Type(s: ScopeId): ScopeType
      requires Has(s)
    {
      if IsLoopClass(nodes[s].class_) then loopType[s] else nodes[s].class_
    }

    predicate IsVariableScope(s: ScopeId)
      requires Has(s)
    {
      IsVariableType(Type(s))
    }

    predicate NeedLexEnv(s: ScopeId)
      requires Has(s)
    {
      slotIndex[s] != 0
    }
  }

  /** Enclosing scopes are older, and the top scopes are those of a script or module. */
  predicate TreeOk(nodes: seq<ScopeNode>) {
    forall s {:trigger nodes[s]} :: 0 <= s < |nodes| ==>
      match nodes[s].parent
      case Some(p) => p < s && !IsTopType(nodes[s].class_)
      case None => IsTopType(nodes[s].class_)
  }

  ghost predicate ArenaOk(a: Arena) {
    && TreeOk(a.nodes) && |a.bindings| == |a.slotIndex| == |a.loopType| == |a.nodes|
    && (forall s, n {:trigger n in a.bindings[s]} :: 0 <= s < |a.bindings| && n in a.bindings[s] ==>
          a.bindings[s][n] < |a.vars|)
  }

  /** The scope and its enclosing scopes, innermost first. */
  ghost function Chain(nodes: seq<ScopeNode>, s: ScopeId): (c: seq<ScopeId>)
    requires TreeOk(nodes) && s < |nodes|
    ensures |c| > 0 && c[0] == s
    ensures forall i {:trigger c[i]} :: 0 <= i < |c| ==> c[i] <= s
    decreases s
  {
    [s] + if nodes[s].parent.None? then [] else Chain(nodes, nodes[s].parent.value)
  }

  // ---- Walking outwards.

  ghost function FirstVariableScope(a: Arena, c: seq<ScopeId>): Option<ScopeId>
    requires forall i {:trigger c[i]} :: 0 <= i < |c| ==> a.Has(c[i])
  {
    if c == [] then None else if a.IsVariableScope(c[0]) then Some(c[0]) else FirstVariableScope(a, c[1..])
  }

  method EnclosingVariableScope(a: Arena, s: ScopeId) returns (r: Option<ScopeId>)
    requires ArenaOk(a) && s < |a.nodes|
    ensures r == FirstVariableScope(a, Chain(a.nodes, s))
  {
    var iter: Option<ScopeId> := Some(s);
    while iter.Some?
      invariant iter.Some? ==> iter.value < |a.nodes|
      invariant FirstVariableScope(a, Chain(a.nodes, s)) ==
                if iter.None? then None else FirstVariableScope(a, Chain(a.nodes, iter.value))
      decreases if iter.None? then 0 else iter.value + 1
    {
      if a.IsVariableScope(iter.value) {
        return iter;
      }
      iter := a.nodes[iter.value].parent;
    }
    return None;
  }

  datatype FindResult = NotFound | Found(scope: ScopeId, level: nat, lexLevel: nat, variable: VariableId)

  ghost function Shifted(r: FindResult, level: nat, lexLevel: nat): FindResult {
    if r.NotFound? then r else r.(level := r.level + level, lexLevel := r.lexLevel + lexLevel)
  }

  /** The innermost binding of `name` along `c`, with the number of variable scopes and environments below it. */
  ghost function FindIn(a: Arena, c: seq<ScopeId>, name: string): FindResult
    requires forall i {:trigger c[i]} :: 0 <= i < |c| ==> a.Has(c[i])
  {
    if c == [] then
      NotFound
    else
      assert a.Has(c[0]);
      if name in a.bindings[c[0]] then
        Found(c[0], 0, 0, a.bindings[c[0]][name])
      else
        Shifted(FindIn(a, c[1..], name), if a.IsVariableScope(c[0]) then 1 else 0,
                if a.IsVariableScope(c[0]) && a.NeedLexEnv(c[0]) then 1 else 0)
  }

  /** Walk outwards to the innermost scope binding `name`, counting the variable scopes left behind. */
  method Find(a: Arena, s: ScopeId, name: string) returns (r: FindResult)
    requires ArenaOk(a) && s < |a.nodes|
    ensures r == FindIn(a, Chain(a.nodes, s), name)
  {
    var level, lexLevel := 0, 0;
    var iter: Option<ScopeId> := Some(s);
    while iter.Some?
      invariant iter.Some? ==> iter.value < |a.nodes|
      invariant FindIn(a, Chain(a.nodes, s), name) ==
                if iter.None? then NotFound else Shifted(FindIn(a, Chain(a.nodes, iter.value), name), level, lexLevel)
      decreases if iter.None? then 0 else iter.value + 1
    {
      var here := iter.value;
      if name in a.bindings[here] {
        return Found(here, level, lexLevel, a.bindings[here][name]);
      }
      if a.IsVariableScope(here) {
        level := level + 1;
        if a.NeedLexEnv(here) {
          lexLevel := lexLevel + 1;
        }
      }
      iter := a.nodes[here].parent;
    }
    return NotFound;
  }
}
