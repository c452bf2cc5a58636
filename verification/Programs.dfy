/** What small programs without loops are made of, part by part. */
module Programs {
  import opened Scopes
  import opened SyntaxTree

  type Refs = set<(ScopeId, string)>

  /** The functions, references and marks of `super` in a part of a program. */
  datatype Contents = Contents(functions: seq<ScopeId>, refs: Refs, supers: set<ScopeId>) {
    ghost function And(more: Contents): Contents {
      Contents(functions + more.functions, refs + more.refs, supers + more.supers)
    }
  }

  const NOTHING := Contents([], {}, {})

  /** A part in `cur` that is well scoped, has no loops, and has the contents given. */
  ghost predicate Has(nodes: seq<ScopeNode>, n: Ast, lexes: set<ScopeId>, cur: ScopeId, c: Contents) {
    && Around(nodes, lexes) && WellScoped(nodes, n, lexes) && LoopsOf(nodes, n) == {}
    && c == Contents(FunctionsOf(n), RefsOf(nodes, n, cur), SupersOf(nodes, n, cur))
  }

  ghost predicate AllHave(nodes: seq<ScopeNode>, ns: seq<Ast>, lexes: set<ScopeId>, cur: ScopeId, c: Contents) {
    && Around(nodes, lexes) && AllWellScoped(nodes, ns, lexes) && LoopsOfAll(nodes, ns) == {}
    && c == Contents(FunctionsOfAll(ns), RefsOfAll(nodes, ns, cur), SupersOfAll(nodes, ns, cur))
  }

  lemma None(nodes: seq<ScopeNode>, lexes: set<ScopeId>, cur: ScopeId)
    requires Around(nodes, lexes)
    ensures AllHave(nodes, [], lexes, cur, NOTHING)
  {
  }

  lemma First(nodes: seq<ScopeNode>, n: Ast, ns: seq<Ast>, lexes: set<ScopeId>, cur: ScopeId, c: Contents,
              more: Contents)
    requires Has(nodes, n, lexes, cur, c) && AllHave(nodes, ns, lexes, cur, more)
    ensures AllHave(nodes, [n] + ns, lexes, cur, c.And(more))
  {
    assert ([n] + ns)[1..] == ns;
  }

  lemma Only(nodes: seq<ScopeNode>, n: Ast, lexes: set<ScopeId>, cur: ScopeId, c: Contents)
    requires Has(nodes, n, lexes, cur, c)
    ensures AllHave(nodes, [n], lexes, cur, c)
  {
    None(nodes, lexes, cur);
    hide Has, AllHave, Around;
    First(nodes, n, [], lexes, cur, c, NOTHING);
    assert [n] + [] == [n] && c.And(NOTHING) == c;
  }

  lemma Name(nodes: seq<ScopeNode>, name: string, lexes: set<ScopeId>, cur: ScopeId)
    requires Around(nodes, lexes) && name !in MANDATORY_NAMES
    ensures Has(nodes, Reference(name), lexes, cur, Contents([], {(cur, name)}, {}))
  {
  }

  lemma SuperCall(nodes: seq<ScopeNode>, lexes: set<ScopeId>, cur: ScopeId)
    requires Around(nodes, lexes) && cur < |nodes| && IsFunctionType(nodes[cur].class_)
    ensures Has(nodes, Super, lexes, cur, Contents([], {}, {cur}))
  {
  }

  lemma InScope(nodes: seq<ScopeNode>, s: ScopeId, children: seq<Ast>, lexes: set<ScopeId>, cur: ScopeId, c: Contents)
    requires Around(nodes, lexes) && Within(nodes, s, lexes) && nodes[s].class_ == Local
    requires AllHave(nodes, children, {s}, s, c)
    ensures Has(nodes, Scoped(s, children), lexes, cur, c)
  {
  }

  /** The scopes of a function inside one of `lexes`. */
  ghost predicate FunctionIn(nodes: seq<ScopeNode>, f: ScopeId, lexes: set<ScopeId>) {
    && Around(nodes, lexes) && f < |nodes| && nodes[f].class_ == ScopeType.Function && nodes[f].parent.Some?
    && var p := nodes[f].parent.value;
       && Within(nodes, p, lexes) && nodes[p].class_ == FunctionParam && nodes[f].paramScope == Some(p)
       && nodes[p].kind == nodes[f].kind && Around(nodes, {p}) && Around(nodes, {f})
  }

  lemma Function(nodes: seq<ScopeNode>, f: ScopeId, params: seq<Ast>, body: seq<Ast>, lexes: set<ScopeId>, cur: ScopeId,
                 c: Contents, c': Contents)
    requires FunctionIn(nodes, f, lexes) && c.functions == []
    requires var p := nodes[f].parent.value; AllHave(nodes, params, {p}, p, c)
    requires AllHave(nodes, body, {f}, f, c')
    ensures Has(nodes, ScriptFunction(f, params, body), lexes, cur, Contents([f], {}, {}).And(c).And(c'))
  {
    hide AllWellScoped, FunctionsOfAll, LoopsOfAll, RefsOfAll, SupersOfAll;
    assert Contents([f], {}, {}).And(c).And(c').functions == [] + [f] + c'.functions;
  }
}
