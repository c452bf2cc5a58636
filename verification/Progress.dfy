/** What one stretch of identifier analysis leaves as it was. */
module Progress {
  import opened Scopes
  import opened Slots
  import opened SyntaxTree
  import opened References
  import opened Conversion

  /** Later, and of the loops that were there, only those in `ls` were touched. */
  ghost predicate Advanced(st: State, st': State, ls: set<ScopeId>) {
    && Later(st, st')
    && LoopsStay(st.a, st'.a, ls) && NewAreLocal(st.a, st'.a)
    && (NoMandatoryNames(st.a) ==> NoMandatoryNames(st'.a))
  }

  /** Loops other than `ls` are as they were. */
  ghost predicate LoopsStay(a: Arena, a': Arena, ls: set<ScopeId>) {
    forall s: ScopeId {:trigger a'.Has(s)} :: a.Has(s) && IsLoopClass(a.nodes[s].class_) && s !in ls ==>
      a'.Has(s) && a'.bindings[s] == a.bindings[s] && a'.loopType[s] == a.loopType[s]
  }

  ghost predicate NewAreLocal(a: Arena, a': Arena) {
    forall s {:trigger a'.nodes[s]} :: |a.nodes| <= s < |a'.nodes| ==> a'.nodes[s].class_ == Local
  }

  /** Mandatory parameters have not been added yet. */
  ghost predicate NoMandatoryNames(a: Arena) {
    forall s {:trigger a.bindings[s]} :: 0 <= s < |a.bindings| ==> a.bindings[s].Keys !! MANDATORY_NAMES
  }

  lemma AdvancedReflexive(st: State, ls: set<ScopeId>)
    ensures Advanced(st, st, ls)
  {
    LaterReflexive(st);
  }

  lemma AdvancedTransitive(st: State, st': State, st'': State, ls: set<ScopeId>, ls': set<ScopeId>, all: set<ScopeId>)
    requires Advanced(st, st', ls) && Advanced(st', st'', ls') && ls <= all && ls' <= all
    ensures Advanced(st, st'', all)
  {
    hide Later, LoopsStay, NewAreLocal, NoMandatoryNames;
    LaterTransitive(st, st', st'');
    LaterNodes(st, st');
    LaterNodes(st', st'');
    LoopsStayTransitive(st.a, st'.a, st''.a, ls, ls', all);
    NewAreLocalTransitive(st.a, st'.a, st''.a);
  }

  lemma LoopsStayTransitive(a: Arena, a': Arena, a'': Arena, ls: set<ScopeId>, ls': set<ScopeId>, all: set<ScopeId>)
    requires a.nodes <= a'.nodes && LoopsStay(a, a', ls) && LoopsStay(a', a'', ls') && ls <= all && ls' <= all
    ensures LoopsStay(a, a'', all)
  {
    forall s: ScopeId {:trigger a''.Has(s)} | a.Has(s) && IsLoopClass(a.nodes[s].class_) && s !in all
      ensures a''.Has(s) && a''.bindings[s] == a.bindings[s] && a''.loopType[s] == a.loopType[s]
    {
      assert s !in ls && s !in ls';
      assert a'.Has(s) && a'.nodes[s] == a.nodes[s];
    }
  }

  lemma NewAreLocalTransitive(a: Arena, a': Arena, a'': Arena)
    requires a'.nodes <= a''.nodes && NewAreLocal(a, a') && NewAreLocal(a', a'')
    ensures NewAreLocal(a, a'')
  {
    forall s {:trigger a''.nodes[s]} | |a.nodes| <= s < |a''.nodes|
      ensures a''.nodes[s].class_ == Local
    {
      assert s < |a'.nodes| ==> a''.nodes[s] == a'.nodes[s];
    }
  }

  lemma LaterNodes(st: State, st': State)
    requires Later(st, st')
    ensures st.a.nodes <= st'.a.nodes
  {
  }

  lemma AdvancedKeepsOpen(st: State, st': State, ls: set<ScopeId>, s: ScopeId)
    requires ArenaOk(st.a) && ArenaOk(st'.a) && Advanced(st, st', ls) && s < |st.a.nodes| && Open(st.a, s)
    requires forall l {:trigger l in ls} :: l in ls ==> l !in Chain(st.a.nodes, s)
    ensures Open(st'.a, s)
  {
    forall l: ScopeId | l in Chain(st.a.nodes, s) && Converted(st'.a, l)
      ensures Converted(st.a, l)
    {
      assert st.a.Has(l) && st'.a.nodes[l] == st.a.nodes[l];
      assert st'.a.Has(l);
    }
    StaysOpen(st.a, st'.a, s);
  }

  /** Loops still to be converted. */
  ghost predicate Unconverted(a: Arena, ls: set<ScopeId>) {
    forall l {:trigger l in ls} :: l in ls && a.Has(l) ==> !Converted(a, l)
  }

  lemma AdvancedKeepsLoops(st: State, st': State, ls: set<ScopeId>, others: set<ScopeId>)
    requires ArenaOk(st.a) && ArenaOk(st'.a) && Advanced(st, st', ls) && ls !! others
    requires forall l {:trigger l in others} :: l in others ==> st.a.Has(l) && IsLoopClass(st.a.nodes[l].class_)
    ensures Unconverted(st.a, others) ==> Unconverted(st'.a, others)
  {
    forall l {:trigger l in others} | l in others
      ensures st'.a.Has(l) && st'.a.nodes[l] == st.a.nodes[l] && Converted(st'.a, l) == Converted(st.a, l)
    {
      assert st.a.Has(l) && st'.a.Has(l);
    }
  }

  // ---- Each kind of step.

  /** Steps outside loop conversion leave loop types alone, and bind names in function and parameter scopes only. */
  lemma PlainStepAdvances(st: State, st': State, t: ScopeId, f: ScopeId)
    requires ArenaOk(st.a) && ArenaOk(st'.a) && Later(st, st') && st'.a.nodes == st.a.nodes
    requires st'.a.loopType == st.a.loopType
    requires st.a.Has(t) && st.a.Has(f) && !IsLoopClass(st.a.nodes[t].class_) && !IsLoopClass(st.a.nodes[f].class_)
    requires forall s {:trigger st'.a.bindings[s]} :: 0 <= s < |st.a.bindings| && s != t && s != f ==>
      st'.a.bindings[s] == st.a.bindings[s]
    requires NoMandatoryNames(st.a) ==> NoMandatoryNames(st'.a)
    ensures Advanced(st, st', {})
  {
    forall s: ScopeId {:trigger st.a.Has(s)} | st.a.Has(s) && IsLoopClass(st.a.nodes[s].class_)
      ensures st'.a.Has(s) && st'.a.bindings[s] == st.a.bindings[s]
    {
    }
  }

  lemma ConversionAdvances(st0: State, copied: Arena, a1: Arena, st: State, d: ScopeId, body: ScopeId)
    requires IsForLoop(st0, d, body) && HeadConverted(st0.a, copied, a1, d, body)
    requires ArenaOk(a1) && a1.Has(d) && a1.Has(body) && BodyConverted(a1, st.a, d, body) && Later(st0, st)
    requires ArenaOk(st.a)
    ensures Advanced(st0, st, {d, body})
  {
    forall s: ScopeId {:trigger st0.a.Has(s)} | st0.a.Has(s) && s != d && s != body
      ensures st.a.Has(s) && st.a.bindings[s] == st0.a.bindings[s] && st.a.loopType[s] == st0.a.loopType[s]
    {
      assert copied.bindings[s] == st0.a.bindings[s];
      assert a1.Has(s) && a1.bindings[s] == copied.bindings[s] && a1.loopType[s] == copied.loopType[s];
    }
    assert forall s {:trigger st.a.nodes[s]} :: |st0.a.nodes| <= s < |st.a.nodes| ==> st.a.nodes[s].class_ == Local;
    if NoMandatoryNames(st0.a) {
      assert NoMandatoryNames(a1);
    }
  }

  // ---- Going from one part of the tree to the next.

  /** Around `scopes` no loop has been converted, and those in `ls` are still to come. */
  ghost predicate Ready(tree: seq<ScopeNode>, st: State, scopes: set<ScopeId>, ls: set<ScopeId>) {
    && ArenaOk(st.a) && tree <= st.a.nodes && Around(tree, scopes) && Apart(tree, scopes, ls)
    && (forall p {:trigger p in scopes} :: p in scopes ==> Open(st.a, p))
    && (forall l {:trigger l in ls} :: l in ls ==> l < |tree| && IsLoopClass(tree[l].class_) && !Converted(st.a, l))
  }

  /** After a part of the tree with the loops `ls`, another part can follow. */
  lemma StaysReady(tree: seq<ScopeNode>, st: State, st': State, scopes: set<ScopeId>, ls: set<ScopeId>,
                   rest: set<ScopeId>)
    requires Ready(tree, st, scopes, ls + rest) && ls !! rest && Advanced(st, st', ls) && ArenaOk(st'.a)
    ensures Ready(tree, st', scopes, rest)
  {
    forall p {:trigger p in scopes} | p in scopes
      ensures Open(st'.a, p)
    {
      ChainKept(tree, st.a.nodes, p);
      AdvancedKeepsOpen(st, st', ls, p);
    }
    assert forall l {:trigger l in rest} :: l in rest ==> l in ls + rest;
    AdvancedKeepsLoops(st, st', ls, rest);
    assert Apart(tree, scopes, rest);
    forall l {:trigger l in rest} | l in rest
      ensures !Converted(st'.a, l)
    {
      assert Unconverted(st.a, rest);
      assert st'.a.Has(l);
    }
  }

  lemma {:induction false} ChainKept(nodes: seq<ScopeNode>, nodes': seq<ScopeNode>, s: ScopeId)
    requires TreeOk(nodes) && TreeOk(nodes') && nodes <= nodes' && s < |nodes|
    ensures Chain(nodes', s) == Chain(nodes, s)
    decreases s
  {
    assert nodes'[s] == nodes[s];
    if nodes[s].parent.Some? {
      ChainKept(nodes, nodes', nodes[s].parent.value);
    }
  }

  /** Entering a scope that lies directly in one of `scopes` and is not converted. */
  lemma EnterScope(tree: seq<ScopeNode>, st: State, scopes: set<ScopeId>, s: ScopeId, inner: set<ScopeId>,
                   ls: set<ScopeId>)
    requires Ready(tree, st, scopes, ls) && Within(tree, s, scopes) && !Converted(st.a, s)
    requires inner <= scopes + {s} && Apart(tree, {s}, ls)
    ensures Ready(tree, st, inner, ls)
  {
    assert st.a.nodes[s] == tree[s];
    forall p {:trigger p in inner} | p in inner
      ensures p < |tree| && Open(st.a, p)
    {
      assert p in scopes || p == s;
    }
    forall p {:trigger p in inner} | p in inner
      ensures NotAround(tree, p, ls)
    {
      assert p in scopes || p in {s};
    }
  }

  lemma Narrow(tree: seq<ScopeNode>, st: State, scopes: set<ScopeId>, ls: set<ScopeId>, inner: set<ScopeId>,
               fewer: set<ScopeId>)
    requires Ready(tree, st, scopes, ls) && inner <= scopes && fewer <= ls
    ensures Ready(tree, st, inner, fewer)
  {
    assert forall l {:trigger l in fewer} :: l in fewer ==> l in ls;
    assert forall p {:trigger p in inner} :: p in inner ==> p in scopes;
  }

  /** An open body scope is one that can be converted. */
  lemma OpenIsForLoop(tree: seq<ScopeNode>, st: State, l: ScopeId, scopes: set<ScopeId>)
    requires Inv(st) && tree <= st.a.nodes && Around(tree, scopes) && ForScopes(tree, l, scopes) && Open(st.a, l)
    requires forall s {:trigger s in st.g.initOf} :: s in st.g.initOf ==> |tree| <= s
    ensures st.a.nodes[l] == tree[l] && IsForLoop(st, tree[l].declScope.value, l)
  {
    OpenIsPlain(st.a, l, l);
  }

  /** Entering the scope of a loop that is never converted. */
  lemma EnterLoop(tree: seq<ScopeNode>, st: State, scopes: set<ScopeId>, lexes: set<ScopeId>, l: ScopeId,
                  ls: set<ScopeId>)
    requires Ready(tree, st, scopes, ls + {l}) && lexes <= scopes && Within(tree, l, lexes) && NotAround(tree, l, ls)
    ensures Ready(tree, st, scopes + {l}, ls)
  {
    assert l in ls + {l};
    Narrow(tree, st, scopes, ls + {l}, scopes, ls);
    assert Apart(tree, {l}, ls);
    EnterScope(tree, st, scopes, l, scopes + {l}, ls);
  }
}
