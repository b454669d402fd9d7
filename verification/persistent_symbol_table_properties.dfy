/** Properties of the persistent symbol table, ending with the two
    scenarios of `server/test/persistentSymbolTable.test.ts`. */
module PersistentSymbolTableProperties {
  import opened Outcomes
  import opened Symbols
  import opened PersistentSymbolTable

  // ---------------------------------------------------------------------
  // Helpers: lookups only depend on what they read
  // ---------------------------------------------------------------------

  lemma {:induction false} LookupLiveSame(t: Table, u: Table, name: string, n: nat)
    requires LiveInRange(t) && LiveInRange(u) && t.live == u.live && n <= |t.live|
    requires forall k :: 0 <= k < |t.live| ==>
               VersionsOf(t.scopes[t.live[k]], name) == VersionsOf(u.scopes[u.live[k]], name)
    ensures LookupLive(t, name, n) == LookupLive(u, name, n)
  {
    if n > 0 {
      assert VersionsOf(t.scopes[t.live[n - 1]], name) == VersionsOf(u.scopes[u.live[n - 1]], name);
      LookupLiveSame(t, u, name, n - 1);
    }
  }

  lemma {:induction false} InnermostSame(t: Table, u: Table, line: int, n: nat)
    requires n <= |t.scopes| && n <= |u.scopes|
    requires forall i :: 0 <= i < n ==>
               t.scopes[i].openedAt == u.scopes[i].openedAt && t.scopes[i].closedAt == u.scopes[i].closedAt
    ensures InnermostCovering(t, line, n) == InnermostCovering(u, line, n)
  {
    if n > 0 {
      InnermostSame(t, u, line, n - 1);
    }
  }

  lemma {:induction false} LookupChainSame(t: Table, u: Table, i: nat, name: string, line: int)
    requires ParentsBefore(t) && ParentsBefore(u) && i < |t.scopes| && i < |u.scopes|
    requires forall j :: 0 <= j <= i ==> t.scopes[j].parent == u.scopes[j].parent
    requires forall j :: 0 <= j <= i ==>
               LatestBefore(VersionsOf(t.scopes[j], name), line) == LatestBefore(VersionsOf(u.scopes[j], name), line)
    ensures LookupChainAt(t, i, name, line) == LookupChainAt(u, i, name, line)
    decreases i
  {
    if LatestBefore(VersionsOf(t.scopes[i], name), line).None? && t.scopes[i].parent.Some? {
      LookupChainSame(t, u, t.scopes[i].parent.value, name, line);
    }
  }

  /** A version defined at or after `line` does not change what is in
      force at `line`. */
  lemma LatestBeforeIgnoresLater(vs: seq<Version>, v: Version, line: int)
    requires v.line >= line
    ensures LatestBefore(vs + [v], line) == LatestBefore(vs, line)
  {
    assert (vs + [v])[..|vs|] == vs;
  }

  // ---------------------------------------------------------------------
  // Definitions
  // ---------------------------------------------------------------------

  /** The initial scope's symbols resolve through the current lookup. */
  lemma NewTableLookup(initial: map<string, Symbol>, name: string)
    ensures Lookup(NewTable(initial), name) == if name in initial then Some(initial[name]) else None
  {
    var t := NewTable(initial);
    assert LookupLive(t, name, 0) == None;
  }

  /** After `define(s, line)` the current lookup of `s.name` is `s`. */
  lemma LookupAfterDefine(t: Table, s: Symbol, line: int)
    requires Valid(t)
    ensures Lookup(Define(t, s, line), s.name) == Some(s)
  {
  }

  /** `define` does not change the current lookup of any other name. */
  lemma LookupOtherName(t: Table, s: Symbol, line: int, name: string)
    requires Valid(t) && name != s.name
    ensures Lookup(Define(t, s, line), name) == Lookup(t, name)
  {
    LookupLiveSame(Define(t, s, line), t, name, |t.live|);
  }

  /** A version defined at line L is invisible to queries at L or earlier:
      the table answers them exactly as it did before the definition. */
  lemma DefinitionNotInForceAtItsLine(t: Table, s: Symbol, line: int, name: string, at: int)
    requires Valid(t) && at <= line
    ensures LookupAt(Define(t, s, line), name, at) == LookupAt(t, name, at)
  {
    var u := Define(t, s, line);
    InnermostSame(u, t, at, |t.scopes|);
    forall j | 0 <= j < |t.scopes|
      ensures LatestBefore(VersionsOf(u.scopes[j], name), at) == LatestBefore(VersionsOf(t.scopes[j], name), at)
    {
      if j == Top(t) && name == s.name {
        LatestBeforeIgnoresLater(VersionsOf(t.scopes[j], name), Version(s, line), at);
      }
    }
    match InnermostCovering(t, at, |t.scopes|)
    case None =>
    case Some(i) => LookupChainSame(u, t, i, name, at);
  }

  /** A version defined before line L is the one in force at L when the
      top scope is the innermost scope covering L. */
  lemma DefinitionInForceLater(t: Table, s: Symbol, line: int, at: int)
    requires Valid(t) && line < at
    requires InnermostCovering(t, at, |t.scopes|) == Some(Top(t))
    ensures LookupAt(Define(t, s, line), s.name, at) == Some(s)
  {
    var u := Define(t, s, line);
    InnermostSame(u, t, at, |t.scopes|);
  }

  // ---------------------------------------------------------------------
  // Scopes
  // ---------------------------------------------------------------------

  /** Popping the only open scope is refused: the table is unchanged. */
  lemma PopRootIsNoOp(t: Table, line: int)
    requires Valid(t) && |t.live| == 1
    ensures Pop(t, line) == t
  {
  }

  /** A scope pushed, filled and popped is invisible to current lookups:
      every name resolves as it did before the push. */
  lemma PoppedScopeInvisible(t: Table, scope: string, openLine: int, s: Symbol, defLine: int, closeLine: int, name: string)
    requires Valid(t)
    ensures Lookup(Pop(Define(Push(t, scope, openLine), s, defLine), closeLine), name) == Lookup(t, name)
  {
    PushDefinePopRestores(t, scope, openLine, s, defLine, closeLine, name);
  }

  /** After push, define and pop, the live search for `name` answers as
      before the push. */
  lemma PushDefinePopRestores(t: Table, scope: string, openLine: int, s: Symbol, defLine: int, closeLine: int, name: string)
    requires Valid(t)
    ensures var u := Pop(Define(Push(t, scope, openLine), s, defLine), closeLine);
            LiveInRange(u) && LiveInRange(t) && |u.live| == |t.live|
            && LookupLive(u, name, |u.live|) == LookupLive(t, name, |t.live|)
  {
    var p := Push(t, scope, openLine);
    var d := Define(p, s, defLine);
    var u := Pop(d, closeLine);
    assert Top(p) == |t.scopes| && Top(d) == |t.scopes|;
    forall i | 0 <= i < |t.scopes|
      ensures VersionsOf(u.scopes[i], name) == VersionsOf(t.scopes[i], name)
    {
      assert u.scopes[i] == d.scopes[i];
      assert VersionsOf(d.scopes[i], name) == VersionsOf(p.scopes[i], name);
      assert p.scopes[i] == p.scopes[..|t.scopes|][i];
    }
    LookupLiveSame(u, t, name, |t.live|);
  }

  /** The popped scope stays archived: a query at a line it covered, after
      the definition, still finds the symbol. */
  lemma ArchivedScopeAnswersByLine(t: Table, scope: string, openLine: int, s: Symbol, defLine: int, closeLine: int, at: int)
    requires Valid(t) && openLine <= at <= closeLine && defLine < at
    ensures LookupAt(Pop(Define(Push(t, scope, openLine), s, defLine), closeLine), s.name, at) == Some(s)
  {
    var pushed := Push(t, scope, openLine);
    var u := Pop(Define(pushed, s, defLine), closeLine);
    var k := |t.scopes|;
    assert u.scopes[k].openedAt == openLine && u.scopes[k].closedAt == Some(closeLine);
    assert InnermostCovering(u, at, |u.scopes|) == Some(k);
    assert VersionsOf(u.scopes[k], s.name) == [Version(s, defLine)];
  }

  /** The popped scope answers nothing outside the lines it covered: a
      query before its opening or after its closing is answered exactly as
      before the push. */
  lemma ArchivedScopeSilentOutside(t: Table, scope: string, openLine: int, s: Symbol, defLine: int, closeLine: int,
                                   name: string, at: int)
    requires Valid(t) && (at < openLine || closeLine < at)
    ensures LookupAt(Pop(Define(Push(t, scope, openLine), s, defLine), closeLine), name, at) == LookupAt(t, name, at)
  {
    var u := Pop(Define(Push(t, scope, openLine), s, defLine), closeLine);
    var k := |t.scopes|;
    PushDefinePopKeepsOlder(t, scope, openLine, s, defLine, closeLine, name, at);
    assert InnermostCovering(u, at, k + 1) == InnermostCovering(u, at, k);
    InnermostSame(u, t, at, k);
    match InnermostCovering(t, at, k)
    case None =>
    case Some(i) => LookupChainSame(u, t, i, name, at);
  }

  /** After push, define and pop, the scopes that existed before the push
      cover the same lines, have the same parents and have the same versions
      in force; the new scope covers exactly its open/close interval. */
  lemma PushDefinePopKeepsOlder(t: Table, scope: string, openLine: int, s: Symbol, defLine: int, closeLine: int,
                                name: string, at: int)
    requires Valid(t)
    ensures var u := Pop(Define(Push(t, scope, openLine), s, defLine), closeLine);
            && |u.scopes| == |t.scopes| + 1 && ParentsBefore(u) && ParentsBefore(t)
            && (Covers(u.scopes[|t.scopes|], at) <==> openLine <= at <= closeLine)
            && forall j :: 0 <= j < |t.scopes| ==>
                 && u.scopes[j].openedAt == t.scopes[j].openedAt && u.scopes[j].closedAt == t.scopes[j].closedAt
                 && u.scopes[j].parent == t.scopes[j].parent
                 && LatestBefore(VersionsOf(u.scopes[j], name), at) == LatestBefore(VersionsOf(t.scopes[j], name), at)
  {
    var p := Push(t, scope, openLine);
    var d := Define(p, s, defLine);
    var u := Pop(d, closeLine);
    var k := |t.scopes|;
    assert Top(p) == k && Top(d) == k;
    assert u.scopes[k].openedAt == openLine && u.scopes[k].closedAt == Some(closeLine);
    forall j | 0 <= j < k
      ensures && u.scopes[j].openedAt == t.scopes[j].openedAt && u.scopes[j].closedAt == t.scopes[j].closedAt
              && u.scopes[j].parent == t.scopes[j].parent
              && VersionsOf(u.scopes[j], name) == VersionsOf(t.scopes[j], name)
    {
      assert u.scopes[j] == d.scopes[j];
      assert p.scopes[j] == p.scopes[..k][j];
    }
  }

  // ---------------------------------------------------------------------
  // The scenarios of the test file
  // ---------------------------------------------------------------------

  /** "with a variable b in a global scope": `b` is defined as a number at
      line 2, then as a string at line 3. */
  lemma GlobalScopeScenario()
    ensures var t0 := NewTable(QiskitInitialScope());
            && Lookup(t0, "number") == Some(NumberType)
            && Lookup(t0, "string") == Some(StringType)
            && var t1 := Define(t0, VariableSymbol("b", NumberType), 2);
            && Lookup(t1, "b").Some? && Lookup(t1, "b").value.ofType == Some(NumberType)
            && var t2 := Define(t1, VariableSymbol("b", StringType), 3);
            && Lookup(t2, "b").Some? && Lookup(t2, "b").value.ofType == Some(StringType)
            && LookupAt(t2, "b", 3).Some? && LookupAt(t2, "b", 3).value.ofType == Some(NumberType)
  {
    var t0 := NewTable(QiskitInitialScope());
    NewTableLookup(QiskitInitialScope(), "number");
    NewTableLookup(QiskitInitialScope(), "string");
    var numberB := VariableSymbol("b", NumberType);
    var stringB := VariableSymbol("b", StringType);
    var t1 := Define(t0, numberB, 2);
    LookupAfterDefine(t0, numberB, 2);
    var t2 := Define(t1, stringB, 3);
    LookupAfterDefine(t1, stringB, 3);
    DefinitionNotInForceAtItsLine(t1, stringB, 3, "b", 3);
    assert InnermostCovering(t0, 3, 1) == Some(0);
    DefinitionInForceLater(t0, numberB, 2, 3);
  }

  /** "with a variable c in a local scope": a scope opened at line 3 defines
      `c` as a string at line 5 and is closed at line 7; after line 7 the
      archived `c` is no longer found by line either. */
  lemma LocalScopeScenario()
    ensures var t1 := Define(NewTable(QiskitInitialScope()), VariableSymbol("b", NumberType), 2);
            var t5 := Pop(Define(Push(t1, "new scope", 3), VariableSymbol("c", StringType), 5), 7);
            && Lookup(t5, "c") == None
            && LookupAt(t5, "c", 6).Some? && LookupAt(t5, "c", 6).value.ofType == Some(StringType)
            && LookupAt(t5, "c", 8) == None
  {
    var t0 := NewTable(QiskitInitialScope());
    var numberB := VariableSymbol("b", NumberType);
    var stringC := VariableSymbol("c", StringType);
    var t1 := Define(t0, numberB, 2);
    NewTableLookup(QiskitInitialScope(), "c");
    LookupOtherName(t0, numberB, 2, "c");
    PoppedScopeInvisible(t1, "new scope", 3, stringC, 5, 7, "c");
    ArchivedScopeAnswersByLine(t1, "new scope", 3, stringC, 5, 7, 6);
    ArchivedScopeSilentOutside(t1, "new scope", 3, stringC, 5, 7, "c", 8);
    assert VersionsOf(t1.scopes[0], "c") == [];
  }
}
