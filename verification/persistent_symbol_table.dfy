/** The persistent, line-versioned symbol table whose behaviour
    `server/test/persistentSymbolTable.test.ts` pins down.

    Scopes live in an append-only arena and refer to their parent by index;
    the live stack lists the indices of the scopes still open, root first.
    A popped scope stays in the arena with its closing line, so queries by
    line still find it while current lookups no longer do. Every name keeps
    the list of its versions, each with the line that defined it. */
module PersistentSymbolTable {
  import opened Outcomes
  import opened Symbols

  datatype Version = Version(symbol: Symbol, line: int)

  datatype Scope = Scope(
    name: string,
    openedAt: int,
    closedAt: Option<int>,
    parent: Option<nat>,
    versions: map<string, seq<Version>>)

  datatype Table = Table(scopes: seq<Scope>, live: seq<nat>)

  /** The representation invariant: the root is scope 0 and always open;
      every other scope's parent comes before it; the live stack is a chain
      of parents ending at the top; exactly the live scopes are open. */
  predicate Valid(t: Table) {
    && |t.scopes| > 0
    && |t.live| > 0
    && t.live[0] == 0
    && t.scopes[0].parent.None?
    && (forall i :: 0 < i < |t.scopes| ==> t.scopes[i].parent.Some? && t.scopes[i].parent.value < i)
    && (forall k :: 0 <= k < |t.live| ==> t.live[k] < |t.scopes| && t.scopes[t.live[k]].closedAt.None?)
    && (forall k :: 0 < k < |t.live| ==> t.scopes[t.live[k]].parent == Some(t.live[k - 1]))
    && (forall i :: 0 <= i < |t.scopes| && t.scopes[i].closedAt.None? ==> i in t.live)
  }

  function Top(t: Table): nat
    requires Valid(t)
  {
    t.live[|t.live| - 1]
  }

  function VersionsOf(s: Scope, name: string): seq<Version> {
    if name in s.versions then s.versions[name] else []
  }

  /** The built-in types of the initial scope: `number` and `string`. */
  const NumberType := ClassSymbol("number", [])
  const StringType := ClassSymbol("string", [])

  function QiskitInitialScope(): map<string, Symbol> {
    map["number" := NumberType, "string" := StringType]
  }

  /** `new PersistentSymbolTable(initialScope)`: a root scope open from line
      0 on, holding each initial symbol as a version defined at line 0. */
  function NewTable(initial: map<string, Symbol>): (t: Table)
    ensures Valid(t)
    ensures t.live == [0] && |t.scopes| == 1
  {
    Table([Scope("global", 0, None, None, map n | n in initial :: [Version(initial[n], 0)])], [0])
  }

  /** `push(name, line)`: opens a child of the top scope, which becomes the top. */
  function Push(t: Table, name: string, line: int): (r: Table)
    requires Valid(t)
    ensures Valid(r)
    ensures |r.scopes| == |t.scopes| + 1 && r.scopes[..|t.scopes|] == t.scopes
    ensures r.live == t.live + [|t.scopes|]
    ensures r.scopes[|t.scopes|] == Scope(name, line, None, Some(Top(t)), map[])
  {
    var k := |t.scopes|;
    var r := Table(t.scopes + [Scope(name, line, None, Some(Top(t)), map[])], t.live + [k]);
    PushKeepsValid(t, r, name, line);
    r
  }

  lemma PushKeepsValid(t: Table, r: Table, name: string, line: int)
    requires Valid(t)
    requires r.scopes == t.scopes + [Scope(name, line, None, Some(Top(t)), map[])]
    requires r.live == t.live + [|t.scopes|]
    ensures Valid(r)
  {
    var k := |t.scopes|;
    assert forall i :: 0 <= i < k ==> r.scopes[i] == t.scopes[i];
    assert forall j :: 0 <= j < |t.live| ==> r.live[j] == t.live[j];
    forall i | 0 <= i < |r.scopes| && r.scopes[i].closedAt.None?
      ensures i in r.live
    {
      if i < k {
        assert i in t.live;
      } else {
        assert r.live[|r.live| - 1] == i;
      }
    }
    forall j | 0 < j < |r.live|
      ensures r.scopes[r.live[j]].parent == Some(r.live[j - 1])
    {
      if j == |r.live| - 1 {
        assert r.live[j - 1] == Top(t);
      }
    }
  }

  /** `pop(line)`: closes the top scope at `line` and keeps it in the
      archive; the parent becomes the top. The root is never popped: a pop
      with only the root open changes nothing. */
  function Pop(t: Table, line: int): (r: Table)
    requires Valid(t)
    ensures Valid(r)
    ensures |t.live| == 1 ==> r == t
    ensures |t.live| > 1 ==>
              && r.live == t.live[..|t.live| - 1]
              && |r.scopes| == |t.scopes|
              && r.scopes[Top(t)] == t.scopes[Top(t)].(closedAt := Some(line))
              && forall i :: 0 <= i < |t.scopes| && i != Top(t) ==> r.scopes[i] == t.scopes[i]
  {
    if |t.live| == 1 then t
    else
      var top := Top(t);
      var r := Table(t.scopes[top := t.scopes[top].(closedAt := Some(line))], t.live[..|t.live| - 1]);
      PopKeepsValid(t, r, line);
      r
  }

  lemma PopKeepsValid(t: Table, r: Table, line: int)
    requires Valid(t) && |t.live| > 1
    requires r.scopes == t.scopes[Top(t) := t.scopes[Top(t)].(closedAt := Some(line))]
    requires r.live == t.live[..|t.live| - 1]
    ensures Valid(r)
  {
    var top := Top(t);
    var n := |r.live|;
    LiveIncreasing(t);
    assert forall k :: 0 <= k < n ==> r.live[k] == t.live[k];
    forall k | 0 <= k < n
      ensures r.live[k] < |r.scopes| && r.scopes[r.live[k]] == t.scopes[r.live[k]]
    {
      assert t.live[k] < t.live[n];
    }
    forall i | 0 <= i < |r.scopes| && r.scopes[i].closedAt.None?
      ensures i in r.live
    {
      assert i != top && r.scopes[i] == t.scopes[i];
      var k :| 0 <= k < |t.live| && t.live[k] == i;
      assert k < n && r.live[k] == i;
    }
  }

  /** `define(symbol, line)`: appends a version of `symbol.name` to the top
      scope, keeping the older versions. */
  function Define(t: Table, symbol: Symbol, line: int): (r: Table)
    requires Valid(t)
    ensures Valid(r)
    ensures r.live == t.live && |r.scopes| == |t.scopes|
    ensures forall i :: 0 <= i < |t.scopes| ==>
              && r.scopes[i].openedAt == t.scopes[i].openedAt
              && r.scopes[i].closedAt == t.scopes[i].closedAt
              && r.scopes[i].parent == t.scopes[i].parent
    ensures VersionsOf(r.scopes[Top(t)], symbol.name) == VersionsOf(t.scopes[Top(t)], symbol.name) + [Version(symbol, line)]
    ensures forall i, n :: 0 <= i < |t.scopes| && (i != Top(t) || n != symbol.name) ==>
              VersionsOf(r.scopes[i], n) == VersionsOf(t.scopes[i], n)
  {
    var top := Top(t);
    var s := t.scopes[top];
    var s' := s.(versions := s.versions[symbol.name := VersionsOf(s, symbol.name) + [Version(symbol, line)]]);
    Table(t.scopes[top := s'], t.live)
  }

  /** The live stack is strictly increasing, so its indices are distinct. */
  lemma {:induction false} LiveIncreasing(t: Table)
    requires Valid(t)
    ensures forall j, k :: 0 <= j < k < |t.live| ==> t.live[j] < t.live[k]
  {
    forall j, k | 0 <= j < k < |t.live|
      ensures t.live[j] < t.live[k]
    {
      LiveIncreasingFrom(t, j, k);
    }
  }

  lemma {:induction false} LiveIncreasingFrom(t: Table, j: nat, k: nat)
    requires Valid(t) && j < k < |t.live|
    ensures t.live[j] < t.live[k]
    decreases k - j
  {
    assert t.scopes[t.live[k]].parent == Some(t.live[k - 1]);
    if j < k - 1 {
      LiveIncreasingFrom(t, j, k - 1);
    }
  }

  // ---------------------------------------------------------------------
  // Lookups
  // ---------------------------------------------------------------------

  /** `lookup(name)`: the newest version of `name` in the innermost live
      scope that has one; scopes already popped are not searched. */
  function Lookup(t: Table, name: string): (r: Option<Symbol>)
    requires Valid(t)
    ensures r.None? <==> forall k :: 0 <= k < |t.live| ==> |VersionsOf(t.scopes[t.live[k]], name)| == 0
    ensures r.Some? ==> exists k :: 0 <= k < |t.live| && IsNewestIn(t.scopes[t.live[k]], name, r.value)
                                    && forall j :: k < j < |t.live| ==> |VersionsOf(t.scopes[t.live[j]], name)| == 0
  {
    LookupLiveNone(t, name, |t.live|);
    if LookupLive(t, name, |t.live|).Some? then
      LookupLiveNewest(t, name, |t.live|);
      LookupLive(t, name, |t.live|)
    else None
  }

  /** Every live index names a scope: all the live search needs. */
  predicate LiveInRange(t: Table) {
    forall k :: 0 <= k < |t.live| ==> t.live[k] < |t.scopes|
  }

  /** `symbol` is the newest version of `name` defined in scope `s`. */
  predicate IsNewestIn(s: Scope, name: string, symbol: Symbol) {
    |VersionsOf(s, name)| > 0 && VersionsOf(s, name)[|VersionsOf(s, name)| - 1].symbol == symbol
  }

  /** Searches the live scopes `live[n-1]`, ..., `live[0]`, innermost first. */
  function LookupLive(t: Table, name: string, n: nat): (r: Option<Symbol>)
    requires LiveInRange(t) && n <= |t.live|
    ensures r.Some? ==> exists k :: 0 <= k < n && |VersionsOf(t.scopes[t.live[k]], name)| > 0
  {
    if n == 0 then None
    else
      var vs := VersionsOf(t.scopes[t.live[n - 1]], name);
      if |vs| > 0 then Some(vs[|vs| - 1].symbol) else LookupLive(t, name, n - 1)
  }

  /** The live search finds nothing exactly when no searched scope has the
      name. */
  lemma {:induction false} LookupLiveNone(t: Table, name: string, n: nat)
    requires LiveInRange(t) && n <= |t.live|
    ensures LookupLive(t, name, n).None? <==> forall k :: 0 <= k < n ==> |VersionsOf(t.scopes[t.live[k]], name)| == 0
  {
    if n > 0 {
      LookupLiveNone(t, name, n - 1);
    }
  }

  /** What the live search finds is the newest version in the innermost
      searched scope that has the name. */
  lemma {:induction false} LookupLiveNewest(t: Table, name: string, n: nat)
    requires LiveInRange(t) && n <= |t.live| && LookupLive(t, name, n).Some?
    ensures exists k :: 0 <= k < n && IsNewestIn(t.scopes[t.live[k]], name, LookupLive(t, name, n).value)
                        && forall j :: k < j < n ==> |VersionsOf(t.scopes[t.live[j]], name)| == 0
  {
    var r := LookupLive(t, name, n).value;
    var inner := t.scopes[t.live[n - 1]];
    if |VersionsOf(inner, name)| > 0 {
      assert IsNewestIn(inner, name, r);
    } else {
      assert LookupLive(t, name, n - 1) == Some(r);
      LookupLiveNewest(t, name, n - 1);
      var k :| 0 <= k < n - 1 && IsNewestIn(t.scopes[t.live[k]], name, r)
               && forall j :: k < j < n - 1 ==> |VersionsOf(t.scopes[t.live[j]], name)| == 0;
      assert 0 <= k < n && IsNewestIn(t.scopes[t.live[k]], name, r);
      forall j | k < j < n
        ensures |VersionsOf(t.scopes[t.live[j]], name)| == 0
      {
        if j == n - 1 {
          assert t.scopes[t.live[j]] == inner;
        }
      }
    }
  }

  /** A scope covers a line from its opening line through its closing line. */
  predicate Covers(s: Scope, line: int) {
    s.openedAt <= line && (s.closedAt.None? || line <= s.closedAt.value)
  }

  /** The innermost scope covering `line`: the one opened last among those
      with index below `n`. Scopes nest, so the last opened is innermost. */
  function InnermostCovering(t: Table, line: int, n: nat): (r: Option<nat>)
    requires n <= |t.scopes|
    ensures r.Some? ==> r.value < n && Covers(t.scopes[r.value], line)
                        && forall i :: r.value < i < n ==> !Covers(t.scopes[i], line)
    ensures r.None? ==> forall i :: 0 <= i < n ==> !Covers(t.scopes[i], line)
  {
    if n == 0 then None
    else if Covers(t.scopes[n - 1], line) then Some(n - 1)
    else InnermostCovering(t, line, n - 1)
  }

  /** The newest version defined strictly before `line`. */
  function LatestBefore(vs: seq<Version>, line: int): (r: Option<Version>)
    ensures r.Some? ==> exists i :: 0 <= i < |vs| && vs[i] == r.value && r.value.line < line
                                    && forall j :: i < j < |vs| ==> vs[j].line >= line
    ensures r.None? <==> forall i :: 0 <= i < |vs| ==> vs[i].line >= line
  {
    if |vs| == 0 then None
    else if vs[|vs| - 1].line < line then Some(vs[|vs| - 1])
    else
      var r := LatestBefore(vs[..|vs| - 1], line);
      LatestBeforeStep(vs, line, r);
      r
  }

  /** The step of `LatestBefore` over a last version defined at `line` or
      later: what holds of the answer for all but the last version holds
      for all. */
  lemma LatestBeforeStep(vs: seq<Version>, line: int, r: Option<Version>)
    requires |vs| > 0 && vs[|vs| - 1].line >= line
    requires var init := vs[..|vs| - 1];
             && (r.Some? ==> exists i :: 0 <= i < |init| && init[i] == r.value && r.value.line < line
                                         && forall j :: i < j < |init| ==> init[j].line >= line)
             && (r.None? <==> forall i :: 0 <= i < |init| ==> init[i].line >= line)
    ensures r.Some? ==> exists i :: 0 <= i < |vs| && vs[i] == r.value && r.value.line < line
                                    && forall j :: i < j < |vs| ==> vs[j].line >= line
    ensures r.None? <==> forall i :: 0 <= i < |vs| ==> vs[i].line >= line
  {
    var init := vs[..|vs| - 1];
    assert forall i :: 0 <= i < |init| ==> init[i] == vs[i];
    if r.Some? {
      var i :| 0 <= i < |init| && init[i] == r.value && r.value.line < line
               && forall j :: i < j < |init| ==> init[j].line >= line;
      forall j | i < j < |vs|
        ensures vs[j].line >= line
      {
        if j < |init| {
          assert init[j].line >= line;
        }
      }
      assert vs[i] == r.value;
    }
  }

  /** Scope `s` holds a version of `name` that is `symbol` and was defined
      before `line`. */
  predicate DefinedBefore(s: Scope, name: string, line: int, symbol: Symbol) {
    exists v :: v in VersionsOf(s, name) && v.line < line && v.symbol == symbol
  }

  /** Every scope's parent, when it has one, comes before it in the arena. */
  predicate ParentsBefore(t: Table) {
    forall i :: 0 <= i < |t.scopes| && t.scopes[i].parent.Some? ==> t.scopes[i].parent.value < i
  }

  /** Scope `i` followed by its ancestors, innermost first, ending at a
      scope without a parent. */
  function Ancestry(t: Table, i: nat): (a: seq<nat>)
    requires ParentsBefore(t) && i < |t.scopes|
    ensures |a| > 0 && a[0] == i
    ensures forall k :: 0 <= k < |a| ==> a[k] <= i
    ensures forall k :: 0 < k < |a| ==> t.scopes[a[k - 1]].parent == Some(a[k])
    ensures t.scopes[a[|a| - 1]].parent.None?
    decreases i
  {
    match t.scopes[i].parent
    case None => [i]
    case Some(p) =>
      var rest := Ancestry(t, p);
      assert forall k :: 0 < k < |rest| + 1 ==> ([i] + rest)[k] == rest[k - 1];
      [i] + rest
  }

  /** The version of `name` in force at `line` in scope `s`. */
  function InForce(s: Scope, name: string, line: int): Option<Version> {
    LatestBefore(VersionsOf(s, name), line)
  }

  /** The version of `name` in force at `line` in each scope of `chain`. */
  function FoundAlong(t: Table, chain: seq<nat>, name: string, line: int): (f: seq<Option<Version>>)
    requires forall k :: 0 <= k < |chain| ==> chain[k] < |t.scopes|
    ensures |f| == |chain|
  {
    if |chain| == 0 then []
    else [InForce(t.scopes[chain[0]], name, line)] + FoundAlong(t, chain[1..], name, line)
  }

  /** `r` is the symbol of the first version in `found`, and nothing exactly
      when `found` holds none. */
  predicate FirstFound(found: seq<Option<Version>>, r: Option<Symbol>) {
    && (r.None? <==> forall k :: 0 <= k < |found| ==> found[k].None?)
    && (r.Some? ==> exists k :: && 0 <= k < |found| && found[k].Some? && r.value == found[k].value.symbol
                                && forall j :: 0 <= j < k ==> found[j].None?)
  }

  /** `r` answers a query along `chain`: the symbol of the version in force
      in the first scope of `chain` that has one, and nothing exactly when
      no scope of `chain` has one. */
  predicate AnswersAlong(t: Table, chain: seq<nat>, name: string, line: int, r: Option<Symbol>)
    requires forall k :: 0 <= k < |chain| ==> chain[k] < |t.scopes|
  {
    FirstFound(FoundAlong(t, chain, name, line), r)
  }

  /** Putting nothing in front of a list keeps its first found entry. */
  lemma FirstFoundCons(v: Option<Version>, found: seq<Option<Version>>, r: Option<Symbol>)
    requires v.None? && FirstFound(found, r)
    ensures FirstFound([v] + found, r)
  {
    var c := [v] + found;
    assert forall k :: 0 < k < |c| ==> c[k] == found[k - 1];
    if r.Some? {
      var k :| && 0 <= k < |found| && found[k].Some? && r.value == found[k].value.symbol
               && forall j :: 0 <= j < k ==> found[j].None?;
      assert c[k + 1] == found[k];
      assert forall j :: 0 <= j < k + 1 ==> c[j].None?;
    }
  }

  /** Putting a scope with nothing in force in front of a chain keeps its answer. */
  lemma AnswersAlongCons(t: Table, i: nat, chain: seq<nat>, name: string, line: int, r: Option<Symbol>)
    requires i < |t.scopes| && forall k :: 0 <= k < |chain| ==> chain[k] < |t.scopes|
    requires InForce(t.scopes[i], name, line).None? && AnswersAlong(t, chain, name, line, r)
    ensures AnswersAlong(t, [i] + chain, name, line, r)
  {
    FoundAlongCons(t, i, chain, name, line);
    FirstFoundCons(InForce(t.scopes[i], name, line), FoundAlong(t, chain, name, line), r);
  }

  lemma FoundAlongCons(t: Table, i: nat, chain: seq<nat>, name: string, line: int)
    requires i < |t.scopes| && forall k :: 0 <= k < |chain| ==> chain[k] < |t.scopes|
    ensures FoundAlong(t, [i] + chain, name, line) == [InForce(t.scopes[i], name, line)] + FoundAlong(t, chain, name, line)
  {
    assert ([i] + chain)[1..] == chain;
  }

  /** Searches scope `i` and then its ancestors for a version of `name`
      defined before `line`: the answer is the one in force in the first
      scope of `i`'s ancestry that has one, and no other scope is searched. */
  function LookupChainAt(t: Table, i: nat, name: string, line: int): (r: Option<Symbol>)
    requires ParentsBefore(t) && i < |t.scopes|
    ensures LatestBefore(VersionsOf(t.scopes[i], name), line).Some? ==>
              r == Some(LatestBefore(VersionsOf(t.scopes[i], name), line).value.symbol)
    ensures r.Some? ==> exists j :: 0 <= j <= i && DefinedBefore(t.scopes[j], name, line, r.value)
    ensures AnswersAlong(t, Ancestry(t, i), name, line, r)
    decreases i
  {
    match LatestBefore(VersionsOf(t.scopes[i], name), line)
    case Some(v) =>
      assert FoundAlong(t, Ancestry(t, i), name, line)[0] == Some(v);
      Some(v.symbol)
    case None =>
      match t.scopes[i].parent
      case Some(p) =>
        var r := LookupChainAt(t, p, name, line);
        LookupChainStep(t, i, p, name, line, r);
        r
      case None => None
  }

  /** The step of `LookupChainAt` from scope `i`, with nothing in force, to
      its parent `p`: an answer for `p`'s ancestry answers for `i`'s. */
  lemma LookupChainStep(t: Table, i: nat, p: nat, name: string, line: int, r: Option<Symbol>)
    requires ParentsBefore(t) && i < |t.scopes| && t.scopes[i].parent == Some(p)
    requires LatestBefore(VersionsOf(t.scopes[i], name), line).None?
    requires r.Some? ==> exists j :: 0 <= j <= p && DefinedBefore(t.scopes[j], name, line, r.value)
    requires AnswersAlong(t, Ancestry(t, p), name, line, r)
    ensures r.Some? ==> exists j :: 0 <= j <= i && DefinedBefore(t.scopes[j], name, line, r.value)
    ensures AnswersAlong(t, Ancestry(t, i), name, line, r)
  {
    assert Ancestry(t, i) == [i] + Ancestry(t, p);
    AnswersAlongCons(t, i, Ancestry(t, p), name, line, r);
  }

  /** `lookup(name, line)`: the version of `name` in force at `line` in the
      innermost scope (open or archived) covering `line`, or in one of its
      ancestors. A version defined at `line` itself is not yet in force. */
  function LookupAt(t: Table, name: string, line: int): (r: Option<Symbol>)
    requires ParentsBefore(t)
    ensures (forall i :: 0 <= i < |t.scopes| ==> !Covers(t.scopes[i], line)) ==> r.None?
    ensures r.Some? ==> exists j :: 0 <= j < |t.scopes| && DefinedBefore(t.scopes[j], name, line, r.value)
    ensures forall i :: 0 <= i < |t.scopes| && Covers(t.scopes[i], line)
                        && (forall k :: i < k < |t.scopes| ==> !Covers(t.scopes[k], line))
                        && LatestBefore(VersionsOf(t.scopes[i], name), line).Some? ==>
              r == Some(LatestBefore(VersionsOf(t.scopes[i], name), line).value.symbol)
    ensures forall i :: 0 <= i < |t.scopes| && Covers(t.scopes[i], line)
                        && (forall k :: i < k < |t.scopes| ==> !Covers(t.scopes[k], line)) ==>
              AnswersAlong(t, Ancestry(t, i), name, line, r)
  {
    match InnermostCovering(t, line, |t.scopes|)
    case None => None
    case Some(i) =>
      InnermostUnique(t, line, i);
      LookupChainAt(t, i, name, line)
  }

  /** At most one scope covers `line` with no later scope covering it. */
  lemma InnermostUnique(t: Table, line: int, i: nat)
    requires i < |t.scopes| && Covers(t.scopes[i], line)
    requires forall k :: i < k < |t.scopes| ==> !Covers(t.scopes[k], line)
    ensures forall j :: 0 <= j < |t.scopes| && Covers(t.scopes[j], line)
                        && (forall k :: j < k < |t.scopes| ==> !Covers(t.scopes[k], line)) ==>
              j == i
  {
  }

}
