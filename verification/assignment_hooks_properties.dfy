/** Properties of the assignment-inference hooks: the chain walk, the
    routing of atoms, the statement protocol of `expr_stmt`, and two
    parses worked through event by event. */
module AssignmentHooksProperties {
  import opened Outcomes
  import opened Tokens
  import opened Symbols
  import opened AssignmentHooks

  // ---------------------------------------------------------------------
  // The chain walk
  // ---------------------------------------------------------------------

  /** Walking `ms1 + ms2` walks `ms1` and then, from where it stopped,
      `ms2`; a fault in `ms1` is the fault of the whole walk. */
  lemma {:induction false} WalkChainAppend(table: SymbolTable, current: Option<Symbol>, ms1: seq<Token>, ms2: seq<Token>)
    ensures WalkChain(table, current, ms1 + ms2) ==
              match WalkChain(table, current, ms1)
              case Failure(f) => Failure(f)
              case Success(s) => WalkChain(table, s, ms2)
    decreases |ms1|
  {
    if |ms1| == 0 {
      assert ms1 + ms2 == ms2;
    } else {
      assert (ms1 + ms2)[0] == ms1[0];
      assert (ms1 + ms2)[1..] == ms1[1..] + ms2;
      match WalkStep(table, current, ms1[0])
      case Failure(f) =>
      case Success(next) => WalkChainAppend(table, next, ms1[1..], ms2);
    }
  }

  /** Method names the receiver's class does not have leave the walk where
      it started. */
  lemma {:induction false} UnmatchedMethodsKeepReceiver(table: SymbolTable, s: Symbol, ms: seq<Token>)
    requires s.ofType.Some?
    requires forall i :: 0 <= i < |ms| ==> FindMethod(s.ofType.value.methods, ms[i].text).None?
    ensures WalkChain(table, Some(s), ms) == Success(Some(s))
    decreases |ms|
  {
    if |ms| > 0 {
      assert WalkStep(table, Some(s), ms[0]) == Success(Some(s));
      UnmatchedMethodsKeepReceiver(table, s, ms[1..]);
    }
  }

  /** A method found in the receiver's class whose return type the table
      does not know makes the next method a `null` dereference. */
  lemma UnknownReturnTypeFaultsNext(table: SymbolTable, s: Symbol, m: Token, next: Token)
    requires s.ofType.Some?
    requires FindMethod(s.ofType.value.methods, m.text).Some?
    requires FindMethod(s.ofType.value.methods, m.text).value.returnType !in table
    ensures WalkChain(table, Some(s), [m, next]) == Failure(NullReceiver(next))
  {
    assert [m, next][1..] == [next];
    assert [next][1..] == [];
  }

  // ---------------------------------------------------------------------
  // applyAssignment
  // ---------------------------------------------------------------------

  /** An assignment applies exactly when the newest pending entry was
      captured for a token spelling the whole target, and it applies
      exactly when `applyAssignment` hands a call to the checker; one that
      does not apply only pops the stack. */
  lemma AppliableIffChecked(st: HookState, symbol: string)
    requires ApplyAssignment(st, symbol).Success?
    ensures IsAssignmentAppliable(Newest(st.pending), symbol)
            <==> |st.pending| > 0 && st.pending[|st.pending| - 1].symbol.text == symbol
    ensures IsAssignmentAppliable(Newest(st.pending), symbol)
            <==> |ApplyAssignment(st, symbol).value.checkedCalls| == |st.checkedCalls| + 1
    ensures !IsAssignmentAppliable(Newest(st.pending), symbol) ==>
              && ApplyAssignment(st, symbol).value.table == st.table
              && ApplyAssignment(st, symbol).value.checkedCalls == st.checkedCalls
  {
  }

  // ---------------------------------------------------------------------
  // Atom routing
  // ---------------------------------------------------------------------

  /** A `NAME` atom becomes an argument, typed by its lookup, exactly when
      the arguments flag is set; otherwise it becomes the receiver. */
  lemma NameRouting(st: HookState, t: Token)
    requires |st.pending| > 0
    ensures var top := Step(st, NameSeen(t)).value.pending[|st.pending| - 1].call;
            var before := st.pending[|st.pending| - 1].call;
            && (st.argumentsScope ==> top.variable == before.variable
                                      && top.arguments == before.arguments + [Argument(t, Resolve(st.table, t.text))])
            && (!st.argumentsScope ==> top.variable == Some(t) && top.arguments == before.arguments)
            && top.trailingMethods == before.trailingMethods
  {
  }

  /** Number and string literals are arguments whatever the flag says. */
  lemma LiteralRouting(st: HookState, t: Token)
    requires |st.pending| > 0
    ensures var before := st.pending[|st.pending| - 1].call;
            && Step(st, NumberSeen(t)).value.pending[|st.pending| - 1].call.arguments
                 == before.arguments + [Argument(t, Resolve(st.table, "int"))]
            && Step(st, StringSeen(t)).value.pending[|st.pending| - 1].call.arguments
                 == before.arguments + [Argument(t, Resolve(st.table, "string"))]
  {
  }

  /** A `.NAME` trailer appends its name to the newest entry's trailing
      methods whatever the flag says, and leaves the receiver, the
      arguments, the flag and the table alone. */
  lemma AttributeRouting(st: HookState, t: Token)
    requires |st.pending| > 0
    ensures var after := Step(st, AttributeSeen(t)).value;
            var top := after.pending[|st.pending| - 1].call;
            var before := st.pending[|st.pending| - 1].call;
            && top.trailingMethods == before.trailingMethods + [t]
            && top.variable == before.variable
            && top.arguments == before.arguments
            && after.argumentsScope == st.argumentsScope
            && after.table == st.table
  {
  }

  /** With no assignment pending, the recording actions change nothing
      but the flag. */
  lemma RecordingWithoutPending(st: HookState, e: Event)
    requires IsRecording(e) && st.pending == []
    ensures Step(st, e).value.pending == []
    ensures Step(st, e).value.(argumentsScope := st.argumentsScope) == st
  {
  }

  // ---------------------------------------------------------------------
  // Runs
  // ---------------------------------------------------------------------

  /** Running `a + b` runs `a` and then `b` from the state it reached. */
  lemma {:induction false} RunAppend(st: HookState, a: seq<Event>, b: seq<Event>)
    ensures Run(st, a + b) ==
              match Run(st, a)
              case Failure(f) => Failure(f)
              case Success(s) => Run(s, b)
    decreases |a|
  {
    if |a| == 0 {
      assert a + b == b;
    } else {
      assert (a + b)[0] == a[0];
      assert (a + b)[1..] == a[1..] + b;
      match Step(st, a[0])
      case Failure(f) =>
      case Success(next) => RunAppend(next, a[1..], b);
    }
  }

  lemma RunOne(st: HookState, e: Event)
    ensures Run(st, [e]) == Step(st, e)
  {
    assert [e][1..] == [];
  }

  /** Recording actions never fault, never touch the table or the checker,
      and keep the stack's shape: only the newest entry's call changes. */
  lemma {:induction false} RecordingRun(st: HookState, events: seq<Event>)
    requires forall i :: 0 <= i < |events| ==> IsRecording(events[i])
    ensures Run(st, events).Success?
    ensures var r := Run(st, events).value;
            && r.table == st.table && r.checkedCalls == st.checkedCalls
            && |r.pending| == |st.pending|
            && (forall i :: 0 <= i < |st.pending| ==> r.pending[i].symbol == st.pending[i].symbol)
            && (forall i :: 0 <= i < |st.pending| - 1 ==> r.pending[i] == st.pending[i])
    decreases |events|
  {
    if |events| > 0 {
      var next := Step(st, events[0]).value;
      RecordingRun(next, events[1..]);
    }
  }

  /** The flag after a run of recording actions is set by the last
      parenthesis seen: a nested call's `)` clears it although the outer
      call is still open. */
  lemma NestedCallClearsScope(st: HookState)
    ensures Run(st, [CallOpened, CallOpened, CallClosed]).Success?
    ensures !Run(st, [CallOpened, CallOpened, CallClosed]).value.argumentsScope
  {
    var evs := [CallOpened, CallOpened, CallClosed];
    assert evs[1..] == [CallOpened, CallClosed];
    assert evs[1..][1..] == [CallClosed];
    assert evs[1..][1..][1..] == [];
  }

  // ---------------------------------------------------------------------
  // The statement protocol of expr_stmt
  // ---------------------------------------------------------------------

  /** The actions of one `= rhs` of an expression statement whose leftmost
      target starts with `first` and reads `text`. */
  function RightSide(first: Token, rhs: seq<Event>, text: string): seq<Event> {
    [AssignSign(first)] + rhs + [RightSideParsed(text)]
  }

  /** One `= rhs` pops exactly the entry it pushed. The call is checked iff
      the first token spells the whole target; when it does not, nothing
      but the flag changes. */
  lemma RightSideProtocol(st: HookState, first: Token, rhs: seq<Event>, text: string)
    requires forall i :: 0 <= i < |rhs| ==> IsRecording(rhs[i])
    ensures var r := Run(st, RightSide(first, rhs, text));
            && (first.text != text ==> r.Success? && r.value.table == st.table
                                        && r.value.checkedCalls == st.checkedCalls)
            && (r.Success? ==> && r.value.pending == st.pending
                               && |r.value.checkedCalls| == |st.checkedCalls| + (if first.text == text then 1 else 0)
                               && r.value.checkedCalls[..|st.checkedCalls|] == st.checkedCalls)
  {
    var pushed := st.(pending := st.pending + [Pending(first, EmptyCall)]);
    assert RightSide(first, rhs, text) == [AssignSign(first)] + (rhs + [RightSideParsed(text)]);
    RunAppend(st, [AssignSign(first)], rhs + [RightSideParsed(text)]);
    RunOne(st, AssignSign(first));
    RunAppend(pushed, rhs, [RightSideParsed(text)]);
    RecordingRun(pushed, rhs);
    var parsed := Run(pushed, rhs).value;
    RunOne(parsed, RightSideParsed(text));
    assert Newest(parsed.pending).value.symbol == first;
    assert PopNewest(parsed.pending) == st.pending;
  }

  /** A right-hand side of `expr_stmt`: a `testlist_star_expr`, after which
      the parser applies the pending assignment, or a `yield_expr`, after
      which it does not. */
  datatype RightHandSide = Testlist(actions: seq<Event>) | YieldExpr(actions: seq<Event>)

  /** The actions of one `= rhs`. */
  function RightSideOf(first: Token, rhs: RightHandSide, text: string): seq<Event> {
    match rhs
    case Testlist(actions) => RightSide(first, actions, text)
    case YieldExpr(actions) => [AssignSign(first)] + actions
  }

  /** One `= yield ...` pushes an entry that nothing pops: the stack grows
      by one entry for `first`, and the table and the checker are untouched. */
  lemma YieldSideProtocol(st: HookState, first: Token, actions: seq<Event>)
    requires forall i :: 0 <= i < |actions| ==> IsRecording(actions[i])
    ensures var r := Run(st, [AssignSign(first)] + actions);
            && r.Success? && r.value.table == st.table && r.value.checkedCalls == st.checkedCalls
            && |r.value.pending| == |st.pending| + 1
            && r.value.pending[..|st.pending|] == st.pending
            && r.value.pending[|st.pending|].symbol == first
  {
    var pushed := st.(pending := st.pending + [Pending(first, EmptyCall)]);
    RunAppend(st, [AssignSign(first)], actions);
    RunOne(st, AssignSign(first));
    RecordingRun(pushed, actions);
    var r := Run(pushed, actions).value;
    assert r.pending[|st.pending|].symbol == pushed.pending[|st.pending|].symbol;
    assert forall i :: 0 <= i < |st.pending| ==> r.pending[i] == pushed.pending[i];
  }

  /** Every `= rhs` of one statement, in order. */
  function RightSides(first: Token, rhss: seq<RightHandSide>, text: string): seq<Event> {
    if |rhss| == 0 then [] else RightSideOf(first, rhss[0], text) + RightSides(first, rhss[1..], text)
  }

  /** The number of `yield_expr` right-hand sides. */
  function Yields(rhss: seq<RightHandSide>): (n: nat)
    ensures n <= |rhss|
  {
    if |rhss| == 0 then 0 else (if rhss[0].YieldExpr? then 1 else 0) + Yields(rhss[1..])
  }

  /** Only right-hand sides whose actions are recording actions. */
  predicate RecordingSides(rhss: seq<RightHandSide>) {
    forall k, i :: 0 <= k < |rhss| && 0 <= i < |rhss[k].actions| ==> IsRecording(rhss[k].actions[i])
  }

  /** Each testlist side pops the entry it pushed and each yield side leaves
      its entry behind, on top of the stack the statement started with. The
      checker sees one call per testlist side exactly when the first token
      spells the whole target. */
  lemma {:induction false} RightSidesProtocol(st: HookState, first: Token, rhss: seq<RightHandSide>, text: string)
    requires RecordingSides(rhss)
    ensures var r := Run(st, RightSides(first, rhss, text));
            && (first.text != text ==> r.Success? && r.value.table == st.table
                                        && r.value.checkedCalls == st.checkedCalls)
            && (r.Success? ==> && |r.value.pending| == |st.pending| + Yields(rhss)
                               && r.value.pending[..|st.pending|] == st.pending
                               && |r.value.checkedCalls| == |st.checkedCalls|
                                    + (if first.text == text then |rhss| - Yields(rhss) else 0))
    decreases |rhss|
  {
    if |rhss| > 0 {
      var side := RightSideOf(first, rhss[0], text);
      RunAppend(st, side, RightSides(first, rhss[1..], text));
      assert RecordingSides(rhss[1..]) by {
        forall k, i | 0 <= k < |rhss[1..]| && 0 <= i < |rhss[1..][k].actions|
          ensures IsRecording(rhss[1..][k].actions[i])
        {
          assert rhss[1..][k] == rhss[k + 1];
        }
      }
      assert forall i :: 0 <= i < |rhss[0].actions| ==> IsRecording(rhss[0].actions[i]);
      if rhss[0].Testlist? {
        RightSideProtocol(st, first, rhss[0].actions, text);
      } else {
        YieldSideProtocol(st, first, rhss[0].actions);
      }
      match Run(st, side)
      case Failure(_) =>
      case Success(s) =>
        RightSidesProtocol(s, first, rhss[1..], text);
        assert s.pending[..|st.pending|] == st.pending;
    }
  }

  /** A whole `target = rhs1 = ... = rhsN` statement: the actions of the
      leftmost target, then one push per right-hand side and one apply per
      testlist side, all applied to the leftmost target's text. The stack
      ends deeper by the number of yield sides, and exactly as it started
      when there is none; the checker sees one call per testlist side
      exactly when the target is a single token; otherwise the table and
      the checker are untouched. */
  lemma ExpressionStatementProtocol(st: HookState, lhs: seq<Event>, first: Token, rhss: seq<RightHandSide>, text: string)
    requires forall i :: 0 <= i < |lhs| ==> IsRecording(lhs[i])
    requires RecordingSides(rhss)
    ensures var r := Run(st, lhs + RightSides(first, rhss, text));
            && (first.text != text ==> r.Success? && r.value.table == st.table
                                        && r.value.checkedCalls == st.checkedCalls)
            && (r.Success? ==> && |r.value.pending| == |st.pending| + Yields(rhss)
                               && |r.value.checkedCalls| == |st.checkedCalls|
                                    + (if first.text == text then |rhss| - Yields(rhss) else 0))
            && (r.Success? && Yields(rhss) == 0 && |st.pending| == 0 ==> r.value.pending == [])
  {
    RunAppend(st, lhs, RightSides(first, rhss, text));
    RecordingRun(st, lhs);
    RightSidesProtocol(Run(st, lhs).value, first, rhss, text);
  }

  // ---------------------------------------------------------------------
  // Two parses
  // ---------------------------------------------------------------------

  /** A run whose first step succeeds continues from the state it reached. */
  lemma RunCons(st: HookState, e: Event, rest: seq<Event>, next: HookState)
    requires Step(st, e) == Success(next)
    ensures Run(st, [e] + rest) == Run(next, rest)
  {
    assert ([e] + rest)[0] == e;
    assert ([e] + rest)[1..] == rest;
  }

  /** `(` sets the flag and `)` clears it; nothing else changes. */
  lemma FlagSteps(st: HookState)
    ensures Step(st, CallOpened) == Success(st.(argumentsScope := true))
    ensures Step(st, CallClosed) == Success(st.(argumentsScope := false))
  {
  }

  const FooClass := ClassSymbol("Foo", [MethodSig("bar", "Qubit")])
  const QubitClass := ClassSymbol("Qubit", [])
  const FooTable := map["Foo" := FooClass, "Qubit" := QubitClass]

  /** `x = Foo()` */
  function FooLine(): seq<Event> {
    [NameSeen(Token("x", 1, 0))]
    + RightSide(Token("x", 1, 0), [NameSeen(Token("Foo", 1, 4)), CallOpened, CallClosed], "x")
  }

  /** `y = x.bar()` */
  function BarLine(): seq<Event> {
    [NameSeen(Token("y", 2, 0))]
    + RightSide(Token("y", 2, 0), [NameSeen(Token("x", 2, 4)), AttributeSeen(Token("bar", 2, 6)),
                                   CallOpened, CallClosed], "y")
  }

  lemma FooLineEvents()
    ensures var x, foo := Token("x", 1, 0), Token("Foo", 1, 4);
            FooLine() == [NameSeen(x)] + ([AssignSign(x)] + ([NameSeen(foo)] + ([CallOpened] + ([CallClosed]
                         + ([RightSideParsed("x")] + [])))))
  {
  }

  lemma BarLineEvents()
    ensures var y, x, bar := Token("y", 2, 0), Token("x", 2, 4), Token("bar", 2, 6);
            BarLine() == [NameSeen(y)] + ([AssignSign(y)] + ([NameSeen(x)] + ([AttributeSeen(bar)] + ([CallOpened]
                         + ([CallClosed] + ([RightSideParsed("y")] + []))))))
  {
  }

  lemma NestedCallLineEvents()
    ensures var x, f, g, a := Token("x", 1, 0), Token("f", 1, 4), Token("g", 1, 6), Token("a", 1, 11);
            NestedCallLine() == [NameSeen(x)] + ([AssignSign(x)] + ([NameSeen(f)] + ([CallOpened] + ([NameSeen(g)]
                                + ([CallOpened] + ([CallClosed] + ([NameSeen(a)] + ([CallClosed]
                                + ([RightSideParsed("x")] + [])))))))))
  {
  }

  /** The steps of `x = Foo()` before `applyAssignment`: `x` is captured
      and `Foo` becomes the receiver. */
  lemma FooLineRecords(st: HookState, x: Token, foo: Token)
    requires st.pending == [] && !st.argumentsScope
    ensures Step(st, NameSeen(x)) == Success(st)
    ensures Step(st, AssignSign(x)) == Success(st.(pending := [Pending(x, EmptyCall)]))
    ensures Step(st.(pending := [Pending(x, EmptyCall)]), NameSeen(foo))
            == Success(st.(pending := [Pending(x, MethodCall(Some(foo), [], []))]))
  {
    assert st.pending + [Pending(x, EmptyCall)] == [Pending(x, EmptyCall)];
    assert [Pending(x, EmptyCall)][0 := Pending(x, MethodCall(Some(foo), [], []))] == [Pending(x, MethodCall(Some(foo), [], []))];
  }

  /** The `applyAssignment("x")` step of `x = Foo()`. */
  lemma FooLineApplies(st: HookState, x: Token, foo: Token)
    requires st.pending == [] && x.text == "x" && foo.text == "Foo" && st.table == FooTable
    ensures Step(st.(pending := [Pending(x, MethodCall(Some(foo), [], []))]), RightSideParsed("x"))
            == Success(st.(table := FooTable["x" := VariableSymbol("x", FooClass)],
                           checkedCalls := st.checkedCalls + [MethodCall(Some(foo), [], [])]))
  {
    assert FindParentSymbolWith(FooTable, Pending(x, MethodCall(Some(foo), [], []))) == Success(Some(FooClass));
  }

  lemma FooLineDefinesX(st: HookState)
    requires st.pending == [] && !st.argumentsScope && st.table == FooTable
    ensures Run(st, FooLine()) == Success(st.(table := FooTable["x" := VariableSymbol("x", FooClass)],
                                              checkedCalls := st.checkedCalls + [MethodCall(Some(Token("Foo", 1, 4)), [], [])]))
  {
    var x := Token("x", 1, 0);
    var foo := Token("Foo", 1, 4);
    var call := MethodCall(Some(foo), [], []);
    var s1 := st.(pending := [Pending(x, EmptyCall)]);
    var s2 := st.(pending := [Pending(x, call)]);
    var s3 := s2.(argumentsScope := true);
    var done := st.(table := FooTable["x" := VariableSymbol("x", FooClass)], checkedCalls := st.checkedCalls + [call]);
    FooLineRecords(st, x, foo);
    FooLineApplies(st, x, foo);
    FlagSteps(s2);
    FlagSteps(s3);
    var e5 := [RightSideParsed("x")] + [];
    var e4 := [CallClosed] + e5;
    var e3 := [CallOpened] + e4;
    var e2 := [NameSeen(foo)] + e3;
    var e1 := [AssignSign(x)] + e2;
    RunCons(s2, RightSideParsed("x"), [], done);
    RunCons(s3, CallClosed, e5, s2);
    RunCons(s2, CallOpened, e4, s3);
    RunCons(s1, NameSeen(foo), e3, s2);
    RunCons(st, AssignSign(x), e2, s1);
    RunCons(st, NameSeen(x), e1, st);
    FooLineEvents();
  }

  /** `x.bar` with `x` a `Foo` resolves to `Qubit`. */
  lemma BarCallResolves(table: SymbolTable, y: Token, x: Token, bar: Token)
    requires table == FooTable["x" := VariableSymbol("x", FooClass)]
    requires x.text == "x" && bar.text == "bar"
    ensures FindParentSymbolWith(table, Pending(y, MethodCall(Some(x), [bar], []))) == Success(Some(QubitClass))
  {
    var fooX := VariableSymbol("x", FooClass);
    assert Resolve(table, "x") == Some(fooX);
    assert FindMethod(FooClass.methods, "bar") == Some(MethodSig("bar", "Qubit"));
    assert Resolve(table, "Qubit") == Some(QubitClass);
    assert WalkStep(table, Some(fooX), bar) == Success(Some(QubitClass));
    assert [bar][1..] == [];
    assert WalkChain(table, Some(QubitClass), []) == Success(Some(QubitClass));
  }

  /** The recording steps of `y = x.bar()`: `y` is captured, `x` becomes
      the receiver and `bar` its trailing method. */
  lemma BarLineRecords(st: HookState, y: Token, x: Token, bar: Token)
    requires st.pending == [] && !st.argumentsScope
    ensures Step(st, NameSeen(y)) == Success(st)
    ensures Step(st, AssignSign(y)) == Success(st.(pending := [Pending(y, EmptyCall)]))
    ensures Step(st.(pending := [Pending(y, EmptyCall)]), NameSeen(x))
            == Success(st.(pending := [Pending(y, MethodCall(Some(x), [], []))]))
    ensures Step(st.(pending := [Pending(y, MethodCall(Some(x), [], []))]), AttributeSeen(bar))
            == Success(st.(pending := [Pending(y, MethodCall(Some(x), [bar], []))]))
  {
    assert st.pending + [Pending(y, EmptyCall)] == [Pending(y, EmptyCall)];
    assert [Pending(y, EmptyCall)][0 := Pending(y, MethodCall(Some(x), [], []))] == [Pending(y, MethodCall(Some(x), [], []))];
    assert [] + [bar] == [bar];
    assert [Pending(y, MethodCall(Some(x), [], []))][0 := Pending(y, MethodCall(Some(x), [bar], []))]
           == [Pending(y, MethodCall(Some(x), [bar], []))];
  }

  /** The `applyAssignment("y")` step of `y = x.bar()`. */
  lemma BarLineApplies(st: HookState, y: Token, x: Token, bar: Token)
    requires st.pending == [] && y.text == "y" && x.text == "x" && bar.text == "bar"
    requires st.table == FooTable["x" := VariableSymbol("x", FooClass)]
    ensures Step(st.(pending := [Pending(y, MethodCall(Some(x), [bar], []))]), RightSideParsed("y"))
            == Success(st.(table := st.table["y" := VariableSymbol("y", QubitClass)],
                           checkedCalls := st.checkedCalls + [MethodCall(Some(x), [bar], [])]))
  {
    BarCallResolves(st.table, y, x, bar);
  }

  lemma BarLineDefinesY(st: HookState)
    requires st.pending == [] && !st.argumentsScope
    requires st.table == FooTable["x" := VariableSymbol("x", FooClass)]
    ensures Run(st, BarLine()) == Success(st.(table := st.table["y" := VariableSymbol("y", QubitClass)],
                                              checkedCalls := st.checkedCalls + [MethodCall(Some(Token("x", 2, 4)), [Token("bar", 2, 6)], [])]))
  {
    var y := Token("y", 2, 0);
    var x := Token("x", 2, 4);
    var bar := Token("bar", 2, 6);
    var call := MethodCall(Some(x), [bar], []);
    var s1 := st.(pending := [Pending(y, EmptyCall)]);
    var s2 := st.(pending := [Pending(y, MethodCall(Some(x), [], []))]);
    var s3 := st.(pending := [Pending(y, call)]);
    var s4 := s3.(argumentsScope := true);
    var done := st.(table := st.table["y" := VariableSymbol("y", QubitClass)], checkedCalls := st.checkedCalls + [call]);
    BarLineRecords(st, y, x, bar);
    BarLineApplies(st, y, x, bar);
    FlagSteps(s3);
    FlagSteps(s4);
    var e6 := [RightSideParsed("y")] + [];
    var e5 := [CallClosed] + e6;
    var e4 := [CallOpened] + e5;
    var e3 := [AttributeSeen(bar)] + e4;
    var e2 := [NameSeen(x)] + e3;
    var e1 := [AssignSign(y)] + e2;
    RunCons(s3, RightSideParsed("y"), [], done);
    RunCons(s4, CallClosed, e6, s3);
    RunCons(s3, CallOpened, e5, s4);
    RunCons(s2, AttributeSeen(bar), e4, s3);
    RunCons(s1, NameSeen(x), e3, s2);
    RunCons(st, AssignSign(y), e2, s1);
    RunCons(st, NameSeen(y), e1, st);
    BarLineEvents();
  }

  /** Given class `Foo` whose method `bar` returns `Qubit`, the parse of
      `x = Foo()` and then `y = x.bar()` defines `x` as a `Foo` and `y` as
      a `Qubit`. */
  lemma MethodReferenceScenario(st: HookState)
    requires st.pending == [] && !st.argumentsScope && st.table == FooTable
    ensures Run(st, FooLine() + BarLine()).Success?
    ensures Resolve(Run(st, FooLine() + BarLine()).value.table, "x") == Some(VariableSymbol("x", FooClass))
    ensures Resolve(Run(st, FooLine() + BarLine()).value.table, "y") == Some(VariableSymbol("y", QubitClass))
  {
    RunAppend(st, FooLine(), BarLine());
    FooLineDefinesX(st);
    BarLineDefinesY(Run(st, FooLine()).value);
  }

  /** `x = f(g(), a)` */
  function NestedCallLine(): seq<Event> {
    [NameSeen(Token("x", 1, 0))]
    + RightSide(Token("x", 1, 0), [NameSeen(Token("f", 1, 4)), CallOpened, NameSeen(Token("g", 1, 6)),
                                   CallOpened, CallClosed, NameSeen(Token("a", 1, 11)), CallClosed], "x")
  }

  /** In `x = f(g(), a)` the inner call's `)` clears the flag, so `a` is
      recorded as the receiver instead of as an argument: the call the
      checker sees is `a` with the single argument `g`, and with `a`
      undefined nothing is defined. */
  /** The recording steps of `x = f(g(), a)`. */
  lemma NestedCallRecords(st: HookState, x: Token, f: Token, g: Token, a: Token)
    requires st.pending == [] && !st.argumentsScope
    ensures var argG := Argument(g, Resolve(st.table, g.text));
            var s3 := st.(pending := [Pending(x, MethodCall(Some(f), [], []))], argumentsScope := true);
            var cg := MethodCall(Some(f), [], [argG]);
            && Step(st, NameSeen(x)) == Success(st)
            && Step(st, AssignSign(x)) == Success(st.(pending := [Pending(x, EmptyCall)]))
            && Step(st.(pending := [Pending(x, EmptyCall)]), NameSeen(f))
               == Success(st.(pending := [Pending(x, MethodCall(Some(f), [], []))]))
            && Step(s3, NameSeen(g)) == Success(s3.(pending := [Pending(x, cg)]))
            && Step(st.(pending := [Pending(x, cg)]), NameSeen(a))
               == Success(st.(pending := [Pending(x, MethodCall(Some(a), [], [argG]))]))
  {
    var argG := Argument(g, Resolve(st.table, g.text));
    assert st.pending + [Pending(x, EmptyCall)] == [Pending(x, EmptyCall)];
    assert [Pending(x, EmptyCall)][0 := Pending(x, MethodCall(Some(f), [], []))] == [Pending(x, MethodCall(Some(f), [], []))];
    assert [] + [argG] == [argG];
    assert [Pending(x, MethodCall(Some(f), [], []))][0 := Pending(x, MethodCall(Some(f), [], [argG]))]
           == [Pending(x, MethodCall(Some(f), [], [argG]))];
    assert [Pending(x, MethodCall(Some(f), [], [argG]))][0 := Pending(x, MethodCall(Some(a), [], [argG]))]
           == [Pending(x, MethodCall(Some(a), [], [argG]))];
  }

  /** The `applyAssignment("x")` step of `x = f(g(), a)` with `a` undefined. */
  lemma NestedCallApplies(st: HookState, x: Token, call: MethodCall)
    requires st.pending == [] && x.text == "x"
    requires call.variable.Some? && call.variable.value.text !in st.table
    ensures Step(st.(pending := [Pending(x, call)]), RightSideParsed("x")) == Success(st.(checkedCalls := st.checkedCalls + [call]))
  {
  }

  lemma NestedCallScenario(st: HookState)
    requires st.pending == [] && !st.argumentsScope && "a" !in st.table
    ensures Run(st, NestedCallLine()) == Success(st.(checkedCalls := st.checkedCalls
              + [MethodCall(Some(Token("a", 1, 11)), [], [Argument(Token("g", 1, 6), Resolve(st.table, "g"))])]))
  {
    var x := Token("x", 1, 0);
    var f := Token("f", 1, 4);
    var g := Token("g", 1, 6);
    var a := Token("a", 1, 11);
    var argG := Argument(g, Resolve(st.table, "g"));
    var cf := MethodCall(Some(f), [], []);
    var cg := MethodCall(Some(f), [], [argG]);
    var call := MethodCall(Some(a), [], [argG]);
    var s1 := st.(pending := [Pending(x, EmptyCall)]);
    var s2 := st.(pending := [Pending(x, cf)]);
    var s3 := s2.(argumentsScope := true);
    var s4 := s3.(pending := [Pending(x, cg)]);
    var s6 := st.(pending := [Pending(x, cg)]);
    var s7 := st.(pending := [Pending(x, call)]);
    var done := st.(checkedCalls := st.checkedCalls + [call]);
    NestedCallRecords(st, x, f, g, a);
    NestedCallApplies(st, x, call);
    FlagSteps(s2);
    FlagSteps(s4);
    FlagSteps(s7);
    var e9 := [RightSideParsed("x")] + [];
    var e8 := [CallClosed] + e9;
    var e7 := [NameSeen(a)] + e8;
    var e6 := [CallClosed] + e7;
    var e5 := [CallOpened] + e6;
    var e4 := [NameSeen(g)] + e5;
    var e3 := [CallOpened] + e4;
    var e2 := [NameSeen(f)] + e3;
    var e1 := [AssignSign(x)] + e2;
    RunCons(s7, RightSideParsed("x"), [], done);
    RunCons(s7, CallClosed, e9, s7);
    RunCons(s6, NameSeen(a), e8, s7);
    RunCons(s4, CallClosed, e7, s6);
    RunCons(s4, CallOpened, e6, s4);
    RunCons(s3, NameSeen(g), e5, s4);
    RunCons(s2, CallOpened, e4, s3);
    RunCons(s1, NameSeen(f), e3, s2);
    RunCons(st, AssignSign(x), e2, s1);
    RunCons(st, NameSeen(x), e1, st);
    NestedCallLineEvents();
  }
}
