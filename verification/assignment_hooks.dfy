/** The assignment-inference hooks that the generated Python parser runs
    while it parses (`server/src/qiskit/antlr/Python3Parser.ts`).

    The parser's embedded actions are modelled as a stream of events fed to
    a small state machine whose state is the stack of pending assignments,
    the `argumentsScope` flag, the symbol table and the log of calls handed
    to the argument checker. The collaborators behind these actions are
    not part of this model and are modelled by what the call sites need:

    - the assignments stack pushes a pending assignment with an empty call
      on `newAssignmentOn`, pops the newest one (or nothing, on an empty
      stack) on `popLastAssignment`, and records variables, arguments and
      trailing methods into the newest pending call, dropping them when
      nothing is pending;
    - the Qiskit symbol table answers `lookup(name)` and `define(symbol)`,
      a later definition replacing an earlier one of the same name;
    - the argument checker is a log of the calls it was asked to check. */
module AssignmentHooks {
  import opened Outcomes
  import opened Tokens
  import opened Symbols

  /** An argument of a call: its first token and the symbol looked up for it. */
  datatype Argument = Argument(token: Token, symbol: Option<Symbol>)

  /** The method chain on the right of an `=`: the receiver variable, the
      `.name` trailers in source order, and the recorded arguments. */
  datatype MethodCall = MethodCall(variable: Option<Token>, trailingMethods: seq<Token>, arguments: seq<Argument>)

  /** A pending assignment: the first token of the leftmost target and the
      call being recorded for its right-hand side. */
  datatype Pending = Pending(symbol: Token, call: MethodCall)

  type SymbolTable = map<string, Symbol>

  datatype HookState = HookState(
    pending: seq<Pending>,
    argumentsScope: bool,
    table: SymbolTable,
    checkedCalls: seq<MethodCall>)

  /** The chain walk reads the type of a symbol it does not have: the
      current symbol is `null`, or it has no type. */
  datatype HookFault = NullReceiver(methodName: Token) | UntypedReceiver(methodName: Token)

  /** The parser actions, in the order the parser runs them. */
  datatype Event =
    | AssignSign(first: Token)       // `=` matched in `expr_stmt`
    | RightSideParsed(text: string)  // one right-hand side of `expr_stmt` parsed
    | NameSeen(name: Token)          // `atom: NAME`
    | NumberSeen(literal: Token)     // `atom: number`
    | StringSeen(last: Token)        // `atom: STRING+`: the last piece's first token
    | CallOpened                     // `trailer: '(' ...`
    | CallClosed                     // `trailer: ... ')'`
    | AttributeSeen(name: Token)     // `trailer: '.' NAME`

  const EmptyCall := MethodCall(None, [], [])

  // ---------------------------------------------------------------------
  // The symbol table
  // ---------------------------------------------------------------------

  /** `symbolTable.lookup(name)`: `null` for a name never defined. */
  function Resolve(table: SymbolTable, name: string): (r: Option<Symbol>)
    ensures r.Some? <==> name in table
    ensures r.Some? ==> r.value == table[name]
  {
    if name in table then Some(table[name]) else None
  }

  // ---------------------------------------------------------------------
  // The pending-assignment stack
  // ---------------------------------------------------------------------

  /** What an action records into the newest pending call. */
  datatype Record = Variable(token: Token) | Arg(argument: Argument) | Trailing(methodName: Token)

  /** `setVariable` replaces the receiver, `addArgument` and
      `addTrailingMethod` append. */
  function RecordInto(call: MethodCall, rec: Record): (r: MethodCall)
    ensures rec.Variable? ==> r.variable == Some(rec.token) && r.trailingMethods == call.trailingMethods
                              && r.arguments == call.arguments
    ensures rec.Arg? ==> r.variable == call.variable && r.trailingMethods == call.trailingMethods
                         && |r.arguments| == |call.arguments| + 1
                         && r.arguments[..|call.arguments|] == call.arguments
                         && r.arguments[|call.arguments|] == rec.argument
    ensures rec.Trailing? ==> r.variable == call.variable && r.arguments == call.arguments
                              && |r.trailingMethods| == |call.trailingMethods| + 1
                              && r.trailingMethods[..|call.trailingMethods|] == call.trailingMethods
                              && r.trailingMethods[|call.trailingMethods|] == rec.methodName
  {
    match rec
    case Variable(t) => call.(variable := Some(t))
    case Arg(a) => call.(arguments := call.arguments + [a])
    case Trailing(m) => call.(trailingMethods := call.trailingMethods + [m])
  }

  /** Records into the newest pending assignment; with none pending the
      record is dropped. Only the newest entry's call changes. */
  function RecordOnTop(pending: seq<Pending>, rec: Record): (r: seq<Pending>)
    ensures |r| == |pending|
    ensures forall i :: 0 <= i < |pending| ==> r[i].symbol == pending[i].symbol
    ensures forall i :: 0 <= i < |pending| - 1 ==> r[i] == pending[i]
    ensures |pending| > 0 ==> r[|r| - 1].call == RecordInto(pending[|pending| - 1].call, rec)
  {
    if |pending| == 0 then pending
    else
      var top := pending[|pending| - 1];
      pending[|pending| - 1 := top.(call := RecordInto(top.call, rec))]
  }

  /** `popLastAssignment`: the newest pending assignment, or `null`. */
  function Newest(pending: seq<Pending>): Option<Pending> {
    if |pending| == 0 then None else Some(pending[|pending| - 1])
  }

  function PopNewest(pending: seq<Pending>): seq<Pending> {
    if |pending| == 0 then pending else pending[..|pending| - 1]
  }

  // ---------------------------------------------------------------------
  // applyAssignment and its helpers
  // ---------------------------------------------------------------------

  /** `isAssignmentAppliable`: there is a pending assignment and its
      captured token spells the whole target. */
  predicate IsAssignmentAppliable(assignment: Option<Pending>, symbol: string) {
    assignment.Some? && assignment.value.symbol.text == symbol
  }

  /** One iteration of the chain walk: a method of the current symbol's
      class with that name moves to the lookup of its return type; no such
      method leaves the current symbol. */
  function WalkStep(table: SymbolTable, current: Option<Symbol>, name: Token): (r: Result<Option<Symbol>, HookFault>)
    ensures r.Failure? <==> current.None? || current.value.ofType.None?
    ensures r.Success? ==>
              var found := FindMethod(current.value.ofType.value.methods, name.text);
              r.value == if found.Some? then Resolve(table, found.value.returnType) else current
  {
    match current
    case None => Failure(NullReceiver(name))
    case Some(s) =>
      match s.ofType
      case None => Failure(UntypedReceiver(name))
      case Some(classType) =>
        match FindMethod(classType.methods, name.text)
        case Some(m) => Success(Resolve(table, m.returnType))
        case None => Success(current)
  }

  /** The `forEach` over the trailing methods, in source order. The
      symbol reached is the starting one or one the table holds. */
  function WalkChain(table: SymbolTable, current: Option<Symbol>, methods: seq<Token>): (r: Result<Option<Symbol>, HookFault>)
    ensures r.Success? && r.value.Some? ==> r.value == current || r.value.value in table.Values
    decreases |methods|
  {
    if |methods| == 0 then Success(current)
    else
      var next :- WalkStep(table, current, methods[0]);
      WalkChain(table, next, methods[1..])
  }

  /** `findParentSymbolWith`: the receiver's symbol walked through the
      trailing methods; `null` when the receiver is not in the table. A
      call with no receiver recorded has no parent either. */
  function FindParentSymbolWith(table: SymbolTable, assignment: Pending): (r: Result<Option<Symbol>, HookFault>)
    ensures assignment.call.variable.None? ==> r == Success(None)
    ensures assignment.call.variable.Some? && assignment.call.variable.value.text !in table ==> r == Success(None)
    ensures r.Success? && r.value.Some? ==> r.value.value in table.Values
    ensures assignment.call.variable.Some? && Resolve(table, assignment.call.variable.value.text).Some? ==>
              r == WalkChain(table, Resolve(table, assignment.call.variable.value.text), assignment.call.trailingMethods)
  {
    match assignment.call.variable
    case None => Success(None)
    case Some(v) =>
      match Resolve(table, v.text)
      case None => Success(None)
      case Some(s) => WalkChain(table, Some(s), assignment.call.trailingMethods)
  }

  /** `applyAssignment(symbol)`: pops one pending assignment; when it
      applies to `symbol`, hands its call to the argument checker and, if
      a parent symbol is found, defines `symbol` as a variable of it. */
  function ApplyAssignment(st: HookState, symbol: string): (r: Result<HookState, HookFault>)
    ensures r.Success? ==> r.value.pending == PopNewest(st.pending) && r.value.argumentsScope == st.argumentsScope
    ensures !IsAssignmentAppliable(Newest(st.pending), symbol) ==>
              r == Success(st.(pending := PopNewest(st.pending)))
    ensures IsAssignmentAppliable(Newest(st.pending), symbol) ==>
              var a := Newest(st.pending).value;
              && (r.Success? <==> FindParentSymbolWith(st.table, a).Success?)
              && (r.Success? ==> r.value.checkedCalls == st.checkedCalls + [a.call])
              && (r.Success? && FindParentSymbolWith(st.table, a).value.None? ==> r.value.table == st.table)
              && (r.Success? && FindParentSymbolWith(st.table, a).value.Some? ==>
                    && Resolve(r.value.table, symbol) == Some(VariableSymbol(symbol, FindParentSymbolWith(st.table, a).value.value))
                    && forall n :: n != symbol ==> Resolve(r.value.table, n) == Resolve(st.table, n))
  {
    var last := Newest(st.pending);
    var st' := st.(pending := PopNewest(st.pending));
    if IsAssignmentAppliable(last, symbol) then
      var checked := st'.(checkedCalls := st.checkedCalls + [last.value.call]);
      var parent :- FindParentSymbolWith(st.table, last.value);
      match parent
      case Some(p) => Success(checked.(table := st.table[symbol := VariableSymbol(symbol, p)]))
      case None => Success(checked)
    else Success(st')
  }

  // ---------------------------------------------------------------------
  // The event machine
  // ---------------------------------------------------------------------

  /** The actions that only record into the newest pending call or toggle
      the flag, as opposed to the two `expr_stmt` actions. */
  predicate IsRecording(e: Event) {
    !e.AssignSign? && !e.RightSideParsed?
  }

  /** One parser action. A `NAME` atom is an argument inside a call's
      parentheses and the receiver otherwise; number and string literals
      are always arguments, typed by the lookups of `int` and `string`. */
  function Step(st: HookState, e: Event): (r: Result<HookState, HookFault>)
    ensures IsRecording(e) ==> r.Success? && r.value.table == st.table && r.value.checkedCalls == st.checkedCalls
                               && |r.value.pending| == |st.pending|
                               && (forall i :: 0 <= i < |st.pending| ==> r.value.pending[i].symbol == st.pending[i].symbol)
                               && (forall i :: 0 <= i < |st.pending| - 1 ==> r.value.pending[i] == st.pending[i])
    ensures e.AssignSign? ==> r == Success(st.(pending := st.pending + [Pending(e.first, EmptyCall)]))
    ensures e.RightSideParsed? && r.Success? ==> r.value.pending == PopNewest(st.pending)
    ensures r.Success? ==> && st.table.Keys <= r.value.table.Keys
                           && |st.checkedCalls| <= |r.value.checkedCalls| <= |st.checkedCalls| + 1
                           && r.value.checkedCalls[..|st.checkedCalls|] == st.checkedCalls
  {
    match e
    case AssignSign(first) => Success(st.(pending := st.pending + [Pending(first, EmptyCall)]))
    case RightSideParsed(text) => ApplyAssignment(st, text)
    case NameSeen(t) =>
      if st.argumentsScope then Success(st.(pending := RecordOnTop(st.pending, Arg(Argument(t, Resolve(st.table, t.text))))))
      else Success(st.(pending := RecordOnTop(st.pending, Variable(t))))
    case NumberSeen(t) => Success(st.(pending := RecordOnTop(st.pending, Arg(Argument(t, Resolve(st.table, "int"))))))
    case StringSeen(t) => Success(st.(pending := RecordOnTop(st.pending, Arg(Argument(t, Resolve(st.table, "string"))))))
    case CallOpened => Success(st.(argumentsScope := true))
    case CallClosed => Success(st.(argumentsScope := false))
    case AttributeSeen(t) => Success(st.(pending := RecordOnTop(st.pending, Trailing(t))))
  }

  /** The number of `applyAssignment` actions among `events`. */
  function Applies(events: seq<Event>): nat {
    if |events| == 0 then 0 else (if events[0].RightSideParsed? then 1 else 0) + Applies(events[1..])
  }

  /** The actions of one parse, in order; the first fault aborts. Only
      `applyAssignment` can fault; symbols are defined and never removed,
      and the checker's log only grows, by at most one call per applied
      right-hand side. */
  function Run(st: HookState, events: seq<Event>): (r: Result<HookState, HookFault>)
    ensures (forall i :: 0 <= i < |events| ==> !events[i].RightSideParsed?) ==> r.Success?
    ensures r.Success? ==> && st.table.Keys <= r.value.table.Keys
                           && |st.checkedCalls| <= |r.value.checkedCalls| <= |st.checkedCalls| + Applies(events)
                           && r.value.checkedCalls[..|st.checkedCalls|] == st.checkedCalls
    decreases |events|
  {
    if |events| == 0 then Success(st)
    else
      var next :- Step(st, events[0]);
      Run(next, events[1..])
  }
}
