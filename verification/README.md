# Qiskit language server core, modelled in Dafny

This project models four pieces of the Qiskit language server. Each is a
set of pure functions over immutable datatypes, and lemmas prove properties
of them.

- **The tree folder** (`server/src/qiskit/ast/treeFolder.ts`). It turns a
  Python parse tree into the compact folded AST of `ast/types.ts`.
  - A statement's assignment targets fold from the right into nested
    `Assignment`s.
  - A `power` becomes an `Expression` whose terms are reduced left to right.
    A call marker turns the name before it into a `MethodReference`, and a
    subscript marker turns it into an `ArrayReference`.
  - Leaves become `VariableReference`, `Integer`, `Float`, `Text`,
    `QiskitBoolean` or `Dictionary`. Each carries a 0-based position.
  - The parse tree is an explicit datatype (`ParseTree`) instead of antlr
    contexts and visitors. A context the folders do not override yields its
    last child's fold, which is what antlr's default aggregation does.
- **The persistent, line-versioned symbol table** pinned down by
  `server/test/persistentSymbolTable.test.ts`.
  - Scopes live in an append-only arena, and each refers to its parent by
    index. A stack of indices lists the scopes still open.
  - A popped scope keeps its opening and closing lines. Queries by line
    still find it, but current lookups do not.
  - Each name keeps every version defined for it, with the defining line.
- **The assignment-inference hooks** that the generated Python parser runs
  while parsing (`server/src/qiskit/antlr/Python3Parser.ts`).
  - They are a state machine driven by the parser's embedded actions. The
    state is:
    - the stack of pending assignments;
    - the `argumentsScope` flag;
    - the symbol table;
    - the calls handed to the argument checker.
  - `applyAssignment` pops one pending assignment and decides whether it
    applies. If it does, it walks the right-hand method chain through the
    classes' method tables and defines the target with the type it reaches.
- **The QASM syntax-error listener** (`server/src/qasm/parser.ts`).
  - Each reported syntax error becomes a diagnostic with a 0-based line and
    the column range of the offending token. A stray `)` gets a fixed
    message.
  - The parse result lists the syntax errors first, then the symbol-table
    errors, then the semantic errors.

Modules:

| module | file | contents |
|---|---|---|
| `Outcomes` | `outcomes.dfy` | `Option` and `Result` (a `Failure` stands for an exception) |
| `Tokens` | `tokens.dfy` | tokens (text, 1-based line, column) and spans |
| `Symbols` | `symbols.dfy` | symbols with an optional type and a method table |
| `Ast` | `ast.dfy` | the folded AST |
| `ParseTree` | `parse_tree.dfy` | the parse-tree shapes the folder inspects |
| `TreeFolder`, `TreeFolderProperties` | `tree_folder.dfy`, `tree_folder_properties.dfy` | the folder and its properties |
| `PersistentSymbolTable`, `PersistentSymbolTableProperties` | `persistent_symbol_table.dfy`, `persistent_symbol_table_properties.dfy` | the table, its invariant, and the two scenarios of the test file |
| `AssignmentHooks`, `AssignmentHooksProperties` | `assignment_hooks.dfy`, `assignment_hooks_properties.dfy` | the parser hooks and their protocol |
| `QasmErrors`, `QasmErrorsProperties` | `qasm_errors.dfy`, `qasm_errors_properties.dfy` | the listener and the error order |

## Model

| member | source | states |
|---|---|---|
| `TreeFolder.FoldProgram` | server/src/qiskit/ast/treeFolder.ts:50-61 | The program folds exactly when every statement folds, and the result has at most one entry per statement. |
| `TreeFolderProperties.FoldProgramKeepsOrder` | server/src/qiskit/ast/treeFolder.ts:50-61 | The folded program has one statement for each statement that holds an `expr_stmt`, in source order. The statements that fold to `undefined` are exactly the ones dropped. |
| `TreeFolderProperties.FoldProgramAppend` | server/src/qiskit/ast/treeFolder.ts:57-60 | Folding a concatenation of statement lists folds each part and concatenates the results. The first fault aborts the whole fold. |
| `TreeFolder.FoldStmt` | server/src/qiskit/ast/treeFolder.ts:64-86 | A statement folds to a `Statement` exactly when it contains an `expr_stmt`, and to `undefined` otherwise. That `Statement` is the fold of its last `expr_stmt`, which succeeds. |
| `TreeFolder.FoldExprStmt` | server/src/qiskit/ast/treeFolder.ts:71-86 | An `expr_stmt` folds exactly when every one of its targets folds. Its expression is `null` exactly when the leftmost target folds to `null`. With a single target, the expression is that target's fold. |
| `TreeFolder.FoldTargets` | server/src/qiskit/ast/treeFolder.ts:76-83 | The right-to-left fold of the targets is `null` exactly when the leftmost target folded to `null`. With two or more targets and a non-null leftmost one, it is an `Assignment` to the leftmost target. |
| `TreeFolderProperties.UnchainFoldTargets` | server/src/qiskit/ast/treeFolder.ts:76-83 | `[t1, ..., tn]` folds to `Assignment(t1, Assignment(t2, ... tn))`, and a one-element list folds to its element. A `null` at position k stops the chain there, with `null` as the value on its right. |
| `TreeFolderProperties.ExprStmtIsChainOfTargets` | server/src/qiskit/ast/treeFolder.ts:71-86 | When no target left of the last folds to `null`, unchaining the folded statement gives back exactly the folded targets. |
| `TreeFolderProperties.ChainedAssignmentExample` | server/src/qiskit/ast/treeFolder.ts:71-131 | `a = b = f()` folds to `Assignment(a, Assignment(b, f()))`, with `f()` a `MethodReference` without arguments at the position of `f`. |
| `TreeFolder.FoldExpr` | server/src/qiskit/ast/treeFolder.ts:89-104 | A folded expression is `null` or an `Expression` with no call or subscript markers left in it. A bare token folds to `null`. |
| `TreeFolderProperties.CompositeFoldsToLast` | server/src/qiskit/ast/treeFolder.ts:89-92 | A context other than a `power` folds exactly when each of its children folds. Its result is then the fold of its last child, or `null` when it has no children, as antlr's default aggregation keeps the last child's result. |
| `TreeFolderProperties.PowerFolds` | server/src/qiskit/ast/treeFolder.ts:94-122 | A `power` folds exactly when its trailers fold and each call or subscript trailer directly follows the name atom or a `.NAME` trailer. Its terms are then the reduction of the folded atom followed by the folded trailers, in source order. |
| `TreeFolderProperties.ReferenceOnName` | server/src/qiskit/ast/treeFolder.ts:94-143 | `f(args)` folds to a single `MethodReference` that carries the folded arguments. `a[subs]` folds to a single `ArrayReference` that carries the index value of the folded subscripts. Both take the name and position of `f` or `a`. |
| `TreeFolder.FoldExprs` | server/src/qiskit/ast/treeFolder.ts:167-171 | Folding a list of expressions keeps its length and folds each element on its own. |
| `TreeFolder.FoldTrailers` | server/src/qiskit/ast/treeFolder.ts:98-101 | The folded trailers of a `power` correspond one for one, in source order, to its trailers. |
| `TreeFolderProperties.AttributeChainTerms` | server/src/qiskit/ast/treeFolder.ts:94-104 | A `power` whose trailers are all `.NAME` folds to the atom's fold followed by one `VariableReference` per trailer, in source order. |
| `TreeFolder.Reduce` | server/src/qiskit/ast/treeFolder.ts:106-122 | The reduced term list has no markers, and its length is the number of non-marker terms. |
| `TreeFolderProperties.ReduceSucceedsIff` | server/src/qiskit/ast/treeFolder.ts:106-122 | The reduction succeeds exactly when every marker directly follows a `VariableReference`. |
| `TreeFolderProperties.ReduceIdentity` | server/src/qiskit/ast/treeFolder.ts:114-121 | Terms without markers are appended unchanged. |
| `TreeFolderProperties.ReduceReplacesPredecessor` | server/src/qiskit/ast/treeFolder.ts:107-142 | A marker replaces exactly the term before it. An `Arguments` marker gives a `MethodReference` with the name's text, the name's position and the marker's arguments. An `ArrayIndex` marker gives an `ArrayReference` with the computed index. |
| `TreeFolderProperties.ReduceKeepsLastName` | server/src/qiskit/ast/treeFolder.ts:107-119 | After a successful reduction, the list ends in a `VariableReference` exactly when the input did. |
| `TreeFolder.LastInteger` | server/src/qiskit/ast/treeFolder.ts:149 | A subscript expression contributes the value of its last `Integer` term, or 0 when it has none. |
| `TreeFolder.IndexValue` | server/src/qiskit/ast/treeFolder.ts:140 | The index is 0 exactly when every subscript contributes 0. Otherwise it is the last non-zero contribution. |
| `TreeFolderProperties.LastSubscriptWins` | server/src/qiskit/ast/treeFolder.ts:140-153 | `a[1, 2]` indexes 2 and `a[2, 0]` indexes 2. A subscript contributes its last integer, and a non-`Expression` subscript contributes 0. |
| `TreeFolder.FoldTrailer` | server/src/qiskit/ast/treeFolder.ts:161-190 | A trailer folds exactly when all its arguments or subscripts fold. `(` gives an `Arguments` marker and `[` gives an `ArrayIndex` marker. `.NAME` is the only trailer that does not give a marker. |
| `TreeFolderProperties.TrailerClassification` | server/src/qiskit/ast/treeFolder.ts:161-190 | `(` gives `Arguments`, with one folded entry per argument and none without an arglist. `[` gives `ArrayIndex`, with one entry per subscript. `.NAME` gives the name's `VariableReference`. Each is positioned by its context or token. |
| `TreeFolder.FoldAtom` | server/src/qiskit/ast/treeFolder.ts:193-229 | An atom never folds to a marker, an `Assignment` or an `Expression`. It folds to `null` exactly when it is some other atom or a string with no pieces. Names, and only names, give `VariableReference`. The same holds for `True`/`False` and `QiskitBoolean`, numbers and `Integer` or `Float`, and dict/set makers and `Dictionary`. |
| `TreeFolderProperties.LeafClassification` | server/src/qiskit/ast/treeFolder.ts:200-229 | A `NAME` at line l, column c becomes a `VariableReference` with its text at `(l-1, c, c+length+1)`. `True`/`False` become `QiskitBoolean` at the same kind of position. A number becomes a `Float` exactly when it contains `.`, at `(l-1, c, c+1)`. A `Float` keeps the literal, and a decimal literal becomes an `Integer` with its decimal value. A string becomes `Text` of its last piece, at that piece's `(l-1, c, c+1)`. A dict/set maker becomes `Dictionary`, ending one past its stop token's column. |
| `TreeFolder.TokenPosition` | server/src/qiskit/ast/treeFolder.ts:241-247 | A token's position has the 0-based line, starts at the token's column, and spans the text's length plus one. |
| `TreeFolder.ContextPosition` | server/src/qiskit/ast/treeFolder.ts:233-239 | A context's position has its start token's 0-based line, starts at the start token's column, and ends one past the stop token's column. |
| `TreeFolderProperties.DecimalValueExamples` | server/src/qiskit/ast/treeFolder.ts:223 | A decimal literal has its decimal value, leading zeros included. A non-decimal literal counts as 0. |
| `Symbols.FindMethod` | server/src/qiskit/antlr/Python3Parser.ts:322 | The result is the first method with that name, and it is absent exactly when no method has that name. |
| `PersistentSymbolTable.NewTable` | server/test/persistentSymbolTable.test.ts:27-28 | A new table satisfies the invariant and has only the root scope, which is open. |
| `PersistentSymbolTable.Push` | server/test/persistentSymbolTable.test.ts:63 | `push` keeps the invariant, leaves every existing scope unchanged, and opens a child of the top scope, which becomes the top. |
| `PersistentSymbolTable.Pop` | server/test/persistentSymbolTable.test.ts:66 | `pop` keeps the invariant. It closes the top scope at the given line, keeps it archived, and changes no other scope. With only the root open it changes nothing. |
| `PersistentSymbolTable.Define` | server/test/persistentSymbolTable.test.ts:30 | `define` keeps the invariant and every scope's lines and parent. It appends one version to the top scope's list for that name and changes no other list. |
| `PersistentSymbolTable.InnermostCovering` | server/test/persistentSymbolTable.test.ts:74-78 | The scope chosen for a line is the last one opened whose interval contains that line. None is chosen only when no scope covers the line. |
| `PersistentSymbolTable.LatestBefore` | server/test/persistentSymbolTable.test.ts:48-55 | The version in force at a line is defined strictly before it, and every version after it in the list is defined at that line or later. None is in force exactly when every version is defined at that line or later. |
| `PersistentSymbolTable.Lookup` | server/test/persistentSymbolTable.test.ts:33-46 | The current lookup is null exactly when no live scope has a version of the name. Otherwise it is the newest version in some live scope, and no live scope opened after that one has the name. |
| `PersistentSymbolTable.LookupAt` | server/test/persistentSymbolTable.test.ts:48-55 | A query at line L finds nothing when no scope covers L. Otherwise, take the innermost scope covering L and its ancestors, innermost first. The answer is the newest version defined before L in the first of them that has one, and nothing exactly when none has one. No other scope is searched. |
| `PersistentSymbolTable.LookupChainAt` | server/test/persistentSymbolTable.test.ts:74-78 | The search from a scope answers with the version in force in the first scope of its ancestry that has one, and with nothing exactly when no scope of the ancestry has one. |
| `PersistentSymbolTableProperties.NewTableLookup` | server/test/persistentSymbolTable.test.ts:27-29 | The initial scope's symbols, such as `number` and `string`, resolve through the current lookup, and no other name does. |
| `PersistentSymbolTableProperties.LookupAfterDefine` | server/test/persistentSymbolTable.test.ts:33-37 | After `define(s, line)`, the current lookup of `s`'s name returns `s`. |
| `PersistentSymbolTableProperties.LookupOtherName` | server/test/persistentSymbolTable.test.ts:68-72 | `define` does not change the current lookup of any other name. |
| `PersistentSymbolTableProperties.DefinitionNotInForceAtItsLine` | server/test/persistentSymbolTable.test.ts:48-55 | A version defined at line L does not change any query at line L or earlier. |
| `PersistentSymbolTableProperties.DefinitionInForceLater` | server/test/persistentSymbolTable.test.ts:48-55 | A version defined before line L is the one found at L when the top scope is the innermost scope covering L. |
| `PersistentSymbolTableProperties.PopRootIsNoOp` | server/test/persistentSymbolTable.test.ts:63-66 | Popping when only the root scope is open leaves the table unchanged. |
| `PersistentSymbolTableProperties.PoppedScopeInvisible` | server/test/persistentSymbolTable.test.ts:68-72 | After push, define and pop, every name resolves through the current lookup exactly as it did before the push. |
| `PersistentSymbolTableProperties.ArchivedScopeAnswersByLine` | server/test/persistentSymbolTable.test.ts:74-78 | A popped scope still answers a query at a line within its open/close interval and after the definition. |
| `PersistentSymbolTableProperties.ArchivedScopeSilentOutside` | server/test/persistentSymbolTable.test.ts:68-78 | After push, define and pop, a query at a line before the scope opened or after it closed is answered exactly as before the push. |
| `PersistentSymbolTableProperties.GlobalScopeScenario` | server/test/persistentSymbolTable.test.ts:23-56 | Scenario "with a variable b in a global scope". `number` and `string` resolve. `b` is a number after line 2 and a string after line 3. `lookup('b', 3)` still finds the number. |
| `PersistentSymbolTableProperties.LocalScopeScenario` | server/test/persistentSymbolTable.test.ts:58-79 | Scenario "with a variable c in a local scope". After the scope closes, `lookup('c')` is null and `lookup('c', 6)` is the string. A query at line 8, after the scope closed, finds nothing. |
| `AssignmentHooksProperties.AppliableIffChecked` | server/src/qiskit/antlr/Python3Parser.ts:330-339 | `isAssignmentAppliable` (`AssignmentHooks.IsAssignmentAppliable`) holds exactly when there is a pending entry and the newest one's token spells the whole target. When `applyAssignment` succeeds, it holds exactly when the checker receives one more call. An assignment that does not apply leaves the table and the checker alone. |
| `AssignmentHooks.ApplyAssignment` | server/src/qiskit/antlr/Python3Parser.ts:293-307 | `applyAssignment` pops exactly one pending assignment. If it does not apply, nothing else changes. If it applies, the checker receives its call once. The target is then defined as a variable of the parent symbol exactly when a parent is found, and no other name changes. A fault in the chain walk is the only failure. |
| `AssignmentHooks.FindParentSymbolWith` | server/src/qiskit/antlr/Python3Parser.ts:315-328 | The parent is null when the receiver is not in the table. Otherwise it is the outcome of walking the receiver's symbol through all the trailing methods, in order. A parent found is a symbol the table holds. |
| `AssignmentHooks.WalkStep` | server/src/qiskit/antlr/Python3Parser.ts:319-326 | One method name moves the current symbol to the lookup of the first matching method's return type, or leaves it where it is when nothing matches. A null or untyped current symbol faults. |
| `AssignmentHooks.WalkChain` | server/src/qiskit/antlr/Python3Parser.ts:319-327 | The symbol the walk reaches is the one it started from or one the table holds. |
| `AssignmentHooksProperties.WalkChainAppend` | server/src/qiskit/antlr/Python3Parser.ts:319-327 | The walk processes methods in order. Walking `ms1 + ms2` walks `ms1` and then, from where that stopped, `ms2`. |
| `AssignmentHooksProperties.UnmatchedMethodsKeepReceiver` | server/src/qiskit/antlr/Python3Parser.ts:319-327 | Method names the receiver's class does not have leave the current symbol unchanged. |
| `AssignmentHooksProperties.UnknownReturnTypeFaultsNext` | server/src/qiskit/antlr/Python3Parser.ts:319-325 | When a matched method's return type is not in the table, the next method name dereferences null. |
| `AssignmentHooks.RecordInto` | server/src/qiskit/antlr/Python3Parser.ts:4310-4314 | `setVariable` replaces the receiver. `addArgument` appends one argument, and `addTrailingMethod` appends one trailing method. Each leaves the other parts of the call alone. |
| `AssignmentHooks.RecordOnTop` | server/src/qiskit/antlr/Python3Parser.ts:4310-4314 | Recording changes only the newest pending assignment's call. It keeps the stack's depth and every captured target token. |
| `AssignmentHooks.Step` | server/src/qiskit/antlr/Python3Parser.ts:1645 | `=` pushes a pending assignment on the leftmost target's first token. Every atom and trailer action keeps the table, the checker's calls, the stack's depth and the entries below the newest. Parsing a right-hand side pops one entry. No action removes a defined name, and each adds at most one call to the checker's log, keeping the earlier ones. |
| `AssignmentHooks.Run` | server/src/qiskit/antlr/Python3Parser.ts:1640-1682 | A run faults only if it contains an `applyAssignment`. Defined names are never removed. The checker's log keeps its earlier calls and grows by at most one per `applyAssignment`. |
| `AssignmentHooksProperties.NameRouting` | server/src/qiskit/antlr/Python3Parser.ts:4310-4314 | A `NAME` is recorded as an argument, with its looked-up symbol, exactly when `argumentsScope` is set. Otherwise it becomes the chain's receiver. |
| `AssignmentHooksProperties.AttributeRouting` | server/src/qiskit/antlr/Python3Parser.ts:4512-4519 | A `.NAME` trailer appends its name to the newest entry's trailing methods, whether or not `argumentsScope` is set. The receiver, the arguments, the flag and the table are unchanged. |
| `AssignmentHooksProperties.LiteralRouting` | server/src/qiskit/antlr/Python3Parser.ts:4328-4349 | Number and string literals are always recorded as arguments, typed by the lookups of `int` and `string`. |
| `AssignmentHooksProperties.RecordingWithoutPending` | server/src/qiskit/antlr/Python3Parser.ts:4310-4314 | With no assignment pending, the atom and trailer actions change nothing but the flag. |
| `AssignmentHooksProperties.RecordingRun` | server/src/qiskit/antlr/Python3Parser.ts:4483-4519 | A run of atom and trailer actions never faults, never touches the table or the checker, and keeps the stack's shape. |
| `AssignmentHooksProperties.NestedCallClearsScope` | server/src/qiskit/antlr/Python3Parser.ts:4483-4498 | `argumentsScope` is a plain flag, so the `)` of a nested call clears it while the outer call is still open. |
| `AssignmentHooksProperties.NestedCallScenario` | server/src/qiskit/antlr/Python3Parser.ts:4483-4498 | In `x = f(g(), a)`, `a` is recorded as the receiver after the inner `)`. The checker sees a call on `a` with the single argument `g`. |
| `AssignmentHooksProperties.RightSideProtocol` | server/src/qiskit/antlr/Python3Parser.ts:1640-1682 | One `= rhs` pops exactly the entry it pushed. The call is checked exactly when the leftmost target's first token spells the whole target. Otherwise the table and the checker are untouched. |
| `AssignmentHooksProperties.RightSidesProtocol` | server/src/qiskit/antlr/Python3Parser.ts:1640-1682 | Over all the right-hand sides of one statement, each testlist side pops the entry it pushed. Each `yield` side leaves its entry behind, so the stack ends deeper by the number of `yield` sides, on top of the entries it started with. The checker sees one call per testlist side exactly when the target is a single token. |
| `AssignmentHooksProperties.YieldSideProtocol` | server/src/qiskit/antlr/Python3Parser.ts:1643-1654 | A `= yield ...` right-hand side pushes an entry for the leftmost target that nothing pops. The stack grows by one, and the table and the checker are untouched. |
| `AssignmentHooksProperties.ExpressionStatementProtocol` | server/src/qiskit/antlr/Python3Parser.ts:1640-1682 | The same holds for a whole `target = rhs1 = ... = rhsN` statement, including the actions the leftmost target runs. Starting from an empty stack, a statement without `yield` sides leaves it empty. |
| `AssignmentHooksProperties.MethodReferenceScenario` | server/src/qiskit/antlr/Python3Parser.ts:293-328 | Given class `Foo` whose `bar` returns `Qubit`, parsing `x = Foo()` and then `y = x.bar()` defines `x` as a `Foo` and `y` as a `Qubit`. |
| `QasmErrors.Diagnostic` | server/src/qasm/parser.ts:73-88 | The line is the reported line − 1, start is the column, and end is start plus the token's length. The message is the fixed text for `)` and the parser's message otherwise. The level is always `ERROR`. |
| `QasmErrors.SyntaxError` | server/src/qasm/parser.ts:74-82 | Each `syntaxError` call appends exactly one diagnostic and keeps the earlier ones in order. |
| `QasmErrors.Listen` | server/src/qasm/parser.ts:62-90 | The listener's list holds one diagnostic per reported error, in report order. |
| `QasmErrors.ParseErrors` | server/src/qasm/parser.ts:54 | The result's errors are the syntax errors, then the symbol-table errors, then the semantic errors. |
| `QasmErrorsProperties.DiagnosticDeterminesLocation` | server/src/qasm/parser.ts:83-85 | Two reports with the same diagnostic have the same line, the same column and tokens of the same length. |
| `QasmErrorsProperties.MissingArgumentsMessageIff` | server/src/qasm/parser.ts:73-86 | The fixed message appears exactly when the token is `)` or the parser's own message already was that text. |
| `QasmErrorsProperties.StrayParenthesisExample` | server/src/qasm/parser.ts:73-79 | A `)` reported at line 3, column 7 gives `ERROR` at line 2, columns 7 to 8, with the fixed message. |
| `QasmErrorsProperties.ListenAppend` | server/src/qasm/parser.ts:74-82 | Reports made one after another produce their diagnostics in that order. |
| `QasmErrors.Parse` | server/src/qasm/parser.ts:54 | In the parse result, position i holds the diagnostic of report i. The symbol-table errors and then the semantic errors follow, each in its own order. |

## Left out

- `client/src/visualizations.ts`: file reading, JSON parsing, regular expressions and HTML templates. None of it is verifiable logic.
- The generated antlr machinery of `Python3Parser.ts`: token constants, the ATN, prediction, error recovery and the context classes. Visitor dispatch is also left out. The `ParseTree` datatype and one function per folder replace them.
- Logging is not modelled: `console.log`, `QLogger.debug` and `symbolTable.print`. Neither is `checkMethodInvocation`, which only logs, or `declaredVariables`, which forwards to a symbol-table method that is not part of this model.
- `Float` payloads are kept as the literal's text, because the source's `+ctx.text` is a floating-point conversion.
- `TreeFolder.IntegerValue`: gives the value of decimal-digit literals only. JavaScript's `+` parses hexadecimal, octal and binary literals and exponent forms without a dot (`1e5` gives 100000); here they count as 0. For an imaginary literal such as `3j`, `+` gives NaN; here it also counts as 0. A decimal literal above 2^53 keeps its exact value here, while `+` rounds it to the nearest double (`9007199254740993` gives 9007199254740992).
- `TreeFolder.Reduce`: a marker whose predecessor is not a `VariableReference` is a `Failure`. The source pops that predecessor and casts it. For `null`, or for nothing at all, it throws. For another item, such as an `Integer`, it builds a reference from whatever fields that item has; `ast/types.ts` is not part of this model, so those fields are unknown.
- `TreeFolderProperties.PowerFolds`: a `power` whose call or subscript has no named receiver, such as `f()()` or `1[0]`, is a `Failure` here. This is the `TreeFolder.Reduce` divergence above, read on the syntax.
- A dict/set maker nested inside a parenthesised or bracketed atom is not modelled. The source's terminal folder keeps it as its `result` and can return it for the enclosing atom; the model folds such atoms to `null`.
- `PersistentSymbolTable`: its source is not part of this model, so the arena-of-scopes state is this model's own design. The behaviour follows the test file.
  - Scopes nest, so the innermost scope covering a line is the one opened last.
  - A version is in force at line L only if it was defined strictly before L, as `persistentSymbolTable.test.ts:48-55` requires.
  - The current lookup returns the newest version in the innermost live scope that has the name, whatever its line.
  - The root scope is never popped.
  - The names of the built-in `number` and `string` symbols are assumed.
- `AssignmentHooks`: `AssignmentsStack`, `ArgumentsTester`, `ParserArgumentsErrorHandler` and `QiskitSymbolTable` are not part of this model. They are modelled only by what their call sites need:
  - a pop on an empty stack yields `null`;
  - records made while nothing is pending are dropped;
  - `define` replaces an earlier symbol of the same name;
  - the checker is a log of the calls it received, and its diagnostics are not modelled;
  - the table's initial contents are a parameter.
- `AssignmentHooks.FindParentSymbolWith`: a pending call with no receiver recorded has no parent. The source reads the receiver's text, so whether this case throws depends on the assignments stack, which is not part of this model.
- `QasmErrors.Diagnostic`: the token length is counted in characters, while JavaScript counts UTF-16 code units. A missing `offendingSymbol`, on which the source throws, is not modelled.
- The QASM passes (`QASMSyntacticParser`, `SymbolTableGenerator`, `SemanticAnalyzer`) are not modelled. Their error lists are inputs to `QasmErrors.ParseErrors`.
