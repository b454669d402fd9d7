/** The syntax-error listener of the QASM parser and the order in which
    `QASMParser.parse` reports errors (`server/src/qasm/parser.ts`).

    The listener turns each syntax error the generated parser reports into
    a diagnostic with a 0-based line and a column range covering the
    offending token. The symbol-table and semantic passes are not part of
    this model: their error lists are inputs. */
module QasmErrors {

  /** `ParseErrorLevel`, of which the listener only ever uses `ERROR`. */
  datatype ErrorLevel = Error

  /** `ParserError`: a diagnostic. */
  datatype ParserError = ParserError(line: int, start: int, end: int, message: string, level: ErrorLevel)

  /** What the generated parser hands to `syntaxError`: the offending
      token's text, its 1-based line, its column, and the parser's message. */
  datatype SyntaxReport = SyntaxReport(offendingText: string, line: int, charPositionInLine: int, msg: string)

  /** The message that replaces the parser's for an offending `)`. */
  const MissingArgumentsMessage := "Expecting arguments before symbol )"

  /** The diagnostic for one report: lines become 0-based, the range spans
      the offending token, and a stray `)` gets its own message. */
  function Diagnostic(report: SyntaxReport): (e: ParserError)
    ensures e.line + 1 == report.line
    ensures e.start == report.charPositionInLine && e.end == e.start + |report.offendingText|
    ensures report.offendingText == ")" ==> e.message == MissingArgumentsMessage
    ensures report.offendingText != ")" ==> e.message == report.msg
    ensures e.level == Error
  {
    var end := report.charPositionInLine + |report.offendingText|;
    if report.offendingText == ")" then
      ParserError(report.line - 1, report.charPositionInLine, end, MissingArgumentsMessage, Error)
    else
      ParserError(report.line - 1, report.charPositionInLine, end, report.msg, Error)
  }

  /** `ErrorListener.syntaxError`: appends one diagnostic to the listener's
      list, keeping the earlier ones in order. */
  function SyntaxError(errors: seq<ParserError>, report: SyntaxReport): (r: seq<ParserError>)
    ensures |r| == |errors| + 1
    ensures r[..|errors|] == errors
    ensures r[|errors|] == Diagnostic(report)
  {
    errors + [Diagnostic(report)]
  }

  /** The listener's list after the parser reported `reports`, in order,
      to a fresh listener. */
  function Listen(reports: seq<SyntaxReport>): (r: seq<ParserError>)
    ensures |r| == |reports|
    ensures forall i :: 0 <= i < |reports| ==> r[i] == Diagnostic(reports[i])
  {
    if |reports| == 0 then []
    else SyntaxError(Listen(reports[..|reports| - 1]), reports[|reports| - 1])
  }

  /** The `errors` of the parse result: the listener's syntax errors, then
      the symbol-table errors, then the semantic errors. */
  function ParseErrors(syntax: seq<ParserError>, symbolTable: seq<ParserError>, semantic: seq<ParserError>): (r: seq<ParserError>)
    ensures |r| == |syntax| + |symbolTable| + |semantic|
    ensures r[..|syntax|] == syntax
    ensures r[|syntax|..|syntax| + |symbolTable|] == symbolTable
    ensures r[|syntax| + |symbolTable|..] == semantic
  {
    syntax + symbolTable + semantic
  }

  /** `QASMParser.parse` as far as errors go: every syntax error comes
      first, one per report in the order the parser made them, followed by
      the symbol-table errors and then the semantic errors. */
  function Parse(reports: seq<SyntaxReport>, symbolTable: seq<ParserError>, semantic: seq<ParserError>): (r: seq<ParserError>)
    ensures |r| == |reports| + |symbolTable| + |semantic|
    ensures forall i :: 0 <= i < |reports| ==> r[i] == Diagnostic(reports[i])
    ensures forall i :: 0 <= i < |symbolTable| ==> r[|reports| + i] == symbolTable[i]
    ensures forall i :: 0 <= i < |semantic| ==> r[|reports| + |symbolTable| + i] == semantic[i]
  {
    var r := ParseErrors(Listen(reports), symbolTable, semantic);
    var n := |reports|;
    var m := |symbolTable|;
    assert forall i :: 0 <= i < n ==> r[..n][i] == r[i];
    assert forall i :: 0 <= i < m ==> symbolTable[i] == r[n..n + m][i];
    assert forall i :: 0 <= i < |semantic| ==> semantic[i] == r[n + m..][i];
    r
  }
}
