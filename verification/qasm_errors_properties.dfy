/** Properties of the QASM syntax-error listener and of the error order. */
module QasmErrorsProperties {
  import opened QasmErrors

  /** Two reports with the same diagnostic were made at the same place
      about tokens of the same length. */
  lemma DiagnosticDeterminesLocation(a: SyntaxReport, b: SyntaxReport)
    requires Diagnostic(a) == Diagnostic(b)
    ensures a.line == b.line && a.charPositionInLine == b.charPositionInLine
    ensures |a.offendingText| == |b.offendingText|
  {
  }

  /** The fixed message appears exactly when the offending token is `)` or
      the parser's own message already was that text. */
  lemma MissingArgumentsMessageIff(report: SyntaxReport)
    ensures Diagnostic(report).message == MissingArgumentsMessage
            <==> report.offendingText == ")" || report.msg == MissingArgumentsMessage
  {
  }

  /** A stray `)` reported at line 3, column 7. */
  lemma StrayParenthesisExample(msg: string)
    ensures Diagnostic(SyntaxReport(")", 3, 7, msg)) == ParserError(2, 7, 8, MissingArgumentsMessage, Error)
  {
  }

  /** Reporting `a` and then `b` lists `a`'s diagnostics before `b`'s. */
  lemma {:induction false} ListenAppend(a: seq<SyntaxReport>, b: seq<SyntaxReport>)
    ensures Listen(a + b) == Listen(a) + Listen(b)
    decreases |b|
  {
    if |b| == 0 {
      assert a + b == a;
    } else {
      var b' := b[..|b| - 1];
      var last := b[|b| - 1];
      assert (a + b)[..|a + b| - 1] == a + b';
      assert (a + b)[|a + b| - 1] == last;
      calc {
        Listen(a + b);
        Listen(a + b') + [Diagnostic(last)];
        { ListenAppend(a, b'); }
        Listen(a) + Listen(b') + [Diagnostic(last)];
        Listen(a) + (Listen(b') + [Diagnostic(last)]);
        Listen(a) + Listen(b);
      }
    }
  }
}
