/** Tokens and rule-context spans as the ANTLR runtime reports them:
    `line` is 1-based, `column` (antlr's `charPositionInLine`) is 0-based. */
module Tokens {

  datatype Token = Token(text: string, line: int, column: int)

  /** The first and last token of a parser rule context (`ctx.start`, `ctx.stop`). */
  datatype Span = Span(start: Token, stop: Token)
}
