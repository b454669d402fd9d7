/** The part of the Python 3 parse tree that the tree folder inspects, as an
    explicit variant instead of antlr contexts and visitor dispatch.

    Which alternative a node is comes from the grammar rule that produced it:
    `atom` alternatives, `trailer` alternatives (`(...)`, `[...]`, `.NAME`),
    the `power` rule, and every other rule context as a `Composite` of its
    children. */
module ParseTree {
  import opened Tokens

  datatype Atom =
    | NameAtom(name: Token)
    | TrueAtom(keyword: Token)
    | FalseAtom(keyword: Token)
      /** A `number` context: one numeric literal token. */
    | NumberAtom(literal: Token)
      /** One or more adjacent `str` contexts, one string-literal token each. */
    | StrAtom(pieces: seq<Token>)
      /** `{ dictorsetmaker }`, spanned by the `dictorsetmaker` context. */
    | DictAtom(maker: Span)
      /** `None`, `...`, `{}`, parenthesised and bracketed atoms. */
    | OtherAtom

  datatype Trailer =
      /** `( arglist? )`: one expression per `argument`, none without an arglist. */
    | Call(arguments: seq<ExprNode>, span: Span)
      /** `[ subscriptlist ]`: one expression per `subscript`. */
    | Subscript(subscripts: seq<ExprNode>, span: Span)
      /** `. NAME` */
    | Attr(name: Token)

  datatype ExprNode =
      /** `power: atom trailer* ('**' factor)?`; the exponent is never folded. */
    | Power(atom: Atom, trailers: seq<Trailer>)
      /** Any other rule context, with its children in source order. */
    | Composite(children: seq<ExprNode>)
      /** A bare terminal token (an operator, a comma, a keyword). */
    | Terminal(token: Token)

  /** An `expr_stmt`: its `testlist_star_expr` children, at least one. */
  datatype ExprStmtNode = ExprStmtNode(first: ExprNode, rest: seq<ExprNode>)

  /** A `stmt`: the `expr_stmt` contexts it contains, in source order (none
      for imports, `pass` and the like; several for `a = 1; b = 2` or for a
      compound statement whose body holds assignments). */
  datatype Stmt = Stmt(exprStmts: seq<ExprStmtNode>)

  function Targets(s: ExprStmtNode): seq<ExprNode> {
    [s.first] + s.rest
  }
}
