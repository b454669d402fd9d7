/** The tree folder of `server/src/qiskit/ast/treeFolder.ts`: a structurally
    recursive translation from the parse tree to the folded AST.

    The antlr visitors are replaced by one function per folder:
    `FoldProgram` (TreeFolder), `FoldStmt`/`FoldTargets` (StatementFolder),
    `FoldExpr`/`Reduce` (ExpressionFolder), `FoldTrailer` (TrailerFolder) and
    `FoldAtom` (TerminalFolder). A visitor that meets a rule it does not
    override returns the result of the last child it visits, which is what
    `Composite` and the statement fold below do. */
module TreeFolder {
  import opened Outcomes
  import opened Tokens
  import opened Ast
  import opened ParseTree

  /** A trailer marker whose predecessor is not a `VariableReference`: the
      source dereferences the predecessor's name and position there. */
  datatype FoldFault = UnnamedReceiver(marker: Position)

  // ---------------------------------------------------------------------
  // Positions (namespace PositionFrom)
  // ---------------------------------------------------------------------

  /** `PositionFrom.token`: 0-based line; the end column counts one past
      the column after the token text. */
  function TokenPosition(t: Token): (p: Position)
    ensures p.line + 1 == t.line && p.start == t.column
    ensures p.end - p.start == |t.text| + 1
  {
    Position(t.line - 1, t.column, t.column + |t.text| + 1)
  }

  /** `PositionFrom.context`: from the start token's line and column to one
      past the stop token's column. */
  function ContextPosition(s: Span): (p: Position)
    ensures p.line + 1 == s.start.line && p.start == s.start.column
    ensures p.end - 1 == s.stop.column
  {
    Position(s.start.line - 1, s.start.column, s.stop.column + 1)
  }

  // ---------------------------------------------------------------------
  // Leaves (TerminalFolder)
  // ---------------------------------------------------------------------

  predicate IsDigit(c: char) {
    '0' <= c <= '9'
  }

  predicate IsDecimal(s: string) {
    |s| > 0 && forall i :: 0 <= i < |s| ==> IsDigit(s[i])
  }

  /** The value of a string of decimal digits, most significant first. */
  function DecimalValue(s: string): nat
    requires IsDecimal(s)
  {
    var d := s[|s| - 1] as int - '0' as int;
    if |s| == 1 then d else DecimalValue(s[..|s| - 1]) * 10 + d
  }

  /** `+ctx.text` for a literal without a dot, for decimal literals only. */
  function IntegerValue(text: string): nat {
    if IsDecimal(text) then DecimalValue(text) else 0
  }

  /** `visitNumber`: a literal containing `.` is a `Float`, any other an `Integer`. */
  function FoldNumber(literal: Token): Item {
    var pos := ContextPosition(Span(literal, literal));
    if '.' in literal.text then Float(literal.text, pos)
    else Integer(IntegerValue(literal.text), pos)
  }

  /** The TerminalFolder on an atom: a leaf item, never a trailer marker;
      `null` exactly for atoms it has no case for and for an empty string. */
  function FoldAtom(a: Atom): (r: Item)
    ensures !IsMarker(r) && !r.Assignment? && !r.Expression?
    ensures r == Null <==> a.OtherAtom? || (a.StrAtom? && |a.pieces| == 0)
    ensures a.NameAtom? <==> r.VariableReference?
    ensures a.TrueAtom? || a.FalseAtom? <==> r.QiskitBoolean?
    ensures a.NumberAtom? <==> r.Integer? || r.Float?
    ensures a.DictAtom? <==> r.Dictionary?
  {
    match a
    case NameAtom(t) => VariableReference(t.text, TokenPosition(t))
    case TrueAtom(t) => QiskitBoolean(true, TokenPosition(t))
    case FalseAtom(t) => QiskitBoolean(false, TokenPosition(t))
    case NumberAtom(t) => FoldNumber(t)
    case StrAtom(pieces) =>
      // each `str` child folds to a Text; the atom yields the last one
      if |pieces| == 0 then Null
      else
        var p := pieces[|pieces| - 1];
        Text(p.text, ContextPosition(Span(p, p)))
    case DictAtom(maker) => Dictionary(ContextPosition(maker))
    case OtherAtom => Null
  }

  // ---------------------------------------------------------------------
  // Array indexes (asArrayReference, numberValue)
  // ---------------------------------------------------------------------

  /** `terms.reduce((a, b) => b instanceof Integer ? b.value : a, 0)`:
      the value of the last `Integer` term, or 0 when there is none. */
  function LastInteger(terms: seq<Item>): (r: int)
    ensures (forall i :: 0 <= i < |terms| ==> !terms[i].Integer?) ==> r == 0
    ensures (exists i :: 0 <= i < |terms| && terms[i].Integer?) ==>
              exists i :: 0 <= i < |terms| && terms[i].Integer? && r == terms[i].value
                          && forall j :: i < j < |terms| ==> !terms[j].Integer?
  {
    if |terms| == 0 then 0
    else
      var last := terms[|terms| - 1];
      if last.Integer? then last.value
      else
        var init := terms[..|terms| - 1];
        var r := LastInteger(init);
        LastIntegerStep(terms, r);
        r
  }

  /** The step of `LastInteger` over a last term that is not an `Integer`:
      what holds of the value for all but the last term holds for all. */
  lemma LastIntegerStep(terms: seq<Item>, r: int)
    requires |terms| > 0 && !terms[|terms| - 1].Integer?
    requires var init := terms[..|terms| - 1];
             && ((forall i :: 0 <= i < |init| ==> !init[i].Integer?) ==> r == 0)
             && ((exists i :: 0 <= i < |init| && init[i].Integer?) ==>
                   exists i :: 0 <= i < |init| && init[i].Integer? && r == init[i].value
                               && forall j :: i < j < |init| ==> !init[j].Integer?)
    ensures (forall i :: 0 <= i < |terms| ==> !terms[i].Integer?) ==> r == 0
    ensures (exists i :: 0 <= i < |terms| && terms[i].Integer?) ==>
              exists i :: 0 <= i < |terms| && terms[i].Integer? && r == terms[i].value
                          && forall j :: i < j < |terms| ==> !terms[j].Integer?
  {
    var init := terms[..|terms| - 1];
    assert forall i :: 0 <= i < |init| ==> init[i] == terms[i];
    if exists i :: 0 <= i < |terms| && terms[i].Integer? {
      var k :| 0 <= k < |terms| && terms[k].Integer?;
      assert init[k].Integer?;
      var i :| 0 <= i < |init| && init[i].Integer? && r == init[i].value
               && forall j :: i < j < |init| ==> !init[j].Integer?;
      forall j | i < j < |terms|
        ensures !terms[j].Integer?
      {
        if j < |init| {
          assert !init[j].Integer?;
        }
      }
      assert terms[i].Integer? && r == terms[i].value;
    }
  }

  /** `numberValue`: what one subscript contributes to an array index. */
  function NumberValue(item: Item): int {
    if item.Expression? then LastInteger(item.terms) else 0
  }

  /** `indexes.reduce((a, b) => numberValue(b) || a, 0)`: the last non-zero
      contribution, or 0 when every subscript contributes 0. */
  function IndexValue(indexes: seq<Item>): (r: int)
    ensures r == 0 <==> forall i :: 0 <= i < |indexes| ==> NumberValue(indexes[i]) == 0
    ensures r != 0 ==> exists i :: 0 <= i < |indexes| && NumberValue(indexes[i]) == r
                          && forall j :: i < j < |indexes| ==> NumberValue(indexes[j]) == 0
  {
    if |indexes| == 0 then 0
    else
      var v := NumberValue(indexes[|indexes| - 1]);
      if v != 0 then v
      else
        var r := IndexValue(indexes[..|indexes| - 1]);
        IndexValueStep(indexes, r);
        r
  }

  /** The step of `IndexValue` over a last subscript contributing 0: what
      holds of the value for all but the last subscript holds for all. */
  lemma IndexValueStep(indexes: seq<Item>, r: int)
    requires |indexes| > 0 && NumberValue(indexes[|indexes| - 1]) == 0
    requires var init := indexes[..|indexes| - 1];
             && (r == 0 <==> forall i :: 0 <= i < |init| ==> NumberValue(init[i]) == 0)
             && (r != 0 ==> exists i :: 0 <= i < |init| && NumberValue(init[i]) == r
                                        && forall j :: i < j < |init| ==> NumberValue(init[j]) == 0)
    ensures r == 0 <==> forall i :: 0 <= i < |indexes| ==> NumberValue(indexes[i]) == 0
    ensures r != 0 ==> exists i :: 0 <= i < |indexes| && NumberValue(indexes[i]) == r
                          && forall j :: i < j < |indexes| ==> NumberValue(indexes[j]) == 0
  {
    var init := indexes[..|indexes| - 1];
    assert forall i :: 0 <= i < |init| ==> init[i] == indexes[i];
    if r != 0 {
      var i :| 0 <= i < |init| && NumberValue(init[i]) == r
               && forall j :: i < j < |init| ==> NumberValue(init[j]) == 0;
      forall j | i < j < |indexes|
        ensures NumberValue(indexes[j]) == 0
      {
        if j < |init| {
          assert NumberValue(init[j]) == 0;
        }
      }
      assert NumberValue(indexes[i]) == r;
    }
  }

  // ---------------------------------------------------------------------
  // Reduction of a power's term list (asExpressionWithFoldedTerms)
  // ---------------------------------------------------------------------

  /** `asMethodReference` / `asArrayReference`: the receiver's name and
      position combined with the marker's arguments or index. */
  function AsReference(variable: Item, marker: Item): Item
    requires variable.VariableReference? && IsMarker(marker)
  {
    if marker.Arguments? then MethodReference(variable.name, marker.args, variable.pos)
    else ArrayReference(variable.name, IndexValue(marker.indexes), variable.pos)
  }

  /** One step of the left-to-right reduction: a marker replaces the last
      accumulated term, anything else is appended. */
  function ReduceStep(acc: seq<Item>, b: Item): Result<seq<Item>, FoldFault> {
    if !IsMarker(b) then Success(acc + [b])
    else if |acc| > 0 && acc[|acc| - 1].VariableReference? then
      Success(acc[..|acc| - 1] + [AsReference(acc[|acc| - 1], b)])
    else Failure(UnnamedReceiver(b.pos))
  }

  /** `terms.reduce(translatingFromDisposableItem, [])`. */
  function Reduce(terms: seq<Item>): (r: Result<seq<Item>, FoldFault>)
    ensures r.Success? ==> NoMarkers(r.value) && |r.value| == CountNonMarkers(terms)
  {
    if |terms| == 0 then Success([])
    else
      var acc :- Reduce(terms[..|terms| - 1]);
      ReduceStep(acc, terms[|terms| - 1])
  }

  // ---------------------------------------------------------------------
  // Expressions and trailers (ExpressionFolder, TrailerFolder)
  // ---------------------------------------------------------------------

  /** The ExpressionFolder: a `power` becomes an `Expression` of reduced
      terms; any other context yields its last child's fold; a terminal
      yields `null`. */
  function FoldExpr(e: ExprNode): (r: Result<Item, FoldFault>)
    ensures r.Success? ==> r.value.Null? || (r.value.Expression? && NoMarkers(r.value.terms))
    ensures e.Terminal? ==> r == Success(Null)
  {
    match e
    case Terminal(_) => Success(Null)
    case Composite(children) =>
      var items :- FoldExprs(children);
      Success(if |items| == 0 then Null else items[|items| - 1])
    case Power(atom, trailers) =>
      var folded :- FoldTrailers(trailers);
      var terms :- Reduce([FoldAtom(atom)] + folded);
      Success(Expression(terms))
  }

  /** Folds a list of expressions in order; the first fault aborts. */
  function FoldExprs(es: seq<ExprNode>): (r: Result<seq<Item>, FoldFault>)
    ensures r.Success? ==> |r.value| == |es|
    ensures r.Success? ==> forall i :: 0 <= i < |es| ==> FoldExpr(es[i]) == Success(r.value[i])
  {
    if |es| == 0 then Success([])
    else
      var x :- FoldExpr(es[0]);
      var xs :- FoldExprs(es[1..]);
      assert forall i :: 1 <= i < |es| ==> es[1..][i - 1] == es[i];
      Success([x] + xs)
  }

  /** Folding a list succeeds exactly when every element folds. */
  lemma {:induction false} FoldExprsSucceedsIff(es: seq<ExprNode>)
    ensures FoldExprs(es).Success? <==> forall i :: 0 <= i < |es| ==> FoldExpr(es[i]).Success?
  {
    if |es| > 0 {
      FoldExprsSucceedsIff(es[1..]);
      assert forall i :: 1 <= i < |es| ==> es[1..][i - 1] == es[i];
    }
  }

  /** `visitTrailer`: `(` gives an `Arguments` marker, `[` an `ArrayIndex`
      marker, `.NAME` a `VariableReference`. */
  function FoldTrailer(t: Trailer): (r: Result<Item, FoldFault>)
    ensures r.Success? <==> (t.Call? ==> FoldExprs(t.arguments).Success?)
                            && (t.Subscript? ==> FoldExprs(t.subscripts).Success?)
    ensures r.Success? ==> (IsMarker(r.value) <==> !t.Attr?)
    ensures r.Success? ==> (r.value.Arguments? <==> t.Call?) && (r.value.ArrayIndex? <==> t.Subscript?)
  {
    match t
    case Call(arguments, span) =>
      var args :- FoldExprs(arguments);
      Success(Arguments(args, ContextPosition(span)))
    case Subscript(subscripts, span) =>
      var indexes :- FoldExprs(subscripts);
      Success(ArrayIndex(indexes, ContextPosition(span)))
    case Attr(name) => Success(VariableReference(name.text, TokenPosition(name)))
  }

  function FoldTrailers(ts: seq<Trailer>): (r: Result<seq<Item>, FoldFault>)
    ensures r.Success? ==> |r.value| == |ts|
    ensures r.Success? ==> forall i :: 0 <= i < |ts| ==> FoldTrailer(ts[i]) == Success(r.value[i])
  {
    if |ts| == 0 then Success([])
    else
      var x :- FoldTrailer(ts[0]);
      var xs :- FoldTrailers(ts[1..]);
      assert forall i :: 1 <= i < |ts| ==> ts[1..][i - 1] == ts[i];
      Success([x] + xs)
  }

  // ---------------------------------------------------------------------
  // Statements and programs (StatementFolder, TreeFolder)
  // ---------------------------------------------------------------------

  /** `reduceRight(creatingAssignments)` over the folded targets of one
      `expr_stmt`: each left element that is not `null` becomes the target of
      an `Assignment` whose value is the fold of everything to its right; a
      `null` left element replaces the accumulated value by `null`. */
  function FoldTargets(items: seq<Item>): (r: Item)
    requires |items| > 0
    ensures r == Null <==> items[0] == Null
    ensures |items| == 1 || items[0] == Null || (r.Assignment? && r.target == items[0])
  {
    if |items| == 1 then items[0]
    else
      var right := FoldTargets(items[1..]);
      if items[0] != Null then Assignment(items[0], right) else Null
  }

  /** `visitExpr_stmt`. */
  function FoldExprStmt(s: ExprStmtNode): (r: Result<Statement, FoldFault>)
    ensures r.Success? <==> forall i :: 0 <= i < |Targets(s)| ==> FoldExpr(Targets(s)[i]).Success?
    ensures r.Success? ==> (r.value.expression == Null <==> FoldExpr(s.first) == Success(Null))
    ensures r.Success? && |s.rest| == 0 ==> FoldExpr(s.first) == Success(r.value.expression)
  {
    FoldExprsSucceedsIff(Targets(s));
    var items :- FoldExprs(Targets(s));
    Success(Statement(FoldTargets(items)))
  }

  /** One `stmt` under a fresh StatementFolder: every `expr_stmt` inside it
      is folded in order and the statement yields the last of them, or
      nothing (`undefined`) when it holds none. */
  function FoldStmt(s: Stmt): (r: Result<Option<Statement>, FoldFault>)
    ensures r.Success? ==> (r.value.Some? <==> |s.exprStmts| > 0)
    ensures r.Success? && |s.exprStmts| > 0 ==>
              var last := FoldExprStmt(s.exprStmts[|s.exprStmts| - 1]);
              last.Success? && r.value == Some(last.value)
  {
    FoldLast(s.exprStmts)
  }

  function FoldLast(ss: seq<ExprStmtNode>): (r: Result<Option<Statement>, FoldFault>)
    ensures r.Success? ==> (r.value.Some? <==> |ss| > 0)
    ensures r.Success? && |ss| > 0 ==>
              FoldExprStmt(ss[|ss| - 1]).Success? && r.value == Some(FoldExprStmt(ss[|ss| - 1]).value)
  {
    if |ss| == 0 then Success(None)
    else
      var s :- FoldExprStmt(ss[0]);
      var later :- FoldLast(ss[1..]);
      Success(if later.Some? then later else Some(s))
  }

  /** `visitProgram`: fold every statement, then drop the `undefined` ones. */
  function FoldProgram(stmts: seq<Stmt>): (r: Result<seq<Statement>, FoldFault>)
    ensures r.Success? <==> forall i :: 0 <= i < |stmts| ==> FoldStmt(stmts[i]).Success?
    ensures r.Success? ==> |r.value| <= |stmts|
  {
    if |stmts| == 0 then Success([])
    else
      assert forall i :: 0 <= i < |stmts| - 1 ==> stmts[1..][i] == stmts[i + 1];
      var s :- FoldStmt(stmts[0]);
      var rest :- FoldProgram(stmts[1..]);
      Success((if s.Some? then [s.value] else []) + rest)
  }
}
