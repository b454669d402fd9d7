/** Properties of the tree folder: the term reduction, array indexes, the
    right-to-left folding of assignment targets, program order and the
    positions of leaves. */
module TreeFolderProperties {
  import opened Outcomes
  import opened Tokens
  import opened Ast
  import opened ParseTree
  import opened TreeFolder

  // ---------------------------------------------------------------------
  // Reduction of term lists
  // ---------------------------------------------------------------------

  /** Every marker directly follows a `VariableReference` term. */
  predicate MarkersFollowNames(terms: seq<Item>) {
    forall i :: 0 <= i < |terms| && IsMarker(terms[i]) ==> i > 0 && terms[i - 1].VariableReference?
  }

  /** The reduced list ends in a `VariableReference` exactly when the input does. */
  lemma {:induction false} ReduceKeepsLastName(terms: seq<Item>)
    requires |terms| > 0 && Reduce(terms).Success?
    ensures |Reduce(terms).value| > 0
    ensures Reduce(terms).value[|Reduce(terms).value| - 1].VariableReference?
            <==> terms[|terms| - 1].VariableReference?
  {
    var init := terms[..|terms| - 1];
    var acc := Reduce(init).value;
    var b := terms[|terms| - 1];
    assert Reduce(terms) == ReduceStep(acc, b);
  }

  /** The reduction succeeds exactly when every call or subscript marker
      directly follows a name; `f()()` and a marker after a literal fail. */
  lemma {:induction false} ReduceSucceedsIff(terms: seq<Item>)
    ensures Reduce(terms).Success? <==> MarkersFollowNames(terms)
  {
    if |terms| > 0 {
      var init := terms[..|terms| - 1];
      var b := terms[|terms| - 1];
      ReduceSucceedsIff(init);
      assert forall i :: 0 <= i < |init| ==> init[i] == terms[i];
      if Reduce(init).Success? {
        var acc := Reduce(init).value;
        assert Reduce(terms) == ReduceStep(acc, b);
        if IsMarker(b) && |init| > 0 {
          ReduceKeepsLastName(init);
        }
      }
    }
  }

  /** Without markers the reduction is the identity. */
  lemma {:induction false} ReduceIdentity(terms: seq<Item>)
    requires NoMarkers(terms)
    ensures Reduce(terms) == Success(terms)
  {
    if |terms| > 0 {
      var init := terms[..|terms| - 1];
      assert NoMarkers(init) by {
        assert forall i :: 0 <= i < |init| ==> init[i] == terms[i];
      }
      ReduceIdentity(init);
      assert init + [terms[|terms| - 1]] == terms;
    }
  }

  /** A marker replaces exactly the term before it by the reference built
      from that term's name and position; everything earlier is untouched. */
  lemma ReduceReplacesPredecessor(terms: seq<Item>, v: Item, marker: Item)
    requires Reduce(terms).Success? && v.VariableReference? && IsMarker(marker)
    ensures Reduce(terms + [v, marker]) == Success(Reduce(terms).value + [AsReference(v, marker)])
    ensures marker.Arguments? ==> AsReference(v, marker) == MethodReference(v.name, marker.args, v.pos)
    ensures marker.ArrayIndex? ==> AsReference(v, marker) == ArrayReference(v.name, IndexValue(marker.indexes), v.pos)
  {
    var acc := Reduce(terms).value;
    ReduceSnoc(terms, v);
    ReduceSnoc(terms + [v], marker);
    assert terms + [v] + [marker] == terms + [v, marker];
    assert (acc + [v])[..|acc + [v]| - 1] == acc;
  }

  /** Reducing one more term is one more `ReduceStep`. */
  lemma ReduceSnoc(terms: seq<Item>, b: Item)
    requires Reduce(terms).Success?
    ensures Reduce(terms + [b]) == ReduceStep(Reduce(terms).value, b)
  {
    assert (terms + [b])[..|terms + [b]| - 1] == terms;
  }

  /** A power whose trailers are all `.NAME` folds to the atom followed by
      one `VariableReference` per trailer, in source order. */
  lemma AttributeChainTerms(atom: Atom, trailers: seq<Trailer>)
    requires forall i :: 0 <= i < |trailers| ==> trailers[i].Attr?
    ensures FoldExpr(Power(atom, trailers)) ==
            Success(Expression([FoldAtom(atom)] + AttributeRefs(trailers)))
  {
    AttributeTrailersFold(trailers);
    var terms := [FoldAtom(atom)] + AttributeRefs(trailers);
    assert NoMarkers(terms);
    ReduceIdentity(terms);
  }

  /** The `VariableReference` of each `.NAME` trailer, in order. */
  function AttributeRefs(trailers: seq<Trailer>): (r: seq<Item>)
    requires forall i :: 0 <= i < |trailers| ==> trailers[i].Attr?
    ensures NoMarkers(r)
  {
    if |trailers| == 0 then []
    else
      [VariableReference(trailers[0].name.text, TokenPosition(trailers[0].name))]
        + AttributeRefs(trailers[1..])
  }

  lemma {:induction false} AttributeTrailersFold(trailers: seq<Trailer>)
    requires forall i :: 0 <= i < |trailers| ==> trailers[i].Attr?
    ensures FoldTrailers(trailers) == Success(AttributeRefs(trailers))
  {
    if |trailers| > 0 {
      AttributeTrailersFold(trailers[1..]);
    }
  }

  /** Any context other than a `power` folds exactly when each of its
      children folds, and then to its last child's fold (`null` without
      children): antlr's default aggregation keeps the last result. */
  lemma CompositeFoldsToLast(children: seq<ExprNode>)
    ensures FoldExpr(Composite(children)).Success? <==> forall i :: 0 <= i < |children| ==> FoldExpr(children[i]).Success?
    ensures |children| == 0 ==> FoldExpr(Composite(children)) == Success(Null)
    ensures |children| > 0 && FoldExpr(Composite(children)).Success? ==>
              FoldExpr(Composite(children)) == FoldExpr(children[|children| - 1])
  {
    FoldExprsSucceedsIff(children);
    CompositeFold(children);
  }

  /** A composite's fold is read off its children's folds. */
  lemma CompositeFold(children: seq<ExprNode>)
    ensures FoldExpr(Composite(children)).Success? <==> FoldExprs(children).Success?
    ensures FoldExprs(children).Success? ==>
              FoldExpr(Composite(children)) == Success(if |children| == 0 then Null else FoldExprs(children).value[|children| - 1])
  {
  }

  /** Each call or subscript trailer directly follows the name atom or a
      `.NAME` trailer, so that the reduction has a name to attach it to. */
  predicate ReceiversNamed(atom: Atom, ts: seq<Trailer>) {
    forall i :: 0 <= i < |ts| && !ts[i].Attr? ==> if i == 0 then atom.NameAtom? else ts[i - 1].Attr?
  }

  /** A power folds exactly when its trailers fold and every call or
      subscript has a named receiver; its terms are then the reduction of
      the folded atom followed by the folded trailers, in source order. */
  lemma PowerFolds(atom: Atom, ts: seq<Trailer>)
    ensures FoldExpr(Power(atom, ts)).Success? <==> FoldTrailers(ts).Success? && ReceiversNamed(atom, ts)
    ensures FoldExpr(Power(atom, ts)).Success? ==>
              FoldExpr(Power(atom, ts)) == Success(Expression(Reduce([FoldAtom(atom)] + FoldTrailers(ts).value).value))
  {
    if FoldTrailers(ts).Success? {
      var terms := [FoldAtom(atom)] + FoldTrailers(ts).value;
      ReduceSucceedsIff(terms);
      ReceiversNamedIff(atom, ts, FoldTrailers(ts).value);
    }
  }

  /** On the terms of a power, "every marker follows a name" is
      `ReceiversNamed` read on the syntax. */
  lemma ReceiversNamedIff(atom: Atom, ts: seq<Trailer>, folded: seq<Item>)
    requires FoldTrailers(ts) == Success(folded)
    ensures MarkersFollowNames([FoldAtom(atom)] + folded) <==> ReceiversNamed(atom, ts)
  {
    FoldedTrailerKinds(ts, folded);
    var first := FoldAtom(atom);
    assert !IsMarker(first) && (first.VariableReference? <==> atom.NameAtom?);
    if MarkersFollowNames([first] + folded) {
      FollowingNamesAreNamed(atom, ts, first, folded);
    }
    if ReceiversNamed(atom, ts) {
      NamedReceiversAreFollowed(atom, ts, first, folded);
    }
  }

  lemma FollowingNamesAreNamed(atom: Atom, ts: seq<Trailer>, first: Item, folded: seq<Item>)
    requires |folded| == |ts| && (first.VariableReference? <==> atom.NameAtom?)
    requires forall i :: 0 <= i < |ts| ==> (IsMarker(folded[i]) <==> !ts[i].Attr?)
    requires forall i :: 0 <= i < |ts| ==> (folded[i].VariableReference? <==> ts[i].Attr?)
    requires MarkersFollowNames([first] + folded)
    ensures ReceiversNamed(atom, ts)
  {
    var terms := [first] + folded;
    forall i | 0 <= i < |ts| && !ts[i].Attr?
      ensures if i == 0 then atom.NameAtom? else ts[i - 1].Attr?
    {
      assert terms[i + 1] == folded[i] && IsMarker(terms[i + 1]);
      assert terms[i].VariableReference?;
      if i == 0 {
        assert terms[0] == first;
      } else {
        assert terms[i] == folded[i - 1];
      }
    }
  }

  lemma NamedReceiversAreFollowed(atom: Atom, ts: seq<Trailer>, first: Item, folded: seq<Item>)
    requires |folded| == |ts| && !IsMarker(first) && (first.VariableReference? <==> atom.NameAtom?)
    requires forall i :: 0 <= i < |ts| ==> (IsMarker(folded[i]) <==> !ts[i].Attr?)
    requires forall i :: 0 <= i < |ts| ==> (folded[i].VariableReference? <==> ts[i].Attr?)
    requires ReceiversNamed(atom, ts)
    ensures MarkersFollowNames([first] + folded)
  {
    var terms := [first] + folded;
    forall i | 0 <= i < |terms| && IsMarker(terms[i])
      ensures i > 0 && terms[i - 1].VariableReference?
    {
      assert i > 0;
      var k := i - 1;
      assert terms[i] == folded[k] && !ts[k].Attr?;
      if k == 0 {
        assert atom.NameAtom? && terms[0] == first;
      } else {
        assert ts[k - 1].Attr? && terms[i - 1] == folded[k - 1];
      }
    }
  }

  /** A folded trailer is a marker exactly when it is not `.NAME`, and a
      `VariableReference` exactly when it is. */
  lemma FoldedTrailerKinds(ts: seq<Trailer>, folded: seq<Item>)
    requires FoldTrailers(ts) == Success(folded)
    ensures |folded| == |ts|
    ensures forall i :: 0 <= i < |ts| ==> (IsMarker(folded[i]) <==> !ts[i].Attr?)
    ensures forall i :: 0 <= i < |ts| ==> (folded[i].VariableReference? <==> ts[i].Attr?)
  {
    forall i | 0 <= i < |ts|
      ensures IsMarker(folded[i]) <==> !ts[i].Attr?
      ensures folded[i].VariableReference? <==> ts[i].Attr?
    {
      assert FoldTrailer(ts[i]) == Success(folded[i]);
    }
  }

  /** A call or a subscript directly on a name folds to a single reference
      at the name's position: `f(x)` to a `MethodReference` carrying the
      folded arguments, `a[1]` to an `ArrayReference` carrying the index
      value. */
  lemma ReferenceOnName(n: Token, t: Trailer)
    requires !t.Attr?
    ensures t.Call? && FoldExprs(t.arguments).Success? ==>
              FoldExpr(Power(NameAtom(n), [t]))
                == Success(Expression([MethodReference(n.text, FoldExprs(t.arguments).value, TokenPosition(n))]))
    ensures t.Subscript? && FoldExprs(t.subscripts).Success? ==>
              FoldExpr(Power(NameAtom(n), [t]))
                == Success(Expression([ArrayReference(n.text, IndexValue(FoldExprs(t.subscripts).value), TokenPosition(n))]))
  {
    if FoldTrailer(t).Success? {
      var v := VariableReference(n.text, TokenPosition(n));
      ReferenceTerms(v, FoldTrailer(t).value);
      SingleTrailerFolds(t);
      assert [FoldAtom(NameAtom(n))] + [FoldTrailer(t).value] == [v, FoldTrailer(t).value];
    }
  }

  /** A name followed by one marker reduces to the reference they form. */
  lemma ReferenceTerms(v: Item, m: Item)
    requires v.VariableReference? && IsMarker(m)
    ensures Reduce([v, m]) == Success([AsReference(v, m)])
  {
    assert Reduce([]) == Success([]);
    ReduceReplacesPredecessor([], v, m);
    assert [] + [v, m] == [v, m];
    assert [] + [AsReference(v, m)] == [AsReference(v, m)];
  }

  lemma SingleTrailerFolds(t: Trailer)
    requires FoldTrailer(t).Success?
    ensures FoldTrailers([t]) == Success([FoldTrailer(t).value])
  {
    assert [t][1..] == [];
    assert FoldTrailers([]) == Success([]);
    assert [FoldTrailer(t).value] + [] == [FoldTrailer(t).value];
  }

  /** Trailer classification: a call gives one argument per `argument`
      (none without an arglist), a subscript one index per `subscript`, an
      attribute the `VariableReference` of its name. */
  lemma TrailerClassification(t: Trailer)
    requires FoldTrailer(t).Success?
    ensures t.Call? ==>
              && FoldTrailer(t).value.Arguments?
              && FoldTrailer(t).value.pos == ContextPosition(t.span)
              && |FoldTrailer(t).value.args| == |t.arguments|
              && forall i :: 0 <= i < |t.arguments| ==>
                   FoldExpr(t.arguments[i]) == Success(FoldTrailer(t).value.args[i])
    ensures t.Subscript? ==>
              && FoldTrailer(t).value.ArrayIndex?
              && FoldTrailer(t).value.pos == ContextPosition(t.span)
              && |FoldTrailer(t).value.indexes| == |t.subscripts|
              && forall i :: 0 <= i < |t.subscripts| ==>
                   FoldExpr(t.subscripts[i]) == Success(FoldTrailer(t).value.indexes[i])
    ensures t.Attr? ==> FoldTrailer(t).value == VariableReference(t.name.text, TokenPosition(t.name))
  {
  }

  // ---------------------------------------------------------------------
  // Array indexes
  // ---------------------------------------------------------------------

  /** Each subscript contributes its last integer literal, and the index
      is the last non-zero contribution: `a[1, 2]` indexes 2, not 1. */
  lemma LastSubscriptWins(p1: Position, p2: Position, pe1: Position, pe2: Position)
    ensures IndexValue([Expression([Integer(1, p1)]), Expression([Integer(2, p2)])]) == 2
    ensures IndexValue([Expression([Integer(2, p1)]), Expression([Integer(0, p2)])]) == 2
    ensures NumberValue(Expression([Integer(7, p1), VariableReference("x", pe1), Integer(3, p2)])) == 3
    ensures NumberValue(VariableReference("x", pe2)) == 0
  {
    var twoFirst := [Expression([Integer(2, p1)]), Expression([Integer(0, p2)])];
    assert NumberValue(twoFirst[1]) == 0;
    assert twoFirst[..1] == [Expression([Integer(2, p1)])];
  }

  // ---------------------------------------------------------------------
  // Assignment targets
  // ---------------------------------------------------------------------

  /** Splits a right-nested chain of assignments back into its targets. */
  function Unchain(x: Item): (r: seq<Item>)
    ensures |r| > 0
  {
    if x.Assignment? then [x.target] + Unchain(x.right) else [x]
  }

  /** Folding the targets right to left and unchaining the result gives the
      targets back up to the first `null` left of the last target:
      `[t1, ..., tn]` folds to `Assignment(t1, Assignment(t2, ... tn))`, and
      a `null` at position k replaces everything right of it by `null`. */
  lemma {:induction false} UnchainFoldTargets(items: seq<Item>, k: nat)
    requires k < |items|
    requires k == |items| - 1 || items[k] == Null
    requires forall j :: 0 <= j < k ==> items[j] != Null
    requires forall i :: 0 <= i < |items| ==> !items[i].Assignment?
    ensures Unchain(FoldTargets(items)) == items[..k + 1]
  {
    if k > 0 {
      UnchainFoldTargets(items[1..], k - 1);
      assert [items[0]] + items[1..][..k] == items[..k + 1];
    }
  }

  /** For a whole `expr_stmt` whose targets all fold to something: the
      folded statement is the chain of its folded targets. */
  lemma ExprStmtIsChainOfTargets(s: ExprStmtNode)
    requires FoldExprs(Targets(s)).Success?
    requires forall i :: 0 <= i < |Targets(s)| - 1 ==> FoldExprs(Targets(s)).value[i] != Null
    ensures FoldExprStmt(s).Success?
    ensures Unchain(FoldExprStmt(s).value.expression) == FoldExprs(Targets(s)).value
  {
    var items := FoldExprs(Targets(s)).value;
    assert forall i :: 0 <= i < |items| ==> FoldExpr(Targets(s)[i]) == Success(items[i]);
    UnchainFoldTargets(items, |items| - 1);
  }

  /** `a = b = f()` folds to `Assignment(a, Assignment(b, f()))`, each side
      an `Expression` of its reduced terms. */
  lemma ChainedAssignmentExample(a: Token, b: Token, f: Token, call: Span)
    ensures FoldExprStmt(ExprStmtNode(Power(NameAtom(a), []),
                                      [Power(NameAtom(b), []), Power(NameAtom(f), [Call([], call)])]))
            == Success(Statement(
                 Assignment(Expression([VariableReference(a.text, TokenPosition(a))]),
                   Assignment(Expression([VariableReference(b.text, TokenPosition(b))]),
                     Expression([MethodReference(f.text, [], TokenPosition(f))])))))
  {
    var fCall := Power(NameAtom(f), [Call([], call)]);
    var pa, pb := Power(NameAtom(a), []), Power(NameAtom(b), []);
    var ea := Expression([VariableReference(a.text, TokenPosition(a))]);
    var eb := Expression([VariableReference(b.text, TokenPosition(b))]);
    var ef := Expression([MethodReference(f.text, [], TokenPosition(f))]);
    NameFold(a);
    NameFold(b);
    CallFold(f, call);
    FoldThree(pa, pb, fCall, ea, eb, ef);
    FoldTargetsThree(ea, eb, ef);
    assert Targets(ExprStmtNode(pa, [pb, fCall])) == [pa, pb, fCall];
  }

  lemma FoldThree(p: ExprNode, q: ExprNode, r: ExprNode, x: Item, y: Item, z: Item)
    requires FoldExpr(p) == Success(x) && FoldExpr(q) == Success(y) && FoldExpr(r) == Success(z)
    ensures FoldExprs([p, q, r]) == Success([x, y, z])
  {
    assert FoldExprs([]) == Success([]);
    FoldExprsCons(r, [], z, []);
    assert [r] + [] == [r] && [z] + [] == [z];
    FoldExprsCons(q, [r], y, [z]);
    assert [q] + [r] == [q, r] && [y] + [z] == [y, z];
    FoldExprsCons(p, [q, r], x, [y, z]);
    assert [p] + [q, r] == [p, q, r] && [x] + [y, z] == [x, y, z];
  }

  lemma FoldTargetsThree(x: Item, y: Item, z: Item)
    requires x != Null && y != Null
    ensures FoldTargets([x, y, z]) == Assignment(x, Assignment(y, z))
  {
    assert [x, y, z][1..] == [y, z];
    assert [y, z][1..] == [z];
    assert FoldTargets([z]) == z;
    assert FoldTargets([y, z]) == Assignment(y, z);
  }

  /** A bare name folds to an `Expression` holding its reference. */
  lemma NameFold(a: Token)
    ensures FoldExpr(Power(NameAtom(a), [])) == Success(Expression([VariableReference(a.text, TokenPosition(a))]))
  {
    assert FoldTrailers([]) == Success([]);
    assert [FoldAtom(NameAtom(a))] + [] == [VariableReference(a.text, TokenPosition(a))];
    ReduceIdentity([VariableReference(a.text, TokenPosition(a))]);
  }

  /** `f()` folds to an `Expression` holding a `MethodReference` without
      arguments. */
  lemma CallFold(f: Token, call: Span)
    ensures FoldExpr(Power(NameAtom(f), [Call([], call)])) == Success(Expression([MethodReference(f.text, [], TokenPosition(f))]))
  {
    assert [Call([], call)][1..] == [];
    assert FoldExprs([]) == Success([]);
    assert FoldTrailer(Call([], call)) == Success(Arguments([], ContextPosition(call)));
    assert FoldTrailers([]) == Success([]);
    assert [Arguments([], ContextPosition(call))] + [] == [Arguments([], ContextPosition(call))];
    assert FoldTrailers([Call([], call)]) == Success([Arguments([], ContextPosition(call))]);
    var terms := [VariableReference(f.text, TokenPosition(f)), Arguments([], ContextPosition(call))];
    assert Reduce([]) == Success([]);
    ReduceReplacesPredecessor([], terms[0], terms[1]);
    assert [] + [terms[0], terms[1]] == terms;
    assert [FoldAtom(NameAtom(f))] + [Arguments([], ContextPosition(call))] == terms;
    var fRef := MethodReference(f.text, [], TokenPosition(f));
    assert AsReference(terms[0], terms[1]) == fRef;
    assert [] + [fRef] == [fRef];
    assert Reduce(terms) == Success([fRef]);
  }

  lemma FoldExprsCons(e: ExprNode, es: seq<ExprNode>, x: Item, xs: seq<Item>)
    requires FoldExpr(e) == Success(x) && FoldExprs(es) == Success(xs)
    ensures FoldExprs([e] + es) == Success([x] + xs)
  {
    assert ([e] + es)[1..] == es;
  }

  // ---------------------------------------------------------------------
  // Programs
  // ---------------------------------------------------------------------

  /** The statements that fold to something: those holding an `expr_stmt`. */
  function Kept(stmts: seq<Stmt>): seq<Stmt> {
    if |stmts| == 0 then []
    else (if |stmts[0].exprStmts| > 0 then [stmts[0]] else []) + Kept(stmts[1..])
  }

  /** Program folding keeps statement order and drops exactly the
      statements that fold to nothing. */
  lemma {:induction false} FoldProgramKeepsOrder(stmts: seq<Stmt>)
    requires FoldProgram(stmts).Success?
    ensures |FoldProgram(stmts).value| == |Kept(stmts)|
    ensures forall k :: 0 <= k < |Kept(stmts)| ==>
              FoldStmt(Kept(stmts)[k]) == Success(Some(FoldProgram(stmts).value[k]))
  {
    if |stmts| > 0 {
      var tail := stmts[1..];
      var head := FoldStmt(stmts[0]);
      assert head.Success? && FoldProgram(tail).Success?;
      FoldProgramKeepsOrder(tail);
      var s := head.value;
      var rest := FoldProgram(tail).value;
      var r := FoldProgram(stmts).value;
      assert r == (if s.Some? then [s.value] else []) + rest;
      if s.Some? {
        assert Kept(stmts) == [stmts[0]] + Kept(tail);
        forall k | 0 <= k < |Kept(stmts)|
          ensures FoldStmt(Kept(stmts)[k]) == Success(Some(r[k]))
        {
          if k > 0 {
            assert Kept(stmts)[k] == Kept(tail)[k - 1] && r[k] == rest[k - 1];
          }
        }
      } else {
        assert Kept(stmts) == Kept(tail) && r == rest;
      }
    }
  }

  /** Folding a concatenation folds each part in turn; the first fault wins. */
  lemma {:induction false} FoldProgramAppend(a: seq<Stmt>, b: seq<Stmt>)
    ensures FoldProgram(a + b) ==
              match FoldProgram(a)
              case Failure(f) => Failure(f)
              case Success(x) =>
                match FoldProgram(b)
                case Failure(f) => Failure(f)
                case Success(y) => Success(x + y)
  {
    if |a| == 0 {
      assert a + b == b;
      assert FoldProgram(a) == Success([]);
      match FoldProgram(b)
      case Failure(_) =>
      case Success(y) => assert [] + y == y;
    } else {
      assert (a + b)[1..] == a[1..] + b;
      assert (a + b)[0] == a[0];
      FoldProgramAppend(a[1..], b);
      match FoldStmt(a[0])
      case Failure(_) =>
      case Success(h) =>
        var head := if h.Some? then [h.value] else [];
        match FoldProgram(a[1..])
        case Failure(_) =>
        case Success(x) =>
          match FoldProgram(b)
          case Failure(_) =>
          case Success(y) =>
            assert head + (x + y) == (head + x) + y;
    }
  }

  // ---------------------------------------------------------------------
  // Leaves
  // ---------------------------------------------------------------------

  /** Leaf classification and positions. Names and booleans are positioned
      by their token: 0-based line, the token's column, and an end one past
      the column after the text. Numbers and strings are positioned by their
      single-token context, whose end is one past the token's start column;
      a string run yields its last piece. */
  lemma LeafClassification(a: Atom)
    ensures a.NameAtom? ==>
              FoldAtom(a) == VariableReference(a.name.text, Position(a.name.line - 1, a.name.column, a.name.column + |a.name.text| + 1))
    ensures a.TrueAtom? ==>
              FoldAtom(a) == QiskitBoolean(true, Position(a.keyword.line - 1, a.keyword.column, a.keyword.column + |a.keyword.text| + 1))
    ensures a.FalseAtom? ==>
              FoldAtom(a) == QiskitBoolean(false, Position(a.keyword.line - 1, a.keyword.column, a.keyword.column + |a.keyword.text| + 1))
    ensures a.NumberAtom? ==> (FoldAtom(a).Float? <==> '.' in a.literal.text)
                              && FoldAtom(a).pos == Position(a.literal.line - 1, a.literal.column, a.literal.column + 1)
    ensures a.NumberAtom? && '.' in a.literal.text ==> FoldAtom(a).literal == a.literal.text
    ensures a.NumberAtom? && IsDecimal(a.literal.text) ==> FoldAtom(a).Integer? && FoldAtom(a).value == DecimalValue(a.literal.text)
    ensures a.StrAtom? && |a.pieces| > 0 ==>
              var p := a.pieces[|a.pieces| - 1];
              FoldAtom(a) == Text(p.text, Position(p.line - 1, p.column, p.column + 1))
    ensures a.DictAtom? ==> FoldAtom(a) == Dictionary(Position(a.maker.start.line - 1, a.maker.start.column, a.maker.stop.column + 1))
  {
  }

  /** Decimal values: each digit appended multiplies by ten and adds it. */
  lemma DecimalValueExamples()
    ensures DecimalValue("7") == 7
    ensures DecimalValue("042") == 42
    ensures IntegerValue("0x1F") == 0
  {
    assert "042"[..2] == "04";
    assert "04"[..1] == "0";
    assert !IsDigit("0x1F"[1]);
  }
}
