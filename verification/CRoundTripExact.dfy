/** The round-trip theorems, and exactly which declarators survive the round trip. */
module CRoundTripExact {
  import opened CSyntax
  import opened CPrinter
  import opened CParser
  import opened CRoundTrip

  // ----- expressions -----

  /** Parsing a printed expression gives the expression back, whether or not
      needless parentheses are left out. */
  lemma PrintThenParse(e: Expr, reduce: bool)
    requires WellFormed(e)
    ensures Parse(Visit(e, reduce)) == Got(e, [])
  {
    ExpressionBack(e, reduce, []);
    assert Visit(e, reduce) + [] == Visit(e, reduce);
  }

  /** Leaving out parentheses never changes how the text reads. */
  lemma ReducedFormReadsTheSame(e: Expr)
    requires WellFormed(e)
    ensures Parse(Visit(e, true)) == Parse(Visit(e, false))
  {
    PrintThenParse(e, true);
    PrintThenParse(e, false);
  }

  /** No two expressions share a printed form, even across the two modes. */
  lemma PrintedFormsAreDistinct(e1: Expr, e2: Expr, reduce1: bool, reduce2: bool)
    requires WellFormed(e1) && WellFormed(e2)
    requires Visit(e1, reduce1) == Visit(e2, reduce2)
    ensures e1 == e2
  {
    PrintThenParse(e1, reduce1);
    PrintThenParse(e2, reduce2);
  }

  /** Standard C reads `sizeof(T) op x` as a binary expression; this grammar's
      table takes the operator as a unary one and sizes a cast. The printer never
      emits that text, because it parenthesises a `sizeof` operand. */
  lemma SizeofTakesTheOperator(op: UnOp, t: TypeName, x: Expr, reduce: bool)
    requires WellFormedType(t) && WellFormed(x) && op in {AddrOf, Deref, Pos, Neg}
    ensures Parse([TSizeof] + (Parens(VisitTypeName(t, reduce)) + (Prefix(op) + UnlessSimple(x, reduce))))
         == Got(UnaryOp(Sizeof, Cast(t, UnaryOp(op, x))), [])
  {
    var operand := Prefix(op) + UnlessSimple(x, reduce);
    var inside := VisitTypeName(t, reduce) + ([TRParen] + operand);
    var ts := [TLParen] + inside;
    var e := UnaryOp(Sizeof, Cast(t, UnaryOp(op, x)));
    PrefixBack(op, x, reduce, []);
    assert Visit(UnaryOp(op, x), reduce) + [] == operand;
    ParenTypeBack(t, reduce, operand);
    ParensSplit(VisitTypeName(t, reduce), operand);
    SizeofReads(t, UnaryOp(op, x), ts, operand);
    StopsAt(e, [TSizeof] + ts, []);
    StopsExpression(e, [TSizeof] + ts, []);
  }

  lemma SizeofReads(t: TypeName, u: Expr, ts: seq<Token>, operand: seq<Token>)
    requires At(ts, TLParen) && StartsType(ts[1..]) && ParseParenType(ts) == Got(t, operand)
    requires StartsUnary(operand) && ParseUnary(operand) == Got(u, [])
    ensures ParseUnary([TSizeof] + ts) == Got(UnaryOp(Sizeof, Cast(t, u)), [])
  {
    assert ([TSizeof] + ts)[1..] == ts;
    assert ParseSizeof(ts) == Got(UnaryOp(Sizeof, Cast(t, u)), []);
  }

  // ----- assignment targets and comma lists -----

  /** Targets are printed bare, so an assignment of well-formed parts survives
      exactly when its target needs no parentheses. */
  lemma AssignmentRoundTrip(op: AssignOp, l: Expr, r: Expr, reduce: bool)
    requires WellFormed(l) && WellFormed(r)
    ensures Parse(Visit(Assignment(op, l, r), reduce)) == Got(Assignment(op, l, r), []) <==> UnaryShaped(l)
  {
    if UnaryShaped(l) {
      PrintThenParse(Assignment(op, l, r), reduce);
    } else {
      var after := [TAssign(op)] + Rvalue(r, reduce);
      var ts := Visit(l, reduce) + after;
      assert Visit(Assignment(op, l, r), reduce) == ts;
      if l.BinaryOp? {
        BinaryBack([], l, reduce, after);
        EndsBinary(l, ts, after);
        StopsExpression(l, ts, after);
      } else if l.TernaryOp? {
        TernaryThenAssign(l, reduce, after);
        StopsExpression(l, ts, after);
      } else if l.Assignment? {
        ChainedAssign(op, l, r, reduce);
      } else {
        ListThenAssign(l.exprs, reduce, after);
      }
    }
  }

  lemma EndsBinary(e: Expr, ts: seq<Token>, after: seq<Token>)
    requires ReadsAs([], ts, e, after) && e.BinaryOp? && after != [] && after[0].TAssign?
    requires ParseUnary(ts).rest != [] && ParseUnary(ts).rest[0].TBin?
    ensures ParseAssignment(ts) == Got(e, after)
  {
    var p := ParseUnary(ts);
    assert BinaryTail([], e, after) == Got(e, after);
    assert AssignmentTail(p.value, p.rest) == ConditionalTail(BinaryTail([], p.value, p.rest));
  }

  lemma TernaryThenAssign(e: Expr, reduce: bool, after: seq<Token>)
    requires e.TernaryOp? && WellFormed(e) && after != [] && after[0].TAssign?
    ensures ParseAssignment(Visit(e, reduce) + after) == Got(e, after)
  {
    var c, a, b := e.cond, e.iftrue, e.iffalse;
    var elseTs := Parens(VisitExpr(b, reduce)) + after;
    var thenTs := Parens(VisitExpr(a, reduce)) + ([TColon] + elseTs);
    var ts := Parens(VisitExpr(c, reduce)) + ([TCondOp] + thenTs);
    SplitTernary(c, a, b, reduce, after);
    ParensBack(c, reduce, [TCondOp] + thenTs);
    OperandEnds(c, [TCondOp] + thenTs);
    GroupBack(a, reduce, [TColon] + elseTs);
    ParensBack(b, reduce, after);
    OperandEnds(b, after);
    assert BinaryTail([], b, after) == Got(b, after);
    assert ParseConditional(elseTs) == Got(b, after);
    StepTernary(c, a, b, ts, thenTs, elseTs, after);
  }

  /** `a = b = c` reads from the right. */
  lemma ChainedAssign(op: AssignOp, l: Expr, r: Expr, reduce: bool)
    requires l.Assignment? && WellFormed(l)
    ensures Parse(Visit(Assignment(op, l, r), reduce)) != Got(Assignment(op, l, r), [])
  {
    var after := [TAssign(op)] + Rvalue(r, reduce);
    var value := Rvalue(l.rvalue, reduce) + after;
    var ts := Visit(l.lvalue, reduce) + ([TAssign(l.aop)] + value);
    SplitAssign(l.aop, l.lvalue, l.rvalue, reduce, after);
    UnaryBack(l.lvalue, reduce, [TAssign(l.aop)] + value);
    TargetComesFirst(l.lvalue, ts, [TAssign(l.aop)] + value);
    var p := ParseAssignment(ts);
    if p.Got? {
      TailKeepsOrLists(p.value, p.rest);
    }
  }

  lemma TargetComesFirst(u: Expr, ts: seq<Token>, after: seq<Token>)
    requires ParseUnary(ts) == Got(u, after) && after != [] && after[0].TAssign?
    ensures var p := ParseAssignment(ts);
            p.Got? ==> p.value.Assignment? && p.value.lvalue == u
  {
  }

  lemma {:induction false} TailKeepsOrLists(acc: Expr, ts: seq<Token>)
    ensures var p := ExpressionTail(acc, ts);
            p.Got? ==> p.value == acc || p.value.ExprList?
    ensures At(ts, TComma) && ExpressionTail(acc, ts).Got? ==> ExpressionTail(acc, ts).value.ExprList?
    decreases |ts|
  {
    if At(ts, TComma) {
      var p := ParseAssignment(ts[1..]);
      if p.Got? {
        TailKeepsOrLists(Extend(acc, p.value), p.rest);
      }
    }
  }

  /** `a, b = c` reads as a list. */
  lemma ListThenAssign(es: seq<Expr>, reduce: bool, after: seq<Token>)
    requires WellFormed(ExprList(es))
    ensures var p := ParseExpression(VisitList(es, reduce) + after);
            p.Got? ==> p.value.ExprList?
  {
    var more := [TComma] + (VisitList(es[1..], reduce) + after);
    ListSplit(es, reduce, after);
    AssignmentBack(es[0], reduce, more);
    TailKeepsOrLists(es[0], more);
  }

  /** A comma list survives exactly when it has two items and does not itself
      begin with a comma list, which the grammar action would extend. */
  lemma CommaListRoundTrip(es: seq<Expr>, reduce: bool)
    requires forall i | 0 <= i < |es| :: WellFormed(es[i])
    ensures Parse(Visit(ExprList(es), reduce)) == Got(ExprList(es), []) <==> |es| >= 2 && !es[0].ExprList?
  {
    assert VisitList(es, reduce) + [] == VisitList(es, reduce);
    if es == [] {
      assert ParseUnary([]).Fail?;
    } else if |es| == 1 {
      AssignmentBack(es[0], reduce, []);
      StopsExpression(es[0], VisitList(es, reduce), []);
      assert es[0] != ExprList(es);
    } else {
      ListReads(es, reduce);
      var read := Items(es[0]) + es[1..];
      assert |read| == |es| <==> |Items(es[0])| == 1;
      assert !es[0].ExprList? ==> read == es;
    }
  }

  /** A printed list reads as its items after those of its first item. */
  lemma ListReads(es: seq<Expr>, reduce: bool)
    requires |es| >= 2 && forall i | 0 <= i < |es| :: ShapeOf(es[i]) == Printable
    ensures ParseExpression(VisitList(es, reduce) + []) == Got(ExprList(Items(es[0]) + es[1..]), [])
    ensures es[0].ExprList? ==> |Items(es[0])| >= 2
  {
    var more := [TComma] + (VisitList(es[1..], reduce) + []);
    ListSplit(es, reduce, []);
    AssignmentBack(es[0], reduce, more);
    CommaTailBack(es[0], es[1..], reduce, []);
  }

  // ----- declarators -----

  /** Everything inside the modifier would round-trip on its own. */
  ghost predicate PartsOk(named: bool, m: Modifier) {
    match m
    case Ptr(_) => true
    case Array(_, d) => d.Size? ==> !d.size.ExprList? && WellFormed(d.size)
    case Func(NoArgs) => true
    case Func(Names(ids)) => named && ids != []
    case Func(Params(ps, _)) => ps != [] && forall i | 0 <= i < |ps| :: WellFormedParam(ps[i])
  }

  /** The modifier stands where the grammar has a rule for its bracket. */
  predicate Placed(named: bool, first: bool, m: Modifier) {
    m.Array? ==> DimOk(named, first, m.dimQuals, m.dim)
  }

  predicate AllPlaced(named: bool, mods: seq<Modifier>) {
    forall i | 0 <= i < |mods| :: Placed(named, i == 0, mods[i])
  }

  /** The result cannot become the chain `mods` whatever is read next. */
  ghost predicate Off(p: Parsed<Chain>, mods: seq<Modifier>) {
    p.Got? ==> || At(p.rest, TRBracket)
               || exists i :: 0 <= i < |mods| && i < |p.value.mods| && p.value.mods[i] != mods[i]
  }

  /** One turn of the suffix loop. */
  function NextSuffix(c: Chain, ts: seq<Token>): (r: Parsed<Modifier>)
    requires At(ts, TLBracket) || At(ts, TLParen)
    ensures r.Got? ==> |r.rest| < |ts|
  {
    if At(ts, TLParen) then ParseArgs(ts[1..], c.name != [])
    else if c.name != [] then ParseNamedArray(ts[1..])
    else ParseLaterArray(ts[1..])
  }

  lemma TailUnfolds(c: Chain, ts: seq<Token>)
    requires At(ts, TLBracket) || At(ts, TLParen)
    ensures DirectTail(c, ts) == match NextSuffix(c, ts)
                                 case Fail => Fail
                                 case Got(m, rest) => DirectTail(Chain(c.name, c.mods + [m]), rest)
  {
  }

  /** The suffix loop only ever adds modifiers. */
  lemma {:induction false} TailExtends(c: Chain, ts: seq<Token>)
    ensures DirectTail(c, ts).Got? ==> c.mods <= DirectTail(c, ts).value.mods
    decreases |ts|
  {
    if At(ts, TLBracket) || At(ts, TLParen) {
      TailUnfolds(c, ts);
      var p := NextSuffix(c, ts);
      if p.Got? {
        TailExtends(Chain(c.name, c.mods + [p.value]), p.rest);
      }
    }
  }

  lemma Unreadable(ts: seq<Token>)
    requires ts != [] && (ts[0].TQual? || ts[0].TStatic? || ts[0].TRBracket?)
    ensures ParseUnary(ts).Fail?
  {
    assert ParsePrimary(ts).Fail?;
    assert ParsePostfix(ts).Fail?;
  }

  /** Tokens no expression starts with. */
  lemma NoExpression(qs: seq<DimQual>, ts: seq<Token>)
    requires ts != []
    requires ts[0].TQual? || ts[0].TStatic? || ts[0].TRBracket? || AtStar(ts)
    ensures CloseSized(qs, ts).Fail?
  {
    if AtStar(ts) {
      Unreadable(ts[1..]);
      assert ParsePrefixed(Deref, ts[1..]).Fail?;
    } else {
      Unreadable(ts);
    }
    assert ParseAssignment(ts).Fail?;
  }

  /** A bracket closed too early leaves a second one behind. */
  lemma EarlyClose(c: Chain, ts: seq<Token>, m: Modifier, rest: seq<Token>)
    requires At(ts, TLBracket) && At(rest, TRBracket)
    requires (if c.name != [] then ParseNamedArray(ts[1..]) else ParseLaterArray(ts[1..])) == Got(m, rest)
    ensures DirectTail(c, ts).Got? && At(DirectTail(c, ts).rest, TRBracket)
  {
    assert DirectTail(c.(mods := c.mods + [m]), rest) == Got(c.(mods := c.mods + [m]), rest);
  }

  /** How the bracket rules read a misplaced bracket: not at all, or ending early. */
  lemma {:induction false} BadQualified(m: Modifier, reduce: bool, rest: seq<Token>)
    requires m.Array? && !Placed(true, true, m)
    ensures var p := ParseQualifiedArray(DimTokens(m, reduce, rest));
            p.Got? ==> At(p.rest, TRBracket)
    ensures !AtStar(DimTokens(m, reduce, rest)) && !AtStar(ParseQuals(DimTokens(m, reduce, rest)).1)
  {
    var qs := m.dimQuals;
    var tail := VisitDim(m.dim, reduce) + ([TRBracket] + rest);
    if Static in qs {
      var j := FirstStatic(qs);
      var after := DimQuals(qs[j + 1..]) + tail;
      StaticAt(qs, j, tail);
      if j == 0 {
        StaticThenBad(qs, m.dim, reduce, rest);
      } else if j + 1 < |qs| {
        NoExpression(AsDimQuals(ParseQuals(DimTokens(m, reduce, rest)).0) + [Static], after);
      } else {
        UnsizedTail(m.dim, reduce, rest);
        assert after == tail;
        NoExpression(AsDimQuals(ParseQuals(DimTokens(m, reduce, rest)).0) + [Static], after);
      }
    } else {
      assert m.dim == Bracket;
      assert tail == [TRBracket] + ([TRBracket] + rest);
      assert tail[1..] == [TRBracket] + rest;
      DimQualsBack(qs, tail);
    }
  }

  function FirstStatic(qs: seq<DimQual>): (j: nat)
    requires Static in qs
    ensures j < |qs| && qs[j] == Static && forall i | 0 <= i < j :: qs[i].Qualifier?
  {
    if qs[0] == Static then 0 else 1 + FirstStatic(qs[1..])
  }

  lemma StaticAt(qs: seq<DimQual>, j: nat, tail: seq<Token>)
    requires j < |qs| && qs[j] == Static && forall i | 0 <= i < j :: qs[i].Qualifier?
    ensures var after := DimQuals(qs[j + 1..]) + tail;
            && ParseQuals(DimQuals(qs) + tail).1 == [TStatic] + after
            && ([TStatic] + after)[1..] == after
            && (j == 0 ==> DimQuals(qs) + tail == [TStatic] + after)
            && (j > 0 ==> (DimQuals(qs) + tail)[0].TQual?)
  {
    var after := DimQuals(qs[j + 1..]) + tail;
    assert DimQuals(qs) + tail == DimQuals(qs[..j]) + ([TStatic] + after);
    DimQualsBack(qs[..j], [TStatic] + after);
  }

  lemma UnsizedTail(d: Dim, reduce: bool, rest: seq<Token>)
    requires !d.Size?
    ensures var tail := VisitDim(d, reduce) + ([TRBracket] + rest);
            tail != [] && (tail[0].TRBracket? || AtStar(tail)) && !tail[0].TQual?
  {
    var tail := VisitDim(d, reduce) + ([TRBracket] + rest);
    if d == Star {
      assert tail[1..] == [TRBracket] + rest;
    }
  }

  /** `[static ...` with a second `static`, or without a size. */
  lemma StaticThenBad(qs: seq<DimQual>, d: Dim, reduce: bool, rest: seq<Token>)
    requires qs != [] && qs[0] == Static && !DimOk(true, true, qs, d)
    ensures ParseQualifiedArray(DimQuals(qs) + (VisitDim(d, reduce) + ([TRBracket] + rest))).Fail?
  {
    var tail := VisitDim(d, reduce) + ([TRBracket] + rest);
    var more := DimQuals(qs[1..]) + tail;
    var ts := DimQuals(qs) + tail;
    assert ts == [TStatic] + more && ts[1..] == more;
    var q := ParseQuals(more);
    if Static in qs[1..] {
      var j := FirstStatic(qs[1..]);
      StaticAt(qs[1..], j, tail);
      NoExpression([Static] + AsDimQuals(q.0), q.1);
    } else {
      assert forall i | 0 <= i < |qs[1..]| :: qs[1..][i].Qualifier?;
      UnsizedTail(d, reduce, rest);
      DimQualsBack(qs[1..], tail);
      NoExpression([Static] + AsDimQuals(q.0), q.1);
    }
  }

  lemma {:induction false} BadSuffix(c: Chain, m: Modifier, reduce: bool, rest: seq<Token>)
    requires c.name != [] || c.mods != []
    requires !Placed(c.name != [], c.mods == [], m)
    ensures Off(DirectTail(c, VisitSuffix(m, reduce) + rest), c.mods + [m])
  {
    var ts := VisitSuffix(m, reduce) + rest;
    ArraySplit(m, reduce, rest);
    if c.name != [] {
      BadQualified(m, reduce, rest);
      var p := ParseNamedArray(ts[1..]);
      if p.Got? {
        EarlyClose(c, ts, p.value, p.rest);
      }
    } else {
      BadLater(m, reduce, rest);
      var p := ParseLaterArray(ts[1..]);
      if p.Got? {
        EarlyClose(c, ts, p.value, p.rest);
      }
    }
  }

  lemma BadLater(m: Modifier, reduce: bool, rest: seq<Token>)
    requires m.Array? && !Placed(false, false, m)
    ensures var p := ParseLaterArray(DimTokens(m, reduce, rest));
            p.Got? ==> At(p.rest, TRBracket)
  {
    var ts := DimTokens(m, reduce, rest);
    if m.dimQuals != [] {
      NoExpression([], ts);
    } else {
      assert m.dim == Bracket;
      assert ts == [TRBracket] + ([TRBracket] + rest);
      assert ts[1..] == [TRBracket] + rest;
    }
  }

  /** At the start of an abstract declarator `[*]` turns into another dimension. */
  lemma {:induction false} BadFirst(m: Modifier, reduce: bool, rest: seq<Token>)
    requires !Placed(false, true, m)
    ensures Off(ParseDirect(VisitSuffix(m, reduce) + rest), [m])
  {
    var ts := VisitSuffix(m, reduce) + rest;
    ArraySplit(m, reduce, rest);
    BadFirstArray(m, reduce, rest);
    var p := ParseFirstArray(ts[1..]);
    if p.Got? {
      var c := Chain([], [p.value]);
      assert ParseDirect(ts) == DirectTail(c, p.rest);
      if At(p.rest, TRBracket) {
        assert DirectTail(c, p.rest) == Got(c, p.rest);
      } else {
        TailExtends(c, p.rest);
        assert DirectTail(c, p.rest).Got? ==> DirectTail(c, p.rest).value.mods[0] == c.mods[0];
      }
    }
  }

  lemma BadFirstArray(m: Modifier, reduce: bool, rest: seq<Token>)
    requires !Placed(false, true, m)
    ensures var p := ParseFirstArray(DimTokens(m, reduce, rest));
            p.Got? ==> At(p.rest, TRBracket) || p.value != m
  {
    if !Placed(true, true, m) {
      BadQualified(m, reduce, rest);
    } else {
      StarFirst(m, reduce, rest);
    }
  }

  lemma StarFirst(m: Modifier, reduce: bool, rest: seq<Token>)
    requires m.Array? && m.dim == Star && Placed(true, true, m)
    ensures var p := ParseFirstArray(DimTokens(m, reduce, rest));
            if m.dimQuals == [] then p == Got(Array([], Bracket), rest) else p.Fail?
  {
    var tail := [TBin(Times)] + ([TRBracket] + rest);
    assert tail[1..] == [TRBracket] + rest && tail[2..] == rest;
    assert DimTokens(m, reduce, rest) == DimQuals(m.dimQuals) + tail;
    if m.dimQuals == [] {
      assert DimQuals(m.dimQuals) + tail == tail;
    } else {
      DimQualsBack(m.dimQuals, tail);
      NoExpression(AsDimQuals(ParseQuals(DimTokens(m, reduce, rest)).0), tail);
    }
  }

  lemma GoodPrefix(named: bool, mods: seq<Modifier>)
    requires AllPlaced(named, mods)
    requires forall i | 0 <= i < |mods| :: PartsOk(named, mods[i])
    ensures ShapeOfMods(named, mods) == Printable
  {
    forall i | 0 <= i < |mods| ensures WellFormedMod(named, i == 0, mods[i]) {
      assert Placed(named, i == 0, mods[i]) && PartsOk(named, mods[i]);
    }
  }

  lemma {:induction false} DirectOff(name: seq<string>, mods: seq<Modifier>, reduce: bool, rest: seq<Token>)
    requires |name| <= 1 && mods != [] && !mods[|mods| - 1].Ptr?
    requires forall i | 0 <= i < |mods| :: PartsOk(name != [], mods[i])
    requires !AllPlaced(name != [], mods)
    ensures Off(ParseDirect(VisitChain(name, mods, reduce) + rest), mods)
    decreases |mods|, 0
  {
    var init, m := mods[..|mods| - 1], mods[|mods| - 1];
    assert init + [m] == mods;
    if init != [] && init[|init| - 1].Ptr? {
      LastUnplaced(name != [], init, m);
      NestedOff(name, init, m, reduce, rest);
    } else {
      PlainSplit(name, mods, reduce, rest);
      PlainOff(name, init, m, reduce, rest);
    }
  }

  lemma {:induction false} PlainOff(name: seq<string>, init: seq<Modifier>, m: Modifier, reduce: bool, rest: seq<Token>)
    requires |name| <= 1 && (init != [] ==> !init[|init| - 1].Ptr?) && !m.Ptr?
    requires forall i | 0 <= i < |init| :: PartsOk(name != [], init[i])
    requires !AllPlaced(name != [], init + [m])
    ensures Off(ParseDirect(VisitChain(name, init, reduce) + (VisitSuffix(m, reduce) + rest)), init + [m])
    decreases |init|, 2
  {
    if AllPlaced(name != [], init) {
      LastOff(name, init, m, reduce, rest);
    } else {
      var suffix := VisitSuffix(m, reduce) + rest;
      DirectOff(name, init, reduce, suffix);
      OffGrows(ParseDirect(VisitChain(name, init, reduce) + suffix), init, init + [m]);
    }
  }

  /** The first suffix without a rule, right after modifiers that read back. */
  lemma LastOff(name: seq<string>, init: seq<Modifier>, m: Modifier, reduce: bool, rest: seq<Token>)
    requires |name| <= 1 && (init != [] ==> !init[|init| - 1].Ptr?) && !m.Ptr?
    requires forall i | 0 <= i < |init| :: PartsOk(name != [], init[i])
    requires AllPlaced(name != [], init) && !AllPlaced(name != [], init + [m])
    ensures Off(ParseDirect(VisitChain(name, init, reduce) + (VisitSuffix(m, reduce) + rest)), init + [m])
  {
    var suffix := VisitSuffix(m, reduce) + rest;
    LastUnplaced(name != [], init, m);
    if init == [] && name == [] {
      assert VisitChain(name, init, reduce) + suffix == suffix && init + [m] == [m];
      BadFirst(m, reduce, rest);
    } else {
      GoodPrefix(name != [], init);
      DirectBack(name, init, reduce, suffix);
      BadSuffix(Chain(name, init), m, reduce, rest);
    }
  }

  lemma LastUnplaced(named: bool, init: seq<Modifier>, m: Modifier)
    requires !AllPlaced(named, init + [m])
    ensures !AllPlaced(named, init) || !Placed(named, init == [], m)
  {
  }

  lemma OffGrows(p: Parsed<Chain>, mods: seq<Modifier>, more: seq<Modifier>)
    requires Off(p, mods) && mods <= more
    ensures Off(p, more)
  {
    if p.Got? && !At(p.rest, TRBracket) {
      var i :| 0 <= i < |mods| && i < |p.value.mods| && p.value.mods[i] != mods[i];
      assert more[i] == mods[i];
    }
  }

  lemma {:induction false} NestedOff(name: seq<string>, init: seq<Modifier>, m: Modifier, reduce: bool,
                                     rest: seq<Token>)
    requires |name| <= 1 && init != [] && init[|init| - 1].Ptr? && !m.Ptr?
    requires forall i | 0 <= i < |init| :: PartsOk(name != [], init[i])
    requires !AllPlaced(name != [], init) || !Placed(name != [], false, m)
    ensures Off(ParseDirect(VisitChain(name, init + [m], reduce) + rest), init + [m])
    decreases |init|, 2
  {
    var suffix := VisitSuffix(m, reduce) + rest;
    var close := [TRParen] + suffix;
    var inside := VisitChain(name, init, reduce) + close;
    NestedSplit(name, init, m, reduce, rest);
    ChainBegins(name, init, reduce);
    assert ([TLParen] + inside)[1..] == inside;
    if AllPlaced(name != [], init) {
      GoodPrefix(name != [], init);
      ChainBack(name, init, reduce, close);
      StepNested(Chain(name, init), inside, suffix);
      BadSuffix(Chain(name, init), m, reduce, rest);
    } else {
      ChainOff(name, init, reduce, close);
      InnerOff(inside, init, init + [m]);
    }
  }

  /** A nested declarator that is off makes the whole off. */
  lemma InnerOff(inside: seq<Token>, init: seq<Modifier>, mods: seq<Modifier>)
    requires StartsNested(inside) && Off(ParseChain(inside), init) && init <= mods
    ensures Off(ParseDirect([TLParen] + inside), mods)
  {
    assert ([TLParen] + inside)[1..] == inside;
    var p := ParseChain(inside);
    if p.Got? && At(p.rest, TRParen) {
      TailExtends(p.value, p.rest[1..]);
      var i :| 0 <= i < |init| && i < |p.value.mods| && p.value.mods[i] != init[i];
      var q := DirectTail(p.value, p.rest[1..]);
      if q.Got? {
        assert q.value.mods[i] == p.value.mods[i] != mods[i];
      }
    }
  }

  lemma {:induction false} ChainOff(name: seq<string>, mods: seq<Modifier>, reduce: bool, rest: seq<Token>)
    requires |name| <= 1 && EndsChain(rest)
    requires forall i | 0 <= i < |mods| :: PartsOk(name != [], mods[i])
    requires !AllPlaced(name != [], mods)
    ensures Off(ParseChain(VisitChain(name, mods, reduce) + rest), mods)
    decreases |mods|, 1
  {
    var k := CoreLen(mods);
    var core := mods[..k];
    PointersBack(name, mods, k, reduce, rest);
    OnlyPointersAfter(mods);
    assert !AllPlaced(name != [], core) by {
      var i :| 0 <= i < |mods| && !Placed(name != [], i == 0, mods[i]);
      assert !Placed(name != [], i == 0, core[i]);
    }
    DirectOff(name, core, reduce, rest);
    ChainBegins(name, core, reduce);
    PointersKeepOff(VisitChain(name, mods, reduce) + rest, mods[k..], VisitChain(name, core, reduce) + rest,
                    core, mods);
  }

  lemma PointersKeepOff(ts: seq<Token>, pointers: seq<Modifier>, direct: seq<Token>, core: seq<Modifier>,
                        mods: seq<Modifier>)
    requires ParsePointers(ts) == (pointers, direct) && StartsDirect(direct)
    requires core <= mods && Off(ParseDirect(direct), core)
    ensures Off(ParseChain(ts), mods)
  {
    var p := ParseDirect(direct);
    OffGrows(p, core, mods);
    if p.Got? && !At(p.rest, TRBracket) {
      var i :| 0 <= i < |mods| && i < |p.value.mods| && p.value.mods[i] != mods[i];
      assert (p.value.mods + pointers)[i] == p.value.mods[i];
    }
  }

  lemma {:induction false} OnlyPointersAfter(mods: seq<Modifier>)
    ensures forall i | CoreLen(mods) <= i < |mods| :: mods[i].Ptr?
  {
    if mods != [] && mods[|mods| - 1].Ptr? {
      OnlyPointersAfter(mods[..|mods| - 1]);
    }
  }

  /** A printed declarator reads back as itself exactly when each of its array
      brackets stands where the grammar has a rule for it. */
  lemma DeclaratorRoundTrip(name: seq<string>, mods: seq<Modifier>, reduce: bool, rest: seq<Token>)
    requires |name| <= 1 && EndsChain(rest)
    requires forall i | 0 <= i < |mods| :: PartsOk(name != [], mods[i])
    ensures ParseChain(VisitChain(name, mods, reduce) + rest) == Got(Chain(name, mods), rest)
       <==> AllPlaced(name != [], mods)
  {
    if AllPlaced(name != [], mods) {
      GoodPrefix(name != [], mods);
      ChainBack(name, mods, reduce, rest);
    } else {
      ChainOff(name, mods, reduce, rest);
    }
  }
}
