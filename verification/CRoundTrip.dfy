/** Parsing what the generator prints gives back the tree it printed. */
module CRoundTrip {
  import opened CSyntax
  import opened CPrinter
  import opened CParser

  // ----- the trees the printed form can express -----

  /** Expressions the grammar accepts as an assignment target without parentheses. */
  predicate UnaryShaped(e: Expr) {
    !e.BinaryOp? && !e.TernaryOp? && !e.Assignment? && !e.ExprList?
  }

  ghost predicate WellFormed(e: Expr)
    decreases e
  {
    match e
    case Constant(_) => true
    case Id(_) => true
    case ArrayRef(b, s) => WellFormed(b) && WellFormed(s)
    case StructRef(b, _, _) => WellFormed(b)
    case FuncCall(f, args) => WellFormed(f) && forall i | 0 <= i < |args| :: WellFormed(args[i])
    case UnaryOp(_, x) => WellFormed(x)
    case TypeUnary(_, t) => WellFormedType(t)
    case Cast(t, x) => WellFormedType(t) && WellFormed(x)
    case BinaryOp(_, l, r) => WellFormed(l) && WellFormed(r)
    case TernaryOp(c, a, b) => WellFormed(c) && WellFormed(a) && WellFormed(b)
    case Assignment(_, l, r) => UnaryShaped(l) && WellFormed(l) && WellFormed(r)
    case ExprList(es) =>
      && |es| >= 2 && !es[0].ExprList?
      && forall i | 0 <= i < |es| :: WellFormed(es[i])
  }

  ghost predicate WellFormedType(t: TypeName)
    decreases t
  {
    WordsOk(t.names) && forall i | 0 <= i < |t.mods| :: WellFormedMod(false, i == 0, t.mods[i])
  }

  predicate WordsOk(names: seq<Word>) {
    names != [] && forall i | 1 <= i < |names| :: names[i].Keyword?
  }

  /** `named`: the declarator has a name; `first`: the modifier is next to where
      the name would be. */
  ghost predicate WellFormedMod(named: bool, first: bool, m: Modifier)
    decreases m
  {
    match m
    case Ptr(_) => true
    case Array(qs, d) =>
      && DimOk(named, first, qs, d)
      && (d.Size? ==> !d.size.ExprList? && WellFormed(d.size))
    case Func(NoArgs) => true
    case Func(Names(ids)) => named && ids != []
    case Func(Params(ps, _)) => ps != [] && forall i | 0 <= i < |ps| :: WellFormedParam(ps[i])
  }

  /** Where the grammar has a rule for these dimension qualifiers and dimension. */
  predicate DimOk(named: bool, first: bool, qs: seq<DimQual>, d: Dim) {
    && d != Bracket
    && (d == Star ==> named || !first)
    && (!named && !first ==> qs == [])
    && (forall i | 1 <= i < |qs| - 1 :: qs[i].Qualifier?)
    && (|qs| >= 2 ==> qs[0].Qualifier? || qs[|qs| - 1].Qualifier?)
    && (Static in qs ==> d.Size?)
  }

  ghost predicate WellFormedParam(p: Param)
    decreases p
  {
    && WordsOk(p.names) && |p.declname| <= 1
    && forall i | 0 <= i < |p.mods| :: WellFormedMod(p.declname != [], i == 0, p.mods[i])
  }

  /** The same judgement as a value, so that a lemma's requirement stays one fact. */
  datatype Shape = Printable | Unprintable

  ghost function ShapeOf(e: Expr): Shape {
    if WellFormed(e) then Printable else Unprintable
  }

  ghost function ShapeOfType(t: TypeName): Shape {
    if WellFormedType(t) then Printable else Unprintable
  }

  ghost function ShapeOfMod(named: bool, first: bool, m: Modifier): Shape {
    if WellFormedMod(named, first, m) then Printable else Unprintable
  }

  ghost function ShapeOfMods(named: bool, mods: seq<Modifier>): Shape {
    if forall i | 0 <= i < |mods| :: ShapeOfMod(named, i == 0, mods[i]) == Printable then Printable else Unprintable
  }

  ghost function ShapeOfParam(p: Param): Shape {
    if WellFormedParam(p) then Printable else Unprintable
  }

  // ----- what may follow -----

  predicate Stop(ts: seq<Token>) {
    ts != [] ==> ts[0].TRParen? || ts[0].TRBracket? || ts[0].TComma? || ts[0].TColon? || ts[0].TSemi?
  }

  /** Tokens that do not extend an operand to the right. */
  predicate EndsOperand(ts: seq<Token>) {
    ts != [] ==> match ts[0]
                 case TLBracket | TLParen | TPeriod | TArrow | TInc | TDec => false
                 case _ => true
  }

  // ----- regrouping tokens -----

  lemma Associate(a: seq<Token>, b: seq<Token>, c: seq<Token>)
    ensures a + b + c == a + (b + c)
  {
  }

  lemma Regroup(a: seq<Token>, b: seq<Token>, c: seq<Token>, rest: seq<Token>)
    ensures a + (b + c) + rest == a + (b + (c + rest))
  {
  }

  lemma Regroup4(a: seq<Token>, b: seq<Token>, c: seq<Token>, d: seq<Token>, rest: seq<Token>)
    ensures a + (b + (c + d)) + rest == a + (b + (c + (d + rest)))
  {
  }

  lemma ParensSplit(ts: seq<Token>, rest: seq<Token>)
    ensures Parens(ts) + rest == [TLParen] + (ts + ([TRParen] + rest))
  {
  }

  lemma SplitIndex(b: Expr, s: Expr, reduce: bool, rest: seq<Token>)
    ensures Visit(ArrayRef(b, s), reduce) + rest
         == UnlessSimple(b, reduce) + ([TLBracket] + (Visit(s, reduce) + ([TRBracket] + rest)))
  {
    Regroup4(UnlessSimple(b, reduce), [TLBracket], Visit(s, reduce), [TRBracket], rest);
  }

  lemma SplitCall(f: Expr, args: seq<Expr>, reduce: bool, rest: seq<Token>)
    ensures Visit(FuncCall(f, args), reduce) + rest
         == UnlessSimple(f, reduce) + ([TLParen] + (VisitList(args, reduce) + ([TRParen] + rest)))
  {
    Regroup4(UnlessSimple(f, reduce), [TLParen], VisitList(args, reduce), [TRParen], rest);
  }

  lemma SplitSizeof(x: Expr, reduce: bool, rest: seq<Token>)
    ensures Visit(UnaryOp(Sizeof, x), reduce) + rest
         == [TSizeof] + ([TLParen] + (Visit(x, reduce) + ([TRParen] + rest)))
  {
    Regroup4([TSizeof], [TLParen], Visit(x, reduce), [TRParen], rest);
  }

  lemma SplitTypeUnary(op: TypeOp, t: TypeName, reduce: bool, rest: seq<Token>)
    ensures Visit(TypeUnary(op, t), reduce) + rest
         == [if op == SizeofType then TSizeof else TAlignof]
            + ([TLParen] + (VisitTypeName(t, reduce) + ([TRParen] + rest)))
  {
    Regroup4([if op == SizeofType then TSizeof else TAlignof], [TLParen], VisitTypeName(t, reduce), [TRParen], rest);
  }

  lemma SplitCast(t: TypeName, x: Expr, reduce: bool, rest: seq<Token>)
    ensures Visit(Cast(t, x), reduce) + rest
         == [TLParen] + (VisitTypeName(t, reduce) + ([TRParen] + (UnlessSimple(x, reduce) + rest)))
  {
    Associate(Parens(VisitTypeName(t, reduce)), UnlessSimple(x, reduce), rest);
    ParensSplit(VisitTypeName(t, reduce), UnlessSimple(x, reduce) + rest);
  }

  lemma SplitBinary(op: BinOp, l: Expr, r: Expr, reduce: bool, rest: seq<Token>)
    ensures Visit(BinaryOp(op, l, r), reduce) + rest
         == Side(l, op, true, reduce) + ([TBin(op)] + (Side(r, op, false, reduce) + rest))
  {
    Regroup(Side(l, op, true, reduce), [TBin(op)], Side(r, op, false, reduce), rest);
  }

  lemma SplitAssign(op: AssignOp, l: Expr, r: Expr, reduce: bool, rest: seq<Token>)
    ensures Visit(Assignment(op, l, r), reduce) + rest
         == Visit(l, reduce) + ([TAssign(op)] + (Rvalue(r, reduce) + rest))
  {
    Regroup(Visit(l, reduce), [TAssign(op)], Rvalue(r, reduce), rest);
  }

  lemma SplitTernary(c: Expr, a: Expr, b: Expr, reduce: bool, rest: seq<Token>)
    ensures Visit(TernaryOp(c, a, b), reduce) + rest
         == Parens(VisitExpr(c, reduce))
            + ([TCondOp] + (Parens(VisitExpr(a, reduce)) + ([TColon] + (Parens(VisitExpr(b, reduce)) + rest))))
  {
    var elseTs := Parens(VisitExpr(b, reduce));
    var thenTs := Parens(VisitExpr(a, reduce)) + ([TColon] + elseTs);
    Regroup(Parens(VisitExpr(a, reduce)), [TColon], elseTs, rest);
    Regroup(Parens(VisitExpr(c, reduce)), [TCondOp], thenTs, rest);
  }

  // ----- specifiers -----

  lemma {:induction false} QualsBack(qs: seq<string>, ts: seq<Token>)
    requires ts != [] ==> !ts[0].TQual?
    ensures ParseQuals(Quals(qs) + ts) == (qs, ts)
  {
    if qs == [] {
      assert Quals(qs) + ts == ts;
    } else {
      QualsBack(qs[1..], ts);
      assert (Quals(qs) + ts)[1..] == Quals(qs[1..]) + ts;
      assert [qs[0]] + qs[1..] == qs;
    }
  }

  lemma {:induction false} SpecsTakeStorage(acc: Specs, ss: seq<string>, ts: seq<Token>)
    ensures ParseSpecs(acc, Storages(ss) + ts) == ParseSpecs(acc.(storage := acc.storage + ss), ts)
    decreases |ss|
  {
    if ss == [] {
      assert Storages(ss) + ts == ts && acc.storage + ss == acc.storage;
    } else {
      SpecsTakeStorage(acc.(storage := acc.storage + [ss[0]]), ss[1..], ts);
      assert (Storages(ss) + ts)[1..] == Storages(ss[1..]) + ts;
      assert acc.storage + [ss[0]] + ss[1..] == acc.storage + ss;
    }
  }

  lemma {:induction false} SpecsTakeQuals(acc: Specs, qs: seq<string>, ts: seq<Token>)
    ensures ParseSpecs(acc, Quals(qs) + ts) == ParseSpecs(acc.(quals := acc.quals + qs), ts)
    decreases |qs|
  {
    if qs == [] {
      assert Quals(qs) + ts == ts && acc.quals + qs == acc.quals;
    } else {
      SpecsTakeQuals(acc.(quals := acc.quals + [qs[0]]), qs[1..], ts);
      assert (Quals(qs) + ts)[1..] == Quals(qs[1..]) + ts;
      assert acc.quals + [qs[0]] + qs[1..] == acc.quals + qs;
    }
  }

  lemma {:induction false} SpecsTakeWords(acc: Specs, ws: seq<Word>, ts: seq<Token>)
    requires forall i | 0 <= i < |ws| :: ws[i].Keyword? || (i == 0 && acc.names == [])
    ensures ParseSpecs(acc, Words(ws) + ts) == ParseSpecs(acc.(names := acc.names + ws), ts)
    decreases |ws|
  {
    if ws == [] {
      assert Words(ws) + ts == ts && acc.names + ws == acc.names;
    } else {
      SpecsTakeWords(acc.(names := acc.names + [ws[0]]), ws[1..], ts);
      assert (Words(ws) + ts)[1..] == Words(ws[1..]) + ts;
      assert acc.names + [ws[0]] + ws[1..] == acc.names + ws;
    }
  }

  /** Printed specifiers are read back and reading stops at the declarator. */
  lemma SpecsBack(ss: seq<string>, qs: seq<string>, ws: seq<Word>, ts: seq<Token>)
    requires WordsOk(ws)
    requires ts != [] ==> !ts[0].TStorage? && !ts[0].TQual? && !ts[0].TWord?
    ensures ParseSpecs(Specs([], [], []), Storages(ss) + (Quals(qs) + (Words(ws) + ts))) == (Specs(ss, qs, ws), ts)
  {
    var none := Specs([], [], []);
    SpecsTakeStorage(none, ss, Quals(qs) + (Words(ws) + ts));
    assert [] + ss == ss && [] + qs == qs && [] + ws == ws;
    SpecsTakeQuals(Specs(ss, [], []), qs, Words(ws) + ts);
    SpecsTakeWords(Specs(ss, qs, []), ws, ts);
  }

  lemma StepIdent(id: string, ids: seq<string>, ts: seq<Token>, rest: seq<Token>)
    requires ParseIdents(ts) == Got(ids, rest)
    ensures ParseIdents([TId(id), TComma] + ts) == Got([id] + ids, rest)
  {
    var all := [TId(id), TComma] + ts;
    assert At(all[1..], TComma) && all[2..] == ts;
  }

  lemma {:induction false} IdentsBack(ids: seq<string>, rest: seq<Token>)
    requires ids != [] && At(rest, TRParen)
    ensures ParseIdents(Idents(ids) + rest) == Got(ids, rest)
  {
    if |ids| == 1 {
      assert ([TId(ids[0])] + rest)[1..] == rest && [ids[0]] == ids;
    } else {
      IdentsBack(ids[1..], rest);
      StepIdent(ids[0], ids[1..], Idents(ids[1..]) + rest, rest);
      Associate([TId(ids[0]), TComma], Idents(ids[1..]), rest);
      assert [ids[0]] + ids[1..] == ids;
    }
  }

  // ----- how printed expressions begin -----

  /** How printed expressions begin: never like a type, a closer or `[*]`. */
  ghost predicate BeginsExpr(ts: seq<Token>) {
    && StartsUnary(ts)
    && (ts[0] == TBin(Times) ==> |ts| > 1 && ts[1] != TRBracket)
  }

  lemma BeginsMore(ts: seq<Token>, more: seq<Token>)
    requires BeginsExpr(ts)
    ensures BeginsExpr(ts + more)
  {
  }

  lemma {:induction false} Begins(e: Expr, reduce: bool)
    requires ShapeOf(e) == Printable
    ensures BeginsExpr(Visit(e, reduce))
    decreases e, 0
  {
    match e
    case ArrayRef(b, s) =>
      BeginsOperand(b, reduce);
      BeginsMore(UnlessSimple(b, reduce), [TLBracket] + (Visit(s, reduce) + [TRBracket]));
    case StructRef(b, arrow, f) =>
      BeginsOperand(b, reduce);
      BeginsMore(UnlessSimple(b, reduce), [if arrow then TArrow else TPeriod, TId(f)]);
    case FuncCall(f, args) =>
      BeginsOperand(f, reduce);
      BeginsMore(UnlessSimple(f, reduce), Parens(VisitList(args, reduce)));
    case UnaryOp(op, x) => BeginsUnary(op, x, reduce);
    case BinaryOp(op, l, r) =>
      BeginsSide(l, op, reduce);
      BeginsMore(Side(l, op, true, reduce), [TBin(op)] + Side(r, op, false, reduce));
    case Assignment(op, l, r) =>
      Begins(l, reduce);
      BeginsMore(Visit(l, reduce), [TAssign(op)] + Rvalue(r, reduce));
    case ExprList(es) =>
      Begins(es[0], reduce);
      BeginsMore(VisitExpr(es[0], reduce), [TComma] + VisitList(es[1..], reduce));
    case _ =>
  }

  lemma {:induction false} BeginsUnary(op: UnOp, x: Expr, reduce: bool)
    requires ShapeOf(x) == Printable
    ensures BeginsExpr(Visit(UnaryOp(op, x), reduce))
    decreases x, 2
  {
    BeginsOperand(x, reduce);
    if op == PostInc || op == PostDec {
      BeginsMore(UnlessSimple(x, reduce), [if op == PostInc then TInc else TDec]);
    } else if op != Sizeof {
      assert !UnlessSimple(x, reduce)[0].TRBracket?;
    }
  }

  lemma {:induction false} BeginsSide(l: Expr, op: BinOp, reduce: bool)
    requires ShapeOf(l) == Printable
    ensures BeginsExpr(Side(l, op, true, reduce))
    decreases l, 1
  {
    Begins(l, reduce);
  }

  lemma {:induction false} BeginsOperand(e: Expr, reduce: bool)
    requires ShapeOf(e) == Printable
    ensures BeginsExpr(UnlessSimple(e, reduce))
    decreases e, 1
  {
    if IsSimple(e) {
      Begins(e, reduce);
    }
  }

  // ----- one step of the parser -----

  lemma StepIndex(acc: Expr, s: Expr, inside: seq<Token>, rest: seq<Token>)
    requires ParseExpression(inside) == Got(s, [TRBracket] + rest)
    ensures PostfixTail(acc, [TLBracket] + inside) == PostfixTail(ArrayRef(acc, s), rest)
  {
    assert ([TLBracket] + inside)[1..] == inside && ([TRBracket] + rest)[1..] == rest;
  }

  lemma StepField(acc: Expr, arrow: bool, f: string, rest: seq<Token>)
    ensures PostfixTail(acc, [if arrow then TArrow else TPeriod, TId(f)] + rest)
         == PostfixTail(StructRef(acc, arrow, f), rest)
  {
    assert ([if arrow then TArrow else TPeriod, TId(f)] + rest)[2..] == rest;
  }

  lemma StepCall(acc: Expr, args: seq<Expr>, inside: seq<Token>, rest: seq<Token>)
    requires if args == [] then inside == [TRParen] + rest
             else !At(inside, TRParen) && ParseArguments(inside) == Got(args, [TRParen] + rest)
    ensures PostfixTail(acc, [TLParen] + inside) == PostfixTail(FuncCall(acc, args), rest)
  {
    var ts := [TLParen] + inside;
    assert ts[0] == TLParen && ts[1..] == inside && ([TRParen] + rest)[1..] == rest;
    if args == [] {
      assert ts[2..] == rest && At(ts[1..], TRParen);
    } else {
      assert !At(ts[1..], TRParen);
    }
  }

  lemma StepLeaf(t: Token, rest: seq<Token>)
    requires t.TId? || t.TConst?
    ensures ParseUnary([t] + rest) == PostfixTail(if t.TId? then Id(t.name) else Constant(t.text), rest)
  {
    var ts := [t] + rest;
    var leaf := if t.TId? then Id(t.name) else Constant(t.text);
    assert ts[0] == t && ts[1..] == rest;
    assert ParsePrimary(ts) == Got(leaf, rest);
    assert ParsePostfix(ts) == PostfixTail(leaf, rest);
    assert ParseUnary(ts) == ParsePostfix(ts);
  }

  lemma StepPostfix(acc: Expr, op: UnOp, rest: seq<Token>)
    requires op == PostInc || op == PostDec
    ensures PostfixTail(acc, [if op == PostInc then TInc else TDec] + rest) == PostfixTail(UnaryOp(op, acc), rest)
  {
    assert ([if op == PostInc then TInc else TDec] + rest)[1..] == rest;
  }

  lemma StepParens(e: Expr, inside: seq<Token>, rest: seq<Token>)
    requires !StartsType(inside) && ParseExpression(inside) == Got(e, [TRParen] + rest)
    ensures ParseUnary([TLParen] + inside) == PostfixTail(e, rest)
  {
    var ts := [TLParen] + inside;
    assert ts[1..] == inside && ([TRParen] + rest)[1..] == rest;
    assert ParsePrimary(ts) == Got(e, rest);
    assert ParsePostfix(ts) == PostfixTail(e, rest);
  }

  lemma PrefixToken(op: UnOp) returns (t: Token)
    requires op != Sizeof && op != PostInc && op != PostDec
    ensures Prefix(op) == [t] && IsPrefix(t) && UnaryOperator(t) == op
  {
    t := Prefix(op)[0];
  }

  lemma StepPrefix(op: UnOp, x: Expr, ts: seq<Token>, rest: seq<Token>)
    requires op != Sizeof && op != PostInc && op != PostDec
    requires ParseUnary(ts) == Got(x, rest)
    ensures ParseUnary(Prefix(op) + ts) == Got(UnaryOp(op, x), rest)
  {
    var t := PrefixToken(op);
    var all := [t] + ts;
    assert all[0] == t && all[1..] == ts;
    assert ParsePrefixed(op, ts) == Got(UnaryOp(op, x), rest);
  }

  lemma StepSizeof(x: Expr, ts: seq<Token>, rest: seq<Token>)
    requires ts != [] && !(At(ts, TLParen) && StartsType(ts[1..]))
    requires ParseUnary(ts) == Got(x, rest)
    ensures ParseUnary([TSizeof] + ts) == Got(UnaryOp(Sizeof, x), rest)
  {
    var all := [TSizeof] + ts;
    assert all[0] == TSizeof && all[1..] == ts;
    assert ParseSizeof(ts) == ParsePrefixed(Sizeof, ts);
  }

  lemma StepTypeUnary(op: TypeOp, t: TypeName, ts: seq<Token>, rest: seq<Token>)
    requires StartsType(ts) && ParseParenType([TLParen] + ts) == Got(t, rest) && !StartsUnary(rest)
    ensures ParseUnary([if op == SizeofType then TSizeof else TAlignof] + ([TLParen] + ts))
         == Got(TypeUnary(op, t), rest)
  {
    var all := [if op == SizeofType then TSizeof else TAlignof] + ([TLParen] + ts);
    assert all[1..] == [TLParen] + ts && all[2..] == ts;
  }

  lemma StepCast(t: TypeName, x: Expr, ts: seq<Token>, operand: seq<Token>, rest: seq<Token>)
    requires StartsType(ts) && ParseParenType([TLParen] + ts) == Got(t, operand)
    requires ParseUnary(operand) == Got(x, rest)
    ensures ParseUnary([TLParen] + ts) == Got(Cast(t, x), rest)
  {
    assert ([TLParen] + ts)[1..] == ts;
  }

  lemma StepAssign(op: AssignOp, l: Expr, r: Expr, ts: seq<Token>, value: seq<Token>, rest: seq<Token>)
    requires ParseUnary(ts) == Got(l, [TAssign(op)] + value) && ParseAssignment(value) == Got(r, rest)
    ensures ParseAssignment(ts) == Got(Assignment(op, l, r), rest)
  {
    assert ([TAssign(op)] + value)[1..] == value;
  }

  lemma StepTernary(c: Expr, a: Expr, b: Expr, ts: seq<Token>, thenTs: seq<Token>, elseTs: seq<Token>, rest: seq<Token>)
    requires ParseUnary(ts) == Got(c, [TCondOp] + thenTs)
    requires ParseAssignment(thenTs) == Got(a, [TColon] + elseTs)
    requires ParseConditional(elseTs) == Got(b, rest)
    ensures ParseAssignment(ts) == Got(TernaryOp(c, a, b), rest)
  {
    StopsExpression(a, thenTs, [TColon] + elseTs);
    assert ([TCondOp] + thenTs)[1..] == thenTs && ([TColon] + elseTs)[1..] == elseTs;
    var cond := BinaryTail([], c, [TCondOp] + thenTs);
    assert cond == Got(c, [TCondOp] + thenTs);
    assert ConditionalTail(cond) == Got(TernaryOp(c, a, b), rest);
    assert AssignmentTail(c, [TCondOp] + thenTs) == Got(TernaryOp(c, a, b), rest);
  }

  lemma OperandEnds(e: Expr, rest: seq<Token>)
    requires EndsOperand(rest)
    ensures PostfixTail(e, rest) == Got(e, rest)
  {
  }

  /** At a closing token, a unary expression is the whole assignment expression. */
  lemma StopsAt(u: Expr, ts: seq<Token>, rest: seq<Token>)
    requires ParseUnary(ts) == Got(u, rest) && Stop(rest)
    ensures ParseAssignment(ts) == Got(u, rest)
    ensures ParseConditional(ts) == Got(u, rest)
  {
    assert BinaryTail([], u, rest) == Got(u, rest);
    assert ConditionalTail(BinaryTail([], u, rest)) == Got(u, rest);
    assert AssignmentTail(u, rest) == Got(u, rest);
  }

  lemma StopsExpression(u: Expr, ts: seq<Token>, rest: seq<Token>)
    requires ParseAssignment(ts) == Got(u, rest) && !At(rest, TComma)
    ensures ParseExpression(ts) == Got(u, rest)
  {
  }

  // ----- operands -----

  /** Parsing a printed operand leaves the postfix loop holding it. */
  lemma {:induction false} OperandBack(e: Expr, reduce: bool, rest: seq<Token>)
    requires ShapeOf(e) == Printable
    ensures ParseUnary(UnlessSimple(e, reduce) + rest) == PostfixTail(e, rest)
    decreases e, 7
  {
    if IsSimple(e) {
      SimpleBack(e, reduce, rest);
    } else {
      ParensBack(e, reduce, rest);
    }
  }

  /** A parenthesised expression is read back as a primary. */
  lemma {:induction false} ParensBack(e: Expr, reduce: bool, rest: seq<Token>)
    requires ShapeOf(e) == Printable
    ensures ParseUnary(Parens(VisitExpr(e, reduce)) + rest) == PostfixTail(e, rest)
    decreases e, 6
  {
    var inside := VisitExpr(e, reduce) + ([TRParen] + rest);
    ParensSplit(VisitExpr(e, reduce), rest);
    ExprInParensBack(e, reduce, [TRParen] + rest);
    Begins(e, reduce);
    StepParens(e, inside, rest);
  }

  lemma {:induction false} SimpleBack(e: Expr, reduce: bool, rest: seq<Token>)
    requires ShapeOf(e) == Printable && IsSimple(e)
    ensures ParseUnary(Visit(e, reduce) + rest) == PostfixTail(e, rest)
    decreases e, 1
  {
    match e
    case Constant(v) => StepLeaf(TConst(v), rest);
    case Id(n) => StepLeaf(TId(n), rest);
    case ArrayRef(b, s) => ArrayRefBack(b, s, reduce, rest);
    case StructRef(b, arrow, f) => StructRefBack(b, arrow, f, reduce, rest);
    case FuncCall(f, args) => FuncCallBack(f, args, reduce, rest);
  }

  lemma {:induction false} ArrayRefBack(b: Expr, s: Expr, reduce: bool, rest: seq<Token>)
    requires ShapeOf(b) == Printable && ShapeOf(s) == Printable
    ensures ParseUnary(Visit(ArrayRef(b, s), reduce) + rest) == PostfixTail(ArrayRef(b, s), rest)
    decreases ArrayRef(b, s), 0
  {
    var inside := Visit(s, reduce) + ([TRBracket] + rest);
    OperandBack(b, reduce, [TLBracket] + inside);
    SplitIndex(b, s, reduce, rest);
    ExpressionBack(s, reduce, [TRBracket] + rest);
    StepIndex(b, s, inside, rest);
  }

  lemma {:induction false} StructRefBack(b: Expr, arrow: bool, f: string, reduce: bool, rest: seq<Token>)
    requires ShapeOf(b) == Printable
    ensures ParseUnary(Visit(StructRef(b, arrow, f), reduce) + rest) == PostfixTail(StructRef(b, arrow, f), rest)
    decreases StructRef(b, arrow, f), 0
  {
    var field := [if arrow then TArrow else TPeriod, TId(f)];
    OperandBack(b, reduce, field + rest);
    Associate(UnlessSimple(b, reduce), field, rest);
    StepField(b, arrow, f, rest);
  }

  lemma {:induction false} FuncCallBack(f: Expr, args: seq<Expr>, reduce: bool, rest: seq<Token>)
    requires ShapeOf(f) == Printable
    requires forall i | 0 <= i < |args| :: ShapeOf(args[i]) == Printable
    ensures ParseUnary(Visit(FuncCall(f, args), reduce) + rest) == PostfixTail(FuncCall(f, args), rest)
    decreases FuncCall(f, args), 0
  {
    var inside := VisitList(args, reduce) + ([TRParen] + rest);
    OperandBack(f, reduce, [TLParen] + inside);
    SplitCall(f, args, reduce, rest);
    if args != [] {
      ArgumentsBack(args, reduce, [TRParen] + rest);
    }
    StepCall(f, args, inside, rest);
  }

  lemma ListSplit(es: seq<Expr>, reduce: bool, rest: seq<Token>)
    requires |es| >= 2
    ensures VisitList(es, reduce) + rest
         == VisitExpr(es[0], reduce) + ([TComma] + (VisitList(es[1..], reduce) + rest))
  {
    Regroup(VisitExpr(es[0], reduce), [TComma], VisitList(es[1..], reduce), rest);
  }

  lemma {:induction false} ArgumentsBack(args: seq<Expr>, reduce: bool, rest: seq<Token>)
    requires args != [] && At(rest, TRParen)
    requires forall i | 0 <= i < |args| :: ShapeOf(args[i]) == Printable
    ensures ParseArguments(VisitList(args, reduce) + rest) == Got(args, rest)
    ensures !At(VisitList(args, reduce) + rest, TRParen)
    decreases args, 0
  {
    Begins(args[0], reduce);
    if |args| == 1 {
      AssignmentBack(args[0], reduce, rest);
      assert [args[0]] == args;
    } else {
      var more := VisitList(args[1..], reduce) + rest;
      ListSplit(args, reduce, rest);
      AssignmentBack(args[0], reduce, [TComma] + more);
      ArgumentsBack(args[1..], reduce, rest);
      StepArgument(args, VisitList(args, reduce) + rest, more, rest);
    }
  }

  lemma StepArgument(args: seq<Expr>, ts: seq<Token>, more: seq<Token>, rest: seq<Token>)
    requires args != [] && ParseAssignment(ts) == Got(args[0], [TComma] + more)
    requires ParseArguments(more) == Got(args[1..], rest)
    ensures ParseArguments(ts) == Got(args, rest)
  {
    assert ([TComma] + more)[1..] == more;
    assert [args[0]] + args[1..] == args;
  }

  /** Everything the grammar calls a unary expression, printed bare. */
  lemma {:induction false} UnaryBack(e: Expr, reduce: bool, rest: seq<Token>)
    requires ShapeOf(e) == Printable && UnaryShaped(e)
    requires EndsOperand(rest) && !StartsUnary(rest)
    ensures ParseUnary(Visit(e, reduce) + rest) == Got(e, rest)
    decreases e, 2
  {
    if e.UnaryOp? {
      if e.uop == Sizeof {
        SizeofBack(e.operand, reduce, rest);
      } else if e.uop == PostInc || e.uop == PostDec {
        PostfixBack(e.uop, e.operand, reduce, rest);
      } else {
        PrefixBack(e.uop, e.operand, reduce, rest);
      }
    } else if e.TypeUnary? {
      TypeUnaryBack(e.top, e.arg, reduce, rest);
    } else if e.Cast? {
      CastBack(e.to, e.operand, reduce, rest);
    } else {
      SimpleBack(e, reduce, rest);
      OperandEnds(e, rest);
    }
  }

  lemma {:induction false} SizeofBack(x: Expr, reduce: bool, rest: seq<Token>)
    requires ShapeOf(x) == Printable && EndsOperand(rest)
    ensures ParseUnary(Visit(UnaryOp(Sizeof, x), reduce) + rest) == Got(UnaryOp(Sizeof, x), rest)
    decreases UnaryOp(Sizeof, x), 0
  {
    var inside := Visit(x, reduce) + ([TRParen] + rest);
    SplitSizeof(x, reduce, rest);
    Begins(x, reduce);
    ExpressionBack(x, reduce, [TRParen] + rest);
    StepParens(x, inside, rest);
    OperandEnds(x, rest);
    assert ([TLParen] + inside)[1..] == inside;
    StepSizeof(x, [TLParen] + inside, rest);
  }

  lemma {:induction false} PostfixBack(op: UnOp, x: Expr, reduce: bool, rest: seq<Token>)
    requires ShapeOf(x) == Printable && EndsOperand(rest) && (op == PostInc || op == PostDec)
    ensures ParseUnary(Visit(UnaryOp(op, x), reduce) + rest) == Got(UnaryOp(op, x), rest)
    decreases UnaryOp(op, x), 0
  {
    var t := [if op == PostInc then TInc else TDec];
    Associate(UnlessSimple(x, reduce), t, rest);
    OperandBack(x, reduce, t + rest);
    StepPostfix(x, op, rest);
    OperandEnds(UnaryOp(op, x), rest);
  }

  lemma {:induction false} PrefixBack(op: UnOp, x: Expr, reduce: bool, rest: seq<Token>)
    requires ShapeOf(x) == Printable && EndsOperand(rest)
    requires op != Sizeof && op != PostInc && op != PostDec
    ensures ParseUnary(Visit(UnaryOp(op, x), reduce) + rest) == Got(UnaryOp(op, x), rest)
    decreases UnaryOp(op, x), 0
  {
    OperandBack(x, reduce, rest);
    OperandEnds(x, rest);
    Associate(Prefix(op), UnlessSimple(x, reduce), rest);
    StepPrefix(op, x, UnlessSimple(x, reduce) + rest, rest);
  }

  lemma {:induction false} TypeUnaryBack(op: TypeOp, t: TypeName, reduce: bool, rest: seq<Token>)
    requires ShapeOfType(t) == Printable && !StartsUnary(rest)
    ensures ParseUnary(Visit(TypeUnary(op, t), reduce) + rest) == Got(TypeUnary(op, t), rest)
    decreases TypeUnary(op, t), 0
  {
    var inside := VisitTypeName(t, reduce) + ([TRParen] + rest);
    SplitTypeUnary(op, t, reduce, rest);
    ParenTypeBack(t, reduce, rest);
    StepTypeUnary(op, t, inside, rest);
  }

  lemma {:induction false} CastBack(t: TypeName, x: Expr, reduce: bool, rest: seq<Token>)
    requires ShapeOfType(t) == Printable && ShapeOf(x) == Printable && EndsOperand(rest)
    ensures ParseUnary(Visit(Cast(t, x), reduce) + rest) == Got(Cast(t, x), rest)
    decreases Cast(t, x), 0
  {
    var operand := UnlessSimple(x, reduce) + rest;
    var inside := VisitTypeName(t, reduce) + ([TRParen] + operand);
    SplitCast(t, x, reduce, rest);
    ParenTypeBack(t, reduce, operand);
    OperandBack(x, reduce, rest);
    OperandEnds(x, rest);
    StepCast(t, x, inside, operand, rest);
  }

  lemma {:induction false} ParenTypeBack(t: TypeName, reduce: bool, rest: seq<Token>)
    requires ShapeOfType(t) == Printable
    ensures var ts := VisitTypeName(t, reduce) + ([TRParen] + rest);
            StartsType(ts) && ParseParenType([TLParen] + ts) == Got(t, rest)
    decreases t, 1
  {
    var ts := VisitTypeName(t, reduce) + ([TRParen] + rest);
    TypeNameBack(t, reduce, [TRParen] + rest);
    assert ([TLParen] + ts)[1..] == ts && ([TRParen] + rest)[1..] == rest;
  }

  // ----- binary operators -----

  predicate BelowTop(stack: Stack, p: int) {
    stack != [] ==> Prec(stack[|stack| - 1].1) < p
  }

  /** The next token does not bind tighter than an operator of level `p`. */
  predicate NotTighter(ts: seq<Token>, p: int) {
    ts != [] && ts[0].TBin? ==> Prec(ts[0].op) <= p
  }

  /** Reading `ts` on top of `stack` continues as if `e` had just been read. */
  ghost predicate ReadsAs(stack: Stack, ts: seq<Token>, e: Expr, rest: seq<Token>) {
    var p := ParseUnary(ts);
    && p.Got?
    && (p == Got(e, rest) || (p.rest != [] && p.rest[0].TBin?))
    && BinaryTail(stack, p.value, p.rest) == BinaryTail(stack, e, rest)
  }

  /** The heart of the precedence argument: an operator tree left bare by the
      printer is rebuilt on the stack before anything looser is reduced. */
  lemma {:induction false} BinaryBack(stack: Stack, e: Expr, reduce: bool, rest: seq<Token>)
    requires e.BinaryOp? && ShapeOf(e) == Printable
    requires BelowTop(stack, Prec(e.op)) && NotTighter(rest, Prec(e.op)) && EndsOperand(rest)
    ensures ReadsAs(stack, Visit(e, reduce) + rest, e, rest)
    ensures var p := ParseUnary(Visit(e, reduce) + rest); p.rest != [] && p.rest[0].TBin?
    decreases e, 0
  {
    var op, l, r := e.op, e.left, e.right;
    var afterOp := Side(r, op, false, reduce) + rest;
    var afterLeft := [TBin(op)] + afterOp;
    SplitBinary(op, l, r, reduce, rest);
    SideBack(stack, l, op, true, reduce, afterLeft);
    SideBack(stack + [(l, op)], r, op, false, reduce, rest);
    ShiftsOver(stack, l, op, afterOp, r, rest);
    ReducesTop(stack, l, op, r, rest);
  }

  lemma {:induction false} SideBack(stack: Stack, x: Expr, op: BinOp, isLeft: bool, reduce: bool, rest: seq<Token>)
    requires ShapeOf(x) == Printable && EndsOperand(rest) && NotTighter(rest, Prec(op))
    requires BelowTop(stack, if isLeft then Prec(op) else Prec(op) + 1)
    ensures ReadsAs(stack, Side(x, op, isLeft, reduce) + rest, x, rest)
    decreases x, 9
  {
    if x.BinaryOp? && Bare(x, op, isLeft, reduce) {
      BinaryBack(stack, x, reduce, rest);
    } else {
      OperandBack(x, reduce, rest);
      OperandEnds(x, rest);
    }
  }

  /** An operator that binds tighter than the stack is shifted. */
  lemma ShiftsOver(stack: Stack, l: Expr, op: BinOp, afterOp: seq<Token>, r: Expr, rest: seq<Token>)
    requires BelowTop(stack, Prec(op))
    requires ReadsAs(stack + [(l, op)], afterOp, r, rest)
    ensures BinaryTail(stack, l, [TBin(op)] + afterOp) == BinaryTail(stack + [(l, op)], r, rest)
  {
    assert ([TBin(op)] + afterOp)[1..] == afterOp;
    assert Reduce(stack, l, Prec(op)) == (stack, l);
  }

  /** Facing nothing tighter, the pushed operator is the first one reduced. */
  lemma ReducesTop(stack: Stack, l: Expr, op: BinOp, r: Expr, rest: seq<Token>)
    requires NotTighter(rest, Prec(op))
    ensures BinaryTail(stack + [(l, op)], r, rest) == BinaryTail(stack, BinaryOp(op, l, r), rest)
  {
    var pushed := stack + [(l, op)];
    assert pushed[..|pushed| - 1] == stack;
    assert forall p: int | p <= Prec(op) :: Reduce(pushed, r, p) == Reduce(stack, BinaryOp(op, l, r), p);
  }

  lemma StepBinary(e: Expr, ts: seq<Token>, rest: seq<Token>)
    requires ReadsAs([], ts, e, rest) && Stop(rest)
    ensures ParseAssignment(ts) == Got(e, rest)
  {
    var p := ParseUnary(ts);
    assert BinaryTail([], e, rest) == Got(e, rest);
    assert AssignmentTail(p.value, p.rest) == ConditionalTail(BinaryTail([], p.value, p.rest));
  }

  // ----- assignments, conditionals, comma lists -----

  lemma {:induction false} AssignmentBack(e: Expr, reduce: bool, rest: seq<Token>)
    requires ShapeOf(e) == Printable && Stop(rest)
    ensures ParseAssignment(VisitExpr(e, reduce) + rest) == Got(e, rest)
    decreases e, 8
  {
    if e.ExprList? {
      GroupBack(e, reduce, rest);
    } else {
      BareBack(e, reduce, rest);
    }
  }

  /** A parenthesised expression before a closing token. */
  lemma {:induction false} GroupBack(e: Expr, reduce: bool, rest: seq<Token>)
    requires ShapeOf(e) == Printable && Stop(rest)
    ensures ParseAssignment(Parens(VisitExpr(e, reduce)) + rest) == Got(e, rest)
    ensures ParseConditional(Parens(VisitExpr(e, reduce)) + rest) == Got(e, rest)
    ensures e.ExprList? ==> ParseAssignment(VisitExpr(e, reduce) + rest) == Got(e, rest)
    decreases e, 7
  {
    ParensBack(e, reduce, rest);
    OperandEnds(e, rest);
    StopsAt(e, Parens(VisitExpr(e, reduce)) + rest, rest);
    if e.ExprList? {
      ListInParensBack(e, reduce, rest);
    }
  }

  lemma {:induction false} BareBack(e: Expr, reduce: bool, rest: seq<Token>)
    requires ShapeOf(e) == Printable && Stop(rest) && !e.ExprList?
    ensures ParseAssignment(Visit(e, reduce) + rest) == Got(e, rest)
    decreases e, 3
  {
    if e.BinaryOp? {
      BinaryBack([], e, reduce, rest);
      StepBinary(e, Visit(e, reduce) + rest, rest);
    } else if e.TernaryOp? {
      TernaryBack(e.cond, e.iftrue, e.iffalse, reduce, rest);
    } else if e.Assignment? {
      AssignBack(e.aop, e.lvalue, e.rvalue, reduce, rest);
    } else {
      UnaryBack(e, reduce, rest);
      StopsAt(e, Visit(e, reduce) + rest, rest);
    }
  }

  lemma {:induction false} AssignBack(op: AssignOp, l: Expr, r: Expr, reduce: bool, rest: seq<Token>)
    requires ShapeOf(l) == Printable && ShapeOf(r) == Printable && UnaryShaped(l) && Stop(rest)
    ensures ParseAssignment(Visit(Assignment(op, l, r), reduce) + rest) == Got(Assignment(op, l, r), rest)
    decreases Assignment(op, l, r), 0
  {
    var value := Rvalue(r, reduce) + rest;
    SplitAssign(op, l, r, reduce, rest);
    UnaryBack(l, reduce, [TAssign(op)] + value);
    if r.Assignment? {
      GroupBack(r, reduce, rest);
    } else {
      AssignmentBack(r, reduce, rest);
    }
    StepAssign(op, l, r, Visit(l, reduce) + ([TAssign(op)] + value), value, rest);
  }

  lemma {:induction false} TernaryBack(c: Expr, a: Expr, b: Expr, reduce: bool, rest: seq<Token>)
    requires ShapeOf(c) == Printable && ShapeOf(a) == Printable && ShapeOf(b) == Printable && Stop(rest)
    ensures ParseAssignment(Visit(TernaryOp(c, a, b), reduce) + rest) == Got(TernaryOp(c, a, b), rest)
    decreases TernaryOp(c, a, b), 0
  {
    var elseTs := Parens(VisitExpr(b, reduce)) + rest;
    var thenTs := Parens(VisitExpr(a, reduce)) + ([TColon] + elseTs);
    var ts := Parens(VisitExpr(c, reduce)) + ([TCondOp] + thenTs);
    SplitTernary(c, a, b, reduce, rest);
    ParensBack(c, reduce, [TCondOp] + thenTs);
    OperandEnds(c, [TCondOp] + thenTs);
    GroupBack(a, reduce, [TColon] + elseTs);
    GroupBack(b, reduce, rest);
    StepTernary(c, a, b, ts, thenTs, elseTs, rest);
  }

  lemma {:induction false} ExpressionBack(e: Expr, reduce: bool, rest: seq<Token>)
    requires ShapeOf(e) == Printable && Stop(rest) && !At(rest, TComma)
    ensures ParseExpression(Visit(e, reduce) + rest) == Got(e, rest)
    decreases e, 4
  {
    if e.ExprList? {
      ListBack(e.exprs, reduce, rest);
    } else {
      BareBack(e, reduce, rest);
      StopsExpression(e, Visit(e, reduce) + rest, rest);
    }
  }

  lemma {:induction false} ListBack(es: seq<Expr>, reduce: bool, rest: seq<Token>)
    requires |es| >= 2 && !es[0].ExprList? && Stop(rest) && !At(rest, TComma)
    requires forall i | 0 <= i < |es| :: ShapeOf(es[i]) == Printable
    ensures ParseExpression(VisitList(es, reduce) + rest) == Got(ExprList(es), rest)
    decreases es, 1
  {
    var more := [TComma] + (VisitList(es[1..], reduce) + rest);
    ListSplit(es, reduce, rest);
    AssignmentBack(es[0], reduce, more);
    CommaTailBack(es[0], es[1..], reduce, rest);
    assert [es[0]] + es[1..] == es;
  }

  lemma StepComma(acc: Expr, e: Expr, items: seq<Token>, more: seq<Token>)
    requires ParseAssignment(items) == Got(e, more)
    ensures ExpressionTail(acc, [TComma] + items) == ExpressionTail(Extend(acc, e), more)
  {
    assert ([TComma] + items)[1..] == items;
  }

  /** The items the comma loop has collected so far. */
  function Items(acc: Expr): seq<Expr> {
    if acc.ExprList? then acc.exprs else [acc]
  }

  /** The comma loop goes on to read all the items that follow. */
  lemma {:induction false} CommaTailBack(acc: Expr, es: seq<Expr>, reduce: bool, rest: seq<Token>)
    requires es != [] && Stop(rest) && !At(rest, TComma)
    requires forall i | 0 <= i < |es| :: ShapeOf(es[i]) == Printable
    ensures ExpressionTail(acc, [TComma] + (VisitList(es, reduce) + rest)) == Got(ExprList(Items(acc) + es), rest)
    decreases es, 0
  {
    var next := Extend(acc, es[0]);
    var after := if |es| == 1 then rest else [TComma] + (VisitList(es[1..], reduce) + rest);
    ItemsGrow(acc, es);
    if |es| > 1 {
      ListSplit(es, reduce, rest);
      CommaTailBack(next, es[1..], reduce, rest);
    }
    AssignmentBack(es[0], reduce, after);
    StepComma(acc, es[0], VisitList(es, reduce) + rest, after);
  }

  lemma ItemsGrow(acc: Expr, es: seq<Expr>)
    requires es != []
    ensures Items(Extend(acc, es[0])) + es[1..] == Items(acc) + es
    ensures Extend(acc, es[0]) == ExprList(Items(acc) + [es[0]])
    ensures |es| == 1 ==> [es[0]] == es
  {
  }

  /** Inside grouping parentheses a comma list carries a second pair. */
  lemma {:induction false} ExprInParensBack(e: Expr, reduce: bool, rest: seq<Token>)
    requires ShapeOf(e) == Printable && At(rest, TRParen)
    ensures ParseExpression(VisitExpr(e, reduce) + rest) == Got(e, rest)
    decreases e, 4
  {
    if e.ExprList? {
      ListInParensBack(e, reduce, rest);
    } else {
      BareBack(e, reduce, rest);
    }
    StopsExpression(e, VisitExpr(e, reduce) + rest, rest);
  }

  lemma {:induction false} ListInParensBack(e: Expr, reduce: bool, rest: seq<Token>)
    requires ShapeOf(e) == Printable && e.ExprList? && Stop(rest)
    ensures ParseAssignment(VisitExpr(e, reduce) + rest) == Got(e, rest)
    decreases e, 3
  {
    var inside := Visit(e, reduce) + ([TRParen] + rest);
    ParensSplit(Visit(e, reduce), rest);
    Begins(e, reduce);
    ListBack(e.exprs, reduce, [TRParen] + rest);
    StepParens(e, inside, rest);
    OperandEnds(e, rest);
    StopsAt(e, [TLParen] + inside, rest);
  }

  // ----- type names and declarators -----

  /** What may follow a declarator: anything that does not go on with it or with the type
      before it. That is `)` and `,`, but also `;`, `=`, `:` and the end of the text. */
  predicate EndsChain(ts: seq<Token>) {
    |ts| > 0 ==>
      && !ts[0].TId? && !ts[0].TWord? && !ts[0].TQual? && !ts[0].TStorage?
      && !ts[0].TLParen? && !ts[0].TLBracket? && !ts[0].TRBracket? && ts[0] != TBin(Times)
  }

  lemma {:induction false} TypeNameBack(t: TypeName, reduce: bool, rest: seq<Token>)
    requires ShapeOfType(t) == Printable && At(rest, TRParen)
    ensures StartsType(VisitTypeName(t, reduce) + rest)
    ensures ParseTypeName(VisitTypeName(t, reduce) + rest) == Got(t, rest)
    decreases t, 0
  {
    var chain := VisitChain([], t.mods, reduce) + rest;
    Regroup(Quals(t.quals), Words(t.names), VisitChain([], t.mods, reduce), rest);
    assert Storages([]) + (Quals(t.quals) + (Words(t.names) + chain)) == Quals(t.quals) + (Words(t.names) + chain);
    ChainBegins([], t.mods, reduce);
    SpecsBack([], t.quals, t.names, chain);
    ChainBack([], t.mods, reduce, rest);
  }

  lemma {:induction false} ChainBegins(name: seq<string>, mods: seq<Modifier>, reduce: bool)
    requires |name| <= 1
    ensures var ts := VisitChain(name, mods, reduce);
            if mods == [] && name == [] then ts == []
            else if mods != [] && mods[|mods| - 1].Ptr? then At(ts, TBin(Times))
            else StartsDirect(ts)
    decreases |mods|
  {
    if mods != [] {
      ChainBegins(name, mods[..|mods| - 1], reduce);
    }
  }

  /** How many modifiers remain once the trailing pointers are taken off. */
  function CoreLen(mods: seq<Modifier>): (k: nat)
    ensures k <= |mods|
    ensures k > 0 ==> !mods[k - 1].Ptr?
  {
    if mods != [] && mods[|mods| - 1].Ptr? then CoreLen(mods[..|mods| - 1]) else |mods|
  }

  lemma StepPointer(qs: seq<string>, ts: seq<Token>, inner: seq<Modifier>, rest: seq<Token>)
    requires ts != [] ==> !ts[0].TQual?
    requires ParsePointers(ts) == (inner, rest)
    ensures ParsePointers([TBin(Times)] + (Quals(qs) + ts)) == (inner + [Ptr(qs)], rest)
  {
    var all := [TBin(Times)] + (Quals(qs) + ts);
    assert all[1..] == Quals(qs) + ts;
    QualsBack(qs, ts);
  }

  lemma PointerSplit(name: seq<string>, mods: seq<Modifier>, reduce: bool, rest: seq<Token>)
    requires mods != [] && mods[|mods| - 1].Ptr?
    ensures VisitChain(name, mods, reduce) + rest
         == [TBin(Times)] + (Quals(mods[|mods| - 1].quals) + (VisitChain(name, mods[..|mods| - 1], reduce) + rest))
  {
    Regroup([TBin(Times)], Quals(mods[|mods| - 1].quals), VisitChain(name, mods[..|mods| - 1], reduce), rest);
  }

  lemma NoPointers(ts: seq<Token>)
    requires !At(ts, TBin(Times))
    ensures ParsePointers(ts) == ([], ts)
  {
  }

  lemma ChainKeepsNoQual(name: seq<string>, mods: seq<Modifier>, reduce: bool, rest: seq<Token>)
    requires |name| <= 1 && EndsChain(rest)
    ensures var ts := VisitChain(name, mods, reduce) + rest;
            && (|ts| > 0 ==> !ts[0].TQual?)
            && (mods == [] || !mods[|mods| - 1].Ptr? ==> !At(ts, TBin(Times)))
  {
    ChainBegins(name, mods, reduce);
  }

  /** The stars in front of a declarator are its outermost run of pointers,
      nested in the order `p_pointer` builds them. */
  lemma {:induction false} PointersBack(name: seq<string>, mods: seq<Modifier>, k: nat, reduce: bool, rest: seq<Token>)
    requires |name| <= 1 && EndsChain(rest) && k == CoreLen(mods)
    ensures ParsePointers(VisitChain(name, mods, reduce) + rest)
         == (mods[k..], VisitChain(name, mods[..k], reduce) + rest)
    decreases |mods|
  {
    if mods == [] || !mods[|mods| - 1].Ptr? {
      assert mods[..k] == mods && mods[k..] == [];
      ChainKeepsNoQual(name, mods, reduce, rest);
      NoPointers(VisitChain(name, mods, reduce) + rest);
    } else {
      var init := mods[..|mods| - 1];
      assert init[..k] == mods[..k] && mods[k..] == init[k..] + [mods[|mods| - 1]];
      ChainKeepsNoQual(name, init, reduce, rest);
      PointersBack(name, init, k, reduce, rest);
      StepPointer(mods[|mods| - 1].quals, VisitChain(name, init, reduce) + rest,
                  init[k..], VisitChain(name, init[..k], reduce) + rest);
      PointerSplit(name, mods, reduce, rest);
    }
  }

  lemma ChainEnds(c: Chain, rest: seq<Token>)
    requires EndsChain(rest)
    ensures DirectTail(c, rest) == Got(c, rest)
  {
  }

  lemma StepChain(ts: seq<Token>, pointers: seq<Modifier>, direct: seq<Token>, c: Chain, rest: seq<Token>)
    requires ParsePointers(ts) == (pointers, direct)
    requires if StartsDirect(direct) then ParseDirect(direct) == Got(c, rest) else c == Chain([], []) && direct == rest
    ensures ParseChain(ts) == Got(Chain(c.name, c.mods + pointers), rest)
  {
    assert [] + pointers == pointers;
  }

  lemma JoinChain(ts: seq<Token>, mods: seq<Modifier>, k: nat, direct: seq<Token>, name: seq<string>, rest: seq<Token>)
    requires k <= |mods| && ParsePointers(ts) == (mods[k..], direct)
    requires if StartsDirect(direct) then ParseDirect(direct) == Got(Chain(name, mods[..k]), rest)
             else name == [] && mods[..k] == [] && direct == rest
    ensures ParseChain(ts) == Got(Chain(name, mods), rest)
  {
    StepChain(ts, mods[k..], direct, Chain(name, mods[..k]), rest);
    assert mods[..k] + mods[k..] == mods;
  }

  lemma ShapeOfPrefix(named: bool, mods: seq<Modifier>, k: nat)
    requires k <= |mods| && ShapeOfMods(named, mods) == Printable
    ensures ShapeOfMods(named, mods[..k]) == Printable
    ensures k < |mods| ==> ShapeOfMod(named, k == 0, mods[k]) == Printable
  {
  }

  lemma {:induction false} ChainBack(name: seq<string>, mods: seq<Modifier>, reduce: bool, rest: seq<Token>)
    requires |name| <= 1 && EndsChain(rest) && ShapeOfMods(name != [], mods) == Printable
    ensures ParseChain(VisitChain(name, mods, reduce) + rest) == Got(Chain(name, mods), rest)
    decreases mods, 4
  {
    var k := CoreLen(mods);
    PointersBack(name, mods, k, reduce, rest);
    CoreOfChain(name, mods, k, reduce, rest);
    JoinChain(VisitChain(name, mods, reduce) + rest, mods, k, VisitChain(name, mods[..k], reduce) + rest, name, rest);
  }

  lemma {:induction false} CoreOfChain(name: seq<string>, mods: seq<Modifier>, k: nat, reduce: bool, rest: seq<Token>)
    requires |name| <= 1 && EndsChain(rest) && ShapeOfMods(name != [], mods) == Printable && k == CoreLen(mods)
    ensures var ts := VisitChain(name, mods[..k], reduce) + rest;
            if StartsDirect(ts) then ParseDirect(ts) == Got(Chain(name, mods[..k]), rest)
            else name == [] && mods[..k] == [] && ts == rest
    decreases mods, 3
  {
    ShapeOfPrefix(name != [], mods, k);
    if k == |mods| {
      assert mods[..k] == mods;
    }
    CoreBack(name, mods[..k], reduce, rest);
  }

  /** What is left of a declarator without its leading stars. */
  lemma {:induction false} CoreBack(name: seq<string>, mods: seq<Modifier>, reduce: bool, rest: seq<Token>)
    requires |name| <= 1 && EndsChain(rest) && ShapeOfMods(name != [], mods) == Printable
    requires mods != [] ==> !mods[|mods| - 1].Ptr?
    ensures var ts := VisitChain(name, mods, reduce) + rest;
            if StartsDirect(ts) then ParseDirect(ts) == Got(Chain(name, mods), rest)
            else name == [] && mods == [] && ts == rest
    decreases mods, 2
  {
    ChainBegins(name, mods, reduce);
    if name != [] || mods != [] {
      DirectBack(name, mods, reduce, rest);
      ChainEnds(Chain(name, mods), rest);
    }
  }

  lemma PlainSplit(name: seq<string>, mods: seq<Modifier>, reduce: bool, rest: seq<Token>)
    requires mods != [] && !mods[|mods| - 1].Ptr?
    requires |mods| > 1 ==> !mods[|mods| - 2].Ptr?
    ensures VisitChain(name, mods, reduce) + rest
         == VisitChain(name, mods[..|mods| - 1], reduce) + (VisitSuffix(mods[|mods| - 1], reduce) + rest)
  {
    Associate(VisitChain(name, mods[..|mods| - 1], reduce), VisitSuffix(mods[|mods| - 1], reduce), rest);
  }

  lemma {:induction false} DirectBack(name: seq<string>, mods: seq<Modifier>, reduce: bool, rest: seq<Token>)
    requires |name| <= 1 && ShapeOfMods(name != [], mods) == Printable
    requires if mods == [] then name != [] else !mods[|mods| - 1].Ptr?
    ensures ParseDirect(VisitChain(name, mods, reduce) + rest) == DirectTail(Chain(name, mods), rest)
    decreases mods, 1
  {
    if mods == [] {
      assert ([TId(name[0])] + rest)[1..] == rest && [name[0]] == name;
    } else {
      var init, m := mods[..|mods| - 1], mods[|mods| - 1];
      assert init + [m] == mods;
      ShapeOfPrefix(name != [], mods, |mods| - 1);
      if init != [] && init[|init| - 1].Ptr? {
        NestedBack(name, init, m, reduce, rest);
      } else {
        PlainBack(name, init, m, reduce, rest);
      }
    }
  }

  /** A suffix on a name, on another suffix, or on nothing. */
  lemma {:induction false} PlainBack(name: seq<string>, init: seq<Modifier>, m: Modifier, reduce: bool,
                                     rest: seq<Token>)
    requires |name| <= 1 && !m.Ptr? && (init != [] ==> !init[|init| - 1].Ptr?)
    requires ShapeOfMods(name != [], init) == Printable && ShapeOfMod(name != [], init == [], m) == Printable
    ensures ParseDirect(VisitChain(name, init + [m], reduce) + rest) == DirectTail(Chain(name, init + [m]), rest)
    decreases init + [m], 0
  {
    PlainSplit(name, init + [m], reduce, rest);
    assert (init + [m])[..|init|] == init && m in init + [m];
    if init == [] && name == [] {
      assert VisitChain(name, init, reduce) + (VisitSuffix(m, reduce) + rest) == VisitSuffix(m, reduce) + rest;
      FirstSuffixBack(m, reduce, rest);
    } else {
      DirectBack(name, init, reduce, VisitSuffix(m, reduce) + rest);
      SuffixBack(Chain(name, init), m, reduce, rest);
    }
  }

  /** A suffix on a pointer: the pointer was printed in parentheses. */
  lemma {:induction false} NestedBack(name: seq<string>, init: seq<Modifier>, m: Modifier, reduce: bool,
                                      rest: seq<Token>)
    requires |name| <= 1 && !m.Ptr? && init != [] && init[|init| - 1].Ptr?
    requires ShapeOfMods(name != [], init) == Printable && ShapeOfMod(name != [], false, m) == Printable
    ensures ParseDirect(VisitChain(name, init + [m], reduce) + rest) == DirectTail(Chain(name, init + [m]), rest)
    decreases init + [m], 0
  {
    assert (init + [m])[..|init|] == init && m in init + [m];
    var suffix := VisitSuffix(m, reduce) + rest;
    var inside := VisitChain(name, init, reduce) + ([TRParen] + suffix);
    NestedSplit(name, init, m, reduce, rest);
    ChainBegins(name, init, reduce);
    ChainBack(name, init, reduce, [TRParen] + suffix);
    StepNested(Chain(name, init), inside, suffix);
    SuffixBack(Chain(name, init), m, reduce, rest);
  }

  lemma NestedSplit(name: seq<string>, init: seq<Modifier>, m: Modifier, reduce: bool, rest: seq<Token>)
    requires !m.Ptr? && init != [] && init[|init| - 1].Ptr?
    ensures VisitChain(name, init + [m], reduce) + rest
         == [TLParen] + (VisitChain(name, init, reduce) + ([TRParen] + (VisitSuffix(m, reduce) + rest)))
  {
    assert (init + [m])[..|init|] == init;
    Associate(Parens(VisitChain(name, init, reduce)), VisitSuffix(m, reduce), rest);
    ParensSplit(VisitChain(name, init, reduce), VisitSuffix(m, reduce) + rest);
  }

  lemma StepNested(c: Chain, inside: seq<Token>, rest: seq<Token>)
    requires StartsNested(inside) && ParseChain(inside) == Got(c, [TRParen] + rest)
    ensures ParseDirect([TLParen] + inside) == DirectTail(c, rest)
  {
    assert ([TLParen] + inside)[1..] == inside && ([TRParen] + rest)[1..] == rest;
  }

  lemma StepArraySuffix(c: Chain, m: Modifier, ts: seq<Token>, rest: seq<Token>)
    requires At(ts, TLBracket)
    requires (if c.name != [] then ParseNamedArray(ts[1..]) else ParseLaterArray(ts[1..])) == Got(m, rest)
    ensures DirectTail(c, ts) == DirectTail(Chain(c.name, c.mods + [m]), rest)
  {
  }

  lemma StepFuncSuffix(c: Chain, m: Modifier, args: seq<Token>, rest: seq<Token>)
    requires ParseArgs(args, c.name != []) == Got(m, rest)
    ensures DirectTail(c, [TLParen] + args) == DirectTail(Chain(c.name, c.mods + [m]), rest)
  {
    assert ([TLParen] + args)[1..] == args;
  }

  lemma FuncSplit(a: Args, reduce: bool, rest: seq<Token>)
    ensures VisitSuffix(Func(a), reduce) + rest == [TLParen] + (VisitArgs(a, reduce) + ([TRParen] + rest))
    ensures (VisitSuffix(Func(a), reduce) + rest)[1..] == VisitArgs(a, reduce) + ([TRParen] + rest)
  {
    Regroup([TLParen], VisitArgs(a, reduce), [TRParen], rest);
  }

  lemma {:induction false} SuffixBack(c: Chain, m: Modifier, reduce: bool, rest: seq<Token>)
    requires ShapeOfMod(c.name != [], c.mods == [], m) == Printable && !m.Ptr?
    requires c.name != [] || c.mods != []
    ensures DirectTail(c, VisitSuffix(m, reduce) + rest) == DirectTail(Chain(c.name, c.mods + [m]), rest)
    decreases m, 2
  {
    if m.Array? {
      if c.name != [] {
        NamedArrayBack(m, c.mods == [], reduce, rest);
      } else {
        LaterArrayBack(m, reduce, rest);
      }
      StepArraySuffix(c, m, VisitSuffix(m, reduce) + rest, rest);
    } else {
      ArgsBack(m.args, c.name != [], c.mods == [], reduce, rest);
      FuncSplit(m.args, reduce, rest);
      StepFuncSuffix(c, m, VisitArgs(m.args, reduce) + ([TRParen] + rest), rest);
    }
  }

  /** A suffix that begins an abstract declarator. */
  lemma {:induction false} FirstSuffixBack(m: Modifier, reduce: bool, rest: seq<Token>)
    requires ShapeOfMod(false, true, m) == Printable && !m.Ptr?
    ensures ParseDirect(VisitSuffix(m, reduce) + rest) == DirectTail(Chain([], [m]), rest)
    decreases m, 2
  {
    if m.Array? {
      FirstArrayBack(m, reduce, rest);
    } else {
      ArgsBack(m.args, false, true, reduce, rest);
      FuncSplit(m.args, reduce, rest);
    }
  }

  // ----- array suffixes -----

  function DimTokens(m: Modifier, reduce: bool, rest: seq<Token>): seq<Token>
    requires m.Array?
  {
    DimQuals(m.dimQuals) + (VisitDim(m.dim, reduce) + ([TRBracket] + rest))
  }

  lemma ArraySplit(m: Modifier, reduce: bool, rest: seq<Token>)
    requires m.Array?
    ensures VisitSuffix(m, reduce) + rest == [TLBracket] + DimTokens(m, reduce, rest)
    ensures (VisitSuffix(m, reduce) + rest)[1..] == DimTokens(m, reduce, rest)
  {
    Regroup4([TLBracket], DimQuals(m.dimQuals), VisitDim(m.dim, reduce), [TRBracket], rest);
  }

  /** A run of plain qualifiers is read up to whatever follows it. */
  lemma DimQualsBack(qs: seq<DimQual>, ts: seq<Token>)
    requires forall i | 0 <= i < |qs| :: qs[i].Qualifier?
    requires ts != [] ==> !ts[0].TQual?
    ensures ParseQuals(DimQuals(qs) + ts).1 == ts
    ensures AsDimQuals(ParseQuals(DimQuals(qs) + ts).0) == qs
  {
    var texts := seq(|qs|, i requires 0 <= i < |qs| => qs[i].text);
    assert DimQuals(qs) == Quals(texts);
    QualsBack(texts, ts);
  }

  lemma {:induction false} SizedBack(qs: seq<DimQual>, e: Expr, reduce: bool, rest: seq<Token>)
    requires ShapeOf(e) == Printable && !e.ExprList?
    ensures CloseSized(qs, Visit(e, reduce) + ([TRBracket] + rest)) == Got(Array(qs, Size(e)), rest)
    ensures BeginsExpr(Visit(e, reduce) + ([TRBracket] + rest)) && !AtStar(Visit(e, reduce) + ([TRBracket] + rest))
    decreases e, 10
  {
    AssignmentBack(e, reduce, [TRBracket] + rest);
    assert ([TRBracket] + rest)[1..] == rest;
    Begins(e, reduce);
  }

  lemma {:induction false} QualifiedBack(m: Modifier, reduce: bool, rest: seq<Token>)
    requires m.Array? && ShapeOfMod(true, true, m) == Printable && m.dim != Star
    ensures ParseQualifiedArray(DimTokens(m, reduce, rest)) == Got(m, rest)
    ensures !AtStar(DimTokens(m, reduce, rest)) && !AtStar(ParseQuals(DimTokens(m, reduce, rest)).1)
    decreases m, 0
  {
    var qs, n := m.dimQuals, |m.dimQuals|;
    var tail := VisitDim(m.dim, reduce) + ([TRBracket] + rest);
    if m.dim == NoDim {
      assert tail == [TRBracket] + rest && tail[1..] == rest;
      DimQualsBack(qs, tail);
    } else {
      SizedBack(qs, m.dim.size, reduce, rest);
      if n > 0 && qs[0].Static? {
        StepStaticFirst(m, tail, rest);
      } else if n > 0 && qs[n - 1].Static? {
        StepStaticLast(m, tail, rest);
      } else {
        DimQualsBack(qs, tail);
      }
    }
  }

  lemma StepStaticFirst(m: Modifier, tail: seq<Token>, rest: seq<Token>)
    requires m.Array? && m.dimQuals != [] && m.dimQuals[0].Static?
    requires forall i | 1 <= i < |m.dimQuals| :: m.dimQuals[i].Qualifier?
    requires StartsUnary(tail) && CloseSized(m.dimQuals, tail) == Got(m, rest)
    ensures At(DimQuals(m.dimQuals) + tail, TStatic)
    ensures ParseQualifiedArray(DimQuals(m.dimQuals) + tail) == Got(m, rest)
  {
    var qs := m.dimQuals;
    var ts := DimQuals(qs) + tail;
    assert ts[1..] == DimQuals(qs[1..]) + tail;
    DimQualsBack(qs[1..], tail);
    assert [Static] + qs[1..] == qs;
  }

  lemma StepStaticLast(m: Modifier, tail: seq<Token>, rest: seq<Token>)
    requires m.Array? && m.dimQuals != [] && m.dimQuals[|m.dimQuals| - 1].Static?
    requires forall i | 0 <= i < |m.dimQuals| - 1 :: m.dimQuals[i].Qualifier?
    requires |m.dimQuals| > 1
    requires CloseSized(m.dimQuals, tail) == Got(m, rest)
    ensures !At(DimQuals(m.dimQuals) + tail, TBin(Times))
    ensures At(ParseQuals(DimQuals(m.dimQuals) + tail).1, TStatic)
    ensures ParseQualifiedArray(DimQuals(m.dimQuals) + tail) == Got(m, rest)
  {
    var qs := m.dimQuals;
    var init := qs[..|qs| - 1];
    assert DimQuals(qs) + tail == DimQuals(init) + ([TStatic] + tail);
    assert ([TStatic] + tail)[1..] == tail;
    DimQualsBack(init, [TStatic] + tail);
    assert init + [Static] == qs;
  }

  lemma {:induction false} NamedArrayBack(m: Modifier, first: bool, reduce: bool, rest: seq<Token>)
    requires m.Array? && ShapeOfMod(true, first, m) == Printable
    ensures At(VisitSuffix(m, reduce) + rest, TLBracket)
    ensures ParseNamedArray((VisitSuffix(m, reduce) + rest)[1..]) == Got(m, rest)
    decreases m, 1
  {
    ArraySplit(m, reduce, rest);
    if m.dim == Star {
      var tail := [TBin(Times)] + ([TRBracket] + rest);
      assert DimTokens(m, reduce, rest) == DimQuals(m.dimQuals) + tail;
      DimQualsBack(m.dimQuals, tail);
      assert tail[1..] == [TRBracket] + rest && tail[2..] == rest;
    } else {
      QualifiedBack(m, reduce, rest);
    }
  }

  lemma {:induction false} FirstArrayBack(m: Modifier, reduce: bool, rest: seq<Token>)
    requires m.Array? && ShapeOfMod(false, true, m) == Printable
    ensures At(VisitSuffix(m, reduce) + rest, TLBracket)
    ensures ParseFirstArray((VisitSuffix(m, reduce) + rest)[1..]) == Got(m, rest)
    decreases m, 1
  {
    ArraySplit(m, reduce, rest);
    QualifiedBack(m, reduce, rest);
  }

  lemma {:induction false} LaterArrayBack(m: Modifier, reduce: bool, rest: seq<Token>)
    requires m.Array? && ShapeOfMod(false, false, m) == Printable
    ensures At(VisitSuffix(m, reduce) + rest, TLBracket)
    ensures ParseLaterArray((VisitSuffix(m, reduce) + rest)[1..]) == Got(m, rest)
    decreases m, 1
  {
    ArraySplit(m, reduce, rest);
    if m.dim.Size? {
      SizedBack([], m.dim.size, reduce, rest);
      assert DimTokens(m, reduce, rest) == Visit(m.dim.size, reduce) + ([TRBracket] + rest);
    } else {
      UnsizedLater(m, reduce, rest);
    }
  }

  lemma UnsizedLater(m: Modifier, reduce: bool, rest: seq<Token>)
    requires m.Array? && m.dimQuals == [] && (m.dim == NoDim || m.dim == Star)
    ensures ParseLaterArray(DimTokens(m, reduce, rest)) == Got(m, rest)
  {
    var close := [TRBracket] + rest;
    assert close[1..] == rest;
    if m.dim == NoDim {
      assert DimTokens(m, reduce, rest) == close;
    } else {
      var ts := [TBin(Times)] + close;
      assert DimTokens(m, reduce, rest) == ts;
      assert ts[1..] == close && ts[2..] == rest;
    }
  }

  // ----- parameters -----

  lemma {:induction false} ArgsBack(a: Args, named: bool, first: bool, reduce: bool, rest: seq<Token>)
    requires ShapeOfMod(named, first, Func(a)) == Printable
    ensures ParseArgs(VisitArgs(a, reduce) + ([TRParen] + rest), named) == Got(Func(a), rest)
    ensures StartsNested(VisitArgs(a, reduce) + ([TRParen] + rest)) ==> named
    decreases a, 0
  {
    if a.Params? {
      var ts := VisitParams(a.params, a.ellipsis, reduce) + ([TRParen] + rest);
      assert VisitArgs(a, reduce) + ([TRParen] + rest) == ts;
      ParamsBack(a.params, a.ellipsis, reduce, [TRParen] + rest);
      StepParams(a, named, ts, rest);
    } else {
      NamesBack(a, named, reduce, rest);
    }
  }

  lemma NamesBack(a: Args, named: bool, reduce: bool, rest: seq<Token>)
    requires a.NoArgs? || (a.Names? && named && a.ids != [])
    ensures ParseArgs(VisitArgs(a, reduce) + ([TRParen] + rest), named) == Got(Func(a), rest)
    ensures StartsNested(VisitArgs(a, reduce) + ([TRParen] + rest)) ==> named
  {
    assert ([TRParen] + rest)[1..] == rest;
    if a.NoArgs? {
      assert VisitArgs(a, reduce) + ([TRParen] + rest) == [TRParen] + rest;
    } else {
      IdentsBack(a.ids, [TRParen] + rest);
    }
  }

  lemma StepParams(a: Args, named: bool, ts: seq<Token>, rest: seq<Token>)
    requires StartsParam(ts) && ParseParams(ts) == Got(a, [TRParen] + rest)
    ensures ParseArgs(ts, named) == Got(Func(a), rest) && !StartsNested(ts)
  {
    assert ([TRParen] + rest)[1..] == rest;
  }

  predicate StartsParam(ts: seq<Token>) {
    ts != [] && (ts[0].TStorage? || ts[0].TQual? || ts[0].TWord?)
  }

  lemma ParamsSplit(ps: seq<Param>, ellipsis: bool, reduce: bool, rest: seq<Token>)
    requires |ps| > 1 || (ps != [] && ellipsis)
    ensures VisitParams(ps, ellipsis, reduce) + rest
         == VisitParam(ps[0], reduce) + ([TComma] + (VisitParams(ps[1..], ellipsis, reduce) + rest))
  {
    Regroup(VisitParam(ps[0], reduce), [TComma], VisitParams(ps[1..], ellipsis, reduce), rest);
  }

  lemma StepParam(p: Param, ps: seq<Param>, ellipsis: bool, ts: seq<Token>, more: seq<Token>, rest: seq<Token>)
    requires ParseParam(ts) == Got(p, [TComma] + more)
    requires StartsParam(more) && ParseParams(more) == Got(Params(ps, ellipsis), rest)
    ensures ParseParams(ts) == Got(Params([p] + ps, ellipsis), rest)
  {
    assert ([TComma] + more)[1..] == more;
  }

  lemma JoinParams(ps: seq<Param>, ellipsis: bool, text: seq<Token>, more: seq<Token>, rest: seq<Token>)
    requires |ps| > 1
    requires ParseParam(text) == Got(ps[0], [TComma] + more)
    requires StartsParam(more) && ParseParams(more) == Got(Params(ps[1..], ellipsis), rest)
    ensures ParseParams(text) == Got(Params(ps, ellipsis), rest)
  {
    StepParam(ps[0], ps[1..], ellipsis, text, more, rest);
    assert [ps[0]] + ps[1..] == ps;
  }

  lemma StepLastParam(p: Param, ellipsis: bool, ts: seq<Token>, rest: seq<Token>)
    requires ParseParam(ts) == Got(p, if ellipsis then [TComma] + ([TEllipsis] + rest) else rest)
    requires At(rest, TRParen)
    ensures ParseParams(ts) == Got(Params([p], ellipsis), rest)
  {
    if ellipsis {
      var more := [TComma] + ([TEllipsis] + rest);
      assert more[1..] == [TEllipsis] + rest && more[2..] == rest;
    }
  }

  lemma {:induction false} ParamsBack(ps: seq<Param>, ellipsis: bool, reduce: bool, rest: seq<Token>)
    requires ps != [] && At(rest, TRParen)
    requires forall i | 0 <= i < |ps| :: ShapeOfParam(ps[i]) == Printable
    ensures StartsParam(VisitParams(ps, ellipsis, reduce) + rest)
    ensures ParseParams(VisitParams(ps, ellipsis, reduce) + rest) == Got(Params(ps, ellipsis), rest)
    decreases ps, 1
  {
    if |ps| > 1 {
      var more := VisitParams(ps[1..], ellipsis, reduce) + rest;
      ParamBack(ps[0], reduce, [TComma] + more);
      ParamsBack(ps[1..], ellipsis, reduce, rest);
      ParamsSplit(ps, ellipsis, reduce, rest);
      JoinParams(ps, ellipsis, VisitParams(ps, ellipsis, reduce) + rest, more, rest);
    } else {
      LastParamBack(ps, ellipsis, reduce, rest);
    }
  }

  lemma {:induction false} LastParamBack(ps: seq<Param>, ellipsis: bool, reduce: bool, rest: seq<Token>)
    requires |ps| == 1 && At(rest, TRParen) && ShapeOfParam(ps[0]) == Printable
    ensures StartsParam(VisitParams(ps, ellipsis, reduce) + rest)
    ensures ParseParams(VisitParams(ps, ellipsis, reduce) + rest) == Got(Params(ps, ellipsis), rest)
    decreases ps, 0
  {
    var after := if ellipsis then [TComma] + ([TEllipsis] + rest) else rest;
    LastParamSplit(ps, ellipsis, reduce, rest);
    ParamBack(ps[0], reduce, after);
    StepLastParam(ps[0], ellipsis, VisitParam(ps[0], reduce) + after, rest);
    assert [ps[0]] == ps;
  }

  lemma LastParamSplit(ps: seq<Param>, ellipsis: bool, reduce: bool, rest: seq<Token>)
    requires |ps| == 1
    ensures VisitParams(ps, ellipsis, reduce) + rest
         == VisitParam(ps[0], reduce) + (if ellipsis then [TComma] + ([TEllipsis] + rest) else rest)
  {
    if ellipsis {
      ParamsSplit(ps, ellipsis, reduce, rest);
      assert ps[1..] == [] && VisitParams(ps[1..], ellipsis, reduce) == [TEllipsis];
    } else {
      assert VisitParams(ps, ellipsis, reduce) == VisitParam(ps[0], reduce);
    }
  }

  lemma {:induction false} ParamBack(p: Param, reduce: bool, rest: seq<Token>)
    requires ShapeOfParam(p) == Printable && EndsChain(rest)
    ensures StartsParam(VisitParam(p, reduce) + rest)
    ensures ParseParam(VisitParam(p, reduce) + rest) == Got(p, rest)
    decreases p, 0
  {
    var chain := VisitChain(p.declname, p.mods, reduce) + rest;
    Regroup4(Storages(p.storage), Quals(p.quals), Words(p.names), VisitChain(p.declname, p.mods, reduce), rest);
    ChainBegins(p.declname, p.mods, reduce);
    SpecsBack(p.storage, p.quals, p.names, chain);
    ChainBack(p.declname, p.mods, reduce, rest);
  }
}
