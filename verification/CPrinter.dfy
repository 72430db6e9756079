/** The C generator: where it puts parentheses and how it lays out declarators. */
module CPrinter {
  import opened CSyntax

  /** Nodes that always bind tighter than any operator. */
  predicate IsSimple(e: Expr) {
    e.Constant? || e.Id? || e.ArrayRef? || e.StructRef? || e.FuncCall?
  }

  function Parens(ts: seq<Token>): seq<Token> {
    [TLParen] + (ts + [TRParen])
  }

  function Prefix(op: UnOp): seq<Token> {
    match op
    case AddrOf => [TBin(And)]
    case Deref => [TBin(Times)]
    case Pos => [TBin(Plus)]
    case Neg => [TBin(Minus)]
    case BitNot => [TBitNot]
    case LogNot => [TLogNot]
    case PreInc => [TInc]
    case PreDec => [TDec]
    case Sizeof => [TSizeof]
    case PostInc | PostDec => []
  }

  /** May a binary operand be left bare on the given side of `op`? */
  predicate Bare(e: Expr, op: BinOp, isLeft: bool, reduce: bool) {
    || IsSimple(e)
    || (reduce && e.BinaryOp? && (if isLeft then Prec(e.op) >= Prec(op) else Prec(e.op) > Prec(op)))
  }

  function Visit(e: Expr, reduce: bool): seq<Token>
    decreases e, 0
  {
    match e
    case Constant(v) => [TConst(v)]
    case Id(n) => [TId(n)]
    case ArrayRef(b, s) => UnlessSimple(b, reduce) + ([TLBracket] + (Visit(s, reduce) + [TRBracket]))
    case StructRef(b, arrow, f) => UnlessSimple(b, reduce) + [if arrow then TArrow else TPeriod, TId(f)]
    case FuncCall(f, args) => UnlessSimple(f, reduce) + Parens(VisitList(args, reduce))
    case UnaryOp(op, x) =>
      if op == Sizeof then [TSizeof] + Parens(Visit(x, reduce))
      else if op == PostInc then UnlessSimple(x, reduce) + [TInc]
      else if op == PostDec then UnlessSimple(x, reduce) + [TDec]
      else Prefix(op) + UnlessSimple(x, reduce)
    case TypeUnary(op, t) =>
      [if op == SizeofType then TSizeof else TAlignof] + Parens(VisitTypeName(t, reduce))
    case Cast(t, x) => Parens(VisitTypeName(t, reduce)) + UnlessSimple(x, reduce)
    case BinaryOp(op, l, r) => Side(l, op, true, reduce) + ([TBin(op)] + Side(r, op, false, reduce))
    case TernaryOp(c, a, b) =>
      Parens(VisitExpr(c, reduce))
      + ([TCondOp] + (Parens(VisitExpr(a, reduce)) + ([TColon] + Parens(VisitExpr(b, reduce)))))
    case Assignment(op, l, r) => Visit(l, reduce) + ([TAssign(op)] + Rvalue(r, reduce))
    case ExprList(es) => VisitList(es, reduce)
  }

  /** A node in a position where a comma list needs parentheses. */
  function VisitExpr(e: Expr, reduce: bool): seq<Token>
    decreases e, 1
  {
    if e.ExprList? then Parens(Visit(e, reduce)) else Visit(e, reduce)
  }

  function UnlessSimple(e: Expr, reduce: bool): seq<Token>
    decreases e, 2
  {
    if IsSimple(e) then VisitExpr(e, reduce) else Parens(VisitExpr(e, reduce))
  }

  /** An operand on the given side of `op`. */
  function Side(e: Expr, op: BinOp, isLeft: bool, reduce: bool): seq<Token>
    decreases e, 2
  {
    if Bare(e, op, isLeft, reduce) then VisitExpr(e, reduce) else Parens(VisitExpr(e, reduce))
  }

  /** The right-hand side of an assignment. */
  function Rvalue(e: Expr, reduce: bool): seq<Token>
    decreases e, 2
  {
    if e.Assignment? then Parens(VisitExpr(e, reduce)) else VisitExpr(e, reduce)
  }

  function VisitList(es: seq<Expr>, reduce: bool): seq<Token>
    decreases es, 0
  {
    if es == [] then []
    else if |es| == 1 then VisitExpr(es[0], reduce)
    else VisitExpr(es[0], reduce) + ([TComma] + VisitList(es[1..], reduce))
  }

  function Quals(qs: seq<string>): seq<Token> {
    seq(|qs|, i requires 0 <= i < |qs| => TQual(qs[i]))
  }

  function Storages(ss: seq<string>): seq<Token> {
    seq(|ss|, i requires 0 <= i < |ss| => TStorage(ss[i]))
  }

  function Words(ws: seq<Word>): seq<Token> {
    seq(|ws|, i requires 0 <= i < |ws| => TWord(ws[i]))
  }

  function Idents(ns: seq<string>): seq<Token> {
    if ns == [] then []
    else if |ns| == 1 then [TId(ns[0])]
    else [TId(ns[0]), TComma] + Idents(ns[1..])
  }

  function DimQuals(qs: seq<DimQual>): seq<Token> {
    seq(|qs|, i requires 0 <= i < |qs| => if qs[i].Static? then TStatic else TQual(qs[i].text))
  }

  function VisitTypeName(t: TypeName, reduce: bool): seq<Token>
    decreases t, 0
  {
    Quals(t.quals) + (Words(t.names) + VisitChain([], t.mods, reduce))
  }

  /** The declarator around a name (empty when abstract). Modifiers are wrapped
      around it from the outermost in; an array or function suffix on a pointer
      needs parentheses. */
  function VisitChain(name: seq<string>, mods: seq<Modifier>, reduce: bool): seq<Token>
    decreases mods, 0
  {
    if mods == [] then (if name == [] then [] else [TId(name[0])])
    else
      var init := mods[..|mods| - 1];
      var inner := VisitChain(name, init, reduce);
      match mods[|mods| - 1]
      case Ptr(qs) => [TBin(Times)] + (Quals(qs) + inner)
      case Array(qs, dim) => Wrapped(init, inner) + VisitSuffix(mods[|mods| - 1], reduce)
      case Func(args) => Wrapped(init, inner) + VisitSuffix(mods[|mods| - 1], reduce)
  }

  function Wrapped(init: seq<Modifier>, inner: seq<Token>): seq<Token> {
    if init != [] && init[|init| - 1].Ptr? then Parens(inner) else inner
  }

  function VisitSuffix(m: Modifier, reduce: bool): seq<Token>
    decreases m, 0
  {
    match m
    case Ptr(_) => []
    case Array(qs, dim) => [TLBracket] + (DimQuals(qs) + (VisitDim(dim, reduce) + [TRBracket]))
    case Func(args) => [TLParen] + (VisitArgs(args, reduce) + [TRParen])
  }

  function VisitDim(d: Dim, reduce: bool): seq<Token>
    decreases d, 0
  {
    match d
    case NoDim => []
    case Star => [TBin(Times)]
    case Bracket => [TRBracket]
    case Size(e) => Visit(e, reduce)
  }

  function VisitArgs(a: Args, reduce: bool): seq<Token>
    decreases a, 0
  {
    match a
    case NoArgs => []
    case Names(ids) => Idents(ids)
    case Params(ps, ellipsis) => VisitParams(ps, ellipsis, reduce)
  }

  function VisitParams(ps: seq<Param>, ellipsis: bool, reduce: bool): seq<Token>
    decreases ps, 0
  {
    if ps == [] then (if ellipsis then [TEllipsis] else [])
    else VisitParam(ps[0], reduce)
         + (if |ps| == 1 && !ellipsis then [] else [TComma] + VisitParams(ps[1..], ellipsis, reduce))
  }

  function VisitParam(p: Param, reduce: bool): seq<Token>
    decreases p, 0
  {
    Storages(p.storage) + (Quals(p.quals) + (Words(p.names) + VisitChain(p.declname, p.mods, reduce)))
  }
}
