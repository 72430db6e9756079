/** The parentheses that the reduced form keeps around binary operands are necessary:
    without them the text parses to another tree. */
module CParentheses {
  import opened CSyntax
  import opened CPrinter
  import opened CParser
  import opened CRoundTrip
  import opened CRoundTripExact

  /** A binary expression with the operand on one side printed without parentheses. */
  function WithoutParens(e: Expr, isLeft: bool): seq<Token>
    requires e.BinaryOp?
  {
    if isLeft then Visit(e.left, true) + ([TBin(e.op)] + Side(e.right, e.op, false, true))
    else Side(e.left, e.op, true, true) + ([TBin(e.op)] + Visit(e.right, true))
  }

  /** What `l op r` reads as when `l` binds looser and stands bare: the operator takes
      hold inside `l`, as far right as it binds tighter. */
  function GraftRight(l: Expr, op: BinOp, r: Expr): Expr
    requires l.BinaryOp? && Prec(l.op) < Prec(op)
    decreases l
  {
    var x := l.right;
    BinaryOp(l.op, l.left,
             if x.BinaryOp? && Prec(l.op) < Prec(x.op) < Prec(op) then GraftRight(x, op, r) else BinaryOp(op, x, r))
  }

  /** What `l op r` reads as when `r` does not bind tighter and stands bare. */
  function GraftLeft(l: Expr, op: BinOp, r: Expr): Expr
    requires r.BinaryOp? && Prec(r.op) <= Prec(op)
    decreases r
  {
    var x := r.left;
    BinaryOp(r.op,
             if x.BinaryOp? && Prec(r.op) <= Prec(x.op) <= Prec(op) then GraftLeft(l, op, x) else BinaryOp(op, l, x),
             r.right)
  }

  lemma BareSide(e: Expr, op: BinOp, isLeft: bool)
    requires e.BinaryOp? && Bare(e, op, isLeft, true)
    ensures Side(e, op, isLeft, true) == Visit(e, true)
  {
    assert VisitExpr(e, true) == Visit(e, true);
  }

  /** An operand gets the same parentheses in two positions that agree on whether it is bare. */
  lemma SameSide(e: Expr, op: BinOp, isLeft: bool, op': BinOp, isLeft': bool)
    requires Bare(e, op, isLeft, true) == Bare(e, op', isLeft', true)
    ensures Side(e, op, isLeft, true) == Side(e, op', isLeft', true)
  {
  }

  /** The right operand of `lop` after the graft, where the operator sinks into it. */
  lemma SunkRight(x: Expr, y: Expr, lop: BinOp, tail: seq<Token>)
    requires x.BinaryOp? && y.BinaryOp? && y.op == x.op && Prec(lop) < Prec(x.op)
    requires Visit(y, true) == Visit(x, true) + tail
    ensures Side(y, lop, false, true) == Side(x, lop, false, true) + tail
  {
    BareSide(x, lop, false);
    BareSide(y, lop, false);
  }

  /** The right operand of `lop` after the graft, where the operator stops at it. */
  lemma TopRight(x: Expr, op: BinOp, r: Expr, lop: BinOp)
    requires Prec(lop) < Prec(op)
    requires !(x.BinaryOp? && Prec(lop) < Prec(x.op) < Prec(op))
    ensures (Side(BinaryOp(op, x, r), lop, false, true)
             == Side(x, lop, false, true) + ([TBin(op)] + Side(r, op, false, true)))
  {
    SameSide(x, op, true, lop, false);
    BareSide(BinaryOp(op, x, r), lop, false);
  }

  lemma SunkLeft(x: Expr, y: Expr, rop: BinOp, front: seq<Token>)
    requires x.BinaryOp? && y.BinaryOp? && y.op == x.op && Prec(rop) <= Prec(x.op)
    requires Visit(y, true) == front + Visit(x, true)
    ensures Side(y, rop, true, true) == front + Side(x, rop, true, true)
  {
    BareSide(x, rop, true);
    BareSide(y, rop, true);
  }

  lemma TopLeft(l: Expr, op: BinOp, x: Expr, rop: BinOp)
    requires Prec(rop) <= Prec(op)
    requires !(x.BinaryOp? && Prec(rop) <= Prec(x.op) <= Prec(op))
    ensures (Side(BinaryOp(op, l, x), rop, true, true)
             == Side(l, op, true, true) + ([TBin(op)] + Side(x, rop, true, true)))
  {
    SameSide(x, op, false, rop, true);
    BareSide(BinaryOp(op, l, x), rop, true);
  }

  lemma VisitBinary(op: BinOp, l: Expr, r: Expr)
    ensures (Visit(BinaryOp(op, l, r), true)
             == Side(l, op, true, true) + ([TBin(op)] + Side(r, op, false, true)))
  {
  }

  lemma AppendRight(l: Expr, y: Expr, tail: seq<Token>)
    requires l.BinaryOp?
    requires Side(y, l.op, false, true) == Side(l.right, l.op, false, true) + tail
    ensures Visit(BinaryOp(l.op, l.left, y), true) == Visit(l, true) + tail
  {
    VisitBinary(l.op, l.left, y);
    VisitBinary(l.op, l.left, l.right);
    Regroup(Side(l.left, l.op, true, true), [TBin(l.op)], Side(l.right, l.op, false, true), tail);
  }

  lemma PrependLeft(r: Expr, y: Expr, front: seq<Token>)
    requires r.BinaryOp?
    requires Side(y, r.op, true, true) == front + Side(r.left, r.op, true, true)
    ensures Visit(BinaryOp(r.op, y, r.right), true) == front + Visit(r, true)
  {
    VisitBinary(r.op, y, r.right);
    VisitBinary(r.op, r.left, r.right);
    Associate(front, Side(r.left, r.op, true, true), [TBin(r.op)] + Side(r.right, r.op, false, true));
  }

  lemma ShapeOfBinary(op: BinOp, l: Expr, r: Expr)
    ensures ShapeOf(BinaryOp(op, l, r)) == Printable <==> ShapeOf(l) == Printable && ShapeOf(r) == Printable
  {
  }

  lemma {:induction false} GraftRightWellFormed(l: Expr, op: BinOp, r: Expr)
    requires l.BinaryOp? && Prec(l.op) < Prec(op) && ShapeOf(l) == Printable && ShapeOf(r) == Printable
    ensures ShapeOf(GraftRight(l, op, r)) == Printable
    decreases l
  {
    var x := l.right;
    ShapeOfBinary(l.op, l.left, x);
    if x.BinaryOp? && Prec(l.op) < Prec(x.op) < Prec(op) {
      GraftRightWellFormed(x, op, r);
      ShapeOfBinary(l.op, l.left, GraftRight(x, op, r));
    } else {
      ShapeOfBinary(op, x, r);
      ShapeOfBinary(l.op, l.left, BinaryOp(op, x, r));
    }
  }

  lemma {:induction false} GraftLeftWellFormed(l: Expr, op: BinOp, r: Expr)
    requires r.BinaryOp? && Prec(r.op) <= Prec(op) && ShapeOf(l) == Printable && ShapeOf(r) == Printable
    ensures ShapeOf(GraftLeft(l, op, r)) == Printable
    decreases r
  {
    var x := r.left;
    ShapeOfBinary(r.op, x, r.right);
    if x.BinaryOp? && Prec(r.op) <= Prec(x.op) <= Prec(op) {
      GraftLeftWellFormed(l, op, x);
      ShapeOfBinary(r.op, GraftLeft(l, op, x), r.right);
    } else {
      ShapeOfBinary(op, l, x);
      ShapeOfBinary(r.op, BinaryOp(op, l, x), r.right);
    }
  }

  /** Printing the grafted tree gives the bare text, its left operand unparenthesised. */
  lemma {:induction false} GraftRightPrints(l: Expr, op: BinOp, r: Expr)
    requires l.BinaryOp? && Prec(l.op) < Prec(op)
    ensures Visit(GraftRight(l, op, r), true) == Visit(l, true) + ([TBin(op)] + Side(r, op, false, true))
    decreases l
  {
    var x := l.right;
    var tail := [TBin(op)] + Side(r, op, false, true);
    if x.BinaryOp? && Prec(l.op) < Prec(x.op) < Prec(op) {
      var y := GraftRight(x, op, r);
      GraftRightPrints(x, op, r);
      SunkRight(x, y, l.op, tail);
      AppendRight(l, y, tail);
    } else {
      TopRight(x, op, r, l.op);
      AppendRight(l, BinaryOp(op, x, r), tail);
    }
  }

  lemma {:induction false} GraftLeftPrints(l: Expr, op: BinOp, r: Expr)
    requires r.BinaryOp? && Prec(r.op) <= Prec(op)
    ensures Visit(GraftLeft(l, op, r), true) == Side(l, op, true, true) + ([TBin(op)] + Visit(r, true))
    decreases r
  {
    var x := r.left;
    var front := Side(l, op, true, true) + [TBin(op)];
    if x.BinaryOp? && Prec(r.op) <= Prec(x.op) <= Prec(op) {
      var y := GraftLeft(l, op, x);
      GraftLeftPrints(l, op, x);
      Associate(Side(l, op, true, true), [TBin(op)], Visit(x, true));
      SunkLeft(x, y, r.op, front);
      PrependLeft(r, y, front);
    } else {
      TopLeft(l, op, x, r.op);
      Associate(Side(l, op, true, true), [TBin(op)], Side(x, r.op, true, true));
      PrependLeft(r, BinaryOp(op, l, x), front);
    }
    Associate(Side(l, op, true, true), [TBin(op)], Visit(r, true));
  }

  lemma GraftsDiffer(l: Expr, op: BinOp, r: Expr)
    ensures l.BinaryOp? && Prec(l.op) < Prec(op) ==> GraftRight(l, op, r) != BinaryOp(op, l, r)
    ensures r.BinaryOp? && Prec(r.op) <= Prec(op) ==> GraftLeft(l, op, r) != BinaryOp(op, l, r)
  {
    if r.BinaryOp? {
      SmallerPart(r);
    }
  }

  lemma SmallerPart(e: Expr)
    requires e.BinaryOp?
    ensures e.right != e
  {
    assert e.right < e;
  }

  /** Leaving the parentheses around a binary operand off keeps the tree exactly when
      the generator leaves them off: a tighter operator, or on the left an equal one. */
  lemma ParenthesesAreNecessary(e: Expr, isLeft: bool)
    requires e.BinaryOp? && WellFormed(e)
    requires if isLeft then e.left.BinaryOp? else e.right.BinaryOp?
    ensures Parse(WithoutParens(e, isLeft)) == Got(e, [])
       <==> Bare(if isLeft then e.left else e.right, e.op, isLeft, true)
  {
    var child := if isLeft then e.left else e.right;
    if Bare(child, e.op, isLeft, true) {
      BareSide(child, e.op, isLeft);
      assert WithoutParens(e, isLeft) == Visit(e, true);
      PrintThenParse(e, true);
    } else {
      GraftsDiffer(e.left, e.op, e.right);
      if isLeft {
        GraftRightPrints(e.left, e.op, e.right);
        GraftRightWellFormed(e.left, e.op, e.right);
        PrintThenParse(GraftRight(e.left, e.op, e.right), true);
      } else {
        GraftLeftPrints(e.left, e.op, e.right);
        GraftLeftWellFormed(e.left, e.op, e.right);
        PrintThenParse(GraftLeft(e.left, e.op, e.right), true);
      }
    }
  }
}
