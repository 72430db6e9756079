/** What the passes do to the tree of a function: each edits one place, leaves every other
    place alone, and can be undone by one more edit. */
module PassEdits {
  import opened Prelude
  import opened CSemantics
  import opened Congruence
  import opened Rewrites
  import opened Passes

  // ----- editing one place -----

  lemma KidReplaced(e: Expr, i: nat, x: Expr)
    requires i < |Kids(e)|
    ensures Kids(WithKid(e, i, x)) == Kids(e)[i := x] && WithKid(WithKid(e, i, x), i, Kids(e)[i]) == e
    ensures forall k: nat, lvalue :: LvalueKid(WithKid(e, i, x), k, lvalue) == LvalueKid(e, k, lvalue)
  {
  }

  /** The new expression is found where it was put, and putting the old one back undoes it. */
  lemma {:induction false} ReplacedIsUndone(e: Expr, path: seq<nat>, lvalue: bool, x: Expr)
    requires Replaceable(e, path, lvalue)
    ensures var r := Replace(e, path, lvalue, x);
            && Replaceable(r, path, lvalue) && Congruence.Sub(r, path, lvalue) == x
            && Replace(r, path, lvalue, Congruence.Sub(e, path, lvalue)) == e
    decreases |path|
  {
    if |path| > 0 {
      var inner := LvalueKid(e, path[0], lvalue);
      ReplacedIsUndone(Kids(e)[path[0]], path[1..], inner, x);
      KidReplaced(e, path[0], Replace(Kids(e)[path[0]], path[1..], inner, x));
    }
  }

  /** Two paths neither of which leads through the end of the other. */
  predicate Apart(p: seq<nat>, q: seq<nat>)
    decreases |p|
  {
    |p| > 0 && |q| > 0 && (p[0] != q[0] || Apart(p[1..], q[1..]))
  }

  /** Every other place of the expression is as it was. */
  lemma {:induction false} ReplacedElsewhere(e: Expr, path: seq<nat>, lvalue: bool, x: Expr, other: seq<nat>)
    requires Replaceable(e, path, lvalue) && Replaceable(e, other, lvalue) && Apart(path, other)
    ensures var r := Replace(e, path, lvalue, x);
            Replaceable(r, other, lvalue) && Congruence.Sub(r, other, lvalue) == Congruence.Sub(e, other, lvalue)
    decreases |path|
  {
    var inner := LvalueKid(e, path[0], lvalue);
    KidReplaced(e, path[0], Replace(Kids(e)[path[0]], path[1..], inner, x));
    if path[0] == other[0] {
      ReplacedElsewhere(Kids(e)[path[0]], path[1..], inner, x, other[1..]);
    }
  }

  lemma PartReplaced(s: Stmt, i: nat, t: Stmt)
    requires i < |Parts(s)|
    ensures Parts(WithPart(s, i, t)) == Parts(s)[i := t] && WithPart(WithPart(s, i, t), i, Parts(s)[i]) == s
  {
  }

  lemma {:induction false} StmtReplacedIsUndone(s: Stmt, path: seq<nat>, t: Stmt)
    requires HasStmt(s, path)
    ensures var r := ReplaceStmt(s, path, t);
            && HasStmt(r, path) && StmtAt(r, path) == t
            && ReplaceStmt(r, path, StmtAt(s, path)) == s
    decreases |path|
  {
    if |path| > 0 {
      StmtReplacedIsUndone(Parts(s)[path[0]], path[1..], t);
      PartReplaced(s, path[0], ReplaceStmt(Parts(s)[path[0]], path[1..], t));
    }
  }

  /** Every other statement is as it was. */
  lemma {:induction false} StmtReplacedElsewhere(s: Stmt, path: seq<nat>, t: Stmt, other: seq<nat>)
    requires HasStmt(s, path) && HasStmt(s, other) && Apart(path, other)
    ensures HasStmt(ReplaceStmt(s, path, t), other)
    ensures StmtAt(ReplaceStmt(s, path, t), other) == StmtAt(s, other)
    decreases |path|
  {
    PartReplaced(s, path[0], ReplaceStmt(Parts(s)[path[0]], path[1..], t));
    if path[0] == other[0] {
      StmtReplacedElsewhere(Parts(s)[path[0]], path[1..], t, other[1..]);
    }
  }

  lemma SlotReplaced(s: Stmt, i: nat, x: Expr)
    requires Slot(s, i).Some?
    ensures Slot(WithSlot(s, i, x), i) == Some(x) && WithSlot(WithSlot(s, i, x), i, Slot(s, i).value) == s
    ensures forall k: nat | k != i :: Slot(WithSlot(s, i, x), k) == Slot(s, k)
    ensures Parts(WithSlot(s, i, x)) == Parts(s)
  {
  }

  /** An expression put anywhere in a function is found there, and the old one can be put
      back. */
  lemma ExprReplacedIsUndone(fn: Stmt, at: Position, x: Expr)
    requires HasExpr(fn, at)
    ensures HasExpr(ReplaceExpr(fn, at, x), at) && ExprAt(ReplaceExpr(fn, at, x), at) == x
    ensures ReplaceExpr(ReplaceExpr(fn, at, x), at, ExprAt(fn, at)) == fn
  {
    var t := StmtAt(fn, at.stmt);
    var e := Slot(t, at.slot).value;
    var e' := Replace(e, at.path, false, x);
    var t' := WithSlot(t, at.slot, e');
    ReplacedIsUndone(e, at.path, false, x);
    SlotReplaced(t, at.slot, e');
    StmtReplacedIsUndone(fn, at.stmt, t');
  }

  // ----- what each pass inserts, and how to take it out again -----

  lemma {:induction false} NotItsOperand(e: Expr)
    ensures e.Binary? ==> e.left != e
    ensures e.Unary? ==> e.arg != e
    decreases e
  {
    if e.Binary? {
      NotItsOperand(e.left);
    } else if e.Unary? {
      NotItsOperand(e.arg);
    }
  }

  /** The neutral operation is there, and its left operand put in its place restores the
      function. */
  lemma XorZeroIsUndone(fn: Stmt, at: Position)
    requires HasExpr(fn, at)
    ensures var r := ReplaceExpr(fn, at, XoredWithZero(ExprAt(fn, at)));
            && r != fn && HasExpr(r, at)
            && ExprAt(r, at).Binary? && ExprAt(r, at).op == BitXor && ExprAt(r, at).right == Const(0)
            && ReplaceExpr(r, at, ExprAt(r, at).left) == fn
  {
    var e := ExprAt(fn, at);
    ExprReplacedIsUndone(fn, at, XoredWithZero(e));
    NotItsOperand(XoredWithZero(e));
  }

  /** Swapping the operands twice restores the function. */
  lemma CommutedIsUndone(fn: Stmt, at: Position)
    requires HasExpr(fn, at) && ExprAt(fn, at).Binary?
    ensures var r := ReplaceExpr(fn, at, Commuted(ExprAt(fn, at)));
            && HasExpr(r, at) && ExprAt(r, at).Binary?
            && ReplaceExpr(r, at, Commuted(ExprAt(r, at))) == fn
  {
    ExprReplacedIsUndone(fn, at, Commuted(ExprAt(fn, at)));
    assert Commuted(Commuted(ExprAt(fn, at))) == ExprAt(fn, at);
  }

  /** A contracted assignment is expanded again to what it was; an expanded one is contracted
      again exactly when its operator is one that the pass contracts. The remainder is not. */
  lemma ToggledIsUndone(e: Expr)
    requires e.Assign? && Toggled(e).Some?
    ensures Toggled(e).value.Assign? && Toggled(e).value.with.Some? == e.with.None?
    ensures Toggled(Toggled(e).value) == Some(e)
       <==> (e.with.Some? ==> e.with.value in {Add, Sub, Mul, Div, Shl, Shr, BitXor, BitOr, BitAnd})
    ensures Toggled(Toggled(e).value).None? <==> Toggled(Toggled(e).value) != Some(e)
  {
  }

  /** One more step of the same pass restores every condition, with the right choices. */
  lemma ConditionIsUndone(fn: Stmt, path: seq<nat>, slot: nat, strip: bool, negate: bool)
    requires HasStmt(fn, path) && IsCondition(StmtAt(fn, path), slot) && Slot(StmtAt(fn, path), slot).Some?
    requires NewCondition(Slot(StmtAt(fn, path), slot).value, strip, negate).Some?
    ensures var t := StmtAt(fn, path);
            var c := Slot(t, slot).value;
            var c' := NewCondition(c, strip, negate).value;
            var r := ReplaceStmt(fn, path, WithSlot(t, slot, c'));
            && c' != c && HasStmt(r, path) && Slot(StmtAt(r, path), slot) == Some(c')
            && (exists strip', negate' :: NewCondition(c', strip', negate') == Some(c))
            && ReplaceStmt(r, path, WithSlot(StmtAt(r, path), slot, c)) == fn
  {
    var t := StmtAt(fn, path);
    var c := Slot(t, slot).value;
    var c' := NewCondition(c, strip, negate).value;
    SlotReplaced(t, slot, c');
    StmtReplacedIsUndone(fn, path, WithSlot(t, slot, c'));
    ConditionChoices(c, strip, negate);
  }

  lemma ConditionChoices(c: Expr, strip: bool, negate: bool)
    requires NewCondition(c, strip, negate).Some?
    ensures NewCondition(c, strip, negate).value != c
    ensures exists strip', negate' :: NewCondition(NewCondition(c, strip, negate).value, strip', negate') == Some(c)
  {
    var c' := NewCondition(c, strip, negate).value;
    if c.Binary? && (IsInequality(c.op) || c.op == EqEq || c.op == NotEq) && strip {
      assert NewCondition(c', false, c.op == EqEq) == Some(c);
      NotItsOperand(c);
    } else {
      assert c'.Binary? && (c'.op == EqEq || c'.op == NotEq) && c'.right == Const(0);
      assert NewCondition(c', true, negate) == Some(c);
      NotItsOperand(c');
    }
  }

  /** The factors of a product, however it is nested and ordered. */
  function FactorsOf(e: Expr): multiset<Expr> {
    if e.Binary? && e.op == Mul then FactorsOf(e.left) + FactorsOf(e.right) else multiset{e}
  }

  lemma TimesFactors(e: Expr, c: int)
    ensures FactorsOf(Binary(Mul, e, Const(c))) == FactorsOf(e) + multiset{Const(c)}
    ensures FactorsOf(Binary(Mul, Const(c), e)) == FactorsOf(e) + multiset{Const(c)}
  {
    var k := Const(c);
    assert FactorsOf(k) == multiset{k};
    assert FactorsOf(Binary(Mul, e, k)) == FactorsOf(e) + FactorsOf(k);
    assert FactorsOf(Binary(Mul, k, e)) == FactorsOf(k) + FactorsOf(e);
  }

  /** The other factors stay, and in place of the constant there are the two new ones. */
  lemma FactoredFactors(e: Expr, val1: int, val2: int, swap1: bool, swap2: bool)
    ensures FactorsOf(Factored(e, val1, val2, swap1, swap2)) == FactorsOf(e) + multiset{Const(val1), Const(val2)}
  {
    TimesFactors(e, val1);
    TimesFactors(if swap1 then Binary(Mul, Const(val1), e) else Binary(Mul, e, Const(val1)), val2);
  }

  /** Where the wrapper stands in the new list. */
  function WrapperAt(lo: nat, doWhile: bool): nat {
    if doWhile then lo + 1 else lo
  }

  /** A wrapper of the chosen kind stands in place of the range, with the range as its only
      body, and taking the body out of it restores the list. */
  lemma WrappedIsUndone(items: seq<Stmt>, lo: nat, hi: nat, doWhile: bool)
    requires lo <= hi <= |items|
    ensures var r, k := Wrapped(items, lo, hi, doWhile), WrapperAt(lo, doWhile);
            && |r| == |items| - (hi - lo) + (if doWhile then 3 else 1)
            && Atoms(r[k]) == AtomsOfAll(items[lo..hi])
            && (if doWhile then r[k].DoWhile? && r[lo] == Pragma && r[lo + 2] == Pragma else r[k].If?)
            && Parts(r[k])[0].Block?
            && r[..lo] + Parts(r[k])[0].items + r[|r| - (|items| - hi)..] == items
  {
    var r, k := Wrapped(items, lo, hi, doWhile), WrapperAt(lo, doWhile);
    assert r[..lo] == items[..lo] && r[|r| - (|items| - hi)..] == items[hi..];
    assert Parts(r[k])[0] == Block(items[lo..hi]);
    assert Atoms(Block(items[lo..hi])) == AtomsOfAll(items[lo..hi]);
    assert items == items[..lo] + items[lo..hi] + items[hi..];
  }

  /** The statements that are neither made of others nor empty, in the order of the text. */
  function Atoms(s: Stmt): seq<Stmt> {
    match s
    case Empty => []
    case Pragma => []
    case Block(items) => AtomsOfAll(items)
    case If(_, iftrue, iffalse) => Atoms(iftrue) + Atoms(iffalse)
    case While(_, body) => Atoms(body)
    case DoWhile(body, _) => Atoms(body)
    case For(_, _, _, body) => Atoms(body)
    case _ => [s]
  }

  function AtomsOfAll(items: seq<Stmt>): seq<Stmt> {
    if |items| == 0 then [] else Atoms(items[0]) + AtomsOfAll(items[1..])
  }

  lemma {:induction false} AtomsConcat(a: seq<Stmt>, b: seq<Stmt>)
    ensures AtomsOfAll(a + b) == AtomsOfAll(a) + AtomsOfAll(b)
    decreases |a|
  {
    if |a| == 0 {
      assert a + b == b;
    } else {
      assert (a + b)[0] == a[0] && (a + b)[1..] == a[1..] + b;
      AtomsConcat(a[1..], b);
    }
  }

  lemma WrappingAtoms(range: seq<Stmt>, doWhile: bool)
    ensures AtomsOfAll(Wrapping(range, doWhile)) == AtomsOfAll(range)
  {
    var s := if doWhile then DoBlock(range) else IfBlock(range);
    assert Atoms(Block(range)) == AtomsOfAll(range) && Atoms(s) == AtomsOfAll(range);
    OneAtoms(s);
    OneAtoms(Pragma);
    if doWhile {
      assert Wrapping(range, doWhile) == [Pragma] + ([s] + [Pragma]);
      AtomsConcat([Pragma], [s] + [Pragma]);
      AtomsConcat([s], [Pragma]);
    }
  }

  lemma OneAtoms(s: Stmt)
    ensures AtomsOfAll([s]) == Atoms(s)
  {
    assert [s][1..] == [];
  }

  lemma MiddleAtoms(before: seq<Stmt>, a: seq<Stmt>, b: seq<Stmt>, after: seq<Stmt>)
    requires AtomsOfAll(a) == AtomsOfAll(b)
    ensures AtomsOfAll(before + (a + after)) == AtomsOfAll(before + (b + after))
  {
    AtomsConcat(a, after);
    AtomsConcat(b, after);
    AtomsConcat(before, a + after);
    AtomsConcat(before, b + after);
  }

  lemma WrappedParts(items: seq<Stmt>, lo: nat, hi: nat, doWhile: bool)
    requires lo <= hi <= |items|
    ensures items == items[..lo] + (items[lo..hi] + items[hi..])
    ensures Wrapped(items, lo, hi, doWhile) == items[..lo] + (Wrapping(items[lo..hi], doWhile) + items[hi..])
  {
  }

  /** Wrapping neither drops nor repeats nor reorders a statement. */
  lemma WrappedKeepsAtoms(items: seq<Stmt>, lo: nat, hi: nat, doWhile: bool)
    requires lo <= hi <= |items|
    ensures AtomsOfAll(Wrapped(items, lo, hi, doWhile)) == AtomsOfAll(items)
  {
    WrappedParts(items, lo, hi, doWhile);
    WrappingAtoms(items[lo..hi], doWhile);
    MiddleAtoms(items[..lo], Wrapping(items[lo..hi], doWhile), items[lo..hi], items[hi..]);
  }
}
