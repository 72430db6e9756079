/** The passes on whole functions: each replaces one node anywhere in a function body,
    and the theorems say when every run stays what it was. */
module Passes {
  import opened Prelude
  import opened CSemantics
  import opened Congruence
  import opened Rewrites

  // ----- expressions -----

  /** Operands without side effects may always be swapped (`PureOrdersAgree`). */
  lemma CommutativePass(w: World, fn: Stmt, at: Position)
    requires MachineArithmetic(w) && HasExpr(fn, at)
    requires ExprAt(fn, at).Binary? && Commutes(ExprAt(fn, at).op)
    requires forall m: Mem :: OrdersAgree(w, ExprAt(fn, at), m)
    ensures SameRuns(w, fn, ReplaceExpr(fn, at, Commuted(ExprAt(fn, at))))
  {
    CommutedKeepsValue(w, ExprAt(fn, at));
    ReplaceExprKeepsRuns(w, fn, at, Commuted(ExprAt(fn, at)));
  }

  /** Unbounded integers have no edge, so that every move fits. */
  lemma InequalitiesPass(w: World, fn: Stmt, at: Position, move: Move)
    requires MachineArithmetic(w) && HasExpr(fn, at)
    requires ExprAt(fn, at).Binary? && IsInequality(ExprAt(fn, at).op)
    requires forall m: Mem :: MoveFits(w, ExprAt(fn, at), move, m)
    ensures SameRuns(w, fn, ReplaceExpr(fn, at, Moved(ExprAt(fn, at), move)))
  {
    MovedKeepsValue(w, ExprAt(fn, at), move);
    ReplaceExprKeepsRuns(w, fn, at, Moved(ExprAt(fn, at), move));
  }

  /** `factor` is any that the pass may choose for the constant. */
  lemma FactorMultPass(w: World, fn: Stmt, at: Position, e: Expr, val: int, factor: int, swap1: bool, swap2: bool)
    requires MachineArithmetic(w) && HasExpr(fn, at)
    requires ExprAt(fn, at) == Binary(Mul, e, Const(val)) || ExprAt(fn, at) == Binary(Mul, Const(val), e)
    requires factor != 0 && factor * (val / factor) == val
    ensures SameRuns(w, fn, ReplaceExpr(fn, at, Factored(e, factor, val / factor, swap1, swap2)))
  {
    FactoredKeepsValue(w, e, val, factor, val / factor, swap1, swap2);
    ReplaceExprKeepsRuns(w, fn, at, Factored(e, factor, val / factor, swap1, swap2));
  }

  lemma FactorShiftPass(w: World, fn: Stmt, at: Position, op: BinOp, e: Expr, rhs: int, val1: int)
    requires MachineArithmetic(w) && HasExpr(fn, at) && (op == Shl || op == Shr)
    requires ExprAt(fn, at) == Binary(op, e, Const(rhs))
    requires 1 <= val1 < rhs < HALF && (w.mode == Unbounded || rhs < 32)
    ensures SameRuns(w, fn, ReplaceExpr(fn, at, ShiftedTwice(op, e, val1, rhs)))
  {
    ShiftedTwiceKeepsValue(w, op, e, val1, rhs);
    ReplaceExprKeepsRuns(w, fn, at, ShiftedTwice(op, e, val1, rhs));
  }

  lemma XorZeroPass(w: World, fn: Stmt, at: Position)
    requires MachineArithmetic(w) && HasExpr(fn, at)
    ensures SameRuns(w, fn, ReplaceExpr(fn, at, XoredWithZero(ExprAt(fn, at))))
  {
    XorZeroKeepsValue(w, ExprAt(fn, at));
    ReplaceExprKeepsRuns(w, fn, at, XoredWithZero(ExprAt(fn, at)));
  }

  /** The operators need not even be the machine's. A target without side effects may
      always be repeated (`PureSettles`). */
  lemma CompoundAssignmentPass(w: World, fn: Stmt, at: Position)
    requires HasExpr(fn, at) && ExprAt(fn, at).Assign? && Toggled(ExprAt(fn, at)).Some?
    requires ExprAt(fn, at).with.Some? ==> IsStrict(ExprAt(fn, at).with.value)
    requires forall m: Mem :: TargetMayRepeat(w, ExprAt(fn, at), m)
    ensures SameRuns(w, fn, ReplaceExpr(fn, at, Toggled(ExprAt(fn, at)).value))
  {
    ToggledKeepsValue(w, ExprAt(fn, at));
    ReplaceExprKeepsRuns(w, fn, at, Toggled(ExprAt(fn, at)).value);
  }

  /** The condition of an `if`, `while`, `do` or `for` anywhere in the function. */
  lemma ConditionPass(w: World, fn: Stmt, path: seq<nat>, slot: nat, strip: bool, negate: bool)
    requires MachineArithmetic(w) && HasStmt(fn, path)
    requires IsCondition(StmtAt(fn, path), slot) && Slot(StmtAt(fn, path), slot).Some?
    requires NewCondition(Slot(StmtAt(fn, path), slot).value, strip, negate).Some?
    ensures var t := StmtAt(fn, path);
            var c := NewCondition(Slot(t, slot).value, strip, negate).value;
            SameRuns(w, fn, ReplaceStmt(fn, path, WithSlot(t, slot, c)))
  {
    var t := StmtAt(fn, path);
    var c := NewCondition(Slot(t, slot).value, strip, negate).value;
    NewConditionKeepsTruth(w, Slot(t, slot).value, strip, negate);
    SlotCongruence(w, t, slot, c);
    ReplaceKeepsRuns(w, fn, path, WithSlot(t, slot, c));
  }

  // ----- wrapping a range of statements -----

  function IfBlock(items: seq<Stmt>): Stmt {
    If(Const(1), Block(items), Empty)
  }

  function DoBlock(items: seq<Stmt>): Stmt {
    DoWhile(Block(items), Const(0))
  }

  /** A block with the range from `lo` to `hi` wrapped one way or the other. */
  function Wrapped(items: seq<Stmt>, lo: nat, hi: nat, doWhile: bool): seq<Stmt>
    requires lo <= hi <= |items|
  {
    items[..lo] + (if doWhile then [Pragma, DoBlock(items[lo..hi]), Pragma] else [IfBlock(items[lo..hi])]) + items[hi..]
  }

  /** A list of statements that a pass edits in place. */
  class StmtList {
    var items: seq<Stmt>

    constructor (items: seq<Stmt>)
      ensures this.items == items
    {
      this.items := items;
    }

    /** How many declarations and pragmas lead the list. */
    method DeclCount() returns (n: nat)
      ensures n <= |items| && forall i | 0 <= i < n :: items[i].Declare? || items[i].Pragma?
      ensures n < |items| ==> !items[n].Declare? && !items[n].Pragma?
    {
      n := 0;
      while n < |items| && (items[n].Declare? || items[n].Pragma?)
        invariant n <= |items|
        invariant forall i | 0 <= i < n :: items[i].Declare? || items[i].Pragma?
      {
        n := n + 1;
      }
    }

    /** Wraps a range; the two ends come in any order. */
    method InsBlock(a: nat, b: nat, doWhile: bool)
      requires a <= |items| && b <= |items|
      modifies this
      ensures items == Wrapped(old(items), if b < a then b else a, if b < a then a else b, doWhile)
    {
      var lo, hi := a, b;
      if hi < lo {
        lo, hi := hi, lo;
      }
      var range := items[lo..hi];
      if doWhile {
        items := items[..lo] + [Pragma, DoBlock(range), Pragma] + items[hi..];
      } else {
        items := items[..lo] + [IfBlock(range)] + items[hi..];
      }
    }
  }

  lemma {:induction false} ExecAllConcat(w: World, a: seq<Stmt>, b: seq<Stmt>, m: Mem, fuel: nat)
    ensures ExecAll(w, a + b, m, fuel)
         == match ExecAll(w, a, m, fuel)
            case Normal(m1) => ExecAll(w, b, m1, fuel)
            case o => o
    decreases |a|
  {
    if |a| == 0 {
      assert a + b == b;
    } else {
      assert (a + b)[0] == a[0] && (a + b)[1..] == a[1..] + b;
      var o := Exec(w, a[0], m, fuel);
      if o.Normal? {
        ExecAllConcat(w, a[1..], b, o.mem, fuel);
      }
    }
  }

  /** What a loop around a block makes of how the block ended. */
  function Absorbed(o: Outcome): Outcome {
    if o.Broke? || o.Continued? then Normal(o.mem) else o
  }

  lemma IfBlockRuns(w: World, range: seq<Stmt>, m: Mem, fuel: nat)
    ensures Exec(w, IfBlock(range), m, fuel) == ExecAll(w, range, m, fuel)
  {
    SmallConst(w.mode);
    ConstEval(w, 1, m);
    assert Test(w, Some(Const(1)), m) == Go(m);
    assert Exec(w, Block(range), m, fuel) == ExecAll(w, range, m, fuel);
  }

  lemma DoBlockRuns(w: World, range: seq<Stmt>, m: Mem, fuel: nat)
    ensures Exec(w, DoBlock(range), m, fuel) == Absorbed(ExecAll(w, range, m, fuel))
  {
    SmallConst(w.mode);
    var o := ExecAll(w, range, m, fuel);
    assert Exec(w, Block(range), m, fuel) == o;
    assert Iterate(w, Some(Const(0)), None, Block(range), m, fuel)
        == AfterTurn(w, Some(Const(0)), None, Block(range), o, fuel);
    if o.Normal? || o.Continued? {
      ConstEval(w, 0, o.mem);
      assert Test(w, Some(Const(0)), o.mem) == Stop(o.mem);
      assert Effect(w, None, o.mem) == Normal(o.mem);
      assert TurnEnd(w, Some(Const(0)), None, o.mem) == Stop(o.mem);
      assert Again(w, Some(Const(0)), None, Block(range), Stop(o.mem), fuel) == Normal(o.mem);
    }
  }

  /** No `break` or `continue` that would leave the statement. */
  predicate Contained(s: Stmt) {
    match s
    case Break => false
    case Continue => false
    case Block(items) => AllContained(items)
    case If(_, iftrue, iffalse) => Contained(iftrue) && Contained(iffalse)
    case _ => true
  }

  predicate AllContained(items: seq<Stmt>) {
    forall i | 0 <= i < |items| :: Contained(items[i])
  }

  lemma {:induction false} LoopsContain(w: World, test: Option<Expr>, next: Option<Expr>, body: Stmt, m: Mem, fuel: nat)
    ensures !Iterate(w, test, next, body, m, fuel).Broke? && !Iterate(w, test, next, body, m, fuel).Continued?
    decreases fuel
  {
    var o := Exec(w, body, m, fuel);
    AfterTurnContains(w, test, next, body, o, fuel);
  }

  lemma {:induction false} AfterTurnContains(w: World, test: Option<Expr>, next: Option<Expr>, body: Stmt, o: Outcome,
                                             fuel: nat)
    ensures var r := AfterTurn(w, test, next, body, o, fuel); !r.Broke? && !r.Continued?
    decreases fuel, 0
  {
    if o.Normal? || o.Continued? {
      var t := TurnEnd(w, test, next, o.mem);
      if t.Go? && fuel > 0 {
        LoopsContain(w, test, next, body, t.mem, fuel - 1);
      }
    }
  }

  lemma {:induction false} ContainedNeverEscapes(w: World, s: Stmt, m: Mem, fuel: nat)
    requires Contained(s)
    ensures !Exec(w, s, m, fuel).Broke? && !Exec(w, s, m, fuel).Continued?
    decreases s
  {
    match s
    case Block(items) =>
      AllContainedNeverEscape(w, items, m, fuel);
    case If(cond, iftrue, iffalse) =>
      var t := Test(w, Some(cond), m);
      if t.Go? {
        ContainedNeverEscapes(w, iftrue, t.mem, fuel);
      } else if t.Stop? {
        ContainedNeverEscapes(w, iffalse, t.mem, fuel);
      }
    case While(cond, body) =>
      var t := Test(w, Some(cond), m);
      if t.Go? {
        LoopsContain(w, Some(cond), None, body, t.mem, fuel);
      }
    case DoWhile(body, cond) =>
      LoopsContain(w, Some(cond), None, body, m, fuel);
    case For(first, test, next, body) =>
      var e := Effect(w, first, m);
      if e.Normal? {
        var t := Test(w, test, e.mem);
        if t.Go? {
          LoopsContain(w, test, next, body, t.mem, fuel);
        }
      }
    case _ =>
  }

  lemma {:induction false} AllContainedNeverEscape(w: World, items: seq<Stmt>, m: Mem, fuel: nat)
    requires AllContained(items)
    ensures !ExecAll(w, items, m, fuel).Broke? && !ExecAll(w, items, m, fuel).Continued?
    decreases items
  {
    if |items| > 0 {
      ContainedNeverEscapes(w, items[0], m, fuel);
      var o := Exec(w, items[0], m, fuel);
      if o.Normal? {
        AllContainedNeverEscape(w, items[1..], o.mem, fuel);
      }
    }
  }

  /** In one state: wrapping keeps how a range runs, always with `if (1)`, and with
      `do … while (0)` exactly when the range does not break or continue out. */
  lemma WrappedExactly(w: World, range: seq<Stmt>, m: Mem, fuel: nat)
    ensures Exec(w, IfBlock(range), m, fuel) == ExecAll(w, range, m, fuel)
    ensures Exec(w, DoBlock(range), m, fuel) == ExecAll(w, range, m, fuel)
       <==> !ExecAll(w, range, m, fuel).Broke? && !ExecAll(w, range, m, fuel).Continued?
  {
    IfBlockRuns(w, range, m, fuel);
    DoBlockRuns(w, range, m, fuel);
  }

  lemma MiddleRuns(w: World, a: seq<Stmt>, b: seq<Stmt>, b': seq<Stmt>, c: seq<Stmt>, m: Mem, fuel: nat)
    requires forall m1 :: ExecAll(w, b, m1, fuel) == ExecAll(w, b', m1, fuel)
    ensures ExecAll(w, a + b + c, m, fuel) == ExecAll(w, a + b' + c, m, fuel)
  {
    ExecAllConcat(w, a + b, c, m, fuel);
    ExecAllConcat(w, a + b', c, m, fuel);
    ExecAllConcat(w, a, b, m, fuel);
    ExecAllConcat(w, a, b', m, fuel);
  }

  lemma OneRuns(w: World, s: Stmt, m: Mem, fuel: nat)
    ensures ExecAll(w, [s], m, fuel) == Exec(w, s, m, fuel)
  {
    assert [s][1..] == [];
  }

  lemma BetweenPragmas(w: World, s: Stmt, m: Mem, fuel: nat)
    ensures ExecAll(w, [Pragma, s, Pragma], m, fuel) == Exec(w, s, m, fuel)
  {
    assert [Pragma, s, Pragma] == [Pragma] + ([s] + [Pragma]);
    ExecAllConcat(w, [Pragma], [s] + [Pragma], m, fuel);
    ExecAllConcat(w, [s], [Pragma], m, fuel);
    OneRuns(w, Pragma, m, fuel);
    OneRuns(w, s, m, fuel);
    var o := Exec(w, s, m, fuel);
    if o.Normal? {
      OneRuns(w, Pragma, o.mem, fuel);
    }
  }

  /** What stands in place of the range. */
  function Wrapping(range: seq<Stmt>, doWhile: bool): seq<Stmt> {
    if doWhile then [Pragma, DoBlock(range), Pragma] else [IfBlock(range)]
  }

  lemma WrappingRuns(w: World, range: seq<Stmt>, doWhile: bool, m: Mem, fuel: nat)
    requires doWhile ==> AllContained(range)
    ensures ExecAll(w, Wrapping(range, doWhile), m, fuel) == ExecAll(w, range, m, fuel)
  {
    WrappedExactly(w, range, m, fuel);
    if doWhile {
      BetweenPragmas(w, DoBlock(range), m, fuel);
      AllContainedNeverEscape(w, range, m, fuel);
    } else {
      OneRuns(w, IfBlock(range), m, fuel);
    }
  }

  /** Wrapping a range of any block of a function: `if (1)` always keeps every run, and
      `do … while (0)` does when no `break` or `continue` leaves the range. */
  lemma InsBlockPass(w: World, fn: Stmt, path: seq<nat>, lo: nat, hi: nat, doWhile: bool)
    requires HasStmt(fn, path) && StmtAt(fn, path).Block? && lo <= hi <= |StmtAt(fn, path).items|
    requires doWhile ==> AllContained(StmtAt(fn, path).items[lo..hi])
    ensures SameRuns(w, fn, ReplaceStmt(fn, path, Block(Wrapped(StmtAt(fn, path).items, lo, hi, doWhile))))
  {
    var items := StmtAt(fn, path).items;
    var range := items[lo..hi];
    var wrapped := Wrapped(items, lo, hi, doWhile);
    assert items == items[..lo] + range + items[hi..];
    assert wrapped == items[..lo] + Wrapping(range, doWhile) + items[hi..];
    forall m, fuel: nat ensures Exec(w, Block(items), m, fuel) == Exec(w, Block(wrapped), m, fuel) {
      forall m1 ensures ExecAll(w, range, m1, fuel) == ExecAll(w, Wrapping(range, doWhile), m1, fuel) {
        WrappingRuns(w, range, doWhile, m1, fuel);
      }
      MiddleRuns(w, items[..lo], range, Wrapping(range, doWhile), items[hi..], m, fuel);
    }
    ReplaceKeepsRuns(w, fn, path, Block(wrapped));
  }

  /** The pass does not look for a `break` in the range: wrapped, the one that ended this
      loop no longer does. */
  lemma WrappedBreakGoesOn(w: World, m: Mem, fuel: nat)
    ensures var loop := (body: seq<Stmt>) => While(Const(1), Block(body));
            && Exec(w, loop([Break]), m, fuel) == Normal(m)
            && Exec(w, loop(Wrapped([Break], 0, 1, true)), m, fuel) == OutOfFuel
    decreases fuel
  {
    var body := Wrapped([Break], 0, 1, true);
    assert body == [Pragma, DoBlock([Break]), Pragma] by {
      assert [Break][0..1] == [Break];
    }
    SmallConst(w.mode);
    ConstEval(w, 1, m);
    assert Test(w, Some(Const(1)), m) == Go(m);
    OneRuns(w, Break, m, fuel);
    assert Exec(w, Block([Break]), m, fuel) == Broke(m);
    assert Iterate(w, Some(Const(1)), None, Block([Break]), m, fuel) == Normal(m);
    DoBlockRuns(w, [Break], m, fuel);
    BetweenPragmas(w, DoBlock([Break]), m, fuel);
    assert Exec(w, Block(body), m, fuel) == Normal(m);
    assert TurnEnd(w, Some(Const(1)), None, m) == Go(m);
    assert Iterate(w, Some(Const(1)), None, Block(body), m, fuel)
        == Again(w, Some(Const(1)), None, Block(body), Go(m), fuel);
    if fuel > 0 {
      WrappedBreakGoesOn(w, m, fuel - 1);
    }
  }
}
