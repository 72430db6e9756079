/** Laws of C that the meaning of the fragment keeps, each said without that meaning's own
    definitions: division towards zero, bits, short circuits, increments, and loops as the
    turns they make. */
module CLaws {
  import opened Prelude
  import opened CSemantics

  // ----- arithmetic -----

  lemma NaturalDivision(a: nat, b: nat)
    requires b > 0
    ensures a == b * (a / b) + a % b && a % b < b
  {
  }

  lemma SignedProducts(b: int, d: nat, p: int)
    requires b == d || b + d == 0
    ensures b == d ==> b * p == d * p && b * (-p) == -(d * p)
    ensures b + d == 0 ==> b * p == -(d * p) && b * (-p) == d * p
  {
  }

  /** Quotient times divisor plus remainder gives the dividend, and the remainder is smaller
      than the divisor and never of the other sign. */
  lemma DivisionTruncates(a: int, b: int)
    requires b != 0
    ensures Apply(Unbounded, Div, a, b).Some? && Apply(Unbounded, Mod, a, b).Some?
    ensures var q, r := Apply(Unbounded, Div, a, b).value, Apply(Unbounded, Mod, a, b).value;
            a == b * q + r && Abs(r) < Abs(b) && (a >= 0 ==> r >= 0) && (a <= 0 ==> r <= 0)
  {
    Truncates(a, b, Quotient(a, b), Abs(a), Abs(b), Abs(a) / Abs(b));
  }

  lemma Truncates(a: int, b: int, q: int, n: nat, d: nat, p: int)
    requires b != 0 && n == Abs(a) && d == Abs(b) && p == n / d
    requires q == if (a < 0) == (b < 0) then p else -p
    ensures var r := a - b * q;
            Abs(r) < Abs(b) && (a >= 0 ==> r >= 0) && (a <= 0 ==> r <= 0)
  {
    NaturalDivision(n, d);
    SignedProducts(b, d, p);
  }

  /** A bit of a number in two's complement. */
  predicate Bit(a: int, k: nat)
    decreases k
  {
    if k == 0 then a % 2 == 1 else Bit(a / 2, k - 1)
  }

  lemma {:induction false} BitsOfSigns(k: nat)
    ensures !Bit(0, k) && Bit(-1, k)
  {
    if k > 0 {
      BitsOfSigns(k - 1);
      assert (-1) / 2 == -1;
    }
  }

  lemma HalfOf(v: int, bit: bool)
    ensures (2 * v + Truth(bit)) / 2 == v && ((2 * v + Truth(bit)) % 2 == 1 <==> bit)
  {
  }

  /** Bit by bit. */
  lemma {:induction false} BitsOfBitwise(a: int, b: int, k: nat)
    ensures Bit(Bitwise(BitAnd, a, b), k) <==> Bit(a, k) && Bit(b, k)
    ensures Bit(Bitwise(BitOr, a, b), k) <==> Bit(a, k) || Bit(b, k)
    ensures Bit(Bitwise(BitXor, a, b), k) <==> Bit(a, k) != Bit(b, k)
    decreases k
  {
    if (a == 0 || a == -1) && (b == 0 || b == -1) {
      BitsOfSigns(k);
    } else {
      var x, y := a % 2 == 1, b % 2 == 1;
      HalfOf(Bitwise(BitAnd, a / 2, b / 2), x && y);
      HalfOf(Bitwise(BitOr, a / 2, b / 2), x || y);
      HalfOf(Bitwise(BitXor, a / 2, b / 2), x != y);
      if k > 0 {
        BitsOfBitwise(a / 2, b / 2, k - 1);
      }
    }
  }

  // ----- expressions -----

  /** `a && b` is `a ? (b ? 1 : 0) : 0` and `a || b` is `a ? 1 : (b ? 1 : 0)`: the right operand
      is evaluated only when the left one has not decided. */
  lemma LogicalOperators(w: World, a: Expr, b: Expr)
    requires MachineArithmetic(w)
    ensures SameValue(w, Binary(LogAnd, a, b), Ternary(a, Ternary(b, Const(1), Const(0)), Const(0)))
    ensures SameValue(w, Binary(LogOr, a, b), Ternary(a, Const(1), Ternary(b, Const(1), Const(0))))
  {
    forall m
      ensures Eval(w, Binary(LogAnd, a, b), m)
           == Eval(w, Ternary(a, Ternary(b, Const(1), Const(0)), Const(0)), m)
    {
      LogicalOnce(w, LogAnd, a, b, m);
      TernaryOnce(w, a, Ternary(b, Const(1), Const(0)), Const(0), m);
    }
    forall m
      ensures Eval(w, Binary(LogOr, a, b), m)
           == Eval(w, Ternary(a, Const(1), Ternary(b, Const(1), Const(0))), m)
    {
      LogicalOnce(w, LogOr, a, b, m);
      TernaryOnce(w, a, Const(1), Ternary(b, Const(1), Const(0)), m);
    }
  }

  /** `b ? 1 : 0`. */
  function AsTruth(r: Res): Res {
    if r.Stuck? then Stuck else Ok(if r.value != 0 then 1 else 0, r.mem)
  }

  /** `&&` or `||` once the left operand is known. */
  function Decided(w: World, op: BinOp, left: Res, b: Expr): Res {
    if left.Stuck? then Stuck
    else if (left.value != 0) == (op == LogOr) then Ok(if op == LogOr then 1 else 0, left.mem)
    else AsTruth(Eval(w, b, left.mem))
  }

  lemma LogicalOnce(w: World, op: BinOp, a: Expr, b: Expr, m: Mem)
    requires MachineArithmetic(w) && (op == LogAnd || op == LogOr)
    ensures Eval(w, Binary(op, a, b), m) == Decided(w, op, Eval(w, a, m), b)
  {
    var l := Eval(w, a, m);
    if l.Ok? {
      var r := Eval(w, b, l.mem);
      if r.Ok? {
        OnMachine(w, op, l.value, r.value);
      }
    }
  }

  lemma TernaryOnce(w: World, c: Expr, x: Expr, y: Expr, m: Mem)
    ensures var r := Eval(w, c, m);
            && Eval(w, Ternary(c, x, y), m)
               == (if r.Stuck? then Stuck else Eval(w, if r.value != 0 then x else y, r.mem))
            && forall m1 :: Eval(w, Const(0), m1) == Ok(0, m1) && Eval(w, Const(1), m1) == Ok(1, m1)
  {
  }

  /** `++x` is `x += 1`, and `x++` is that with the old value, whatever is added. */
  lemma StepIsAssignment(w: World, x: Expr, delta: int)
    requires MachineArithmetic(w)
    ensures SameValue(w, Step(true, delta, x), Assign(Some(Add), x, Const(delta)))
    ensures SameValue(w, Step(false, delta, x), Binary(Sub, Assign(Some(Add), x, Const(delta)), Const(delta)))
  {
    forall m
      ensures Eval(w, Step(true, delta, x), m) == Eval(w, Assign(Some(Add), x, Const(delta)), m)
      ensures Eval(w, Step(false, delta, x), m)
           == Eval(w, Binary(Sub, Assign(Some(Add), x, Const(delta)), Const(delta)), m)
    {
      StepBefore(w, x, delta, m);
      StepAfter(w, x, delta, m);
    }
  }

  lemma WrapSum(mode: Mode, a: int, b: int)
    ensures Norm(mode, a + Norm(mode, b)) == Norm(mode, a + b)
  {
  }

  lemma WrapBack(mode: Mode, v: int, b: int, was: int, next: int)
    requires was == Norm(mode, v) && next == Norm(mode, was + b)
    ensures Norm(mode, next - Norm(mode, b)) == was
  {
  }

  lemma StepBefore(w: World, x: Expr, delta: int, m: Mem)
    requires MachineArithmetic(w)
    ensures Eval(w, Step(true, delta, x), m) == Eval(w, Assign(Some(Add), x, Const(delta)), m)
  {
    var a := Addr(w, x, m);
    if a.Ok? {
      var was := Norm(w.mode, Load(a.mem, a.value));
      var next := Norm(w.mode, was + delta);
      WrapSum(w.mode, was, delta);
      StepEval(w, x, delta, m, a.value, a.mem, was, next);
      AddEval(w, x, delta, m, a.value, a.mem, was, next);
    }
  }

  lemma StepAfter(w: World, x: Expr, delta: int, m: Mem)
    requires MachineArithmetic(w)
    ensures Eval(w, Step(false, delta, x), m)
         == Eval(w, Binary(Sub, Assign(Some(Add), x, Const(delta)), Const(delta)), m)
  {
    StepBefore(w, x, delta, m);
    var a := Addr(w, x, m);
    if a.Ok? {
      var was := Norm(w.mode, Load(a.mem, a.value));
      var next := Norm(w.mode, was + delta);
      StepEval(w, x, delta, m, a.value, a.mem, was, next);
      WrapBack(w.mode, Load(a.mem, a.value), delta, was, next);
      SubEval(w, Assign(Some(Add), x, Const(delta)), delta, m, next, a.mem[a.value := next]);
    }
  }

  lemma StepEval(w: World, x: Expr, delta: int, m: Mem, a: int, m1: Mem, was: int, next: int)
    requires Addr(w, x, m) == Ok(a, m1) && was == Norm(w.mode, Load(m1, a)) && next == Norm(w.mode, was + delta)
    ensures Eval(w, Step(true, delta, x), m) == Ok(next, m1[a := next])
    ensures Eval(w, Step(false, delta, x), m) == Ok(was, m1[a := next])
  {
  }

  lemma AddEval(w: World, x: Expr, delta: int, m: Mem, a: int, m1: Mem, was: int, next: int)
    requires MachineArithmetic(w) && Addr(w, x, m) == Ok(a, m1) && was == Norm(w.mode, Load(m1, a))
    requires next == Norm(w.mode, was + Norm(w.mode, delta))
    ensures Eval(w, Assign(Some(Add), x, Const(delta)), m) == Ok(next, m1[a := next])
  {
    OnMachine(w, Add, was, Norm(w.mode, delta));
  }

  lemma SubEval(w: World, e: Expr, delta: int, m: Mem, v: int, m1: Mem)
    requires MachineArithmetic(w) && Eval(w, e, m) == Ok(v, m1)
    ensures Eval(w, Binary(Sub, e, Const(delta)), m) == Ok(Norm(w.mode, v - Norm(w.mode, delta)), m1)
  {
    OnMachine(w, Sub, v, Norm(w.mode, delta));
  }

  // ----- loops -----

  /** What follows a turn: the loop again, unless the turn broke out, returned or failed. */
  function ThenLoop(w: World, o: Outcome, loop: Stmt, fuel: nat): Outcome {
    match o
    case Normal(m) => Exec(w, loop, m, fuel)
    case Continued(m) => Exec(w, loop, m, fuel)
    case Broke(m) => Normal(m)
    case _ => o
  }

  /** A turn if the condition holds, and what follows it. */
  function TurnIf(w: World, c: Res, body: Stmt, loop: Stmt, fuel: nat): Outcome
    requires fuel > 0
  {
    if c.Stuck? then Failed
    else if c.value == 0 then Normal(c.mem)
    else ThenLoop(w, Exec(w, body, c.mem, fuel), loop, fuel - 1)
  }

  lemma AfterTurnLoops(w: World, c: Expr, next: Option<Expr>, b: Stmt, o: Outcome, loop: Stmt, fuel: nat)
    requires fuel > 0
    requires o.Normal? || o.Continued? ==>
               Exec(w, loop, o.mem, fuel - 1)
               == Guarded(w, Some(c), next, b, TurnEnd(w, Some(c), next, o.mem), fuel - 1)
    ensures AfterTurn(w, Some(c), next, b, o, fuel) == ThenLoop(w, o, loop, fuel - 1)
  {
  }

  lemma IterateTurns(w: World, c: Expr, next: Option<Expr>, b: Stmt, m: Mem, o: Outcome, fuel: nat)
    requires o == Exec(w, b, m, fuel)
    ensures Iterate(w, Some(c), next, b, m, fuel) == AfterTurn(w, Some(c), next, b, o, fuel)
  {
  }

  lemma WhileIsGuarded(w: World, c: Expr, b: Stmt, m: Mem, fuel: nat)
    ensures Exec(w, While(c, b), m, fuel) == Guarded(w, Some(c), None, b, TurnEnd(w, Some(c), None, m), fuel)
    ensures TurnEnd(w, Some(c), None, m) == Test(w, Some(c), m)
  {
  }

  lemma ForIsGuarded(w: World, c: Expr, n: Expr, b: Stmt, m: Mem, fuel: nat)
    ensures Exec(w, For(Some(n), Some(c), Some(n), b), m, fuel)
         == Guarded(w, Some(c), Some(n), b, TurnEnd(w, Some(c), Some(n), m), fuel)
    ensures Exec(w, For(None, Some(c), Some(n), b), m, fuel)
         == Guarded(w, Some(c), Some(n), b, Test(w, Some(c), m), fuel)
  {
  }

  lemma GuardedTurns(w: World, c: Expr, next: Option<Expr>, b: Stmt, r: Res, t: Tested, o: Outcome, loop: Stmt,
                     fuel: nat)
    requires fuel > 0 && (r.Ok? ==> o == Exec(w, b, r.mem, fuel))
    requires t == if r.Stuck? then Bad else if r.value != 0 then Go(r.mem) else Stop(r.mem)
    requires AfterTurn(w, Some(c), next, b, o, fuel) == ThenLoop(w, o, loop, fuel - 1)
    ensures Guarded(w, Some(c), next, b, t, fuel) == TurnIf(w, r, b, loop, fuel)
  {
    if t.Go? {
      IterateTurns(w, c, next, b, t.mem, o, fuel);
    }
  }

  /** `while (c) b` with some turns left is `if (c) b` and the same loop again. */
  lemma WhileTurns(w: World, c: Expr, b: Stmt, m: Mem, fuel: nat)
    requires fuel > 0
    ensures Exec(w, While(c, b), m, fuel) == TurnIf(w, Eval(w, c, m), b, While(c, b), fuel)
  {
    var r := Eval(w, c, m);
    var o := if r.Ok? then Exec(w, b, r.mem, fuel) else Failed;
    if o.Normal? || o.Continued? {
      WhileIsGuarded(w, c, b, o.mem, fuel - 1);
    }
    AfterTurnLoops(w, c, None, b, o, While(c, b), fuel);
    WhileIsGuarded(w, c, b, m, fuel);
    GuardedTurns(w, c, None, b, r, Test(w, Some(c), m), o, While(c, b), fuel);
  }

  /** `do b while (c)` is one turn of `b` and then `while (c) b`. */
  lemma DoTurns(w: World, b: Stmt, c: Expr, m: Mem, fuel: nat)
    requires fuel > 0
    ensures Exec(w, DoWhile(b, c), m, fuel) == ThenLoop(w, Exec(w, b, m, fuel), While(c, b), fuel - 1)
  {
    var o := Exec(w, b, m, fuel);
    if o.Normal? || o.Continued? {
      WhileIsGuarded(w, c, b, o.mem, fuel - 1);
    }
    AfterTurnLoops(w, c, None, b, o, While(c, b), fuel);
    IterateTurns(w, c, None, b, m, o, fuel);
  }

  /** `for (; c; n) b` has `n` after each turn, also after `continue`. */
  lemma ForTurns(w: World, c: Expr, n: Expr, b: Stmt, m: Mem, fuel: nat)
    requires fuel > 0
    ensures Exec(w, For(None, Some(c), Some(n), b), m, fuel)
         == TurnIf(w, Eval(w, c, m), b, For(Some(n), Some(c), Some(n), b), fuel)
  {
    var r := Eval(w, c, m);
    var o := if r.Ok? then Exec(w, b, r.mem, fuel) else Failed;
    if o.Normal? || o.Continued? {
      ForIsGuarded(w, c, n, b, o.mem, fuel - 1);
    }
    AfterTurnLoops(w, c, Some(n), b, o, For(Some(n), Some(c), Some(n), b), fuel);
    ForIsGuarded(w, c, n, b, m, fuel);
    GuardedTurns(w, c, Some(n), b, r, Test(w, Some(c), m), o, For(Some(n), Some(c), Some(n), b), fuel);
  }

  // ----- a program -----

  /** `while (n) { s += n; n--; }`. */
  function SumLoop(): Stmt {
    While(Var("n"), Block([Do(Assign(Some(Add), Var("s"), Var("n"))), Do(Step(false, -1, Var("n")))]))
  }

  lemma AddTo(w: World, m: Mem, s: int, n: int)
    requires MachineArithmetic(w) && w.mode == Unbounded
    requires s == Load(m, w.addr("s")) && n == Load(m, w.addr("n"))
    ensures Eval(w, Assign(Some(Add), Var("s"), Var("n")), m) == Ok(s + n, m[w.addr("s") := s + n])
  {
    OnMachine(w, Add, s, n);
    assert Eval(w, Var("n"), m) == Ok(n, m);
  }

  lemma TwoRun(w: World, a: Stmt, b: Stmt, m: Mem, m1: Mem, fuel: nat)
    requires Exec(w, a, m, fuel) == Normal(m1)
    ensures Exec(w, Block([a, b]), m, fuel) == Exec(w, b, m1, fuel)
  {
    assert [a, b][1..] == [b] && [b][1..] == [];
    assert ExecAll(w, [b], m1, fuel) == Exec(w, b, m1, fuel);
  }

  lemma SumTurn(w: World, m: Mem, fuel: nat)
    requires MachineArithmetic(w) && w.mode == Unbounded && w.addr("n") != w.addr("s")
    ensures var s, n := Load(m, w.addr("s")), Load(m, w.addr("n"));
            Exec(w, SumLoop().body, m, fuel) == Normal(m[w.addr("s") := s + n][w.addr("n") := n - 1])
  {
    var s, n := Load(m, w.addr("s")), Load(m, w.addr("n"));
    var m1 := m[w.addr("s") := s + n];
    AddTo(w, m, s, n);
    StepEval(w, Var("n"), -1, m1, w.addr("n"), m1, n, n - 1);
    TwoRun(w, Do(Assign(Some(Add), Var("s"), Var("n"))), Do(Step(false, -1, Var("n"))), m, m1, fuel);
  }

  /** The program adds the numbers from `n` down to 1 and leaves `n` at 0. */
  lemma {:induction false} SumLoopSums(w: World, m: Mem, fuel: nat)
    requires MachineArithmetic(w) && w.mode == Unbounded && w.addr("n") != w.addr("s")
    requires 0 <= Load(m, w.addr("n")) < fuel
    ensures var o, n := Exec(w, SumLoop(), m, fuel), Load(m, w.addr("n"));
            && o.Normal? && Load(o.mem, w.addr("n")) == 0
            && 2 * Load(o.mem, w.addr("s")) == 2 * Load(m, w.addr("s")) + n * (n + 1)
    decreases fuel
  {
    var n := Load(m, w.addr("n"));
    WhileTurns(w, Var("n"), SumLoop().body, m, fuel);
    if n > 0 {
      SumTurn(w, m, fuel);
      var m1 := m[w.addr("s") := Load(m, w.addr("s")) + n][w.addr("n") := n - 1];
      SumLoopSums(w, m1, fuel - 1);
      assert n * (n + 1) == (n - 1) * n + 2 * n;
    }
  }
}
