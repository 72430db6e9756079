/** The rewriting passes that promise to keep a function's meaning, and when they do. */
module Rewrites {
  import opened Prelude
  import opened CSemantics
  import opened Congruence

  // ----- arithmetic -----

  /** What an expression evaluates to is in the range of the mode. */
  predicate InRange(mode: Mode, v: int) {
    Norm(mode, v) == v
  }

  lemma NormTwice(mode: Mode, v: int)
    ensures InRange(mode, Norm(mode, v))
  {
  }

  lemma TruthInRange(mode: Mode, b: bool)
    ensures InRange(mode, Truth(b))
  {
  }

  lemma ApplyInRange(mode: Mode, op: BinOp, a: int, b: int)
    ensures Apply(mode, op, a, b).Some? ==> InRange(mode, Apply(mode, op, a, b).value)
  {
    match op
    case Add =>
      NormTwice(mode, a + b);
    case Sub =>
      NormTwice(mode, a - b);
    case Mul =>
      NormTwice(mode, a * b);
    case Div =>
      if b != 0 {
        NormTwice(mode, Quotient(a, b));
      }
    case Mod =>
      if b != 0 {
        NormTwice(mode, a - b * Quotient(a, b));
      }
    case Shl =>
      if ShiftOk(mode, b) {
        NormTwice(mode, a * Pow2(b));
      }
    case Shr =>
      if ShiftOk(mode, b) {
        NormTwice(mode, a / Pow2(b));
      }
    case BitAnd =>
      NormTwice(mode, Bitwise(op, a, b));
    case BitOr =>
      NormTwice(mode, Bitwise(op, a, b));
    case BitXor =>
      NormTwice(mode, Bitwise(op, a, b));
    case _ =>
      TruthInRange(mode, Apply(mode, op, a, b).value == 1);
  }

  lemma ResultInRange(w: World, op: BinOp, a: int, b: int)
    requires MachineArithmetic(w)
    ensures w.apply(op, a, b).Some? ==> InRange(w.mode, w.apply(op, a, b).value)
  {
    OnMachine(w, op, a, b);
    ApplyInRange(w.mode, op, a, b);
  }

  lemma {:induction false} EvalInRange(w: World, e: Expr, m: Mem)
    requires MachineArithmetic(w)
    ensures Eval(w, e, m).Ok? ==> InRange(w.mode, Eval(w, e, m).value)
    decreases e
  {
    match e
    case Binary(op, left, right) =>
      var l := Eval(w, left, m);
      if l.Ok? && Eval(w, right, l.mem).Ok? {
        ResultInRange(w, op, l.value, Eval(w, right, l.mem).value);
      }
    case Ternary(cond, iftrue, iffalse) =>
      var c := Eval(w, cond, m);
      if c.Ok? {
        EvalInRange(w, iftrue, c.mem);
        EvalInRange(w, iffalse, c.mem);
      }
    case Assign(op, target, rvalue) =>
      var a := Addr(w, target, m);
      if a.Ok? {
        EvalInRange(w, rvalue, a.mem);
        if op.Some? && Eval(w, rvalue, a.mem).Ok? {
          ResultInRange(w, op.value, Norm(w.mode, Load(a.mem, a.value)), Eval(w, rvalue, a.mem).value);
        }
      }
    case Comma(left, right) =>
      var l := Eval(w, left, m);
      if l.Ok? {
        EvalInRange(w, right, l.mem);
      }
    case _ =>
  }

  lemma HalvesSmaller(a: int)
    ensures Abs(a / 2) <= Abs(a)
    ensures a != 0 && a != -1 ==> Abs(a / 2) < Abs(a)
  {
  }

  lemma {:induction false} BitwiseCommutes(op: BinOp, a: int, b: int)
    ensures Bitwise(op, a, b) == Bitwise(op, b, a)
    decreases Abs(a) + Abs(b)
  {
    if !((a == 0 || a == -1) && (b == 0 || b == -1)) {
      HalvesSmaller(a);
      HalvesSmaller(b);
      BitwiseCommutes(op, a / 2, b / 2);
      BitwiseStep(op, a, b);
      BitwiseStep(op, b, a);
      BitSymmetric(op, a % 2 == 1, b % 2 == 1);
    }
  }

  lemma BitwiseStep(op: BinOp, a: int, b: int)
    requires !((a == 0 || a == -1) && (b == 0 || b == -1))
    ensures Bitwise(op, a, b) == 2 * Bitwise(op, a / 2, b / 2) + Truth(BitOf(op, a % 2 == 1, b % 2 == 1))
  {
  }

  lemma BitSymmetric(op: BinOp, a: bool, b: bool)
    ensures BitOf(op, a, b) == BitOf(op, b, a)
  {
  }

  lemma {:induction false} XorZero(a: int)
    ensures Bitwise(BitXor, a, 0) == a
    decreases Abs(a)
  {
    if a != 0 && a != -1 {
      XorZero(a / 2);
    }
  }

  /** Wrapping around keeps a number up to whole words. */
  lemma WrapIsCongruent(v: int) returns (k: int)
    ensures Wrap(v) == v + k * WORD
  {
    k := -((v + HALF) / WORD);
  }

  lemma WrapShifted(v: int, k: int)
    ensures Wrap(v + k * WORD) == Wrap(v)
  {
    assert (v + k * WORD + HALF) % WORD == (v + HALF) % WORD by {
      var q, r := (v + HALF) / WORD, (v + HALF) % WORD;
      assert v + k * WORD + HALF == (q + k) * WORD + r;
    }
  }

  lemma Distribute(a: int, k: int, b: int)
    ensures (a + k * WORD) * b == a * b + k * b * WORD
  {
    assert (a + k * WORD) * b == a * b + (k * WORD) * b;
    assert (k * WORD) * b == k * b * WORD;
  }

  /** A factor may be wrapped first. */
  lemma WrapProduct(mode: Mode, a: int, b: int)
    ensures Norm(mode, Norm(mode, a) * b) == Norm(mode, a * b)
    ensures Norm(mode, b * Norm(mode, a)) == Norm(mode, b * a)
  {
    if mode == Wrap32 {
      var k := WrapIsCongruent(a);
      Distribute(a, k, b);
      WrapShifted(a * b, k * b);
      assert b * Wrap(a) == Wrap(a) * b && b * a == a * b;
    }
  }

  lemma {:induction false} Pow2Sum(x: nat, y: nat)
    ensures Pow2(x + y) == Pow2(x) * Pow2(y)
  {
    if x > 0 {
      Pow2Sum(x - 1, y);
      assert Pow2(x) * Pow2(y) == 2 * (Pow2(x - 1) * Pow2(y));
    }
  }

  lemma DivideTwice(a: int, p: int, q: int)
    requires p > 0 && q > 0
    ensures p * q > 0 && (a / p) / q == a / (p * q)
  {
    var u, r := a / p, a % p;
    var v, t := u / q, u % q;
    assert a == p * u + r && u == q * v + t;
    assert p * u == p * (q * v) + p * t;
    assert p * (q * v) == (p * q) * v;
    var rest := p * t + r;
    assert 0 <= rest < p * q by {
      assert t <= q - 1;
      assert p * t <= p * (q - 1) by { MulMonotone(p, t, q - 1); }
      assert p * (q - 1) == p * q - p;
      assert 0 <= p * t by { MulMonotone(p, 0, t); }
    }
    QuotientIs(a, p * q, v, rest);
  }

  lemma MulMonotone(p: int, x: int, y: int)
    requires p > 0 && x <= y
    ensures p * x <= p * y
  {
    assert p * (y - x) >= 0;
    assert p * y == p * x + p * (y - x);
  }

  lemma QuotientIs(a: int, d: int, v: int, rest: int)
    requires d > 0 && a == d * v + rest && 0 <= rest < d
    ensures a / d == v
  {
    var q, r := a / d, a % d;
    assert a == d * q + r;
    NextMultiple(d, q);
    NextMultiple(d, v);
    if q < v {
      MulMonotone(d, q + 1, v);
      assert false;
    } else if q > v {
      MulMonotone(d, v + 1, q);
      assert false;
    }
  }

  lemma NextMultiple(d: int, q: int)
    ensures d * (q + 1) == d * q + d
  {
  }

  // ----- swapping operands -----

  predicate Commutes(op: BinOp) {
    op in {Add, Mul, BitOr, BitAnd, BitXor, Lt, Gt, Le, Ge, EqEq, NotEq}
  }

  /** Comparisons turn round. */
  function Mirror(op: BinOp): BinOp {
    match op
    case Lt => Gt
    case Gt => Lt
    case Le => Ge
    case Ge => Le
    case _ => op
  }

  function Commuted(e: Expr): Expr
    requires e.Binary?
  {
    Binary(Mirror(e.op), e.right, e.left)
  }

  lemma ApplyMirrored(mode: Mode, op: BinOp, a: int, b: int)
    requires Commutes(op)
    ensures Apply(mode, Mirror(op), b, a) == Apply(mode, op, a, b)
  {
    BitwiseCommutes(op, a, b);
    assert a * b == b * a;
  }

  /** An operator that evaluates both operands. */
  predicate IsStrict(op: BinOp) {
    op != LogAnd && op != LogOr
  }

  /** A binary operation once its operands are known. */
  lemma BinaryEval(w: World, op: BinOp, left: Expr, right: Expr, m: Mem, l: Res, r: Res)
    requires IsStrict(op) && l == Eval(w, left, m)
    requires l.Ok? ==> r == Eval(w, right, l.mem)
    ensures Eval(w, Binary(op, left, right), m)
         == if l.Stuck? || r.Stuck? then Stuck else Combined(w, op, l.value, r.value, r.mem)
  {
  }

  /** The values of two operands, evaluated in this order, and the memory after them. */
  function InOrder(w: World, first: Expr, second: Expr, m: Mem): Option<(int, int, Mem)> {
    match Eval(w, first, m)
    case Stuck => None
    case Ok(a, m1) =>
      match Eval(w, second, m1)
      case Stuck => None
      case Ok(b, m2) => Some((a, b, m2))
  }

  /** From `m` it does not matter which operand is evaluated first: neither order gets
      stuck, unless both do, and they give the same memory and the same result. */
  predicate OrdersAgree(w: World, e: Expr, m: Mem)
    requires e.Binary?
  {
    var lr, rl := InOrder(w, e.left, e.right, m), InOrder(w, e.right, e.left, m);
    if lr.None? || rl.None? then lr.None? && rl.None?
    else
      && lr.value.2 == rl.value.2
      && w.apply(e.op, lr.value.0, lr.value.1) == w.apply(e.op, rl.value.1, rl.value.0)
  }

  function CombinedPair(w: World, op: BinOp, operands: Option<(int, int, Mem)>): Res {
    match operands
    case None => Stuck
    case Some((a, b, m)) => Combined(w, op, a, b, m)
  }

  lemma BinaryInOrder(w: World, op: BinOp, left: Expr, right: Expr, m: Mem)
    requires IsStrict(op)
    ensures Eval(w, Binary(op, left, right), m) == CombinedPair(w, op, InOrder(w, left, right, m))
  {
    var l := Eval(w, left, m);
    BinaryEval(w, op, left, right, m, l, if l.Ok? then Eval(w, right, l.mem) else Stuck);
  }

  /** The operators that commute have a result for all operands. */
  lemma CommutingIsTotal(w: World, op: BinOp, a: int, b: int)
    requires MachineArithmetic(w) && Commutes(op)
    ensures w.apply(op, a, b).Some?
  {
    OnMachine(w, op, a, b);
  }

  lemma SwappedPairs(w: World, op: BinOp, lr: Option<(int, int, Mem)>, rl: Option<(int, int, Mem)>)
    requires MachineArithmetic(w) && Commutes(op)
    ensures CombinedPair(w, Mirror(op), rl) == CombinedPair(w, op, lr)
       <==> if lr.None? || rl.None? then lr.None? && rl.None?
            else lr.value.2 == rl.value.2 && w.apply(op, lr.value.0, lr.value.1) == w.apply(op, rl.value.1, rl.value.0)
  {
    if lr.Some? {
      CommutingIsTotal(w, op, lr.value.0, lr.value.1);
    }
    if rl.Some? {
      MirrorOnMachine(w, op, rl.value.1, rl.value.0);
      CommutingIsTotal(w, op, rl.value.1, rl.value.0);
    }
  }

  /** Swapping operands keeps value and memory in a state exactly when the order of
      evaluation does not matter there. */
  lemma CommutedExactly(w: World, e: Expr, m: Mem)
    requires MachineArithmetic(w) && e.Binary? && Commutes(e.op)
    ensures Eval(w, Commuted(e), m) == Eval(w, e, m) <==> OrdersAgree(w, e, m)
  {
    BinaryInOrder(w, e.op, e.left, e.right, m);
    BinaryInOrder(w, Mirror(e.op), e.right, e.left, m);
    SwappedPairs(w, e.op, InOrder(w, e.left, e.right, m), InOrder(w, e.right, e.left, m));
  }

  /** Operands without side effects may be evaluated in any order. */
  lemma PureOrdersAgree(w: World, e: Expr, m: Mem)
    requires e.Binary? && Pure(e.left) && Pure(e.right)
    ensures OrdersAgree(w, e, m)
  {
    PureLeavesMemory(w, e.left, m);
    PureLeavesMemory(w, e.right, m);
  }

  lemma CommutedKeepsValue(w: World, e: Expr)
    requires MachineArithmetic(w) && e.Binary? && Commutes(e.op)
    ensures SameValue(w, e, Commuted(e)) <==> forall m: Mem :: OrdersAgree(w, e, m)
    ensures Pure(e.left) && Pure(e.right) ==> SameValue(w, e, Commuted(e))
  {
    forall m: Mem ensures Eval(w, e, m) == Eval(w, Commuted(e), m) <==> OrdersAgree(w, e, m) {
      CommutedExactly(w, e, m);
    }
    if Pure(e.left) && Pure(e.right) {
      forall m: Mem ensures OrdersAgree(w, e, m) {
        PureOrdersAgree(w, e, m);
      }
    }
  }

  lemma MirrorOnMachine(w: World, op: BinOp, a: int, b: int)
    requires MachineArithmetic(w) && Commutes(op)
    ensures w.apply(Mirror(op), b, a) == w.apply(op, a, b)
  {
    OnMachine(w, op, a, b);
    OnMachine(w, Mirror(op), b, a);
    ApplyMirrored(w.mode, op, a, b);
  }

  // ----- moving inequalities by one -----

  /** Which operands get the 1: both of them one way or the other, or one with the
      comparison made strict or not. */
  datatype Move = BothUp | BothDown | LeftMoves | RightMoves

  predicate IsInequality(op: BinOp) {
    op == Lt || op == Gt || op == Le || op == Ge
  }

  function Plus1(e: Expr): Expr { Binary(Add, e, Const(1)) }

  function Minus1(e: Expr): Expr { Binary(Sub, e, Const(1)) }

  function Moved(e: Expr, move: Move): Expr
    requires e.Binary? && IsInequality(e.op)
  {
    match move
    case BothUp => Binary(e.op, Plus1(e.left), Plus1(e.right))
    case BothDown => Binary(e.op, Minus1(e.left), Minus1(e.right))
    case _ =>
      if e.op == Lt || e.op == Ge then
        var op := if e.op == Lt then Le else Gt;
        if move == LeftMoves then Binary(op, Plus1(e.left), e.right) else Binary(op, e.left, Minus1(e.right))
      else
        var op := if e.op == Gt then Ge else Lt;
        if move == LeftMoves then Binary(op, Minus1(e.left), e.right) else Binary(op, e.left, Plus1(e.right))
  }

  const MAX: int := HALF - 1
  const MIN: int := -HALF

  /** The operand that moves does not leave the range; when both move they must leave it
      together or not at all. */
  predicate Safe(op: BinOp, move: Move, a: int, b: int) {
    match move
    case BothUp => (a == MAX) == (b == MAX)
    case BothDown => (a == MIN) == (b == MIN)
    case LeftMoves => if op == Lt || op == Ge then a != MAX else a != MIN
    case RightMoves => if op == Lt || op == Ge then b != MIN else b != MAX
  }

  function Compare(op: BinOp, a: int, b: int): bool
    requires IsInequality(op)
  {
    match op
    case Lt => a < b
    case Gt => a > b
    case Le => a <= b
    case Ge => a >= b
  }

  lemma ConstEval(w: World, c: int, m: Mem)
    ensures Eval(w, Const(c), m) == Ok(Norm(w.mode, c), m)
  {
  }

  lemma SmallConst(mode: Mode)
    ensures Norm(mode, 1) == 1 && Norm(mode, 0) == 0
  {
  }

  /** An operation with a constant on the right. */
  lemma WithConst(w: World, op: BinOp, e: Expr, c: int, m: Mem, r: Res)
    requires IsStrict(op) && r == Eval(w, e, m)
    ensures Eval(w, Binary(op, e, Const(c)), m)
         == if r.Stuck? then Stuck else Combined(w, op, r.value, Norm(w.mode, c), r.mem)
  {
    if r.Ok? {
      ConstEval(w, c, r.mem);
      BinaryEval(w, op, e, Const(c), m, r, Ok(Norm(w.mode, c), r.mem));
    } else {
      BinaryEval(w, op, e, Const(c), m, r, Stuck);
    }
  }

  function ByOne(mode: Mode, r: Res, delta: int): Res {
    if r.Stuck? then Stuck else Ok(Norm(mode, r.value + delta), r.mem)
  }

  /** An operand with 1 added or subtracted. */
  lemma ByOneEval(w: World, e: Expr, m: Mem, r: Res)
    requires MachineArithmetic(w) && r == Eval(w, e, m)
    ensures Eval(w, Plus1(e), m) == ByOne(w.mode, r, 1) && Eval(w, Minus1(e), m) == ByOne(w.mode, r, -1)
  {
    WithConst(w, Add, e, 1, m, r);
    WithConst(w, Sub, e, 1, m, r);
    SmallConst(w.mode);
    if r.Ok? {
      OnMachine(w, Add, r.value, 1);
      OnMachine(w, Sub, r.value, 1);
    }
  }

  lemma CompareOnMachine(w: World, op: BinOp, a: int, b: int, m: Mem)
    requires MachineArithmetic(w) && IsInequality(op)
    ensures Combined(w, op, a, b, m) == Ok(Truth(Compare(op, a, b)), m)
  {
    OnMachine(w, op, a, b);
  }

  /** How much each operand moves, and the new comparison. */
  function Delta(op: BinOp, move: Move, left: bool): int {
    match move
    case BothUp => 1
    case BothDown => -1
    case LeftMoves => if !left then 0 else if op == Lt || op == Ge then 1 else -1
    case RightMoves => if left then 0 else if op == Lt || op == Ge then -1 else 1
  }

  function NewOp(op: BinOp, move: Move): BinOp
    requires IsInequality(op)
  {
    if move == BothUp || move == BothDown then op
    else match op
      case Lt => Le
      case Ge => Gt
      case Gt => Ge
      case Le => Lt
  }

  function Nudged(e: Expr, delta: int): Expr {
    if delta == 0 then e else if delta > 0 then Plus1(e) else Minus1(e)
  }

  lemma MovedIsNudged(e: Expr, move: Move)
    requires e.Binary? && IsInequality(e.op)
    ensures Moved(e, move)
         == Binary(NewOp(e.op, move), Nudged(e.left, Delta(e.op, move, true)),
                   Nudged(e.right, Delta(e.op, move, false)))
  {
  }

  lemma NudgedEval(w: World, e: Expr, delta: int, m: Mem, r: Res)
    requires MachineArithmetic(w) && r == Eval(w, e, m) && -1 <= delta <= 1
    ensures Eval(w, Nudged(e, delta), m) == ByOne(w.mode, r, delta)
  {
    ByOneEval(w, e, m, r);
    EvalInRange(w, e, m);
  }

  /** A comparison of two results. */
  function Compared(op: BinOp, l: Res, r: Res): Res
    requires IsInequality(op)
  {
    if l.Stuck? || r.Stuck? then Stuck else Ok(Truth(Compare(op, l.value, r.value)), r.mem)
  }

  lemma CompareEval(w: World, op: BinOp, left: Expr, right: Expr, m: Mem, l: Res, r: Res)
    requires MachineArithmetic(w) && IsInequality(op)
    requires l == Eval(w, left, m) && (l.Ok? ==> r == Eval(w, right, l.mem))
    ensures Eval(w, Binary(op, left, right), m) == Compared(op, l, r)
  {
    BinaryEval(w, op, left, right, m, l, r);
    if l.Ok? && r.Ok? {
      CompareOnMachine(w, op, l.value, r.value, r.mem);
    }
  }

  lemma MovedEval(w: World, e: Expr, move: Move, m: Mem, l: Res, r: Res)
    requires MachineArithmetic(w) && e.Binary? && IsInequality(e.op)
    requires l == Eval(w, e.left, m) && (l.Ok? ==> r == Eval(w, e.right, l.mem))
    ensures Eval(w, Moved(e, move), m)
         == Compared(NewOp(e.op, move), ByOne(w.mode, l, Delta(e.op, move, true)),
                     ByOne(w.mode, r, Delta(e.op, move, false)))
  {
    var dl, dr := Delta(e.op, move, true), Delta(e.op, move, false);
    MovedIsNudged(e, move);
    NudgedEval(w, e.left, dl, m, l);
    if l.Ok? {
      NudgedEval(w, e.right, dr, l.mem, r);
    }
    CompareEval(w, NewOp(e.op, move), Nudged(e.left, dl), Nudged(e.right, dr), m,
                ByOne(w.mode, l, dl), ByOne(w.mode, r, dr));
  }

  lemma WrapStep(a: int)
    requires MIN <= a <= MAX
    ensures Wrap(a + 1) == if a == MAX then MIN else a + 1
    ensures Wrap(a - 1) == if a == MIN then MAX else a - 1
    ensures Wrap(a) == a
  {
  }

  lemma CompareExact(mode: Mode, op: BinOp, move: Move, a: int, b: int)
    requires IsInequality(op) && InRange(mode, a) && InRange(mode, b)
    ensures Compare(NewOp(op, move), Norm(mode, a + Delta(op, move, true)), Norm(mode, b + Delta(op, move, false)))
            == Compare(op, a, b)
       <==> mode == Unbounded || Safe(op, move, a, b)
  {
    if mode == Wrap32 {
      assert MIN <= Wrap(a) <= MAX && MIN <= Wrap(b) <= MAX;
      WrapStep(a);
      WrapStep(b);
    }
  }

  lemma ComparedExactly(mode: Mode, op: BinOp, move: Move, l: Res, r: Res)
    requires IsInequality(op) && (l.Ok? ==> InRange(mode, l.value)) && (r.Ok? ==> InRange(mode, r.value))
    ensures Compared(NewOp(op, move), ByOne(mode, l, Delta(op, move, true)), ByOne(mode, r, Delta(op, move, false)))
            == Compared(op, l, r)
       <==> mode == Unbounded || l.Stuck? || r.Stuck? || Safe(op, move, l.value, r.value)
  {
    if l.Ok? && r.Ok? {
      CompareExact(mode, op, move, l.value, r.value);
    }
  }

  lemma BothInRange(w: World, e: Expr, m: Mem, l: Res, r: Res)
    requires MachineArithmetic(w) && e.Binary?
    requires l == Eval(w, e.left, m) && (if l.Ok? then r == Eval(w, e.right, l.mem) else r == Stuck)
    ensures (l.Ok? ==> InRange(w.mode, l.value)) && (r.Ok? ==> InRange(w.mode, r.value))
  {
    EvalInRange(w, e.left, m);
    if l.Ok? {
      EvalInRange(w, e.right, l.mem);
    }
  }

  /** Moving an inequality keeps its value in a state exactly when no operand is pushed
      over the edge of the range; over unbounded integers that is always. */
  lemma MovedExactly(w: World, e: Expr, move: Move, m: Mem, l: Res, r: Res)
    requires MachineArithmetic(w) && e.Binary? && IsInequality(e.op)
    requires l == Eval(w, e.left, m) && (if l.Ok? then r == Eval(w, e.right, l.mem) else r == Stuck)
    ensures Eval(w, Moved(e, move), m) == Eval(w, e, m)
       <==> w.mode == Unbounded || l.Stuck? || r.Stuck? || Safe(e.op, move, l.value, r.value)
  {
    CompareEval(w, e.op, e.left, e.right, m, l, r);
    MovedEval(w, e, move, m, l, r);
    BothInRange(w, e, m, l, r);
    ComparedExactly(w.mode, e.op, move, l, r);
  }

  /** In `m` a move does not push an operand over the edge of the range. */
  predicate MoveFits(w: World, e: Expr, move: Move, m: Mem)
    requires e.Binary?
  {
    var operands := InOrder(w, e.left, e.right, m);
    w.mode == Unbounded || operands.None? || Safe(e.op, move, operands.value.0, operands.value.1)
  }

  /** Over unbounded integers moving always keeps the value, also of operands with effects. */
  lemma MovedKeepsValue(w: World, e: Expr, move: Move)
    requires MachineArithmetic(w) && e.Binary? && IsInequality(e.op)
    ensures SameValue(w, e, Moved(e, move)) <==> forall m: Mem :: MoveFits(w, e, move, m)
    ensures w.mode == Unbounded ==> SameValue(w, e, Moved(e, move))
  {
    forall m: Mem ensures Eval(w, e, m) == Eval(w, Moved(e, move), m) <==> MoveFits(w, e, move, m) {
      var l := Eval(w, e.left, m);
      MovedExactly(w, e, move, m, l, if l.Ok? then Eval(w, e.right, l.mem) else Stuck);
    }
  }

  // ----- splitting factors and shifts -----

  /** The factors the pass chooses from. */
  method Factors(val: int) returns (factors: set<int>)
    ensures forall f | f in factors :: f != 0 && f * (val / f) == val
    ensures forall i | 2 <= i < Abs(val) && i < 21 && val % i == 0 :: i in factors && val / i in factors
    ensures val < 0 ==> forall f | f in factors :: -f in factors
  {
    var found: set<int> := {};
    var i := 2;
    while i < Abs(val) && i < 21
      invariant 2 <= i
      invariant forall f | f in found :: f != 0 && f * (val / f) == val
      invariant forall k | 2 <= k < i && k < Abs(val) && val % k == 0 :: k in found && val / k in found
      decreases 21 - i
    {
      if val % i == 0 {
        DividesExactly(val, i);
        found := found + {i, val / i};
      }
      i := i + 1;
    }
    factors := found;
    if val < 0 {
      factors := found + set f | f in found :: -f;
      forall f | f in factors ensures f != 0 && f * (val / f) == val && -f in factors {
        if f !in found {
          assert -f in found;
          NegatedFactor(val, -f);
        }
      }
    }
  }

  lemma DividesExactly(val: int, i: int)
    requires i > 0 && val % i == 0 && val != 0
    ensures i * (val / i) == val && val / i != 0
    ensures (val / i) * (val / (val / i)) == val
  {
    var q := val / i;
    assert q * i == val;
    ExactQuotient(val, q, i);
  }

  lemma ExactQuotient(val: int, d: int, q: int)
    requires d != 0 && d * q == val
    ensures val / d == q
  {
    if d > 0 {
      QuotientIs(val, d, q, 0);
    } else {
      assert (-d) * (-q) == val;
      QuotientIs(val, -d, -q, 0);
      assert val / d == -(val / -d);
    }
  }

  lemma NegatedFactor(val: int, f: int)
    requires f != 0 && f * (val / f) == val
    ensures (-f) * (val / -f) == val
  {
    assert (-f) * (-(val / f)) == val;
    ExactQuotient(val, -f, -(val / f));
  }

  /** `e * val` as a product of three, each multiplication perhaps swapped. */
  function Factored(e: Expr, val1: int, val2: int, swap1: bool, swap2: bool): Expr {
    var e1 := if swap1 then Binary(Mul, Const(val1), e) else Binary(Mul, e, Const(val1));
    if swap2 then Binary(Mul, Const(val2), e1) else Binary(Mul, e1, Const(val2))
  }

  function Times(mode: Mode, r: Res, c: int): Res {
    if r.Stuck? then Stuck else Ok(Norm(mode, r.value * c), r.mem)
  }

  lemma TimesConst(w: World, e: Expr, c: int, m: Mem, r: Res)
    requires MachineArithmetic(w) && r == Eval(w, e, m)
    ensures Eval(w, Binary(Mul, e, Const(c)), m) == Times(w.mode, r, c)
    ensures Eval(w, Binary(Mul, Const(c), e), m) == Times(w.mode, r, c)
  {
    var k := Norm(w.mode, c);
    WithConst(w, Mul, e, c, m, r);
    ConstEval(w, c, m);
    BinaryEval(w, Mul, Const(c), e, m, Ok(k, m), r);
    if r.Ok? {
      OnMachine(w, Mul, r.value, k);
      OnMachine(w, Mul, k, r.value);
      WrapProduct(w.mode, c, r.value);
      assert c * r.value == r.value * c;
    }
  }

  lemma TimesTwice(mode: Mode, r: Res, c: int, d: int)
    ensures Times(mode, Times(mode, r, c), d) == Times(mode, r, c * d)
  {
    if r.Ok? {
      WrapProduct(mode, r.value * c, d);
      assert (r.value * c) * d == r.value * (c * d);
    }
  }

  /** Splitting a constant factor keeps the value, in wrapping arithmetic too. */
  lemma FactoredKeepsValue(w: World, e: Expr, val: int, val1: int, val2: int, swap1: bool, swap2: bool)
    requires MachineArithmetic(w) && val1 * val2 == val
    ensures SameValue(w, Binary(Mul, e, Const(val)), Factored(e, val1, val2, swap1, swap2))
    ensures SameValue(w, Binary(Mul, Const(val), e), Factored(e, val1, val2, swap1, swap2))
  {
    forall m
      ensures Eval(w, Binary(Mul, e, Const(val)), m) == Eval(w, Factored(e, val1, val2, swap1, swap2), m)
      ensures Eval(w, Binary(Mul, Const(val), e), m) == Eval(w, Factored(e, val1, val2, swap1, swap2), m)
    {
      var r := Eval(w, e, m);
      var e1 := if swap1 then Binary(Mul, Const(val1), e) else Binary(Mul, e, Const(val1));
      TimesConst(w, e, val, m, r);
      TimesConst(w, e, val1, m, r);
      TimesConst(w, e1, val2, m, Times(w.mode, r, val1));
      TimesTwice(w.mode, r, val1, val2);
    }
  }

  /** `e << rhs` or `e >> rhs` in two steps. */
  function ShiftedTwice(op: BinOp, e: Expr, val1: int, rhs: int): Expr {
    Binary(op, Binary(op, e, Const(val1)), Const(rhs - val1))
  }

  lemma ShiftLeftTwice(mode: Mode, a: int, x: nat, y: nat)
    ensures Norm(mode, Norm(mode, a * Pow2(x)) * Pow2(y)) == Norm(mode, a * Pow2(x + y))
  {
    Pow2Sum(x, y);
    WrapProduct(mode, a * Pow2(x), Pow2(y));
    TimesAssociate(a, Pow2(x), Pow2(y));
  }

  lemma TimesAssociate(a: int, p: int, q: int)
    ensures (a * p) * q == a * (p * q)
  {
  }

  lemma ShiftRightTwice(mode: Mode, a: int, x: nat, y: nat)
    requires InRange(mode, a)
    ensures Norm(mode, Norm(mode, a / Pow2(x)) / Pow2(y)) == Norm(mode, a / Pow2(x + y))
  {
    Pow2Sum(x, y);
    DivideTwice(a, Pow2(x), Pow2(y));
    ShiftRightInRange(mode, a, x);
  }

  lemma ShiftValue(mode: Mode, op: BinOp, a: int, x: nat, y: nat)
    requires op == Shl || op == Shr
    requires InRange(mode, a) && ShiftOk(mode, x + y)
    ensures var once := Apply(mode, op, a, x);
            once.Some? && Apply(mode, op, once.value, y) == Apply(mode, op, a, x + y)
  {
    if op == Shl {
      ShiftLeftTwice(mode, a, x, y);
    } else {
      ShiftRightTwice(mode, a, x, y);
    }
  }

  lemma ShiftRightInRange(mode: Mode, a: int, x: nat)
    requires InRange(mode, a)
    ensures InRange(mode, a / Pow2(x))
  {
    if mode == Wrap32 {
      var p := Pow2(x);
      assert MIN <= a <= MAX by {
        assert Wrap(a) == a;
      }
      DivisionShrinks(a, p);
      WrapSmall(a / p);
    }
  }

  lemma WrapSmall(a: int)
    requires MIN <= a <= MAX
    ensures Wrap(a) == a
  {
  }

  lemma DivisionShrinks(a: int, p: int)
    requires p > 0
    ensures a >= 0 ==> 0 <= a / p <= a
    ensures a < 0 ==> a <= a / p < 0
  {
    QuotientShrinks(a, p, a / p, a % p);
  }

  lemma QuotientShrinks(a: int, p: int, q: int, r: int)
    requires p > 0 && a == p * q + r && 0 <= r < p
    ensures a >= 0 ==> 0 <= q <= a
    ensures a < 0 ==> a <= q < 0
  {
    QuotientSign(a, p, q, r);
    if a >= 0 {
      MulMonotoneLeft(q, 1, p);
    } else {
      NegativeProduct(p, q, r);
    }
  }

  lemma NegativeProduct(p: int, q: int, r: int)
    requires p > 0 && q < 0 && 0 <= r < p
    ensures p * q + r <= q
  {
    var k := -q - 1;
    assert p * q == -(p * k) - p;
    MulMonotoneLeft(k, 1, p);
  }

  lemma QuotientSign(a: int, p: int, q: int, r: int)
    requires p > 0 && a == p * q + r && 0 <= r < p
    ensures a >= 0 <==> q >= 0
  {
    if q >= 0 {
      MulMonotone(p, 0, q);
    } else {
      MulMonotone(p, q, -1);
    }
  }

  lemma MulMonotoneLeft(q: int, x: int, y: int)
    requires q >= 0 && x <= y
    ensures x * q <= y * q
  {
    assert (y - x) * q >= 0;
    assert y * q == x * q + (y - x) * q;
  }

  function Shifted(mode: Mode, op: BinOp, r: Res, c: int): Res {
    if r.Stuck? then Stuck
    else match Apply(mode, op, r.value, c)
      case Some(v) => Ok(v, r.mem)
      case None => Stuck
  }

  lemma ShiftConst(w: World, op: BinOp, e: Expr, c: int, m: Mem, r: Res)
    requires MachineArithmetic(w) && (op == Shl || op == Shr) && 0 <= c < HALF && r == Eval(w, e, m)
    ensures Eval(w, Binary(op, e, Const(c)), m) == Shifted(w.mode, op, r, c)
  {
    WrapSmall(c);
    WithConst(w, op, e, c, m, r);
    if r.Ok? {
      OnMachine(w, op, r.value, c);
    }
  }

  lemma ShiftedTwiceEval(w: World, op: BinOp, e: Expr, val1: int, rhs: int, m: Mem, r: Res)
    requires MachineArithmetic(w) && (op == Shl || op == Shr) && r == Eval(w, e, m)
    requires 1 <= val1 < rhs < HALF
    ensures Eval(w, ShiftedTwice(op, e, val1, rhs), m)
         == Shifted(w.mode, op, Shifted(w.mode, op, r, val1), rhs - val1)
  {
    ShiftConst(w, op, e, val1, m, r);
    ShiftConst(w, op, Binary(op, e, Const(val1)), rhs - val1, m, Shifted(w.mode, op, r, val1));
  }

  lemma ShiftedExactly(mode: Mode, op: BinOp, r: Res, x: nat, y: nat)
    requires (op == Shl || op == Shr) && x > 0 && y > 0
    requires r.Ok? ==> InRange(mode, r.value)
    ensures Shifted(mode, op, Shifted(mode, op, r, x), y) == Shifted(mode, op, r, x + y)
       <==> mode == Unbounded || x + y < 32 || x >= 32 || y >= 32 || r.Stuck?
  {
    if r.Ok? && ShiftOk(mode, x + y) {
      ShiftValue(mode, op, r.value, x, y);
    }
  }

  /** A shift in two steps has the same value in a state exactly when the whole shift is
      shorter than a word, or a step is not, or there is nothing to shift. */
  lemma ShiftedTwiceExactly(w: World, op: BinOp, e: Expr, val1: int, rhs: int, m: Mem)
    requires MachineArithmetic(w) && (op == Shl || op == Shr)
    requires 1 <= val1 < rhs < HALF
    ensures Eval(w, ShiftedTwice(op, e, val1, rhs), m) == Eval(w, Binary(op, e, Const(rhs)), m)
       <==> w.mode == Unbounded || rhs < 32 || val1 >= 32 || rhs - val1 >= 32 || Eval(w, e, m).Stuck?
  {
    var r := Eval(w, e, m);
    ShiftConst(w, op, e, rhs, m, r);
    ShiftedTwiceEval(w, op, e, val1, rhs, m, r);
    EvalInRange(w, e, m);
    ShiftedExactly(w.mode, op, r, val1, rhs - val1);
  }

  lemma ShiftedTwiceKeepsValue(w: World, op: BinOp, e: Expr, val1: int, rhs: int)
    requires MachineArithmetic(w) && (op == Shl || op == Shr)
    requires 1 <= val1 < rhs < HALF && (w.mode == Unbounded || rhs < 32)
    ensures SameValue(w, Binary(op, e, Const(rhs)), ShiftedTwice(op, e, val1, rhs))
  {
    forall m ensures Eval(w, Binary(op, e, Const(rhs)), m) == Eval(w, ShiftedTwice(op, e, val1, rhs), m) {
      ShiftedTwiceExactly(w, op, e, val1, rhs, m);
    }
  }

  // ----- a neutral operation -----

  function XoredWithZero(e: Expr): Expr {
    Binary(BitXor, e, Const(0))
  }

  lemma XorZeroKeepsValue(w: World, e: Expr)
    requires MachineArithmetic(w)
    ensures SameValue(w, e, XoredWithZero(e))
  {
    SmallConst(w.mode);
    forall m ensures Eval(w, e, m) == Eval(w, XoredWithZero(e), m) {
      var r := Eval(w, e, m);
      WithConst(w, BitXor, e, 0, m, r);
      if r.Ok? {
        OnMachine(w, BitXor, r.value, 0);
        XorZero(r.value);
        EvalInRange(w, e, m);
      }
    }
  }

  // ----- conditions -----

  /** Strips a comparison with zero, or adds one; `strip` and `negate` are the choices the
      pass makes at random. There is no result when the pass gives up. */
  function NewCondition(c: Expr, strip: bool, negate: bool): Option<Expr> {
    if c.Binary? && (IsInequality(c.op) || c.op == EqEq || c.op == NotEq) && strip then
      if (c.op == EqEq || c.op == NotEq) && c.right == Const(0) then
        Some(if c.op == EqEq then Unary(Not, c.left) else c.left)
      else None
    else if c.Unary? && c.uop == Not && negate then Some(Binary(EqEq, c.arg, Const(0)))
    else Some(Binary(NotEq, c, Const(0)))
  }

  lemma ZeroTest(w: World, op: BinOp, e: Expr, m: Mem, r: Res)
    requires MachineArithmetic(w) && (op == EqEq || op == NotEq) && r == Eval(w, e, m)
    ensures Eval(w, Binary(op, e, Const(0)), m)
         == if r.Stuck? then Stuck else Ok(Truth((r.value == 0) == (op == EqEq)), r.mem)
  {
    WithConst(w, op, e, 0, m, r);
    SmallConst(w.mode);
    if r.Ok? {
      OnMachine(w, op, r.value, 0);
    }
  }

  lemma ComparedWithZero(w: World, op: BinOp, x: Expr)
    requires MachineArithmetic(w) && (op == EqEq || op == NotEq)
    ensures SameTruth(w, Binary(op, x, Const(0)), if op == EqEq then Unary(Not, x) else x)
    ensures SameTruth(w, if op == EqEq then Unary(Not, x) else x, Binary(op, x, Const(0)))
  {
    var plain := if op == EqEq then Unary(Not, x) else x;
    forall m ensures Test(w, Some(Binary(op, x, Const(0))), m) == Test(w, Some(plain), m) {
      ZeroTest(w, op, x, m, Eval(w, x, m));
    }
  }

  /** The new condition is true exactly when the old one was, with the same effects. */
  lemma NewConditionKeepsTruth(w: World, c: Expr, strip: bool, negate: bool)
    requires MachineArithmetic(w) && NewCondition(c, strip, negate).Some?
    ensures SameTruth(w, c, NewCondition(c, strip, negate).value)
  {
    if c.Binary? && (IsInequality(c.op) || c.op == EqEq || c.op == NotEq) && strip {
      ComparedWithZero(w, c.op, c.left);
    } else if c.Unary? && c.uop == Not && negate {
      ComparedWithZero(w, EqEq, c.arg);
    } else {
      ComparedWithZero(w, NotEq, c);
    }
  }

  // ----- compound assignment -----

  /** `x = x op y` to `x op= y`, and back. There is no result when the pass gives up. */
  function Toggled(e: Expr): Option<Expr>
    requires e.Assign?
  {
    if e.with.Some? then Some(Assign(None, e.target, Binary(e.with.value, e.target, e.rvalue)))
    else if e.rvalue.Binary? && e.rvalue.left == e.target && IsStrict(e.rvalue.op) && IsArithmetic(e.rvalue.op) then
      Some(Assign(Some(e.rvalue.op), e.target, e.rvalue.right))
    else None
  }

  predicate IsArithmetic(op: BinOp) {
    op in {Add, Sub, Mul, Div, Shl, Shr, BitXor, BitOr, BitAnd}
  }

  lemma PlaceEval(w: World, e: Expr, m: Mem)
    ensures Addr(w, e, m).Ok? ==> Eval(w, e, m) == Ok(Norm(w.mode, Load(Addr(w, e, m).mem, Addr(w, e, m).value)),
                                                      Addr(w, e, m).mem)
  {
  }

  /** An assignment once its target and its right side are known. */
  lemma AssignEval(w: World, op: Option<BinOp>, x: Expr, y: Expr, m: Mem, a: Res, b: Res)
    requires a == Addr(w, x, m) && a.Ok? && b == Eval(w, y, a.mem)
    ensures Eval(w, Assign(op, x, y), m)
         == if b.Stuck? then Stuck
            else Stored(w, op, a.value, Norm(w.mode, Load(a.mem, a.value)), b.value, b.mem)
  {
  }

  /** What `left op y` computes once its left operand is known. */
  function Computed(w: World, op: BinOp, left: Res, y: Expr): Res {
    match left
    case Stuck => Stuck
    case Ok(v, m) =>
      match Eval(w, y, m)
      case Stuck => Stuck
      case Ok(b, m1) => Combined(w, op, v, b, m1)
  }

  /** Evaluating the target `x` once more, for its value, makes no difference to the
      operation on it: the second time gives the same result, and memory that differs at
      most where the result is stored. */
  predicate MayRepeat(w: World, op: BinOp, x: Expr, y: Expr, m: Mem) {
    match Addr(w, x, m)
    case Stuck => true
    case Ok(a, m1) =>
      var once := Computed(w, op, Ok(Norm(w.mode, Load(m1, a)), m1), y);
      var twice := Computed(w, op, Eval(w, x, m1), y);
      if once.Stuck? || twice.Stuck? then once.Stuck? && twice.Stuck?
      else once.value == twice.value && once.mem - {a} == twice.mem - {a}
  }

  lemma SameElsewhere(m: Mem, m': Mem, a: int, v: int)
    ensures m[a := v] == m'[a := v] <==> m - {a} == m' - {a}
  {
    if m[a := v] == m'[a := v] {
      assert m - {a} == m[a := v] - {a} && m' - {a} == m'[a := v] - {a};
    }
    assert m[a := v] == (m - {a})[a := v] && m'[a := v] == (m' - {a})[a := v];
  }

  lemma CompoundExactly(w: World, op: BinOp, x: Expr, y: Expr, m: Mem)
    requires IsStrict(op)
    ensures Eval(w, Assign(Some(op), x, y), m) == Eval(w, Assign(None, x, Binary(op, x, y)), m)
       <==> MayRepeat(w, op, x, y, m)
  {
    var a := Addr(w, x, m);
    if a.Ok? {
      var was, again := Norm(w.mode, Load(a.mem, a.value)), Eval(w, x, a.mem);
      var b, b' := Eval(w, y, a.mem), if again.Ok? then Eval(w, y, again.mem) else Stuck;
      var once, twice := Computed(w, op, Ok(was, a.mem), y), Computed(w, op, again, y);
      BinaryEval(w, op, x, y, a.mem, again, b');
      AssignEval(w, Some(op), x, y, m, a, b);
      AssignEval(w, None, x, Binary(op, x, y), m, a, twice);
      if once.Ok? && twice.Ok? && once.value == twice.value {
        SameElsewhere(once.mem, twice.mem, a.value, once.value);
      }
    }
  }

  /** The operator and the right operand of an assignment in either form. */
  function Operation(e: Expr): (BinOp, Expr)
    requires e.Assign? && Toggled(e).Some?
  {
    if e.with.Some? then (e.with.value, e.rvalue) else (e.rvalue.op, e.rvalue.right)
  }

  predicate TargetMayRepeat(w: World, e: Expr, m: Mem)
    requires e.Assign? && Toggled(e).Some?
  {
    MayRepeat(w, Operation(e).0, e.target, Operation(e).1, m)
  }

  /** Either way value and memory are kept in a state exactly when evaluating the target
      once more makes no difference there. */
  lemma ToggledExactly(w: World, e: Expr, m: Mem)
    requires e.Assign? && Toggled(e).Some? && (e.with.Some? ==> IsStrict(e.with.value))
    ensures Eval(w, Toggled(e).value, m) == Eval(w, e, m) <==> TargetMayRepeat(w, e, m)
  {
    CompoundExactly(w, Operation(e).0, e.target, Operation(e).1, m);
  }

  /** A target whose second evaluation finds the same value and leaves memory alone. */
  predicate Settles(w: World, x: Expr, m: Mem) {
    match Addr(w, x, m)
    case Stuck => true
    case Ok(a, m1) => Eval(w, x, m1) == Ok(Norm(w.mode, Load(m1, a)), m1)
  }

  lemma SettledMayRepeat(w: World, e: Expr, m: Mem)
    requires e.Assign? && Toggled(e).Some? && Settles(w, e.target, m)
    ensures TargetMayRepeat(w, e, m)
  {
  }

  lemma PureSettles(w: World, x: Expr, m: Mem)
    requires Pure(x)
    ensures Settles(w, x, m)
  {
    PureLeavesMemory(w, x, m);
    PlaceEval(w, x, m);
  }

  /** A target may have effects and still settle: `*(p = q)`. */
  lemma AssigningTargetSettles(w: World, p: string, q: string, m: Mem)
    ensures !Pure(Deref(Assign(None, Var(p), Var(q)))) && Settles(w, Deref(Assign(None, Var(p), Var(q))), m)
  {
    var inner := Assign(None, Var(p), Var(q));
    var v := Norm(w.mode, Load(m, w.addr(q)));
    var m1: Mem := m[w.addr(p) := v];
    NormTwice(w.mode, Load(m, w.addr(q)));
    AssignEval(w, None, Var(p), Var(q), m, Ok(w.addr(p), m), Ok(v, m));
    assert m1[w.addr(p) := v] == m1;
    AssignEval(w, None, Var(p), Var(q), m1, Ok(w.addr(p), m1), Ok(v, m1));
    assert Eval(w, inner, m) == Ok(v, m1) && Eval(w, inner, m1) == Ok(v, m1);
    PlaceEval(w, Deref(inner), m1);
  }

  lemma ToggledKeepsValue(w: World, e: Expr)
    requires e.Assign? && Toggled(e).Some? && (e.with.Some? ==> IsStrict(e.with.value))
    ensures SameValue(w, e, Toggled(e).value) <==> forall m: Mem :: TargetMayRepeat(w, e, m)
    ensures Pure(e.target) ==> SameValue(w, e, Toggled(e).value)
  {
    forall m: Mem ensures Eval(w, e, m) == Eval(w, Toggled(e).value, m) <==> TargetMayRepeat(w, e, m) {
      ToggledExactly(w, e, m);
    }
    if Pure(e.target) {
      forall m: Mem ensures TargetMayRepeat(w, e, m) {
        PureSettles(w, e.target, m);
        SettledMayRepeat(w, e, m);
      }
    }
  }

  /** A target with side effects is evaluated once more after expanding: `*p++ += 1`
      steps the pointer once, `*p++ = *p++ + 1` twice. */
  lemma TargetEvaluatedTwice() returns (w: World, e: Expr, m: Mem)
    ensures e.Assign? && e.with == Some(Add) && !Pure(e.target)
    ensures Eval(w, e, m).Ok? && Eval(w, Toggled(e).value, m).Ok?
    ensures Load(Eval(w, e, m).mem, 0) == 11 && Load(Eval(w, Toggled(e).value, m).mem, 0) == 12
  {
    w := World(Unbounded, (op: BinOp, a: int, b: int) => Apply(Unbounded, op, a, b), (name: string) => 0,
               (f: string, values: seq<int>, mem: Mem) => Stuck);
    var p := Step(false, 1, Var("p"));
    var x := Deref(p);
    e := Assign(Some(Add), x, Const(1));
    m := map[0 := 10];
    var m1: Mem := m[0 := 11];
    assert Eval(w, p, m) == Ok(10, m1);
    assert Eval(w, e, m) == Ok(1, m1[10 := 1]);
    var m2: Mem := m1[0 := 12];
    assert Eval(w, p, m1) == Ok(11, m2);
    assert Eval(w, x, m1) == Ok(0, m2);
    assert Eval(w, Binary(Add, x, Const(1)), m1) == Ok(1, m2);
    assert Eval(w, Toggled(e).value, m) == Ok(1, m2[10 := 1]);
  }
}
