/** A meaning for the C fragment that the rewriting passes work on: expressions with
    side effects over a memory of integers, and statements with loops, break, continue
    and return. */
module CSemantics {
  import opened Prelude

  datatype UnOp = Neg | Not | Compl

  datatype BinOp = Add | Sub | Mul | Div | Mod | Shl | Shr | BitAnd | BitOr | BitXor
                 | Lt | Gt | Le | Ge | EqEq | NotEq | LogAnd | LogOr

  datatype Expr =
    | Const(value: int)
    | Var(name: string)
    | Deref(ptr: Expr)
    | Index(base: Expr, sub: Expr)
    | Arrow(ptr: Expr, offset: int)
    | AddrOf(target: Expr)
    | Unary(uop: UnOp, arg: Expr)
    | Step(before: bool, delta: int, target: Expr)
    | Binary(op: BinOp, left: Expr, right: Expr)
    | Ternary(cond: Expr, iftrue: Expr, iffalse: Expr)
    | Assign(with: Option<BinOp>, target: Expr, rvalue: Expr)
    | Comma(left: Expr, right: Expr)
    | Call(func: string, args: seq<Expr>)

  // ----- integers -----

  /** Integers without bound, or 32 bits that wrap around. */
  datatype Mode = Unbounded | Wrap32

  const WORD: int := 0x1_0000_0000
  const HALF: int := 0x8000_0000

  function Wrap(v: int): (r: int)
    ensures -HALF <= r < HALF
  {
    (v + HALF) % WORD - HALF
  }

  function Norm(mode: Mode, v: int): int {
    if mode == Wrap32 then Wrap(v) else v
  }

  function Pow2(n: nat): (r: nat)
    ensures r > 0
  {
    if n == 0 then 1 else 2 * Pow2(n - 1)
  }

  function Abs(a: int): nat {
    if a < 0 then -a else a
  }

  function Truth(b: bool): int {
    if b then 1 else 0
  }

  /** One bit of a bitwise operation. */
  predicate BitOf(op: BinOp, a: bool, b: bool) {
    match op
    case BitAnd => a && b
    case BitOr => a || b
    case _ => a != b
  }

  /** A bitwise operation on two's complement numbers of any length. */
  function Bitwise(op: BinOp, a: int, b: int): int
    decreases Abs(a) + Abs(b)
  {
    if (a == 0 || a == -1) && (b == 0 || b == -1) then (if BitOf(op, a != 0, b != 0) then -1 else 0)
    else 2 * Bitwise(op, a / 2, b / 2) + Truth(BitOf(op, a % 2 == 1, b % 2 == 1))
  }

  /** Division as in C, towards zero. */
  function Quotient(a: int, b: int): int
    requires b != 0
  {
    var q := Abs(a) / Abs(b);
    if (a < 0) == (b < 0) then q else -q
  }

  /** The value of a binary operation; none where C defines none. */
  function Apply(mode: Mode, op: BinOp, a: int, b: int): Option<int> {
    match op
    case Add => Some(Norm(mode, a + b))
    case Sub => Some(Norm(mode, a - b))
    case Mul => Some(Norm(mode, a * b))
    case Div => if b == 0 then None else Some(Norm(mode, Quotient(a, b)))
    case Mod => if b == 0 then None else Some(Norm(mode, a - b * Quotient(a, b)))
    case Shl => if ShiftOk(mode, b) then Some(Norm(mode, a * Pow2(b))) else None
    case Shr => if ShiftOk(mode, b) then Some(Norm(mode, a / Pow2(b))) else None
    case BitAnd => Some(Norm(mode, Bitwise(op, a, b)))
    case BitOr => Some(Norm(mode, Bitwise(op, a, b)))
    case BitXor => Some(Norm(mode, Bitwise(op, a, b)))
    case Lt => Some(Truth(a < b))
    case Gt => Some(Truth(a > b))
    case Le => Some(Truth(a <= b))
    case Ge => Some(Truth(a >= b))
    case EqEq => Some(Truth(a == b))
    case NotEq => Some(Truth(a != b))
    case LogAnd => Some(Truth(a != 0 && b != 0))
    case LogOr => Some(Truth(a != 0 || b != 0))
  }

  predicate ShiftOk(mode: Mode, b: int) {
    0 <= b && (mode == Wrap32 ==> b < 32)
  }

  function ApplyUnary(mode: Mode, op: UnOp, a: int): int {
    match op
    case Neg => Norm(mode, -a)
    case Not => Truth(a == 0)
    case Compl => Norm(mode, -a - 1)
  }

  // ----- expressions -----

  type Mem = map<int, int>

  function Load(m: Mem, a: int): int {
    if a in m then m[a] else 0
  }

  datatype Res = Ok(value: int, mem: Mem) | Stuck

  datatype ArgsRes = ArgsOk(values: seq<int>, mem: Mem) | ArgsStuck

  /** What a program runs in: its integers and operators, where its variables are, and
      what the functions do that it calls. */
  datatype World = World(mode: Mode, apply: (BinOp, int, int) -> Option<int>, addr: string -> int,
                         call: (string, seq<int>, Mem) -> Res)

  /** Worlds whose operators are those of the machine. */
  ghost predicate MachineArithmetic(w: World) {
    forall op, a, b :: w.apply(op, a, b) == Apply(w.mode, op, a, b)
  }

  lemma OnMachine(w: World, op: BinOp, a: int, b: int)
    requires MachineArithmetic(w)
    ensures w.apply(op, a, b) == Apply(w.mode, op, a, b)
  {
  }

  /** The value of an expression and the memory after it; operands from left to right. */
  function Eval(w: World, e: Expr, m: Mem): Res
    decreases e, 1
  {
    match e
    case Const(value) => Ok(Norm(w.mode, value), m)
    case AddrOf(target) =>
      (match Addr(w, target, m)
       case Ok(a, m1) => Ok(Norm(w.mode, a), m1)
       case Stuck => Stuck)
    case Unary(uop, arg) =>
      (match Eval(w, arg, m)
       case Ok(v, m1) => Ok(ApplyUnary(w.mode, uop, v), m1)
       case Stuck => Stuck)
    case Step(before, delta, target) =>
      (match Addr(w, target, m)
       case Ok(a, m1) =>
         var old_ := Norm(w.mode, Load(m1, a));
         var next := Norm(w.mode, old_ + delta);
         Ok(if before then next else old_, m1[a := next])
       case Stuck => Stuck)
    case Binary(op, left, right) =>
      (match Eval(w, left, m)
       case Ok(a, m1) =>
         if (op == LogAnd && a == 0) || (op == LogOr && a != 0) then Ok(Truth(op == LogOr), m1)
         else
           (match Eval(w, right, m1)
            case Ok(b, m2) => Combined(w, op, a, b, m2)
            case Stuck => Stuck)
       case Stuck => Stuck)
    case Ternary(cond, iftrue, iffalse) =>
      (match Eval(w, cond, m)
       case Ok(c, m1) => if c != 0 then Eval(w, iftrue, m1) else Eval(w, iffalse, m1)
       case Stuck => Stuck)
    case Assign(op, target, rvalue) =>
      (match Addr(w, target, m)
       case Ok(a, m1) =>
         (match Eval(w, rvalue, m1)
          case Ok(b, m2) => Stored(w, op, a, Norm(w.mode, Load(m1, a)), b, m2)
          case Stuck => Stuck)
       case Stuck => Stuck)
    case Comma(left, right) =>
      (match Eval(w, left, m)
       case Ok(_, m1) => Eval(w, right, m1)
       case Stuck => Stuck)
    case Call(func, args) =>
      (match EvalArgs(w, args, m)
       case ArgsOk(values, m1) => Called(w, func, values, m1)
       case ArgsStuck => Stuck)
    case _ =>
      (match Addr(w, e, m)
       case Ok(a, m1) => Ok(Norm(w.mode, Load(m1, a)), m1)
       case Stuck => Stuck)
  }

  function Combined(w: World, op: BinOp, a: int, b: int, m: Mem): Res {
    match w.apply(op, a, b)
    case Some(v) => Ok(v, m)
    case None => Stuck
  }

  /** An assignment once its operands are known; `was` is the old value of the target. */
  function Stored(w: World, op: Option<BinOp>, a: int, was: int, b: int, m: Mem): Res {
    if op.None? then Ok(b, m[a := b])
    else
      match w.apply(op.value, was, b)
      case Some(v) => Ok(v, m[a := v])
      case None => Stuck
  }

  function Called(w: World, func: string, values: seq<int>, m: Mem): Res {
    match w.call(func, values, m)
    case Ok(v, m1) => Ok(Norm(w.mode, v), m1)
    case Stuck => Stuck
  }

  function EvalArgs(w: World, args: seq<Expr>, m: Mem): ArgsRes
    decreases args
  {
    if |args| == 0 then ArgsOk([], m)
    else
      match Eval(w, args[0], m)
      case Stuck => ArgsStuck
      case Ok(v, m1) =>
        match EvalArgs(w, args[1..], m1)
        case ArgsOk(values, m2) => ArgsOk([v] + values, m2)
        case ArgsStuck => ArgsStuck
  }

  /** The address of an lvalue. */
  function Addr(w: World, e: Expr, m: Mem): Res
    decreases e, 0
  {
    match e
    case Var(name) => Ok(w.addr(name), m)
    case Deref(ptr) => Eval(w, ptr, m)
    case Index(base, sub) =>
      (match Eval(w, base, m)
       case Ok(b, m1) =>
         (match Eval(w, sub, m1)
          case Ok(i, m2) => Ok(b + i, m2)
          case Stuck => Stuck)
       case Stuck => Stuck)
    case Arrow(ptr, offset) =>
      (match Eval(w, ptr, m)
       case Ok(p, m1) => Ok(p + offset, m1)
       case Stuck => Stuck)
    case _ => Stuck
  }

  ghost predicate SameValue(w: World, a: Expr, b: Expr) {
    forall m :: Eval(w, a, m) == Eval(w, b, m)
  }

  ghost predicate SameAddr(w: World, a: Expr, b: Expr) {
    forall m :: Addr(w, a, m) == Addr(w, b, m)
  }

  /** No assignment, increment or call. */
  predicate Pure(e: Expr) {
    match e
    case Const(_) => true
    case Var(_) => true
    case Deref(ptr) => Pure(ptr)
    case Index(base, sub) => Pure(base) && Pure(sub)
    case Arrow(ptr, _) => Pure(ptr)
    case AddrOf(target) => Pure(target)
    case Unary(_, arg) => Pure(arg)
    case Binary(_, left, right) => Pure(left) && Pure(right)
    case Ternary(cond, iftrue, iffalse) => Pure(cond) && Pure(iftrue) && Pure(iffalse)
    case Comma(left, right) => Pure(left) && Pure(right)
    case _ => false
  }

  lemma {:induction false} PureLeavesMemory(w: World, e: Expr, m: Mem)
    requires Pure(e)
    ensures Eval(w, e, m).Ok? ==> Eval(w, e, m).mem == m
    ensures Addr(w, e, m).Ok? ==> Addr(w, e, m).mem == m
    decreases e
  {
    match e
    case Const(_) =>
    case Var(_) =>
    case Deref(ptr) =>
      PureLeavesMemory(w, ptr, m);
    case Index(base, sub) =>
      PureLeavesMemory(w, base, m);
      PureLeavesMemory(w, sub, m);
    case Arrow(ptr, _) =>
      PureLeavesMemory(w, ptr, m);
    case AddrOf(target) =>
      PureLeavesMemory(w, target, m);
    case Unary(_, arg) =>
      PureLeavesMemory(w, arg, m);
    case Binary(_, left, right) =>
      PureLeavesMemory(w, left, m);
      PureLeavesMemory(w, right, m);
    case Ternary(cond, iftrue, iffalse) =>
      PureLeavesMemory(w, cond, m);
      PureLeavesMemory(w, iftrue, m);
      PureLeavesMemory(w, iffalse, m);
    case Comma(left, right) =>
      PureLeavesMemory(w, left, m);
      PureLeavesMemory(w, right, m);
  }

  // ----- statements -----

  datatype Stmt =
    | Empty
    | Pragma
    | Do(expr: Expr)
    | Declare(name: string, init: Option<Expr>)
    | Block(items: seq<Stmt>)
    | If(cond: Expr, iftrue: Stmt, iffalse: Stmt)
    | While(cond: Expr, body: Stmt)
    | DoWhile(body: Stmt, cond: Expr)
    | For(first: Option<Expr>, test: Option<Expr>, next: Option<Expr>, body: Stmt)
    | Return(result: Option<Expr>)
    | Break
    | Continue

  datatype Outcome =
    | Normal(mem: Mem)
    | Broke(mem: Mem)
    | Continued(mem: Mem)
    | Returned(value: Option<int>, mem: Mem)
    | Failed
    | OutOfFuel

  datatype Tested = Go(mem: Mem) | Stop(mem: Mem) | Bad

  /** A condition; a missing one holds. */
  function Test(w: World, c: Option<Expr>, m: Mem): Tested {
    if c.None? then Go(m)
    else
      match Eval(w, c.value, m)
      case Ok(v, m1) => if v != 0 then Go(m1) else Stop(m1)
      case Stuck => Bad
  }

  /** An expression for its effect; a missing one has none. */
  function Effect(w: World, e: Option<Expr>, m: Mem): Outcome {
    if e.None? then Normal(m)
    else
      match Eval(w, e.value, m)
      case Ok(_, m1) => Normal(m1)
      case Stuck => Failed
  }

  /** Runs a statement; every loop may come round `fuel` times. */
  function Exec(w: World, s: Stmt, m: Mem, fuel: nat): Outcome
    decreases fuel, s, 0
  {
    match s
    case Empty => Normal(m)
    case Pragma => Normal(m)
    case Do(expr) => Effect(w, Some(expr), m)
    case Declare(name, init) =>
      if init.None? then Normal(m) else Effect(w, Some(Assign(None, Var(name), init.value)), m)
    case Block(items) => ExecAll(w, items, m, fuel)
    case If(cond, iftrue, iffalse) =>
      (match Test(w, Some(cond), m)
       case Go(m1) => Exec(w, iftrue, m1, fuel)
       case Stop(m1) => Exec(w, iffalse, m1, fuel)
       case Bad => Failed)
    case While(cond, body) => Guarded(w, Some(cond), None, body, Test(w, Some(cond), m), fuel)
    case DoWhile(body, cond) => Iterate(w, Some(cond), None, body, m, fuel)
    case For(first, test, next, body) =>
      (match Effect(w, first, m)
       case Normal(m1) => Guarded(w, test, next, body, Test(w, test, m1), fuel)
       case o => o)
    case Return(result) =>
      if result.None? then Returned(None, m)
      else
        (match Eval(w, result.value, m)
         case Ok(v, m1) => Returned(Some(v), m1)
         case Stuck => Failed)
    case Break => Broke(m)
    case Continue => Continued(m)
  }

  function ExecAll(w: World, items: seq<Stmt>, m: Mem, fuel: nat): Outcome
    decreases fuel, items
  {
    if |items| == 0 then Normal(m)
    else
      match Exec(w, items[0], m, fuel)
      case Normal(m1) => ExecAll(w, items[1..], m1, fuel)
      case o => o
  }

  /** A loop that tests before its first turn, with the outcome of the test. */
  function Guarded(w: World, test: Option<Expr>, next: Option<Expr>, body: Stmt, t: Tested, fuel: nat): Outcome
    decreases fuel, body, 3
  {
    match t
    case Go(m) => Iterate(w, test, next, body, m, fuel)
    case Stop(m) => Normal(m)
    case Bad => Failed
  }

  /** One turn of a loop, and what follows. */
  function Iterate(w: World, test: Option<Expr>, next: Option<Expr>, body: Stmt, m: Mem, fuel: nat): Outcome
    decreases fuel, body, 2
  {
    AfterTurn(w, test, next, body, Exec(w, body, m, fuel), fuel)
  }

  function AfterTurn(w: World, test: Option<Expr>, next: Option<Expr>, body: Stmt, o: Outcome, fuel: nat): Outcome
    decreases fuel, body, 1
  {
    match o
    case Normal(m) => Again(w, test, next, body, TurnEnd(w, test, next, m), fuel)
    case Continued(m) => Again(w, test, next, body, TurnEnd(w, test, next, m), fuel)
    case Broke(m) => Normal(m)
    case _ => o
  }

  /** The end of a turn: the step and the test. */
  function TurnEnd(w: World, test: Option<Expr>, next: Option<Expr>, m: Mem): Tested {
    match Effect(w, next, m)
    case Normal(m1) => Test(w, test, m1)
    case _ => Bad
  }

  function Again(w: World, test: Option<Expr>, next: Option<Expr>, body: Stmt, t: Tested, fuel: nat): Outcome
    decreases fuel, body, 0
  {
    match t
    case Go(m) => if fuel == 0 then OutOfFuel else Iterate(w, test, next, body, m, fuel - 1)
    case Stop(m) => Normal(m)
    case Bad => Failed
  }

  ghost predicate SameRuns(w: World, s: Stmt, t: Stmt) {
    forall m, fuel: nat :: Exec(w, s, m, fuel) == Exec(w, t, m, fuel)
  }

  // ----- fuel is only a bound -----

  /** A run that ended ends the same way when loops may come round more often. */
  lemma {:induction false} MoreFuel(w: World, s: Stmt, m: Mem, fuel: nat)
    ensures !Exec(w, s, m, fuel).OutOfFuel? ==> Exec(w, s, m, fuel + 1) == Exec(w, s, m, fuel)
    decreases fuel, s, 0
  {
    match s
    case Block(items) =>
      MoreFuelAll(w, items, m, fuel);
    case If(cond, iftrue, iffalse) =>
      var t := Test(w, Some(cond), m);
      if t.Go? {
        MoreFuel(w, iftrue, t.mem, fuel);
      } else if t.Stop? {
        MoreFuel(w, iffalse, t.mem, fuel);
      }
    case While(cond, body) =>
      MoreFuelGuarded(w, Some(cond), None, body, Test(w, Some(cond), m), fuel);
    case DoWhile(body, cond) =>
      MoreFuelIterate(w, Some(cond), None, body, m, fuel);
    case For(first, test, next, body) =>
      var e := Effect(w, first, m);
      if e.Normal? {
        MoreFuelGuarded(w, test, next, body, Test(w, test, e.mem), fuel);
      }
    case _ =>
  }

  lemma {:induction false} MoreFuelAll(w: World, items: seq<Stmt>, m: Mem, fuel: nat)
    ensures !ExecAll(w, items, m, fuel).OutOfFuel? ==> ExecAll(w, items, m, fuel + 1) == ExecAll(w, items, m, fuel)
    decreases fuel, items
  {
    if |items| > 0 {
      MoreFuel(w, items[0], m, fuel);
      var o := Exec(w, items[0], m, fuel);
      if o.Normal? {
        MoreFuelAll(w, items[1..], o.mem, fuel);
      }
    }
  }

  lemma {:induction false} MoreFuelGuarded(w: World, test: Option<Expr>, next: Option<Expr>, body: Stmt, t: Tested,
                                           fuel: nat)
    ensures !Guarded(w, test, next, body, t, fuel).OutOfFuel? ==>
              Guarded(w, test, next, body, t, fuel + 1) == Guarded(w, test, next, body, t, fuel)
    decreases fuel, body, 2
  {
    if t.Go? {
      MoreFuelIterate(w, test, next, body, t.mem, fuel);
    }
  }

  lemma {:induction false} MoreFuelIterate(w: World, test: Option<Expr>, next: Option<Expr>, body: Stmt, m: Mem,
                                           fuel: nat)
    ensures !Iterate(w, test, next, body, m, fuel).OutOfFuel? ==>
              Iterate(w, test, next, body, m, fuel + 1) == Iterate(w, test, next, body, m, fuel)
    decreases fuel, body, 1
  {
    MoreFuel(w, body, m, fuel);
    MoreFuelAfter(w, test, next, body, Exec(w, body, m, fuel), fuel);
  }

  lemma {:induction false} MoreFuelAfter(w: World, test: Option<Expr>, next: Option<Expr>, body: Stmt, o: Outcome,
                                         fuel: nat)
    ensures !AfterTurn(w, test, next, body, o, fuel).OutOfFuel? ==>
              AfterTurn(w, test, next, body, o, fuel + 1) == AfterTurn(w, test, next, body, o, fuel)
    decreases fuel, body, 0
  {
    if o.Normal? || o.Continued? {
      var t := TurnEnd(w, test, next, o.mem);
      if t.Go? && fuel > 0 {
        MoreFuelIterate(w, test, next, body, t.mem, fuel - 1);
      }
    }
  }
}
