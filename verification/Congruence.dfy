/** Replacing part of a function by something equivalent: where in a tree a node may
    be replaced, and why the whole function then runs as before. */
module Congruence {
  import opened Prelude
  import opened CSemantics

  // ----- positions in expressions -----

  function Kids(e: Expr): seq<Expr> {
    match e
    case Const(_) => []
    case Var(_) => []
    case Deref(ptr) => [ptr]
    case Index(base, sub) => [base, sub]
    case Arrow(ptr, _) => [ptr]
    case AddrOf(target) => [target]
    case Unary(_, arg) => [arg]
    case Step(_, _, target) => [target]
    case Binary(_, left, right) => [left, right]
    case Ternary(cond, iftrue, iffalse) => [cond, iftrue, iffalse]
    case Assign(_, target, rvalue) => [target, rvalue]
    case Comma(left, right) => [left, right]
    case Call(_, args) => args
  }

  function WithKid(e: Expr, i: nat, x: Expr): Expr
    requires i < |Kids(e)|
  {
    match e
    case Deref(_) => Deref(x)
    case Index(base, sub) => if i == 0 then Index(x, sub) else Index(base, x)
    case Arrow(_, offset) => Arrow(x, offset)
    case AddrOf(_) => AddrOf(x)
    case Unary(uop, _) => Unary(uop, x)
    case Step(before, delta, _) => Step(before, delta, x)
    case Binary(op, left, right) => if i == 0 then Binary(op, x, right) else Binary(op, left, x)
    case Ternary(cond, iftrue, iffalse) =>
      if i == 0 then Ternary(x, iftrue, iffalse)
      else if i == 1 then Ternary(cond, x, iffalse) else Ternary(cond, iftrue, x)
    case Assign(op, target, rvalue) => if i == 0 then Assign(op, x, rvalue) else Assign(op, target, x)
    case Comma(left, right) => if i == 0 then Comma(x, right) else Comma(left, x)
    case Call(func, args) => Call(func, args[i := x])
  }

  /** Is kid `i` in an lvalue position, where the address counts and not the value? The
      base of an indexed lvalue is one too. */
  predicate LvalueKid(e: Expr, i: nat, lvalue: bool) {
    i == 0 && (e.AddrOf? || e.Step? || e.Assign? || (e.Index? && lvalue))
  }

  /** A position that a replacement may take: it exists, and it is not an lvalue. */
  predicate Replaceable(e: Expr, path: seq<nat>, lvalue: bool)
    decreases |path|
  {
    if |path| == 0 then !lvalue
    else path[0] < |Kids(e)| && Replaceable(Kids(e)[path[0]], path[1..], LvalueKid(e, path[0], lvalue))
  }

  function Sub(e: Expr, path: seq<nat>, lvalue: bool): Expr
    requires Replaceable(e, path, lvalue)
    decreases |path|
  {
    if |path| == 0 then e else Sub(Kids(e)[path[0]], path[1..], LvalueKid(e, path[0], lvalue))
  }

  function Replace(e: Expr, path: seq<nat>, lvalue: bool, x: Expr): Expr
    requires Replaceable(e, path, lvalue)
    decreases |path|
  {
    if |path| == 0 then x
    else WithKid(e, path[0], Replace(Kids(e)[path[0]], path[1..], LvalueKid(e, path[0], lvalue), x))
  }

  // ----- one step of congruence -----

  lemma {:induction false} ArgsCongruence(w: World, args: seq<Expr>, i: nat, x: Expr, m: Mem)
    requires i < |args| && SameValue(w, args[i], x)
    ensures EvalArgs(w, args[i := x], m) == EvalArgs(w, args, m)
    decreases |args|
  {
    if i == 0 {
      assert args[0 := x][1..] == args[1..];
    } else {
      assert args[i := x][1..] == args[1..][i - 1 := x];
      var r := Eval(w, args[0], m);
      if r.Ok? {
        ArgsCongruence(w, args[1..], i - 1, x, r.mem);
      }
    }
  }

  /** A kid replaced by one of the same value, and of the same address where the address
      counts, leaves value and address of the whole. */
  lemma KidCongruence(w: World, e: Expr, i: nat, x: Expr)
    requires i < |Kids(e)| && SameValue(w, Kids(e)[i], x)
    requires LvalueKid(e, i, false) ==> SameAddr(w, Kids(e)[i], x)
    ensures SameValue(w, e, WithKid(e, i, x)) && SameAddr(w, e, WithKid(e, i, x))
  {
    forall m ensures Eval(w, e, m) == Eval(w, WithKid(e, i, x), m) && Addr(w, e, m) == Addr(w, WithKid(e, i, x), m) {
      if LvalueKid(e, i, false) {
        TargetRun(w, e, x, m);
      } else {
        OperandRun(w, e, i, x, m);
      }
    }
  }

  lemma TargetRun(w: World, e: Expr, x: Expr, m: Mem)
    requires LvalueKid(e, 0, false) && SameAddr(w, Kids(e)[0], x)
    ensures Eval(w, e, m) == Eval(w, WithKid(e, 0, x), m) && Addr(w, e, m) == Addr(w, WithKid(e, 0, x), m)
  {
    assert Addr(w, Kids(e)[0], m) == Addr(w, x, m);
  }

  /** What a pointer, index or member expression is built from. */
  lemma PlaceRun(w: World, e: Expr, i: nat, x: Expr, m: Mem)
    requires e.Deref? || e.Index? || e.Arrow?
    requires i < |Kids(e)| && SameValue(w, Kids(e)[i], x)
    ensures Addr(w, e, m) == Addr(w, WithKid(e, i, x), m)
  {
    if i == 0 {
      assert Eval(w, Kids(e)[0], m) == Eval(w, x, m);
    } else {
      SecondOperand(w, Kids(e)[0], Kids(e)[1], x, m);
    }
  }

  lemma PlaceValue(w: World, e: Expr, f: Expr, m: Mem)
    requires e.Deref? || e.Index? || e.Arrow?
    requires f.Deref? || f.Index? || f.Arrow?
    requires Addr(w, e, m) == Addr(w, f, m)
    ensures Eval(w, e, m) == Eval(w, f, m)
  {
  }

  /** The operand of an operation that is evaluated first. */
  lemma FirstRun(w: World, e: Expr, x: Expr, m: Mem)
    requires e.Unary? || e.Binary? || e.Ternary? || e.Comma?
    requires Eval(w, Kids(e)[0], m) == Eval(w, x, m)
    ensures Eval(w, e, m) == Eval(w, WithKid(e, 0, x), m)
  {
  }

  lemma BinaryRun(w: World, e: Expr, x: Expr, m: Mem)
    requires e.Binary?
    requires Eval(w, e.left, m).Ok? ==> Eval(w, e.right, Eval(w, e.left, m).mem) == Eval(w, x, Eval(w, e.left, m).mem)
    ensures Eval(w, e, m) == Eval(w, Binary(e.op, e.left, x), m)
  {
  }

  /** An operand that is evaluated later, or not at all. */
  lemma LaterRun(w: World, e: Expr, i: nat, x: Expr, m: Mem)
    requires e.Binary? || e.Ternary? || e.Comma? || e.Assign?
    requires 0 < i < |Kids(e)| && SameValue(w, Kids(e)[i], x)
    ensures Eval(w, e, m) == Eval(w, WithKid(e, i, x), m)
  {
    match e
    case Binary(_, left, _) =>
      SecondOperand(w, left, Kids(e)[i], x, m);
      BinaryRun(w, e, x, m);
    case Comma(left, _) =>
      SecondOperand(w, left, Kids(e)[i], x, m);
    case Ternary(cond, _, _) =>
      SecondOperand(w, cond, Kids(e)[i], x, m);
    case Assign(_, target, _) =>
      var a := Addr(w, target, m);
      if a.Ok? {
        assert Eval(w, Kids(e)[i], a.mem) == Eval(w, x, a.mem);
      }
  }

  lemma OperandRun(w: World, e: Expr, i: nat, x: Expr, m: Mem)
    requires i < |Kids(e)| && SameValue(w, Kids(e)[i], x) && !LvalueKid(e, i, false)
    ensures Eval(w, e, m) == Eval(w, WithKid(e, i, x), m) && Addr(w, e, m) == Addr(w, WithKid(e, i, x), m)
  {
    if e.Deref? || e.Index? || e.Arrow? {
      PlaceRun(w, e, i, x, m);
      PlaceValue(w, e, WithKid(e, i, x), m);
    } else if e.Call? {
      ArgsCongruence(w, e.args, i, x, m);
    } else if i == 0 {
      assert Eval(w, Kids(e)[0], m) == Eval(w, x, m);
      FirstRun(w, e, x, m);
    } else {
      LaterRun(w, e, i, x, m);
    }
  }

  lemma SecondOperand(w: World, first: Expr, kid: Expr, x: Expr, m: Mem)
    requires SameValue(w, kid, x)
    ensures Eval(w, first, m).Ok? ==> Eval(w, kid, Eval(w, first, m).mem) == Eval(w, x, Eval(w, first, m).mem)
  {
  }

  /** Replacing any rvalue position by an expression of the same value, at any depth and
      also inside lvalues, leaves value and effects of the whole expression. */
  lemma {:induction false} ReplaceKeepsValue(w: World, e: Expr, path: seq<nat>, lvalue: bool, x: Expr)
    requires Replaceable(e, path, lvalue) && SameValue(w, Sub(e, path, lvalue), x)
    ensures SameValue(w, e, Replace(e, path, lvalue, x))
    ensures |path| > 0 ==> SameAddr(w, e, Replace(e, path, lvalue, x))
    decreases |path|
  {
    if |path| > 0 {
      var i := path[0];
      var inner := LvalueKid(e, i, lvalue);
      ReplaceKeepsValue(w, Kids(e)[i], path[1..], inner, x);
      KidCongruence(w, e, i, Replace(Kids(e)[i], path[1..], inner, x));
    }
  }

  // ----- positions in statements -----

  /** The expression slots of a statement: one, or the three of a `for`. */
  function Slot(s: Stmt, i: nat): Option<Expr> {
    match s
    case Do(expr) => if i == 0 then Some(expr) else None
    case Declare(_, init) => if i == 0 then init else None
    case If(cond, _, _) => if i == 0 then Some(cond) else None
    case While(cond, _) => if i == 0 then Some(cond) else None
    case DoWhile(_, cond) => if i == 0 then Some(cond) else None
    case For(first, test, next, _) => if i == 0 then first else if i == 1 then test else if i == 2 then next else None
    case Return(result) => if i == 0 then result else None
    case _ => None
  }

  function WithSlot(s: Stmt, i: nat, x: Expr): Stmt
    requires Slot(s, i).Some?
  {
    match s
    case Do(_) => Do(x)
    case Declare(name, _) => Declare(name, Some(x))
    case If(_, iftrue, iffalse) => If(x, iftrue, iffalse)
    case While(_, body) => While(x, body)
    case DoWhile(body, _) => DoWhile(body, x)
    case For(first, test, next, body) =>
      if i == 0 then For(Some(x), test, next, body)
      else if i == 1 then For(first, Some(x), next, body) else For(first, test, Some(x), body)
    case Return(_) => Return(Some(x))
  }

  /** Is the slot a condition, of which only the truth counts? */
  predicate IsCondition(s: Stmt, i: nat) {
    (i == 0 && (s.If? || s.While? || s.DoWhile?)) || (i == 1 && s.For?)
  }

  function Parts(s: Stmt): seq<Stmt> {
    match s
    case Block(items) => items
    case If(_, iftrue, iffalse) => [iftrue, iffalse]
    case While(_, body) => [body]
    case DoWhile(body, _) => [body]
    case For(_, _, _, body) => [body]
    case _ => []
  }

  function WithPart(s: Stmt, i: nat, t: Stmt): Stmt
    requires i < |Parts(s)|
  {
    match s
    case Block(items) => Block(items[i := t])
    case If(cond, iftrue, iffalse) => if i == 0 then If(cond, t, iffalse) else If(cond, iftrue, t)
    case While(cond, _) => While(cond, t)
    case DoWhile(_, cond) => DoWhile(t, cond)
    case For(first, test, next, _) => For(first, test, next, t)
  }

  /** A statement inside a statement. */
  predicate HasStmt(s: Stmt, path: seq<nat>)
    decreases |path|
  {
    |path| == 0 || (path[0] < |Parts(s)| && HasStmt(Parts(s)[path[0]], path[1..]))
  }

  function StmtAt(s: Stmt, path: seq<nat>): Stmt
    requires HasStmt(s, path)
    decreases |path|
  {
    if |path| == 0 then s else StmtAt(Parts(s)[path[0]], path[1..])
  }

  function ReplaceStmt(s: Stmt, path: seq<nat>, t: Stmt): Stmt
    requires HasStmt(s, path)
    decreases |path|
  {
    if |path| == 0 then t else WithPart(s, path[0], ReplaceStmt(Parts(s)[path[0]], path[1..], t))
  }

  // ----- statements that run alike -----

  /** The conditions agree in truth and in effect. */
  ghost predicate SameTruth(w: World, a: Expr, b: Expr) {
    forall m :: Test(w, Some(a), m) == Test(w, Some(b), m)
  }

  ghost predicate SameTest(w: World, a: Option<Expr>, b: Option<Expr>) {
    forall m :: Test(w, a, m) == Test(w, b, m)
  }

  ghost predicate SameEffect(w: World, a: Option<Expr>, b: Option<Expr>) {
    forall m :: Effect(w, a, m) == Effect(w, b, m)
  }

  lemma SameValueMeans(w: World, a: Expr, b: Expr)
    requires SameValue(w, a, b)
    ensures SameTruth(w, a, b) && SameEffect(w, Some(a), Some(b)) && SameTest(w, Some(a), Some(b))
  {
    forall m ensures Test(w, Some(a), m) == Test(w, Some(b), m) && Effect(w, Some(a), m) == Effect(w, Some(b), m) {
      assert Eval(w, a, m) == Eval(w, b, m);
    }
  }

  /** Two loops with equivalent conditions, steps and bodies. */
  ghost predicate LoopsAlike(w: World, t1: Option<Expr>, n1: Option<Expr>, b1: Stmt,
                             t2: Option<Expr>, n2: Option<Expr>, b2: Stmt)
  {
    SameTest(w, t1, t2) && SameEffect(w, n1, n2) && SameRuns(w, b1, b2)
  }

  lemma BodyCongruence(w: World, t1: Option<Expr>, n1: Option<Expr>, b1: Stmt,
                       t2: Option<Expr>, n2: Option<Expr>, b2: Stmt, m: Mem, fuel: nat)
    requires LoopsAlike(w, t1, n1, b1, t2, n2, b2)
    ensures Exec(w, b1, m, fuel) == Exec(w, b2, m, fuel)
  {
  }

  lemma TurnEndCongruence(w: World, t1: Option<Expr>, n1: Option<Expr>, b1: Stmt,
                          t2: Option<Expr>, n2: Option<Expr>, b2: Stmt, m: Mem)
    requires LoopsAlike(w, t1, n1, b1, t2, n2, b2)
    ensures TurnEnd(w, t1, n1, m) == TurnEnd(w, t2, n2, m)
  {
    var e := Effect(w, n1, m);
    assert e == Effect(w, n2, m);
    if e.Normal? {
      assert Test(w, t1, e.mem) == Test(w, t2, e.mem);
    }
  }

  /** Such loops run alike. */
  lemma {:induction false} LoopCongruence(w: World, t1: Option<Expr>, n1: Option<Expr>, b1: Stmt,
                                          t2: Option<Expr>, n2: Option<Expr>, b2: Stmt, m: Mem, fuel: nat)
    requires LoopsAlike(w, t1, n1, b1, t2, n2, b2)
    ensures Iterate(w, t1, n1, b1, m, fuel) == Iterate(w, t2, n2, b2, m, fuel)
    decreases fuel, 2
  {
    BodyCongruence(w, t1, n1, b1, t2, n2, b2, m, fuel);
    AfterTurnCongruence(w, t1, n1, b1, t2, n2, b2, Exec(w, b1, m, fuel), fuel);
  }

  lemma {:induction false} AfterTurnCongruence(w: World, t1: Option<Expr>, n1: Option<Expr>, b1: Stmt,
                                               t2: Option<Expr>, n2: Option<Expr>, b2: Stmt, o: Outcome, fuel: nat)
    requires LoopsAlike(w, t1, n1, b1, t2, n2, b2)
    ensures AfterTurn(w, t1, n1, b1, o, fuel) == AfterTurn(w, t2, n2, b2, o, fuel)
    decreases fuel, 1
  {
    if o.Normal? || o.Continued? {
      TurnEndCongruence(w, t1, n1, b1, t2, n2, b2, o.mem);
      AgainCongruence(w, t1, n1, b1, t2, n2, b2, TurnEnd(w, t1, n1, o.mem), fuel);
    }
  }

  lemma {:induction false} AgainCongruence(w: World, t1: Option<Expr>, n1: Option<Expr>, b1: Stmt,
                                           t2: Option<Expr>, n2: Option<Expr>, b2: Stmt, t: Tested, fuel: nat)
    requires LoopsAlike(w, t1, n1, b1, t2, n2, b2)
    ensures Again(w, t1, n1, b1, t, fuel) == Again(w, t2, n2, b2, t, fuel)
    decreases fuel, 0
  {
    if t.Go? && fuel > 0 {
      LoopCongruence(w, t1, n1, b1, t2, n2, b2, t.mem, fuel - 1);
    }
  }

  lemma GuardedCongruence(w: World, t1: Option<Expr>, n1: Option<Expr>, b1: Stmt,
                          t2: Option<Expr>, n2: Option<Expr>, b2: Stmt, t: Tested, fuel: nat)
    requires LoopsAlike(w, t1, n1, b1, t2, n2, b2)
    ensures Guarded(w, t1, n1, b1, t, fuel) == Guarded(w, t2, n2, b2, t, fuel)
  {
    if t.Go? {
      LoopCongruence(w, t1, n1, b1, t2, n2, b2, t.mem, fuel);
    }
  }

  lemma {:induction false} ItemsCongruence(w: World, items: seq<Stmt>, i: nat, t: Stmt, m: Mem, fuel: nat)
    requires i < |items| && SameRuns(w, items[i], t)
    ensures ExecAll(w, items[i := t], m, fuel) == ExecAll(w, items, m, fuel)
    decreases |items|
  {
    if i == 0 {
      assert items[0 := t][1..] == items[1..];
    } else {
      assert items[i := t][1..] == items[1..][i - 1 := t];
      var o := Exec(w, items[0], m, fuel);
      if o.Normal? {
        ItemsCongruence(w, items[1..], i - 1, t, o.mem, fuel);
      }
    }
  }

  lemma PartCongruence(w: World, s: Stmt, i: nat, t: Stmt)
    requires i < |Parts(s)| && SameRuns(w, Parts(s)[i], t)
    ensures SameRuns(w, s, WithPart(s, i, t))
  {
    forall m, fuel: nat ensures Exec(w, s, m, fuel) == Exec(w, WithPart(s, i, t), m, fuel) {
      PartRun(w, s, i, t, m, fuel);
    }
  }

  lemma PartRun(w: World, s: Stmt, i: nat, t: Stmt, m: Mem, fuel: nat)
    requires i < |Parts(s)| && SameRuns(w, Parts(s)[i], t)
    ensures Exec(w, s, m, fuel) == Exec(w, WithPart(s, i, t), m, fuel)
  {
    match s
    case Block(items) =>
      ItemsCongruence(w, items, i, t, m, fuel);
    case If(cond, iftrue, iffalse) =>
      var c := Test(w, Some(cond), m);
      if c.Go? || c.Stop? {
        assert Exec(w, Parts(s)[i], c.mem, fuel) == Exec(w, t, c.mem, fuel);
      }
    case While(cond, body) =>
      GuardedCongruence(w, Some(cond), None, body, Some(cond), None, t, Test(w, Some(cond), m), fuel);
    case DoWhile(body, cond) =>
      LoopCongruence(w, Some(cond), None, body, Some(cond), None, t, m, fuel);
    case For(first, test, next, body) =>
      var e := Effect(w, first, m);
      if e.Normal? {
        GuardedCongruence(w, test, next, body, test, next, t, Test(w, test, e.mem), fuel);
      }
  }

  /** Replacing a statement anywhere, under any loops, by one that runs alike leaves every
      run of the whole function. */
  lemma {:induction false} ReplaceKeepsRuns(w: World, s: Stmt, path: seq<nat>, t: Stmt)
    requires HasStmt(s, path) && SameRuns(w, StmtAt(s, path), t)
    ensures SameRuns(w, s, ReplaceStmt(s, path, t))
    decreases |path|
  {
    if |path| > 0 {
      ReplaceKeepsRuns(w, Parts(s)[path[0]], path[1..], t);
      PartCongruence(w, s, path[0], ReplaceStmt(Parts(s)[path[0]], path[1..], t));
    }
  }

  /** A slot replaced by an expression of the same value, or a condition by one of the
      same truth. */
  lemma SlotCongruence(w: World, s: Stmt, i: nat, x: Expr)
    requires Slot(s, i).Some?
    requires SameValue(w, Slot(s, i).value, x) || (IsCondition(s, i) && SameTruth(w, Slot(s, i).value, x))
    ensures SameRuns(w, s, WithSlot(s, i, x))
  {
    if SameValue(w, Slot(s, i).value, x) {
      SameValueMeans(w, Slot(s, i).value, x);
    }
    forall m, fuel: nat ensures Exec(w, s, m, fuel) == Exec(w, WithSlot(s, i, x), m, fuel) {
      if IsCondition(s, i) {
        ConditionRun(w, s, i, x, m, fuel);
      } else {
        ValueRun(w, s, i, x, m, fuel);
      }
    }
  }

  lemma ConditionRun(w: World, s: Stmt, i: nat, x: Expr, m: Mem, fuel: nat)
    requires Slot(s, i).Some? && IsCondition(s, i) && SameTruth(w, Slot(s, i).value, x)
    ensures Exec(w, s, m, fuel) == Exec(w, WithSlot(s, i, x), m, fuel)
  {
    match s
    case If(cond, _, _) =>
      assert Test(w, Some(cond), m) == Test(w, Some(x), m);
    case While(cond, body) =>
      assert Test(w, Some(cond), m) == Test(w, Some(x), m);
      GuardedCongruence(w, Some(cond), None, body, Some(x), None, body, Test(w, Some(x), m), fuel);
    case DoWhile(body, cond) =>
      LoopCongruence(w, Some(cond), None, body, Some(x), None, body, m, fuel);
    case For(first, test, next, body) =>
      var e := Effect(w, first, m);
      if e.Normal? {
        assert Test(w, test, e.mem) == Test(w, Some(x), e.mem);
        GuardedCongruence(w, test, next, body, Some(x), next, body, Test(w, Some(x), e.mem), fuel);
      }
  }

  lemma ValueRun(w: World, s: Stmt, i: nat, x: Expr, m: Mem, fuel: nat)
    requires Slot(s, i).Some? && !IsCondition(s, i) && SameValue(w, Slot(s, i).value, x)
    ensures Exec(w, s, m, fuel) == Exec(w, WithSlot(s, i, x), m, fuel)
  {
    var was := Slot(s, i).value;
    SameValueMeans(w, was, x);
    match s
    case Do(_) =>
      assert Effect(w, Some(was), m) == Effect(w, Some(x), m);
    case Declare(name, _) =>
      KidCongruence(w, Assign(None, Var(name), was), 1, x);
      assert Eval(w, Assign(None, Var(name), was), m) == Eval(w, Assign(None, Var(name), x), m);
    case Return(_) =>
      assert Eval(w, was, m) == Eval(w, x, m);
    case For(first, test, next, body) =>
      assert Effect(w, Some(was), m) == Effect(w, Some(x), m);
      var e := Effect(w, first, m);
      if i == 2 && e.Normal? {
        GuardedCongruence(w, test, next, body, test, Some(x), body, Test(w, test, e.mem), fuel);
      }
  }

  // ----- the whole function -----

  /** An rvalue position of a function: a statement, one of its slots, and a path in it. */
  datatype Position = Position(stmt: seq<nat>, slot: nat, path: seq<nat>)

  predicate HasExpr(s: Stmt, at: Position) {
    && HasStmt(s, at.stmt) && Slot(StmtAt(s, at.stmt), at.slot).Some?
    && Replaceable(Slot(StmtAt(s, at.stmt), at.slot).value, at.path, false)
  }

  function ExprAt(s: Stmt, at: Position): Expr
    requires HasExpr(s, at)
  {
    Sub(Slot(StmtAt(s, at.stmt), at.slot).value, at.path, false)
  }

  function ReplaceExpr(s: Stmt, at: Position, x: Expr): Stmt
    requires HasExpr(s, at)
  {
    var t := StmtAt(s, at.stmt);
    ReplaceStmt(s, at.stmt, WithSlot(t, at.slot, Replace(Slot(t, at.slot).value, at.path, false, x)))
  }

  /** Replacing an rvalue anywhere in a function by an expression of the same value leaves
      every run of the function. */
  lemma ReplaceExprKeepsRuns(w: World, s: Stmt, at: Position, x: Expr)
    requires HasExpr(s, at) && SameValue(w, ExprAt(s, at), x)
    ensures SameRuns(w, s, ReplaceExpr(s, at, x))
  {
    var t := StmtAt(s, at.stmt);
    var e := Slot(t, at.slot).value;
    ReplaceKeepsValue(w, e, at.path, false, x);
    SlotCongruence(w, t, at.slot, Replace(e, at.path, false, x));
    ReplaceKeepsRuns(w, s, at.stmt, WithSlot(t, at.slot, Replace(e, at.path, false, x)));
  }
}
