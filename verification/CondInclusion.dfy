/** Conditional inclusion in the preprocessor: three variables and a stack decide
    line by line what is kept, and on every well-nested file they keep what section
    6.10.1 of ISO/IEC 9899:1999 says. */
module CondInclusion {

  /** The macro table: a name and an identity for its replacement. */
  type Table = map<string, nat>

  datatype Condition = Defined(name: string) | NotDefined(name: string) | Expression(id: nat)

  /** A line of input. The line breaks inside a directive are kept whatever happens. */
  datatype Line =
    | Text(tokens: seq<nat>)
    | Define(breaks: seq<nat>, name: string, body: nat)
    | Undef(breaks: seq<nat>, name: string)
    | If(breaks: seq<nat>, cond: Condition)
    | Elif(breaks: seq<nat>, id: nat)
    | Else(breaks: seq<nat>)
    | Endif(breaks: seq<nat>)
    | Other(breaks: seq<nat>)

  /** A run of tokens handed to macro expansion, with the table in force. */
  datatype Chunk = Chunk(tokens: seq<nat>, table: Table)

  /** A condition that was evaluated, and the table it was evaluated in. */
  datatype Evaluation = Evaluation(cond: Condition, table: Table)

  /** All that a run affects: macros, the pending chunk, the chunks expanded so far,
      the conditions evaluated and the number of misplaced directives reported. */
  datatype World = World(table: Table, chunk: seq<nat>, out: seq<Chunk>, evals: seq<Evaluation>, errors: nat)

  /** The value of an `#if` expression in a table. */
  type Evaluator = (nat, Table) -> bool

  function Holds(cond: Condition, table: Table, eval: Evaluator): bool {
    match cond
    case Defined(name) => name in table
    case NotDefined(name) => name !in table
    case Expression(id) => eval(id, table)
  }

  function Keep(w: World, tokens: seq<nat>): World {
    w.(chunk := w.chunk + tokens)
  }

  function Flushed(w: World): World {
    w.(out := w.out + [Chunk(w.chunk, w.table)], chunk := [])
  }

  function Evaluated(w: World, cond: Condition): World {
    w.(evals := w.evals + [Evaluation(cond, w.table)])
  }

  function Misplaced(w: World): World {
    w.(errors := w.errors + 1)
  }

  // ----- the state machine -----

  /** `enable`, `iftrigger`, `ifstack`. */
  datatype Control = Control(enable: bool, trigger: bool, stack: seq<(bool, bool)>)

  function StepIf(k: Control, w: World, cond: Condition, eval: Evaluator): (Control, World) {
    var stack := k.stack + [(k.enable, k.trigger)];
    if !k.enable then (k.(stack := stack), w)
    else
      var on := Holds(cond, w.table, eval);
      (Control(on, on, stack), Evaluated(w, cond))
  }

  function StepElif(k: Control, w: World, id: nat, eval: Evaluator): (Control, World) {
    if k.stack == [] then (k, Misplaced(w))
    else if !k.stack[|k.stack| - 1].0 then (k, w)
    else if k.enable then (k.(enable := false), w)
    else if k.trigger then (k, w)
    else
      var on := eval(id, w.table);
      (if on then k.(enable := true, trigger := true) else k, Evaluated(w, Expression(id)))
  }

  function StepElse(k: Control, w: World): (Control, World) {
    if k.stack == [] then (k, Misplaced(w))
    else if !k.stack[|k.stack| - 1].0 then (k, w)
    else if k.enable then (k.(enable := false), w)
    else if k.trigger then (k, w)
    else (k.(enable := true, trigger := true), w)
  }

  function StepEndif(k: Control, w: World): (Control, World) {
    if k.stack == [] then (k, Misplaced(w))
    else
      var top := |k.stack| - 1;
      (Control(k.stack[top].0, k.stack[top].1, k.stack[..top]), w)
  }

  function Step(k: Control, w: World, line: Line, eval: Evaluator): (Control, World) {
    match line
    case Text(tokens) => (k, if k.enable then Keep(w, tokens) else w)
    case Define(breaks, name, body) =>
      var v := Keep(w, breaks);
      (k, if k.enable then Flushed(v).(table := v.table[name := body]) else v)
    case Undef(breaks, name) =>
      var v := Keep(w, breaks);
      (k, if k.enable then Flushed(v).(table := v.table - {name}) else v)
    case If(breaks, cond) => StepIf(k, Keep(w, breaks), cond, eval)
    case Elif(breaks, id) => StepElif(k, Keep(w, breaks), id, eval)
    case Else(breaks) => StepElse(k, Keep(w, breaks))
    case Endif(breaks) => StepEndif(k, Keep(w, breaks))
    case Other(breaks) => (k, Keep(w, breaks))
  }

  function Run(k: Control, w: World, lines: seq<Line>, eval: Evaluator): (Control, World)
    decreases |lines|
  {
    if lines == [] then (k, w)
    else
      var next := Step(k, w, lines[0], eval);
      Run(next.0, next.1, lines[1..], eval)
  }

  lemma {:induction false} RunConcat(k: Control, w: World, a: seq<Line>, b: seq<Line>, eval: Evaluator)
    ensures var mid := Run(k, w, a, eval);
            Run(k, w, a + b, eval) == Run(mid.0, mid.1, b, eval)
    decreases |a|
  {
    if a == [] {
      assert a + b == b;
    } else {
      assert (a + b)[0] == a[0] && (a + b)[1..] == a[1..] + b;
      var next := Step(k, w, a[0], eval);
      RunConcat(next.0, next.1, a[1..], b, eval);
    }
  }

  /** The preprocessor object: its macro table outlives a call. */
  class Preprocessor {
    var macros: Table

    constructor (table: Table)
      ensures macros == table
    {
      macros := table;
    }

    /** One file: the loop with its three local variables. */
    method ParseGen(lines: seq<Line>, eval: Evaluator)
      returns (out: seq<Chunk>, evals: seq<Evaluation>, errors: nat)
      modifies this
      ensures var end := Run(Control(true, false, []), World(old(macros), [], [], [], 0), lines, eval).1;
              macros == end.table && out == Flushed(end).out && evals == end.evals && errors == end.errors
      ensures Balanced(lines, 0) ==> exists items :: ItemsOk(items) && Lines(items) == lines
      ensures forall items | ItemsOk(items) && Lines(items) == lines ::
                var end := Selected(items, World(old(macros), [], [], [], 0), eval);
                macros == end.table && out == Flushed(end).out && evals == end.evals && errors == end.errors
      ensures forall items | ItemsOk(items) && Lines(items) == lines ::
                Meaning(Paired(out), macros, evals) == Processed(items, old(macros), eval) && errors == 0
    {
      FileIsSelected(lines, World(macros, [], [], [], 0), eval);
      var chunk: seq<nat> := [];
      var enable, iftrigger := true, false;
      var ifstack: seq<(bool, bool)> := [];
      out, evals, errors := [], [], 0;
      ghost var goal := Run(Control(true, false, []), World(macros, [], [], [], 0), lines, eval);
      var n := 0;
      while n < |lines|
        invariant n <= |lines|
        invariant Run(Control(enable, iftrigger, ifstack), World(macros, chunk, out, evals, errors), lines[n..], eval)
               == goal
      {
        var x := lines[n];
        assert lines[n..][1..] == lines[n + 1..];
        if !x.Text? {
          chunk := chunk + x.breaks;
        }
        match x {
        case Text(tokens) =>
          if enable {
            chunk := chunk + tokens;
          }
        case Define(_, name, body) =>
          if enable {
            out := out + [Chunk(chunk, macros)];
            chunk := [];
            macros := macros[name := body];
          }
        case Undef(_, name) =>
          if enable {
            out := out + [Chunk(chunk, macros)];
            chunk := [];
            macros := macros - {name};
          }
        case If(_, cond) =>
          ifstack := ifstack + [(enable, iftrigger)];
          if enable {
            evals := evals + [Evaluation(cond, macros)];
            if !Holds(cond, macros, eval) {
              enable := false;
              iftrigger := false;
            } else {
              iftrigger := true;
            }
          }
        case Elif(_, id) =>
          if ifstack != [] {
            if ifstack[|ifstack| - 1].0 {
              if enable {
                enable := false;
              } else if !iftrigger {
                evals := evals + [Evaluation(Expression(id), macros)];
                if eval(id, macros) {
                  enable := true;
                  iftrigger := true;
                }
              }
            }
          } else {
            errors := errors + 1;
          }
        case Else(_) =>
          if ifstack != [] {
            if ifstack[|ifstack| - 1].0 {
              if enable {
                enable := false;
              } else if !iftrigger {
                enable := true;
                iftrigger := true;
              }
            }
          } else {
            errors := errors + 1;
          }
        case Endif(_) =>
          if ifstack != [] {
            enable, iftrigger := ifstack[|ifstack| - 1].0, ifstack[|ifstack| - 1].1;
            ifstack := ifstack[..|ifstack| - 1];
          } else {
            errors := errors + 1;
          }
        case Other(_) =>
        }
        n := n + 1;
      }
      out := out + [Chunk(chunk, macros)];
    }
  }

  // ----- well-nested files -----

  datatype Items = Nil | Cons(head: Item, tail: Items)

  /** A line that opens no group, or a whole chain of groups with its `#endif`. */
  datatype Item =
    | Plain(line: Line)
    | Chain(breaks: seq<nat>, cond: Condition, body: Items, rest: Groups, endBreaks: seq<nat>)

  /** The later groups of a chain: `#elif` with an expression, or `#else` without. */
  datatype Groups = NoMore | Group(breaks: seq<nat>, guard: Guard, body: Items, rest: Groups)

  datatype Guard = When(id: nat) | Otherwise

  predicate IsPlain(line: Line) {
    line.Text? || line.Define? || line.Undef? || line.Other?
  }

  predicate ItemsOk(items: Items) {
    items.Cons? ==> ItemOk(items.head) && ItemsOk(items.tail)
  }

  predicate ItemOk(item: Item) {
    match item
    case Plain(line) => IsPlain(line)
    case Chain(_, _, body, rest, _) => ItemsOk(body) && GroupsOk(rest)
  }

  predicate GroupsOk(groups: Groups) {
    groups.Group? ==> ItemsOk(groups.body) && GroupsOk(groups.rest)
  }

  function Lines(items: Items): seq<Line> {
    match items
    case Nil => []
    case Cons(head, tail) => LinesOf(head) + Lines(tail)
  }

  function LinesOf(item: Item): seq<Line> {
    match item
    case Plain(line) => [line]
    case Chain(breaks, cond, body, rest, endBreaks) =>
      [If(breaks, cond)] + (Lines(body) + (GroupLines(rest) + [Endif(endBreaks)]))
  }

  function GroupLines(groups: Groups): seq<Line> {
    match groups
    case NoMore => []
    case Group(breaks, guard, body, rest) => [GuardLine(breaks, guard)] + (Lines(body) + GroupLines(rest))
  }

  function GuardLine(breaks: seq<nat>, guard: Guard): Line {
    match guard
    case When(id) => Elif(breaks, id)
    case Otherwise => Else(breaks)
  }

  // ----- what the standard says should be kept -----

  /** The line breaks of the directives of skipped text, which are all that remains of it. */
  function Breaks(items: Items): seq<nat> {
    match items
    case Nil => []
    case Cons(Plain(line), tail) => (if line.Text? then [] else line.breaks) + Breaks(tail)
    case Cons(Chain(breaks, _, body, rest, endBreaks), tail) =>
      breaks + Breaks(body) + GroupBreaks(rest) + endBreaks + Breaks(tail)
  }

  function GroupBreaks(groups: Groups): seq<nat> {
    match groups
    case NoMore => []
    case Group(breaks, _, body, rest) => breaks + Breaks(body) + GroupBreaks(rest)
  }

  /** Text that is not skipped: of each chain the first group whose condition holds
      is processed, and of the others nothing but line breaks remains. */
  function Selected(items: Items, w: World, eval: Evaluator): World
    requires ItemsOk(items)
  {
    match items
    case Nil => w
    case Cons(head, tail) => Selected(tail, SelectedItem(head, w, eval), eval)
  }

  function SelectedItem(item: Item, w: World, eval: Evaluator): World
    requires ItemOk(item)
  {
    match item
    case Plain(line) => Step(Control(true, false, []), w, line, eval).1
    case Chain(breaks, cond, body, rest, endBreaks) =>
      var v := Evaluated(Keep(w, breaks), cond);
      var end := if Holds(cond, w.table, eval) then Keep(Selected(body, v, eval), GroupBreaks(rest))
                 else SelectedGroups(rest, Keep(v, Breaks(body)), eval);
      Keep(end, endBreaks)
  }

  /** The first group that holds, none of the chain having been taken so far. */
  function SelectedGroups(groups: Groups, w: World, eval: Evaluator): World
    requires GroupsOk(groups)
  {
    match groups
    case NoMore => w
    case Group(breaks, guard, body, rest) =>
      var v := match guard
               case When(id) => Evaluated(Keep(w, breaks), Expression(id))
               case Otherwise => Keep(w, breaks);
      if guard.Otherwise? || eval(guard.id, w.table) then Keep(Selected(body, v, eval), GroupBreaks(rest))
      else SelectedGroups(rest, Keep(v, Breaks(body)), eval)
  }

  // ----- the machine keeps exactly that -----

  lemma KeepTwice(w: World, a: seq<nat>, b: seq<nat>)
    ensures Keep(Keep(w, a), b) == Keep(w, a + b)
    ensures Keep(w, []) == w
  {
    assert (w.chunk + a) + b == w.chunk + (a + b);
    assert w.chunk + [] == w.chunk;
  }

  /** In skipped text the machine evaluates, defines and expands nothing, and comes
      out in the state in which it went in. */
  lemma {:induction false} SkippedText(items: Items, k: Control, w: World, eval: Evaluator)
    requires ItemsOk(items) && !k.enable
    ensures Run(k, w, Lines(items), eval) == (k, Keep(w, Breaks(items)))
    decreases items
  {
    match items
    case Nil =>
      KeepTwice(w, [], []);
    case Cons(head, tail) =>
      RunConcat(k, w, LinesOf(head), Lines(tail), eval);
      match head {
        case Plain(line) =>
          var breaks := if line.Text? then [] else line.breaks;
          SingleLine(k, w, line, eval);
          KeepTwice(w, breaks, Breaks(tail));
          SkippedText(tail, k, Keep(w, breaks), eval);
        case Chain(breaks, cond, body, rest, endBreaks) =>
          SkippedChain(head, k, w, eval);
          var mine := breaks + Breaks(body) + GroupBreaks(rest) + endBreaks;
          KeepTwice(w, mine, Breaks(tail));
          SkippedText(tail, k, Keep(w, mine), eval);
      }
  }

  lemma SingleLine(k: Control, w: World, line: Line, eval: Evaluator)
    ensures Run(k, w, [line], eval) == Step(k, w, line, eval)
  {
    var next := Step(k, w, line, eval);
    assert [line][1..] == [];
    assert Run(next.0, next.1, [], eval) == next;
  }

  lemma FirstLine(k: Control, w: World, line: Line, rest: seq<Line>, eval: Evaluator)
    ensures var next := Step(k, w, line, eval);
            Run(k, w, [line] + rest, eval) == Run(next.0, next.1, rest, eval)
  {
    assert ([line] + rest)[1..] == rest;
  }

  lemma {:induction false} SkippedChain(item: Item, k: Control, w: World, eval: Evaluator)
    requires ItemOk(item) && item.Chain? && !k.enable
    ensures Run(k, w, LinesOf(item), eval)
         == (k, Keep(w, item.breaks + Breaks(item.body) + GroupBreaks(item.rest) + item.endBreaks))
    decreases item
  {
    var Chain(breaks, cond, body, rest, endBreaks) := item;
    var inner := k.(stack := k.stack + [(k.enable, k.trigger)]);
    var tail := GroupLines(rest) + [Endif(endBreaks)];
    FirstLine(k, w, If(breaks, cond), Lines(body) + tail, eval);
    RunConcat(inner, Keep(w, breaks), Lines(body), tail, eval);
    SkippedText(body, inner, Keep(w, breaks), eval);
    KeepTwice(w, breaks, Breaks(body));
    var v := Keep(w, breaks + Breaks(body));
    RunConcat(inner, v, GroupLines(rest), [Endif(endBreaks)], eval);
    SkippedGroups(rest, inner, v, eval);
    KeepTwice(w, breaks + Breaks(body), GroupBreaks(rest));
    Closing(k, inner, Keep(v, GroupBreaks(rest)), endBreaks, eval);
    KeepTwice(w, breaks + Breaks(body) + GroupBreaks(rest), endBreaks);
  }

  /** `#endif` restores what the opening directive saved. */
  lemma Closing(k: Control, inner: Control, w: World, endBreaks: seq<nat>, eval: Evaluator)
    requires inner.stack == k.stack + [(k.enable, k.trigger)]
    ensures Run(inner, w, [Endif(endBreaks)], eval) == (k, Keep(w, endBreaks))
  {
    SingleLine(inner, w, Endif(endBreaks), eval);
    assert inner.stack[..|inner.stack| - 1] == k.stack;
  }

  /** Later groups are skipped when the whole chain is, and when one before was taken. */
  lemma {:induction false} SkippedGroups(groups: Groups, inner: Control, w: World, eval: Evaluator)
    requires GroupsOk(groups) && inner.stack != [] && !inner.enable
    requires !inner.stack[|inner.stack| - 1].0 || inner.trigger
    ensures Run(inner, w, GroupLines(groups), eval) == (inner, Keep(w, GroupBreaks(groups)))
    decreases groups
  {
    match groups
    case NoMore =>
      KeepTwice(w, [], []);
    case Group(breaks, guard, body, rest) =>
      FirstLine(inner, w, GuardLine(breaks, guard), Lines(body) + GroupLines(rest), eval);
      SkippedBody(groups, inner, w, eval);
  }

  lemma {:induction false} SkippedBody(groups: Groups, inner: Control, w: World, eval: Evaluator)
    requires GroupsOk(groups) && groups.Group? && inner.stack != [] && !inner.enable
    requires !inner.stack[|inner.stack| - 1].0 || inner.trigger
    ensures Run(inner, Keep(w, groups.breaks), Lines(groups.body) + GroupLines(groups.rest), eval)
         == (inner, Keep(w, GroupBreaks(groups)))
    decreases groups, 0
  {
    var Group(breaks, guard, body, rest) := groups;
    var v := Keep(w, breaks);
    RunConcat(inner, v, Lines(body), GroupLines(rest), eval);
    SkippedText(body, inner, v, eval);
    SkippedGroups(rest, inner, Keep(v, Breaks(body)), eval);
    KeepTwice(w, breaks, Breaks(body));
    KeepTwice(w, breaks + Breaks(body), GroupBreaks(rest));
  }

  /** On every well-nested file, at any depth, the machine keeps exactly the selected
      text, evaluates exactly the conditions that selection needs, and leaves its own
      state as it was. */
  lemma {:induction false} MachineSelects(items: Items, k: Control, w: World, eval: Evaluator)
    requires ItemsOk(items) && k.enable
    ensures Run(k, w, Lines(items), eval) == (k, Selected(items, w, eval))
    decreases items
  {
    match items
    case Nil =>
    case Cons(head, tail) =>
      RunConcat(k, w, LinesOf(head), Lines(tail), eval);
      match head {
        case Plain(line) =>
          SingleLine(k, w, line, eval);
        case Chain(_, _, _, _, _) =>
          ChainSelects(head, k, w, eval);
      }
      MachineSelects(tail, k, SelectedItem(head, w, eval), eval);
  }

  lemma {:induction false} ChainSelects(item: Item, k: Control, w: World, eval: Evaluator)
    requires ItemOk(item) && item.Chain? && k.enable
    ensures Run(k, w, LinesOf(item), eval) == (k, SelectedItem(item, w, eval))
    decreases item
  {
    var Chain(breaks, cond, body, rest, endBreaks) := item;
    var on := Holds(cond, w.table, eval);
    var stack := k.stack + [(k.enable, k.trigger)];
    var v := Evaluated(Keep(w, breaks), cond);
    var tail := GroupLines(rest) + [Endif(endBreaks)];
    FirstLine(k, w, If(breaks, cond), Lines(body) + tail, eval);
    RunConcat(Control(on, on, stack), v, Lines(body), tail, eval);
    if on {
      MachineSelects(body, Control(true, true, stack), v, eval);
      var u := Selected(body, v, eval);
      RunConcat(Control(true, true, stack), u, GroupLines(rest), [Endif(endBreaks)], eval);
      AfterTaken(rest, stack, u, eval);
      var end := Run(Control(true, true, stack), u, GroupLines(rest), eval);
      Closing(k, end.0, end.1, endBreaks, eval);
    } else {
      SkippedText(body, Control(false, false, stack), v, eval);
      var u := Keep(v, Breaks(body));
      RunConcat(Control(false, false, stack), u, GroupLines(rest), [Endif(endBreaks)], eval);
      GroupsSelect(rest, stack, u, eval);
      var end := Run(Control(false, false, stack), u, GroupLines(rest), eval);
      Closing(k, end.0, end.1, endBreaks, eval);
    }
  }

  /** A group was just taken: the rest of the chain is skipped without evaluation. */
  lemma {:induction false} AfterTaken(groups: Groups, stack: seq<(bool, bool)>, w: World, eval: Evaluator)
    requires GroupsOk(groups) && stack != [] && stack[|stack| - 1].0
    ensures var end := Run(Control(true, true, stack), w, GroupLines(groups), eval);
            end.0.stack == stack && end.1 == Keep(w, GroupBreaks(groups))
  {
    match groups
    case NoMore =>
      KeepTwice(w, [], []);
    case Group(breaks, guard, body, rest) =>
      FirstLine(Control(true, true, stack), w, GuardLine(breaks, guard), Lines(body) + GroupLines(rest), eval);
      SkippedBody(groups, Control(false, true, stack), w, eval);
  }

  /** No group was taken yet: the first that holds is. */
  lemma {:induction false} GroupsSelect(groups: Groups, stack: seq<(bool, bool)>, w: World, eval: Evaluator)
    requires GroupsOk(groups) && stack != [] && stack[|stack| - 1].0
    ensures var end := Run(Control(false, false, stack), w, GroupLines(groups), eval);
            end.0.stack == stack && end.1 == SelectedGroups(groups, w, eval)
    decreases groups
  {
    match groups
    case NoMore =>
    case Group(breaks, guard, body, rest) =>
      var k := Control(false, false, stack);
      FirstLine(k, w, GuardLine(breaks, guard), Lines(body) + GroupLines(rest), eval);
      var on := guard.Otherwise? || eval(guard.id, w.table);
      var v := match guard
               case When(id) => Evaluated(Keep(w, breaks), Expression(id))
               case Otherwise => Keep(w, breaks);
      assert Step(k, w, GuardLine(breaks, guard), eval) == (Control(on, on, stack), v);
      RunConcat(Control(on, on, stack), v, Lines(body), GroupLines(rest), eval);
      if on {
        MachineSelects(body, Control(true, true, stack), v, eval);
        AfterTaken(rest, stack, Selected(body, v, eval), eval);
      } else {
        SkippedText(body, k, v, eval);
        GroupsSelect(rest, stack, Keep(v, Breaks(body)), eval);
      }
  }

  // ----- which group is the selected one -----

  /** The guards of a chain, in order; `#else` counts as a guard that holds. */
  function Guards(groups: Groups): seq<Guard> {
    match groups
    case NoMore => []
    case Group(_, guard, _, rest) => [guard] + Guards(rest)
  }

  function Body(groups: Groups, i: nat): Items
    requires i < |Guards(groups)|
  {
    if i == 0 then groups.body else Body(groups.rest, i - 1)
  }

  predicate GuardHolds(guard: Guard, table: Table, eval: Evaluator) {
    guard.Otherwise? || eval(guard.id, table)
  }

  /** The conditions among some guards, each evaluated in the same table. */
  function Conditions(guards: seq<Guard>, table: Table): seq<Evaluation> {
    if guards == [] then []
    else (if guards[0].When? then [Evaluation(Expression(guards[0].id), table)] else [])
         + Conditions(guards[1..], table)
  }

  /** When group `i` is the first that holds, its body is the one processed, in the
      table the chain was entered with, and the conditions up to its own are the
      ones evaluated before it; nothing of the chain is evaluated after. */
  lemma {:induction false} FirstTrueGroup(groups: Groups, w: World, eval: Evaluator, i: nat)
      returns (before: seq<nat>, after: seq<nat>)
    requires GroupsOk(groups) && i < |Guards(groups)|
    requires GuardHolds(Guards(groups)[i], w.table, eval)
    requires forall j | 0 <= j < i :: !GuardHolds(Guards(groups)[j], w.table, eval)
    ensures ItemsOk(Body(groups, i))
    ensures var v := w.(chunk := w.chunk + before,
                        evals := w.evals + Conditions(Guards(groups)[..i + 1], w.table));
            SelectedGroups(groups, w, eval) == Keep(Selected(Body(groups, i), v, eval), after)
    decreases groups
  {
    var Group(breaks, guard, body, rest) := groups;
    var guards := Guards(groups);
    assert guards == [guard] + Guards(rest);
    if i == 0 {
      before, after := breaks, GroupBreaks(rest);
      assert Conditions(guards[..1], w.table)
          == if guard.When? then [Evaluation(Expression(guard.id), w.table)] else [] by {
        assert guards[..1] == [guard] && [guard][1..] == [];
      }
      assert w.evals + [] == w.evals;
    } else {
      assert !GuardHolds(guards[0], w.table, eval);
      var v := Keep(Evaluated(Keep(w, breaks), Expression(guard.id)), Breaks(body));
      forall j | 0 <= j < i - 1 ensures !GuardHolds(Guards(rest)[j], v.table, eval) {
        assert !GuardHolds(guards[j + 1], w.table, eval);
      }
      var b;
      b, after := FirstTrueGroup(rest, v, eval, i - 1);
      before := breaks + Breaks(body) + b;
      assert guards[..i + 1] == [guard] + Guards(rest)[..i];
      ConditionsCons(guard, Guards(rest)[..i], w.table);
      Joining(w.chunk, breaks, Breaks(body), b);
      Reordering(w.evals, Evaluation(Expression(guard.id), w.table), Conditions(Guards(rest)[..i], w.table));
    }
  }

  /** When no group holds, every condition is evaluated and only line breaks remain. */
  lemma {:induction false} NoTrueGroup(groups: Groups, w: World, eval: Evaluator)
    requires GroupsOk(groups)
    requires forall g | g in Guards(groups) :: !GuardHolds(g, w.table, eval)
    ensures SelectedGroups(groups, w, eval)
         == w.(chunk := w.chunk + GroupBreaks(groups), evals := w.evals + Conditions(Guards(groups), w.table))
    decreases groups
  {
    match groups
    case NoMore =>
      assert w.chunk + [] == w.chunk && w.evals + [] == w.evals;
    case Group(breaks, guard, body, rest) =>
      var guards := Guards(groups);
      assert guards[0] == guard && !GuardHolds(guards[0], w.table, eval);
      ConditionsCons(guard, Guards(rest), w.table);
      var v := Keep(Evaluated(Keep(w, breaks), Expression(guard.id)), Breaks(body));
      forall g | g in Guards(rest) ensures !GuardHolds(g, v.table, eval) {
        assert g in guards;
      }
      NoTrueGroup(rest, v, eval);
      Joining(w.chunk, breaks, Breaks(body), GroupBreaks(rest));
      Reordering(w.evals, Evaluation(Expression(guard.id), w.table), Conditions(Guards(rest), w.table));
  }

  lemma ConditionsCons(guard: Guard, rest: seq<Guard>, table: Table)
    requires guard.When?
    ensures Conditions([guard] + rest, table) == [Evaluation(Expression(guard.id), table)] + Conditions(rest, table)
  {
    assert ([guard] + rest)[1..] == rest;
  }

  lemma Joining(a: seq<nat>, b: seq<nat>, c: seq<nat>, d: seq<nat>)
    ensures ((a + b) + c) + d == a + ((b + c) + d)
  {
  }

  lemma Reordering(a: seq<Evaluation>, e: Evaluation, b: seq<Evaluation>)
    ensures (a + [e]) + b == a + ([e] + b)
  {
  }

  // ----- every balanced file is well nested -----

  /** Reading from depth `depth`: no directive is misplaced and every group is closed. */
  predicate Balanced(lines: seq<Line>, depth: nat)
    decreases |lines|
  {
    if lines == [] then depth == 0
    else match lines[0]
      case If(_, _) => Balanced(lines[1..], depth + 1)
      case Elif(_, _) => depth > 0 && Balanced(lines[1..], depth)
      case Else(_) => depth > 0 && Balanced(lines[1..], depth)
      case Endif(_) => depth > 0 && Balanced(lines[1..], depth - 1)
      case _ => Balanced(lines[1..], depth)
  }

  /** The well-nested beginning of some lines, up to a directive of an open group. */
  lemma {:induction false} SplitItems(lines: seq<Line>, depth: nat) returns (items: Items, rest: seq<Line>)
    requires Balanced(lines, depth)
    ensures ItemsOk(items) && lines == Lines(items) + rest && Balanced(rest, depth)
    ensures rest != [] ==> rest[0].Elif? || rest[0].Else? || rest[0].Endif?
    decreases |lines|, 2
  {
    if lines == [] || lines[0].Elif? || lines[0].Else? || lines[0].Endif? {
      items, rest := Nil, lines;
      assert [] + lines == lines;
    } else {
      var head, more;
      head, more := SplitItem(lines, depth);
      var tail;
      tail, rest := SplitItems(more, depth);
      items := Cons(head, tail);
      Regroup(LinesOf(head), Lines(tail), rest);
    }
  }

  lemma {:induction false} SplitItem(lines: seq<Line>, depth: nat) returns (item: Item, rest: seq<Line>)
    requires Balanced(lines, depth) && lines != []
    requires lines[0].If? || IsPlain(lines[0])
    ensures ItemOk(item) && lines == LinesOf(item) + rest && Balanced(rest, depth)
    ensures |rest| < |lines|
    decreases |lines|, 1
  {
    if lines[0].If? {
      item, rest := SplitChain(lines, depth);
    } else {
      item, rest := Plain(lines[0]), lines[1..];
      assert lines == [lines[0]] + rest;
    }
  }

  lemma {:induction false} SplitChain(lines: seq<Line>, depth: nat) returns (item: Item, rest: seq<Line>)
    requires Balanced(lines, depth) && lines != [] && lines[0].If?
    ensures ItemOk(item) && lines == LinesOf(item) + rest && Balanced(rest, depth)
    ensures |rest| < |lines|
    decreases |lines|, 0
  {
    var body, more := SplitItems(lines[1..], depth + 1);
    var groups, endBreaks;
    groups, endBreaks, rest := SplitGroups(more, depth);
    item := Chain(lines[0].breaks, lines[0].cond, body, groups, endBreaks);
    var tail := GroupLines(groups) + [Endif(endBreaks)];
    assert lines == [lines[0]] + lines[1..];
    assert [lines[0]] + (Lines(body) + (tail + rest)) == ([lines[0]] + (Lines(body) + tail)) + rest;
  }

  lemma {:induction false} SplitGroups(lines: seq<Line>, depth: nat)
      returns (groups: Groups, endBreaks: seq<nat>, rest: seq<Line>)
    requires Balanced(lines, depth + 1)
    requires lines != [] ==> lines[0].Elif? || lines[0].Else? || lines[0].Endif?
    ensures GroupsOk(groups) && lines == GroupLines(groups) + [Endif(endBreaks)] + rest && Balanced(rest, depth)
    decreases |lines|
  {
    if lines[0].Endif? {
      groups, endBreaks, rest := NoMore, lines[0].breaks, lines[1..];
      assert lines == [] + [Endif(endBreaks)] + rest;
    } else {
      var guard := if lines[0].Elif? then When(lines[0].id) else Otherwise;
      var body, more := SplitItems(lines[1..], depth + 1);
      var others;
      others, endBreaks, rest := SplitGroups(more, depth);
      groups := Group(lines[0].breaks, guard, body, others);
      assert lines[0] == GuardLine(lines[0].breaks, guard);
      assert lines == [lines[0]] + lines[1..];
      JoinGroup(lines[0], Lines(body), GroupLines(others), [Endif(endBreaks)], rest);
    }
  }

  lemma JoinGroup(first: Line, body: seq<Line>, others: seq<Line>, tail: seq<Line>, rest: seq<Line>)
    ensures [first] + (body + (others + tail + rest)) == ([first] + (body + others)) + tail + rest
  {
  }

  /** For every file in which no directive is misplaced and every group is closed,
      running the machine is selecting. */
  lemma BalancedFilesAreSelected(lines: seq<Line>, w: World, eval: Evaluator) returns (items: Items)
    requires Balanced(lines, 0)
    ensures ItemsOk(items) && Lines(items) == lines
    ensures Run(Control(true, false, []), w, lines, eval)
         == (Control(true, false, []), Selected(items, w, eval))
  {
    var rest;
    items, rest := SplitItems(lines, 0);
    assert rest == [];
    assert Lines(items) + [] == Lines(items);
    MachineSelects(items, Control(true, false, []), w, eval);
  }

  // ----- the same, said of the text alone -----

  /** What processing gives: the tokens kept, each with the macro table in force for it, the
      table afterwards, and the conditions evaluated. */
  datatype Meaning = Meaning(text: seq<(nat, Table)>, table: Table, evals: seq<Evaluation>)

  function In(tokens: seq<nat>, table: Table): (ps: seq<(nat, Table)>)
    ensures |ps| == |tokens| && forall i | 0 <= i < |ps| :: ps[i] == (tokens[i], table)
  {
    seq(|tokens|, i requires 0 <= i < |tokens| => (tokens[i], table))
  }

  /** The line breaks of directives, which are kept everywhere. */
  function LineBreaks(lines: seq<Line>): seq<nat> {
    if |lines| == 0 then []
    else (if lines[0].Text? then [] else lines[0].breaks) + LineBreaks(lines[1..])
  }

  function Followed(a: Meaning, b: Meaning): Meaning {
    Meaning(a.text + b.text, b.table, a.evals + b.evals)
  }

  /** Line after line. Text is kept, `#define` and `#undef` change the table for what comes
      after them. */
  function Processed(items: Items, table: Table, eval: Evaluator): Meaning {
    match items
    case Nil => Meaning([], table, [])
    case Cons(head, tail) =>
      var first := ProcessedItem(head, table, eval);
      Followed(first, Processed(tail, first.table, eval))
  }

  /** Of a chain the first group whose condition holds is processed; the others leave the
      line breaks of their directives. */
  function ProcessedItem(item: Item, table: Table, eval: Evaluator): Meaning {
    match item
    case Plain(Text(tokens)) => Meaning(In(tokens, table), table, [])
    case Plain(Define(breaks, name, body)) => Meaning(In(breaks, table), table[name := body], [])
    case Plain(Undef(breaks, name)) => Meaning(In(breaks, table), table - {name}, [])
    case Plain(other) => Meaning(In(other.breaks, table), table, [])
    case Chain(breaks, cond, body, rest, endBreaks) =>
      var holds := match cond
                   case Defined(name) => name in table
                   case NotDefined(name) => name !in table
                   case Expression(id) => eval(id, table);
      var start := Meaning(In(breaks, table), table, [Evaluation(cond, table)]);
      var groups := if holds then Ended(Processed(body, table, eval), LineBreaks(GroupLines(rest)))
                    else Followed(Meaning(In(LineBreaks(Lines(body)), table), table, []),
                                  ProcessedGroups(rest, table, eval));
      Ended(Followed(start, groups), endBreaks)
  }

  function ProcessedGroups(groups: Groups, table: Table, eval: Evaluator): Meaning {
    match groups
    case NoMore => Meaning([], table, [])
    case Group(breaks, guard, body, rest) =>
      var start := Meaning(In(breaks, table), table,
                           if guard.When? then [Evaluation(Expression(guard.id), table)] else []);
      var holds := guard.When? ==> eval(guard.id, table);
      Followed(start,
               if holds then Ended(Processed(body, table, eval), LineBreaks(GroupLines(rest)))
               else Followed(Meaning(In(LineBreaks(Lines(body)), table), table, []),
                             ProcessedGroups(rest, table, eval)))
  }

  /** More tokens at the end, in the table that is then in force. */
  function Ended(m: Meaning, tokens: seq<nat>): Meaning {
    Meaning(m.text + In(tokens, m.table), m.table, m.evals)
  }

  /** All that was expanded or waits to be, each token with its table. */
  function Paired(chunks: seq<Chunk>): seq<(nat, Table)> {
    if |chunks| == 0 then []
    else Paired(chunks[..|chunks| - 1]) + In(chunks[|chunks| - 1].tokens, chunks[|chunks| - 1].table)
  }

  function TextOf(w: World): seq<(nat, Table)> {
    Paired(w.out) + In(w.chunk, w.table)
  }

  /** `v` is `w` after something with this meaning. */
  predicate Did(w: World, m: Meaning, v: World) {
    TextOf(v) == TextOf(w) + m.text && v.table == m.table && v.evals == w.evals + m.evals && v.errors == w.errors
  }

  lemma InConcat(a: seq<nat>, b: seq<nat>, table: Table)
    ensures In(a + b, table) == In(a, table) + In(b, table)
  {
  }

  lemma KeepMeans(w: World, tokens: seq<nat>)
    ensures Did(w, Meaning(In(tokens, w.table), w.table, []), Keep(w, tokens))
  {
    InConcat(w.chunk, tokens, w.table);
  }

  /** Handing on the chunk changes neither text nor table. */
  lemma FlushMeans(w: World)
    ensures TextOf(Flushed(w)) == TextOf(w) && Flushed(w).chunk == []
    ensures forall table :: TextOf(Flushed(w).(table := table)) == TextOf(w)
  {
    var out := w.out + [Chunk(w.chunk, w.table)];
    assert out[..|out| - 1] == w.out;
  }

  lemma DidThen(w: World, a: Meaning, v: World, b: Meaning, u: World)
    requires Did(w, a, v) && Did(v, b, u)
    ensures Did(w, Followed(a, b), u)
  {
  }

  lemma EndedMeans(w: World, m: Meaning, v: World, tokens: seq<nat>)
    requires Did(w, m, v)
    ensures Did(w, Ended(m, tokens), Keep(v, tokens))
  {
    KeepMeans(v, tokens);
    DidThen(w, m, v, Meaning(In(tokens, v.table), v.table, []), Keep(v, tokens));
    assert m.evals + [] == m.evals;
  }

  lemma {:induction false} LineBreaksConcat(a: seq<Line>, b: seq<Line>)
    ensures LineBreaks(a + b) == LineBreaks(a) + LineBreaks(b)
    decreases |a|
  {
    if |a| == 0 {
      assert a + b == b;
    } else {
      assert (a + b)[1..] == a[1..] + b;
      LineBreaksConcat(a[1..], b);
    }
  }

  /** The line breaks of skipped items are those of all their directives. */
  lemma {:induction false} BreaksOfLines(items: Items)
    ensures Breaks(items) == LineBreaks(Lines(items))
    decreases items, 0
  {
    match items
    case Nil =>
    case Cons(Plain(line), tail) =>
      LineBreaksConcat([line], Lines(tail));
      BreaksOfLines(tail);
    case Cons(Chain(breaks, cond, body, rest, endBreaks), tail) =>
      LineBreaksConcat(LinesOf(items.head), Lines(tail));
      ChainBreaks(breaks, cond, Lines(body), GroupLines(rest), endBreaks);
      BreaksOfLines(body);
      BreaksOfGroups(rest);
      BreaksOfLines(tail);
  }

  lemma ChainBreaks(breaks: seq<nat>, cond: Condition, body: seq<Line>, rest: seq<Line>, endBreaks: seq<nat>)
    ensures LineBreaks([If(breaks, cond)] + (body + (rest + [Endif(endBreaks)])))
         == breaks + LineBreaks(body) + LineBreaks(rest) + endBreaks
  {
    EndBreaks(rest, endBreaks);
    ThreeBreaks([If(breaks, cond)], body, rest + [Endif(endBreaks)]);
    OneLineBreaks(If(breaks, cond));
    AssociateBreaks(breaks, LineBreaks(body), LineBreaks(rest), endBreaks);
  }

  lemma EndBreaks(rest: seq<Line>, endBreaks: seq<nat>)
    ensures LineBreaks(rest + [Endif(endBreaks)]) == LineBreaks(rest) + endBreaks
  {
    LineBreaksConcat(rest, [Endif(endBreaks)]);
    OneLineBreaks(Endif(endBreaks));
  }

  lemma ThreeBreaks(a: seq<Line>, b: seq<Line>, c: seq<Line>)
    ensures LineBreaks(a + (b + c)) == LineBreaks(a) + (LineBreaks(b) + LineBreaks(c))
  {
    LineBreaksConcat(a, b + c);
    LineBreaksConcat(b, c);
  }

  lemma AssociateBreaks(a: seq<nat>, b: seq<nat>, c: seq<nat>, d: seq<nat>)
    ensures a + (b + (c + d)) == a + b + c + d
  {
  }

  lemma OneLineBreaks(line: Line)
    ensures LineBreaks([line]) == if line.Text? then [] else line.breaks
  {
    assert [line][1..] == [];
  }

  lemma {:induction false} BreaksOfGroups(groups: Groups)
    ensures GroupBreaks(groups) == LineBreaks(GroupLines(groups))
    decreases groups, 0
  {
    match groups
    case NoMore =>
    case Group(breaks, guard, body, rest) =>
      LineBreaksConcat([GuardLine(breaks, guard)], Lines(body) + GroupLines(rest));
      LineBreaksConcat(Lines(body), GroupLines(rest));
      BreaksOfLines(body);
      BreaksOfGroups(rest);
  }

  lemma {:induction false} SelectedMeans(items: Items, w: World, eval: Evaluator)
    requires ItemsOk(items)
    ensures Did(w, Processed(items, w.table, eval), Selected(items, w, eval))
    decreases items, 1
  {
    match items
    case Nil =>
    case Cons(head, tail) =>
      var v := SelectedItem(head, w, eval);
      ItemMeans(head, w, eval);
      SelectedMeans(tail, v, eval);
      DidThen(w, ProcessedItem(head, w.table, eval), v, Processed(tail, v.table, eval), Selected(tail, v, eval));
  }

  lemma {:induction false} ItemMeans(item: Item, w: World, eval: Evaluator)
    requires ItemOk(item)
    ensures Did(w, ProcessedItem(item, w.table, eval), SelectedItem(item, w, eval))
    decreases item, 1
  {
    match item
    case Plain(line) =>
      PlainMeans(line, w, eval);
    case Chain(breaks, cond, body, rest, endBreaks) =>
      ChainMeans(breaks, cond, body, rest, endBreaks, w, eval);
  }

  lemma PlainMeans(line: Line, w: World, eval: Evaluator)
    requires IsPlain(line)
    ensures Did(w, ProcessedItem(Plain(line), w.table, eval), SelectedItem(Plain(line), w, eval))
  {
    match line
    case Text(tokens) =>
      KeepMeans(w, tokens);
    case Define(breaks, _, _) =>
      KeepMeans(w, breaks);
      FlushMeans(Keep(w, breaks));
    case Undef(breaks, _) =>
      KeepMeans(w, breaks);
      FlushMeans(Keep(w, breaks));
    case Other(breaks) =>
      KeepMeans(w, breaks);
  }

  lemma EvaluatedMeans(w: World, breaks: seq<nat>, cond: Condition)
    ensures Did(w, Meaning(In(breaks, w.table), w.table, [Evaluation(cond, w.table)]), Evaluated(Keep(w, breaks), cond))
  {
    KeepMeans(w, breaks);
    assert TextOf(Evaluated(Keep(w, breaks), cond)) == TextOf(Keep(w, breaks));
  }

  /** A group that is not taken, and what comes of the rest of the chain. */
  lemma {:induction false} PassedMeans(body: Items, rest: Groups, w: World, eval: Evaluator)
    requires GroupsOk(rest)
    ensures Did(w, Followed(Meaning(In(LineBreaks(Lines(body)), w.table), w.table, []),
                            ProcessedGroups(rest, w.table, eval)),
                SelectedGroups(rest, Keep(w, Breaks(body)), eval))
    decreases rest, 1
  {
    BreaksOfLines(body);
    KeepMeans(w, Breaks(body));
    GroupsMean(rest, Keep(w, Breaks(body)), eval);
    DidThen(w, Meaning(In(Breaks(body), w.table), w.table, []), Keep(w, Breaks(body)),
            ProcessedGroups(rest, w.table, eval), SelectedGroups(rest, Keep(w, Breaks(body)), eval));
  }

  /** A group that is taken, and the line breaks of the rest of the chain. */
  lemma {:induction false} TakenMeans(body: Items, rest: Groups, w: World, eval: Evaluator)
    requires ItemsOk(body)
    ensures Did(w, Ended(Processed(body, w.table, eval), LineBreaks(GroupLines(rest))),
                Keep(Selected(body, w, eval), GroupBreaks(rest)))
    decreases body, 2
  {
    SelectedMeans(body, w, eval);
    BreaksOfGroups(rest);
    EndedMeans(w, Processed(body, w.table, eval), Selected(body, w, eval), GroupBreaks(rest));
  }

  lemma {:induction false} ChainMeans(breaks: seq<nat>, cond: Condition, body: Items, rest: Groups, endBreaks: seq<nat>,
                                      w: World, eval: Evaluator)
    requires ItemsOk(body) && GroupsOk(rest)
    ensures var item := Chain(breaks, cond, body, rest, endBreaks);
            Did(w, ProcessedItem(item, w.table, eval), SelectedItem(item, w, eval))
    decreases Chain(breaks, cond, body, rest, endBreaks), 0
  {
    var v := Evaluated(Keep(w, breaks), cond);
    var start := Meaning(In(breaks, w.table), w.table, [Evaluation(cond, w.table)]);
    EvaluatedMeans(w, breaks, cond);
    if Holds(cond, w.table, eval) {
      var u, m := Keep(Selected(body, v, eval), GroupBreaks(rest)),
                  Ended(Processed(body, w.table, eval), LineBreaks(GroupLines(rest)));
      TakenMeans(body, rest, v, eval);
      DidThen(w, start, v, m, u);
      EndedMeans(w, Followed(start, m), u, endBreaks);
    } else {
      var u, m := SelectedGroups(rest, Keep(v, Breaks(body)), eval),
                  Followed(Meaning(In(LineBreaks(Lines(body)), w.table), w.table, []),
                           ProcessedGroups(rest, w.table, eval));
      PassedMeans(body, rest, v, eval);
      DidThen(w, start, v, m, u);
      EndedMeans(w, Followed(start, m), u, endBreaks);
    }
  }

  lemma {:induction false} GroupsMean(groups: Groups, w: World, eval: Evaluator)
    requires GroupsOk(groups)
    ensures Did(w, ProcessedGroups(groups, w.table, eval), SelectedGroups(groups, w, eval))
    decreases groups, 0
  {
    match groups
    case NoMore =>
    case Group(breaks, guard, body, rest) =>
      var v := if guard.When? then Evaluated(Keep(w, breaks), Expression(guard.id)) else Keep(w, breaks);
      var start := Meaning(In(breaks, w.table), w.table,
                           if guard.When? then [Evaluation(Expression(guard.id), w.table)] else []);
      if guard.When? {
        EvaluatedMeans(w, breaks, Expression(guard.id));
      } else {
        KeepMeans(w, breaks);
      }
      if guard.Otherwise? || eval(guard.id, w.table) {
        TakenMeans(body, rest, v, eval);
        DidThen(w, start, v, Ended(Processed(body, w.table, eval), LineBreaks(GroupLines(rest))),
                Keep(Selected(body, v, eval), GroupBreaks(rest)));
      } else {
        PassedMeans(body, rest, v, eval);
        DidThen(w, start, v,
                Followed(Meaning(In(LineBreaks(Lines(body)), w.table), w.table, []),
                         ProcessedGroups(rest, w.table, eval)),
                SelectedGroups(rest, Keep(v, Breaks(body)), eval));
      }
  }

  /** A whole file: the chunks handed to expansion are the text that the standard keeps, each
      token with the table in force for it. */
  lemma FileMeans(items: Items, table: Table, eval: Evaluator)
    requires ItemsOk(items)
    ensures var end := Selected(items, World(table, [], [], [], 0), eval);
            var m := Processed(items, table, eval);
            && Paired(Flushed(end).out) == m.text && end.table == m.table && end.evals == m.evals && end.errors == 0
  {
    var w := World(table, [], [], [], 0);
    SelectedMeans(items, w, eval);
    var end := Selected(items, w, eval);
    FlushMeans(end);
    assert TextOf(w) == [] && TextOf(Flushed(end)) == Paired(Flushed(end).out) + [];
  }

  /** A balanced file is well nested in some way, and running the machine is selecting for
      every way in which it is. */
  lemma FileIsSelected(lines: seq<Line>, w: World, eval: Evaluator)
    ensures Balanced(lines, 0) ==> exists items :: ItemsOk(items) && Lines(items) == lines
    ensures forall items | ItemsOk(items) && Lines(items) == lines ::
              Run(Control(true, false, []), w, lines, eval).1 == Selected(items, w, eval)
    ensures w == World(w.table, [], [], [], 0) ==>
              forall items | ItemsOk(items) && Lines(items) == lines ::
                var end := Selected(items, w, eval);
                Meaning(Paired(Flushed(end).out), end.table, end.evals) == Processed(items, w.table, eval)
                && end.errors == 0
  {
    if Balanced(lines, 0) {
      var items := BalancedFilesAreSelected(lines, w, eval);
    }
    forall items | ItemsOk(items) && Lines(items) == lines
      ensures Run(Control(true, false, []), w, lines, eval).1 == Selected(items, w, eval)
    {
      MachineSelects(items, Control(true, false, []), w, eval);
    }
    if w == World(w.table, [], [], [], 0) {
      forall items | ItemsOk(items) && Lines(items) == lines
        ensures var end := Selected(items, w, eval);
                Meaning(Paired(Flushed(end).out), end.table, end.evals) == Processed(items, w.table, eval)
                && end.errors == 0
      {
        FileMeans(items, w.table, eval);
      }
    }
  }

  /** Conversely, what is printed from well-nested items is balanced. */
  lemma {:induction false} WellNestedIsBalanced(items: Items, rest: seq<Line>, depth: nat)
    requires ItemsOk(items) && Balanced(rest, depth)
    ensures Balanced(Lines(items) + rest, depth)
    decreases items
  {
    match items
    case Nil =>
      assert [] + rest == rest;
    case Cons(head, tail) =>
      WellNestedIsBalanced(tail, rest, depth);
      ItemBalanced(head, Lines(tail) + rest, depth);
      Regroup(LinesOf(head), Lines(tail), rest);
  }

  lemma Regroup(a: seq<Line>, b: seq<Line>, c: seq<Line>)
    ensures (a + b) + c == a + (b + c)
  {
  }

  lemma {:induction false} ItemBalanced(item: Item, rest: seq<Line>, depth: nat)
    requires ItemOk(item) && Balanced(rest, depth)
    ensures Balanced(LinesOf(item) + rest, depth)
    decreases item
  {
    match item
    case Plain(line) =>
      assert ([line] + rest)[1..] == rest;
    case Chain(breaks, cond, body, groups, endBreaks) =>
      var close := [Endif(endBreaks)] + rest;
      assert close[1..] == rest;
      GroupsBalanced(groups, close, depth + 1);
      WellNestedIsBalanced(body, GroupLines(groups) + close, depth + 1);
      var inner := Lines(body) + (GroupLines(groups) + close);
      assert ([If(breaks, cond)] + inner)[1..] == inner;
      assert LinesOf(item) + rest == [If(breaks, cond)] + inner;
  }

  lemma {:induction false} GroupsBalanced(groups: Groups, rest: seq<Line>, depth: nat)
    requires GroupsOk(groups) && Balanced(rest, depth) && depth > 0
    ensures Balanced(GroupLines(groups) + rest, depth)
    decreases groups
  {
    match groups
    case NoMore =>
      assert [] + rest == rest;
    case Group(breaks, guard, body, others) =>
      GroupsBalanced(others, rest, depth);
      WellNestedIsBalanced(body, GroupLines(others) + rest, depth);
      var inner := Lines(body) + (GroupLines(others) + rest);
      var line := GuardLine(breaks, guard);
      assert ([line] + inner)[1..] == inner;
      assert GroupLines(groups) + rest == [line] + inner;
  }
}
