/** The normalisation of `switch` bodies: the parser nests consecutive labels and
    leaves later statements beside them; the transform rebuilds the body in place. */
module SwitchCases {

  /** A `case` or `default` node. */
  class CaseNode {
    const tag: string
    var stmts: seq<Stmt>

    constructor (tag: string, stmts: seq<Stmt>)
      ensures this.tag == tag && this.stmts == stmts
    {
      this.tag := tag;
      this.stmts := stmts;
    }
  }

  /** A statement that is not a label, or a label node. */
  datatype Stmt = Plain(text: string) | Labeled(node: CaseNode)

  datatype Body = Compound(items: seq<Stmt>) | Single(stmt: Stmt)

  class SwitchNode {
    var body: Body

    constructor (body: Body)
      ensures this.body == body
    {
      this.body := body;
    }
  }

  /** What a reader of the source sees, in order. */
  datatype Event = Label(tag: string) | Run(text: string)

  function Labels(tags: seq<string>): seq<Event> {
    seq(|tags|, i requires 0 <= i < |tags| => Label(tags[i]))
  }

  function Runs(texts: seq<string>): seq<Event> {
    seq(|texts|, i requires 0 <= i < |texts| => Run(texts[i]))
  }

  // ----- bodies as the parser leaves them -----

  /** One item of a parsed body: any number of nested labels around a statement. */
  datatype Parsed = Parsed(tags: seq<string>, text: string)

  function SourceEvents(body: seq<Parsed>): seq<Event> {
    if body == [] then []
    else
      var last := body[|body| - 1];
      SourceEvents(body[..|body| - 1]) + (Labels(last.tags) + [Run(last.text)])
  }

  /** The label nodes nested below one item, outermost first: each has one child. */
  ghost predicate IsParsed(item: Stmt, chain: seq<CaseNode>, p: Parsed)
    reads chain
  {
    && |chain| == |p.tags|
    && (forall i | 0 <= i < |chain| :: chain[i].tag == p.tags[i])
    && (forall i | 0 <= i < |chain| - 1 :: chain[i].stmts == [Labeled(chain[i + 1])])
    && (if chain == [] then item == Plain(p.text)
        else item == Labeled(chain[0]) && chain[|chain| - 1].stmts == [Plain(p.text)])
  }

  ghost function Nodes(chains: seq<seq<CaseNode>>): set<CaseNode> {
    set k, x | 0 <= k < |chains| && x in chains[k] :: x
  }

  ghost predicate Distinct(nodes: seq<CaseNode>) {
    forall i, j | 0 <= i < j < |nodes| :: nodes[i] != nodes[j]
  }

  ghost predicate Disjoint(a: seq<CaseNode>, b: seq<CaseNode>) {
    forall x | x in a :: x !in b
  }

  /** All label nodes are different objects. */
  ghost predicate Apart(chains: seq<seq<CaseNode>>) {
    && (forall k | 0 <= k < |chains| :: Distinct(chains[k]))
    && forall k, l | 0 <= k < |chains| && 0 <= l < |chains| && k != l :: Disjoint(chains[k], chains[l])
  }

  ghost predicate IsParsedBody(items: seq<Stmt>, chains: seq<seq<CaseNode>>, body: seq<Parsed>)
    reads Nodes(chains)
  {
    && |items| == |chains| == |body|
    && Apart(chains)
    && (forall k, x | 0 <= k < |chains| && x in chains[k] :: x in Nodes(chains))
    && forall k | 0 <= k < |items| :: IsParsed(items[k], chains[k], body[k])
  }

  // ----- normalised bodies -----

  /** A statement before any label, or a label with the statements under it. */
  datatype Flat = Loose(text: string) | Case(tag: string, texts: seq<string>)

  function FlatEvents(f: Flat): seq<Event> {
    match f
    case Loose(s) => [Run(s)]
    case Case(tag, texts) => [Label(tag)] + Runs(texts)
  }

  function Events(body: seq<Flat>): seq<Event> {
    if body == [] then [] else Events(body[..|body| - 1]) + FlatEvents(body[|body| - 1])
  }

  /** Once a label has been seen, statements go under a label. */
  predicate Normal(body: seq<Flat>) {
    forall j, k | 0 <= j < k < |body| && body[j].Case? :: body[k].Case?
  }

  function AsStmts(texts: seq<string>): seq<Stmt> {
    seq(|texts|, i requires 0 <= i < |texts| => Plain(texts[i]))
  }

  ghost predicate IsFlat(item: Stmt, f: Flat)
    reads if item.Labeled? then {item.node} else {}
  {
    match f
    case Loose(s) => item == Plain(s)
    case Case(tag, texts) => item.Labeled? && item.node.tag == tag && item.node.stmts == AsStmts(texts)
  }

  ghost predicate IsFlatBody(items: seq<Stmt>, body: seq<Flat>)
    reads set k | 0 <= k < |items| && items[k].Labeled? :: items[k].node
  {
    |items| == |body| && forall k | 0 <= k < |items| :: IsFlat(items[k], body[k])
  }

  /** Add a statement: under the last label, if there is one. */
  function AddStatement(body: seq<Flat>, s: string): seq<Flat> {
    if body != [] && body[|body| - 1].Case? then
      body[..|body| - 1] + [body[|body| - 1].(texts := body[|body| - 1].texts + [s])]
    else body + [Loose(s)]
  }

  function Empties(tags: seq<string>): seq<Flat> {
    seq(|tags|, i requires 0 <= i < |tags| => Case(tags[i], []))
  }

  /** The body the transform builds. */
  function Fixed(body: seq<Parsed>): seq<Flat> {
    if body == [] then []
    else
      var last := body[|body| - 1];
      AddStatement(Fixed(body[..|body| - 1]) + Empties(last.tags), last.text)
  }

  lemma Associate(a: seq<Event>, b: seq<Event>, c: seq<Event>)
    ensures a + b + c == a + (b + c)
  {
  }

  lemma EventsSnoc(a: seq<Flat>, f: Flat)
    ensures Events(a + [f]) == Events(a) + FlatEvents(f)
  {
    assert (a + [f])[..|a|] == a;
  }

  lemma {:induction false} EventsConcat(a: seq<Flat>, b: seq<Flat>)
    ensures Events(a + b) == Events(a) + Events(b)
  {
    if b == [] {
      assert a + b == a;
    } else {
      var init, f := b[..|b| - 1], b[|b| - 1];
      assert init + [f] == b && a + init + [f] == a + b;
      EventsConcat(a, init);
      EventsSnoc(a + init, f);
      EventsSnoc(init, f);
      Associate(Events(a), Events(init), FlatEvents(f));
    }
  }

  lemma {:induction false} EmptiesEvents(tags: seq<string>)
    ensures Events(Empties(tags)) == Labels(tags)
  {
    if tags != [] {
      EmptiesEvents(tags[..|tags| - 1]);
      assert Empties(tags)[..|tags| - 1] == Empties(tags[..|tags| - 1]);
      assert FlatEvents(Empties(tags)[|tags| - 1]) == [Label(tags[|tags| - 1])];
    }
  }

  lemma RunsSnoc(texts: seq<string>, s: string)
    ensures Runs(texts + [s]) == Runs(texts) + [Run(s)]
  {
  }

  lemma AddStatementEvents(body: seq<Flat>, s: string)
    ensures Events(AddStatement(body, s)) == Events(body) + [Run(s)]
  {
    if body != [] && body[|body| - 1].Case? {
      var init, last := body[..|body| - 1], body[|body| - 1];
      RunsSnoc(last.texts, s);
      EventsSnoc(init, last.(texts := last.texts + [s]));
      Associate([Label(last.tag)], Runs(last.texts), [Run(s)]);
      Associate(Events(init), FlatEvents(last), [Run(s)]);
    } else {
      EventsSnoc(body, Loose(s));
    }
  }

  /** The transform keeps every label and statement, in source order, and leaves
      no statement beside a label and no label below another. */
  lemma {:induction false} FixedKeepsOrder(body: seq<Parsed>)
    ensures Events(Fixed(body)) == SourceEvents(body)
    ensures Normal(Fixed(body))
  {
    if body != [] {
      var last := body[|body| - 1];
      var before := Fixed(body[..|body| - 1]);
      FixedKeepsOrder(body[..|body| - 1]);
      EventsConcat(before, Empties(last.tags));
      EmptiesEvents(last.tags);
      AddStatementEvents(before + Empties(last.tags), last.text);
      Associate(Events(before), Labels(last.tags), [Run(last.text)]);
      AddStatementNormal(before, last.tags, last.text);
    }
  }

  lemma AddStatementNormal(before: seq<Flat>, tags: seq<string>, s: string)
    requires Normal(before)
    ensures Normal(AddStatement(before + Empties(tags), s))
  {
  }

  /** The last thing a body says: a label with nothing under it, or a statement. */
  function LastEvent(a: seq<Flat>): Event
    requires a != []
  {
    match a[|a| - 1]
    case Loose(s) => Run(s)
    case Case(tag, texts) => if texts == [] then Label(tag) else Run(texts[|texts| - 1])
  }

  /** The body with its last event taken away. */
  function DropLast(a: seq<Flat>): seq<Flat>
    requires a != []
  {
    var init, last := a[..|a| - 1], a[|a| - 1];
    if last.Case? && last.texts != [] then init + [Case(last.tag, last.texts[..|last.texts| - 1])] else init
  }

  lemma DropStatementEvents(init: seq<Flat>, tag: string, texts: seq<string>, s: string)
    ensures AddStatement(init + [Case(tag, texts)], s) == init + [Case(tag, texts + [s])]
    ensures Events(init + [Case(tag, texts + [s])]) == Events(init + [Case(tag, texts)]) + [Run(s)]
  {
    assert (init + [Case(tag, texts)])[..|init|] == init;
    AddStatementEvents(init + [Case(tag, texts)], s);
  }

  lemma DropLastEvents(a: seq<Flat>)
    requires a != [] && Normal(a)
    ensures Normal(DropLast(a)) && Events(a) == Events(DropLast(a)) + [LastEvent(a)]
    ensures a == match LastEvent(a)
                 case Label(tag) => DropLast(a) + [Case(tag, [])]
                 case Run(s) => AddStatement(DropLast(a), s)
  {
    var init, last := a[..|a| - 1], a[|a| - 1];
    assert a == init + [last];
    if last.Case? && last.texts != [] {
      var texts, s := last.texts[..|last.texts| - 1], last.texts[|last.texts| - 1];
      assert texts + [s] == last.texts;
      DropStatementEvents(init, last.tag, texts, s);
    } else {
      EventsSnoc(init, last);
      assert FlatEvents(last) == [LastEvent(a)];
    }
  }

  /** A normalised body is determined by its events, so there is no other way to
      put the same labels and statements in order. */
  lemma {:induction false} NormalFormIsUnique(a: seq<Flat>, b: seq<Flat>)
    requires Normal(a) && Normal(b) && Events(a) == Events(b)
    ensures a == b
    decreases |Events(a)|
  {
    if a == [] {
      if b != [] {
        DropLastEvents(b);
      }
    } else {
      DropLastEvents(a);
      assert b != [];
      DropLastEvents(b);
      SameInit(Events(DropLast(a)), LastEvent(a), Events(DropLast(b)), LastEvent(b));
      NormalFormIsUnique(DropLast(a), DropLast(b));
    }
  }

  lemma SameInit(x: seq<Event>, d: Event, y: seq<Event>, e: Event)
    requires x + [d] == y + [e]
    ensures x == y && d == e
  {
    assert |x + [d]| == |y + [e]|;
    assert x == (x + [d])[..|x|] && y == (y + [e])[..|y|];
    assert d == (x + [d])[|x|] && e == (y + [e])[|y|];
  }

  // ----- the transform in place -----

  /** Promote labels nested below `caseNode` to the end of `list`. */
  method ExtractNestedCase(caseNode: CaseNode, list: seq<Stmt>, ghost chain: seq<CaseNode>, ghost p: Parsed)
      returns (out: seq<Stmt>)
    requires chain != [] && IsParsed(Labeled(caseNode), chain, p)
    requires Distinct(chain)
    modifies chain
    ensures out == list + seq(|chain| - 1, i requires 0 <= i < |chain| - 1 => Labeled(chain[i + 1]))
    ensures forall i | 0 <= i < |chain| - 1 :: chain[i].stmts == []
    ensures chain[|chain| - 1].stmts == [Plain(p.text)]
    decreases |chain|
  {
    assert caseNode == chain[0] && (|chain| > 1 ==> chain[0].stmts == [Labeled(chain[1])]);
    if caseNode.stmts[0].Labeled? {
      var popped := caseNode.stmts[|caseNode.stmts| - 1];
      caseNode.stmts := caseNode.stmts[..|caseNode.stmts| - 1];
      assert popped == Labeled(chain[1]);
      assert IsParsed(popped, chain[1..], Parsed(p.tags[1..], p.text));
      out := ExtractNestedCase(popped.node, list + [popped], chain[1..], Parsed(p.tags[1..], p.text));
      forall i | 0 <= i < |chain| - 1 ensures chain[i].stmts == [] {
        assert i > 0 ==> chain[i] == chain[1..][i - 1];
      }
    } else {
      out := list;
    }
  }

  /** Appending a chain of emptied labels whose last holds the statement. */
  lemma FlatAfterLabel(out: seq<Stmt>, before: seq<Flat>, chain: seq<CaseNode>, p: Parsed, next: seq<Stmt>)
    requires IsFlatBody(out, before) && chain != [] && |chain| == |p.tags|
    requires forall i | 0 <= i < |chain| :: chain[i].tag == p.tags[i]
    requires forall i | 0 <= i < |chain| - 1 :: chain[i].stmts == []
    requires chain[|chain| - 1].stmts == [Plain(p.text)]
    requires next == out + seq(|chain|, i requires 0 <= i < |chain| => Labeled(chain[i]))
    ensures IsFlatBody(next, AddStatement(before + Empties(p.tags), p.text))
  {
    var flat := AddStatement(before + Empties(p.tags), p.text);
    assert [] + [p.text] == [p.text] && AsStmts([p.text]) == [Plain(p.text)] && AsStmts([]) == [];
    forall k | 0 <= k < |next| ensures IsFlat(next[k], flat[k]) {
      if k < |out| {
        assert IsFlat(out[k], before[k]);
      }
    }
  }

  /** Appending a statement to the last label. */
  lemma FlatAfterStatement(out: seq<Stmt>, before: seq<Flat>, s: string)
    requires out != [] && |out| == |before| && before[|before| - 1].Case? && out[|out| - 1].Labeled?
    requires forall k | 0 <= k < |out| - 1 :: IsFlat(out[k], before[k])
    requires var f := before[|before| - 1];
             var node := out[|out| - 1].node;
             node.tag == f.tag && node.stmts == AsStmts(f.texts) + [Plain(s)]
    ensures IsFlatBody(out, AddStatement(before, s))
  {
    var f := before[|before| - 1];
    assert AsStmts(f.texts + [s]) == AsStmts(f.texts) + [Plain(s)];
  }

  /** Half-way through: the first `k` items are normalised, the others untouched. */
  ghost predicate Progress(items: seq<Stmt>, chains: seq<seq<CaseNode>>, body: seq<Parsed>, k: nat,
                           out: seq<Stmt>, lastCase: CaseNode?)
    reads Nodes(chains), set i | 0 <= i < |out| && out[i].Labeled? :: out[i].node
  {
    && k <= |items| == |chains| == |body| && Apart(chains)
    && IsFlatBody(out, Fixed(body[..k]))
    && Separate(out)
    && (forall i | 0 <= i < |out| && out[i].Labeled? :: Before(out[i].node, chains, k))
    && (forall l, x | 0 <= l < |chains| && x in chains[l] :: x in Nodes(chains))
    && (forall l | k <= l < |items| :: IsParsed(items[l], chains[l], body[l]))
    && (if lastCase == null then forall i | 0 <= i < |out| :: out[i].Plain?
        else out != [] && out[|out| - 1] == Labeled(lastCase))
  }

  ghost predicate Separate(out: seq<Stmt>) {
    forall i, j | 0 <= i < j < |out| && out[i].Labeled? && out[j].Labeled? :: out[i].node != out[j].node
  }

  /** The node belongs to one of the first `k` items. */
  ghost predicate Before(node: CaseNode, chains: seq<seq<CaseNode>>, k: nat) {
    exists l :: 0 <= l < k && l < |chains| && node in chains[l]
  }

  lemma PlacedBefore(chains: seq<seq<CaseNode>>, k: nat, out: seq<Stmt>, next: seq<Stmt>)
    requires k < |chains|
    requires forall i | 0 <= i < |out| && out[i].Labeled? :: Before(out[i].node, chains, k)
    requires next == out + seq(|chains[k]|, i requires 0 <= i < |chains[k]| => Labeled(chains[k][i]))
    ensures forall i | 0 <= i < |next| && next[i].Labeled? :: Before(next[i].node, chains, k + 1)
  {
    forall i | 0 <= i < |next| && next[i].Labeled? ensures Before(next[i].node, chains, k + 1) {
      if i >= |out| {
        assert next[i].node == chains[k][i - |out|];
      } else {
        assert Before(out[i].node, chains, k);
      }
    }
  }

  method AddLabel(items: seq<Stmt>, ghost chains: seq<seq<CaseNode>>, ghost body: seq<Parsed>, k: nat,
                  out: seq<Stmt>, ghost lastCase: CaseNode?) returns (next: seq<Stmt>)
    requires k < |items| && Progress(items, chains, body, k, out, lastCase) && items[k].Labeled?
    modifies chains[k]
    ensures next != [] && next[|next| - 1].Labeled?
    ensures Progress(items, chains, body, k + 1, next, next[|next| - 1].node)
  {
    assert body[..k + 1][..k] == body[..k] && body[..k + 1][k] == body[k];
    ghost var chain := chains[k];
    next := ExtractNestedCase(items[k].node, out + [items[k]], chain, body[k]);
    assert next == out + seq(|chain|, i requires 0 <= i < |chain| => Labeled(chain[i]));
    OthersApart(chains, k, out);
    forall l | k + 1 <= l < |items| ensures IsParsed(items[l], chains[l], body[l]) {
      assert Disjoint(chains[l], chain) && old(IsParsed(items[l], chains[l], body[l]));
      forall i | 0 <= i < |chains[l]| ensures chains[l][i].stmts == old(chains[l][i].stmts) {
        assert chains[l][i] in chains[l];
        assert chains[l][i] !in chain;
      }
    }
    forall i | 0 <= i < |out| ensures IsFlat(out[i], Fixed(body[..k])[i]) {
      assert old(IsFlat(out[i], Fixed(body[..k])[i]));
    }
    FlatAfterLabel(out, Fixed(body[..k]), chain, body[k], next);
    PlacedBefore(chains, k, out, next);
  }

  /** Nodes already placed are not among those of the next item. */
  lemma OthersApart(chains: seq<seq<CaseNode>>, k: nat, out: seq<Stmt>)
    requires k < |chains| && Apart(chains)
    requires forall i | 0 <= i < |out| && out[i].Labeled? :: Before(out[i].node, chains, k)
    ensures forall i | 0 <= i < |out| && out[i].Labeled? :: out[i].node !in chains[k]
    ensures Separate(out) ==> Separate(out + seq(|chains[k]|, i requires 0 <= i < |chains[k]| => Labeled(chains[k][i])))
  {
    forall i | 0 <= i < |out| && out[i].Labeled? ensures out[i].node !in chains[k] {
      var l :| 0 <= l < k && l < |chains| && out[i].node in chains[l];
      assert Disjoint(chains[l], chains[k]);
    }
    assert Distinct(chains[k]);
  }

  /** A statement before any label goes to the end of the new body. */
  lemma LooseProgress(items: seq<Stmt>, chains: seq<seq<CaseNode>>, body: seq<Parsed>, k: nat, out: seq<Stmt>)
    requires k < |items| && Progress(items, chains, body, k, out, null) && items[k].Plain?
    ensures Progress(items, chains, body, k + 1, out + [items[k]], null)
  {
    assert body[..k + 1][..k] == body[..k] && body[..k + 1][k] == body[k];
    var before := Fixed(body[..k]);
    assert Empties(body[k].tags) == [] && before + [] == before;
  }

  /** A statement after a label goes below it. */
  method AppendTo(lastCase: CaseNode, items: seq<Stmt>, ghost chains: seq<seq<CaseNode>>, ghost body: seq<Parsed>,
                  k: nat, out: seq<Stmt>)
    requires k < |items| && Progress(items, chains, body, k, out, lastCase) && items[k].Plain?
    modifies lastCase
    ensures Progress(items, chains, body, k + 1, out, lastCase)
  {
    assert body[..k + 1][..k] == body[..k] && body[..k + 1][k] == body[k];
    ghost var before := Fixed(body[..k]);
    assert Empties(body[k].tags) == [] && before + [] == before;
    forall i | 0 <= i < |out| && out[i].Labeled? ensures Before(out[i].node, chains, k + 1) {
      assert Before(out[i].node, chains, k);
    }
    LaterApart(chains, k, lastCase);
    lastCase.stmts := lastCase.stmts + [items[k]];
    forall l | k + 1 <= l < |items| ensures IsParsed(items[l], chains[l], body[l]) {
      assert old(IsParsed(items[l], chains[l], body[l]));
      assert forall x | x in chains[l] :: x != lastCase;
    }
    forall i | 0 <= i < |out| - 1 ensures IsFlat(out[i], before[i]) {
      assert old(IsFlat(out[i], before[i]));
    }
    FlatAfterStatement(out, before, body[k].text);
  }

  method AddPlain(items: seq<Stmt>, ghost chains: seq<seq<CaseNode>>, ghost body: seq<Parsed>, k: nat,
                  out: seq<Stmt>, lastCase: CaseNode?) returns (next: seq<Stmt>)
    requires k < |items| && Progress(items, chains, body, k, out, lastCase) && items[k].Plain?
    modifies if lastCase == null then {} else {lastCase}
    ensures Progress(items, chains, body, k + 1, next, lastCase)
  {
    if lastCase == null {
      LooseProgress(items, chains, body, k, out);
      next := out + [items[k]];
    } else {
      AppendTo(lastCase, items, chains, body, k, out);
      next := out;
    }
  }

  /** A node placed earlier is not among those of any later item. */
  lemma LaterApart(chains: seq<seq<CaseNode>>, k: nat, node: CaseNode)
    requires Apart(chains) && Before(node, chains, k)
    ensures forall l | k <= l < |chains| :: node !in chains[l]
  {
    var l0 :| 0 <= l0 < k && l0 < |chains| && node in chains[l0];
    forall l | k <= l < |chains| ensures node !in chains[l] {
      assert Disjoint(chains[l0], chains[l]);
    }
  }

  method AddChild(items: seq<Stmt>, ghost chains: seq<seq<CaseNode>>, ghost body: seq<Parsed>, k: nat,
                  out: seq<Stmt>, lastCase: CaseNode?) returns (next: seq<Stmt>, nextCase: CaseNode?)
    requires k < |items| && Progress(items, chains, body, k, out, lastCase)
    modifies Nodes(chains)
    ensures Progress(items, chains, body, k + 1, next, nextCase)
  {
    if items[k].Labeled? {
      next := AddLabel(items, chains, body, k, out, lastCase);
      nextCase := next[|next| - 1].node;
    } else {
      if lastCase != null {
        assert Before(out[|out| - 1].node, chains, k);
      }
      next := AddPlain(items, chains, body, k, out, lastCase);
      nextCase := lastCase;
    }
  }

  /** The body of a compound switch becomes its normal form, built from the same
      label nodes; any other switch is left alone. */
  method FixSwitchCases(sw: SwitchNode, ghost chains: seq<seq<CaseNode>>, ghost body: seq<Parsed>)
    requires sw.body.Compound? ==> IsParsedBody(sw.body.items, chains, body)
    modifies sw, Nodes(chains)
    ensures old(sw.body).Compound? ==> sw.body.Compound? && IsFlatBody(sw.body.items, Fixed(body))
    ensures old(sw.body).Single? ==> sw.body == old(sw.body) && forall n | n in Nodes(chains) :: n.stmts == old(n.stmts)
  {
    if sw.body.Compound? {
      var items := sw.body.items;
      var out: seq<Stmt> := [];
      var lastCase: CaseNode? := null;
      assert body[..0] == [];
      for k := 0 to |items|
        invariant sw.body == old(sw.body)
        invariant Progress(items, chains, body, k, out, lastCase)
      {
        out, lastCase := AddChild(items, chains, body, k, out, lastCase);
      }
      assert body[..|items|] == body;
      assert IsFlatBody(out, Fixed(body));
      sw.body := Compound(out);
    }
  }
}
