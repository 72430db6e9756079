/** Numbering the nodes of a tree, and what the numbers are used for: the places where a
    variable is read or written, and the writes nearest to a place. */
module NodeIndex {
  import opened Prelude

  /** What the analyses tell nodes apart by. The init kid of a declaration is one of its
      kids; a unary node has its operand first, an assignment its target. */
  datatype Kind =
    | Id(name: string)
    | Decl(declared: Option<string>, init: Option<nat>)
    | Unary(op: string)
    | Assign
    | StructRef
    | Other

  datatype Node = Node(kind: Kind, kids: seq<Node>)

  /** A node with its two numbers. */
  datatype Indexed = Indexed(start: nat, end: nat, kind: Kind, kids: seq<Indexed>)

  // ----- the numbering -----

  /** `t` is numbered from `cur` on, and `next` is the number after it. */
  predicate Numbered(t: Indexed, cur: nat, next: nat)
    decreases t
  {
    && t.start == cur && next == t.end + 2
    && KidsNumbered(t.kids, |t.kids|, cur + 2, t.end)
  }

  /** The first `k` kids follow each other. */
  predicate KidsNumbered(kids: seq<Indexed>, k: nat, cur: nat, next: nat)
    decreases kids, k
  {
    k <= |kids| &&
    if k == 0 then next == cur
    else var last := kids[k - 1];
         && KidsNumbered(kids, k - 1, cur, last.start)
         && Numbered(last, last.start, next)
  }

  function Erased(t: Indexed): Node
    decreases t
  {
    Node(t.kind, ErasedKids(t.kids, |t.kids|))
  }

  function ErasedKids(kids: seq<Indexed>, k: nat): seq<Node>
    requires k <= |kids|
    decreases kids, k
  {
    if k == 0 then [] else ErasedKids(kids, k - 1) + [Erased(kids[k - 1])]
  }

  /** The visitor: numbers a node, its kids from left to right, and its end. */
  method Number(node: Node, cur: nat) returns (t: Indexed, next: nat)
    ensures Numbered(t, cur, next) && Erased(t) == node
    decreases node
  {
    var start := cur;
    var kids: seq<Indexed> := [];
    next := cur + 2;
    for i := 0 to |node.kids|
      invariant |kids| == i && KidsNumbered(kids, i, cur + 2, next)
      invariant ErasedKids(kids, i) == node.kids[..i]
    {
      var kid;
      ghost var before := kids;
      kid, next := Number(node.kids[i], next);
      kids := kids + [kid];
      KidsPrefix(before, kids, i, cur + 2, kid.start);
    }
    t := Indexed(start, next, node.kind, kids);
    next := next + 2;
    assert node.kids[..|node.kids|] == node.kids;
  }

  lemma {:induction false} KidsPrefix(a: seq<Indexed>, b: seq<Indexed>, k: nat, cur: nat, next: nat)
    requires k <= |a| && a <= b && KidsNumbered(a, k, cur, next)
    ensures KidsNumbered(b, k, cur, next) && ErasedKids(b, k) == ErasedKids(a, k)
    decreases k
  {
    if k > 0 {
      assert a[k - 1] == b[k - 1];
      KidsPrefix(a, b, k - 1, cur, a[k - 1].start);
    }
  }

  // ----- intervals -----

  /** A numbered node ends after it starts, and its kids lie between. */
  lemma {:induction false} Between(t: Indexed, cur: nat, next: nat)
    requires Numbered(t, cur, next)
    ensures t.start < t.end < next
    ensures forall i | 0 <= i < |t.kids| ::
              t.start < t.kids[i].start && t.kids[i].end < t.end
              && Numbered(t.kids[i], t.kids[i].start, t.kids[i].end + 2)
    ensures forall i, j | 0 <= i < j < |t.kids| :: t.kids[i].end < t.kids[j].start
    decreases t, 1
  {
    KidsBetween(t.kids, |t.kids|, cur + 2, t.end);
  }

  lemma {:induction false} KidsBetween(kids: seq<Indexed>, k: nat, cur: nat, next: nat)
    requires KidsNumbered(kids, k, cur, next)
    ensures cur <= next
    ensures forall i | 0 <= i < k ::
              cur <= kids[i].start && kids[i].end + 2 <= next && Numbered(kids[i], kids[i].start, kids[i].end + 2)
    ensures forall i, j | 0 <= i < j < k :: kids[i].end < kids[j].start
    decreases kids, k
  {
    if k > 0 {
      KidsBetween(kids, k - 1, cur, kids[k - 1].start);
      Between(kids[k - 1], kids[k - 1].start, next);
    }
  }

  /** A path from a node down to one of its descendants. */
  predicate HasPath(t: Indexed, path: seq<nat>)
    decreases |path|
  {
    |path| == 0 || (path[0] < |t.kids| && HasPath(t.kids[path[0]], path[1..]))
  }

  function At(t: Indexed, path: seq<nat>): Indexed
    requires HasPath(t, path)
    decreases |path|
  {
    if |path| == 0 then t else At(t.kids[path[0]], path[1..])
  }

  lemma {:induction false} Inside(t: Indexed, path: seq<nat>)
    requires Numbered(t, t.start, t.end + 2) && HasPath(t, path)
    ensures t.start <= At(t, path).start < At(t, path).end <= t.end
    ensures |path| > 0 ==> t.start < At(t, path).start && At(t, path).end < t.end
    decreases |path|
  {
    Between(t, t.start, t.end + 2);
    if |path| > 0 {
      Inside(t.kids[path[0]], path[1..]);
    }
  }

  /** Which of two nodes comes first in the tree, or whether one contains the other. */
  datatype Order = Same | Contains | Within | Before | After

  function Compare(p: seq<nat>, q: seq<nat>): Order
    decreases |p|
  {
    if |p| == 0 && |q| == 0 then Same
    else if |p| == 0 then Contains
    else if |q| == 0 then Within
    else if p[0] < q[0] then Before
    else if p[0] > q[0] then After
    else Compare(p[1..], q[1..])
  }

  /** Intervals are strictly nested for a node and its descendants, and disjoint in tree
      order for all others. */
  lemma {:induction false} IntervalsFollowTheTree(t: Indexed, p: seq<nat>, q: seq<nat>)
    requires Numbered(t, t.start, t.end + 2) && HasPath(t, p) && HasPath(t, q)
    ensures var a, b := At(t, p), At(t, q);
            match Compare(p, q)
            case Same => p == q
            case Contains => a.start < b.start && b.end < a.end
            case Within => b.start < a.start && a.end < b.end
            case Before => a.end < b.start
            case After => b.end < a.start
    decreases |p|
  {
    Between(t, t.start, t.end + 2);
    if |p| == 0 || |q| == 0 {
      Inside(t, p);
      Inside(t, q);
    } else if p[0] != q[0] {
      Inside(t.kids[p[0]], p[1..]);
      Inside(t.kids[q[0]], q[1..]);
    } else {
      IntervalsFollowTheTree(t.kids[p[0]], p[1..], q[1..]);
    }
  }

  // ----- reads and writes -----

  /** A variable at a place. */
  datatype Event = Event(name: string, loc: nat)

  predicate IsStep(op: string) {
    op == "p++" || op == "p--" || op == "++" || op == "--"
  }

  function KidName(t: Indexed): Option<string> {
    if |t.kids| > 0 && t.kids[0].kind.Id? then Some(t.kids[0].kind.name) else None
  }

  /** The variable that a node itself writes, or reads. */
  function OwnName(t: Indexed, forReads: bool): Option<string> {
    match t.kind
    case Id(name) => if forReads then Some(name) else None
    case Decl(declared, _) => if forReads then None else declared
    case Unary(op) => if !forReads && IsStep(op) then KidName(t) else None
    case Assign => if forReads then None else KidName(t)
    case _ => None
  }

  /** Does the search go on into a kid? For writes, always; for reads, not into declared
      types, the operand of `&`, member names, or assignments to plain variables. */
  predicate Visits(t: Indexed, forReads: bool, i: nat) {
    !forReads ||
    match t.kind
    case Id(_) => false
    case Decl(_, init) => init == Some(i)
    case Unary(op) => !(op == "&" && KidName(t).Some?)
    case StructRef => i == 0
    case Assign => KidName(t).None?
    case _ => true
  }

  /** All reads, or all writes, of a subtree in the order of the search. */
  function Events(t: Indexed, forReads: bool): seq<Event>
    decreases t
  {
    (if OwnName(t, forReads).Some? then [Event(OwnName(t, forReads).value, t.start)] else [])
    + KidEvents(t, t.kids, forReads, |t.kids|)
  }

  function KidEvents(t: Indexed, kids: seq<Indexed>, forReads: bool, k: nat): seq<Event>
    requires k <= |kids|
    decreases kids, k
  {
    if k == 0 then []
    else KidEvents(t, kids, forReads, k - 1)
         + (if Visits(t, forReads, k - 1) then Events(kids[k - 1], forReads) else [])
  }

  /** Places in strictly increasing order, from `lo` up to but not including `hi`. */
  predicate Rising(events: seq<Event>, lo: nat, hi: nat) {
    && (forall i | 0 <= i < |events| :: lo <= events[i].loc < hi)
    && (forall i, j | 0 <= i < j < |events| :: events[i].loc < events[j].loc)
  }

  lemma RisingConcat(a: seq<Event>, b: seq<Event>, lo: nat, mid: nat, hi: nat)
    requires Rising(a, lo, mid) && Rising(b, mid, hi) && lo <= mid <= hi
    ensures Rising(a + b, lo, hi)
  {
  }

  lemma {:induction false} EventsRise(t: Indexed, forReads: bool)
    requires Numbered(t, t.start, t.end + 2)
    ensures Rising(Events(t, forReads), t.start, t.end)
    decreases t, |t.kids| + 1
  {
    Between(t, t.start, t.end + 2);
    var own := if OwnName(t, forReads).Some? then [Event(OwnName(t, forReads).value, t.start)] else [];
    KidEventsRise(t, t.kids, forReads, |t.kids|, t.start + 2, t.end);
    RisingConcat(own, KidEvents(t, t.kids, forReads, |t.kids|), t.start, t.start + 1, t.end);
  }

  lemma {:induction false} KidEventsRise(t: Indexed, kids: seq<Indexed>, forReads: bool, k: nat, cur: nat, next: nat)
    requires KidsNumbered(kids, k, cur, next)
    ensures cur <= next && Rising(KidEvents(t, kids, forReads, k), cur, next)
    decreases kids, k
  {
    if k > 0 {
      var last := kids[k - 1];
      KidEventsRise(t, kids, forReads, k - 1, cur, last.start);
      EventsRise(last, forReads);
      Between(last, last.start, next);
      RisingConcat(KidEvents(t, kids, forReads, k - 1),
                   if Visits(t, forReads, k - 1) then Events(last, forReads) else [], cur, last.start, next);
    }
  }

  /** The places of one variable. */
  function PlacesOf(events: seq<Event>, name: string): seq<nat> {
    if |events| == 0 then []
    else
      var last := |events| - 1;
      if events[last].name == name then PlacesOf(events[..last], name) + [events[last].loc]
      else PlacesOf(events[..last], name)
  }

  lemma {:induction false} PlacesConcat(a: seq<Event>, b: seq<Event>, name: string)
    ensures PlacesOf(a + b, name) == PlacesOf(a, name) + PlacesOf(b, name)
    decreases |b|
  {
    if |b| == 0 {
      assert a + b == a;
    } else {
      var last := |b| - 1;
      assert (a + b)[..|a| + last] == a + b[..last];
      PlacesConcat(a, b[..last], name);
    }
  }

  predicate Sorted(places: seq<nat>) {
    forall i, j | 0 <= i < j < |places| :: places[i] < places[j]
  }

  lemma {:induction false} PlacesSorted(events: seq<Event>, name: string, lo: nat, hi: nat)
    requires Rising(events, lo, hi)
    ensures Sorted(PlacesOf(events, name))
    ensures forall i | 0 <= i < |PlacesOf(events, name)| :: lo <= PlacesOf(events, name)[i] < hi
    ensures forall i | 0 <= i < |PlacesOf(events, name)| ::
              |events| > 0 && PlacesOf(events, name)[i] <= events[|events| - 1].loc
  {
    if |events| > 0 {
      var last := |events| - 1;
      PlacesSorted(events[..last], name, lo, hi);
      if last > 0 {
        assert events[last - 1].loc < events[last].loc;
      }
    }
  }

  /** The places of each variable, as the program keeps them. */
  class Locations {
    var at: map<string, seq<nat>>

    constructor ()
      ensures at == map[]
    {
      at := map[];
    }

    function Of(name: string): seq<nat>
      reads this
    {
      if name in at then at[name] else []
    }

    /** Appends a place; it must lie after the last one of its variable. */
    method Add(name: string, loc: nat)
      requires |Of(name)| > 0 ==> Of(name)[|Of(name)| - 1] < loc
      modifies this
      ensures forall n :: Of(n) == if n == name then old(Of(n)) + [loc] else old(Of(n))
    {
      if name !in at {
        at := at[name := []];
      }
      at := at[name := at[name] + [loc]];
    }

    /** Adds events one after another. That each place lies after the last is never in doubt. */
    method AddAll(events: seq<Event>, ghost hi: nat)
      requires Rising(events, 0, hi) && at == map[]
      modifies this
      ensures forall n :: Of(n) == PlacesOf(events, n)
      ensures forall n :: Sorted(Of(n))
    {
      for i := 0 to |events|
        invariant forall n :: Of(n) == PlacesOf(events[..i], n)
      {
        assert events[..i + 1] == events[..i] + [events[i]] && events[..i + 1][..i] == events[..i];
        LastPlace(events, i, events[i].name, hi);
        Add(events[i].name, events[i].loc);
      }
      assert events[..|events|] == events;
      forall n ensures Sorted(Of(n)) {
        PlacesSorted(events, n, 0, hi);
      }
    }
  }

  lemma LastPlace(events: seq<Event>, i: nat, name: string, hi: nat)
    requires Rising(events, 0, hi) && i < |events|
    ensures var places := PlacesOf(events[..i], name);
            |places| > 0 ==> places[|places| - 1] < events[i].loc
  {
    PlacesSorted(events[..i], name, 0, hi);
    if i > 0 {
      assert events[..i][i - 1] == events[i - 1];
    }
  }

  /** The searches for reads and writes: a node's own event, then its kids. */
  method Find(t: Indexed, forReads: bool) returns (events: seq<Event>)
    ensures events == Events(t, forReads)
    decreases t
  {
    events := [];
    if OwnName(t, forReads).Some? {
      events := [Event(OwnName(t, forReads).value, t.start)];
    }
    var below := FindBelow(t, t.kids, forReads);
    events := events + below;
  }

  method FindBelow(t: Indexed, kids: seq<Indexed>, forReads: bool) returns (events: seq<Event>)
    ensures events == KidEvents(t, kids, forReads, |kids|)
    decreases kids
  {
    events := [];
    for k := 0 to |kids|
      invariant events == KidEvents(t, kids, forReads, k)
    {
      ghost var before := events;
      if Visits(t, forReads, k) {
        var more := Find(kids[k], forReads);
        events := events + more;
      }
      NextKidEvents(t, kids, forReads, k, before, events);
    }
  }

  lemma NextKidEvents(t: Indexed, kids: seq<Indexed>, forReads: bool, k: nat, before: seq<Event>, after: seq<Event>)
    requires k < |kids| && before == KidEvents(t, kids, forReads, k)
    requires after == if Visits(t, forReads, k) then before + Events(kids[k], forReads) else before
    ensures after == KidEvents(t, kids, forReads, k + 1)
  {
    assert before + [] == before;
  }

  /** Reads or writes of a numbered tree: every variable's places in increasing order. */
  method ComputeLocations(t: Indexed, forReads: bool) returns (locations: Locations)
    requires Numbered(t, t.start, t.end + 2)
    ensures fresh(locations)
    ensures forall n :: locations.Of(n) == PlacesOf(Events(t, forReads), n) && Sorted(locations.Of(n))
  {
    var events := Find(t, forReads);
    EventsRise(t, forReads);
    locations := new Locations();
    locations.AddAll(events, t.end);
  }

  // ----- the nearest writes -----

  const MAX_INDEX: int := 1_000_000_000

  /** How many places lie before `x`, by halving. */
  method BisectLeft(places: seq<nat>, x: int) returns (ind: nat)
    requires Sorted(places)
    ensures ind <= |places|
    ensures forall i | 0 <= i < ind :: places[i] < x
    ensures forall i | ind <= i < |places| :: x <= places[i]
  {
    var lo, hi := 0, |places|;
    while lo < hi
      invariant 0 <= lo <= hi <= |places|
      invariant forall i | 0 <= i < lo :: places[i] < x
      invariant forall i | hi <= i < |places| :: x <= places[i]
    {
      var mid := (lo + hi) / 2;
      if places[mid] < x {
        lo := mid + 1;
      } else {
        hi := mid;
      }
    }
    ind := lo;
  }

  /** `w` is a write to one of the first `k` variables. */
  ghost predicate IsWrite(writes: map<string, seq<nat>>, names: seq<string>, k: nat, w: int) {
    exists i :: 0 <= i < k && i < |names| && names[i] in writes && 0 <= w && w in writes[names[i]]
  }

  /** The last write before a place and the first on or after it, over all variables that
      an expression reads. */
  method SurroundingWrites(writes: map<string, seq<nat>>, names: seq<string>, base: int) returns (prev: int, next: int)
    requires forall n | n in writes :: Sorted(writes[n]) && forall i | 0 <= i < |writes[n]| :: writes[n][i] < MAX_INDEX
    ensures prev == -1 || (IsWrite(writes, names, |names|, prev) && prev < base)
    ensures next == MAX_INDEX || (IsWrite(writes, names, |names|, next) && next >= base)
    ensures forall w | IsWrite(writes, names, |names|, w) && w < base :: w <= prev
    ensures forall w | IsWrite(writes, names, |names|, w) && w >= base :: next <= w
  {
    prev, next := -1, MAX_INDEX;
    for k := 0 to |names|
      invariant prev == -1 || (IsWrite(writes, names, k, prev) && prev < base)
      invariant next == MAX_INDEX || (IsWrite(writes, names, k, next) && next >= base)
      invariant forall w | IsWrite(writes, names, k, w) && w < base :: w <= prev
      invariant forall w | IsWrite(writes, names, k, w) && w >= base :: next <= w
    {
      if names[k] in writes {
        var wr := writes[names[k]];
        var ind := BisectLeft(wr, base);
        Nearest(wr, ind, base);
        if ind > 0 {
          assert wr[ind - 1] in wr && IsWrite(writes, names, k + 1, wr[ind - 1]);
          prev := if wr[ind - 1] > prev then wr[ind - 1] else prev;
        }
        if ind < |wr| {
          assert wr[ind] in wr && IsWrite(writes, names, k + 1, wr[ind]);
          next := if wr[ind] < next then wr[ind] else next;
        }
      }
      assert forall w | IsWrite(writes, names, k, w) :: IsWrite(writes, names, k + 1, w) by {
        WritesGrow(writes, names, k);
      }
      ghost var seen := k + 1;
      forall w | IsWrite(writes, names, seen, w)
        ensures w < base ==> w <= prev
        ensures w >= base ==> next <= w
      {
        WritesGrow(writes, names, k);
        if !IsWrite(writes, names, k, w) {
          var n: nat := w;
          assert n in writes[names[k]];
        }
      }
    }
  }

  lemma WritesGrow(writes: map<string, seq<nat>>, names: seq<string>, k: nat)
    requires k < |names|
    ensures forall w :: IsWrite(writes, names, k + 1, w)
              <==> IsWrite(writes, names, k, w) || (names[k] in writes && 0 <= w && w in writes[names[k]])
  {
    forall w ensures IsWrite(writes, names, k + 1, w)
                <==> IsWrite(writes, names, k, w) || (names[k] in writes && 0 <= w && w in writes[names[k]])
    {
      if names[k] in writes && 0 <= w && w in writes[names[k]] {
        assert k < k + 1;
      }
    }
  }

  /** The place before the split is the greatest below it, the one after the least above. */
  lemma Nearest(places: seq<nat>, ind: nat, base: int)
    requires Sorted(places) && ind <= |places|
    requires forall i | 0 <= i < ind :: places[i] < base
    requires forall i | ind <= i < |places| :: base <= places[i]
    ensures forall w: nat | w in places && w < base :: ind > 0 && w <= places[ind - 1]
    ensures forall w: nat | w in places && w >= base :: ind < |places| && places[ind] <= w
  {
    forall w: nat | w in places
      ensures w < base ==> ind > 0 && w <= places[ind - 1]
      ensures w >= base ==> ind < |places| && places[ind] <= w
    {
      var i :| 0 <= i < |places| && places[i] == w;
    }
  }

  // ----- from a tree to the nearest writes -----

  function Size(node: Node): nat
    decreases node
  {
    1 + SizeOfAll(node.kids, |node.kids|)
  }

  function SizeOfAll(kids: seq<Node>, k: nat): nat
    requires k <= |kids|
    decreases kids, k
  {
    if k == 0 then 0 else SizeOfAll(kids, k - 1) + Size(kids[k - 1])
  }

  /** A tree takes four numbers a node. */
  lemma {:induction false} NumbersUsed(t: Indexed, cur: nat, next: nat)
    requires Numbered(t, cur, next)
    ensures next == cur + 4 * Size(Erased(t))
    decreases t, |t.kids| + 1
  {
    KidNumbersUsed(t.kids, |t.kids|, cur + 2, t.end);
  }

  lemma {:induction false} KidNumbersUsed(kids: seq<Indexed>, k: nat, cur: nat, next: nat)
    requires KidsNumbered(kids, k, cur, next)
    ensures |ErasedKids(kids, k)| == k && next == cur + 4 * SizeOfAll(ErasedKids(kids, k), k)
    decreases kids, k
  {
    if k > 0 {
      KidNumbersUsed(kids, k - 1, cur, kids[k - 1].start);
      NumbersUsed(kids[k - 1], kids[k - 1].start, next);
      SameSize(ErasedKids(kids, k - 1), ErasedKids(kids, k), k - 1);
    }
  }

  lemma {:induction false} SameSize(a: seq<Node>, b: seq<Node>, k: nat)
    requires k <= |a| && a <= b
    ensures SizeOfAll(a, k) == SizeOfAll(b, k)
    decreases k
  {
    if k > 0 {
      assert a[k - 1] == b[k - 1];
      SameSize(a, b, k - 1);
    }
  }

  lemma {:induction false} PlacesAreEvents(events: seq<Event>, name: string, w: nat)
    ensures w in PlacesOf(events, name) <==> Event(name, w) in events
  {
    if |events| > 0 {
      var last := |events| - 1;
      PlacesAreEvents(events[..last], name, w);
      assert events == events[..last] + [events[last]];
    }
  }

  /** A write to one of the named variables. */
  predicate Writes(events: seq<Event>, names: seq<string>, w: int) {
    0 <= w && exists i :: 0 <= i < |names| && Event(names[i], w) in events
  }

  lemma WritesAreKept(events: seq<Event>, writes: map<string, seq<nat>>, names: seq<string>, w: int)
    requires forall n :: (if n in writes then writes[n] else []) == PlacesOf(events, n)
    ensures Writes(events, names, w) <==> IsWrite(writes, names, |names|, w)
  {
    if 0 <= w {
      forall i | 0 <= i < |names|
        ensures Event(names[i], w) in events <==> names[i] in writes && w in writes[names[i]]
      {
        PlacesAreEvents(events, names[i], w);
      }
    }
  }

  /** Numbering a tree, collecting its writes and bisecting them finds, of all writes in the
      tree to the variables that an expression reads, the last before a place and the first
      on or after it. */
  method NearestWrites(node: Node, names: seq<string>, base: int) returns (t: Indexed, prev: int, next: int)
    requires 4 * Size(node) <= MAX_INDEX
    ensures Numbered(t, 0, t.end + 2) && Erased(t) == node
    ensures prev == -1 || (Writes(Events(t, false), names, prev) && prev < base)
    ensures next == MAX_INDEX || (Writes(Events(t, false), names, next) && next >= base)
    ensures forall w | Writes(Events(t, false), names, w) && w < base :: w <= prev
    ensures forall w | Writes(Events(t, false), names, w) && w >= base :: next <= w
  {
    var after;
    t, after := Number(node, 0);
    NumbersUsed(t, 0, after);
    var locations := ComputeLocations(t, false);
    ghost var events := Events(t, false);
    forall n | n in locations.at
      ensures Sorted(locations.at[n]) && forall i | 0 <= i < |locations.at[n]| :: locations.at[n][i] < MAX_INDEX
    {
      assert locations.Of(n) == PlacesOf(events, n);
      EventsRise(t, false);
      PlacesSorted(events, n, 0, t.end);
    }
    prev, next := SurroundingWrites(locations.at, names, base);
    forall n ensures (if n in locations.at then locations.at[n] else []) == PlacesOf(events, n) {
      assert locations.Of(n) == PlacesOf(events, n);
    }
    forall w ensures Writes(events, names, w) <==> IsWrite(locations.at, names, |names|, w) {
      WritesAreKept(events, locations.at, names, w);
    }
  }
}
