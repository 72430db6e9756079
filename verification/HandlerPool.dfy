/** The interrupt-handler pool as values: 128 handlers spread over one free list
    and 31 queues (15 INTC causes, then 16 DMAC causes). */
module HandlerPool {

  const HANDLERS: nat := 128
  const INTC_MAX: nat := 15
  const DMAC_MAX: nat := 16
  const QUEUES: nat := 31
  const FREE: nat := 31
  const INTC_SBUS: nat := 1

  /** Handler states: 0 plain, 1 disabled, 2 enabled with context, 3 free. */
  const STATE_FREE := 3

  /** `lists[q]` holds queue `q`'s handlers in order and `lists[FREE]` the pool's.
      A handler popped for a request whose `next` turns out bad is stranded. */
  datatype Pool = Pool(lists: seq<seq<int>>, state: seq<int>, stranded: set<int>)

  predicate IsHandler(h: int) {
    1 <= h <= HANDLERS
  }

  predicate NoDups(s: seq<int>) {
    forall i, j | 0 <= i < j < |s| :: s[i] != s[j]
  }

  predicate Disjoint(a: seq<int>, b: seq<int>) {
    forall h | h in a :: h !in b
  }

  ghost predicate Somewhere(p: Pool, h: int) {
    h in p.stranded || exists q :: 0 <= q < |p.lists| && h in p.lists[q]
  }

  /** Every handler is in exactly one place, and is marked free exactly when it is. */
  ghost predicate WellFormed(p: Pool) {
    && |p.lists| == QUEUES + 1 && |p.state| == HANDLERS + 1
    && (forall q, h | 0 <= q < |p.lists| && h in p.lists[q] :: IsHandler(h) && h !in p.stranded)
    && (forall h | h in p.stranded :: IsHandler(h))
    && (forall q | 0 <= q < |p.lists| :: NoDups(p.lists[q]))
    && (forall q, r | 0 <= q < |p.lists| && 0 <= r < |p.lists| && q != r :: Disjoint(p.lists[q], p.lists[r]))
    && (forall h | IsHandler(h) :: Somewhere(p, h))
    && (forall h | IsHandler(h) :: p.state[h] == STATE_FREE <==> h in p.lists[FREE])
  }

  function IndexOf(s: seq<int>, h: int): (i: nat)
    requires h in s
    ensures i < |s| && s[i] == h
  {
    if s[0] == h then 0 else 1 + IndexOf(s[1..], h)
  }

  function Without(s: seq<int>, h: int): seq<int> {
    if h in s then s[..IndexOf(s, h)] + s[IndexOf(s, h) + 1..] else s
  }

  function Before(s: seq<int>, at: int, h: int): seq<int>
    requires at in s
  {
    s[..IndexOf(s, at)] + [h] + s[IndexOf(s, at)..]
  }

  // ----- operations -----

  datatype Op =
    | Add(queue: nat, next: int, kind: int)
    | Remove(queue: nat, hid: int)
    | Enable(hid: int)
    | Disable(hid: int)

  /** The code accepts a positive `next` that is in range and not marked free. */
  predicate BadNext(p: Pool, next: int)
    requires |p.state| == HANDLERS + 1
  {
    next < -1 || next > HANDLERS || (next > 0 && p.state[next] == STATE_FREE)
  }

  /** Calls that touch no memory outside the arrays: the queue exists, handlers are
      registered plain or with context, and a state is set inside the handler array. */
  predicate InBounds(op: Op) {
    match op
    case Add(q, _, kind) => q < QUEUES && (kind == 0 || kind == 2)
    case Remove(q, _) => q < QUEUES
    case Enable(hid) => 0 <= hid <= HANDLERS
    case Disable(hid) => 0 <= hid <= HANDLERS
  }

  /** Calls within the interface: ids name members of the named queue, and no free
      handler is enabled or disabled. The pool's head as `next` is excluded, because it
      is popped before it is checked. */
  ghost predicate Legal(p: Pool, op: Op)
    requires WellFormed(p)
  {
    InBounds(op)
    && match op
       case Add(q, next, kind) =>
         p.lists[FREE] == []
         || (next != p.lists[FREE][0] && (next == -1 || next == 0 || next in p.lists[q] || BadNext(p, next)))
       case Remove(q, hid) => hid in p.lists[q] || !IsHandler(hid) || p.state[hid] == STATE_FREE
       case Enable(hid) => hid == 0 || p.state[hid] != STATE_FREE
       case Disable(hid) => hid == 0 || p.state[hid] != STATE_FREE
  }

  /** The pool after a call, and the value the call returns. */
  function Apply(p: Pool, op: Op): (Pool, int)
    requires WellFormed(p) && Legal(p, op)
  {
    match op
    case Add(q, next, kind) => AddTo(p, q, next, kind)
    case Remove(q, hid) => RemoveFrom(p, q, hid)
    case Enable(hid) => (p.(state := p.state[hid := 2]), hid)
    case Disable(hid) => (p.(state := p.state[hid := 1]), hid)
  }

  /** The pool's first handler taken out and marked. */
  function Popped(p: Pool, kind: int): Pool
    requires WellFormed(p) && p.lists[FREE] != []
  {
    var h := p.lists[FREE][0];
    assert h in p.lists[FREE] && IsHandler(h);
    p.(lists := p.lists[FREE := p.lists[FREE][1..]], state := p.state[h := kind])
  }

  function AddTo(p: Pool, q: nat, next: int, kind: int): (Pool, int)
    requires WellFormed(p) && Legal(p, Add(q, next, kind))
  {
    var free := p.lists[FREE];
    if free == [] then (p, -1)
    else
      var h := free[0];
      var popped := Popped(p, kind);
      if next == -1 then (popped.(lists := popped.lists[q := p.lists[q] + [h]]), h)
      else if next == 0 then (popped.(lists := popped.lists[q := [h] + p.lists[q]]), h)
      else if BadNext(p, next) then (popped.(stranded := p.stranded + {h}), -1)
      else (popped.(lists := popped.lists[q := Before(p.lists[q], next, h)]), h)
  }

  function RemoveFrom(p: Pool, q: nat, hid: int): (Pool, int)
    requires WellFormed(p) && Legal(p, Remove(q, hid))
  {
    if !IsHandler(hid) || p.state[hid] == STATE_FREE then (p, -1)
    else
      var rest := Without(p.lists[q], hid);
      (p.(lists := p.lists[q := rest][FREE := p.lists[FREE] + [hid]], state := p.state[hid := STATE_FREE]), |rest|)
  }

  /** The pool as the initialiser leaves it. */
  function Initial(): Pool {
    Pool(seq(QUEUES + 1, q => if q == FREE then seq(HANDLERS, i => i + 1) else []),
         seq(HANDLERS + 1, _ => STATE_FREE), {})
  }

  // ----- every run keeps the partition -----

  lemma InitialWellFormed()
    ensures WellFormed(Initial())
  {
    var p := Initial();
    forall h | IsHandler(h) ensures h in p.lists[FREE] {
      assert p.lists[FREE][h - 1] == h;
    }
  }

  lemma WithoutMembers(s: seq<int>, h: int)
    requires NoDups(s) && h in s
    ensures NoDups(Without(s, h)) && |Without(s, h)| == |s| - 1
    ensures forall x :: x in Without(s, h) <==> x in s && x != h
  {
    var i := IndexOf(s, h);
    var r := Without(s, h);
    forall x | x in s && x != h ensures x in r {
      var j :| 0 <= j < |s| && s[j] == x;
      assert if j < i then r[j] == x else r[j - 1] == x;
    }
  }

  lemma BeforeMembers(s: seq<int>, at: int, h: int)
    requires NoDups(s) && at in s && h !in s
    ensures NoDups(Before(s, at, h)) && |Before(s, at, h)| == |s| + 1
    ensures forall x :: x in Before(s, at, h) <==> x in s || x == h
  {
    var i := IndexOf(s, at);
    var r := Before(s, at, h);
    assert r[i] == h;
    forall x | x in s ensures x in r {
      var j :| 0 <= j < |s| && s[j] == x;
      assert if j < i then r[j] == x else r[j + 1] == x;
    }
  }

  /** Moving one handler from the free list to queue `q`. */
  lemma TakenWellFormed(p: Pool, q: nat, list: seq<int>, kind: int)
    requires WellFormed(p) && q < QUEUES && p.lists[FREE] != [] && (kind == 0 || kind == 2)
    requires NoDups(list) && forall x :: x in list <==> x in p.lists[q] || x == p.lists[FREE][0]
    ensures var r := Popped(p, kind); WellFormed(r.(lists := r.lists[q := list]))
  {
    var free, h := p.lists[FREE], p.lists[FREE][0];
    var popped := Popped(p, kind);
    var r := popped.(lists := popped.lists[q := list]);
    assert free == [h] + free[1..] && h !in free[1..];
    assert forall x :: x in free <==> x == h || x in free[1..];
    assert h in free && IsHandler(h) && h !in p.stranded;
    forall l | 0 <= l < QUEUES ensures h !in p.lists[l] {
      assert Disjoint(p.lists[FREE], p.lists[l]);
    }
    forall l, m | 0 <= l < |r.lists| && 0 <= m < |r.lists| && l != m ensures Disjoint(r.lists[l], r.lists[m]) {
      assert Disjoint(p.lists[l], p.lists[m]);
    }
    forall x | IsHandler(x) ensures Somewhere(r, x) {
      MovedSomewhere(p, r, q, x);
    }
  }

  lemma MovedSomewhere(p: Pool, r: Pool, q: nat, x: int)
    requires Somewhere(p, x) && |p.lists| == |r.lists| && q < |p.lists|
    requires p.stranded <= r.stranded
    requires forall l | 0 <= l < |p.lists| && x in p.lists[l] :: x in r.lists[l] || x in r.lists[q] || x in r.stranded
    ensures Somewhere(r, x)
  {
    if x !in p.stranded {
      var l :| 0 <= l < |p.lists| && x in p.lists[l];
    }
  }

  lemma AddKeeps(p: Pool, q: nat, next: int, kind: int)
    requires WellFormed(p) && Legal(p, Add(q, next, kind))
    ensures WellFormed(AddTo(p, q, next, kind).0)
  {
    var free := p.lists[FREE];
    if free != [] {
      var h := free[0];
      assert h !in p.lists[q] by { assert Disjoint(free, p.lists[q]); }
      if next == -1 {
        TakenWellFormed(p, q, p.lists[q] + [h], kind);
      } else if next == 0 {
        TakenWellFormed(p, q, [h] + p.lists[q], kind);
      } else if BadNext(p, next) {
        StrandedWellFormed(p, kind);
      } else {
        BeforeMembers(p.lists[q], next, h);
        TakenWellFormed(p, q, Before(p.lists[q], next, h), kind);
      }
    }
  }

  lemma StrandedWellFormed(p: Pool, kind: int)
    requires WellFormed(p) && p.lists[FREE] != [] && (kind == 0 || kind == 2)
    ensures WellFormed(Popped(p, kind).(stranded := p.stranded + {p.lists[FREE][0]}))
  {
    var free, h := p.lists[FREE], p.lists[FREE][0];
    var r := Popped(p, kind).(stranded := p.stranded + {h});
    assert free == [h] + free[1..] && h !in free[1..];
    assert forall x :: x in free <==> x == h || x in free[1..];
    forall q, x | 0 <= q < |r.lists| && x in r.lists[q] ensures x != h {
      assert q != FREE ==> Disjoint(p.lists[q], free);
    }
    forall x | IsHandler(x) ensures Somewhere(r, x) {
      MovedSomewhere(p, r, FREE, x);
    }
  }

  lemma RemoveKeeps(p: Pool, q: nat, hid: int)
    requires WellFormed(p) && Legal(p, Remove(q, hid))
    ensures WellFormed(RemoveFrom(p, q, hid).0)
  {
    if IsHandler(hid) && p.state[hid] != STATE_FREE {
      var r := RemoveFrom(p, q, hid).0;
      RemovedLists(p, q, hid, r.lists);
      forall x | IsHandler(x) ensures Somewhere(r, x) {
        MovedSomewhere(p, r, FREE, x);
      }
    }
  }

  /** Moving a handler from queue `q` to the back of the free list. */
  lemma RemovedLists(p: Pool, q: nat, hid: int, lists: seq<seq<int>>)
    requires WellFormed(p) && q < QUEUES && hid in p.lists[q]
    requires lists == p.lists[q := Without(p.lists[q], hid)][FREE := p.lists[FREE] + [hid]]
    ensures forall x :: x in lists[FREE] <==> x in p.lists[FREE] || x == hid
    ensures forall x :: x in lists[q] <==> x in p.lists[q] && x != hid
    ensures forall l | 0 <= l < |lists| :: NoDups(lists[l])
    ensures forall l, m | 0 <= l < |lists| && 0 <= m < |lists| && l != m :: Disjoint(lists[l], lists[m])
  {
    WithoutMembers(p.lists[q], hid);
    forall l | 0 <= l < |p.lists| && l != q ensures hid !in p.lists[l] {
      assert Disjoint(p.lists[q], p.lists[l]);
    }
    forall l, m | 0 <= l < |lists| && 0 <= m < |lists| && l != m ensures Disjoint(lists[l], lists[m]) {
      assert Disjoint(p.lists[l], p.lists[m]);
    }
  }

  lemma ApplyKeeps(p: Pool, op: Op)
    requires WellFormed(p) && Legal(p, op)
    ensures WellFormed(Apply(p, op).0)
  {
    match op
    case Add(q, next, kind) => AddKeeps(p, q, next, kind);
    case Remove(q, hid) => RemoveKeeps(p, q, hid);
    case Enable(hid) => SetStateKeeps(p, hid, 2);
    case Disable(hid) => SetStateKeeps(p, hid, 1);
  }

  lemma SetStateKeeps(p: Pool, hid: int, v: int)
    requires WellFormed(p) && 0 <= hid <= HANDLERS && (hid == 0 || p.state[hid] != STATE_FREE) && v != STATE_FREE
    ensures WellFormed(p.(state := p.state[hid := v]))
  {
    var r := p.(state := p.state[hid := v]);
    forall x | IsHandler(x) ensures Somewhere(r, x) {
      assert Somewhere(p, x);
    }
  }

  /** Enabling and disabling test nothing. They keep the pool well formed exactly when
      they are not applied to a free handler. */
  lemma SetStateExactly(p: Pool, hid: int, v: int)
    requires WellFormed(p) && 0 <= hid <= HANDLERS && (v == 1 || v == 2)
    ensures WellFormed(p.(state := p.state[hid := v])) <==> hid == 0 || p.state[hid] != STATE_FREE
  {
    if hid == 0 || p.state[hid] != STATE_FREE {
      SetStateKeeps(p, hid, v);
    } else {
      assert hid in p.lists[FREE];
    }
  }

  /** Enabling handler 1 in the fresh pool leaves it in the pool without the mark of a
      free handler, so that a later call takes it as `next`. */
  lemma FreeHandlerEnabled()
    ensures WellFormed(Initial()) && !Legal(Initial(), Enable(1)) && BadNext(Initial(), 1)
    ensures (var r := Initial().(state := Initial().state[1 := 2]);
             !WellFormed(r) && 1 in r.lists[FREE] && !BadNext(r, 1))
  {
    InitialWellFormed();
    SetStateExactly(Initial(), 1, 2);
    assert Initial().lists[FREE][0] == 1;
  }

  /** `pools` is the run of `ops` from the initial pool. */
  ghost predicate Run(ops: seq<Op>, pools: seq<Pool>) {
    && |pools| == |ops| + 1 && pools[0] == Initial()
    && forall i | 0 <= i < |ops| ::
         WellFormed(pools[i]) ==> Legal(pools[i], ops[i]) && pools[i + 1] == Apply(pools[i], ops[i]).0
  }

  lemma {:induction false} RunKeeps(ops: seq<Op>, pools: seq<Pool>, i: nat)
    requires Run(ops, pools) && i < |pools|
    ensures WellFormed(pools[i])
  {
    if i == 0 {
      InitialWellFormed();
    } else {
      RunKeeps(ops, pools, i - 1);
      ApplyKeeps(pools[i - 1], ops[i - 1]);
    }
  }

  /** All handlers, counted: the lists and the stranded add up to 128. */
  function Sizes(lists: seq<seq<int>>): nat {
    if lists == [] then 0 else Sizes(lists[..|lists| - 1]) + |lists[|lists| - 1]|
  }

  lemma {:induction false} SizesUpdate(lists: seq<seq<int>>, q: nat, l: seq<int>)
    requires q < |lists|
    ensures Sizes(lists[q := l]) == Sizes(lists) - |lists[q]| + |l|
    decreases |lists|
  {
    var n := |lists| - 1;
    if q == n {
      assert lists[q := l][..n] == lists[..n];
    } else {
      assert lists[q := l][..n] == lists[..n][q := l];
      SizesUpdate(lists[..n], q, l);
    }
  }

  lemma {:induction false} NoneUsed(lists: seq<seq<int>>)
    requires forall q | 0 <= q < |lists| :: lists[q] == []
    ensures Sizes(lists) == 0
  {
    if lists != [] {
      NoneUsed(lists[..|lists| - 1]);
    }
  }

  lemma InitialSizes()
    ensures Sizes(Initial().lists) == HANDLERS && Initial().stranded == {}
  {
    var lists := Initial().lists;
    NoneUsed(lists[..FREE]);
  }

  /** Nothing is lost except what a bad `next` strands: after any run the list
      lengths and the number of stranded handlers add up to 128. */
  lemma {:induction false} RunConserves(ops: seq<Op>, pools: seq<Pool>, i: nat)
    requires Run(ops, pools) && i < |pools|
    ensures Sizes(pools[i].lists) + |pools[i].stranded| == HANDLERS
  {
    if i == 0 {
      InitialSizes();
    } else {
      RunKeeps(ops, pools, i - 1);
      RunConserves(ops, pools, i - 1);
      ApplyConserves(pools[i - 1], ops[i - 1]);
    }
  }

  lemma ApplyConserves(p: Pool, op: Op)
    requires WellFormed(p) && Legal(p, op)
    ensures var r := Apply(p, op).0;
            Sizes(r.lists) + |r.stranded| == Sizes(p.lists) + |p.stranded|
  {
    match op
    case Add(q, next, kind) =>
      var free := p.lists[FREE];
      if free != [] {
        SizesUpdate(p.lists, FREE, free[1..]);
        var popped := p.lists[FREE := free[1..]];
        SizesUpdate(popped, q, p.lists[q] + [free[0]]);
        SizesUpdate(popped, q, [free[0]] + p.lists[q]);
        if next in p.lists[q] {
          SizesUpdate(popped, q, Before(p.lists[q], next, free[0]));
        }
      }
    case Remove(q, hid) =>
      if IsHandler(hid) && p.state[hid] != STATE_FREE {
        WithoutMembers(p.lists[q], hid);
        SizesUpdate(p.lists, q, Without(p.lists[q], hid));
        SizesUpdate(p.lists[q := Without(p.lists[q], hid)], FREE, p.lists[FREE] + [hid]);
      }
    case _ =>
  }

  /** Removing the handler just added restores every queue; the handler goes to
      the back of the free list. */
  lemma AddThenRemove(p: Pool, q: nat, next: int, kind: int)
    requires WellFormed(p) && Legal(p, Add(q, next, kind)) && AddTo(p, q, next, kind).1 != -1
    ensures var (r, h) := AddTo(p, q, next, kind);
            && WellFormed(r) && Legal(r, Remove(q, h))
            && var (s, n) := RemoveFrom(r, q, h);
            && s.lists == p.lists[FREE := p.lists[FREE][1..] + [h]]
            && s.state == p.state && s.stranded == p.stranded && n == |p.lists[q]|
  {
    AddKeeps(p, q, next, kind);
    var (r, h) := AddTo(p, q, next, kind);
    AddedIsInserted(p, q, next, kind);
    assert r.state[h] == kind && IsHandler(h);
    assert r.lists == p.lists[FREE := p.lists[FREE][1..]][q := r.lists[q]];
    var (s, n) := RemoveFrom(r, q, h);
    assert s.lists == p.lists[FREE := p.lists[FREE][1..] + [h]];
    assert s.state == p.state;
  }

  /** Wherever the handler was put, taking it out again gives the old queue. */
  lemma AddedIsInserted(p: Pool, q: nat, next: int, kind: int)
    requires WellFormed(p) && Legal(p, Add(q, next, kind)) && AddTo(p, q, next, kind).1 != -1
    ensures var (r, h) := AddTo(p, q, next, kind);
            && p.lists[FREE] != [] && h == p.lists[FREE][0] && IsHandler(h)
            && r == Popped(p, kind).(lists := Popped(p, kind).lists[q := r.lists[q]])
            && h in r.lists[q] && Without(r.lists[q], h) == p.lists[q]
  {
    var list, h := p.lists[q], p.lists[FREE][0];
    assert h in p.lists[FREE] && h !in list by { assert Disjoint(p.lists[FREE], list); }
    if next == -1 {
      InsertedThenTaken(list, |list|, h);
      assert list + [h] == list[..|list|] + [h] + list[|list|..];
    } else if next == 0 {
      InsertedThenTaken(list, 0, h);
      assert [h] + list == list[..0] + [h] + list[0..];
    } else {
      InsertedThenTaken(list, IndexOf(list, next), h);
    }
  }

  lemma InsertedThenTaken(s: seq<int>, i: nat, h: int)
    requires i <= |s| && h !in s
    ensures h in s[..i] + [h] + s[i..] && Without(s[..i] + [h] + s[i..], h) == s
  {
    var r := s[..i] + [h] + s[i..];
    assert r[i] == h;
    assert forall j | 0 <= j < |r| && r[j] == h :: j == i;
  }
}
