/** The linked form of the handler pool: one arena of list heads joined into
    circular doubly linked lists, the redundant counters, and the calls that
    update them. Calls within the interface keep it a picture of a
    `HandlerPool.Pool`; module HandlerMisuse says what the others do. */
module HandlerLists {
  import opened HandlerPool

  /** List heads 0..128 belong to the handlers; the queue heads follow, then the
      pool's head. */
  const HEADS: nat := 161

  function HeadOf(q: nat): (h: nat)
    requires q <= FREE
    ensures HANDLERS < h < HEADS
  {
    129 + q
  }

  /** `next` and `prev` of every list head. */
  datatype Links = Links(next: seq<int>, prev: seq<int>)

  predicate InArena(h: int) {
    0 <= h < HEADS
  }

  /** `a` is followed by `b`. */
  predicate Adjacent(k: Links, a: int, b: int) {
    && InArena(a) && InArena(b) && |k.next| == |k.prev| == HEADS
    && k.next[a] == b && k.prev[b] == a
  }

  /** `r` is a circular list: each head is linked to its successor both ways. */
  predicate Ring(k: Links, r: seq<int>) {
    && |k.next| == |k.prev| == HEADS && r != []
    && NoDups(r)
    && (forall i | 0 <= i < |r| - 1 :: Adjacent(k, r[i], r[i + 1]))
    && Adjacent(k, r[|r| - 1], r[0])
  }

  /** The ring of list `q`: its head, then its handlers. */
  function RingOf(lists: seq<seq<int>>, q: nat): seq<int>
    requires q < |lists| == QUEUES + 1
  {
    [HeadOf(q)] + lists[q]
  }

  ghost predicate Represents(k: Links, lists: seq<seq<int>>) {
    && |lists| == QUEUES + 1 && |k.next| == |k.prev| == HEADS
    && forall q | 0 <= q < |lists| :: Ring(k, RingOf(lists, q))
  }

  // ----- the list primitives -----

  function InsertedBefore(k: Links, at: int, x: int): Links
    requires |k.next| == |k.prev| == HEADS && InArena(at) && InArena(x) && InArena(k.prev[at])
  {
    var p := k.prev[at];
    Links(k.next[p := x][x := at], k.prev[x := p][at := x])
  }

  function Unlinked(k: Links, x: int): Links
    requires |k.next| == |k.prev| == HEADS && InArena(x) && InArena(k.next[x]) && InArena(k.prev[x])
  {
    Links(k.next[k.prev[x] := k.next[x]], k.prev[k.next[x] := k.prev[x]])
  }

  lemma InRing(k: Links, r: seq<int>, i: nat)
    requires Ring(k, r) && i < |r|
    ensures InArena(r[i])
    ensures Adjacent(k, r[i], if i + 1 < |r| then r[i + 1] else r[0])
    ensures Adjacent(k, if i > 0 then r[i - 1] else r[|r| - 1], r[i])
  {
    if i > 0 {
      assert Adjacent(k, r[i - 1], r[i - 1 + 1]);
    }
  }

  /** The head in front of which position `i` of a ring lies. */
  function At(r: seq<int>, i: nat): int
    requires r != [] && i <= |r|
  {
    if i < |r| then r[i] else r[0]
  }

  /** Inserting at a position of a ring; the end of the ring is before its head. */
  lemma InsertInRing(k: Links, r: seq<int>, i: nat, x: int)
    requires Ring(k, r) && 1 <= i <= |r| && InArena(x) && x !in r
    ensures InArena(At(r, i)) && k.prev[At(r, i)] == r[i - 1] && InArena(r[i - 1])
    ensures Ring(InsertedBefore(k, At(r, i), x), r[..i] + [x] + r[i..])
  {
    var s := r[..i] + [x] + r[i..];
    InRing(k, r, i - 1);
    var at, p := At(r, i), r[i - 1];
    var m := InsertedBefore(k, at, x);
    assert Adjacent(m, p, x) && Adjacent(m, x, at);
    forall j | 0 <= j < |s| - 1 ensures Adjacent(m, s[j], s[j + 1]) {
      if j < i - 1 {
        assert s[j] == r[j] && s[j + 1] == r[j + 1] && Adjacent(k, r[j], r[j + 1]);
      } else if j > i {
        assert s[j] == r[j - 1] && s[j + 1] == r[j] && Adjacent(k, r[j - 1], r[j - 1 + 1]);
      }
    }
    InsertNoDups(r, i, x);
  }

  lemma InsertNoDups(r: seq<int>, i: nat, x: int)
    requires NoDups(r) && i <= |r| && x !in r
    ensures NoDups(r[..i] + [x] + r[i..])
  {
  }

  lemma UnlinkFromRing(k: Links, r: seq<int>, i: nat)
    requires Ring(k, r) && 1 <= i < |r|
    ensures InArena(r[i]) && k.next[r[i]] == At(r, i + 1) && k.prev[r[i]] == r[i - 1]
    ensures InArena(At(r, i + 1)) && InArena(r[i - 1])
    ensures Ring(Unlinked(k, r[i]), r[..i] + r[i + 1..])
  {
    var s := r[..i] + r[i + 1..];
    InRing(k, r, i);
    var m := Unlinked(k, r[i]);
    assert Adjacent(m, r[i - 1], At(r, i + 1));
    forall j | 0 <= j < |s| - 1 ensures Adjacent(m, s[j], s[j + 1]) {
      if j < i - 1 {
        assert s[j] == r[j] && s[j + 1] == r[j + 1] && Adjacent(k, r[j], r[j + 1]);
      } else if j >= i {
        assert s[j] == r[j + 1] && s[j + 1] == r[j + 2] && Adjacent(k, r[j + 1], r[j + 1 + 1]);
      }
    }
  }

  /** A ring is untouched by links written elsewhere. */
  lemma RingFrame(k: Links, m: Links, r: seq<int>)
    requires Ring(k, r) && |m.next| == |m.prev| == HEADS
    requires forall h | InArena(h) && h in r :: m.next[h] == k.next[h] && m.prev[h] == k.prev[h]
    ensures Ring(m, r)
  {
    forall i | 0 <= i < |r| - 1 ensures Adjacent(m, r[i], r[i + 1]) {
      assert Adjacent(k, r[i], r[i + 1]);
    }
  }

  // ----- whole arenas -----

  /** The lists hold handlers and do not meet. */
  predicate Separate(lists: seq<seq<int>>) {
    && |lists| == QUEUES + 1
    && (forall q, h | 0 <= q < |lists| && h in lists[q] :: IsHandler(h))
    && forall q, l | 0 <= q < |lists| && 0 <= l < |lists| && q != l :: Disjoint(lists[q], lists[l])
  }

  lemma RingsApart(lists: seq<seq<int>>, q: nat, l: nat)
    requires Separate(lists) && q <= FREE && l <= FREE && q != l
    ensures forall h | h in RingOf(lists, q) :: h !in RingOf(lists, l)
  {
    assert Disjoint(lists[q], lists[l]);
    assert forall h | h in lists[q] :: IsHandler(h);
    assert forall h | h in lists[l] :: IsHandler(h);
  }

  /** Inserting a handler that is in no list, as the i-th of list `q`. */
  lemma InsertRepresents(k: Links, lists: seq<seq<int>>, q: nat, i: nat, x: int)
    requires Separate(lists) && Represents(k, lists) && q <= FREE && i <= |lists[q]|
    requires IsHandler(x) && forall l | 0 <= l <= FREE :: x !in lists[l]
    ensures var at := if i < |lists[q]| then lists[q][i] else HeadOf(q);
            && InArena(at) && InArena(k.prev[at])
            && Represents(InsertedBefore(k, at, x), lists[q := lists[q][..i] + [x] + lists[q][i..]])
  {
    var r := RingOf(lists, q);
    var at := if i < |lists[q]| then lists[q][i] else HeadOf(q);
    var after := lists[q := lists[q][..i] + [x] + lists[q][i..]];
    assert Ring(k, r) && at == At(r, i + 1) && x !in r;
    InsertInRing(k, r, i + 1, x);
    var m := InsertedBefore(k, at, x);
    assert r[..i + 1] + [x] + r[i + 1..] == RingOf(after, q);
    forall l | 0 <= l <= FREE && l != q ensures Ring(m, RingOf(after, l)) {
      RingsApart(lists, l, q);
      assert r[i] in r && at in r && x !in RingOf(lists, l);
      RingFrame(k, m, RingOf(lists, l));
    }
  }

  /** Unlinking the i-th handler of list `q`. */
  lemma UnlinkRepresents(k: Links, lists: seq<seq<int>>, q: nat, i: nat)
    requires Separate(lists) && Represents(k, lists) && q <= FREE && i < |lists[q]|
    ensures var x := lists[q][i];
            && IsHandler(x) && InArena(k.next[x]) && InArena(k.prev[x])
            && Represents(Unlinked(k, x), lists[q := lists[q][..i] + lists[q][i + 1..]])
  {
    var r := RingOf(lists, q);
    var x := lists[q][i];
    assert x in lists[q];
    var after := lists[q := lists[q][..i] + lists[q][i + 1..]];
    assert Ring(k, r) && r[i + 1] == x;
    UnlinkFromRing(k, r, i + 1);
    var m := Unlinked(k, x);
    assert r[..i + 1] + r[i + 2..] == RingOf(after, q);
    forall l | 0 <= l <= FREE && l != q ensures Ring(m, RingOf(after, l)) {
      RingsApart(lists, l, q);
      assert r[i] in r && At(r, i + 2) in r;
      RingFrame(k, m, RingOf(lists, l));
    }
  }

  lemma FirstOfRing(k: Links, lists: seq<seq<int>>, q: nat)
    requires Separate(lists) && Represents(k, lists) && q <= FREE
    ensures k.next[HeadOf(q)] == if lists[q] == [] then HeadOf(q) else lists[q][0]
    ensures forall i | 0 <= i < |lists[q]| :: IsHandler(lists[q][i]) &&
              k.next[lists[q][i]] == if i + 1 < |lists[q]| then lists[q][i + 1] else HeadOf(q)
  {
    var r := RingOf(lists, q);
    InRing(k, r, 0);
    forall i | 0 <= i < |lists[q]|
      ensures IsHandler(lists[q][i]) && k.next[lists[q][i]] == if i + 1 < |lists[q]| then lists[q][i + 1] else HeadOf(q)
    {
      assert lists[q][i] in lists[q];
      InRing(k, r, i + 1);
      assert r[i + 1] == lists[q][i];
    }
  }

  // ----- the kernel's state -----

  /** One call of a handler by a dispatcher. */
  datatype Call = Call(hid: int, withContext: bool)

  /** The calls a dispatcher makes for a queue: enabled handlers with context,
      stopping when one returns a negative value, and plain handlers always. */
  function Calls(list: seq<int>, state: seq<int>, result: int -> int): seq<Call>
    requires |state| == HANDLERS + 1 && forall h | h in list :: IsHandler(h)
  {
    if list == [] then []
    else
      assert list[0] in list && IsHandler(list[0]);
      if state[list[0]] == 2 then
        [Call(list[0], true)] + (if result(list[0]) < 0 then [] else Calls(list[1..], state, result))
      else if state[list[0]] == 0 then [Call(list[0], false)] + Calls(list[1..], state, result)
      else Calls(list[1..], state, result)
  }

  // ----- memory -----

  /** The kernel's variables: all links, the handlers' states, and the counters. */
  datatype Memory = Memory(links: Links, state: seq<int>, entries: seq<int>, used: int)

  ghost predicate Describes(p: Pool, m: Memory) {
    && WellFormed(p) && p.state == m.state
    && Represents(m.links, p.lists)
    && |m.entries| == QUEUES && (forall q | 0 <= q < QUEUES :: m.entries[q] == |p.lists[q]|)
    && m.used == HANDLERS - |p.lists[FREE]|
  }

  /** No link leaves the arena. */
  predicate Closed(k: Links) {
    && |k.next| == |k.prev| == HEADS
    && forall h | 0 <= h < HEADS :: InArena(k.next[h]) && InArena(k.prev[h])
  }

  /** A stranded handler keeps the link it had when it was popped from the pool's front. */
  ghost predicate Stale(k: Links, stranded: set<int>)
    requires Closed(k)
  {
    forall h | h in stranded :: IsHandler(h) && k.prev[h] == HeadOf(FREE)
  }

  ghost predicate Sound(p: Pool, m: Memory) {
    Describes(p, m) && Closed(m.links) && Stale(m.links, p.stranded)
  }

  /** Memory on which the calls' own accesses are within the arrays. */
  predicate Ready(m: Memory) {
    && Closed(m.links) && |m.state| == HANDLERS + 1 && |m.entries| == QUEUES
    && (m.links.next[HeadOf(FREE)] == HeadOf(FREE) || IsHandler(m.links.next[HeadOf(FREE)]))
  }

  lemma SoundIsReady(p: Pool, m: Memory)
    requires Sound(p, m)
    ensures Ready(m)
    ensures m.links.next[HeadOf(FREE)] == if p.lists[FREE] == [] then HeadOf(FREE) else p.lists[FREE][0]
  {
    FirstOfRing(m.links, p.lists, FREE);
  }

  /** The pool's first handler taken out. */
  function PoppedMemory(m: Memory, kind: int): Memory
    requires Ready(m) && m.links.next[HeadOf(FREE)] != HeadOf(FREE)
  {
    var h := m.links.next[HeadOf(FREE)];
    Memory(Unlinked(m.links, h), m.state[h := kind], m.entries, m.used + 1)
  }

  function Enqueued(m: Memory, q: nat, at: int, h: int): Memory
    requires |m.links.next| == |m.links.prev| == HEADS && |m.entries| == QUEUES && q < QUEUES
    requires InArena(at) && InArena(h) && InArena(m.links.prev[at])
  {
    Memory(InsertedBefore(m.links, at, h), m.state, m.entries[q := m.entries[q] + 1], m.used)
  }

  /** What a call leaves in memory, and what it returns, whatever the ids it is given. */
  function Step(m: Memory, op: Op): (Memory, int)
    requires Ready(m) && InBounds(op)
  {
    match op
    case Add(q, next, kind) =>
      var h := m.links.next[HeadOf(FREE)];
      if h == HeadOf(FREE) then (m, -1)
      else
        var popped := PoppedMemory(m, kind);
        if next == -1 then (Enqueued(popped, q, HeadOf(q), h), h)
        else if next == 0 then (Enqueued(popped, q, popped.links.next[HeadOf(q)], h), h)
        else if next < 0 || next > HANDLERS || popped.state[next] == STATE_FREE then (popped, -1)
        else (Enqueued(popped, q, next, h), h)
    case Remove(q, hid) =>
      if hid < 1 || hid > HANDLERS || m.state[hid] == STATE_FREE then (m, -1)
      else
        var links := InsertedBefore(Unlinked(m.links, hid), HeadOf(FREE), hid);
        (Memory(links, m.state[hid := STATE_FREE], m.entries[q := m.entries[q] - 1], m.used - 1), m.entries[q] - 1)
    case Enable(hid) => (Memory(m.links, m.state[hid := 2], m.entries, m.used), hid)
    case Disable(hid) => (Memory(m.links, m.state[hid := 1], m.entries, m.used), hid)
  }

  // ----- calls within the interface -----

  lemma UnlinkedClosed(k: Links, x: int)
    requires Closed(k) && InArena(x)
    ensures Closed(Unlinked(k, x))
  {
  }

  lemma InsertedClosed(k: Links, at: int, x: int)
    requires Closed(k) && InArena(at) && InArena(x)
    ensures Closed(InsertedBefore(k, at, x))
  {
  }

  /** The pool's first handler lies between the pool's head and some other member of its ring. */
  lemma FirstInPool(k: Links, lists: seq<seq<int>>)
    requires Separate(lists) && Represents(k, lists) && lists[FREE] != []
    ensures var h := lists[FREE][0];
            && IsHandler(h) && k.prev[h] == HeadOf(FREE) && k.next[h] != h
            && (k.next[h] == HeadOf(FREE) || k.next[h] in lists[FREE])
  {
    var r := RingOf(lists, FREE);
    var h := lists[FREE][0];
    assert h in lists[FREE];
    InRing(k, r, 1);
    assert r[1] == h && r[0] == HeadOf(FREE) && NoDups(r);
    if |r| > 2 {
      assert r[2] == lists[FREE][1];
    }
  }

  /** Popping leaves the popped handler's own links, and those of the stranded. */
  lemma PopKeeps(p: Pool, m: Memory, kind: int)
    requires Sound(p, m) && p.lists[FREE] != [] && (kind == 0 || kind == 2)
    ensures var h := p.lists[FREE][0];
            && IsHandler(h) && Ready(m) && m.links.next[HeadOf(FREE)] == h
            && var k := PoppedMemory(m, kind).links;
            Represents(k, Popped(p, kind).lists) && Closed(k) && Stale(k, p.stranded + {h})
  {
    SoundIsReady(p, m);
    FirstInPool(m.links, p.lists);
    UnlinkRepresents(m.links, p.lists, FREE, 0);
    assert p.lists[FREE][..0] + p.lists[FREE][1..] == p.lists[FREE][1..];
    UnlinkedClosed(m.links, p.lists[FREE][0]);
    UnlinkKeepsStale(m.links, p, p.lists[FREE][0]);
  }

  lemma UnlinkKeepsStale(k: Links, p: Pool, h: int)
    requires WellFormed(p) && Closed(k) && Stale(k, p.stranded) && IsHandler(h)
    requires k.prev[h] == HeadOf(FREE) && k.next[h] != h
    requires k.next[h] == HeadOf(FREE) || k.next[h] in p.lists[FREE]
    ensures Closed(Unlinked(k, h)) && Stale(Unlinked(k, h), p.stranded + {h})
  {
    UnlinkedClosed(k, h);
    forall s | s in p.stranded ensures s != k.next[h] {
      assert s !in p.lists[FREE];
    }
  }

  lemma EnqueueKeepsStale(k: Links, p: Pool, lists: seq<seq<int>>, q: nat, at: int, h: int)
    requires WellFormed(p) && Closed(k) && Stale(k, p.stranded) && q < QUEUES
    requires h !in p.stranded && IsHandler(h) && at !in p.stranded && InArena(at)
    ensures Closed(InsertedBefore(k, at, h)) && Stale(InsertedBefore(k, at, h), p.stranded)
  {
    InsertedClosed(k, at, h);
  }

  lemma AddStep(p: Pool, m: Memory, q: nat, next: int, kind: int)
    requires Sound(p, m) && Ready(m) && Legal(p, Add(q, next, kind))
    ensures var (m', r) := Step(m, Add(q, next, kind));
            Sound(AddTo(p, q, next, kind).0, m') && r == AddTo(p, q, next, kind).1
  {
    SoundIsReady(p, m);
    AddKeeps(p, q, next, kind);
    if p.lists[FREE] != [] {
      PopKeeps(p, m, kind);
      if next == -1 || next == 0 || !BadNext(p, next) {
        AddLinked(p, m, q, next, kind);
      }
    }
  }

  /** Linking the popped handler in front of its place. */
  lemma AddLinked(p: Pool, m: Memory, q: nat, next: int, kind: int)
    requires Sound(p, m) && Ready(m) && Legal(p, Add(q, next, kind)) && p.lists[FREE] != []
    requires next == -1 || next == 0 || !BadNext(p, next)
    requires m.links.next[HeadOf(FREE)] == p.lists[FREE][0] && IsHandler(p.lists[FREE][0])
    requires WellFormed(AddTo(p, q, next, kind).0)
    requires Represents(PoppedMemory(m, kind).links, Popped(p, kind).lists) && Closed(PoppedMemory(m, kind).links)
    requires Stale(PoppedMemory(m, kind).links, p.stranded)
    ensures var (m', r) := Step(m, Add(q, next, kind));
            Sound(AddTo(p, q, next, kind).0, m') && r == AddTo(p, q, next, kind).1
  {
    var h, popped := p.lists[FREE][0], PoppedMemory(m, kind);
    var k := popped.links;
    var at := if next == -1 then HeadOf(q) else if next == 0 then k.next[HeadOf(q)] else next;
    AddRepresents(k, p, q, next, kind);
    PlaceNotStranded(k, p, Popped(p, kind).lists, q, next);
    assert h in p.lists[FREE];
    EnqueueKeepsStale(k, p, p.lists, q, at, h);
    EnqueuedSound(AddTo(p, q, next, kind).0, popped, q, at, h, p.lists);
  }

  /** The place in front of which a handler is linked is no stranded one. */
  lemma PlaceNotStranded(k: Links, p: Pool, lists: seq<seq<int>>, q: nat, next: int)
    requires WellFormed(p) && Separate(lists) && Represents(k, lists) && q < QUEUES && lists[q] == p.lists[q]
    requires next == -1 || next == 0 || next in p.lists[q]
    ensures (if next == -1 then HeadOf(q) else if next == 0 then k.next[HeadOf(q)] else next) !in p.stranded
  {
    FirstOfRing(k, lists, q);
    if p.lists[q] != [] {
      assert p.lists[q][0] in p.lists[q];
    }
  }

  lemma EnqueuedSound(r: Pool, m: Memory, q: nat, at: int, h: int, before: seq<seq<int>>)
    requires q < QUEUES && InArena(at) && InArena(h) && Closed(m.links) && |before| == QUEUES + 1
    requires WellFormed(r) && r.state == m.state && Represents(InsertedBefore(m.links, at, h), r.lists)
    requires |m.entries| == QUEUES && forall l | 0 <= l < QUEUES :: m.entries[l] == |before[l]|
    requires forall l | 0 <= l < QUEUES :: |r.lists[l]| == |before[l]| + if l == q then 1 else 0
    requires m.used == HANDLERS - |r.lists[FREE]|
    requires Closed(InsertedBefore(m.links, at, h)) && Stale(InsertedBefore(m.links, at, h), r.stranded)
    ensures Sound(r, Enqueued(m, q, at, h))
  {
  }

  lemma RemoveStep(p: Pool, m: Memory, q: nat, hid: int)
    requires Sound(p, m) && Ready(m) && Legal(p, Remove(q, hid))
    ensures var (m', r) := Step(m, Remove(q, hid));
            Sound(RemoveFrom(p, q, hid).0, m') && r == RemoveFrom(p, q, hid).1
  {
    RemoveKeeps(p, q, hid);
    if IsHandler(hid) && p.state[hid] != STATE_FREE {
      RemoveRepresents(m.links, p, q, hid);
      WithoutMembers(p.lists[q], hid);
      UnlinkedClosed(m.links, hid);
      InsertedClosed(Unlinked(m.links, hid), HeadOf(FREE), hid);
      NextInRing(m.links, p.lists, q, hid);
      forall s | s in p.stranded ensures s != m.links.next[hid] && s != hid {
        assert s !in p.lists[q];
      }
    }
  }

  lemma NextInRing(k: Links, lists: seq<seq<int>>, q: nat, h: int)
    requires Separate(lists) && Represents(k, lists) && q <= FREE && h in lists[q]
    ensures InArena(h) && k.next[h] in RingOf(lists, q) && k.prev[h] in RingOf(lists, q)
  {
    var r := RingOf(lists, q);
    assert r[IndexOf(lists[q], h) + 1] == h;
    InRing(k, r, IndexOf(lists[q], h) + 1);
  }

  /** A call within the interface does to memory what it does to the pool. */
  lemma StepFollowsApply(p: Pool, m: Memory, op: Op)
    requires Sound(p, m) && Ready(m) && Legal(p, op)
    ensures Sound(Apply(p, op).0, Step(m, op).0) && Step(m, op).1 == Apply(p, op).1
  {
    match op
    case Add(q, next, kind) => AddStep(p, m, q, next, kind);
    case Remove(q, hid) => RemoveStep(p, m, q, hid);
    case Enable(hid) => SetStateKeeps(p, hid, 2);
    case Disable(hid) => SetStateKeeps(p, hid, 1);
  }

  /** The kernel's variables, updated in place. `pool` is what they describe as long as
      all calls were within the interface. */
  class Kernel {
    var links: Links
    var state: seq<int>
    var entries: seq<int>
    var used: int
    ghost var pool: Pool

    ghost function Mem(): Memory
      reads this
    {
      Memory(links, state, entries, used)
    }

    ghost predicate Valid()
      reads this
    {
      Sound(pool, Mem()) && Ready(Mem())
    }

    /** `list_init` on every head, then each handler inserted before the pool's. */
    constructor ()
      ensures Valid() && pool == Initial()
    {
      used := 0;
      entries := seq(QUEUES, _ => 0);
      pool := Initial();
      state := seq(HANDLERS + 1, _ => STATE_FREE);
      links := Links(seq(HEADS, i => i), seq(HEADS, i => i));
      new;
      InitialWellFormed();
      for i := 1 to HANDLERS + 1
        invariant used == 0 && entries == seq(QUEUES, _ => 0) && pool == Initial()
        invariant state == pool.state && Closed(links)
        invariant Ring(links, [HeadOf(FREE)] + seq(i - 1, j => j + 1))
        invariant forall h | InArena(h) && h != HeadOf(FREE) && !(1 <= h < i) :: Adjacent(links, h, h)
      {
        AppendFree(links, i);
        InsertedClosed(links, HeadOf(FREE), i);
        links := InsertedBefore(links, HeadOf(FREE), i);
        state := state[i := STATE_FREE];
      }
      assert seq(HANDLERS, j => j + 1) == pool.lists[FREE];
      forall q | 0 <= q < QUEUES ensures Ring(links, RingOf(pool.lists, q)) {
        assert RingOf(pool.lists, q) == [HeadOf(q)];
        assert Adjacent(links, HeadOf(q), HeadOf(q));
      }
      SoundIsReady(pool, Mem());
    }

    /** `func_800015E0`: the first free handler, or 0 when there is none. */
    method Pop() returns (h: int)
      requires Valid()
      modifies this
      ensures pool == old(pool) && state == old(state) && entries == old(entries)
      ensures var free := pool.lists[FREE];
              if free == [] then h == 0 && links == old(links) && used == old(used)
              else
                && h == free[0] && used == old(used) + 1 && h == old(links).next[HeadOf(FREE)]
                && Represents(links, pool.lists[FREE := free[1..]]) && links == Unlinked(old(links), h)
    {
      SoundIsReady(pool, Mem());
      h := links.next[HeadOf(FREE)];
      assert pool.lists[FREE] == [] || IsHandler(h);
      if h == HeadOf(FREE) {
        return 0;
      }
      UnlinkRepresents(links, pool.lists, FREE, 0);
      assert pool.lists[FREE][..0] + pool.lists[FREE][1..] == pool.lists[FREE][1..];
      links := Unlinked(links, h);
      used := used + 1;
    }

    /** `func_800018F0` and `func_80001B50` after their checks of the cause. */
    method AddHandler(q: nat, next: int, kind: int) returns (hid: int)
      requires Valid() && InBounds(Add(q, next, kind))
      modifies this
      ensures (Mem(), hid) == Step(old(Mem()), Add(q, next, kind))
      ensures old(Legal(pool, Add(q, next, kind))) ==> Valid() && (pool, hid) == Apply(old(pool), Add(q, next, kind))
    {
      ghost var before := Mem();
      SoundIsReady(pool, before);
      var h := Pop();
      if h == 0 {
        return -1;
      }
      assert h in pool.lists[FREE] && IsHandler(h);
      state := state[h := kind];
      assert Mem() == PoppedMemory(before, kind);
      UnlinkedClosed(before.links, h);
      var at: int;
      if next == -1 {
        at := HeadOf(q);
      } else if next == 0 {
        at := links.next[HeadOf(q)];
      } else {
        if next < 0 || next > HANDLERS || state[next] == STATE_FREE {
          Track(before, Add(q, next, kind));
          return -1;
        }
        at := next;
      }
      links := InsertedBefore(links, at, h);
      entries := entries[q := entries[q] + 1];
      hid := h;
      Track(before, Add(q, next, kind));
    }

    /** `func_80001AB0` and `func_80001CF8`. */
    method RemoveHandler(q: nat, hid: int) returns (left: int)
      requires Valid() && InBounds(Remove(q, hid))
      modifies this
      ensures (Mem(), left) == Step(old(Mem()), Remove(q, hid))
      ensures old(Legal(pool, Remove(q, hid))) ==> Valid() && (pool, left) == Apply(old(pool), Remove(q, hid))
    {
      ghost var before := Mem();
      if hid < 1 || hid > HANDLERS {
        return -1;
      }
      if state[hid] == STATE_FREE {
        return -1;
      }
      state := state[hid := STATE_FREE];
      UnlinkedClosed(links, hid);
      links := Unlinked(links, hid);
      links := InsertedBefore(links, HeadOf(FREE), hid);
      used := used - 1;
      entries := entries[q := entries[q] - 1];
      left := entries[q];
      Track(before, Remove(q, hid));
    }

    /** `func_80001FE0` and `func_80002030` (2), `func_80002008` and `func_80002058` (1). */
    method SetState(hid: int, enabled: bool) returns (r: int)
      requires Valid() && 0 <= hid <= HANDLERS
      modifies this
      ensures var op := if enabled then Enable(hid) else Disable(hid);
              && (Mem(), r) == Step(old(Mem()), op)
              && (old(Legal(pool, op)) ==> Valid() && (pool, r) == Apply(old(pool), op))
    {
      ghost var before := Mem();
      state := state[hid := if enabled then 2 else 1];
      r := hid;
      Track(before, if enabled then Enable(hid) else Disable(hid));
    }

    /** Notes what the memory describes after a call that started from `before`. */
    ghost method Track(before: Memory, op: Op)
      requires Sound(pool, before) && Ready(before) && InBounds(op) && Mem() == Step(before, op).0
      modifies this`pool
      ensures old(Legal(pool, op)) ==> Valid() && pool == Apply(old(pool), op).0
      ensures old(Legal(pool, op)) ==> Step(before, op).1 == Apply(old(pool), op).1
    {
      if Legal(pool, op) {
        StepFollowsApply(pool, before, op);
        pool := Apply(pool, op).0;
        SoundIsReady(pool, Mem());
      }
    }

    /** AddIntcHandler: the cause is compared as unsigned. */
    method AddIntc(cause: int, next: int, kind: int) returns (hid: int)
      requires Valid() && (kind == 0 || kind == 2)
      modifies this
      ensures if 0 <= cause < INTC_MAX && !(kind != 0 && cause == INTC_SBUS) then
                var op := Add(cause, next, kind);
                && (Mem(), hid) == Step(old(Mem()), op)
                && (old(Legal(pool, op)) ==> Valid() && (pool, hid) == Apply(old(pool), op))
              else Mem() == old(Mem()) && pool == old(pool) && hid == -1
    {
      if kind != 0 && cause == INTC_SBUS {
        return -1;
      }
      if cause < 0 || cause >= INTC_MAX {
        return -1;
      }
      hid := AddHandler(cause, next, kind);
    }

    /** The DMAC causes' queues follow the INTC ones. */
    method AddDmac(cause: int, next: int, kind: int) returns (hid: int)
      requires Valid() && (kind == 0 || kind == 2)
      modifies this
      ensures if 0 <= cause < DMAC_MAX then
                var op := Add(INTC_MAX + cause, next, kind);
                && (Mem(), hid) == Step(old(Mem()), op)
                && (old(Legal(pool, op)) ==> Valid() && (pool, hid) == Apply(old(pool), op))
              else Mem() == old(Mem()) && pool == old(pool) && hid == -1
    {
      if cause < 0 || cause >= DMAC_MAX {
        return -1;
      }
      hid := AddHandler(INTC_MAX + cause, next, kind);
    }

    /** The walk of `func_80001670` and `func_800017D8`: `entries` steps along
        `next`. `missing` is the "Handler does not exist" report. */
    method Dispatch(q: nat, result: int -> int) returns (calls: seq<Call>, missing: bool)
      requires Valid() && q < QUEUES
      ensures (forall h | h in pool.lists[q] :: IsHandler(h)) && calls == Calls(pool.lists[q], state, result)
      ensures missing <==> pool.lists[q] == []
    {
      ghost var list := pool.lists[q];
      FirstOfRing(links, pool.lists, q);
      calls := [];
      var hnd := links.next[HeadOf(q)];
      var i := 0;
      while i < entries[q]
        invariant 0 <= i <= |list|
        invariant i < |list| ==> hnd == list[i]
        invariant calls + Calls(list[i..], state, result) == Calls(list, state, result)
      {
        assert IsHandler(hnd);
        ghost var rest := Calls(list[i + 1..], state, result);
        assert list[i..][0] == hnd && list[i..][1..] == list[i + 1..];
        if state[hnd] == 2 {
          OneMoreCall(calls, Call(hnd, true), if result(hnd) < 0 then [] else rest);
          calls := calls + [Call(hnd, true)];
          if result(hnd) < 0 {
            return calls, false;
          }
        } else if state[hnd] == 0 {
          OneMoreCall(calls, Call(hnd, false), rest);
          calls := calls + [Call(hnd, false)];
        }
        hnd := links.next[hnd];
        i := i + 1;
      }
      missing := i == 0;
    }
  }

  /** Linking the popped handler in front of the place `next` names. */
  lemma AddRepresents(k: Links, p: Pool, q: nat, next: int, kind: int)
    requires WellFormed(p) && Legal(p, Add(q, next, kind)) && p.lists[FREE] != []
    requires Represents(k, Popped(p, kind).lists)
    requires next == -1 || next == 0 || !BadNext(p, next)
    ensures var h := p.lists[FREE][0];
            var at := if next == -1 then HeadOf(q) else if next == 0 then k.next[HeadOf(q)] else next;
            && IsHandler(h) && InArena(at) && InArena(k.prev[at])
            && var lists := AddTo(p, q, next, kind).0.lists;
            && Represents(InsertedBefore(k, at, h), lists)
            && lists[FREE] == p.lists[FREE][1..] && |lists[q]| == |p.lists[q]| + 1
            && forall l | 0 <= l < QUEUES && l != q :: lists[l] == p.lists[l]
  {
    var h, lists, list := p.lists[FREE][0], Popped(p, kind).lists, p.lists[q];
    PoppedApart(p, kind);
    assert h in p.lists[FREE];
    FirstOfRing(k, lists, q);
    if next == -1 {
      InsertRepresents(k, lists, q, |list|, h);
      assert list[..|list|] + [h] + list[|list|..] == list + [h];
    } else if next == 0 {
      InsertRepresents(k, lists, q, 0, h);
      assert list[..0] + [h] + list[0..] == [h] + list;
    } else {
      InsertRepresents(k, lists, q, IndexOf(list, next), h);
    }
  }

  /** Unlinking a handler and returning it to the back of the pool. */
  lemma RemoveRepresents(k: Links, p: Pool, q: nat, hid: int)
    requires WellFormed(p) && Represents(k, p.lists) && q < QUEUES && hid in p.lists[q] && IsHandler(hid)
    requires p.state[hid] != STATE_FREE
    ensures InArena(k.next[hid]) && InArena(k.prev[hid])
    ensures var m := Unlinked(k, hid);
            && InArena(m.prev[HeadOf(FREE)])
            && Represents(InsertedBefore(m, HeadOf(FREE), hid), RemoveFrom(p, q, hid).0.lists)
  {
    UnlinkRepresents(k, p.lists, q, IndexOf(p.lists[q], hid));
    var without := p.lists[q := Without(p.lists[q], hid)];
    RemovedApart(p, q, hid);
    var free := without[FREE];
    InsertRepresents(Unlinked(k, hid), without, FREE, |free|, hid);
    assert free[..|free|] + [hid] + free[|free|..] == free + [hid];
  }

  /** A list whose head leads to an element that is linked to itself is no ring. */
  lemma NotRing(m: Links, r: seq<int>, h: int)
    requires r != [] && |m.next| == |m.prev| == HEADS && InArena(r[0]) && InArena(h)
    requires m.next[r[0]] == h && m.next[h] == h && h != r[0]
    ensures !Ring(m, r)
  {
    if |r| == 1 {
      assert !Adjacent(m, r[0], r[0]);
    } else if r[1] != h {
      assert !Adjacent(m, r[0], r[0 + 1]);
    } else if |r| == 2 {
      assert !Adjacent(m, r[1], r[0]);
    } else if r[2] != h {
      assert !Adjacent(m, r[1], r[1 + 1]);
    } else {
      assert !NoDups(r);
    }
  }

  /** Why the pool's own head must not be passed as `next`: it is popped and marked
      before it is checked, so it is linked in front of itself. The pool's head
      then still leads to it, and no lists at all fit the links. */
  lemma PoolHeadAsNext(k: Links, p: Pool)
    requires WellFormed(p) && Represents(k, p.lists) && p.lists[FREE] != []
    ensures var h := p.lists[FREE][0];
            && IsHandler(h) && InArena(k.next[h]) && InArena(k.prev[h])
            && var popped := Unlinked(k, h);
            && InArena(popped.prev[h])
            && var m := InsertedBefore(popped, h, h);
            && m.next[HeadOf(FREE)] == h
            && forall lists :: Separate(lists) ==> !Represents(m, lists)
  {
    var h := p.lists[FREE][0];
    UnlinkRepresents(k, p.lists, FREE, 0);
    InRing(k, RingOf(p.lists, FREE), 1);
    var m := InsertedBefore(Unlinked(k, h), h, h);
    forall lists | Separate(lists) ensures !Represents(m, lists) {
      NotRing(m, RingOf(lists, FREE), h);
      assert !Ring(m, RingOf(lists, FREE));
    }
  }

  lemma OneMoreCall(calls: seq<Call>, c: Call, rest: seq<Call>)
    ensures calls + [c] + rest == calls + ([c] + rest)
  {
  }

  lemma PoppedApart(p: Pool, kind: int)
    requires WellFormed(p) && p.lists[FREE] != []
    ensures var lists := Popped(p, kind).lists;
            Separate(lists) && forall l | 0 <= l <= FREE :: p.lists[FREE][0] !in lists[l]
  {
    var free, h := p.lists[FREE], p.lists[FREE][0];
    var lists := Popped(p, kind).lists;
    assert free == [h] + free[1..] && h in free;
    assert forall x | x in free[1..] :: x in free;
    forall q, l | 0 <= q <= FREE && 0 <= l <= FREE && q != l ensures Disjoint(lists[q], lists[l]) {
      assert Disjoint(p.lists[q], p.lists[l]);
    }
    forall l | 0 <= l <= FREE ensures h !in lists[l] {
      assert l != FREE ==> Disjoint(p.lists[FREE], p.lists[l]);
    }
  }

  lemma RemovedApart(p: Pool, q: nat, hid: int)
    requires WellFormed(p) && q < QUEUES && hid in p.lists[q]
    ensures var lists := p.lists[q := Without(p.lists[q], hid)];
            Separate(lists) && forall l | 0 <= l <= FREE :: hid !in lists[l]
  {
    var lists := p.lists[q := Without(p.lists[q], hid)];
    WithoutMembers(p.lists[q], hid);
    forall a, l | 0 <= a <= FREE && 0 <= l <= FREE && a != l ensures Disjoint(lists[a], lists[l]) {
      assert Disjoint(p.lists[a], p.lists[l]);
    }
    forall l | 0 <= l <= FREE ensures hid !in lists[l] {
      assert l != q ==> Disjoint(p.lists[q], p.lists[l]);
    }
  }

  /** One turn of the initialising loop. */
  lemma AppendFree(k: Links, i: nat)
    requires 1 <= i <= HANDLERS
    requires Ring(k, [HeadOf(FREE)] + seq(i - 1, j => j + 1))
    requires forall h | InArena(h) && h != HeadOf(FREE) && !(1 <= h < i) :: Adjacent(k, h, h)
    ensures InArena(k.prev[HeadOf(FREE)])
    ensures var m := InsertedBefore(k, HeadOf(FREE), i);
            && Ring(m, [HeadOf(FREE)] + seq(i, j => j + 1))
            && forall h | InArena(h) && h != HeadOf(FREE) && !(1 <= h <= i) :: Adjacent(m, h, h)
  {
    var r := [HeadOf(FREE)] + seq(i - 1, j => j + 1);
    InsertInRing(k, r, |r|, i);
    assert r[..|r|] + [i] + r[|r|..] == [HeadOf(FREE)] + seq(i, j => j + 1);
    assert k.prev[HeadOf(FREE)] == r[|r| - 1];
    var m := InsertedBefore(k, HeadOf(FREE), i);
    forall h | InArena(h) && h != HeadOf(FREE) && !(1 <= h <= i) ensures Adjacent(m, h, h) {
      assert Adjacent(k, h, h);
    }
  }
}
