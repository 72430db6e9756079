/** What the calls do with ids they should not be given. The links of a list determine it,
    so that the memory a call leaves can be compared with every pool it might describe. */
module HandlerMisuse {
  import opened HandlerPool
  import opened HandlerLists

  // ----- links determine lists -----

  lemma {:induction false} SameAt(k: Links, m: Links, r: seq<int>, s: seq<int>, i: nat)
    requires Ring(k, r) && Ring(m, s) && r[0] == s[0] && i < |r| && i < |s|
    requires forall h | h in r && InArena(h) :: m.next[h] == k.next[h]
    ensures r[i] == s[i]
  {
    if i > 0 {
      SameAt(k, m, r, s, i - 1);
      assert Adjacent(k, r[i - 1], r[i - 1 + 1]) && Adjacent(m, s[i - 1], s[i - 1 + 1]);
    }
  }

  /** Two rings with the same first element are equal when the `next` links of one are
      also those under the other. */
  lemma SameRing(k: Links, m: Links, r: seq<int>, s: seq<int>)
    requires Ring(k, r) && Ring(m, s) && r[0] == s[0]
    requires forall h | h in r && InArena(h) :: m.next[h] == k.next[h]
    ensures r == s
  {
    var n := if |r| < |s| then |r| else |s|;
    SameAt(k, m, r, s, n - 1);
    InRing(k, r, n - 1);
    InRing(m, s, n - 1);
    forall i | 0 <= i < n ensures r[i] == s[i] {
      SameAt(k, m, r, s, i);
    }
  }

  /** A queue none of whose `next` links were written is the same list in every pool that
      fits the new links. */
  lemma UnwrittenQueue(k: Links, m: Links, lists: seq<seq<int>>, lists': seq<seq<int>>, q: nat)
    requires Represents(k, lists) && Represents(m, lists') && q <= FREE
    requires forall h | h in RingOf(lists, q) && InArena(h) :: m.next[h] == k.next[h]
    ensures lists'[q] == lists[q]
  {
    var r, s := RingOf(lists, q), RingOf(lists', q);
    SameRing(k, m, r, s);
    assert r[1..] == lists[q] && s[1..] == lists'[q];
  }

  /** A memory describes at most one pool. */
  lemma DescribesOne(p: Pool, p': Pool, m: Memory)
    requires Describes(p, m) && Describes(p', m)
    ensures p == p'
  {
    forall q | 0 <= q <= FREE ensures p'.lists[q] == p.lists[q] {
      UnwrittenQueue(m.links, m.links, p.lists, p'.lists, q);
    }
    assert p'.lists == p.lists;
    forall h ensures h in p.stranded <==> h in p'.stranded {
      if IsHandler(h) {
        assert Somewhere(p, h) && Somewhere(p', h);
      }
    }
    assert p.stranded == p'.stranded;
  }

  // ----- calls outside the interface -----

  /** A used handler that is not in queue `q` is stranded or in another queue. */
  lemma ElsewhereApart(p: Pool, q: nat, h: int)
    requires WellFormed(p) && q < QUEUES && IsHandler(h) && h !in p.lists[q] && p.state[h] != STATE_FREE
    ensures h in p.stranded || exists l :: 0 <= l < QUEUES && l != q && h in p.lists[l]
  {
    assert Somewhere(p, h);
  }

  /** The link in front of such a handler is not one of queue `q`. */
  lemma PrevElsewhere(k: Links, p: Pool, lists: seq<seq<int>>, q: nat, h: int)
    requires Separate(lists) && Represents(k, lists) && Closed(k) && Stale(k, p.stranded) && q < QUEUES
    requires h in p.stranded || exists l :: 0 <= l <= FREE && l != q && h in lists[l]
    ensures InArena(h) && k.prev[h] !in RingOf(lists, q)
  {
    if h in p.stranded {
      assert forall x | x in lists[q] :: IsHandler(x);
    } else {
      var l :| 0 <= l <= FREE && l != q && h in lists[l];
      NextInRing(k, lists, l, h);
      RingsApart(lists, l, q);
    }
  }

  /** The links of queue `q` after something was linked in front of a handler elsewhere. */
  lemma EnqueuedElsewhere(m: Memory, lists: seq<seq<int>>, p': Pool, q: nat, at: int, h: int)
    requires Represents(m.links, lists) && Closed(m.links) && |m.entries| == QUEUES && q < QUEUES
    requires InArena(at) && InArena(h) && h !in RingOf(lists, q) && m.links.prev[at] !in RingOf(lists, q)
    requires m.entries[q] == |lists[q]|
    ensures !Describes(p', Enqueued(m, q, at, h))
  {
    if Describes(p', Enqueued(m, q, at, h)) {
      UnwrittenQueue(m.links, InsertedBefore(m.links, at, h), lists, p'.lists, q);
    }
  }

  /** Adding with a bad id that passes the checks: the pool's own first handler, a member
      of another queue, or a stranded handler. */
  lemma AddOutside(p: Pool, m: Memory, q: nat, next: int, kind: int, p': Pool)
    requires Sound(p, m) && Ready(m) && InBounds(Add(q, next, kind)) && !Legal(p, Add(q, next, kind))
    ensures !Describes(p', Step(m, Add(q, next, kind)).0)
  {
    SoundIsReady(p, m);
    PopKeeps(p, m, kind);
    PoppedApart(p, kind);
    var h := p.lists[FREE][0];
    var popped, lists := PoppedMemory(m, kind), Popped(p, kind).lists;
    assert h in p.lists[FREE] && h !in RingOf(lists, q);
    assert IsHandler(next);
    if next == h {
      assert Stale(popped.links, p.stranded + {h}) && popped.links.prev[h] == HeadOf(FREE);
      assert forall x | x in lists[q] :: IsHandler(x);
    } else {
      ElsewhereApart(p, q, next);
      assert forall l | 0 <= l < QUEUES :: lists[l] == p.lists[l];
      PrevElsewhere(popped.links, p, lists, q, next);
    }
    EnqueuedElsewhere(popped, lists, p', q, next, h);
  }

  /** Removing a used handler that is not in the named queue. */
  lemma RemoveOutside(p: Pool, m: Memory, q: nat, hid: int, p': Pool)
    requires Sound(p, m) && Ready(m) && InBounds(Remove(q, hid)) && !Legal(p, Remove(q, hid))
    ensures !Describes(p', Step(m, Remove(q, hid)).0)
  {
    var m' := Step(m, Remove(q, hid)).0;
    if Describes(p', m') {
      ElsewhereApart(p, q, hid);
      PrevElsewhere(m.links, p, p.lists, q, hid);
      UnlinkedClosed(m.links, hid);
      BackOfPool(m.links, p, q, hid);
      UnwrittenQueue(m.links, m'.links, p.lists, p'.lists, q);
    }
  }

  /** The last link of the pool is not one of queue `q`, also after unlinking `hid`. */
  lemma BackOfPool(k: Links, p: Pool, q: nat, hid: int)
    requires WellFormed(p) && Represents(k, p.lists) && Closed(k) && q < QUEUES && IsHandler(hid)
    requires k.prev[hid] !in RingOf(p.lists, q)
    ensures Unlinked(k, hid).prev[HeadOf(FREE)] !in RingOf(p.lists, q)
  {
    var r := RingOf(p.lists, FREE);
    InRing(k, r, 0);
    assert k.prev[HeadOf(FREE)] in r;
    RingsApart(p.lists, FREE, q);
  }

  /** Marking a free handler as used. */
  lemma SetStateOutside(p: Pool, m: Memory, hid: int, v: int, p': Pool)
    requires Sound(p, m) && IsHandler(hid) && p.state[hid] == STATE_FREE && v != STATE_FREE
    ensures !Describes(p', Memory(m.links, m.state[hid := v], m.entries, m.used))
  {
    if Describes(p', Memory(m.links, m.state[hid := v], m.entries, m.used)) {
      UnwrittenQueue(m.links, m.links, p.lists, p'.lists, FREE);
    }
  }

  lemma StepOutside(p: Pool, m: Memory, op: Op, p': Pool)
    requires Sound(p, m) && Ready(m) && InBounds(op) && !Legal(p, op)
    ensures !Describes(p', Step(m, op).0)
  {
    match op
    case Add(q, next, kind) => AddOutside(p, m, q, next, kind, p');
    case Remove(q, hid) => RemoveOutside(p, m, q, hid, p');
    case Enable(hid) => SetStateOutside(p, m, hid, 2, p');
    case Disable(hid) => SetStateOutside(p, m, hid, 1, p');
  }

  ghost predicate Describable(m: Memory) {
    exists p :: Describes(p, m)
  }

  /** A call leaves links, states and counters that some pool fits exactly when it is
      within the interface. */
  lemma StepKeepsExactly(p: Pool, m: Memory, op: Op)
    requires Sound(p, m) && Ready(m) && InBounds(op)
    ensures Describable(Step(m, op).0) <==> Legal(p, op)
  {
    if Legal(p, op) {
      StepFollowsApply(p, m, op);
      assert Describes(Apply(p, op).0, Step(m, op).0);
    } else {
      forall p' ensures !Describes(p', Step(m, op).0) {
        StepOutside(p, m, op, p');
      }
    }
  }

  // ----- whole runs -----

  /** `mems` is what the calls `ops` leave in memory, one after the other. */
  ghost predicate MemoryRun(ops: seq<Op>, mems: seq<Memory>) {
    && |mems| == |ops| + 1 && Sound(Initial(), mems[0])
    && forall i | 0 <= i < |ops| :: InBounds(ops[i]) && (Ready(mems[i]) ==> mems[i + 1] == Step(mems[i], ops[i]).0)
  }

  lemma NextFollows(ops: seq<Op>, mems: seq<Memory>, p: Pool, i: nat)
    requires MemoryRun(ops, mems) && i < |ops| && Sound(p, mems[i]) && Describable(mems[i + 1])
    ensures Legal(p, ops[i]) && Sound(Apply(p, ops[i]).0, mems[i + 1])
  {
    SoundIsReady(p, mems[i]);
    StepKeepsExactly(p, mems[i], ops[i]);
    StepFollowsApply(p, mems[i], ops[i]);
  }

  /** `pools` is the run of the first `n` calls. */
  ghost predicate RunOfFirst(ops: seq<Op>, pools: seq<Pool>, n: nat) {
    && n <= |ops| && |pools| == n + 1 && pools[0] == Initial()
    && forall i | 0 <= i < n ::
         WellFormed(pools[i]) ==> Legal(pools[i], ops[i]) && pools[i + 1] == Apply(pools[i], ops[i]).0
  }

  lemma LongerRun(ops: seq<Op>, pools: seq<Pool>, n: nat)
    requires RunOfFirst(ops, pools, n) && n < |ops| && WellFormed(pools[n]) && Legal(pools[n], ops[n])
    ensures RunOfFirst(ops, pools + [Apply(pools[n], ops[n]).0], n + 1)
  {
  }

  /** The pools of a run as long as the calls are within the interface. */
  lemma {:induction false} RunFollows(ops: seq<Op>, mems: seq<Memory>, n: nat) returns (pools: seq<Pool>)
    requires MemoryRun(ops, mems) && n < |mems|
    requires forall i | 0 <= i <= n :: Describable(mems[i])
    ensures RunOfFirst(ops, pools, n) && Sound(pools[n], mems[n])
  {
    if n == 0 {
      return [Initial()];
    }
    var before := RunFollows(ops, mems, n - 1);
    NextFollows(ops, mems, before[n - 1], n - 1);
    LongerRun(ops, before, n - 1);
    pools := before + [Apply(before[n - 1], ops[n - 1]).0];
  }

  lemma {:induction false} LegalRunIsSound(ops: seq<Op>, mems: seq<Memory>, pools: seq<Pool>, i: nat)
    requires MemoryRun(ops, mems) && Run(ops, pools) && i < |mems|
    ensures Sound(pools[i], mems[i])
  {
    if i > 0 {
      LegalRunIsSound(ops, mems, pools, i - 1);
      SoundIsReady(pools[i - 1], mems[i - 1]);
      StepFollowsApply(pools[i - 1], mems[i - 1], ops[i - 1]);
    }
  }

  /** Over every run of calls with arbitrary ids, the links, states and counters always
      form a pool exactly when every call was within the interface; what they form is
      then the run of the pool. */
  lemma RunKeepsExactly(ops: seq<Op>, mems: seq<Memory>)
    requires MemoryRun(ops, mems)
    ensures (forall i | 0 <= i < |mems| :: Describable(mems[i])) <==> exists pools :: Run(ops, pools)
    ensures forall pools, i | Run(ops, pools) && 0 <= i < |mems| :: Sound(pools[i], mems[i])
  {
    forall pools, i | Run(ops, pools) && 0 <= i < |mems| ensures Sound(pools[i], mems[i]) {
      LegalRunIsSound(ops, mems, pools, i);
    }
    if forall i | 0 <= i < |mems| :: Describable(mems[i]) {
      var pools := RunFollows(ops, mems, |ops|);
      assert Run(ops, pools);
    }
    if exists pools :: Run(ops, pools) {
      var pools :| Run(ops, pools);
      forall i | 0 <= i < |mems| ensures Describable(mems[i]) {
        LegalRunIsSound(ops, mems, pools, i);
        assert Describes(pools[i], mems[i]);
      }
    }
  }
}
