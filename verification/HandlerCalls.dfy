/** What registering, enabling and disabling handlers mean for the calls that a dispatcher
    makes. */
module HandlerCalls {
  import opened HandlerPool
  import opened HandlerLists

  /** The dispatcher comes as far as position `i`: no earlier handler is called with a
      context and answers with a negative number. */
  predicate Reached(list: seq<int>, state: seq<int>, result: int -> int, i: nat)
    requires |state| == HANDLERS + 1 && i < |list| && forall h | h in list :: IsHandler(h)
  {
    forall j | 0 <= j < i :: !(state[AsHandler(list, j)] == 2 && result(list[j]) < 0)
  }

  function AsHandler(list: seq<int>, j: nat): (h: int)
    requires j < |list| && forall h | h in list :: IsHandler(h)
    ensures h == list[j] && IsHandler(h)
  {
    assert list[j] in list;
    list[j]
  }

  /** Every handler in a queue is one. */
  lemma Members(p: Pool, q: nat)
    requires WellFormed(p) && q <= FREE
    ensures (forall h | h in p.lists[q] :: IsHandler(h)) && |p.state| == HANDLERS + 1
  {
  }

  /** Which calls are made: of the handlers that are reached, those in state 2 with a
      context and those in state 0 without. */
  lemma {:induction false} CallsMean(list: seq<int>, state: seq<int>, result: int -> int, c: Call)
    requires |state| == HANDLERS + 1 && forall h | h in list :: IsHandler(h)
    ensures c in Calls(list, state, result)
       <==> exists i :: 0 <= i < |list| && Reached(list, state, result, i) && list[i] == c.hid
                        && state[AsHandler(list, i)] == if c.withContext then 2 else 0
    decreases |list|
  {
    if list != [] {
      var h, rest := AsHandler(list, 0), list[1..];
      assert forall x | x in rest :: x in list;
      CallsMean(rest, state, result, c);
      forall i | 0 <= i < |rest|
        ensures Reached(list, state, result, i + 1)
           <==> !(state[h] == 2 && result(h) < 0) && Reached(rest, state, result, i)
      {
        ReachedLater(list, state, result, i);
      }
      CallsStep(list, state, result, c);
    }
  }

  lemma ReachedLater(list: seq<int>, state: seq<int>, result: int -> int, i: nat)
    requires |state| == HANDLERS + 1 && i + 1 < |list| && forall h | h in list :: IsHandler(h)
    ensures forall h | h in list[1..] :: h in list
    ensures Reached(list, state, result, i + 1)
       <==> !(state[AsHandler(list, 0)] == 2 && result(list[0]) < 0) && Reached(list[1..], state, result, i)
  {
    assert forall h | h in list[1..] :: h in list;
    if Reached(list, state, result, i + 1) {
      forall j | 0 <= j < i ensures !(state[AsHandler(list[1..], j)] == 2 && result(list[1..][j]) < 0) {
        assert AsHandler(list, j + 1) == AsHandler(list[1..], j);
      }
      assert AsHandler(list, 0) == list[0];
    }
    if !(state[AsHandler(list, 0)] == 2 && result(list[0]) < 0) && Reached(list[1..], state, result, i) {
      forall j | 0 <= j < i + 1 ensures !(state[AsHandler(list, j)] == 2 && result(list[j]) < 0) {
        if j > 0 {
          assert AsHandler(list, j) == AsHandler(list[1..], j - 1);
        }
      }
    }
  }

  /** The first handler's own call, or one further down. */
  lemma CallsStep(list: seq<int>, state: seq<int>, result: int -> int, c: Call)
    requires |state| == HANDLERS + 1 && list != [] && forall h | h in list :: IsHandler(h)
    ensures forall h | h in list[1..] :: h in list
    ensures c in Calls(list, state, result)
       <==> || (list[0] == c.hid && state[AsHandler(list, 0)] == if c.withContext then 2 else 0)
            || (!(state[AsHandler(list, 0)] == 2 && result(list[0]) < 0) && c in Calls(list[1..], state, result))
  {
    assert forall h | h in list[1..] :: h in list;
    var h := AsHandler(list, 0);
    assert c == Call(h, true) || c == Call(h, false) <==> c.hid == h;
  }

  /** Calls are made in the order of the queue, each handler's at most once. */
  lemma {:induction false} CallsInOrder(list: seq<int>, state: seq<int>, result: int -> int, a: nat, b: nat)
    requires |state| == HANDLERS + 1 && NoDups(list) && forall h | h in list :: IsHandler(h)
    requires a < b < |Calls(list, state, result)|
    ensures var cs := Calls(list, state, result);
            exists i, j :: 0 <= i < j < |list| && list[i] == cs[a].hid && list[j] == cs[b].hid
    decreases |list|
  {
    var rest, cs := list[1..], Calls(list, state, result);
    assert forall x | x in rest :: x in list;
    var h := AsHandler(list, 0);
    var own := if state[h] == 2 || state[h] == 0 then 1 else 0;
    if a < own {
      CallsMean(rest, state, result, cs[b]);
      var j :| 0 <= j < |rest| && rest[j] == cs[b].hid;
      assert list[0] == cs[a].hid && list[j + 1] == cs[b].hid;
    } else {
      CallsInOrder(rest, state, result, a - own, b - own);
      var i, j :| 0 <= i < j < |rest| && rest[i] == cs[a].hid && rest[j] == cs[b].hid;
      assert list[i + 1] == cs[a].hid && list[j + 1] == cs[b].hid;
    }
  }

  // ----- enabling and disabling -----

  /** The head of a queue is taken out, or the rest of it loses the handler. */
  lemma WithoutHead(list: seq<int>, h: int)
    requires list != [] && NoDups(list)
    ensures NoDups(list[1..])
    ensures Without(list, h) == if list[0] == h then list[1..] else [list[0]] + Without(list[1..], h)
    ensures list[0] == h ==> Without(list[1..], h) == list[1..]
  {
    if list[0] == h {
      assert h !in list[1..];
      assert list[..0] + list[1..] == list[1..];
    } else {
      WithoutLater(list, h);
    }
  }

  lemma WithoutLater(list: seq<int>, h: int)
    requires list != [] && list[0] != h
    ensures Without(list, h) == [list[0]] + Without(list[1..], h)
  {
    if h in list {
      assert h in list[1..];
      var i := IndexOf(list[1..], h);
      assert IndexOf(list, h) == i + 1;
      CutLater(list, i);
    } else {
      assert h !in list[1..];
      assert list == [list[0]] + list[1..];
    }
  }

  lemma CutLater(list: seq<int>, i: nat)
    requires i + 1 < |list|
    ensures list[..i + 1] + list[i + 2..] == [list[0]] + (list[1..][..i] + list[1..][i + 1..])
  {
  }

  /** What the first handler of a queue adds to the calls for the others. */
  function HeadCalls(h: int, state: seq<int>, result: int -> int, rest: seq<Call>): seq<Call>
    requires |state| == HANDLERS + 1 && IsHandler(h)
  {
    if state[h] == 2 then [Call(h, true)] + (if result(h) < 0 then [] else rest)
    else if state[h] == 0 then [Call(h, false)] + rest
    else rest
  }

  lemma CallsOfHead(list: seq<int>, state: seq<int>, result: int -> int)
    requires |state| == HANDLERS + 1 && list != [] && forall x | x in list :: IsHandler(x)
    ensures IsHandler(list[0]) && forall x | x in list[1..] :: IsHandler(x)
    ensures Calls(list, state, result) == HeadCalls(list[0], state, result, Calls(list[1..], state, result))
  {
    assert list[0] in list && forall x | x in list[1..] :: x in list;
  }

  /** A handler in any other state than plain or enabled is passed over. */
  lemma {:induction false} PassedOver(list: seq<int>, state: seq<int>, h: int, v: int, result: int -> int)
    requires |state| == HANDLERS + 1 && IsHandler(h) && NoDups(list) && forall x | x in list :: IsHandler(x)
    requires v != 0 && v != 2
    ensures forall x | x in Without(list, h) :: IsHandler(x)
    ensures Calls(list, state[h := v], result) == Calls(Without(list, h), state, result)
    decreases |list|
  {
    if list != [] {
      var rest := list[1..];
      CallsOfHead(list, state[h := v], result);
      WithoutHead(list, h);
      PassedOver(rest, state, h, v, result);
      if list[0] != h {
        var less := Without(list, h);
        assert less[0] == list[0] && less[1..] == Without(rest, h);
        assert forall x | x in less :: x == list[0] || x in less[1..];
        CallsOfHead(less, state, result);
      }
    }
  }

  /** A disabled handler is not called, and the dispatcher calls the others as if it were
      not in the queue. */
  lemma DisabledIsSilent(p: Pool, h: int, q: nat, result: int -> int)
    requires WellFormed(p) && IsHandler(h) && Legal(p, Disable(h)) && q < QUEUES
    ensures var r := Apply(p, Disable(h)).0;
            && WellFormed(r) && (forall x | x in r.lists[q] :: IsHandler(x))
            && (forall x | x in Without(p.lists[q], h) :: IsHandler(x))
            && (forall c | c in Calls(r.lists[q], r.state, result) :: c.hid != h)
            && Calls(r.lists[q], r.state, result) == Calls(Without(p.lists[q], h), p.state, result)
  {
    ApplyKeeps(p, Disable(h));
    var r := Apply(p, Disable(h)).0;
    Members(r, q);
    PassedOver(p.lists[q], p.state, h, r.state[h], result);
    forall c | c in Calls(r.lists[q], r.state, result) ensures c.hid != h {
      CallsMean(r.lists[q], r.state, result, c);
    }
  }

  /** An enabled handler that is reached is called with its context. */
  lemma EnabledIsCalled(p: Pool, h: int, q: nat, i: nat, result: int -> int)
    requires WellFormed(p) && IsHandler(h) && Legal(p, Enable(h)) && q < QUEUES
    requires i < |p.lists[q]| && p.lists[q][i] == h
    requires Reached(p.lists[q], p.state, result, i)
    ensures var r := Apply(p, Enable(h)).0;
            && WellFormed(r) && (forall x | x in r.lists[q] :: IsHandler(x))
            && Call(h, true) in Calls(r.lists[q], r.state, result)
            && Call(h, false) !in Calls(r.lists[q], r.state, result)
  {
    ApplyKeeps(p, Enable(h));
    var r := Apply(p, Enable(h)).0;
    Members(r, q);
    forall j | 0 <= j < i ensures !(r.state[AsHandler(r.lists[q], j)] == 2 && result(r.lists[q][j]) < 0) {
      assert AsHandler(p.lists[q], j) != h;
    }
    assert Reached(r.lists[q], r.state, result, i);
    CallsMean(r.lists[q], r.state, result, Call(h, true));
    CallsMean(r.lists[q], r.state, result, Call(h, false));
  }

  // ----- adding -----

  /** An addition fails exactly when the pool is empty, or `next` is neither -1 nor 0 nor the
      number of a handler in use. */
  lemma AddFails(p: Pool, q: nat, next: int, kind: int)
    requires WellFormed(p) && Legal(p, Add(q, next, kind))
    ensures AddTo(p, q, next, kind).1 == -1
       <==> || p.lists[FREE] == []
            || (next != -1 && next != 0 && (!(1 <= next <= 128) || next in p.lists[FREE]))
  {
    if p.lists[FREE] != [] {
      FirstFree(p);
      if next != -1 && next != 0 {
        assert BadNext(p, next) <==> !IsHandler(next) || next in p.lists[FREE];
        if next in p.lists[q] {
          assert IsHandler(next) && Disjoint(p.lists[q], p.lists[FREE]);
        }
      }
    }
  }

  lemma FirstFree(p: Pool)
    requires WellFormed(p) && p.lists[FREE] != []
    ensures IsHandler(p.lists[FREE][0])
  {
    assert p.lists[FREE][0] in p.lists[FREE];
  }

  /** Where a new handler stands: last for -1, first for 0, and otherwise directly before
      `next`; the others keep their order, and no other queue changes. */
  lemma AddedPlace(p: Pool, q: nat, next: int, kind: int)
    requires WellFormed(p) && Legal(p, Add(q, next, kind)) && AddTo(p, q, next, kind).1 != -1
    ensures var (r, h) := AddTo(p, q, next, kind);
            && h in r.lists[q] && Without(r.lists[q], h) == p.lists[q] && |r.lists[q]| == |p.lists[q]| + 1
            && (next == -1 ==> r.lists[q][|r.lists[q]| - 1] == h)
            && (next == 0 ==> r.lists[q][0] == h)
            && (next > 0 ==> exists i :: 0 <= i < |r.lists[q]| - 1 && r.lists[q][i] == h && r.lists[q][i + 1] == next)
            && forall l | 0 <= l < QUEUES && l != q :: r.lists[l] == p.lists[l]
  {
    AddedIsInserted(p, q, next, kind);
    var (r, h) := AddTo(p, q, next, kind);
    if next > 0 {
      var i := IndexOf(p.lists[q], next);
      assert r.lists[q][i] == h && r.lists[q][i + 1] == next;
    }
  }

  /** A new handler that is reached is called, with a context if it was added with one. */
  lemma AddedIsCalled(p: Pool, q: nat, next: int, kind: int, result: int -> int, i: nat)
    requires WellFormed(p) && Legal(p, Add(q, next, kind)) && AddTo(p, q, next, kind).1 != -1
    ensures var (r, h) := AddTo(p, q, next, kind);
            && WellFormed(r) && (forall x | x in r.lists[q] :: IsHandler(x))
            && (i < |r.lists[q]| && r.lists[q][i] == h && Reached(r.lists[q], r.state, result, i) ==>
                  Call(h, kind == 2) in Calls(r.lists[q], r.state, result))
  {
    AddKeeps(p, q, next, kind);
    var (r, h) := AddTo(p, q, next, kind);
    Members(r, q);
    AddedIsInserted(p, q, next, kind);
    assert IsHandler(h) && r.state[h] == kind;
    CallsMean(r.lists[q], r.state, result, Call(h, kind == 2));
  }

  // ----- on the linked lists -----

  /** Disabling a handler and then dispatching a queue. */
  method DisableThenDispatch(k: Kernel, h: int, q: nat, result: int -> int) returns (calls: seq<Call>)
    requires k.Valid() && IsHandler(h) && Legal(k.pool, Disable(h)) && q < QUEUES
    modifies k
    ensures k.Valid() && forall c | c in calls :: c.hid != h
    ensures (forall x | x in Without(old(k.pool.lists[q]), h) :: IsHandler(x))
            && calls == Calls(Without(old(k.pool.lists[q]), h), old(k.state), result)
  {
    DisabledIsSilent(k.pool, h, q, result);
    var r := k.SetState(h, false);
    var missing;
    calls, missing := k.Dispatch(q, result);
  }

  /** Enabling a handler of a queue and then dispatching it. */
  method EnableThenDispatch(k: Kernel, h: int, q: nat, result: int -> int, ghost i: nat) returns (calls: seq<Call>)
    requires k.Valid() && IsHandler(h) && Legal(k.pool, Enable(h)) && q < QUEUES
    requires i < |k.pool.lists[q]| && k.pool.lists[q][i] == h
    requires (forall x | x in k.pool.lists[q] :: IsHandler(x)) && Reached(k.pool.lists[q], k.pool.state, result, i)
    modifies k
    ensures k.Valid() && Call(h, true) in calls && Call(h, false) !in calls
  {
    EnabledIsCalled(k.pool, h, q, i, result);
    var r := k.SetState(h, true);
    var missing;
    calls, missing := k.Dispatch(q, result);
  }

  /** Adding a handler in front and then dispatching: it is called first. */
  method AddThenDispatch(k: Kernel, q: nat, kind: int, result: int -> int) returns (h: int, calls: seq<Call>)
    requires k.Valid() && q < QUEUES && (kind == 0 || kind == 2)
    modifies k
    ensures k.Valid()
    ensures if old(k.pool.lists[FREE]) == [] then h == -1 else calls != [] && calls[0] == Call(h, kind == 2)
  {
    ghost var p := k.pool;
    if p.lists[FREE] != [] {
      FirstFree(p);
    }
    assert Legal(p, Add(q, 0, kind));
    h := k.AddHandler(q, 0, kind);
    if p.lists[FREE] != [] {
      AddFails(p, q, 0, kind);
      AddedPlace(p, q, 0, kind);
      AddedIsInserted(p, q, 0, kind);
    }
    var missing;
    calls, missing := k.Dispatch(q, result);
  }
}
