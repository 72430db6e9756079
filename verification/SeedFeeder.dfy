/** Handing out seeds: round-robin over the permuters' seed iterators. */
module SeedFeeder {

  import opened Prelude

  /** A seed iterator: `seeds(0)`, `seeds(1)`, …, endless when `length` is None. */
  datatype SeedIterator = SeedIterator(seeds: nat -> int, length: Option<nat>, pos: nat) {
    predicate Exhausted() {
      length.Some? && pos >= length.value
    }
  }

  datatype Task = Task(permuter: nat, seed: int)

  function Live(its: seq<Option<SeedIterator>>): nat {
    if its == [] then 0 else Live(its[..|its| - 1]) + (if its[|its| - 1].Some? then 1 else 0)
  }

  lemma {:induction false} LiveUpdate(its: seq<Option<SeedIterator>>, i: nat, it: Option<SeedIterator>)
    requires i < |its|
    ensures Live(its[i := it]) == Live(its) - (if its[i].Some? then 1 else 0) + (if it.Some? then 1 else 0)
    decreases |its|
  {
    var n := |its| - 1;
    if i == n {
      assert its[i := it][..n] == its[..n];
    } else {
      assert its[i := it][..n] == its[..n][i := it];
      LiveUpdate(its[..n], i, it);
    }
  }

  lemma {:induction false} NoneLive(its: seq<Option<SeedIterator>>)
    ensures Live(its) == 0 <==> forall i | 0 <= i < |its| :: its[i].None?
  {
    if its != [] {
      NoneLive(its[..|its| - 1]);
    }
  }

  /** The iterator has nothing more to give. */
  predicate Over(it: Option<SeedIterator>) {
    it.None? || it.value.Exhausted()
  }

  /** How far `q` lies ahead of `from`, going around `n` places. */
  function Ahead(from: nat, q: nat, n: nat): (d: nat)
    requires from < n && q < n
    ensures d < n
  {
    if q >= from then q - from else q + n - from
  }

  lemma NextAhead(from: nat, p: nat, n: nat)
    requires from < n && p < n
    ensures Ahead(from, p, n) + 1 < n ==> Ahead(from, (p + 1) % n, n) == Ahead(from, p, n) + 1
  {
    if p + 1 < n {
      assert (p + 1) % n == p + 1;
    } else {
      assert (p + 1) % n == 0;
    }
  }

  class Feeder {
    var iterators: seq<Option<SeedIterator>>
    var remaining: nat
    var nextIndex: nat

    ghost predicate Valid()
      reads this
    {
      && iterators != [] && nextIndex < |iterators|
      && remaining == Live(iterators)
    }

    constructor (its: seq<SeedIterator>)
      requires its != []
      ensures Valid() && nextIndex == 0
      ensures iterators == seq(|its|, i requires 0 <= i < |its| => Some(its[i]))
      ensures remaining == |its|
    {
      iterators := seq(|its|, i requires 0 <= i < |its| => Some(its[i]));
      remaining := |its|;
      nextIndex := 0;
      new;
      AllLive(its);
    }

    static lemma {:induction false} AllLive(its: seq<SeedIterator>)
      ensures Live(seq(|its|, i requires 0 <= i < |its| => Some(its[i]))) == |its|
    {
      if its != [] {
        var all := seq(|its|, i requires 0 <= i < |its| => Some(its[i]));
        AllLive(its[..|its| - 1]);
        assert all[..|all| - 1] == seq(|its| - 1, i requires 0 <= i < |its| - 1 => Some(its[..|its| - 1][i]));
      }
    }

    /** The next seed of one permuter; an exhausted iterator is struck out. */
    method GetTaskOf(p: nat) returns (task: Option<Task>)
      requires Valid() && p < |iterators|
      modifies this
      ensures Valid() && nextIndex == old(nextIndex) && |iterators| == |old(iterators)|
      ensures forall q | 0 <= q < |iterators| && q != p :: iterators[q] == old(iterators)[q]
      ensures match old(iterators)[p]
              case None => task == None && iterators == old(iterators)
              case Some(it) =>
                if it.Exhausted() then task == None && iterators[p] == None && remaining == old(remaining) - 1
                else task == Some(Task(p, it.seeds(it.pos))) && iterators[p] == Some(it.(pos := it.pos + 1))
                     && remaining == old(remaining)
    {
      task := None;
      if iterators[p].Some? {
        var it := iterators[p].value;
        if it.Exhausted() {
          LiveUpdate(iterators, p, None);
          iterators := iterators[p := None];
          remaining := remaining - 1;
        } else {
          LiveUpdate(iterators, p, Some(it.(pos := it.pos + 1)));
          iterators := iterators[p := Some(it.(pos := it.pos + 1))];
          task := Some(Task(p, it.seeds(it.pos)));
        }
      }
    }

    /** The next seed in turn. Only exhausted iterators are passed over, and no
        seed is returned exactly when every iterator is exhausted. */
    method GetTask() returns (task: Option<Task>)
      requires Valid()
      modifies this
      ensures Valid() && |iterators| == |old(iterators)|
      ensures task.None? <==> forall q | 0 <= q < |iterators| :: Over(old(iterators)[q])
      ensures task.None? <==> remaining == 0
      ensures task.Some? ==>
                var p := task.value.permuter;
                && p < |iterators| && !Over(old(iterators)[p])
                && var it := old(iterators)[p].value;
                && task.value.seed == it.seeds(it.pos)
                && iterators[p] == Some(it.(pos := it.pos + 1))
                && nextIndex == (p + 1) % |iterators|
                && forall q | && 0 <= q < |iterators|
                              && Ahead(old(nextIndex), q, |iterators|) < Ahead(old(nextIndex), p, |iterators|) ::
                     Over(old(iterators)[q])
      ensures forall q | 0 <= q < |iterators| && (task.Some? ==> q != task.value.permuter) ::
                iterators[q] == old(iterators)[q] || (Over(old(iterators)[q]) && iterators[q] == None)
    {
      task := None;
      ghost var n := |iterators|;
      ghost var first, passed := nextIndex, 0;
      while remaining > 0
        invariant Valid() && |iterators| == n && passed <= n && task == None
        invariant passed < n ==> Ahead(first, nextIndex, n) == passed
        invariant forall q | 0 <= q < n ::
                    iterators[q] == old(iterators)[q] || (Over(old(iterators)[q]) && iterators[q] == None)
        invariant forall q | 0 <= q < n && Ahead(first, q, n) < passed ::
                    iterators[q] == None && Over(old(iterators)[q])
        decreases n - passed
      {
        NoneLive(iterators);
        var p := nextIndex;
        task := GetTaskOf(p);
        nextIndex := nextIndex + 1;
        nextIndex := nextIndex % |iterators|;
        if task.Some? {
          NoneLive(iterators);
          assert iterators[p].Some?;
          return;
        }
        assert iterators[p] == None;
        NextAhead(first, p, n);
        passed := passed + 1;
      }
      NoneLive(iterators);
      assert forall q | 0 <= q < n :: iterators[q] == None && Over(old(iterators)[q]);
    }
  }
}
