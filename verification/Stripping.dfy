/** Dropping sources in the workers is invisible to the parent.

    Any number of workers evaluate candidates; each starts from the parent's
    memory and then sees only its own results. Each worker's results reach the
    parent in order; different workers interleave arbitrarily. */
module Stripping {
  import opened Permuter
  import opened Prelude

  datatype Event =
    | Evaluate(worker: nat, raw: CandidateResult)
    | Deliver(worker: nat)

  /** The parent: what it remembers and what it has reported. */
  datatype Parent = Parent(memory: Memory, reported: seq<CandidateResult>)

  datatype System = System(parent: Parent, memories: seq<Memory>, channels: seq<seq<CandidateResult>>)

  function Receive(o: Options, p: Parent, r: CandidateResult): Parent {
    if ShouldOutput(o, p.memory, r) then Parent(Record(p.memory, r), p.reported + [r]) else p
  }

  function Start(o: Options, baseHash: string, workers: nat): System {
    var m := Memory(o.baseScore, {baseHash});
    System(Parent(m, []), seq(workers, _ => m), seq(workers, _ => []))
  }

  predicate Shaped(s: System) {
    |s.memories| == |s.channels|
  }

  /** One event, with the workers stripping or sending everything. */
  function Step(o: Options, strip: bool, s: System, e: Event): (r: System)
    requires Shaped(s)
    ensures Shaped(r)
  {
    if e.worker >= |s.channels| then s
    else
      var w := e.worker;
      match e
      case Evaluate(_, raw) =>
        var sent := if strip then Stripped(o, s.memories[w], raw) else raw;
        s.(memories := s.memories[w := Seen(o, s.memories[w], sent)],
           channels := s.channels[w := s.channels[w] + [sent]])
      case Deliver(_) =>
        if s.channels[w] == [] then s
        else System(Receive(o, s.parent, s.channels[w][0]), s.memories, s.channels[w := s.channels[w][1..]])
  }

  function Run(o: Options, strip: bool, s: System, es: seq<Event>): (r: System)
    requires Shaped(s)
    ensures Shaped(r)
  {
    if es == [] then s else Step(o, strip, Run(o, strip, s, es[..|es| - 1]), es[|es| - 1])
  }

  // ----- scores follow hashes -----

  predicate Honest(scoreOf: string -> int, r: CandidateResult) {
    r.hash.Some? ==> r.score == scoreOf(r.hash.value)
  }

  predicate HonestEvents(scoreOf: string -> int, es: seq<Event>) {
    forall i | 0 <= i < |es| && es[i].Evaluate? :: Honest(scoreOf, es[i].raw)
  }

  // ----- the invariant -----

  /** A worker memory no stricter than the parent's: what it would reject, the
      parent would reject too. */
  ghost predicate Liberal(o: Options, scoreOf: string -> int, worker: Memory, parent: Memory) {
    && parent.best <= worker.best
    && forall h | h in worker.hashes :: h in parent.hashes || (o.bestOnly && parent.best < scoreOf(h))
  }

  /** The parent's best is at most the score behind every hash it knows. */
  ghost predicate BestKnown(scoreOf: string -> int, m: Memory) {
    forall h | h in m.hashes :: m.best <= scoreOf(h)
  }

  /** The messages a worker in memory `m` sends for these candidates. */
  function Sent(o: Options, m: Memory, raws: seq<CandidateResult>): seq<CandidateResult>
    decreases |raws|
  {
    if raws == [] then [] else [Stripped(o, m, raws[0])] + Sent(o, Seen(o, m, raws[0]), raws[1..])
  }

  function Remembered(o: Options, m: Memory, raws: seq<CandidateResult>): Memory
    decreases |raws|
  {
    if raws == [] then m else Remembered(o, Seen(o, m, raws[0]), raws[1..])
  }

  /** The worker's memory as the parent will know it once it has received everything
      delivered so far, against the candidates still under way. */
  ghost predicate InFlight(o: Options, scoreOf: string -> int, parent: Memory, then_: Memory, now: Memory,
                           stripped: seq<CandidateResult>, plain: seq<CandidateResult>) {
    && Liberal(o, scoreOf, then_, parent)
    && stripped == Sent(o, then_, plain)
    && now == Remembered(o, then_, plain)
    && forall i | 0 <= i < |plain| :: Honest(scoreOf, plain[i])
  }

  ghost predicate Related(o: Options, scoreOf: string -> int, s: System, p: System, thens: seq<Memory>) {
    && Shaped(s) && Shaped(p) && |s.channels| == |p.channels| == |thens|
    && s.parent == p.parent
    && BestKnown(scoreOf, p.parent.memory)
    && forall w | 0 <= w < |thens| ::
         InFlight(o, scoreOf, p.parent.memory, thens[w], s.memories[w], s.channels[w], p.channels[w])
  }

  lemma StrippedLooksTheSame(o: Options, m: Memory, r: CandidateResult)
    ensures Seen(o, m, Stripped(o, m, r)) == Seen(o, m, r)
  {
  }

  lemma {:induction false} SentSnoc(o: Options, m: Memory, raws: seq<CandidateResult>, raw: CandidateResult)
    ensures Sent(o, m, raws + [raw]) == Sent(o, m, raws) + [Stripped(o, Remembered(o, m, raws), raw)]
    ensures Remembered(o, m, raws + [raw]) == Seen(o, Remembered(o, m, raws), raw)
    decreases |raws|
  {
    if raws == [] {
      assert raws + [raw] == [raw];
    } else {
      assert (raws + [raw])[1..] == raws[1..] + [raw];
      SentSnoc(o, Seen(o, m, raws[0]), raws[1..], raw);
    }
  }

  /** A result the worker strips is one the parent would not report. */
  lemma WorkerIsNoStricter(o: Options, scoreOf: string -> int, worker: Memory, parent: Memory, r: CandidateResult)
    requires Liberal(o, scoreOf, worker, parent) && Honest(scoreOf, r)
    ensures ShouldOutput(o, parent, r) ==> ShouldOutput(o, worker, r)
  {
  }

  lemma ParentOnlyTightens(o: Options, scoreOf: string -> int, worker: Memory, parent: Memory, r: CandidateResult)
    requires Liberal(o, scoreOf, worker, parent) && BestKnown(scoreOf, parent) && Honest(scoreOf, r)
    ensures Liberal(o, scoreOf, worker, Seen(o, parent, r))
    ensures BestKnown(scoreOf, Seen(o, parent, r))
  {
  }

  lemma DeliveryKeepsLiberal(o: Options, scoreOf: string -> int, worker: Memory, parent: Memory, r: CandidateResult)
    requires Liberal(o, scoreOf, worker, parent) && BestKnown(scoreOf, parent) && Honest(scoreOf, r)
    ensures Liberal(o, scoreOf, Seen(o, worker, r), Seen(o, parent, r))
  {
    WorkerIsNoStricter(o, scoreOf, worker, parent, r);
    ParentOnlyTightens(o, scoreOf, worker, parent, r);
  }

  lemma StepKeepsRelated(o: Options, scoreOf: string -> int, s: System, p: System, thens: seq<Memory>, e: Event)
      returns (thens': seq<Memory>)
    requires Related(o, scoreOf, s, p, thens)
    requires e.Evaluate? ==> Honest(scoreOf, e.raw)
    ensures Related(o, scoreOf, Step(o, true, s, e), Step(o, false, p, e), thens')
  {
    thens' := thens;
    var w := e.worker;
    if w < |thens| {
      var m, stripped, plain := thens[w], s.channels[w], p.channels[w];
      var parent := p.parent.memory;
      assert InFlight(o, scoreOf, parent, m, s.memories[w], stripped, plain);
      match e
      case Evaluate(_, raw) =>
        SentSnoc(o, m, plain, raw);
        StrippedLooksTheSame(o, s.memories[w], raw);
      case Deliver(_) =>
        if plain != [] {
          var r := plain[0];
          WorkerIsNoStricter(o, scoreOf, m, parent, r);
          assert Receive(o, s.parent, stripped[0]) == Receive(o, p.parent, r);
          thens' := thens[w := Seen(o, m, r)];
          DeliveryKeepsLiberal(o, scoreOf, m, parent, r);
          assert stripped[1..] == Sent(o, thens'[w], plain[1..]);
          forall v | 0 <= v < |thens| ensures Liberal(o, scoreOf, thens'[v], Seen(o, parent, r)) {
            if v != w {
              assert InFlight(o, scoreOf, parent, thens[v], s.memories[v], s.channels[v], p.channels[v]);
              ParentOnlyTightens(o, scoreOf, thens[v], parent, r);
            }
          }
          ParentOnlyTightens(o, scoreOf, m, parent, r);
        }
    }
  }

  lemma {:induction false} RunKeepsRelated(o: Options, scoreOf: string -> int, baseHash: string, workers: nat,
                                           es: seq<Event>)
      returns (thens: seq<Memory>)
    requires scoreOf(baseHash) == o.baseScore && HonestEvents(scoreOf, es)
    ensures var s := Start(o, baseHash, workers);
            Related(o, scoreOf, Run(o, true, s, es), Run(o, false, s, es), thens)
    decreases |es|
  {
    if es == [] {
      thens := Start(o, baseHash, workers).memories;
    } else {
      var init := es[..|es| - 1];
      assert forall i | 0 <= i < |init| :: init[i] == es[i];
      thens := RunKeepsRelated(o, scoreOf, baseHash, workers, init);
      var s := Start(o, baseHash, workers);
      thens := StepKeepsRelated(o, scoreOf, Run(o, true, s, init), Run(o, false, s, init), thens, es[|es| - 1]);
    }
  }

  /** Over every run of every number of workers, a parent fed stripped results
      reports the same results in the same order, and ends up remembering the
      same best score and hashes, as a parent fed everything. */
  lemma StrippingIsInvisible(o: Options, scoreOf: string -> int, baseHash: string, workers: nat, es: seq<Event>)
    requires scoreOf(baseHash) == o.baseScore && HonestEvents(scoreOf, es)
    ensures var s := Start(o, baseHash, workers);
            Run(o, true, s, es).parent == Run(o, false, s, es).parent
  {
    var _ := RunKeepsRelated(o, scoreOf, baseHash, workers, es);
  }

  /** Were one hash to come with two scores, stripping could lose a new best:
      worker 0 remembers a hash the parent never recorded. */
  lemma TwoScoresForOneHashWouldShow()
    ensures exists o: Options, es: seq<Event> ::
              var s := Start(o, "base", 2);
              Run(o, true, s, es).parent.memory.best != Run(o, false, s, es).parent.memory.best
  {
    var o := Options(10, true, false, None, false);
    var low := CandidateResult(5, Some("x"), Some("s"));
    var first := CandidateResult(8, Some("h"), Some("s"));
    var again := CandidateResult(3, Some("h"), Some("s"));
    var e0, e1, e2 := Evaluate(1, low), Deliver(1), Evaluate(0, first);
    var e3, e4, e5 := Deliver(0), Evaluate(0, again), Deliver(0);
    var es := [e0, e1, e2, e3, e4, e5];
    var s := Start(o, "base", 2);
    RunThrough(o, true, s, es, SixStates(o, true, s, es));
    RunThrough(o, false, s, es, SixStates(o, false, s, es));
    assert Run(o, true, s, es).parent.memory.best == 5;
    assert Run(o, false, s, es).parent.memory.best == 3;
  }

  /** A run, when every state on the way is known. */
  lemma {:induction false} RunThrough(o: Options, strip: bool, s: System, es: seq<Event>, states: seq<System>)
    requires |states| == |es| + 1 && states[0] == s
    requires forall i | 0 <= i < |states| :: Shaped(states[i])
    requires forall i | 0 <= i < |es| :: states[i + 1] == Step(o, strip, states[i], es[i])
    ensures Run(o, strip, s, es) == states[|es|]
    decreases |es|
  {
    if |es| > 0 {
      var last := |es| - 1;
      assert states[last + 1] == Step(o, strip, states[last], es[last]);
      RunThrough(o, strip, s, es[..last], states[..|es|]);
    }
  }

  function SixStates(o: Options, strip: bool, s: System, es: seq<Event>): (states: seq<System>)
    requires Shaped(s) && |es| == 6
    ensures |states| == 7 && states[0] == s
    ensures forall i | 0 <= i < 7 :: Shaped(states[i])
    ensures forall i | 0 <= i < 6 :: states[i + 1] == Step(o, strip, states[i], es[i])
  {
    var s1 := Step(o, strip, s, es[0]);
    var s2 := Step(o, strip, s1, es[1]);
    var s3 := Step(o, strip, s2, es[2]);
    var s4 := Step(o, strip, s3, es[3]);
    var s5 := Step(o, strip, s4, es[4]);
    [s, s1, s2, s3, s4, s5, Step(o, strip, s5, es[5])]
  }
}
