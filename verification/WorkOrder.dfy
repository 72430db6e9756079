/** In what order seeds are taken and results are reported, over whole runs of the worker
    protocol. */
module WorkOrder {
  import opened Prelude
  import opened WorkQueue

  /** The tasks in the queue in the order of their dispatch, all of them after `x`. */
  predicate Rising(queue: seq<Item>, x: int, next: nat) {
    && x < next
    && forall i | 0 <= i < |queue| && queue[i].Work? ::
         x < queue[i].id < next && forall j | i < j < |queue| && queue[j].Work? :: queue[i].id < queue[j].id
  }

  /** A worker reports a result and then at once asks for more. */
  predicate AsksAfterResults(sent: seq<Feedback>) {
    forall i | 0 <= i < |sent| && sent[i].WorkDone? :: i + 1 < |sent| && sent[i + 1] == NeedMoreWork
  }

  lemma StepKeepsRising(s: State, e: Step, x: int)
    requires Enabled(s, e) && Rising(s.queue, x, s.dispatched)
    ensures Rising(Next(s, e).queue, x, Next(s, e).dispatched)
    ensures e.Take? && s.queue[0].Work? ==> Rising(Next(s, e).queue, s.queue[0].id, Next(s, e).dispatched)
  {
  }

  lemma StepKeepsResults(s: State, e: Step)
    requires Enabled(s, e) && forall w | 0 <= w < |s.workers| :: AsksAfterResults(s.workers[w].sent)
    ensures forall w | 0 <= w < |s.workers| :: AsksAfterResults(Next(s, e).workers[w].sent)
  {
    var before, after := s.workers[e.w].sent, Next(s, e).workers[e.w].sent;
    assert AsksAfterResults(before);
    if e.Read? {
      assert after == before[1..];
      forall i | 0 <= i < |after| && after[i].WorkDone? ensures i + 1 < |after| && after[i + 1] == NeedMoreWork {
        assert after[i] == before[i + 1];
      }
    }
    assert AsksAfterResults(after);
  }

  lemma {:induction false} RunIsRising(n: nat, states: seq<State>, steps: seq<Step>, i: nat)
    requires Run(n, states, steps) && i < |states|
    ensures Rising(states[i].queue, -1, states[i].dispatched)
  {
    if i > 0 {
      RunIsRising(n, states, steps, i - 1);
      StepKeepsRising(states[i - 1], steps[i - 1], -1);
    }
  }

  /** Once a seed was taken, only later ones are queued. */
  lemma {:induction false} LaterOnly(n: nat, states: seq<State>, steps: seq<Step>, i: nat, j: nat)
    requires Run(n, states, steps) && i < j < |states|
    requires steps[i].Take? && states[i].queue[0].Work?
    ensures Rising(states[j].queue, states[i].queue[0].id, states[j].dispatched)
    decreases j
  {
    if j == i + 1 {
      RunIsRising(n, states, steps, i);
      StepKeepsRising(states[i], steps[i], -1);
    } else {
      LaterOnly(n, states, steps, i, j - 1);
      StepKeepsRising(states[j - 1], steps[j - 1], states[i].queue[0].id);
    }
  }

  /** Seeds are taken in the order in which they were dispatched, whichever workers take them. */
  lemma TakenInOrder(n: nat, states: seq<State>, steps: seq<Step>, i: nat, j: nat)
    requires Run(n, states, steps) && i < j < |steps|
    requires steps[i].Take? && states[i].queue[0].Work? && steps[j].Take? && states[j].queue[0].Work?
    ensures states[i].queue[0].id < states[j].queue[0].id < states[j].dispatched
  {
    LaterOnly(n, states, steps, i, j);
  }

  lemma {:induction false} RunAsks(n: nat, states: seq<State>, steps: seq<Step>, i: nat)
    requires Run(n, states, steps) && i < |states|
    ensures forall w | 0 <= w < |states[i].workers| :: AsksAfterResults(states[i].workers[w].sent)
  {
    if i > 0 {
      RunAsks(n, states, steps, i - 1);
      StepKeepsResults(states[i - 1], steps[i - 1]);
    }
  }

  /** When the parent reads a result, a request of the same worker is next in its channel. */
  lemma ResultThenRequest(n: nat, states: seq<State>, steps: seq<Step>, i: nat)
    requires Run(n, states, steps) && i < |steps| && steps[i].Read?
    requires states[i].workers[steps[i].w].sent[0].WorkDone?
    ensures var later := states[i + 1].workers[steps[i].w].sent;
            |later| > 0 && later[0] == NeedMoreWork
  {
    RunAsks(n, states, steps, i);
    var k := states[i].workers[steps[i].w];
    assert AsksAfterResults(k.sent);
  }
}
