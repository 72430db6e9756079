/** The local worker protocol as a transition system: one parent, any number of
    workers, one task queue, and a feedback channel from each worker.

    A poll may come back empty at any time, as a real queue's non-blocking read
    may, so a worker is never assumed to see what has just been put. */
module WorkQueue {
  import opened Prelude

  /** A dispatched seed, identified by the order of dispatch. */
  type TaskId = nat

  datatype Item = Work(id: TaskId) | Finish

  datatype Mode = Polling | Blocked | Busy(id: TaskId) | Stopped

  datatype Feedback = NeedMoreWork | WorkDone(id: TaskId) | Finished

  /** A worker and the feedback it has sent that the parent has not read. */
  datatype Worker = Worker(mode: Mode, sent: seq<Feedback>)

  datatype Phase = Feeding | Draining

  /** `polls` counts the empty polls so far and `received` the WorkDones read. */
  datatype State = State(phase: Phase, active: nat, queue: seq<Item>, workers: seq<Worker>,
                         dispatched: nat, polls: nat, received: seq<TaskId>)

  function Start(n: nat): State {
    State(Feeding, n, [], seq(n, _ => Worker(Polling, [])), 0, 0, [])
  }

  // ----- steps -----

  datatype Step =
    | EmptyPoll(w: nat)              // nothing there: ask for more, then block
    | Take(w: nat)                   // read the head of the task queue
    | Complete(w: nat)               // evaluate, send the result, ask for more
    | Read(w: nat, reply: Reply)     // the parent reads a worker's next feedback

  /** What the parent does on reading: `Supply` puts a seed for a NeedMoreWork,
      `Dry` finds that no seeds are left, `Stop` breaks off on a zero score. */
  datatype Reply = Supply | Dry | Stop | Note

  function Put(s: State, w: nat, k: Worker): State
    requires w < |s.workers|
  {
    s.(workers := s.workers[w := k])
  }

  /** Leaving the first loop: one Finish per active worker. */
  function BeginDraining(s: State): State {
    s.(phase := Draining, queue := s.queue + seq(s.active, _ => Finish))
  }

  predicate Enabled(s: State, e: Step) {
    && e.w < |s.workers|
    && var k := s.workers[e.w];
       match e
       case EmptyPoll(_) => k.mode == Polling
       case Take(_) => (k.mode == Polling || k.mode == Blocked) && s.queue != []
       case Complete(_) => k.mode.Busy?
       case Read(_, reply) =>
         && k.sent != [] && (s.phase == Draining ==> s.active > 0)
         && match k.sent[0]
            case NeedMoreWork => if s.phase == Feeding then reply == Supply || reply == Dry else reply == Note
            case WorkDone(_) => reply == Note || (s.phase == Feeding && reply == Stop)
            case Finished => reply == Note
  }

  function Next(s: State, e: Step): State
    requires Enabled(s, e)
  {
    var w, k := e.w, s.workers[e.w];
    match e
    case EmptyPoll(_) =>
      Put(s, w, Worker(Blocked, k.sent + [NeedMoreWork])).(polls := s.polls + 1)
    case Take(_) =>
      var rest := s.(queue := s.queue[1..]);
      (match s.queue[0]
       case Work(id) => Put(rest, w, Worker(Busy(id), k.sent))
       case Finish => Put(rest, w, Worker(Stopped, k.sent + [Finished])))
    case Complete(_) =>
      Put(s, w, Worker(Polling, k.sent + [WorkDone(k.mode.id), NeedMoreWork]))
    case Read(_, reply) =>
      var t := Put(s, w, k.(sent := k.sent[1..]));
      match k.sent[0]
      case NeedMoreWork =>
        if reply == Supply then t.(queue := t.queue + [Work(t.dispatched)], dispatched := t.dispatched + 1)
        else if reply == Dry then BeginDraining(t)
        else t
      case WorkDone(id) =>
        var u := t.(received := t.received + [id]);
        if reply == Stop then BeginDraining(u) else u
      case Finished => t.(active := if t.active > 0 then t.active - 1 else 0)
  }

  /** Every state of every run. */
  ghost predicate Run(n: nat, states: seq<State>, steps: seq<Step>) {
    && |states| == |steps| + 1 && states[0] == Start(n)
    && forall i | 0 <= i < |steps| :: Enabled(states[i], steps[i]) && states[i + 1] == Next(states[i], steps[i])
  }

  // ----- tallies -----

  /** What is being counted; `Effort` bounds the steps still to come. */
  datatype Quantity = Asks | InProgress | Stops | Farewells | CopiesOf(id: TaskId) | Effort

  function OfFeedback(q: Quantity, f: Feedback): nat {
    match q
    case Asks => if f.NeedMoreWork? then 1 else 0
    case Farewells => if f.Finished? then 1 else 0
    case CopiesOf(x) => if f == WorkDone(x) then 1 else 0
    case Effort => 1
    case _ => 0
  }

  function OfMode(q: Quantity, m: Mode): nat {
    match q
    case InProgress => if m.Busy? then 1 else 0
    case Stops => if m.Stopped? then 1 else 0
    case CopiesOf(x) => if m == Busy(x) then 1 else 0
    case Effort => if m.Busy? then 5 else if m.Polling? then 2 else 0
    case _ => 0
  }

  function OfSent(q: Quantity, fs: seq<Feedback>): nat {
    if fs == [] then 0 else OfFeedback(q, fs[0]) + OfSent(q, fs[1..])
  }

  function OfWorker(q: Quantity, k: Worker): nat {
    OfMode(q, k.mode) + OfSent(q, k.sent)
  }

  function Total(q: Quantity, ks: seq<Worker>): nat {
    if ks == [] then 0 else Total(q, ks[..|ks| - 1]) + OfWorker(q, ks[|ks| - 1])
  }

  lemma {:induction false} SentSnoc(q: Quantity, fs: seq<Feedback>, f: Feedback)
    ensures OfSent(q, fs + [f]) == OfSent(q, fs) + OfFeedback(q, f)
  {
    if fs == [] {
      assert fs + [f] == [f];
    } else {
      SentSnoc(q, fs[1..], f);
      assert (fs + [f])[1..] == fs[1..] + [f];
    }
  }

  /** Replacing one worker changes the total by what the worker changed. */
  lemma {:induction false} TotalUpdate(q: Quantity, ks: seq<Worker>, w: nat, k: Worker)
    requires w < |ks|
    ensures Total(q, ks[w := k]) + OfWorker(q, ks[w]) == Total(q, ks) + OfWorker(q, k)
    decreases |ks|
  {
    var n := |ks| - 1;
    if w == n {
      assert ks[w := k][..n] == ks[..n];
    } else {
      assert ks[w := k][..n] == ks[..n][w := k];
      TotalUpdate(q, ks[..n], w, k);
    }
  }

  function WorkIn(queue: seq<Item>, x: TaskId): nat {
    if queue == [] then 0
    else WorkIn(queue[..|queue| - 1], x) + (if queue[|queue| - 1] == Work(x) then 1 else 0)
  }

  function FinishIn(queue: seq<Item>): nat {
    if queue == [] then 0
    else FinishIn(queue[..|queue| - 1]) + (if queue[|queue| - 1].Finish? then 1 else 0)
  }

  lemma {:induction false} QueueTake(queue: seq<Item>, x: TaskId)
    requires queue != []
    ensures WorkIn(queue, x) == WorkIn(queue[1..], x) + (if queue[0] == Work(x) then 1 else 0)
    ensures FinishIn(queue) == FinishIn(queue[1..]) + (if queue[0].Finish? then 1 else 0)
  {
    var n := |queue| - 1;
    if n > 0 {
      QueueTake(queue[..n], x);
      assert queue[..n][1..] == queue[1..][..n - 1];
    }
  }

  lemma {:induction false} QueueClose(queue: seq<Item>, n: nat, x: TaskId)
    ensures var q := queue + seq(n, _ => Finish);
            WorkIn(q, x) == WorkIn(queue, x) && FinishIn(q) == FinishIn(queue) + n
  {
    var q := queue + seq(n, _ => Finish);
    if n == 0 {
      assert q == queue;
    } else {
      QueueClose(queue, n - 1, x);
      assert q[..|q| - 1] == queue + seq(n - 1, _ => Finish);
    }
  }

  function Copies(ids: seq<TaskId>, x: TaskId): nat {
    if ids == [] then 0 else Copies(ids[..|ids| - 1], x) + (if ids[|ids| - 1] == x then 1 else 0)
  }

  // ----- the invariant -----

  /** Work comes before every Finish in the queue. */
  predicate WorkFirst(queue: seq<Item>) {
    forall i, j | 0 <= i < j < |queue| && queue[i].Finish? :: queue[j].Finish?
  }

  /** A worker says Finished once, last, exactly when it stops. */
  predicate Farewell(k: Worker) {
    && (forall i | 0 <= i < |k.sent| && k.sent[i].Finished? :: k.mode == Stopped && i == |k.sent| - 1)
    && (k.mode == Stopped && k.sent != [] ==> k.sent[|k.sent| - 1].Finished?)
  }

  /** Every dispatched seed is queued, in progress, reported or received: once. */
  predicate OnePlace(s: State, x: TaskId) {
    WorkIn(s.queue, x) + Total(CopiesOf(x), s.workers) + Copies(s.received, x) == if x < s.dispatched then 1 else 0
  }

  predicate Accounts(s: State) {
    match s.phase
    case Feeding =>
      && s.active == |s.workers| && FinishIn(s.queue) == 0
      && Total(Stops, s.workers) == 0 && Total(Farewells, s.workers) == 0
      && |s.queue| + Total(InProgress, s.workers) + Total(Asks, s.workers) == s.polls
    case Draining =>
      && FinishIn(s.queue) + Total(Stops, s.workers) == |s.workers|
      && s.active + Total(Stops, s.workers) == |s.workers| + Total(Farewells, s.workers)
  }

  ghost predicate Inv(s: State) {
    && WorkFirst(s.queue)
    && (forall w | 0 <= w < |s.workers| :: Farewell(s.workers[w]))
    && Accounts(s)
    && (Total(Stops, s.workers) > 0 ==> forall i | 0 <= i < |s.queue| :: s.queue[i].Finish?)
    && forall x: TaskId :: OnePlace(s, x)
  }

  lemma {:induction false} StartTotal(q: Quantity, n: nat)
    requires q != Effort
    ensures Total(q, Start(n).workers) == 0
  {
    if n > 0 {
      StartTotal(q, n - 1);
      assert Start(n).workers[..n - 1] == Start(n - 1).workers;
      assert OfWorker(q, Worker(Polling, [])) == 0;
    }
  }

  lemma StartInv(n: nat)
    ensures Inv(Start(n))
  {
    forall x: TaskId ensures OnePlace(Start(n), x) {
      StartTotal(CopiesOf(x), n);
    }
    StartTotal(Stops, n);
    StartTotal(Farewells, n);
    StartTotal(InProgress, n);
    StartTotal(Asks, n);
  }

  // ----- every step keeps it -----

  lemma {:induction false} NoFinish(queue: seq<Item>)
    ensures FinishIn(queue) == 0 <==> forall i | 0 <= i < |queue| :: queue[i].Work?
  {
    if queue != [] {
      NoFinish(queue[..|queue| - 1]);
    }
  }

  /** The worker after the step, and how much each of its quantities changed. */
  function Moved(s: State, e: Step): Worker
    requires Enabled(s, e)
  {
    Next(s, e).workers[e.w]
  }

  function Delta(q: Quantity, s: State, e: Step): int
    requires Enabled(s, e)
  {
    var k := s.workers[e.w];
    match e
    case EmptyPoll(_) => OfMode(q, Blocked) + OfFeedback(q, NeedMoreWork) - OfMode(q, Polling)
    case Take(_) =>
      (match s.queue[0]
       case Work(id) => OfMode(q, Busy(id))
       case Finish => OfMode(q, Stopped) + OfFeedback(q, Finished)) - OfMode(q, k.mode)
    case Complete(_) =>
      OfMode(q, Polling) + OfFeedback(q, WorkDone(k.mode.id)) + OfFeedback(q, NeedMoreWork) - OfMode(q, k.mode)
    case Read(_, _) => 0 - OfFeedback(q, k.sent[0])
  }

  lemma StepTotal(q: Quantity, s: State, e: Step)
    requires Enabled(s, e)
    ensures Total(q, Next(s, e).workers) == Total(q, s.workers) + Delta(q, s, e)
  {
    var k := s.workers[e.w];
    assert Next(s, e).workers == s.workers[e.w := Moved(s, e)];
    TotalUpdate(q, s.workers, e.w, Moved(s, e));
    match e
    case EmptyPoll(_) => SentSnoc(q, k.sent, NeedMoreWork);
    case Take(_) => SentSnoc(q, k.sent, Finished);
    case Complete(_) =>
      var done := k.sent + [WorkDone(k.mode.id)];
      assert k.sent + [WorkDone(k.mode.id), NeedMoreWork] == done + [NeedMoreWork];
      SentSnoc(q, k.sent, WorkDone(k.mode.id));
      SentSnoc(q, done, NeedMoreWork);
    case Read(_, _) =>
  }

  /** What the step did to the queue and to the received results. */
  lemma StepQueue(s: State, e: Step, x: TaskId)
    requires Enabled(s, e)
    ensures var t := Next(s, e);
            && WorkIn(t.queue, x) == WorkIn(s.queue, x)
                 - (if e.Take? && s.queue[0] == Work(x) then 1 else 0)
                 + (if e.Read? && e.reply == Supply && s.workers[e.w].sent[0].NeedMoreWork? && x == s.dispatched then 1
                    else 0)
            && FinishIn(t.queue) == FinishIn(s.queue)
                 - (if e.Take? && s.queue[0].Finish? then 1 else 0)
                 + (if t.phase != s.phase then s.active else 0)
            && Copies(t.received, x) == Copies(s.received, x)
                 + (if e.Read? && s.workers[e.w].sent[0] == WorkDone(x) then 1 else 0)
  {
    match e
    case Take(_) => QueueTake(s.queue, x);
    case Read(w, reply) =>
      QueueClose(s.queue, s.active, x);
      assert (s.queue + [Work(s.dispatched)])[..|s.queue|] == s.queue;
      match s.workers[w].sent[0] {
        case WorkDone(id) => assert (s.received + [id])[..|s.received|] == s.received;
        case _ =>
      }
    case _ =>
  }

  /** In the first phase no worker has been told to stop, so none says Finished. */
  lemma NoFarewellYet(s: State, w: nat)
    requires Inv(s) && s.phase == Feeding && w < |s.workers| && s.workers[w].sent != []
    ensures !s.workers[w].sent[0].Finished?
  {
    WorkerWithin(Farewells, s.workers, w);
  }

  lemma {:induction false} WorkerWithin(q: Quantity, ks: seq<Worker>, w: nat)
    requires w < |ks|
    ensures OfWorker(q, ks[w]) <= Total(q, ks)
    decreases |ks|
  {
    if w < |ks| - 1 {
      WorkerWithin(q, ks[..|ks| - 1], w);
    }
  }

  /** A step moves a task from one place to another, or takes in the next one. */
  lemma DeltasCancel(s: State, e: Step, x: TaskId)
    requires Enabled(s, e)
    ensures Delta(CopiesOf(x), s, e)
            - (if e.Take? && s.queue[0] == Work(x) then 1 else 0)
            + (if e.Read? && e.reply == Supply && s.workers[e.w].sent[0].NeedMoreWork? && x == s.dispatched then 1
               else 0)
            + (if e.Read? && s.workers[e.w].sent[0] == WorkDone(x) then 1 else 0)
         == (if x < Next(s, e).dispatched then 1 else 0) - (if x < s.dispatched then 1 else 0)
  {
  }

  lemma StepKeepsOnePlace(s: State, e: Step, x: TaskId)
    requires OnePlace(s, x) && Enabled(s, e)
    ensures OnePlace(Next(s, e), x)
  {
    StepTotal(CopiesOf(x), s, e);
    StepQueue(s, e, x);
    DeltasCancel(s, e, x);
  }

  lemma AccountsWhileFeeding(s: State, e: Step)
    requires Accounts(s) && Enabled(s, e) && s.phase == Feeding && Next(s, e).phase == Feeding
    requires e.Take? ==> s.queue[0].Work?
    requires e.Read? ==> !s.workers[e.w].sent[0].Finished?
    ensures Accounts(Next(s, e))
  {
    StepTotal(Stops, s, e);
    StepTotal(Farewells, s, e);
    StepTotal(InProgress, s, e);
    StepTotal(Asks, s, e);
    StepQueue(s, e, 0);
  }

  lemma AccountsAtTheTurn(s: State, e: Step)
    requires Accounts(s) && Enabled(s, e) && s.phase == Feeding && Next(s, e).phase == Draining
    ensures Accounts(Next(s, e))
  {
    StepTotal(Stops, s, e);
    StepTotal(Farewells, s, e);
    StepQueue(s, e, 0);
  }

  lemma AccountsWhileDraining(s: State, e: Step)
    requires Accounts(s) && Enabled(s, e) && s.phase == Draining
    ensures Accounts(Next(s, e))
  {
    StepTotal(Stops, s, e);
    StepTotal(Farewells, s, e);
    StepQueue(s, e, 0);
  }

  lemma StepKeepsAccounts(s: State, e: Step)
    requires Inv(s) && Enabled(s, e)
    ensures Accounts(Next(s, e))
  {
    if s.phase == Draining {
      AccountsWhileDraining(s, e);
    } else if Next(s, e).phase == Draining {
      AccountsAtTheTurn(s, e);
    } else {
      NoFinish(s.queue);
      if e.Read? {
        NoFarewellYet(s, e.w);
      }
      AccountsWhileFeeding(s, e);
    }
  }

  lemma StepKeepsOrder(s: State, e: Step)
    requires Inv(s) && Enabled(s, e)
    ensures WorkFirst(Next(s, e).queue)
    ensures (Total(Stops, Next(s, e).workers) > 0 ==>
               forall i | 0 <= i < |Next(s, e).queue| :: Next(s, e).queue[i].Finish?)
  {
    if s.phase == Feeding {
      NoFinish(s.queue);
    }
    StepTotal(Stops, s, e);
  }

  lemma StepKeepsFarewell(s: State, e: Step)
    requires Inv(s) && Enabled(s, e)
    ensures forall w | 0 <= w < |s.workers| :: Farewell(Next(s, e).workers[w])
  {
    assert Farewell(s.workers[e.w]);
    assert Farewell(Moved(s, e));
  }

  lemma StepKeepsInv(s: State, e: Step)
    requires Inv(s) && Enabled(s, e)
    ensures Inv(Next(s, e))
  {
    StepKeepsAccounts(s, e);
    StepKeepsOrder(s, e);
    StepKeepsFarewell(s, e);
    forall x: TaskId ensures OnePlace(Next(s, e), x) {
      StepKeepsOnePlace(s, e, x);
    }
  }

  lemma {:induction false} RunInv(n: nat, states: seq<State>, steps: seq<Step>, i: nat)
    requires Run(n, states, steps) && i < |states|
    ensures Inv(states[i]) && |states[i].workers| == n
  {
    if i == 0 {
      StartInv(n);
    } else {
      RunInv(n, states, steps, i - 1);
      StepKeepsInv(states[i - 1], steps[i - 1]);
    }
  }

  // ----- what follows for every run -----

  /** While seeds remain, tasks queued, tasks in progress and unread requests
      together number the empty polls so far. */
  lemma DemandIsConserved(n: nat, states: seq<State>, steps: seq<Step>, i: nat)
    requires Run(n, states, steps) && i < |states| && states[i].phase == Feeding
    ensures |states[i].queue| + Total(InProgress, states[i].workers) + Total(Asks, states[i].workers) == states[i].polls
  {
    RunInv(n, states, steps, i);
  }

  lemma {:induction false} SomeWorkerHas(q: Quantity, ks: seq<Worker>) returns (w: nat)
    requires Total(q, ks) > 0
    ensures w < |ks| && OfWorker(q, ks[w]) > 0
  {
    var n := |ks| - 1;
    if OfWorker(q, ks[n]) > 0 {
      w := n;
    } else {
      w := SomeWorkerHas(q, ks[..n]);
    }
  }

  /** A blocked worker has asked for work, which is then queued, running or unread. */
  predicate BlockedAsked(s: State) {
    (exists w :: 0 <= w < |s.workers| && s.workers[w].mode == Blocked) ==> s.polls > 0
  }

  lemma {:induction false} RunBlockedAsked(n: nat, states: seq<State>, steps: seq<Step>, i: nat)
    requires Run(n, states, steps) && i < |states|
    ensures BlockedAsked(states[i])
  {
    if i > 0 {
      RunBlockedAsked(n, states, steps, i - 1);
      var s, e := states[i - 1], steps[i - 1];
      if exists w :: 0 <= w < |states[i].workers| && states[i].workers[w].mode == Blocked {
        var w :| 0 <= w < |states[i].workers| && states[i].workers[w].mode == Blocked;
        assert s.workers[w].mode == Blocked || e == EmptyPoll(w);
      }
    }
  }

  /** No deadlock: as long as the parent waits for feedback, someone can move. */
  lemma NeverStuck(n: nat, states: seq<State>, steps: seq<Step>, i: nat)
    requires Run(n, states, steps) && i < |states| && n > 0
    requires states[i].phase == Draining ==> states[i].active > 0
    ensures exists e :: Enabled(states[i], e)
  {
    var s := states[i];
    RunInv(n, states, steps, i);
    RunBlockedAsked(n, states, steps, i);
    if w :| 0 <= w < n && s.workers[w].mode == Polling {
      assert Enabled(s, EmptyPoll(w));
    } else if w :| 0 <= w < n && s.workers[w].mode.Busy? {
      assert Enabled(s, Complete(w));
    } else if w :| 0 <= w < n && s.workers[w].sent != [] {
      CanRead(s, w);
    } else {
      AllStillOrBlocked(s);
    }
  }

  lemma CanRead(s: State, w: nat)
    requires Inv(s) && w < |s.workers| && s.workers[w].sent != []
    requires s.phase == Draining ==> s.active > 0
    ensures exists e :: Enabled(s, e)
  {
    if s.phase == Feeding {
      NoFarewellYet(s, w);
      assert Enabled(s, Read(w, if s.workers[w].sent[0].NeedMoreWork? then Supply else Note));
    } else {
      assert Enabled(s, Read(w, Note));
    }
  }

  /** With nothing in progress and nothing unread, some task or Finish is queued
      and some worker waits for it. */
  lemma AllStillOrBlocked(s: State)
    requires Inv(s) && BlockedAsked(s) && s.workers != []
    requires s.phase == Draining ==> s.active > 0
    requires forall w | 0 <= w < |s.workers| ::
               s.workers[w].sent == [] && (s.workers[w].mode == Blocked || s.workers[w].mode == Stopped)
    ensures exists e :: Enabled(s, e)
  {
    NothingIn(InProgress, s.workers);
    NothingIn(Asks, s.workers);
    NothingIn(Farewells, s.workers);
    if w :| 0 <= w < |s.workers| && s.workers[w].mode == Blocked {
      if s.phase == Draining {
        StopsBelow(s.workers, w);
        assert FinishIn(s.queue) > 0;
      }
      assert s.queue != [];
      assert Enabled(s, Take(w));
    } else {
      AllStopped(s.workers);
      assert false;
    }
  }

  lemma {:induction false} NothingIn(q: Quantity, ks: seq<Worker>)
    requires forall w | 0 <= w < |ks| :: OfWorker(q, ks[w]) == 0
    ensures Total(q, ks) == 0
  {
    if ks != [] {
      NothingIn(q, ks[..|ks| - 1]);
    }
  }

  lemma {:induction false} StopsAtMost(ks: seq<Worker>)
    requires forall w | 0 <= w < |ks| :: OfWorker(Stops, ks[w]) <= 1
    ensures Total(Stops, ks) <= |ks|
  {
    if ks != [] {
      StopsAtMost(ks[..|ks| - 1]);
    }
  }

  lemma {:induction false} SentHasNoStops(fs: seq<Feedback>)
    ensures OfSent(Stops, fs) == 0
  {
    if fs != [] {
      SentHasNoStops(fs[1..]);
    }
  }

  lemma {:induction false} StopsBelow(ks: seq<Worker>, w: nat)
    requires w < |ks| && ks[w].mode != Stopped
    ensures Total(Stops, ks) < |ks|
    decreases |ks|
  {
    var n := |ks| - 1;
    SentHasNoStops(ks[n].sent);
    if w < n {
      StopsBelow(ks[..n], w);
    } else {
      forall v | 0 <= v < n ensures OfWorker(Stops, ks[..n][v]) <= 1 {
        SentHasNoStops(ks[v].sent);
      }
      StopsAtMost(ks[..n]);
    }
  }

  lemma {:induction false} AllStopped(ks: seq<Worker>)
    requires forall w | 0 <= w < |ks| :: ks[w].mode == Stopped
    ensures Total(Stops, ks) == |ks|
  {
    if ks != [] {
      SentHasNoStops(ks[|ks| - 1].sent);
      AllStopped(ks[..|ks| - 1]);
    }
  }

  /** How much there is left to do once no more seeds are handed out. */
  function Remaining(s: State): nat {
    6 * |s.queue| + Total(Effort, s.workers)
  }

  /** Draining ends: each step leaves strictly less to do. */
  lemma DrainingProgresses(s: State, e: Step)
    requires Inv(s) && Enabled(s, e) && s.phase == Draining
    ensures Next(s, e).phase == Draining && Remaining(Next(s, e)) < Remaining(s)
  {
    StepTotal(Effort, s, e);
  }

  lemma DrainingRunStep(n: nat, states: seq<State>, steps: seq<Step>, j: nat)
    requires Run(n, states, steps) && j + 1 < |states| && states[j].phase == Draining
    ensures states[j + 1].phase == Draining && Remaining(states[j + 1]) < Remaining(states[j])
  {
    RunInv(n, states, steps, j);
    DrainingProgresses(states[j], steps[j]);
  }

  lemma {:induction false} DrainingIsBounded(n: nat, states: seq<State>, steps: seq<Step>, i: nat, j: nat)
    requires Run(n, states, steps) && i <= j < |states| && states[i].phase == Draining
    ensures states[j].phase == Draining && Remaining(states[j]) + (j - i) <= Remaining(states[i])
    decreases j
  {
    if i < j {
      DrainingIsBounded(n, states, steps, i, j - 1);
      DrainingRunStep(n, states, steps, j - 1);
    }
  }

  /** A worker is told to stop only after every task queued earlier was taken. */
  lemma FinishComesLast(n: nat, states: seq<State>, steps: seq<Step>, i: nat, x: TaskId)
    requires Run(n, states, steps) && i < |steps|
    requires steps[i].Take? && states[i].queue[0].Finish?
    ensures states[i].phase == Draining && WorkIn(states[i].queue, x) == 0
  {
    RunInv(n, states, steps, i);
    NoFinish(states[i].queue);
    NoWork(states[i].queue, x);
  }

  lemma {:induction false} NoWork(queue: seq<Item>, x: TaskId)
    requires forall i | 0 <= i < |queue| :: queue[i].Finish?
    ensures WorkIn(queue, x) == 0 && FinishIn(queue) == |queue|
  {
    if queue != [] {
      NoWork(queue[..|queue| - 1], x);
    }
  }

  /** When the second loop exits, every worker has stopped, nothing is left
      anywhere, and every dispatched seed's result was received exactly once. */
  lemma DrainedCompletely(n: nat, states: seq<State>, steps: seq<Step>, i: nat, x: TaskId)
    requires Run(n, states, steps) && i < |states| && n > 0
    requires states[i].phase == Draining && states[i].active == 0
    ensures |states[i].workers| == n && forall w | 0 <= w < n :: states[i].workers[w] == Worker(Stopped, [])
    ensures states[i].queue == []
    ensures Copies(states[i].received, x) == if x < states[i].dispatched then 1 else 0
    ensures forall e :: !Enabled(states[i], e)
  {
    var s := states[i];
    RunInv(n, states, steps, i);
    forall w | 0 <= w < n ensures s.workers[w] == Worker(Stopped, []) {
      if s.workers[w].mode != Stopped {
        StopsBelow(s.workers, w);
      } else {
        forall v | 0 <= v < n ensures OfWorker(Stops, s.workers[v]) <= 1 {
          SentHasNoStops(s.workers[v].sent);
        }
        StopsAtMost(s.workers);
        WorkerWithin(Farewells, s.workers, w);
        LastFarewell(s.workers[w].sent);
      }
    }
    AllStopped(s.workers);
    NoWork(s.queue, x);
    NothingIn(CopiesOf(x), s.workers);
    assert OnePlace(s, x);
  }

  lemma {:induction false} LastFarewell(fs: seq<Feedback>)
    requires fs != [] ==> fs[|fs| - 1].Finished?
    ensures OfSent(Farewells, fs) == 0 ==> fs == []
  {
    if |fs| > 1 {
      LastFarewell(fs[1..]);
    }
  }

  /** A stopped worker stays stopped and takes nothing more, so it consumed one Finish. */
  lemma StoppedForGood(s: State, e: Step, w: nat)
    requires Enabled(s, e) && w < |s.workers| && s.workers[w].mode == Stopped
    ensures Next(s, e).workers[w].mode == Stopped
    ensures e.w == w ==> e.Read?
  {
  }
}
