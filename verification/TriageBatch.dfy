// The concurrent triage batch as a state machine: one task per finding going through the
// rate limiter, the fixed semaphore, the circuit breaker and the provider, interleaved in
// any order with the coroutine that collects finished tasks.
module TriageBatch {
  import opened Prelude

  datatype Result = Answered(retries: nat) | CircuitOpen(retries: nat) | Exhausted(retries: nat)

  /** Where a task is. `Holding` has a slot and is about to enter the breaker. */
  datatype Task =
    | Waiting(retries: nat)
    | Queued(retries: nat)
    | Holding(retries: nat)
    | Calling(retries: nat)
    | Backoff(retries: nat)
    | Done(result: Result)
    | Stopped

  datatype Phase = Gathering | Draining | Finished | Aborted

  datatype Config = Config(maxConcurrent: nat, maxRetries: nat)

  /** `calls` counts provider calls per task, `collected` lists tasks in the order their
      results were collected, `progress` is the log of reported counts. `cancelled` holds the
      tasks that `cancel()` was called on. */
  datatype Batch = Batch(tasks: seq<Task>, calls: seq<nat>, collected: seq<nat>, progress: seq<nat>,
                         phase: Phase, cancelled: set<nat>)

  /** What an await inside a task may raise. */
  datatype Thrown = BreakerOpen | RateLimited | Fault | ScanCancel | TaskCancel

  /** Everything but a task's own cancellation derives from `Exception`; so does `ScanCancel`. */
  predicate IsException(thrown: Thrown) {
    !thrown.TaskCancel?
  }

  /** How a provider call ended. */
  datatype Reply = Ok | Threw(thrown: Thrown)

  /** What the progress callback did. */
  datatype Callback = Fine | Raised | CancelScan

  datatype Step =
    | Grant(i: nat)
    | TakeSlot(i: nat)
    | Refuse(i: nat)
    | Call(i: nat)
    | Return(i: nat, reply: Reply)
    | Wake(i: nat)
    | Interrupt(i: nat)
    | Collect(i: nat, callback: Callback)
    | Finish
    | Abort

  predicate Live(t: Task) {
    !t.Done? && !t.Stopped?
  }

  predicate HasSlot(t: Task) {
    t.Holding? || t.Calling?
  }

  function SlotsUsed(tasks: seq<Task>): nat {
    if tasks == [] then 0
    else SlotsUsed(tasks[..|tasks|-1]) + if HasSlot(tasks[|tasks|-1]) then 1 else 0
  }

  function Start(n: nat): Batch {
    Batch(seq(n, i => Waiting(0)), seq(n, i => 0), [], [], Gathering, {})
  }

  function Again(c: Config, retries: nat): Task {
    if retries + 1 <= c.maxRetries then Backoff(retries + 1) else Done(Exhausted(retries + 1))
  }

  /** The handlers of a task, in their order; what none of them catches ends the task. */
  function Caught(c: Config, retries: nat, thrown: Thrown): Task {
    if thrown.BreakerOpen? then Done(CircuitOpen(retries))
    else if thrown.RateLimited? then Again(c, retries)
    else if IsException(thrown) then Again(c, retries)
    else Stopped
  }

  function Replied(c: Config, retries: nat, reply: Reply): Task {
    if reply.Ok? then Done(Answered(retries)) else Caught(c, retries, reply.thrown)
  }

  /** The loop may resume a task at the await it stands at. */
  predicate Resumes(b: Batch, i: nat) {
    i < |b.tasks| == |b.calls| && Live(b.tasks[i])
  }

  /** The event loop resumes tasks in any phase. The coroutine collects while it gathers, and
      leaves a cancelled batch when waiting for all its tasks is over. */
  predicate Enabled(c: Config, b: Batch, step: Step) {
    match step
    case Grant(i) => Resumes(b, i) && b.tasks[i].Waiting?
    case TakeSlot(i) => Resumes(b, i) && b.tasks[i].Queued? && SlotsUsed(b.tasks) < c.maxConcurrent
    case Refuse(i) => Resumes(b, i) && b.tasks[i].Holding?
    case Call(i) => Resumes(b, i) && b.tasks[i].Holding?
    case Return(i, reply) =>
      Resumes(b, i) && b.tasks[i].Calling?
      && (reply.Threw? ==> reply.thrown.RateLimited? || reply.thrown.Fault? || reply.thrown.ScanCancel?)
    case Wake(i) => Resumes(b, i) && b.tasks[i].Backoff?
    case Interrupt(i) => Resumes(b, i) && i in b.cancelled
    case Collect(i, _) => b.phase.Gathering? && i < |b.tasks| && b.tasks[i].Done? && i !in b.collected
    case Finish => b.phase.Gathering? && |b.collected| == |b.tasks|
    case Abort => b.phase.Draining? && forall i :: 0 <= i < |b.tasks| ==> !Live(b.tasks[i])
  }

  predicate IsTaskStep(step: Step) {
    !step.Collect? && !step.Finish? && !step.Abort?
  }

  /** Where a resumed task goes: a cancelled one has its cancellation raised at the await. */
  function Moved(c: Config, b: Batch, step: Step): Task
    requires IsTaskStep(step) && Enabled(c, b, step)
  {
    var retries := b.tasks[step.i].retries;
    if step.i in b.cancelled then Caught(c, retries, TaskCancel)
    else
      match step
      case Grant(_) => Queued(retries)
      case TakeSlot(_) => Holding(retries)
      case Refuse(_) => Caught(c, retries, BreakerOpen)
      case Call(_) => Calling(retries)
      case Return(_, reply) => Replied(c, retries, reply)
      case Wake(_) => Waiting(retries)
  }

  function CallsAfter(b: Batch, step: Step): nat
    requires IsTaskStep(step) && step.i < |b.calls|
  {
    b.calls[step.i] + if step.Call? && step.i !in b.cancelled then 1 else 0
  }

  function Next(c: Config, b: Batch, step: Step): Batch
    requires Enabled(c, b, step)
  {
    match step
    case Collect(i, callback) =>
      b.(collected := b.collected + [i], progress := b.progress + [|b.collected| + 1],
         phase := if callback.CancelScan? then Draining else Gathering,
         cancelled := if callback.CancelScan? then Unfinished(b.tasks) else b.cancelled)
    case Finish => b.(phase := Finished)
    case Abort => b.(phase := Aborted)
    case _ => b.(tasks := b.tasks[step.i := Moved(c, b, step)], calls := b.calls[step.i := CallsAfter(b, step)])
  }

  /** The tasks that a cancelling coroutine calls `cancel()` on. */
  function Unfinished(tasks: seq<Task>): set<nat> {
    set i: nat | i < |tasks| && Live(tasks[i])
  }

  // ---------- Safety ----------

  /** Retries count provider calls: a task's state tells how many it has made. */
  predicate CallsMatch(c: Config, t: Task, calls: nat) {
    match t
    case Waiting(r) => calls == r <= c.maxRetries
    case Queued(r) => calls == r <= c.maxRetries
    case Holding(r) => calls == r <= c.maxRetries
    case Calling(r) => calls == r + 1 && r <= c.maxRetries
    case Backoff(r) => calls == r && 1 <= r <= c.maxRetries
    case Done(Answered(r)) => calls == r + 1 <= c.maxRetries + 1
    case Done(CircuitOpen(r)) => calls == r <= c.maxRetries
    case Done(Exhausted(r)) => calls == r == c.maxRetries + 1
    case Stopped => calls <= c.maxRetries + 1
  }

  ghost predicate Safe(c: Config, b: Batch) {
    && |b.calls| == |b.tasks|
    && SlotsUsed(b.tasks) <= c.maxConcurrent
    && (forall i :: 0 <= i < |b.tasks| ==> CallsMatch(c, b.tasks[i], b.calls[i]))
    && AllDistinct(b.collected)
    && (forall k :: 0 <= k < |b.collected| ==> b.collected[k] < |b.tasks| && b.tasks[b.collected[k]].Done?)
    && |b.progress| == |b.collected|
    && (forall k :: 0 <= k < |b.progress| ==> b.progress[k] == k + 1)
    && (b.phase.Gathering? || b.phase.Finished? ==> b.cancelled == {})
    && (forall i :: 0 <= i < |b.tasks| && b.tasks[i].Stopped? ==> i in b.cancelled)
    && (b.phase.Draining? || b.phase.Aborted? ==> forall i :: 0 <= i < |b.tasks| && Live(b.tasks[i]) ==> i in b.cancelled)
    && (b.phase.Finished? ==> |b.collected| == |b.tasks|)
    && (b.phase.Aborted? ==> forall i :: 0 <= i < |b.tasks| ==> !Live(b.tasks[i]))
  }

  lemma {:induction false} SlotsAfterUpdate(tasks: seq<Task>, i: nat, t: Task)
    requires i < |tasks|
    ensures SlotsUsed(tasks[i := t]) == SlotsUsed(tasks) - (if HasSlot(tasks[i]) then 1 else 0) + (if HasSlot(t) then 1 else 0)
  {
    var front := tasks[..|tasks|-1];
    if i == |tasks| - 1 {
      assert tasks[i := t][..|tasks|-1] == front;
    } else {
      assert tasks[i := t][..|tasks|-1] == front[i := t];
      SlotsAfterUpdate(front, i, t);
    }
  }

  lemma {:induction false} NoSlotsAtStart(n: nat)
    ensures SlotsUsed(seq(n, i => Waiting(0))) == 0
  {
    if n > 0 {
      assert seq(n, i => Waiting(0))[..n-1] == seq(n - 1, i => Waiting(0));
      NoSlotsAtStart(n - 1);
    }
  }

  /** One task moves on, and its calls with it. */
  lemma UpdateKeepsSafe(c: Config, b: Batch, i: nat, t: Task, calls: nat)
    requires Safe(c, b) && i < |b.tasks| && Live(b.tasks[i])
    requires CallsMatch(c, t, calls) && (t.Stopped? ==> i in b.cancelled)
    requires HasSlot(t) && !HasSlot(b.tasks[i]) ==> SlotsUsed(b.tasks) < c.maxConcurrent
    ensures Safe(c, b.(tasks := b.tasks[i := t], calls := b.calls[i := calls]))
  {
    SlotsAfterUpdate(b.tasks, i, t);
  }

  /** A resumed task still matches its calls, and takes a slot only when there is one. */
  lemma MovedMatches(c: Config, b: Batch, step: Step)
    requires IsTaskStep(step) && Enabled(c, b, step) && CallsMatch(c, b.tasks[step.i], b.calls[step.i])
    ensures CallsMatch(c, Moved(c, b, step), CallsAfter(b, step))
    ensures Moved(c, b, step).Stopped? <==> step.i in b.cancelled
    ensures HasSlot(Moved(c, b, step)) && !HasSlot(b.tasks[step.i]) ==> SlotsUsed(b.tasks) < c.maxConcurrent
  {}

  lemma CollectKeepsSafe(c: Config, b: Batch, step: Step)
    requires Safe(c, b) && Enabled(c, b, step) && step.Collect?
    ensures Safe(c, Next(c, b, step))
  {}

  lemma StepKeepsSafe(c: Config, b: Batch, step: Step)
    requires Safe(c, b) && Enabled(c, b, step)
    ensures Safe(c, Next(c, b, step))
  {
    if step.Collect? {
      CollectKeepsSafe(c, b, step);
    } else if IsTaskStep(step) {
      MovedMatches(c, b, step);
      UpdateKeepsSafe(c, b, step.i, Moved(c, b, step), CallsAfter(b, step));
    }
  }

  ghost predicate Runs(c: Config, b: Batch, steps: seq<Step>)
    decreases |steps|
  {
    steps == [] || (Enabled(c, b, steps[0]) && Runs(c, Next(c, b, steps[0]), steps[1..]))
  }

  ghost function After(c: Config, b: Batch, steps: seq<Step>): Batch
    requires Runs(c, b, steps)
    decreases |steps|
  {
    if steps == [] then b else After(c, Next(c, b, steps[0]), steps[1..])
  }

  lemma {:induction false} RunsKeepSafe(c: Config, b: Batch, steps: seq<Step>)
    requires Safe(c, b) && Runs(c, b, steps)
    ensures Safe(c, After(c, b, steps)) && |After(c, b, steps).tasks| == |b.tasks|
    decreases |steps|
  {
    if steps != [] {
      StepKeepsSafe(c, b, steps[0]);
      RunsKeepSafe(c, Next(c, b, steps[0]), steps[1..]);
    }
  }

  lemma StartIsSafe(c: Config, n: nat)
    ensures Safe(c, Start(n))
  {
    NoSlotsAtStart(n);
  }

  function InFlight(tasks: seq<Task>): nat {
    if tasks == [] then 0
    else InFlight(tasks[..|tasks|-1]) + if tasks[|tasks|-1].Calling? then 1 else 0
  }

  lemma {:induction false} InFlightNeedsSlots(tasks: seq<Task>)
    ensures InFlight(tasks) <= SlotsUsed(tasks)
    ensures (forall i :: 0 <= i < |tasks| ==> !Live(tasks[i])) ==> InFlight(tasks) == 0
  {
    if tasks != [] {
      InFlightNeedsSlots(tasks[..|tasks|-1]);
    }
  }

  /** At every moment of every interleaving: never more provider calls in flight than the
      semaphore allows, never more than `maxRetries` + 1 of them per finding, progress
      reported as 1, 2, 3, …, and no call still running once a cancellation leaves the batch. */
  lemma BatchSafety(c: Config, n: nat, steps: seq<Step>)
    requires Runs(c, Start(n), steps)
    ensures var b := After(c, Start(n), steps);
            && |b.tasks| == |b.calls| == n
            && InFlight(b.tasks) <= c.maxConcurrent
            && (forall i :: 0 <= i < n ==> b.calls[i] <= c.maxRetries + 1)
            && (forall k :: 0 <= k < |b.progress| ==> b.progress[k] == k + 1)
            && (b.phase.Aborted? ==> InFlight(b.tasks) == 0)
  {
    StartIsSafe(c, n);
    RunsKeepSafe(c, Start(n), steps);
    var b := After(c, Start(n), steps);
    InFlightNeedsSlots(b.tasks);
    forall i | 0 <= i < n ensures b.calls[i] <= c.maxRetries + 1 {
      assert CallsMatch(c, b.tasks[i], b.calls[i]);
    }
  }

  // ---------- One result per finding ----------

  function Below(n: nat): set<nat> {
    if n == 0 then {} else Below(n - 1) + {n - 1}
  }

  lemma {:induction false} BelowMeaning(n: nat)
    ensures |Below(n)| == n
    ensures forall i: nat :: i in Below(n) <==> i < n
  {
    if n > 0 {
      BelowMeaning(n - 1);
    }
  }

  function ElementsOf(xs: seq<nat>): set<nat> {
    if xs == [] then {} else ElementsOf(xs[..|xs|-1]) + {xs[|xs|-1]}
  }

  lemma {:induction false} ElementsOfMeaning(xs: seq<nat>)
    ensures forall x :: x in ElementsOf(xs) <==> x in xs
    ensures AllDistinct(xs) ==> |ElementsOf(xs)| == |xs|
  {
    if xs != [] {
      var front, last := xs[..|xs|-1], xs[|xs|-1];
      assert xs == front + [last];
      ElementsOfMeaning(front);
    }
  }

  lemma {:induction false} SubsetCount(some: set<nat>, all: set<nat>)
    requires some <= all
    ensures |some| <= |all|
    ensures |some| == |all| <==> some == all
    decreases |some|
  {
    if x :| x in some {
      SubsetCount(some - {x}, all - {x});
      assert some == some - {x} + {x} && all == all - {x} + {x};
    }
  }

  /** A duplicate-free list of numbers below `n` has `n` entries exactly when it has them all. */
  lemma DistinctBelow(xs: seq<nat>, n: nat)
    requires AllDistinct(xs) && forall k :: 0 <= k < |xs| ==> xs[k] < n
    ensures |xs| <= n
    ensures |xs| == n <==> forall i :: 0 <= i < n ==> i in xs
  {
    ElementsOfMeaning(xs);
    BelowMeaning(n);
    assert ElementsOf(xs) <= Below(n);
    SubsetCount(ElementsOf(xs), Below(n));
    if forall i :: 0 <= i < n ==> i in xs {
      assert ElementsOf(xs) == Below(n);
    }
    if ElementsOf(xs) == Below(n) {
      forall i | 0 <= i < n ensures i in xs {
        assert i in Below(n);
      }
    }
  }

  /** An uncancelled batch collects every finding exactly once and reports 1..total. */
  lemma OneResultPerFinding(c: Config, n: nat, steps: seq<Step>)
    requires Runs(c, Start(n), steps) && After(c, Start(n), steps).phase.Finished?
    ensures var b := After(c, Start(n), steps);
            && |b.tasks| == |b.collected| == n && AllDistinct(b.collected)
            && (forall i :: 0 <= i < n ==> i in b.collected && b.tasks[i].Done?)
            && |b.progress| == n
  {
    StartIsSafe(c, n);
    RunsKeepSafe(c, Start(n), steps);
    var b := After(c, Start(n), steps);
    DistinctBelow(b.collected, n);
    forall i | 0 <= i < n ensures b.tasks[i].Done? {
      assert i in b.collected;
    }
  }

  // ---------- Cancellation ----------

  function Running(tasks: seq<Task>): nat {
    if tasks == [] then 0
    else Running(tasks[..|tasks|-1]) + if Live(tasks[|tasks|-1]) then 1 else 0
  }

  lemma {:induction false} RunningAfterUpdate(tasks: seq<Task>, i: nat, t: Task)
    requires i < |tasks|
    ensures Running(tasks[i := t]) == Running(tasks) - (if Live(tasks[i]) then 1 else 0) + (if Live(t) then 1 else 0)
  {
    var front := tasks[..|tasks|-1];
    if i == |tasks| - 1 {
      assert tasks[i := t][..|tasks|-1] == front;
    } else {
      assert tasks[i := t][..|tasks|-1] == front[i := t];
      RunningAfterUpdate(front, i, t);
    }
  }

  /** Once a cancellation was requested every task is stopped the next time it is resumed: no
      provider call starts, nothing more is collected, the batch can only end by aborting, and
      it is over after one step for each task that was under way. */
  lemma {:induction false} CancellationFreezesCalls(c: Config, b: Batch, steps: seq<Step>)
    requires Safe(c, b) && (b.phase.Draining? || b.phase.Aborted?)
    requires Runs(c, b, steps)
    ensures After(c, b, steps).calls == b.calls && After(c, b, steps).collected == b.collected
    ensures After(c, b, steps).phase.Draining? || After(c, b, steps).phase.Aborted?
    ensures |steps| <= Running(b.tasks) + if b.phase.Draining? then 1 else 0
    decreases |steps|
  {
    if steps != [] {
      var step, b' := steps[0], Next(c, b, steps[0]);
      StepKeepsSafe(c, b, step);
      if IsTaskStep(step) {
        assert step.i in b.cancelled;
        MovedMatches(c, b, step);
        RunningAfterUpdate(b.tasks, step.i, Moved(c, b, step));
        assert b'.calls == b.calls;
      }
      CancellationFreezesCalls(c, b', steps[1..]);
    }
  }

  ghost predicate CancelsScan(steps: seq<Step>) {
    exists k :: 0 <= k < |steps| && steps[k].Collect? && steps[k].callback.CancelScan?
  }

  /** A batch drains exactly when some progress callback cancelled the scan; nothing raised
      inside a provider call makes it. */
  lemma {:induction false} DrainsIff(c: Config, b: Batch, steps: seq<Step>)
    requires Runs(c, b, steps) && b.phase.Gathering?
    ensures After(c, b, steps).phase.Draining? || After(c, b, steps).phase.Aborted? <==> CancelsScan(steps)
    decreases |steps|
  {
    if steps != [] {
      var rest, b' := steps[1..], Next(c, b, steps[0]);
      assert forall k :: 0 < k < |steps| ==> steps[k] == rest[k-1];
      if b'.phase.Gathering? {
        DrainsIff(c, b', rest);
        if CancelsScan(rest) {
          var k :| 0 <= k < |rest| && rest[k].Collect? && rest[k].callback.CancelScan?;
          assert steps[k+1] == rest[k];
        }
      } else {
        LeftGathering(c, b', rest);
      }
    }
  }

  /** Once the coroutine has left its loop it collects nothing more. */
  lemma {:induction false} LeftGathering(c: Config, b: Batch, steps: seq<Step>)
    requires Runs(c, b, steps) && !b.phase.Gathering?
    ensures After(c, b, steps).phase.Finished? <==> b.phase.Finished?
    ensures !After(c, b, steps).phase.Gathering?
    ensures forall k :: 0 <= k < |steps| ==> !steps[k].Collect?
    decreases |steps|
  {
    if steps != [] {
      LeftGathering(c, Next(c, b, steps[0]), steps[1..]);
      assert forall k :: 0 < k < |steps| ==> steps[k] == steps[1..][k-1];
    }
  }

  /** The steps of one call of the first task. */
  function CallSteps(reply: Reply): seq<Step> {
    [Grant(0), TakeSlot(0), Call(0), Return(0, reply)]
  }

  /** After the backoff: a second call that answers, and the end. */
  function SecondTry(): seq<Step> {
    [Wake(0)] + (CallSteps(Ok) + [Collect(0, Fine), Finish])
  }

  /** A call in which the scan cancellation is raised, then another try. */
  function AbsorbedRun(): seq<Step> {
    CallSteps(Threw(ScanCancel)) + SecondTry()
  }

  /** A scan cancellation raised inside a provider call is caught as an ordinary failure: the
      call is made again and the batch finishes. */
  lemma CancelInsideCallIsAbsorbed(c: Config)
    requires c.maxConcurrent > 0 && c.maxRetries > 0
    ensures Runs(c, Start(1), AbsorbedRun()) && !CancelsScan(AbsorbedRun())
    ensures var b := After(c, Start(1), AbsorbedRun()); b.phase.Finished? && b.calls == [2]
  {
    AbsorbedRunLeads(c, Start(1));
    DrainsIff(c, Start(1), AbsorbedRun());
  }

  lemma AbsorbedRunLeads(c: Config, b: Batch)
    requires c.maxConcurrent > 0 && c.maxRetries > 0 && b == Start(1)
    ensures Leads(c, b, AbsorbedRun(), Ended(Done(Answered(1)), 2))
  {
    SecondTryFinishes(c);
    OneCall(c, 0, Threw(ScanCancel));
    assert b == Single(Waiting(0), 0);
    Join(c, b, CallSteps(Threw(ScanCancel)), Single(Backoff(1), 1), SecondTry(), Ended(Done(Answered(1)), 2));
  }

  lemma SecondTryFinishes(c: Config)
    requires c.maxConcurrent > 0 && c.maxRetries > 0
    ensures Leads(c, Single(Backoff(1), 1), SecondTry(), Ended(Done(Answered(1)), 2))
  {
    OneStep(c, Single(Backoff(1), 1), Wake(0), Single(Waiting(1), 1));
    OneCall(c, 1, Ok);
    LastSteps(c, Done(Answered(1)), 2);
    Join(c, Single(Waiting(1), 1), CallSteps(Ok), Single(Done(Answered(1)), 2), [Collect(0, Fine), Finish],
         Ended(Done(Answered(1)), 2));
    Join(c, Single(Backoff(1), 1), [Wake(0)], Single(Waiting(1), 1), CallSteps(Ok) + [Collect(0, Fine), Finish],
         Ended(Done(Answered(1)), 2));
  }

  /** A batch of one task that has finished. */
  function Ended(t: Task, calls: nat): Batch {
    Batch([t], [calls], [0], [1], Finished, {})
  }

  /** A batch of one task. */
  function Single(t: Task, calls: nat): Batch {
    Batch([t], [calls], [], [], Gathering, {})
  }

  ghost predicate Leads(c: Config, b: Batch, steps: seq<Step>, b': Batch) {
    Runs(c, b, steps) && After(c, b, steps) == b'
  }

  lemma OneStep(c: Config, b: Batch, step: Step, b': Batch)
    requires Enabled(c, b, step) && Next(c, b, step) == b'
    ensures Leads(c, b, [step], b')
  {
    assert [step][1..] == [];
  }

  lemma {:induction false} Join(c: Config, b: Batch, first: seq<Step>, mid: Batch, second: seq<Step>, b': Batch)
    requires Leads(c, b, first, mid) && Leads(c, mid, second, b')
    ensures Leads(c, b, first + second, b')
    decreases |first|
  {
    if first == [] {
      assert first + second == second;
    } else {
      Join(c, Next(c, b, first[0]), first[1..], mid, second, b');
      assert (first + second)[1..] == first[1..] + second;
    }
  }

  lemma LastSteps(c: Config, t: Task, calls: nat)
    requires t.Done?
    ensures Leads(c, Single(t, calls), [Collect(0, Fine), Finish], Ended(t, calls))
  {
    var reported := Single(t, calls).(collected := [0], progress := [1]);
    OneStep(c, Single(t, calls), Collect(0, Fine), reported);
    OneStep(c, reported, Finish, Ended(t, calls));
    Join(c, Single(t, calls), [Collect(0, Fine)], reported, [Finish], Ended(t, calls));
    assert [Collect(0, Fine)] + [Finish] == [Collect(0, Fine), Finish];
  }

  /** The single task of a batch makes one call. */
  lemma OneCall(c: Config, r: nat, reply: Reply)
    requires c.maxConcurrent > 0 && (reply.Ok? || reply == Threw(ScanCancel))
    ensures Leads(c, Single(Waiting(r), r), CallSteps(reply), Single(Replied(c, r, reply), r + 1))
  {
    var b0, b1, b2, b3 := Single(Waiting(r), r), Single(Queued(r), r), Single(Holding(r), r), Single(Calling(r), r + 1);
    assert SlotsUsed([Queued(r)][..0]) == 0;
    OneStep(c, b0, Grant(0), b1);
    OneStep(c, b1, TakeSlot(0), b2);
    OneStep(c, b2, Call(0), b3);
    OneStep(c, b3, Return(0, reply), Single(Replied(c, r, reply), r + 1));
    Join(c, b0, [Grant(0)], b1, [TakeSlot(0)], b2);
    Join(c, b2, [Call(0)], b3, [Return(0, reply)], Single(Replied(c, r, reply), r + 1));
    Join(c, b0, [Grant(0)] + [TakeSlot(0)], b2, [Call(0)] + [Return(0, reply)], Single(Replied(c, r, reply), r + 1));
    assert CallSteps(reply) == [Grant(0)] + [TakeSlot(0)] + ([Call(0)] + [Return(0, reply)]);
  }

  // ---------- What a task ends with ----------

  /** The steps before a progress callback cancelled the scan. */
  function Uncancelled(steps: seq<Step>): seq<Step> {
    if steps == [] || CancelsNow(steps[0]) then []
    else [steps[0]] + Uncancelled(steps[1..])
  }

  /** How many provider calls of task `i` threw, and the last step it took. */
  function ThrewOf(steps: seq<Step>, i: nat): nat {
    if steps == [] then 0
    else (if steps[0].Return? && steps[0].i == i && steps[0].reply.Threw? then 1 else 0) + ThrewOf(steps[1..], i)
  }

  function LastOf(steps: seq<Step>, i: nat): Option<Step> {
    if steps == [] then None
    else OrElse(LastOf(steps[1..], i), if IsTaskStep(steps[0]) && steps[0].i == i then Some(steps[0]) else None)
  }

  /** Where a task is after its last step, when so many of its calls threw. */
  function StateAfter(c: Config, last: Option<Step>, threw: nat): Task {
    match last
    case None => Waiting(threw)
    case Some(Grant(_)) => Queued(threw)
    case Some(TakeSlot(_)) => Holding(threw)
    case Some(Refuse(_)) => Done(CircuitOpen(threw))
    case Some(Call(_)) => Calling(threw)
    case Some(Return(_, Ok)) => Done(Answered(threw))
    case Some(Return(_, Threw(_))) => if threw <= c.maxRetries then Backoff(threw) else Done(Exhausted(threw))
    case Some(Wake(_)) => Waiting(threw)
    case Some(_) => Stopped
  }

  lemma StepFollowsHistory(c: Config, b: Batch, step: Step, i: nat, last: Option<Step>, threw: nat)
    requires Enabled(c, b, step) && b.cancelled == {} && i < |b.tasks| && b.tasks[i] == StateAfter(c, last, threw)
    ensures Next(c, b, step).tasks[i] == StateAfter(c, LastNow(step, i, last), ThrewNow(step, i, threw))
  {}

  /** Once cancelled, a task that is done stays as it is and no other becomes done. */
  lemma {:induction false} DoneIsFrozen(c: Config, b: Batch, steps: seq<Step>, i: nat)
    requires Safe(c, b) && (b.phase.Draining? || b.phase.Aborted?) && Runs(c, b, steps) && i < |b.tasks|
    ensures |After(c, b, steps).tasks| == |b.tasks|
    ensures b.tasks[i].Done? || After(c, b, steps).tasks[i].Done? ==> After(c, b, steps).tasks[i] == b.tasks[i]
    decreases |steps|
  {
    if steps != [] {
      StepKeepsSafe(c, b, steps[0]);
      if IsTaskStep(steps[0]) {
        MovedMatches(c, b, steps[0]);
      }
      DoneIsFrozen(c, Next(c, b, steps[0]), steps[1..], i);
    }
  }

  /** What one step adds to the history of a task. */
  function LastNow(step: Step, i: nat, last: Option<Step>): Option<Step> {
    if IsTaskStep(step) && step.i == i then Some(step) else last
  }

  function ThrewNow(step: Step, i: nat, threw: nat): nat {
    if step.Return? && step.i == i && step.reply.Threw? then threw + 1 else threw
  }

  predicate CancelsNow(step: Step) {
    step.Collect? && step.callback.CancelScan?
  }

  lemma HistoryUnfolds(steps: seq<Step>, i: nat, last: Option<Step>, threw: nat)
    requires steps != [] && !CancelsNow(steps[0])
    ensures OrElse(LastOf(Uncancelled(steps), i), last)
         == OrElse(LastOf(Uncancelled(steps[1..]), i), LastNow(steps[0], i, last))
    ensures threw + ThrewOf(Uncancelled(steps), i) == ThrewNow(steps[0], i, threw) + ThrewOf(Uncancelled(steps[1..]), i)
  {
    var rest := Uncancelled(steps[1..]);
    assert ([steps[0]] + rest)[1..] == rest;
  }

  /** Where the history of a task, continued by `steps`, leaves it. */
  function Ending(c: Config, steps: seq<Step>, i: nat, last: Option<Step>, threw: nat): Task {
    StateAfter(c, OrElse(LastOf(Uncancelled(steps), i), last), threw + ThrewOf(Uncancelled(steps), i))
  }

  ghost predicate AgreeWhenDone(task: Task, state: Task) {
    task.Done? || state.Done? ==> task == state
  }

  lemma EndingUnfolds(c: Config, steps: seq<Step>, i: nat, last: Option<Step>, threw: nat)
    requires steps != []
    ensures Ending(c, steps, i, last, threw)
         == if CancelsNow(steps[0]) then StateAfter(c, last, threw)
            else Ending(c, steps[1..], i, LastNow(steps[0], i, last), ThrewNow(steps[0], i, threw))
  {
    if !CancelsNow(steps[0]) {
      HistoryUnfolds(steps, i, last, threw);
    }
  }

  lemma {:induction false} HistoryDecides(c: Config, b: Batch, steps: seq<Step>, i: nat, last: Option<Step>, threw: nat)
    requires Safe(c, b) && !b.phase.Draining? && !b.phase.Aborted? && Runs(c, b, steps)
    requires i < |b.tasks| && b.tasks[i] == StateAfter(c, last, threw)
    ensures i < |After(c, b, steps).tasks| && AgreeWhenDone(After(c, b, steps).tasks[i], Ending(c, steps, i, last, threw))
    decreases |steps|
  {
    if steps != [] {
      EndingUnfolds(c, steps, i, last, threw);
      StepKeepsSafe(c, b, steps[0]);
      if CancelsNow(steps[0]) {
        DoneIsFrozen(c, Next(c, b, steps[0]), steps[1..], i);
      } else {
        StepFollowsHistory(c, b, steps[0], i, last, threw);
        GatheringGoesOn(c, b, steps[0]);
        HistoryDecides(c, Next(c, b, steps[0]), steps[1..], i, LastNow(steps[0], i, last), ThrewNow(steps[0], i, threw));
      }
    }
  }

  lemma GatheringGoesOn(c: Config, b: Batch, step: Step)
    requires Enabled(c, b, step) && !b.phase.Draining? && !b.phase.Aborted? && !CancelsNow(step)
    ensures !Next(c, b, step).phase.Draining? && !Next(c, b, step).phase.Aborted?
    ensures |Next(c, b, step).tasks| == |b.tasks|
  {}

  /** The last step of a task that threw is in its history, and so is the bound on throwing. */
  lemma {:induction false} HistoryIsSane(c: Config, b: Batch, steps: seq<Step>, i: nat, last: Option<Step>, threw: nat)
    requires Safe(c, b) && b.cancelled == {} && Runs(c, b, steps)
    requires i < |b.tasks| && b.tasks[i] == StateAfter(c, last, threw) && IsSane(c, i, last, threw)
    ensures IsSane(c, i, OrElse(LastOf(Uncancelled(steps), i), last), threw + ThrewOf(Uncancelled(steps), i))
    decreases |steps|
  {
    if steps != [] && !CancelsNow(steps[0]) {
      StepKeepsSafe(c, b, steps[0]);
      StepFollowsHistory(c, b, steps[0], i, last, threw);
      StepKeepsSane(c, b, steps[0], i, last, threw);
      HistoryUnfolds(steps, i, last, threw);
      HistoryIsSane(c, Next(c, b, steps[0]), steps[1..], i, LastNow(steps[0], i, last), ThrewNow(steps[0], i, threw));
    }
  }

  lemma StepKeepsSane(c: Config, b: Batch, step: Step, i: nat, last: Option<Step>, threw: nat)
    requires Enabled(c, b, step) && b.cancelled == {} && !CancelsNow(step) && i < |b.tasks|
    requires b.tasks[i] == StateAfter(c, last, threw) && IsSane(c, i, last, threw)
    ensures IsSane(c, i, LastNow(step, i, last), ThrewNow(step, i, threw)) && Next(c, b, step).cancelled == {}
  {}

  ghost predicate IsSane(c: Config, i: nat, last: Option<Step>, threw: nat) {
    && threw <= c.maxRetries + 1
    && (threw == c.maxRetries + 1 ==> last.Some? && last.value.Return? && last.value.reply.Threw?)
    && (last.Some? ==> IsTaskStep(last.value) && last.value.i == i)
  }

  /** Over every run, from the steps of a task alone up to a cancellation: it is answered
      exactly when its last call returned after so many that threw, refused exactly when the
      breaker was open after so many, and exhausted exactly when one call more threw than
      there are retries. */
  lemma ResultFollowsHistory(c: Config, n: nat, steps: seq<Step>, i: nat, r: nat)
    requires Runs(c, Start(n), steps) && i < n
    ensures i < |After(c, Start(n), steps).tasks|
    ensures var task, mine := After(c, Start(n), steps).tasks[i], Uncancelled(steps);
            && (task == Done(Answered(r)) <==> LastOf(mine, i) == Some(Return(i, Ok)) && ThrewOf(mine, i) == r)
            && (task == Done(CircuitOpen(r)) <==> LastOf(mine, i) == Some(Refuse(i)) && ThrewOf(mine, i) == r)
            && (task == Done(Exhausted(r)) <==> ThrewOf(mine, i) == r == c.maxRetries + 1)
  {
    StartIsSafe(c, n);
    HistoryDecides(c, Start(n), steps, i, None, 0);
    HistoryIsSane(c, Start(n), steps, i, None, 0);
  }

  // ---------- Termination ----------

  /** Steps a task can still take before it is done. */
  function Remaining(c: Config, t: Task): nat {
    match t
    case Waiting(r) => if r <= c.maxRetries then (c.maxRetries - r) * 5 + 4 else 0
    case Queued(r) => if r <= c.maxRetries then (c.maxRetries - r) * 5 + 3 else 0
    case Holding(r) => if r <= c.maxRetries then (c.maxRetries - r) * 5 + 2 else 0
    case Calling(r) => if r <= c.maxRetries then (c.maxRetries - r) * 5 + 1 else 0
    case Backoff(r) => if r <= c.maxRetries then (c.maxRetries - r) * 5 + 5 else 0
    case Done(_) => 0
    case Stopped => 0
  }

  function TotalRemaining(c: Config, tasks: seq<Task>): nat {
    if tasks == [] then 0
    else TotalRemaining(c, tasks[..|tasks|-1]) + Remaining(c, tasks[|tasks|-1])
  }

  function PhaseWeight(phase: Phase): nat {
    match phase
    case Gathering => 2
    case Draining => 1
    case _ => 0
  }

  /** What every step of a run uses up. */
  function Fuel(c: Config, b: Batch): int {
    TotalRemaining(c, b.tasks) + (|b.tasks| - |b.collected|) + PhaseWeight(b.phase)
  }

  lemma {:induction false} TotalAfterUpdate(c: Config, tasks: seq<Task>, i: nat, t: Task)
    requires i < |tasks|
    ensures TotalRemaining(c, tasks[i := t]) == TotalRemaining(c, tasks) - Remaining(c, tasks[i]) + Remaining(c, t)
  {
    var front := tasks[..|tasks|-1];
    if i == |tasks| - 1 {
      assert tasks[i := t][..|tasks|-1] == front;
    } else {
      assert tasks[i := t][..|tasks|-1] == front[i := t];
      TotalAfterUpdate(c, front, i, t);
    }
  }

  lemma MovedUsesFuel(c: Config, b: Batch, step: Step)
    requires IsTaskStep(step) && Enabled(c, b, step) && CallsMatch(c, b.tasks[step.i], b.calls[step.i])
    ensures Remaining(c, Moved(c, b, step)) < Remaining(c, b.tasks[step.i])
  {}

  lemma StepUsesFuel(c: Config, b: Batch, step: Step)
    requires Safe(c, b) && Enabled(c, b, step)
    ensures Fuel(c, Next(c, b, step)) < Fuel(c, b)
  {
    if IsTaskStep(step) {
      MovedUsesFuel(c, b, step);
      TotalAfterUpdate(c, b.tasks, step.i, Moved(c, b, step));
    }
  }

  lemma {:induction false} TotalAtStart(c: Config, n: nat)
    ensures TotalRemaining(c, seq(n, i => Waiting(0))) == n * (c.maxRetries * 5 + 4)
  {
    if n > 0 {
      assert seq(n, i => Waiting(0))[..n-1] == seq(n - 1, i => Waiting(0));
      TotalAtStart(c, n - 1);
    }
  }

  lemma {:induction false} RunsAreShort(c: Config, b: Batch, steps: seq<Step>)
    requires Safe(c, b) && Runs(c, b, steps)
    ensures |steps| <= Fuel(c, b)
    decreases |steps|
  {
    if steps == [] {
      DistinctBelow(b.collected, |b.tasks|);
    } else {
      StepKeepsSafe(c, b, steps[0]);
      StepUsesFuel(c, b, steps[0]);
      RunsAreShort(c, Next(c, b, steps[0]), steps[1..]);
    }
  }

  lemma {:induction false} SlotHolder(tasks: seq<Task>) returns (i: nat)
    requires SlotsUsed(tasks) > 0
    ensures i < |tasks| && HasSlot(tasks[i])
  {
    if HasSlot(tasks[|tasks|-1]) {
      i := |tasks| - 1;
    } else {
      i := SlotHolder(tasks[..|tasks|-1]);
    }
  }

  /** No deadlock: a batch that has neither finished nor aborted can always take a step. */
  lemma NeverStuck(c: Config, b: Batch) returns (step: Step)
    requires Safe(c, b) && c.maxConcurrent > 0
    requires b.phase.Gathering? || b.phase.Draining?
    ensures Enabled(c, b, step)
  {
    if b.phase.Draining? {
      if i: nat :| i < |b.tasks| && Live(b.tasks[i]) { step := Interrupt(i); } else { step := Abort; }
    } else if |b.collected| == |b.tasks| {
      step := Finish;
    } else if i: nat :| i < |b.tasks| && i !in b.collected {
      match b.tasks[i]
      case Waiting(_) => step := Grant(i);
      case Queued(_) =>
        if SlotsUsed(b.tasks) < c.maxConcurrent {
          step := TakeSlot(i);
        } else {
          var j := SlotHolder(b.tasks);
          step := if b.tasks[j].Holding? then Call(j) else Return(j, Ok);
        }
      case Holding(_) => step := Call(i);
      case Calling(_) => step := Return(i, Ok);
      case Backoff(_) => step := Wake(i);
      case Done(_) => step := Collect(i, Fine);
    } else {
      DistinctBelow(b.collected, |b.tasks|);
      assert false;
    }
  }

  lemma StartFuel(c: Config, n: nat)
    ensures Fuel(c, Start(n)) == n * (c.maxRetries * 5 + 5) + 2
  {
    TotalAtStart(c, n);
    OneMore(n, c.maxRetries * 5 + 4);
  }

  lemma OneMore(n: nat, k: nat)
    ensures n * k + n == n * (k + 1)
  {}

  /** A batch that is over can take no step. */
  lemma OverIsOver(c: Config, b: Batch, step: Step)
    requires Safe(c, b) && (b.phase.Finished? || b.phase.Aborted?)
    ensures !Enabled(c, b, step)
  {
    if b.phase.Finished? && IsTaskStep(step) && step.i < |b.tasks| {
      DistinctBelow(b.collected, |b.tasks|);
      assert step.i in b.collected;
    }
  }

  /** Every schedule ends, within a bound that depends on the sizes only, and a run that can
      go no further has finished or aborted. */
  lemma EveryScheduleEnds(c: Config, n: nat, steps: seq<Step>)
    requires Runs(c, Start(n), steps) && c.maxConcurrent > 0
    ensures |steps| <= n * (c.maxRetries * 5 + 5) + 2
    ensures (forall step :: !Enabled(c, After(c, Start(n), steps), step))
       <==> After(c, Start(n), steps).phase.Finished? || After(c, Start(n), steps).phase.Aborted?
  {
    StartIsSafe(c, n);
    StartFuel(c, n);
    RunsAreShort(c, Start(n), steps);
    RunsKeepSafe(c, Start(n), steps);
    var b := After(c, Start(n), steps);
    if b.phase.Gathering? || b.phase.Draining? {
      var step := NeverStuck(c, b);
    } else {
      forall step ensures !Enabled(c, b, step) {
        OverIsOver(c, b, step);
      }
    }
  }
}
