// Who decides that a scan is alive: the duplicate-delivery guard, the stale-scan watchdog
// and the lock sweeper, as one timed protocol over job rows, branch locks and executions.
module Liveness {
  import opened Prelude

  /** Time is counted in microseconds. */
  const SECOND := 1_000_000

  datatype Status = Pending | Running | Analyzing | Completed | Failed | Cancelled

  predicate Terminal(s: Status) {
    s.Completed? || s.Failed? || s.Cancelled?
  }

  // ---------- Thresholds ----------

  /** An environment variable: unset, unreadable as a number, or a number. */
  datatype Env = Unset | Garbage | Number(v: int)

  predicate Usable(e: Env) {
    e.Number? && e.v >= 1
  }

  function StaleHours(hours: Env): int {
    if Usable(hours) then hours.v else 4
  }

  function StaleSeconds(minutes: Env, hours: Env): int {
    if Usable(minutes) then minutes.v * 60
    else if Usable(hours) then hours.v * 3600
    else 90 * 60
  }

  datatype Limits = Limits(stall: int, absolute: int)

  /** The two settings as every tick reads them. */
  function Configured(minutes: Env, hours: Env): Limits {
    Limits(StaleSeconds(minutes, hours) * SECOND, StaleHours(hours) * 3600 * SECOND)
  }

  // ---------- The three tests ----------

  datatype Row = Row(branch: string, status: Status, heartbeat: Option<int>, created: int, runStarted: Option<int>)

  function LastSign(row: Row): int {
    ValueOr(row.heartbeat, row.created)
  }

  function RunStart(row: Row): int {
    ValueOr(row.runStarted, row.created)
  }

  /** The guard: is another execution of this job still alive? */
  predicate IsDuplicate(row: Row, now: int, c: Limits) {
    (row.status.Running? || row.status.Analyzing?) && row.heartbeat.Some? && now - row.heartbeat.value < c.stall
  }

  /** The watchdog clamps the stall threshold to the absolute backstop. */
  function ClampedStall(c: Limits): int {
    if c.stall > c.absolute then c.absolute else c.stall
  }

  predicate IsStalled(row: Row, now: int, c: Limits) {
    LastSign(row) < now - ClampedStall(c)
  }

  predicate IsTooOld(row: Row, now: int, c: Limits) {
    RunStart(row) < now - c.absolute
  }

  predicate IsReaped(row: Row, now: int, c: Limits) {
    !Terminal(row.status) && (IsStalled(row, now, c) || IsTooOld(row, now, c))
  }

  /** The sweeper's test of a lock's holder; `None` is a holder whose job is gone. */
  predicate IsReleasable(holder: Option<Row>, now: int, c: Limits) {
    holder.None? || Terminal(holder.value.status) || LastSign(holder.value) < now - c.stall
  }

  /** The settings: minutes win over hours, four hours and ninety minutes are the defaults, and
      anything but a number from one on counts as unset. */
  lemma ThresholdsResolve(minutes: Env, hours: Env)
    ensures Configured(Unset, Unset) == Limits(5400 * SECOND, 14400 * SECOND)
    ensures hours.Number? && hours.v >= 1 ==> Configured(Unset, hours) == Limits(hours.v * 3600 * SECOND, hours.v * 3600 * SECOND)
    ensures minutes.Number? && minutes.v >= 1 ==>
              Configured(minutes, hours) == Limits(minutes.v * 60 * SECOND, Configured(Unset, hours).absolute)
    ensures minutes.Garbage? || (minutes.Number? && minutes.v < 1) ==> Configured(minutes, hours) == Configured(Unset, hours)
    ensures hours.Garbage? || (hours.Number? && hours.v < 1) ==> Configured(minutes, hours) == Configured(minutes, Unset)
  {}

  /** What the watchdog reaps: a scan that is not over and whose last heartbeat, or creation,
      is older than the smaller threshold, or whose run, by its own start if it has one, is
      older than the backstop. */
  lemma ReapedIff(row: Row, now: int, c: Limits)
    ensures IsReaped(row, now, c)
       <==> (row.status == Pending || row.status == Running || row.status == Analyzing)
            && ((match row.heartbeat case Some(h) => h case None => row.created)
                  < now - (if c.stall < c.absolute then c.stall else c.absolute)
                || (match row.runStarted case Some(s) => s case None => row.created) < now - c.absolute)
  {}

  /** What the sweeper frees. */
  lemma ReleasableIff(holder: Option<Row>, now: int, c: Limits)
    ensures IsReleasable(holder, now, c)
       <==> match holder
            case None => true
            case Some(row) =>
              row.status == Completed || row.status == Failed || row.status == Cancelled
              || (match row.heartbeat case Some(h) => h case None => row.created) < now - c.stall
  {}

  /** The sweeper frees a live-looking holder's lock only when the watchdog would reap it,
      for every setting of the two thresholds. */
  lemma SweeperImpliesWatchdog(row: Row, now: int, c: Limits)
    requires !Terminal(row.status) && IsReleasable(Some(row), now, c)
    ensures IsReaped(row, now, c)
  {}

  /** The guard never calls alive what the watchdog calls stalled unless the settings put the
      stall threshold above the backstop; then it does, for a heartbeat between the two. */
  lemma GuardContradictsWatchdogIff(minutes: Env, hours: Env)
    ensures var c := Configured(minutes, hours);
            (exists row: Row, now: int :: IsDuplicate(row, now, c) && IsStalled(row, now, c)) <==> c.stall > c.absolute
  {
    var c := Configured(minutes, hours);
    if c.stall > c.absolute {
      var row := Row("main", Running, Some(0), 0, None);
      assert IsDuplicate(row, c.absolute + 1, c) && IsStalled(row, c.absolute + 1, c);
    }
  }

  /** When a scan is nobody's, neither alive to the guard nor dead to the watchdog: exactly when
      its last heartbeat is as old as the stall threshold, the threshold does not exceed the
      backstop, and the backstop has not passed either. The sweeper does not help then. */
  lemma BoundaryGapIff(row: Row, now: int, c: Limits)
    requires (row.status.Running? || row.status.Analyzing?) && row.heartbeat.Some?
    ensures !IsDuplicate(row, now, c) && !IsReaped(row, now, c)
       <==> now - row.heartbeat.value == c.stall && c.stall <= c.absolute && !IsTooOld(row, now, c)
    ensures !IsDuplicate(row, now, c) && !IsReaped(row, now, c) ==> !IsReleasable(Some(row), now, c)
  {}

  /** Under every setting with the threshold inside the backstop some scan falls into the gap. */
  lemma BoundaryGap(c: Limits)
    requires c.stall <= c.absolute
    ensures var row := Row("main", Running, Some(0), 0, None);
            !IsDuplicate(row, c.stall, c) && !IsReaped(row, c.stall, c)
  {
    BoundaryGapIff(Row("main", Running, Some(0), 0, None), c.stall, c);
  }

  // ---------- The protocol ----------

  type JobId = nat
  type ExecId = nat

  /** `landed` once the RUNNING commit is in. */
  datatype Exec = Exec(job: JobId, landed: bool)

  datatype Lock = Lock(holder: JobId, token: ExecId)

  datatype World = World(now: int, rows: map<JobId, Row>, locks: map<string, Lock>, execs: map<ExecId, Exec>)

  datatype Step =
    | Tick(elapsed: nat)
    | Enqueue(job: JobId, branch: string)
    | Deliver(exec: ExecId, job: JobId)
    | Land(exec: ExecId)
    | Progress(exec: ExecId, status: Status)
    | Complete(exec: ExecId, status: Status)
    | Die(exec: ExecId)
    | CancelJob(job: JobId)
    | Reap(jobs: set<JobId>, killed: set<ExecId>)
    | Sweep(branches: set<string>)

  function Holder(w: World, branch: string): Option<Row>
    requires branch in w.locks
  {
    if w.locks[branch].holder in w.rows then Some(w.rows[w.locks[branch].holder]) else None
  }

  predicate LandedExec(w: World, e: ExecId) {
    e in w.execs && w.execs[e].landed && w.execs[e].job in w.rows
  }

  predicate Enabled(w: World, c: Limits, step: Step) {
    match step
    case Tick(_) => true
    case Enqueue(job, _) => job !in w.rows
    case Deliver(e, job) => e !in w.execs && job in w.rows
    case Land(e) => e in w.execs && !w.execs[e].landed && w.execs[e].job in w.rows
    case Progress(e, status) => LandedExec(w, e) && (status.Running? || status.Analyzing?)
    case Complete(e, status) => LandedExec(w, e) && Terminal(status)
    case Die(e) => e in w.execs
    case CancelJob(job) => job in w.rows
    case Reap(jobs, killed) =>
      |jobs| <= 500
      && (forall job :: job in jobs ==> job in w.rows && IsReaped(w.rows[job], w.now, c))
      && (forall e :: e in killed ==> e in w.execs && w.execs[e].job in jobs)
    case Sweep(branches) =>
      forall branch :: branch in branches ==> branch in w.locks && IsReleasable(Holder(w, branch), w.now, c)
  }

  function SetRow(w: World, job: JobId, row: Row): World {
    w.(rows := w.rows[job := row])
  }

  /** The lock is given back only while it still carries this holder and token. */
  function Release(locks: map<string, Lock>, branch: string, mine: Lock): map<string, Lock> {
    if branch in locks && locks[branch] == mine then locks - {branch} else locks
  }

  function Next(w: World, c: Limits, step: Step): World
    requires Enabled(w, c, step)
  {
    match step
    case Tick(elapsed) => w.(now := w.now + elapsed)
    case Enqueue(job, branch) => SetRow(w, job, Row(branch, Pending, None, w.now, None))
    case Deliver(e, job) =>
      var row := w.rows[job];
      if IsDuplicate(row, w.now, c) then w
      else if row.branch in w.locks && w.locks[row.branch].holder != job then
        SetRow(w, job, row.(status := Cancelled))
      else w.(locks := w.locks[row.branch := Lock(job, e)], execs := w.execs[e := Exec(job, false)])
    case Land(e) =>
      var job := w.execs[e].job;
      SetRow(w, job, w.rows[job].(status := Running, heartbeat := Some(w.now))).(execs := w.execs[e := Exec(job, true)])
    case Progress(e, status) =>
      var job := w.execs[e].job;
      SetRow(w, job, w.rows[job].(status := status, heartbeat := Some(w.now)))
    case Complete(e, status) =>
      var job := w.execs[e].job;
      SetRow(w, job, w.rows[job].(status := status)).(locks := Release(w.locks, w.rows[job].branch, Lock(job, e)),
                                                               execs := w.execs - {e})
    case Die(e) => w.(execs := w.execs - {e})
    case CancelJob(job) => SetRow(w, job, w.rows[job].(status := Cancelled))
    case Reap(jobs, killed) =>
      w.(rows := map job | job in w.rows :: if job in jobs then w.rows[job].(status := Failed) else w.rows[job],
         execs := w.execs - killed)
    case Sweep(branches) => w.(locks := w.locks - branches)
  }

  // ---------- Runs ----------

  ghost predicate Runs(w: World, c: Limits, steps: seq<Step>)
    decreases |steps|
  {
    steps == [] || (Enabled(w, c, steps[0]) && Runs(Next(w, c, steps[0]), c, steps[1..]))
  }

  ghost function After(w: World, c: Limits, steps: seq<Step>): World
    requires Runs(w, c, steps)
    decreases |steps|
  {
    if steps == [] then w else After(Next(w, c, steps[0]), c, steps[1..])
  }

  /** No row dates from the future. */
  ghost predicate Timely(w: World) {
    forall job :: job in w.rows ==> RunStart(w.rows[job]) <= w.now
  }

  // ---------- What the steps do ----------

  /** Completing takes away the lock of its branch exactly when the lock carries this job and
      this token, leaves every other lock, closes the row and ends the execution. */
  lemma CompletionFreesBranchIff(w: World, c: Limits, e: ExecId, status: Status)
    requires Enabled(w, c, Complete(e, status))
    ensures var job := w.execs[e].job;
            var branch, w' := w.rows[job].branch, Next(w, c, Complete(e, status));
            && (branch in w.locks ==> (branch !in w'.locks <==> w.locks[branch].holder == job && w.locks[branch].token == e))
            && (forall other :: other in w'.locks <==> other in w.locks && !(other == branch && w.locks[branch] == Lock(job, e)))
            && (forall other :: other in w'.locks ==> w'.locks[other] == w.locks[other])
            && e !in w'.execs && w'.rows[job] == w.rows[job].(status := status)
  {}

  /** So a pending job of the branch starts on its next delivery once the owner has completed. */
  lemma NextJobStartsAfterCompletion(w: World, c: Limits, e: ExecId, status: Status, f: ExecId, job: JobId)
    requires Enabled(w, c, Complete(e, status)) && job in w.rows && job != w.execs[e].job
    requires w.rows[job].status.Pending? && w.rows[job].branch == w.rows[w.execs[e].job].branch
    requires w.rows[job].branch in w.locks && w.locks[w.rows[job].branch] == Lock(w.execs[e].job, e)
    requires f !in w.execs
    ensures var w' := Next(w, c, Complete(e, status));
            Enabled(w', c, Deliver(f, job)) &&
            var started := Next(w', c, Deliver(f, job));
            && f in started.execs && started.execs[f] == Exec(job, false)
            && started.rows[job] == w.rows[job] && started.locks[w.rows[job].branch] == Lock(job, f)
  {}

  /** Executions that died, or were killed by the watchdog, without giving their lock back. */
  function DiedIn(step: Step): set<ExecId> {
    match step
    case Die(e) => {e}
    case Reap(_, killed) => killed
    case _ => {}
  }

  function Died(steps: seq<Step>): set<ExecId> {
    if steps == [] then {} else DiedIn(steps[0]) + Died(steps[1..])
  }

  /** Every lock is held by a live execution of its holder on that branch, or its owner died. */
  ghost predicate LocksAreHeld(w: World, dead: set<ExecId>) {
    forall branch :: branch in w.locks ==> IsHeld(w, branch, dead)
  }

  ghost predicate IsHeld(w: World, branch: string, dead: set<ExecId>)
    requires branch in w.locks
  {
    var lock := w.locks[branch];
    lock.token in dead
    || (lock.token in w.execs && w.execs[lock.token].job == lock.holder
        && lock.holder in w.rows && w.rows[lock.holder].branch == branch)
  }

  lemma StepKeepsLocksHeld(w: World, c: Limits, step: Step, dead: set<ExecId>)
    requires LocksAreHeld(w, dead) && Enabled(w, c, step)
    ensures LocksAreHeld(Next(w, c, step), dead + DiedIn(step))
  {
    var w' := Next(w, c, step);
    forall branch | branch in w'.locks ensures IsHeld(w', branch, dead + DiedIn(step)) {
      if branch in w.locks { assert IsHeld(w, branch, dead); }
    }
  }

  lemma {:induction false} RunKeepsLocksHeld(w: World, c: Limits, steps: seq<Step>, dead: set<ExecId>)
    requires LocksAreHeld(w, dead) && Runs(w, c, steps)
    ensures LocksAreHeld(After(w, c, steps), dead + Died(steps))
    decreases |steps|
  {
    if steps == [] {
      assert dead + Died(steps) == dead;
    } else {
      StepKeepsLocksHeld(w, c, steps[0], dead);
      RunKeepsLocksHeld(Next(w, c, steps[0]), c, steps[1..], dead + DiedIn(steps[0]));
      assert dead + DiedIn(steps[0]) + Died(steps[1..]) == dead + Died(steps);
    }
  }

  /** Over every run from a world without locks: a branch stays locked only while its owner is
      at work or when it died. Once every execution of the branch has completed, it is free. */
  lemma BranchIsFreeUnlessOwnerDied(w: World, c: Limits, steps: seq<Step>, branch: string)
    requires w.locks == map[] && Runs(w, c, steps)
    ensures var later := After(w, c, steps);
            branch in later.locks ==>
              var lock := later.locks[branch];
              lock.token in Died(steps)
              || (lock.token in later.execs && later.execs[lock.token].job == lock.holder
                  && lock.holder in later.rows && later.rows[lock.holder].branch == branch)
  {
    RunKeepsLocksHeld(w, c, steps, {});
    assert {} + Died(steps) == Died(steps);
    var later := After(w, c, steps);
    assert branch in later.locks ==> IsHeld(later, branch, Died(steps));
  }

  /** What may happen at any moment: an execution dies, a landed one progresses or completes,
      the watchdog reaps up to five hundred scans that its test picks. */
  lemma AnyMomentSteps(w: World, c: Limits, e: ExecId, status: Status, jobs: set<JobId>)
    ensures e in w.execs ==> Enabled(w, c, Die(e))
    ensures LandedExec(w, e) ==>
              if Terminal(status) then Enabled(w, c, Complete(e, status))
              else Enabled(w, c, Progress(e, status)) <==> status == Running || status == Analyzing
    ensures Enabled(w, c, Reap(jobs, {})) <==>
              |jobs| <= 500 && forall job :: job in jobs ==> job in w.rows && IsReaped(w.rows[job], w.now, c)
  {}

  /** Landing and progress are signs of life: they stamp the moment, so the guard sees the scan. */
  lemma SignsOfLife(w: World, c: Limits, step: Step)
    requires Enabled(w, c, step) && (step.Land? || step.Progress?) && c.stall > 0
    ensures var job, w' := w.execs[step.exec].job, Next(w, c, step);
            && w'.rows[job] == w.rows[job].(status := if step.Land? then Running else step.status, heartbeat := Some(w.now))
            && IsDuplicate(w'.rows[job], w'.now, c) && LandedExec(w', step.exec) && w'.locks == w.locks
  {}

  /** What the watchdog and a cancellation do to the rows, and that neither frees a lock. */
  lemma RowsAreClosed(w: World, c: Limits, step: Step, job: JobId)
    requires Enabled(w, c, step) && (step.Reap? || step.CancelJob?) && job in w.rows
    ensures var w' := Next(w, c, step);
            && job in w'.rows && w'.locks == w.locks
            && w'.rows[job] == (if step.Reap? && job in step.jobs then w.rows[job].(status := Failed)
                                else if step.CancelJob? && job == step.job then w.rows[job].(status := Cancelled)
                                else w.rows[job])
            && w'.execs.Keys == (if step.Reap? then w.execs.Keys - step.killed else w.execs.Keys)
  {}

  /** A delivery that the guard lets through starts an execution with the branch lock unless
      another job has it; then it cancels the row. A new job starts pending. */
  lemma DeliveryOutcomes(w: World, c: Limits, e: ExecId, job: JobId)
    requires Enabled(w, c, Deliver(e, job)) && !IsDuplicate(w.rows[job], w.now, c)
    ensures var branch, w' := w.rows[job].branch, Next(w, c, Deliver(e, job));
            if branch in w.locks && w.locks[branch].holder != job
            then w' == w.(rows := w.rows[job := w.rows[job].(status := Cancelled)])
            else w' == w.(locks := w.locks[branch := Lock(job, e)], execs := w.execs[e := Exec(job, false)])
  {}

  lemma NewJobIsPending(w: World, c: Limits, job: JobId, branch: string)
    requires Enabled(w, c, Enqueue(job, branch))
    ensures Next(w, c, Enqueue(job, branch)) == w.(rows := w.rows[job := Row(branch, Pending, None, w.now, None)])
  {}

  // ---------- An execution that keeps its heartbeat ----------

  predicate HoldsBranch(w: World, job: JobId) {
    job in w.rows && w.rows[job].branch in w.locks && w.locks[w.rows[job].branch].holder == job
  }

  /** Execution `e` has landed, its scan is under way, and its job holds the branch lock. There
      may be other executions of the job, delivered before this one landed. */
  ghost predicate Guarded(w: World, e: ExecId) {
    LandedExec(w, e) && HoldsBranch(w, w.execs[e].job) &&
    var row := w.rows[w.execs[e].job];
    (row.status.Running? || row.status.Analyzing?)
    && row.heartbeat.Some? && RunStart(row) <= row.heartbeat.value <= w.now
  }

  /** It heartbeats within the stall threshold and is younger than the backstop. */
  predicate Fresh(w: World, c: Limits, e: ExecId) {
    LandedExec(w, e) &&
    var row := w.rows[w.execs[e].job];
    row.heartbeat.Some? && w.now - row.heartbeat.value < c.stall && w.now - RunStart(row) <= c.absolute
  }

  /** Steps that end the execution or its scan: it dies, an execution of its job completes, or
      someone cancels the job. */
  predicate Ends(w: World, step: Step, e: ExecId) {
    (step.Die? && step.exec == e)
    || (step.Complete? && step.exec in w.execs && e in w.execs && w.execs[step.exec].job == w.execs[e].job)
    || (step.CancelJob? && e in w.execs && step.job == w.execs[e].job)
  }

  lemma FreshIsNotReaped(w: World, c: Limits, e: ExecId)
    requires Guarded(w, e) && Fresh(w, c, e)
    ensures !IsReaped(w.rows[w.execs[e].job], w.now, c)
    ensures !IsReleasable(Some(w.rows[w.execs[e].job]), w.now, c)
    ensures IsDuplicate(w.rows[w.execs[e].job], w.now, c)
  {}

  /** Every redelivery of a job whose scan is under way with a fresh heartbeat is skipped and
      changes nothing, whoever holds the lock and however many executions there are. */
  lemma RedeliveryIsSkipped(w: World, c: Limits, job: JobId, e: ExecId)
    requires job in w.rows && e !in w.execs
    requires w.rows[job].status.Running? || w.rows[job].status.Analyzing?
    requires w.rows[job].heartbeat.Some? && w.now - w.rows[job].heartbeat.value < c.stall
    ensures Enabled(w, c, Deliver(e, job)) && Next(w, c, Deliver(e, job)) == w
  {}

  lemma StepKeepsGuarded(w: World, c: Limits, step: Step, e: ExecId)
    requires Guarded(w, e) && Fresh(w, c, e) && Timely(w)
    requires Enabled(w, c, step) && !Ends(w, step, e)
    ensures Guarded(Next(w, c, step), e) && Next(w, c, step).execs[e] == w.execs[e]
    ensures Timely(Next(w, c, step))
  {
    FreshIsNotReaped(w, c, e);
    var branch := w.rows[w.execs[e].job].branch;
    assert step.Sweep? && branch in step.branches ==> IsReleasable(Holder(w, branch), w.now, c);
  }

  /** Along the run the execution is fresh whenever anything happens, and nothing ends it. */
  ghost predicate KeptAlive(w: World, c: Limits, steps: seq<Step>, e: ExecId)
    requires Runs(w, c, steps)
    decreases |steps|
  {
    steps == [] || (Fresh(w, c, e) && !Ends(w, steps[0], e) && KeptAlive(Next(w, c, steps[0]), c, steps[1..], e))
  }

  lemma {:induction false} RunKeepsGuarded(w: World, c: Limits, steps: seq<Step>, e: ExecId)
    requires Guarded(w, e) && Timely(w) && Runs(w, c, steps) && KeptAlive(w, c, steps, e)
    ensures Guarded(After(w, c, steps), e) && After(w, c, steps).execs[e] == w.execs[e]
    decreases |steps|
  {
    if steps != [] {
      StepKeepsGuarded(w, c, steps[0], e);
      RunKeepsGuarded(Next(w, c, steps[0]), c, steps[1..], e);
    }
  }

  /** Liveness agreement: in any world, once the RUNNING commit of an execution has landed while
      its job held the branch, then over every run in which it heartbeats within the stall
      threshold, is younger than the backstop and is not ended, it is never reaped and its job
      never loses the branch. */
  lemma LiveExecutionIsLeftAlone(w: World, c: Limits, e: ExecId, steps: seq<Step>)
    requires Timely(w) && Enabled(w, c, Land(e)) && HoldsBranch(w, w.execs[e].job)
    requires Runs(Next(w, c, Land(e)), c, steps) && KeptAlive(Next(w, c, Land(e)), c, steps, e)
    ensures var later := After(Next(w, c, Land(e)), c, steps);
            Guarded(later, e) && later.execs[e] == Exec(w.execs[e].job, true)
  {
    RunKeepsGuarded(Next(w, c, Land(e)), c, steps, e);
  }

  // ---------- Mutual exclusion ----------

  /** Execution `e`, landed or not, is the only one of its job and holds the branch lock. */
  ghost predicate Owns(w: World, e: ExecId)
    requires e in w.execs
  {
    var job := w.execs[e].job;
    && job in w.rows
    && w.rows[job].branch in w.locks && w.locks[w.rows[job].branch] == Lock(job, e)
    && (forall other :: other in w.execs && w.execs[other].job == job ==> other == e)
    && (w.execs[e].landed ==>
          var row := w.rows[job];
          !row.status.Pending? && row.heartbeat.Some? && RunStart(row) <= row.heartbeat.value <= w.now)
  }

  ghost predicate AllOwn(w: World) {
    Timely(w) && forall e :: e in w.execs ==> Owns(w, e)
  }

  predicate SameBranch(w: World, e: ExecId, f: ExecId)
    requires e in w.execs && f in w.execs
  {
    w.execs[e].job in w.rows && w.execs[f].job in w.rows
    && w.rows[w.execs[e].job].branch == w.rows[w.execs[f].job].branch
  }

  ghost predicate Exclusive(w: World) {
    forall e, f :: e in w.execs && f in w.execs && SameBranch(w, e, f) ==> e == f
  }

  /** What a delivery does to sole ownership, decided by what the guard sees: it is kept exactly
      when the guard calls the job alive or no execution of the job exists. */
  lemma DeliveryKeepsOwnersIff(w: World, c: Limits, e: ExecId, job: JobId)
    requires AllOwn(w) && Enabled(w, c, Deliver(e, job))
    ensures AllOwn(Next(w, c, Deliver(e, job)))
       <==> IsDuplicate(w.rows[job], w.now, c) || forall other :: other in w.execs ==> w.execs[other].job != job
  {
    var w' := Next(w, c, Deliver(e, job));
    if !IsDuplicate(w.rows[job], w.now, c) {
      if other :| other in w.execs && w.execs[other].job == job {
        assert Owns(w, other);
        assert w'.execs[e].job == w'.execs[other].job == job;
        assert !Owns(w', e);
      } else {
        forall other | other in w'.execs ensures Owns(w', other) {
          assert other != e ==> Owns(w, other);
        }
      }
    }
  }

  /** What a sweep does to it: it is kept exactly when the sweep frees no execution's branch. */
  lemma SweepKeepsOwnersIff(w: World, c: Limits, branches: set<string>)
    requires AllOwn(w) && Enabled(w, c, Sweep(branches))
    ensures AllOwn(Next(w, c, Sweep(branches)))
       <==> forall e :: e in w.execs ==> Spared(w, Sweep(branches), w.execs[e].job)
  {
    var w' := Next(w, c, Sweep(branches));
    forall e | e in w.execs ensures Owns(w', e) <==> Spared(w, Sweep(branches), w.execs[e].job) {
      assert Owns(w, e);
    }
  }

  /** Landed executions are fresh while their scan is under way; a job is delivered again only
      once its executions have landed, and not while one of them outlives its cancelled scan;
      and the sweeper does not free the branch of an execution that has not landed or whose
      scan is over. */
  ghost predicate Orderly(w: World, c: Limits, step: Step)
    requires Enabled(w, c, step)
  {
    && (forall e :: UnderWay(w, e) ==> Fresh(w, c, e))
    && (step.Deliver? ==> forall e :: e in w.execs && w.execs[e].job == step.job ==> UnderWay(w, e))
    && (forall e :: e in w.execs && !UnderWay(w, e) ==> Spared(w, step, w.execs[e].job))
  }

  predicate UnderWay(w: World, e: ExecId) {
    LandedExec(w, e) && !Terminal(w.rows[w.execs[e].job].status)
  }

  predicate Spared(w: World, step: Step, job: JobId) {
    step.Sweep? && job in w.rows ==> w.rows[job].branch !in step.branches
  }

  /** The sweeper spares a job by itself while its row is young. */
  lemma YoungRowIsSpared(w: World, c: Limits, step: Step, job: JobId)
    requires Enabled(w, c, step) && HoldsBranch(w, job) && !Terminal(w.rows[job].status)
    requires w.now - LastSign(w.rows[job]) <= c.stall
    ensures Spared(w, step, job)
  {
    var branch := w.rows[job].branch;
    assert step.Sweep? && branch in step.branches ==> IsReleasable(Holder(w, branch), w.now, c);
  }

  ghost predicate OrderlyRun(w: World, c: Limits, steps: seq<Step>)
    requires Runs(w, c, steps)
    decreases |steps|
  {
    steps == [] || (Orderly(w, c, steps[0]) && OrderlyRun(Next(w, c, steps[0]), c, steps[1..]))
  }

  lemma OwnerIsGuarded(w: World, e: ExecId)
    requires UnderWay(w, e) && Owns(w, e)
    ensures Guarded(w, e)
  {}

  /** No owner loses its lock to the sweeper. */
  lemma OwnerIsSpared(w: World, c: Limits, step: Step, e: ExecId)
    requires e in w.execs && Owns(w, e) && Enabled(w, c, step) && Orderly(w, c, step)
    ensures Spared(w, step, w.execs[e].job)
  {
    if UnderWay(w, e) {
      OwnerIsGuarded(w, e);
      FreshIsNotReaped(w, c, e);
      YoungRowIsSpared(w, c, step, w.execs[e].job);
    }
  }

  lemma StepKeepsOwner(w: World, c: Limits, step: Step, e: ExecId)
    requires AllOwn(w) && Enabled(w, c, step) && !step.Deliver?
    requires e in Next(w, c, step).execs && Spared(w, step, w.execs[e].job)
    ensures Owns(Next(w, c, step), e)
  {
    assert Owns(w, e);
    if (step.Land? || step.Progress? || step.Complete?) && step.exec in w.execs {
      assert Owns(w, step.exec);
    }
  }

  lemma StepKeepsAllOwn(w: World, c: Limits, step: Step)
    requires AllOwn(w) && Enabled(w, c, step) && Orderly(w, c, step)
    ensures AllOwn(Next(w, c, step))
  {
    if step.Deliver? {
      forall e | e in w.execs && w.execs[e].job == step.job ensures IsDuplicate(w.rows[step.job], w.now, c) {
        OwnerIsGuarded(w, e);
        FreshIsNotReaped(w, c, e);
      }
      DeliveryKeepsOwnersIff(w, c, step.exec, step.job);
    } else {
      forall e | e in Next(w, c, step).execs ensures Owns(Next(w, c, step), e) {
        OwnerIsSpared(w, c, step, e);
        StepKeepsOwner(w, c, step, e);
      }
    }
  }

  lemma {:induction false} RunKeepsAllOwn(w: World, c: Limits, steps: seq<Step>)
    requires AllOwn(w) && Runs(w, c, steps) && OrderlyRun(w, c, steps)
    ensures AllOwn(After(w, c, steps))
    decreases |steps|
  {
    if steps != [] {
      StepKeepsAllOwn(w, c, steps[0]);
      RunKeepsAllOwn(Next(w, c, steps[0]), c, steps[1..]);
    }
  }

  /** Mutual exclusion: over every orderly run from a world without executions, no two
      executions share a branch, and every landed one whose scan is not over is guarded. */
  lemma OneExecutionPerBranch(w: World, c: Limits, steps: seq<Step>)
    requires w.execs == map[] && Timely(w) && Runs(w, c, steps) && OrderlyRun(w, c, steps)
    ensures var later := After(w, c, steps);
            && Exclusive(later)
            && forall e :: UnderWay(later, e) ==> Guarded(later, e)
  {
    RunKeepsAllOwn(w, c, steps);
    var later := After(w, c, steps);
    forall e, f | e in later.execs && f in later.execs && SameBranch(later, e, f) ensures e == f {
      assert Owns(later, e) && Owns(later, f);
    }
    forall e | UnderWay(later, e) ensures Guarded(later, e) {
      OwnerIsGuarded(later, e);
    }
  }

  lemma OneStep(w: World, c: Limits, steps: seq<Step>, w': World)
    requires steps != [] && Enabled(w, c, steps[0]) && Next(w, c, steps[0]) == w'
    requires Runs(w', c, steps[1..])
    ensures Runs(w, c, steps) && After(w, c, steps) == After(w', c, steps[1..])
  {}

  /** Two deliveries of a pending job, before either has landed. */
  function DoubleDelivery(): seq<Step> {
    [Deliver(1, 7), Deliver(2, 7), Land(1), Land(2)]
  }

  /** Before the first RUNNING commit nothing protects: two deliveries of one job both pass
      the guard, share the re-entrant lock, and land. */
  lemma TwoDeliveriesBothLand(c: Limits)
    ensures var w := World(0, map[7 := Row("main", Pending, None, 0, None)], map[], map[]);
            Runs(w, c, DoubleDelivery())
            && LandedExec(After(w, c, DoubleDelivery()), 1) && LandedExec(After(w, c, DoubleDelivery()), 2)
  {
    var pending := Row("main", Pending, None, 0, None);
    var running := pending.(status := Running, heartbeat := Some(0));
    var w0 := World(0, map[7 := pending], map[], map[]);
    var w1 := World(0, map[7 := pending], map["main" := Lock(7, 1)], map[1 := Exec(7, false)]);
    var w2 := World(0, map[7 := pending], map["main" := Lock(7, 2)], map[1 := Exec(7, false), 2 := Exec(7, false)]);
    var w3 := World(0, map[7 := running], map["main" := Lock(7, 2)], map[1 := Exec(7, true), 2 := Exec(7, false)]);
    var w4 := World(0, map[7 := running], map["main" := Lock(7, 2)], map[1 := Exec(7, true), 2 := Exec(7, true)]);
    var s := DoubleDelivery();
    assert Next(w3, c, Land(2)) == w4 && Next(w2, c, Land(1)) == w3;
    OneStep(w3, c, s[3..], w4);
    OneStep(w2, c, s[2..], w3);
    OneStep(w1, c, s[1..], w2);
    OneStep(w0, c, s, w1);
  }

  /** A dead scan is delivered again, its branch is swept before the new execution lands, and
      another job of the branch comes in. */
  function SweptRun(): seq<Step> {
    [Deliver(1, 7), Sweep({"main"}), Deliver(2, 8), Land(1), Land(2)]
  }

  lemma SweptBeforeLandingSharesTheBranch(c: Limits)
    requires c.stall > 0
    ensures var dead := Row("main", Running, Some(0), 0, None);
            var w := World(c.stall + 1, map[7 := dead, 8 := Row("main", Pending, None, 0, None)], map[], map[]);
            Runs(w, c, SweptRun())
            && LandedExec(After(w, c, SweptRun()), 1) && LandedExec(After(w, c, SweptRun()), 2)
            && !Exclusive(After(w, c, SweptRun()))
  {
    var now, dead, pending := c.stall + 1, Row("main", Running, Some(0), 0, None), Row("main", Pending, None, 0, None);
    var live, landed := dead.(heartbeat := Some(now)), pending.(status := Running, heartbeat := Some(now));
    var w0 := World(now, map[7 := dead, 8 := pending], map[], map[]);
    var w1 := w0.(locks := map["main" := Lock(7, 1)], execs := map[1 := Exec(7, false)]);
    var w2 := w1.(locks := map[]);
    var w3 := w2.(locks := map["main" := Lock(8, 2)], execs := map[1 := Exec(7, false), 2 := Exec(8, false)]);
    var w4 := w3.(rows := map[7 := live, 8 := pending], execs := map[1 := Exec(7, true), 2 := Exec(8, false)]);
    var w5 := w4.(rows := map[7 := live, 8 := landed], execs := map[1 := Exec(7, true), 2 := Exec(8, true)]);
    var s := SweptRun();
    OneStep(w4, c, s[4..], w5);
    OneStep(w3, c, s[3..], w4);
    OneStep(w2, c, s[2..], w3);
    assert Holder(w1, "main") == Some(dead) && map["main" := Lock(7, 1)] - {"main"} == map[];
    OneStep(w1, c, s[1..], w2);
    OneStep(w0, c, s, w1);
    assert SameBranch(w5, 1, 2);
  }

  /** A running scan is cancelled, its branch swept before its worker notices, and another job
      of the branch comes in. */
  function CancelledRun(): seq<Step> {
    [Deliver(1, 7), Land(1), CancelJob(7), Sweep({"main"}), Deliver(2, 8), Land(2)]
  }

  /** The worlds along that run, from the one where the scan is running. */
  function CancelledWorlds(): seq<World> {
    var pending := Row("main", Pending, None, 0, None);
    var running := pending.(status := Running, heartbeat := Some(0));
    var w := World(0, map[7 := running, 8 := pending], map["main" := Lock(7, 1)], map[1 := Exec(7, true)]);
    var cancelled := w.(rows := map[7 := running.(status := Cancelled), 8 := pending]);
    var swept := cancelled.(locks := map[]);
    var both := swept.(locks := map["main" := Lock(8, 2)], execs := map[1 := Exec(7, true), 2 := Exec(8, false)]);
    [w, cancelled, swept, both,
     both.(rows := map[7 := running.(status := Cancelled), 8 := running], execs := map[1 := Exec(7, true), 2 := Exec(8, true)])]
  }

  lemma CancelledRunEnds(c: Limits)
    ensures Runs(CancelledWorlds()[0], c, CancelledRun()[2..])
    ensures After(CancelledWorlds()[0], c, CancelledRun()[2..]) == CancelledWorlds()[4]
  {
    var s, w := CancelledRun(), CancelledWorlds();
    OneStep(w[3], c, s[5..], w[4]);
    OneStep(w[2], c, s[4..], w[3]);
    assert Holder(w[1], "main") == Some(w[1].rows[7]) && map["main" := Lock(7, 1)] - {"main"} == map[];
    OneStep(w[1], c, s[3..], w[2]);
    OneStep(w[0], c, s[2..], w[1]);
  }

  ghost predicate BothAlive(w: World, c: Limits) {
    LandedExec(w, 1) && LandedExec(w, 2) && Fresh(w, c, 1) && Fresh(w, c, 2) && !Exclusive(w)
  }

  lemma CancelledWorldHasBoth(c: Limits)
    requires c.stall > 0 && c.absolute >= 0
    ensures BothAlive(CancelledWorlds()[4], c)
  {
    assert SameBranch(CancelledWorlds()[4], 1, 2);
  }

  lemma CancelledScanSharesTheBranch(c: Limits)
    requires c.stall > 0 && c.absolute >= 0
    ensures var pending := Row("main", Pending, None, 0, None);
            var w := World(0, map[7 := pending, 8 := pending], map[], map[]);
            Runs(w, c, CancelledRun()) && BothAlive(After(w, c, CancelledRun()), c)
  {
    var pending := Row("main", Pending, None, 0, None);
    var w0 := World(0, map[7 := pending, 8 := pending], map[], map[]);
    var w1 := w0.(locks := map["main" := Lock(7, 1)], execs := map[1 := Exec(7, false)]);
    CancelledRunEnds(c);
    OneStep(w1, c, CancelledRun()[1..], CancelledWorlds()[0]);
    OneStep(w0, c, CancelledRun(), w1);
    CancelledWorldHasBoth(c);
  }

  // ---------- Recovery ----------

  /** A worker that died does not block its branch for ever: once the stall threshold has
      passed since its last sign of life, the watchdog may reap its row, the sweeper may free
      its lock, and a redelivery of the job starts a new execution unless another job holds
      the branch, in which case it cancels the row. */
  lemma DeadWorkerIsRecovered(w: World, c: Limits, job: JobId, elapsed: nat, e: ExecId)
    requires job in w.rows && !Terminal(w.rows[job].status) && e !in w.execs
    requires w.now + elapsed - LastSign(w.rows[job]) > c.stall
    ensures var later := Next(w, c, Tick(elapsed));
            var branch := later.rows[job].branch;
            var redelivered := Next(later, c, Deliver(e, job));
            && Enabled(later, c, Reap({job}, {}))
            && (branch in later.locks && later.locks[branch].holder == job ==>
                  Enabled(later, c, Sweep({branch})) && branch !in Next(later, c, Sweep({branch})).locks)
            && (if branch in later.locks && later.locks[branch].holder != job
                then e !in redelivered.execs && redelivered.rows[job].status == Cancelled
                else e in redelivered.execs && redelivered.locks[branch] == Lock(job, e))
  {}
}
