// The notification retry queue: one tick over a bounded batch of due rows, and what becomes
// of a row over any number of ticks.
module RetryQueue {
  import opened Prelude

  datatype Status = PendingRetry | Succeeded | DeadLettered | PermanentFailure

  /** Times are in seconds. A delivery is recorded after its first attempt has failed. */
  datatype Delivery = Delivery(status: Status, attempts: nat, nextRetry: Option<int>, closedAt: Option<int>)

  /** What a retry meets. */
  datatype Fate = ConfigGone | BadPayload | Sent | Rejected | Transient

  const BACKOFF: seq<int> := [60, 300, 900, 3600, 21600]
  const MAX_RETRY_ATTEMPTS := 5
  const BATCH_LIMIT := 150

  function Recorded(created: int): Delivery {
    Delivery(PendingRetry, 1, Some(created + BACKOFF[0]), None)
  }

  predicate IsDue(row: Delivery, now: int) {
    row.status.PendingRetry? && row.nextRetry.Some? && row.nextRetry.value <= now
  }

  function Retried(row: Delivery, fate: Fate, now: int): Delivery {
    match fate
    case ConfigGone => row.(status := DeadLettered, closedAt := Some(now))
    case BadPayload => row.(status := DeadLettered, closedAt := Some(now))
    case Sent => Delivery(Succeeded, row.attempts + 1, None, Some(now))
    case Rejected => Delivery(PermanentFailure, row.attempts + 1, None, Some(now))
    case Transient =>
      if row.attempts >= MAX_RETRY_ATTEMPTS then Delivery(DeadLettered, row.attempts + 1, None, Some(now))
      else
        var slot := if row.attempts < MAX_RETRY_ATTEMPTS - 1 then row.attempts else MAX_RETRY_ATTEMPTS - 1;
        row.(attempts := row.attempts + 1, nextRetry := Some(now + BACKOFF[slot]))
  }

  /** What each fate makes of a waiting row: the status it ends in, whether an attempt is
      counted, and when it is due again. */
  lemma FatesDecide(row: Delivery, now: int)
    requires row.status.PendingRetry?
    ensures var sent := Retried(row, Sent, now);
            sent == Delivery(Succeeded, row.attempts + 1, None, Some(now))
    ensures var rejected := Retried(row, Rejected, now);
            rejected == Delivery(PermanentFailure, row.attempts + 1, None, Some(now))
    ensures Retried(row, ConfigGone, now) == Retried(row, BadPayload, now)
         == Delivery(DeadLettered, row.attempts, row.nextRetry, Some(now))
    ensures var again := Retried(row, Transient, now);
            && again.attempts == row.attempts + 1
            && (row.attempts >= 5 ==> again.status == DeadLettered && again.nextRetry == None && again.closedAt == Some(now))
            && (row.attempts < 5 ==> again.status == PendingRetry && again.closedAt == row.closedAt)
            && (row.attempts == 1 ==> again.nextRetry == Some(now + 300))
            && (row.attempts == 2 ==> again.nextRetry == Some(now + 900))
            && (row.attempts == 3 ==> again.nextRetry == Some(now + 3600))
            && (row.attempts == 4 ==> again.nextRetry == Some(now + 21600))
  {}

  /** A failed first attempt is due a minute later. */
  lemma FirstRetryInAMinute(created: int, now: int)
    ensures IsDue(Recorded(created), now) <==> now >= created + 60
    ensures Recorded(created).attempts == 1
  {}

  datatype Stats = Stats(processed: nat, succeeded: nat, stillRetrying: nat, deadLettered: nat)

  // ---------- One tick ----------

  /** The rows a tick picks: due, distinct, oldest first, all of them unless there are more
      than the limit. */
  ghost predicate IsBatch(rows: seq<Delivery>, now: int, batch: seq<nat>) {
    && |batch| <= BATCH_LIMIT
    && (forall k :: 0 <= k < |batch| ==> batch[k] < |rows| && IsDue(rows[batch[k]], now))
    && AllDistinct(batch)
    && (forall j, k :: 0 <= j < k < |batch| ==> rows[batch[j]].nextRetry.value <= rows[batch[k]].nextRetry.value)
    && (forall i :: 0 <= i < |rows| && IsDue(rows[i], now) && i !in batch ==>
          && |batch| == BATCH_LIMIT
          && forall k :: 0 <= k < |batch| ==> rows[batch[k]].nextRetry.value <= rows[i].nextRetry.value)
  }

  /** A tick leaves a due row out only when 150 others are due at least as long. */
  lemma NoDueRowIsForgotten(rows: seq<Delivery>, now: int, batch: seq<nat>, i: nat)
    requires IsBatch(rows, now, batch) && i < |rows| && IsDue(rows[i], now) && i !in batch
    ensures |batch| == 150
    ensures forall k :: 0 <= k < |batch| ==>
              batch[k] < |rows| && rows[batch[k]].nextRetry.Some?
              && rows[batch[k]].nextRetry.value <= rows[i].nextRetry.value
  {}

  /** How many of the first `n` picked rows end in a given status. */
  ghost function Ending(rows: seq<Delivery>, batch: seq<nat>, fates: seq<Fate>, now: int, n: nat, status: Status): nat
    requires n <= |batch| == |fates| && forall k :: 0 <= k < |batch| ==> batch[k] < |rows|
  {
    if n == 0 then 0
    else Ending(rows, batch, fates, now, n - 1, status)
         + if Retried(rows[batch[n-1]], fates[n-1], now).status == status then 1 else 0
  }

  ghost predicate Tallied(rows: seq<Delivery>, batch: seq<nat>, fates: seq<Fate>, now: int, n: nat, stats: Stats)
    requires n <= |batch| == |fates| && forall k :: 0 <= k < |batch| ==> batch[k] < |rows|
  {
    && stats.succeeded == Ending(rows, batch, fates, now, n, Succeeded)
    && stats.stillRetrying == Ending(rows, batch, fates, now, n, PendingRetry)
    && stats.deadLettered == Ending(rows, batch, fates, now, n, DeadLettered)
                             + Ending(rows, batch, fates, now, n, PermanentFailure)
  }

  /** What one pick does to its row. */
  method Retry(row: Delivery, fate: Fate, now: int) returns (after: Delivery)
    ensures after == Retried(row, fate, now)
  {
    after := row;
    if fate.ConfigGone? || fate.BadPayload? {
      return row.(status := DeadLettered, closedAt := Some(now));
    }
    after := after.(attempts := row.attempts + 1);
    if fate.Sent? {
      after := after.(status := Succeeded, closedAt := Some(now), nextRetry := None);
    } else if fate.Rejected? {
      after := after.(status := PermanentFailure, closedAt := Some(now), nextRetry := None);
    } else if after.attempts > MAX_RETRY_ATTEMPTS {
      after := after.(status := DeadLettered, closedAt := Some(now), nextRetry := None);
    } else {
      var slot := if after.attempts - 1 < MAX_RETRY_ATTEMPTS - 1 then after.attempts - 1 else MAX_RETRY_ATTEMPTS - 1;
      after := after.(nextRetry := Some(now + BACKOFF[slot]));
    }
  }

  /** Which pick of the batch is row `i`, if any. */
  ghost function PickOf(batch: seq<nat>, i: nat): (k: Option<nat>)
    ensures k.Some? ==> k.value < |batch| && batch[k.value] == i
    ensures k.None? ==> i !in batch
  {
    if i in batch then
      var k :| 0 <= k < |batch| && batch[k] == i;
      Some(k)
    else None
  }

  /** The rows after a tick. */
  ghost function Ticked(rows: seq<Delivery>, now: int, batch: seq<nat>, fates: seq<Fate>, collision: bool): seq<Delivery>
    requires |fates| == |batch|
  {
    seq(|rows|, i requires 0 <= i < |rows| =>
      var k := PickOf(batch, i);
      if k.None? || collision then rows[i] else Retried(rows[i], fates[k.value], now))
  }

  class Queue {
    var rows: seq<Delivery>

    constructor ()
      ensures rows == []
    {
      rows := [];
    }

    /** Works through the picked rows in the session. */
    method RetryAll(now: int, batch: seq<nat>, fates: seq<Fate>) returns (stats: Stats)
      requires |fates| == |batch| && AllDistinct(batch) && forall k :: 0 <= k < |batch| ==> batch[k] < |rows|
      modifies this
      ensures stats.processed == |batch| == stats.succeeded + stats.stillRetrying + stats.deadLettered
      ensures Tallied(old(rows), batch, fates, now, |batch|, stats)
      ensures |rows| == |old(rows)|
      ensures forall k :: 0 <= k < |batch| ==> rows[batch[k]] == Retried(old(rows)[batch[k]], fates[k], now)
      ensures forall i :: 0 <= i < |rows| && i !in batch ==> rows[i] == old(rows)[i]
    {
      stats := Stats(|batch|, 0, 0, 0);
      for k := 0 to |batch|
        invariant |rows| == |old(rows)|
        invariant stats.processed == |batch|
        invariant Tallied(old(rows), batch, fates, now, k, stats)
        invariant stats.succeeded + stats.stillRetrying + stats.deadLettered == k
        invariant forall j :: 0 <= j < k ==> rows[batch[j]] == Retried(old(rows)[batch[j]], fates[j], now)
        invariant forall j :: k <= j < |batch| ==> rows[batch[j]] == old(rows)[batch[j]]
        invariant forall i :: 0 <= i < |rows| && i !in batch ==> rows[i] == old(rows)[i]
      {
        var after := Retry(rows[batch[k]], fates[k], now);
        stats := match after.status
          case Succeeded => stats.(succeeded := stats.succeeded + 1)
          case PendingRetry => stats.(stillRetrying := stats.stillRetrying + 1)
          case DeadLettered => stats.(deadLettered := stats.deadLettered + 1)
          case PermanentFailure => stats.(deadLettered := stats.deadLettered + 1);
        rows := rows[batch[k] := after];
      }
    }

    /** One tick; a stale-data collision at the commit rolls everything back. */
    method Tick(now: int, batch: seq<nat>, fates: seq<Fate>, collision: bool) returns (stats: Stats)
      requires IsBatch(rows, now, batch) && |fates| == |batch|
      modifies this
      ensures stats.processed == stats.succeeded + stats.stillRetrying + stats.deadLettered
      ensures collision ==> rows == old(rows) && stats.processed == 0
      ensures !collision ==> stats.processed == |batch| && Tallied(old(rows), batch, fates, now, |batch|, stats)
      ensures rows == Ticked(old(rows), now, batch, fates, collision)
    {
      var saved := rows;
      stats := RetryAll(now, batch, fates);
      if collision {
        rows := saved;
        stats := Stats(0, 0, 0, 0);
      }
    }
  }

  // ---------- One row over its whole life ----------

  /** A tick that picks the row: what the attempt met, and whether the commit collided. */
  datatype Pick = Pick(now: int, fate: Fate, collided: bool)

  function AfterPick(row: Delivery, pick: Pick): Delivery {
    if pick.collided then row else Retried(row, pick.fate, pick.now)
  }

  function AfterPicks(row: Delivery, picks: seq<Pick>): Delivery
    decreases |picks|
  {
    if picks == [] then row else AfterPick(AfterPicks(row, picks[..|picks|-1]), picks[|picks|-1])
  }

  /** A tick only ever picks the row while it is due. */
  ghost predicate Picked(row: Delivery, picks: seq<Pick>)
    decreases |picks|
  {
    picks == [] ||
    (Picked(row, picks[..|picks|-1]) && IsDue(AfterPicks(row, picks[..|picks|-1]), picks[|picks|-1].now))
  }

  /** The picks whose tick committed. */
  function Committed(picks: seq<Pick>): (committed: seq<Pick>)
    ensures |committed| <= |picks|
    decreases |picks|
  {
    if picks == [] then []
    else
      var front, last := Committed(picks[..|picks|-1]), picks[|picks|-1];
      if last.collided then front else front + [last]
  }

  function Collisions(picks: seq<Pick>): nat
    decreases |picks|
  {
    if picks == [] then 0
    else Collisions(picks[..|picks|-1]) + if picks[|picks|-1].collided then 1 else 0
  }

  /** The row is what the committed picks alone make of it. */
  lemma {:induction false} CommittedPicksDecide(row: Delivery, picks: seq<Pick>)
    requires Picked(row, picks)
    ensures AfterPicks(row, picks) == AfterPicks(row, Committed(picks)) && Picked(row, Committed(picks))
    ensures |picks| == |Committed(picks)| + Collisions(picks)
    decreases |picks|
  {
    if picks != [] {
      var front, last := picks[..|picks|-1], picks[|picks|-1];
      CommittedPicksDecide(row, front);
      assert (Committed(front) + [last])[..|Committed(front)|] == Committed(front);
    }
  }

  /** What the waiting times before the first `n` retries add up to. */
  function Patience(n: nat): int
    requires n <= |BACKOFF|
  {
    if n == 0 then 0 else Patience(n - 1) + BACKOFF[n-1]
  }

  ghost predicate AllTransient(picks: seq<Pick>) {
    forall k :: 0 <= k < |picks| ==> picks[k].fate == Transient
  }

  /** A row still waiting after `n` committed retries records `n` + 1 attempts, has met only
      transient failures in them, and is not due again before the first `n` + 1 waiting times
      have passed. */
  lemma {:induction false} WaitingRow(created: int, picks: seq<Pick>)
    requires Picked(Recorded(created), picks) && AfterPicks(Recorded(created), picks).status.PendingRetry?
    ensures |Committed(picks)| < |BACKOFF| && AllTransient(Committed(picks))
    ensures var row := AfterPicks(Recorded(created), picks);
            && row.attempts == |Committed(picks)| + 1
            && row.nextRetry.Some? && row.nextRetry.value >= created + Patience(|Committed(picks)| + 1)
    decreases |picks|
  {
    if picks == [] {
      assert Patience(1) == Patience(0) + BACKOFF[0];
    } else {
      var front := picks[..|picks|-1];
      WaitingRow(created, front);
      if !picks[|picks|-1].collided {
        var n := |Committed(front)|;
        assert Patience(n + 2) == Patience(n + 1) + BACKOFF[n + 1];
      }
    }
  }

  /** However long the queue runs, at most five picks of a row are ever committed; every other
      attempt made for it was rolled back by a collision. */
  lemma {:induction false} RetriesAreBounded(created: int, picks: seq<Pick>)
    requires Picked(Recorded(created), picks)
    ensures |Committed(picks)| <= MAX_RETRY_ATTEMPTS
    ensures |picks| <= MAX_RETRY_ATTEMPTS + Collisions(picks)
  {
    CommittedPicksDecide(Recorded(created), picks);
    if picks != [] {
      WaitingRow(created, picks[..|picks|-1]);
      CommittedSnoc(picks);
    }
  }

  lemma CommittedSnoc(picks: seq<Pick>)
    requires picks != []
    ensures |Committed(picks)| <= |Committed(picks[..|picks|-1])| + 1
  {}

  /** No row records more than six attempts. */
  lemma {:induction false} AttemptsAreBounded(created: int, picks: seq<Pick>)
    requires Picked(Recorded(created), picks)
    ensures AfterPicks(Recorded(created), picks).attempts <= MAX_RETRY_ATTEMPTS + 1
  {
    if picks != [] {
      var before, last := AfterPicks(Recorded(created), picks[..|picks|-1]), picks[|picks|-1];
      WaitingRow(created, picks[..|picks|-1]);
      assert AfterPick(before, last).attempts <= before.attempts + 1;
    }
  }

  /** `n` picks in the same due moment, every one of them rolled back. */
  function Collided(created: int, n: nat): (picks: seq<Pick>)
    ensures |picks| == n
  {
    if n == 0 then [] else Collided(created, n - 1) + [Pick(created + BACKOFF[0], Sent, true)]
  }

  /** Collisions bound nothing: a row can be picked, its notification sent and the tick rolled
      back any number of times, and the row stays as it was recorded. */
  lemma {:induction false} CollisionsAreUnbounded(created: int, n: nat)
    ensures Picked(Recorded(created), Collided(created, n)) && Committed(Collided(created, n)) == []
    ensures AfterPicks(Recorded(created), Collided(created, n)) == Recorded(created)
  {
    if n > 0 {
      CollisionsAreUnbounded(created, n - 1);
      assert Collided(created, n)[..n-1] == Collided(created, n - 1);
    }
  }

  /** A closed row is never due, so no tick touches it again. */
  lemma {:induction false} ClosedIsFinal(row: Delivery, picks: seq<Pick>, more: Pick)
    requires Picked(row, picks) && !AfterPicks(row, picks).status.PendingRetry?
    ensures !Picked(row, picks + [more])
  {
    assert (picks + [more])[..|picks|] == picks && (picks + [more])[|picks|] == more;
  }

  /** A row whose committed picks met only transient failures is dead-lettered at the fifth of
      them, the sixth attempt recorded, and never before every waiting time has been served. */
  lemma {:induction false} ExhaustionTakesAllRetries(created: int, picks: seq<Pick>)
    requires Picked(Recorded(created), picks) && picks != [] && AllTransient(Committed(picks))
    ensures var row := AfterPicks(Recorded(created), picks);
            && (row.status.DeadLettered? <==> |Committed(picks)| == MAX_RETRY_ATTEMPTS)
            && (row.status.DeadLettered? ==> row.attempts == 6 && picks[|picks|-1].now >= created + 26460)
  {
    var front, last := picks[..|picks|-1], picks[|picks|-1];
    WaitingRow(created, front);
    if !last.collided {
      assert Committed(picks)[|Committed(front)|] == last;
    }
    FullPatience();
  }

  lemma FullPatience()
    ensures Patience(5) == 26460
  {
    assert Patience(5) == Patience(4) + 21600 && Patience(4) == Patience(3) + 3600;
    assert Patience(3) == Patience(2) + 900 && Patience(2) == Patience(1) + 300 && Patience(1) == Patience(0) + 60;
  }

  // ---------- The whole queue over any run ----------

  datatype QueueStep =
    | Enqueue(created: int)
    | Work(now: int, batch: seq<nat>, fates: seq<Fate>, collision: bool)

  ghost predicate CanStep(rows: seq<Delivery>, step: QueueStep) {
    step.Work? ==> IsBatch(rows, step.now, step.batch) && |step.fates| == |step.batch|
  }

  ghost function AfterStep(rows: seq<Delivery>, step: QueueStep): seq<Delivery>
    requires CanStep(rows, step)
  {
    match step
    case Enqueue(created) => rows + [Recorded(created)]
    case Work(now, batch, fates, collision) => Ticked(rows, now, batch, fates, collision)
  }

  ghost predicate QueueRuns(rows: seq<Delivery>, steps: seq<QueueStep>)
    decreases |steps|, 0
  {
    steps == [] ||
    (QueueRuns(rows, steps[..|steps|-1]) && CanStep(AfterSteps(rows, steps[..|steps|-1]), steps[|steps|-1]))
  }

  ghost function AfterSteps(rows: seq<Delivery>, steps: seq<QueueStep>): seq<Delivery>
    requires QueueRuns(rows, steps)
    decreases |steps|, 1
  {
    if steps == [] then rows else AfterStep(AfterSteps(rows, steps[..|steps|-1]), steps[|steps|-1])
  }

  /** Over any run of the queue the life of a row is a list of picks. */
  lemma {:induction false} RowLife(rows: seq<Delivery>, steps: seq<QueueStep>, i: nat) returns (picks: seq<Pick>)
    requires QueueRuns(rows, steps) && i < |rows|
    ensures i < |AfterSteps(rows, steps)| && Picked(rows[i], picks)
    ensures AfterSteps(rows, steps)[i] == AfterPicks(rows[i], picks)
    decreases |steps|
  {
    picks := [];
    if steps != [] {
      var before, last := AfterSteps(rows, steps[..|steps|-1]), steps[|steps|-1];
      picks := RowLife(rows, steps[..|steps|-1], i);
      if last.Work? && PickOf(last.batch, i).Some? {
        var pick := Pick(last.now, last.fates[PickOf(last.batch, i).value], last.collision);
        assert IsDue(before[i], last.now);
        assert (picks + [pick])[..|picks|] == picks;
        picks := picks + [pick];
      }
    }
  }

  /** Whatever the ticks do, a recorded row of the queue never records more than six attempts. */
  lemma SixAttemptsAtMost(rows: seq<Delivery>, steps: seq<QueueStep>, i: nat, created: int)
    requires QueueRuns(rows, steps) && i < |rows| && rows[i] == Recorded(created)
    ensures i < |AfterSteps(rows, steps)| && AfterSteps(rows, steps)[i].attempts <= MAX_RETRY_ATTEMPTS + 1
  {
    var picks := RowLife(rows, steps, i);
    AttemptsAreBounded(created, picks);
  }
}
