// The storing phase of a scan: deduplication within the scan, chunked commits, recovery
// from a crash by running again from the start, and the pass that resolves stale rows.
module FindingStore {
  import opened Prelude
  import opened FindingRows

  const STORING_CHUNK_SIZE := 500

  // ---------- Which findings of a scan are kept ----------

  /** Fingerprints among the first `n` findings. */
  function SeenFingerprints(raws: seq<Raw>, n: nat): set<Fingerprint>
    requires n <= |raws|
  {
    if n == 0 then {} else SeenFingerprints(raws, n - 1) + {FingerprintOf(raws[n-1])}
  }

  predicate PassesFingerprint(raws: seq<Raw>, i: nat)
    requires i < |raws|
  {
    FingerprintOf(raws[i]) !in SeenFingerprints(raws, i)
  }

  /** Stability ids among the first `n` findings that passed the fingerprint check: the
      scan's `seen` set. */
  function SeenSids(root: string, raws: seq<Raw>, n: nat): set<Sid>
    requires n <= |raws|
  {
    if n == 0 then {}
    else if PassesFingerprint(raws, n - 1) then SeenSids(root, raws, n - 1) + {SidOf(root, raws[n-1])}
    else SeenSids(root, raws, n - 1)
  }

  predicate IsKept(root: string, raws: seq<Raw>, i: nat)
    requires i < |raws|
  {
    PassesFingerprint(raws, i) && SidOf(root, raws[i]) !in SeenSids(root, raws, i)
  }

  /** The findings among the first `n` that reach the table, in scan order. */
  function Kept(root: string, raws: seq<Raw>, n: nat): seq<Raw>
    requires n <= |raws|
  {
    if n == 0 then []
    else if IsKept(root, raws, n - 1) then Kept(root, raws, n - 1) + [raws[n-1]]
    else Kept(root, raws, n - 1)
  }

  /** Stability ids this scan produced: the ids the bounded probe loads rows for. */
  function ProducedSids(root: string, raws: seq<Raw>): set<Sid> {
    set i | 0 <= i < |raws| :: SidOf(root, raws[i])
  }

  ghost predicate DistinctSids(root: string, raws: seq<Raw>) {
    forall i, j :: 0 <= i < j < |raws| ==> SidOf(root, raws[i]) != SidOf(root, raws[j])
  }

  ghost predicate Carries(root: string, raws: seq<Raw>, sid: Sid) {
    exists k :: 0 <= k < |raws| && SidOf(root, raws[k]) == sid
  }

  lemma CarriesSnoc(root: string, raws: seq<Raw>, raw: Raw, sid: Sid)
    ensures Carries(root, raws + [raw], sid) <==> Carries(root, raws, sid) || sid == SidOf(root, raw)
  {
    var all := raws + [raw];
    assert all[|raws|] == raw;
    if Carries(root, raws, sid) {
      var k :| 0 <= k < |raws| && SidOf(root, raws[k]) == sid;
      assert all[k] == raws[k];
    }
  }

  /** A finding passes the fingerprint check exactly when no earlier one equals it there. */
  lemma {:induction false} SeenFingerprintsMeaning(raws: seq<Raw>, n: nat, fp: Fingerprint)
    requires n <= |raws|
    ensures fp in SeenFingerprints(raws, n) <==> exists j :: 0 <= j < n && FingerprintOf(raws[j]) == fp
  {
    if n > 0 {
      SeenFingerprintsMeaning(raws, n - 1, fp);
      assert n - 1 < n;
    }
  }

  /** The `seen` set is exactly the ids of the kept findings. */
  lemma {:induction false} SeenIsKept(root: string, raws: seq<Raw>, n: nat, sid: Sid)
    requires n <= |raws|
    ensures sid in SeenSids(root, raws, n) <==> Carries(root, Kept(root, raws, n), sid)
  {
    if n > 0 {
      SeenIsKept(root, raws, n - 1, sid);
      CarriesSnoc(root, Kept(root, raws, n - 1), raws[n-1], sid);
    }
  }

  /** Kept findings have pairwise distinct stability ids. */
  lemma {:induction false} KeptIsDistinct(root: string, raws: seq<Raw>, n: nat)
    requires n <= |raws|
    ensures DistinctSids(root, Kept(root, raws, n))
  {
    if n > 0 {
      KeptIsDistinct(root, raws, n - 1);
      SeenIsKept(root, raws, n - 1, SidOf(root, raws[n-1]));
      var before := Kept(root, raws, n - 1);
      assert forall k :: 0 <= k < |before| ==> Carries(root, before, SidOf(root, before[k]));
    }
  }

  // ---------- Running again after a crash ----------

  /** `raw` has been dealt with: its row would not change, up to the counter, if it came
      again; and it has no row only if it is muted. */
  ghost predicate Settled(root: string, rows: seq<Row>, raw: Raw, muted: set<string>) {
    Cores(Applied1(root, rows, raw, muted)) == Cores(rows)
  }

  lemma AppliedSettles(root: string, rows: seq<Row>, raw: Raw, muted: set<string>)
    ensures Settled(root, Applied1(root, rows, raw, muted), raw, muted)
  {
    var sid := SidOf(root, raw);
    var after := Applied1(root, rows, raw, muted);
    if Has(rows, sid) {
      var i := Find(rows, sid);
      assert after[i].sid == sid && Find(after, sid) == i;
      RefreshIsIdempotent(rows[i], raw);
      assert Cores(Applied1(root, after, raw, muted)) == Cores(after);
    } else if !IsMuted(raw, muted) {
      assert after[|rows|].sid == sid;
      assert Find(after, sid) == |rows|;
      RefreshAfterCreate(root, raw);
      assert Cores(Applied1(root, after, raw, muted)) == Cores(after);
    }
  }

  /** Another finding, with another id, leaves a settled one settled. */
  lemma AppliedKeepsSettled(root: string, rows: seq<Row>, raw: Raw, other: Raw, muted: set<string>)
    requires Settled(root, rows, raw, muted)
    requires SidOf(root, raw) != SidOf(root, other)
    ensures Settled(root, Applied1(root, rows, other, muted), raw, muted)
  {
    var sid := SidOf(root, raw);
    var after := Applied1(root, rows, other, muted);
    SameCores(Applied1(root, rows, raw, muted), rows);
    if Has(rows, sid) {
      var i := Find(rows, sid);
      assert after[i] == rows[i] && Find(after, sid) == i;
      assert Core(Refreshed(rows[i], raw)) == Core(rows[i]);
      assert Cores(Applied1(root, after, raw, muted)) == Cores(after);
    } else {
      assert !Has(after, sid);
    }
  }

  lemma {:induction false} StoredSettlesAll(root: string, rows: seq<Row>, kept: seq<Raw>, muted: set<string>, k: nat)
    requires DistinctSids(root, kept) && k < |kept|
    ensures Settled(root, Stored(root, rows, kept, muted), kept[k], muted)
    decreases |kept|
  {
    var front, last := kept[..|kept|-1], kept[|kept|-1];
    if k == |kept| - 1 {
      AppliedSettles(root, Stored(root, rows, front, muted), last, muted);
    } else {
      StoredSettlesAll(root, rows, front, muted, k);
      AppliedKeepsSettled(root, Stored(root, rows, front, muted), front[k], last, muted);
    }
  }

  lemma StoredSnoc(root: string, rows: seq<Row>, kept: seq<Raw>, muted: set<string>, n: nat)
    requires 0 < n <= |kept|
    ensures Stored(root, rows, kept[..n], muted) == Applied1(root, Stored(root, rows, kept[..n-1], muted), kept[n-1], muted)
  {
    assert kept[..n][..n-1] == kept[..n-1];
  }

  /** Replaying findings that a table already holds changes counters only. */
  lemma {:induction false} ReplayChangesCountersOnly(root: string, rows: seq<Row>, kept: seq<Raw>, muted: set<string>, n: nat)
    requires DistinctSids(root, kept) && n <= |kept|
    ensures var once := Stored(root, rows, kept, muted);
            Cores(Stored(root, once, kept[..n], muted)) == Cores(once)
  {
    if n > 0 {
      var once := Stored(root, rows, kept, muted);
      ReplayChangesCountersOnly(root, rows, kept, muted, n - 1);
      StoredSnoc(root, once, kept, muted, n);
      AppliedRespectsCores(root, Stored(root, once, kept[..n-1], muted), once, kept[n-1], muted);
      StoredSettlesAll(root, rows, kept, muted, n - 1);
    }
  }

  lemma ReplayPrefix(root: string, rows: seq<Row>, kept: seq<Raw>, muted: set<string>, m: nat)
    requires DistinctSids(root, kept) && m <= |kept|
    ensures Cores(Stored(root, Stored(root, rows, kept[..m], muted), kept[..m], muted)) == Cores(Stored(root, rows, kept[..m], muted))
  {
    assert kept[..m][..m] == kept[..m];
    ReplayChangesCountersOnly(root, rows, kept[..m], muted, m);
  }

  /** Tables equal up to counters stay so over one more finding. */
  lemma StoredSnocRespectsCores(root: string, a: seq<Row>, b: seq<Row>, kept: seq<Raw>, muted: set<string>, n: nat)
    requires 0 < n <= |kept| && Cores(Stored(root, a, kept[..n-1], muted)) == Cores(Stored(root, b, kept[..n-1], muted))
    ensures Cores(Stored(root, a, kept[..n], muted)) == Cores(Stored(root, b, kept[..n], muted))
  {
    StoredSnoc(root, a, kept, muted, n);
    StoredSnoc(root, b, kept, muted, n);
    AppliedRespectsCores(root, Stored(root, a, kept[..n-1], muted), Stored(root, b, kept[..n-1], muted), kept[n-1], muted);
  }

  /** Replaying a prefix over a table that already holds it changes counters only; what
      follows the prefix then lands as it would have the first time. */
  lemma {:induction false} ReplayCatchesUp(root: string, rows: seq<Row>, kept: seq<Raw>, muted: set<string>, m: nat, n: nat)
    requires DistinctSids(root, kept) && m <= n <= |kept|
    ensures Cores(Stored(root, Stored(root, rows, kept[..m], muted), kept[..n], muted))
         == Cores(Stored(root, rows, kept[..n], muted))
    decreases n
  {
    if n == m {
      ReplayPrefix(root, rows, kept, muted, m);
    } else {
      ReplayCatchesUp(root, rows, kept, muted, m, n - 1);
      StoredSnocRespectsCores(root, Stored(root, rows, kept[..m], muted), rows, kept, muted, n);
    }
  }

  /** The committed table after attempts that crashed having committed `crashes[i]` findings. */
  ghost function AfterCrashes(root: string, rows: seq<Row>, kept: seq<Raw>, muted: set<string>, crashes: seq<nat>): seq<Row>
    requires forall i :: 0 <= i < |crashes| ==> crashes[i] <= |kept|
    decreases |crashes|
  {
    if crashes == [] then rows
    else AfterCrashes(root, Stored(root, rows, kept[..crashes[0]], muted), kept, muted, crashes[1..])
  }

  /** Crash confluence: however often storing crashes and wherever it had committed, running
      it again to the end leaves the rows of one uninterrupted run, in the same order, equal
      in everything but the counter, and never two rows for one stability id. */
  lemma {:induction false} CrashConfluence(root: string, rows: seq<Row>, kept: seq<Raw>, muted: set<string>, crashes: seq<nat>)
    requires Unique(rows) && DistinctSids(root, kept)
    requires forall i :: 0 <= i < |crashes| ==> crashes[i] <= |kept|
    ensures var recovered := Stored(root, AfterCrashes(root, rows, kept, muted, crashes), kept, muted);
            Cores(recovered) == Cores(Stored(root, rows, kept, muted)) && Unique(recovered)
    decreases |crashes|
  {
    if crashes == [] {
      StoredKeepsUnique(root, rows, kept, muted);
    } else {
      var m := crashes[0];
      var first := Stored(root, rows, kept[..m], muted);
      StoredKeepsUnique(root, rows, kept[..m], muted);
      CrashConfluence(root, first, kept, muted, crashes[1..]);
      ReplayCatchesUp(root, rows, kept, muted, m, |kept|);
      assert kept[..|kept|] == kept;
    }
  }

  // ---------- The storing loop ----------

  /** How many of `kept` find a row in `rows` or may create one; the others are muted. */
  ghost function Handled(root: string, rows: seq<Row>, kept: seq<Raw>, muted: set<string>): nat {
    if kept == [] then 0
    else
      var last := kept[|kept|-1];
      Handled(root, rows, kept[..|kept|-1], muted) + if Has(rows, SidOf(root, last)) || !IsMuted(last, muted) then 1 else 0
  }

  /** How many of `kept` are new to `rows` and not muted. */
  ghost function Births(root: string, rows: seq<Row>, kept: seq<Raw>, muted: set<string>): nat {
    if kept == [] then 0
    else
      var last := kept[|kept|-1];
      Births(root, rows, kept[..|kept|-1], muted) + if Has(rows, SidOf(root, last)) || IsMuted(last, muted) then 0 else 1
  }

  /** The table with `kept` stored has one row per id, and the probe is right about `sid`. */
  ghost predicate IsReady(root: string, start: seq<Row>, kept: seq<Raw>, muted: set<string>,
                          existing: map<Sid, nat>, sid: Sid)
  {
    var rows := Stored(root, start, kept, muted);
    Unique(rows) && ProbeAnswers(rows, existing, sid) && ProbeAnswers(start, existing, sid)
  }

  /** The marks of the storing loop after `n` findings. */
  ghost predicate Marked(root: string, raws: seq<Raw>, n: nat, fps: set<Fingerprint>, seen: set<Sid>, kept: seq<Raw>) {
    && n <= |raws|
    && fps == SeenFingerprints(raws, n)
    && seen == SeenSids(root, raws, n)
    && kept == Kept(root, raws, n)
  }

  /** The finding table of one repository: what is committed, and the session's view. */
  class FindingTable {
    var committed: seq<Row>
    var rows: seq<Row>

    constructor ()
      ensures committed == [] && rows == []
    {
      committed, rows := [], [];
    }

    method Commit()
      modifies `committed
      ensures committed == rows
    {
      committed := rows;
    }

    /** A crashed worker leaves what was committed; the next session starts from it. */
    method Reopen()
      modifies `rows
      ensures rows == committed
    {
      rows := committed;
    }

    /** The rows this scan's own ids already have: position by stability id. */
    method Probe(root: string, raws: seq<Raw>) returns (needed: set<Sid>, existing: map<Sid, nat>)
      requires Unique(rows)
      ensures needed == ProducedSids(root, raws)
      ensures forall sid :: sid in existing <==> sid in ProducedSids(root, raws) && Has(rows, sid)
      ensures ProbeCovers(rows, needed, existing)
    {
      needed := ProducedSids(root, raws);
      existing := map[];
      for i := 0 to |rows|
        invariant forall sid :: sid in existing <==> sid in needed && Has(rows[..i], sid)
        invariant forall sid :: sid in existing ==> existing[sid] < i && rows[existing[sid]].sid == sid
      {
        assert rows[..i+1] == rows[..i] + [rows[i]];
        forall sid ensures Has(rows[..i+1], sid) <==> Has(rows[..i], sid) || sid == rows[i].sid {
          HasSnoc(rows[..i], rows[i], sid);
        }
        if rows[i].sid in needed {
          existing := existing[rows[i].sid := i];
        }
      }
      assert rows[..|rows|] == rows;
    }

    /** One finding that passed both duplicate checks. */
    method StoreOne(root: string, raw: Raw, muted: set<string>, existing: map<Sid, nat>) returns (outcome: Outcome)
      requires Unique(rows)
      requires ProbeAnswers(rows, existing, SidOf(root, raw))
      modifies `rows
      ensures rows == Applied1(root, old(rows), raw, muted)
      ensures Unique(rows)
      ensures |rows| == |old(rows)| + if outcome == WasCreated then 1 else 0
      ensures outcome == if Has(old(rows), SidOf(root, raw)) then WasUpdated else if IsMuted(raw, muted) then WasBlocked else WasCreated
    {
      var sid := SidOf(root, raw);
      AppliedKeepsUnique(root, rows, raw, muted);
      if sid in existing {
        assert rows[existing[sid]].sid == sid;
        assert Find(rows, sid) == existing[sid];
        rows := rows[existing[sid] := Refreshed(rows[existing[sid]], raw)];
        outcome := WasUpdated;
      } else if IsMuted(raw, muted) {
        outcome := WasBlocked;
      } else {
        rows := rows + [Created(root, raw)];
        outcome := WasCreated;
      }
    }

    /** The session's rows are `start` with `kept` stored; of those, the first `saved` are
        committed, and fewer than one chunk of handled findings is not. */
    ghost predicate InStep(root: string, start: seq<Row>, kept: seq<Raw>, muted: set<string>,
                           saved: nat, created: nat, updated: nat, lastChunk: nat)
      reads this
    {
      && rows == Stored(root, start, kept, muted)
      && saved <= |kept|
      && committed == Stored(root, start, kept[..saved], muted)
      && created == Births(root, start, kept, muted)
      && created + updated == Handled(root, start, kept, muted)
      && lastChunk == Handled(root, start, kept[..saved], muted)
      && lastChunk % STORING_CHUNK_SIZE == 0
      && lastChunk <= created + updated < lastChunk + STORING_CHUNK_SIZE
    }

    /** One kept finding, and the chunk boundary check behind it. */
    method StoreNext(root: string, raw: Raw, muted: set<string>, existing: map<Sid, nat>,
                     created: nat, updated: nat, lastChunk: nat,
                     ghost start: seq<Row>, ghost kept: seq<Raw>, ghost saved: nat)
      returns (outcome: Outcome, chunk: nat, ghost safe: nat)
      requires InStep(root, start, kept, muted, saved, created, updated, lastChunk)
      requires IsReady(root, start, kept, muted, existing, SidOf(root, raw))
      modifies this
      ensures InStep(root, start, kept + [raw], muted, safe,
                     if outcome == WasCreated then created + 1 else created,
                     if outcome == WasUpdated then updated + 1 else updated, chunk)
    {
      KeptSnoc(root, start, kept, raw, muted, saved);
      outcome := StoreOne(root, raw, muted, existing);
      var now := if outcome == WasBlocked then created + updated else created + updated + 1;
      var atBoundary := CommitChunk(now, lastChunk);
      if atBoundary {
        chunk, safe := now, |kept| + 1;
        assert (kept + [raw])[..safe] == kept + [raw];
      } else {
        chunk, safe := lastChunk, saved;
      }
    }

    /** Stores a scan's findings, committing after every 500 handled ones. The worker
        survives for `lives` findings; `seen` is handed on to the stale pass. */
    method StoreFindings(root: string, raws: seq<Raw>, muted: set<string>, existing: map<Sid, nat>, lives: nat)
      returns (seen: set<Sid>, created: nat, updated: nat, lastChunk: nat, ghost reached: nat, ghost saved: nat)
      requires Unique(rows) && committed == rows
      requires ProbeCovers(rows, ProducedSids(root, raws), existing)
      modifies this
      ensures reached == (if lives < |raws| then lives else |raws|)
      ensures seen == SeenSids(root, raws, reached)
      ensures InStep(root, old(rows), Kept(root, raws, reached), muted, saved, created, updated, lastChunk)
      ensures |rows| == |old(rows)| + created
    {
      ghost var start := rows;
      ghost var kept: seq<Raw> := [];
      var seenFingerprints: set<Fingerprint> := {};
      seen, created, updated, lastChunk := {}, 0, 0, 0;
      reached, saved := 0, 0;
      assert kept[..0] == kept;
      var i := 0;
      while i < |raws| && i < lives
        invariant 0 <= i <= |raws| && i <= lives && reached == i
        invariant Marked(root, raws, i, seenFingerprints, seen, kept)
        invariant InStep(root, start, kept, muted, saved, created, updated, lastChunk)
        decreases |raws| - i
      {
        var fp := FingerprintOf(raws[i]);
        MarkStep(root, raws, i, seenFingerprints, seen, kept);
        KeptIsReady(root, raws, i, seenFingerprints, seen, kept, start, muted, existing);
        if fp !in seenFingerprints {
          seenFingerprints := seenFingerprints + {fp};
          var sid := SidOf(root, raws[i]);
          if sid !in seen {
            seen := seen + {sid};
            var outcome;
            outcome, lastChunk, saved :=
              StoreNext(root, raws[i], muted, existing, created, updated, lastChunk, start, kept, saved);
            kept := kept + [raws[i]];
            created := if outcome == WasCreated then created + 1 else created;
            updated := if outcome == WasUpdated then updated + 1 else updated;
          }
        }
        i, reached := i + 1, reached + 1;
      }
      KeptIsDistinct(root, raws, i);
      BirthsCountRows(root, start, kept, muted);
    }

    /** One delivery of the scan that dies after `lives` findings; what it had committed is
        what the next delivery finds. */
    method CrashedAttempt(root: string, raws: seq<Raw>, muted: set<string>, lives: nat)
      requires Unique(rows) && committed == rows
      modifies this
      ensures Unique(rows) && committed == rows
      ensures SameButCarried(root, Kept(root, raws, |raws|), old(rows), rows)
      ensures var all := Kept(root, raws, |raws|);
              Cores(Stored(root, rows, all, muted)) == Cores(Stored(root, old(rows), all, muted))
    {
      ghost var start, all := rows, Kept(root, raws, |raws|);
      var needed, probe := Probe(root, raws);
      var _, _, _, _, reached, saved := StoreFindings(root, raws, muted, probe, lives);
      Reopen();
      KeptIsPrefix(root, raws, reached);
      assert Kept(root, raws, reached)[..saved] == all[..saved];
      assert rows == Stored(root, start, all[..saved], muted);
      StoredKeepsUnique(root, start, all[..saved], muted);
      StoredAddsCarried(root, start, all, saved, muted);
      KeptIsDistinct(root, raws, |raws|);
      ReplayCatchesUp(root, start, all, muted, saved, |all|);
      assert all[..|all|] == all;
    }

    /** The delivery that runs to the end; its probe goes on to the stale pass. */
    method FinalAttempt(root: string, raws: seq<Raw>, muted: set<string>)
      returns (seen: set<Sid>, existing: map<Sid, nat>)
      requires Unique(rows) && committed == rows
      modifies this
      ensures rows == Stored(root, old(rows), Kept(root, raws, |raws|), muted) && committed == rows
      ensures seen == SeenSids(root, raws, |raws|)
      ensures existing.Keys == LoadedSids(root, raws, old(rows))
      ensures forall sid :: sid in existing ==> existing[sid] < |old(rows)| && old(rows)[existing[sid]].sid == sid
    {
      var needed;
      needed, existing := Probe(root, raws);
      var marked, _, _, _, _, _ := StoreFindings(root, raws, muted, existing, |raws|);
      seen := marked;
      Commit();
    }

    /** Deliveries that die one after the other, each starting over from what was committed. */
    method CrashAll(root: string, raws: seq<Raw>, muted: set<string>, lives: seq<nat>)
      requires Unique(rows) && committed == rows
      modifies this
      ensures Unique(rows) && committed == rows
      ensures SameButCarried(root, Kept(root, raws, |raws|), old(rows), rows)
      ensures var all := Kept(root, raws, |raws|);
              Cores(Stored(root, rows, all, muted)) == Cores(Stored(root, old(rows), all, muted))
    {
      ghost var start, all := rows, Kept(root, raws, |raws|);
      for k := 0 to |lives|
        invariant Unique(rows) && committed == rows
        invariant SameButCarried(root, all, start, rows)
        invariant Cores(Stored(root, rows, all, muted)) == Cores(Stored(root, start, all, muted))
      {
        CrashedAttempt(root, raws, muted, lives[k]);
      }
    }

    /** A scan whose worker dies again and again before a delivery stores everything. */
    method StoreUntilDone(root: string, raws: seq<Raw>, muted: set<string>, lives: seq<nat>)
      returns (seen: set<Sid>, existing: map<Sid, nat>)
      requires Unique(rows) && committed == rows
      modifies this
      ensures Unique(rows) && Cores(rows) == Cores(Stored(root, old(rows), Kept(root, raws, |raws|), muted))
      ensures seen == SeenSids(root, raws, |raws|) && existing.Keys <= ProducedSids(root, raws)
    {
      CrashAll(root, raws, muted, lives);
      StoredKeepsUnique(root, rows, Kept(root, raws, |raws|), muted);
      seen, existing := FinalAttempt(root, raws, muted);
    }

    /** The same, with the stale pass behind the delivery that runs through. */
    method ScanUntilDone(root: string, raws: seq<Raw>, muted: set<string>, lives: seq<nat>)
      requires Unique(rows) && committed == rows
      modifies this
      ensures committed == rows && Cores(rows) == Cores(AfterScan(root, old(rows), raws, muted))
    {
      ghost var start := rows;
      CrashAll(root, raws, muted, lives);
      AfterScanForgetsCrashes(root, start, rows, raws, muted);
      RunScan(root, raws, muted);
    }

    /** A scan that runs through: storing, then the stale pass over what the probe had loaded. */
    method RunScan(root: string, raws: seq<Raw>, muted: set<string>)
      requires Unique(rows) && committed == rows
      modifies this
      ensures rows == AfterScan(root, old(rows), raws, muted) && committed == rows
    {
      ghost var start := rows;
      var seen, existing := FinalAttempt(root, raws, muted);
      StoredKeepsUnique(root, start, Kept(root, raws, |raws|), muted);
      StoredKeepsPlaces(root, start, Kept(root, raws, |raws|), muted);
      var _ := ResolveStale(existing, seen);
      Commit();
    }

    /** Resolves the rows the probe loaded that the loop did not see again. */
    method ResolveStale(existing: map<Sid, nat>, seen: set<Sid>) returns (count: nat)
      requires Unique(rows)
      requires forall sid :: sid in existing ==> existing[sid] < |rows| && rows[existing[sid]].sid == sid
      modifies `rows
      ensures rows == AfterStalePass(old(rows), existing.Keys, seen)
      ensures count == |StaleSids(old(rows), existing.Keys, seen)|
    {
      ghost var start := rows;
      count := 0;
      var todo := existing.Keys;
      while todo != {}
        invariant todo <= existing.Keys
        invariant Resolved(start, rows, existing.Keys - todo, seen, count)
        decreases todo
      {
        var sid :| sid in todo;
        var at := existing[sid];
        ResolveStep(start, rows, existing.Keys - todo, seen, count, at);
        if sid !in seen && rows[at].remediation == Untouched {
          rows := rows[at := rows[at].(remediation := Applied)];
          count := count + 1;
        }
        assert existing.Keys - (todo - {sid}) == existing.Keys - todo + {sid};
        todo := todo - {sid};
      }
      assert existing.Keys - {} == existing.Keys;
    }

    /** The chunk boundary check after each finding. */
    method CommitChunk(processed: nat, lastChunk: nat) returns (atBoundary: bool)
      requires lastChunk % STORING_CHUNK_SIZE == 0
      requires lastChunk <= processed <= lastChunk + STORING_CHUNK_SIZE
      modifies `committed
      ensures atBoundary <==> processed == lastChunk + STORING_CHUNK_SIZE
      ensures atBoundary ==> processed % STORING_CHUNK_SIZE == 0
      ensures committed == if atBoundary then rows else old(committed)
    {
      ChunkBoundary(processed, lastChunk);
      atBoundary := processed > 0 && processed % STORING_CHUNK_SIZE == 0 && processed != lastChunk;
      if atBoundary {
        Commit();
      }
    }
  }

  // ---------- The stale pass ----------

  predicate IsStale(row: Row, loaded: set<Sid>, seen: set<Sid>) {
    row.sid in loaded && row.sid !in seen && row.remediation == Untouched
  }

  /** The ids of the stale rows. */
  ghost function StaleSids(rows: seq<Row>, loaded: set<Sid>, seen: set<Sid>): set<Sid> {
    set i | 0 <= i < |rows| && IsStale(rows[i], loaded, seen) :: rows[i].sid
  }

  ghost predicate Resolved(start: seq<Row>, rows: seq<Row>, loaded: set<Sid>, seen: set<Sid>, count: nat) {
    rows == AfterStalePass(start, loaded, seen) && count == |StaleSids(start, loaded, seen)|
  }

  /** One more loaded row. */
  lemma ResolveStep(start: seq<Row>, rows: seq<Row>, loaded: set<Sid>, seen: set<Sid>, count: nat, at: nat)
    requires Unique(start) && Resolved(start, rows, loaded, seen, count)
    requires at < |start| && start[at].sid !in loaded
    ensures at < |rows| && rows[at] == start[at]
    ensures if start[at].sid !in seen && rows[at].remediation == Untouched
            then Resolved(start, rows[at := rows[at].(remediation := Applied)], loaded + {start[at].sid}, seen, count + 1)
            else Resolved(start, rows, loaded + {start[at].sid}, seen, count)
  {
    var sid, more := start[at].sid, loaded + {start[at].sid};
    forall i | 0 <= i < |start| && i != at ensures MarkedStale(start[i], more, seen) == MarkedStale(start[i], loaded, seen) {
      assert start[i].sid != sid;
    }
    var before := StaleSids(start, loaded, seen);
    assert sid !in before;
    if IsStale(start[at], more, seen) {
      assert StaleSids(start, more, seen) == before + {sid};
    } else {
      assert StaleSids(start, more, seen) == before;
    }
  }

  function MarkedStale(row: Row, loaded: set<Sid>, seen: set<Sid>): Row {
    if IsStale(row, loaded, seen) then row.(remediation := Applied) else row
  }

  function AfterStalePass(rows: seq<Row>, loaded: set<Sid>, seen: set<Sid>): seq<Row> {
    seq(|rows|, i requires 0 <= i < |rows| => MarkedStale(rows[i], loaded, seen))
  }

  /** What the bounded probe loads: rows whose id this scan produced. */
  function LoadedSids(root: string, raws: seq<Raw>, rows: seq<Row>): set<Sid> {
    set sid | sid in ProducedSids(root, raws) && Has(rows, sid)
  }

  /** Ids the scan produced and lost: every finding carrying one fell to the fingerprint check. */
  function LostSids(root: string, raws: seq<Raw>): set<Sid> {
    ProducedSids(root, raws) - SeenSids(root, raws, |raws|)
  }

  /** What the pass really resolves. It is meant for rows the scan did not reproduce; since
      the probe loads only ids of this scan, it resolves exactly the untouched rows whose
      finding the scan did produce and then dropped as a fingerprint duplicate. */
  lemma StalePassResolvesOnlyLost(root: string, raws: seq<Raw>, rows: seq<Row>, loaded: set<Sid>, i: nat)
    requires i < |rows| && loaded == LoadedSids(root, raws, rows)
    ensures AfterStalePass(rows, loaded, SeenSids(root, raws, |raws|))[i] != rows[i]
       <==> rows[i].remediation == Untouched && rows[i].sid in LostSids(root, raws)
    ensures rows[i].sid !in ProducedSids(root, raws)
       ==> AfterStalePass(rows, loaded, SeenSids(root, raws, |raws|))[i] == rows[i]
  {
    assert Has(rows, rows[i].sid);
  }

  /** The pass resolves nothing, whatever the table holds, exactly when no id is lost. */
  lemma StalePassIsIdleIff(root: string, raws: seq<Raw>)
    ensures (forall rows :: Unique(rows) ==>
              AfterStalePass(rows, LoadedSids(root, raws, rows), SeenSids(root, raws, |raws|)) == rows)
       <==> LostSids(root, raws) == {}
  {
    var seen := SeenSids(root, raws, |raws|);
    if sid :| sid in LostSids(root, raws) {
      var row := Row(sid, 0, 0, "", false, NoReason, "needs_review", Untouched, None, 1);
      assert [row][0].sid == sid;
      StalePassResolvesOnlyLost(root, raws, [row], LoadedSids(root, raws, [row]), 0);
    } else {
      forall rows | Unique(rows)
        ensures AfterStalePass(rows, LoadedSids(root, raws, rows), seen) == rows
      {
        forall i | 0 <= i < |rows|
          ensures AfterStalePass(rows, LoadedSids(root, raws, rows), seen)[i] == rows[i]
        {
          StalePassResolvesOnlyLost(root, raws, rows, LoadedSids(root, raws, rows), i);
        }
      }
    }
  }

  /** No two findings stand on one line of one file: what the engine's overlap check leaves of
      every walk and diff scan. */
  ghost predicate DistinctPlaces(raws: seq<Raw>) {
    forall i, j :: 0 <= i < j < |raws| ==> raws[i].path != raws[j].path || raws[i].line != raws[j].line
  }

  /** So a walk or a diff scan loses no id, and its stale pass is idle on every table. */
  lemma DistinctPlacesLoseNothing(root: string, raws: seq<Raw>, rows: seq<Row>)
    requires DistinctPlaces(raws) && Unique(rows)
    ensures LostSids(root, raws) == {}
    ensures AfterStalePass(rows, LoadedSids(root, raws, rows), SeenSids(root, raws, |raws|)) == rows
  {
    NothingLostWhenFingerprintsAgree(root, raws);
    StalePassIsIdleIff(root, raws);
  }

  /** When equal fingerprints imply equal stability ids, no id is lost. */
  lemma NothingLostWhenFingerprintsAgree(root: string, raws: seq<Raw>)
    requires forall i, j :: 0 <= i < j < |raws| && FingerprintOf(raws[i]) == FingerprintOf(raws[j])
               ==> SidOf(root, raws[i]) == SidOf(root, raws[j])
    ensures LostSids(root, raws) == {}
  {
    forall i | 0 <= i < |raws| ensures SidOf(root, raws[i]) in SeenSids(root, raws, |raws|) {
      SidIsSeen(root, raws, i);
      SeenIsMonotone(root, raws, i + 1, |raws|);
    }
  }

  lemma {:induction false} SidIsSeen(root: string, raws: seq<Raw>, i: nat)
    requires i < |raws|
    requires forall i, j :: 0 <= i < j < |raws| && FingerprintOf(raws[i]) == FingerprintOf(raws[j])
               ==> SidOf(root, raws[i]) == SidOf(root, raws[j])
    ensures SidOf(root, raws[i]) in SeenSids(root, raws, i + 1)
  {
    if !PassesFingerprint(raws, i) {
      SeenFingerprintsMeaning(raws, i, FingerprintOf(raws[i]));
      var j :| 0 <= j < i && FingerprintOf(raws[j]) == FingerprintOf(raws[i]);
      SidIsSeen(root, raws, j);
      SeenIsMonotone(root, raws, j + 1, i + 1);
    }
  }

  lemma {:induction false} SeenIsMonotone(root: string, raws: seq<Raw>, m: nat, n: nat)
    requires m <= n <= |raws|
    ensures SeenSids(root, raws, m) <= SeenSids(root, raws, n)
    decreases n
  {
    if m < n {
      SeenIsMonotone(root, raws, m, n - 1);
    }
  }

  /** The table after a whole scan: findings stored, then the stale pass. */
  function AfterScan(root: string, rows: seq<Row>, raws: seq<Raw>, muted: set<string>): seq<Row> {
    AfterStalePass(Stored(root, rows, Kept(root, raws, |raws|), muted),
                   LoadedSids(root, raws, rows), SeenSids(root, raws, |raws|))
  }

  // ---------- What a scan writes into a row ----------

  /** A refreshed row, column by column. */
  ghost predicate IsRefreshOf(after: Row, before: Row, raw: Raw) {
    && after.sid == before.sid
    && after.line == raw.line && after.severity == raw.severity
    && after.title == (if raw.title == "" then before.title else if |raw.title| > 500 then raw.title[..500] else raw.title)
    && after.incident == (if raw.secretHash == "" then None else Some(raw.secretHash))
    && after.classification == before.classification && after.remediation == before.remediation
    && after.scanCount == before.scanCount + 1
    && (raw.verdict == Dead ==> after.suppressed && after.reason == VerifiedInactive)
    && (raw.verdict == Live && before.reason == VerifiedInactive ==> !after.suppressed && after.reason == NoReason)
    && (raw.verdict == Live && before.reason != VerifiedInactive ==>
          after.suppressed == before.suppressed && after.reason == before.reason)
    && (raw.verdict == Unproven ==> after.suppressed == before.suppressed && after.reason == before.reason)
  }

  /** A new row, column by column. */
  ghost predicate IsBirthOf(row: Row, root: string, raw: Raw) {
    && row.sid == SidOf(root, raw)
    && row.line == raw.line && row.severity == raw.severity
    && row.title == (if raw.title == "" then "Untitled" else if |raw.title| > 500 then raw.title[..500] else raw.title)
    && row.incident == (if raw.secretHash == "" then None else Some(raw.secretHash))
    && row.classification == "needs_review" && row.remediation == Untouched && row.scanCount == 1
    && (raw.verdict == Dead ==> row.suppressed && row.reason == VerifiedInactive)
    && (raw.verdict != Dead ==> !row.suppressed && row.reason == NoReason)
  }

  lemma {:induction false} StoredRow(root: string, rows: seq<Row>, kept: seq<Raw>, muted: set<string>, k: nat)
    requires Unique(rows) && DistinctSids(root, kept) && k < |kept|
    ensures var sid, after := SidOf(root, kept[k]), Stored(root, rows, kept, muted);
            if Has(rows, sid) then Has(after, sid) && IsRefreshOf(after[Find(after, sid)], rows[Find(rows, sid)], kept[k])
            else if kept[k].branded != "" && kept[k].branded in muted then !Has(after, sid)
            else Has(after, sid) && IsBirthOf(after[Find(after, sid)], root, kept[k])
    decreases |kept|
  {
    var front, last, sid := kept[..|kept|-1], kept[|kept|-1], SidOf(root, kept[k]);
    var before := Stored(root, rows, front, muted);
    StoredKeepsUnique(root, rows, front, muted);
    if k == |kept| - 1 {
      assert !Carries(root, front, sid);
      HasAfterOthers(root, rows, front, muted, sid);
      if Has(rows, sid) {
        StoredKeepsPlaces(root, rows, front, muted);
        FindIs(before, sid, Find(rows, sid));
      }
      AppliedRow(root, before, last, muted);
    } else {
      StoredRow(root, rows, front, muted, k);
      assert SidOf(root, last) != sid;
      OtherRowStays(root, before, last, muted, sid);
    }
  }

  lemma FindIs(rows: seq<Row>, sid: Sid, i: nat)
    requires Unique(rows) && i < |rows| && rows[i].sid == sid
    ensures Has(rows, sid) && Find(rows, sid) == i
  {}

  lemma AppliedRow(root: string, rows: seq<Row>, raw: Raw, muted: set<string>)
    requires Unique(rows)
    ensures var sid, after := SidOf(root, raw), Applied1(root, rows, raw, muted);
            if Has(rows, sid) then Has(after, sid) && IsRefreshOf(after[Find(after, sid)], rows[Find(rows, sid)], raw)
            else if raw.branded != "" && raw.branded in muted then !Has(after, sid)
            else Has(after, sid) && IsBirthOf(after[Find(after, sid)], root, raw)
  {
    var sid, after := SidOf(root, raw), Applied1(root, rows, raw, muted);
    AppliedKeepsUnique(root, rows, raw, muted);
    if Has(rows, sid) {
      FindIs(after, sid, Find(rows, sid));
    } else if !IsMuted(raw, muted) {
      FindIs(after, sid, |rows|);
    }
  }

  lemma OtherRowStays(root: string, rows: seq<Row>, raw: Raw, muted: set<string>, sid: Sid)
    requires Unique(rows) && sid != SidOf(root, raw)
    ensures var after := Applied1(root, rows, raw, muted);
            (Has(after, sid) <==> Has(rows, sid)) && (Has(rows, sid) ==> after[Find(after, sid)] == rows[Find(rows, sid)])
  {
    AppliedKeepsUnique(root, rows, raw, muted);
    HasAfter(root, rows, raw, muted);
    if Has(rows, sid) {
      FindIs(Applied1(root, rows, raw, muted), sid, Find(rows, sid));
    }
  }

  /** What a whole scan, stale pass included, leaves in the row of a finding it kept: the row
      refreshed if there was one, nothing if the rule is muted, a new row otherwise. */
  lemma RowAfterScan(root: string, rows: seq<Row>, raws: seq<Raw>, muted: set<string>, k: nat)
    requires Unique(rows) && k < |Kept(root, raws, |raws|)|
    ensures var raw := Kept(root, raws, |raws|)[k];
            var sid, after := SidOf(root, raw), AfterScan(root, rows, raws, muted);
            if Has(rows, sid) then Has(after, sid) && IsRefreshOf(after[Find(after, sid)], rows[Find(rows, sid)], raw)
            else if raw.branded != "" && raw.branded in muted then !Has(after, sid)
            else Has(after, sid) && IsBirthOf(after[Find(after, sid)], root, raw)
  {
    var kept := Kept(root, raws, |raws|);
    var sid, stored, after := SidOf(root, kept[k]), Stored(root, rows, kept, muted), AfterScan(root, rows, raws, muted);
    KeptIsDistinct(root, raws, |raws|);
    StoredRow(root, rows, kept, muted, k);
    SeenIsKept(root, raws, |raws|, sid);
    assert Carries(root, kept, sid);
    StoredKeepsUnique(root, rows, kept, muted);
    assert forall i :: 0 <= i < |stored| ==> after[i].sid == stored[i].sid;
    if Has(stored, sid) {
      FindIs(after, sid, Find(stored, sid));
    }
  }

  // ---------- The two keys ----------

  /** Two findings share a stability id exactly when they have the same secret in the same
      file, or neither has a secret and rule, file and line agree. */
  lemma SameSidIff(root: string, a: Raw, b: Raw)
    ensures SidOf(root, a) == SidOf(root, b)
       <==> RelativePath(root, a.path) == RelativePath(root, b.path)
            && (if a.secretHash != "" || b.secretHash != "" then a.secretHash == b.secretHash
                else a.rule == b.rule && a.line == b.line)
  {}

  /** And a fingerprint exactly when rule, path, line and category agree. */
  lemma SameFingerprintIff(a: Raw, b: Raw)
    ensures FingerprintOf(a) == FingerprintOf(b)
       <==> a.rule == b.rule && a.path == b.path && a.line == b.line && a.category == b.category
  {}

  /** A file below the checkout is known by its relative path, any other by its own. */
  lemma PathsAreRelative(root: string, path: string)
    requires path != "" && path[0] != '/'
    ensures RelativePath(root, root + "/" + path) == path
    ensures !(root <= path) ==> RelativePath(root, path) == path
    ensures !(root <= "unknown") ==> RelativePath(root, "") == "unknown"
    ensures root != "" ==> RelativePath(root, root) == ""
  {
    var full := root + "/" + path;
    assert root <= full && full[|root|..] == "/" + path;
    assert ("/" + path)[1..] == path && TrimSlashes(path) == path;
    assert TrimSlashes("/" + path) == path;
  }

  /** A whole scan ends alike from two tables that storing makes equal up to counters. */
  lemma AfterScanForgetsCrashes(root: string, start: seq<Row>, mid: seq<Row>, raws: seq<Raw>, muted: set<string>)
    requires var all := Kept(root, raws, |raws|);
             SameButCarried(root, all, start, mid) && Cores(Stored(root, mid, all, muted)) == Cores(Stored(root, start, all, muted))
    ensures Cores(AfterScan(root, mid, raws, muted)) == Cores(AfterScan(root, start, raws, muted))
  {
    var all, seen := Kept(root, raws, |raws|), SeenSids(root, raws, |raws|);
    var a, b := Stored(root, mid, all, muted), Stored(root, start, all, muted);
    SameCores(a, b);
    forall i | 0 <= i < |a|
      ensures Core(AfterScan(root, mid, raws, muted)[i]) == Core(AfterScan(root, start, raws, muted)[i])
    {
      SeenIsKept(root, raws, |raws|, a[i].sid);
      assert Core(a[i]).remediation == a[i].remediation && Core(b[i]).remediation == b[i].remediation;
      assert IsStale(a[i], LoadedSids(root, raws, mid), seen) <==> IsStale(b[i], LoadedSids(root, raws, start), seen);
    }
  }

  /** What a whole scan does to a row it did not reproduce, the very row the stale pass is
      meant to resolve: nothing. */
  lemma FixedFindingStaysOpen(root: string, rows: seq<Row>, raws: seq<Raw>, muted: set<string>, i: nat)
    requires i < |rows| && rows[i].sid !in ProducedSids(root, raws)
    ensures |AfterScan(root, rows, raws, muted)| >= |rows|
    ensures AfterScan(root, rows, raws, muted)[i] == rows[i]
  {
    var kept := Kept(root, raws, |raws|);
    StoredKeepsPlaces(root, rows, kept, muted);
    KeptIsProduced(root, raws, |raws|);
    assert !Carries(root, kept, rows[i].sid);
  }

  lemma {:induction false} KeptIsProduced(root: string, raws: seq<Raw>, n: nat)
    requires n <= |raws|
    ensures forall k :: 0 <= k < |Kept(root, raws, n)| ==> SidOf(root, Kept(root, raws, n)[k]) in ProducedSids(root, raws)
  {
    if n > 0 {
      KeptIsProduced(root, raws, n - 1);
    }
  }

  /** Storing moves no row, and leaves alone every row no kept finding carries the id of. */
  lemma {:induction false} StoredKeepsPlaces(root: string, rows: seq<Row>, kept: seq<Raw>, muted: set<string>)
    ensures |Stored(root, rows, kept, muted)| >= |rows|
    ensures forall i :: 0 <= i < |rows| ==> Stored(root, rows, kept, muted)[i].sid == rows[i].sid
    ensures forall i :: 0 <= i < |rows| && !Carries(root, kept, rows[i].sid) ==> Stored(root, rows, kept, muted)[i] == rows[i]
    decreases |kept|
  {
    if kept != [] {
      var front, last := kept[..|kept|-1], kept[|kept|-1];
      assert kept == front + [last];
      StoredKeepsPlaces(root, rows, front, muted);
      forall i | 0 <= i < |rows|
        ensures Carries(root, kept, rows[i].sid) <==> Carries(root, front, rows[i].sid) || rows[i].sid == SidOf(root, last)
      {
        CarriesSnoc(root, front, last, rows[i].sid);
      }
    }
  }

  /** A history scan can find two secrets that stood on one line in different commits: the
      second has its own stability id but the first one's fingerprint, so its row is resolved
      by the very scan that found it. */
  lemma LineThatHeldTwoSecrets(row: Row)
    requires row.sid == BySecret("hash-two", "app.py") && row.remediation == Untouched
    ensures var first := Raw("R", "R", "app.py", 7, "secret", "hash-one", 3, "", Unproven);
            var second := first.(secretHash := "hash-two");
            AfterScan("", [row], [first, second], {})[0] == row.(remediation := Applied)
  {
    var first := Raw("R", "R", "app.py", 7, "secret", "hash-one", 3, "", Unproven);
    var second := first.(secretHash := "hash-two");
    var raws := [first, second];
    LostOnThatLine(first, second);
    assert SidOf("", first) == BySecret("hash-one", "app.py");
    var stored := Stored("", [row], [first], {});
    StoredKeepsPlaces("", [row], [first], {});
    assert !Carries("", [first], row.sid);
    assert [row][0].sid == row.sid && row.sid in ProducedSids("", raws);
  }

  lemma LostOnThatLine(first: Raw, second: Raw)
    requires first == Raw("R", "R", "app.py", 7, "secret", "hash-one", 3, "", Unproven)
    requires second == first.(secretHash := "hash-two")
    ensures LostSids("", [first, second]) == {BySecret("hash-two", "app.py")}
    ensures Kept("", [first, second], 2) == [first]
  {
    var raws := [first, second];
    assert SidOf("", first) == BySecret("hash-one", "app.py");
    assert SidOf("", second) == BySecret("hash-two", "app.py");
    assert SeenFingerprints(raws, 1) == {FingerprintOf(first)};
    assert SeenSids("", raws, 1) == {SidOf("", first)};
    assert SeenSids("", raws, 2) == {SidOf("", first)};
    assert ProducedSids("", raws) == {SidOf("", first), SidOf("", second)};
    assert Kept("", raws, 1) == [first];
  }

  // ---------- Support ----------

  /** Both tables hold the same ids, but for those that `kept` carries. */
  ghost predicate SameButCarried(root: string, kept: seq<Raw>, before: seq<Row>, after: seq<Row>) {
    forall sid :: !Carries(root, kept, sid) ==> (Has(after, sid) <==> Has(before, sid))
  }

  lemma StoredAddsCarried(root: string, rows: seq<Row>, kept: seq<Raw>, m: nat, muted: set<string>)
    requires m <= |kept|
    ensures SameButCarried(root, kept, rows, Stored(root, rows, kept[..m], muted))
  {
    forall sid | !Carries(root, kept, sid) ensures Has(Stored(root, rows, kept[..m], muted), sid) <==> Has(rows, sid) {
      assert forall k :: 0 <= k < m ==> kept[..m][k] == kept[k];
      assert !Carries(root, kept[..m], sid);
      HasAfterOthers(root, rows, kept[..m], muted, sid);
    }
  }

  lemma {:induction false} KeptIsPrefix(root: string, raws: seq<Raw>, n: nat)
    requires n <= |raws|
    ensures Kept(root, raws, n) <= Kept(root, raws, |raws|)
    decreases |raws| - n
  {
    if n < |raws| {
      KeptIsPrefix(root, raws, n + 1);
    }
  }

  /** The table grows by the findings that are new to it and not muted. */
  lemma {:induction false} BirthsCountRows(root: string, rows: seq<Row>, kept: seq<Raw>, muted: set<string>)
    requires DistinctSids(root, kept)
    ensures |Stored(root, rows, kept, muted)| == |rows| + Births(root, rows, kept, muted)
    decreases |kept|
  {
    if kept != [] {
      var front, sid := kept[..|kept|-1], SidOf(root, kept[|kept|-1]);
      BirthsCountRows(root, rows, front, muted);
      assert !Carries(root, front, sid);
      HasAfterOthers(root, rows, front, muted, sid);
    }
  }

  /** Storing findings with other ids neither creates nor loses the row of `sid`. */
  lemma {:induction false} HasAfterOthers(root: string, rows: seq<Row>, kept: seq<Raw>, muted: set<string>, sid: Sid)
    requires !Carries(root, kept, sid)
    ensures Has(Stored(root, rows, kept, muted), sid) <==> Has(rows, sid)
    decreases |kept|
  {
    if kept != [] {
      var front, last := kept[..|kept|-1], kept[|kept|-1];
      assert kept == front + [last];
      CarriesSnoc(root, front, last, sid);
      HasAfterOthers(root, rows, front, muted, sid);
      HasAfter(root, Stored(root, rows, front, muted), last, muted);
    }
  }

  /** The probe is right about `sid`: it has the position of its row, or there is none. */
  ghost predicate ProbeAnswers(rows: seq<Row>, existing: map<Sid, nat>, sid: Sid) {
    if sid in existing then existing[sid] < |rows| && rows[existing[sid]].sid == sid else !Has(rows, sid)
  }

  ghost predicate ProbeCovers(rows: seq<Row>, needed: set<Sid>, existing: map<Sid, nat>) {
    forall sid :: sid in needed ==> ProbeAnswers(rows, existing, sid)
  }

  /** The probe taken before the loop stays right about every id the loop has not handled. */
  lemma {:induction false} ProbeStillAnswers(root: string, rows: seq<Row>, kept: seq<Raw>, muted: set<string>,
                                             needed: set<Sid>, existing: map<Sid, nat>, sid: Sid)
    requires Unique(rows) && ProbeCovers(rows, needed, existing) && sid in needed && !Carries(root, kept, sid)
    ensures ProbeAnswers(Stored(root, rows, kept, muted), existing, sid)
    decreases |kept|
  {
    if kept == [] {
      assert ProbeAnswers(rows, existing, sid);
    } else {
      var front, last := kept[..|kept|-1], kept[|kept|-1];
      assert kept == front + [last];
      CarriesSnoc(root, front, last, sid);
      ProbeStillAnswers(root, rows, front, muted, needed, existing, sid);
      StoredKeepsUnique(root, rows, front, muted);
      AppliedKeepsUnique(root, Stored(root, rows, front, muted), last, muted);
    }
  }

  /** A chunk ends exactly 500 handled findings after the last one ended. */
  lemma ChunkBoundary(processed: nat, lastChunk: nat)
    requires lastChunk % STORING_CHUNK_SIZE == 0
    requires lastChunk <= processed <= lastChunk + STORING_CHUNK_SIZE
    ensures (processed > 0 && processed % STORING_CHUNK_SIZE == 0 && processed != lastChunk)
       <==> processed == lastChunk + 500
  {
    if processed < lastChunk + STORING_CHUNK_SIZE {
      assert processed % STORING_CHUNK_SIZE == processed - lastChunk;
    }
  }

  /** What became of one finding. */
  datatype Outcome = WasCreated | WasUpdated | WasBlocked

  lemma MarkStep(root: string, raws: seq<Raw>, i: nat, fps: set<Fingerprint>, seen: set<Sid>, kept: seq<Raw>)
    requires i < |raws| && Marked(root, raws, i, fps, seen, kept)
    ensures var fp, sid := FingerprintOf(raws[i]), SidOf(root, raws[i]);
            if fp in fps then Marked(root, raws, i + 1, fps, seen, kept)
            else if sid in seen then Marked(root, raws, i + 1, fps + {fp}, seen, kept)
            else Marked(root, raws, i + 1, fps + {fp}, seen + {sid}, kept + [raws[i]])
  {
    var fp, sid := FingerprintOf(raws[i]), SidOf(root, raws[i]);
    assert fp in fps ==> fps + {fp} == fps;
    assert sid in seen ==> seen + {sid} == seen;
  }

  /** Before a kept finding is stored, its probe answer still describes the table. */
  lemma KeptIsReady(root: string, raws: seq<Raw>, i: nat, fps: set<Fingerprint>, seen: set<Sid>, kept: seq<Raw>,
                    start: seq<Row>, muted: set<string>, existing: map<Sid, nat>)
    requires i < |raws| && Marked(root, raws, i, fps, seen, kept)
    requires Unique(start) && ProbeCovers(start, ProducedSids(root, raws), existing)
    ensures FingerprintOf(raws[i]) !in fps && SidOf(root, raws[i]) !in seen ==>
              IsReady(root, start, kept, muted, existing, SidOf(root, raws[i]))
  {
    var sid := SidOf(root, raws[i]);
    if sid !in seen {
      StoredKeepsUnique(root, start, kept, muted);
      SeenIsKept(root, raws, i, sid);
      ProbeStillAnswers(root, start, kept, muted, ProducedSids(root, raws), existing, sid);
    }
  }

  lemma KeptSnoc(root: string, start: seq<Row>, before: seq<Raw>, raw: Raw, muted: set<string>, saved: nat)
    requires saved <= |before|
    ensures (before + [raw])[..saved] == before[..saved]
    ensures Stored(root, start, before + [raw], muted) == Applied1(root, Stored(root, start, before, muted), raw, muted)
    ensures Handled(root, start, before + [raw], muted) == Handled(root, start, before, muted)
              + if Has(start, SidOf(root, raw)) || !IsMuted(raw, muted) then 1 else 0
    ensures Births(root, start, before + [raw], muted) == Births(root, start, before, muted)
              + if Has(start, SidOf(root, raw)) || IsMuted(raw, muted) then 0 else 1
  {
    assert (before + [raw])[..|before|] == before;
  }

  lemma HasSnoc(rows: seq<Row>, row: Row, sid: Sid)
    ensures Has(rows + [row], sid) <==> Has(rows, sid) || sid == row.sid
  {
    var all := rows + [row];
    assert all[|rows|] == row;
    if Has(rows, sid) {
      var i :| 0 <= i < |rows| && rows[i].sid == sid;
      assert all[i] == rows[i];
    }
  }

  lemma HasAfter(root: string, rows: seq<Row>, raw: Raw, muted: set<string>)
    ensures var after := Applied1(root, rows, raw, muted);
            forall sid :: sid != SidOf(root, raw) ==> (Has(after, sid) <==> Has(rows, sid))
  {
    var after := Applied1(root, rows, raw, muted);
    forall sid | sid != SidOf(root, raw)
      ensures Has(after, sid) <==> Has(rows, sid)
    {
      if Has(rows, SidOf(root, raw)) {
        var k := Find(rows, SidOf(root, raw));
        assert forall i :: 0 <= i < |rows| ==> after[i].sid == rows[i].sid;
      } else if !IsMuted(raw, muted) {
        HasSnoc(rows, Created(root, raw), sid);
      }
    }
  }
}
