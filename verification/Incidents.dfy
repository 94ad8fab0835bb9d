// Secret incidents: one row per tenant and secret hash, written by the atomic ingest upsert
// and by version-checked triage edits in any interleaving, and the in-scan cache that
// skips repeated upserts.
module Incidents {
  import opened Prelude

  datatype Severity = Info | Low | Medium | High | Critical

  function Rank(severity: Severity): nat {
    match severity
    case Critical => 5
    case High => 4
    case Medium => 3
    case Low => 2
    case Info => 1
  }

  /** The severities below one. */
  function Below(severity: Severity): set<Severity> {
    match severity
    case Critical => {High, Medium, Low, Info}
    case High => {Medium, Low, Info}
    case Medium => {Low, Info}
    case Low => {Info}
    case Info => {}
  }

  /** The numeric rank is the order of the severities: one more than there are below. */
  lemma RankIsOrder(a: Severity, b: Severity)
    ensures Rank(a) < Rank(b) <==> a in Below(b)
    ensures Rank(a) == Rank(b) <==> a == b
    ensures Rank(a) == |Below(a)| + 1
  {}

  /** The disposition columns, owned by triage. */
  datatype Disposition = Disposition(classification: string, reviewStatus: string,
                                     assignedTo: Option<string>, rotationStatus: Option<string>)

  datatype Patch = Patch(classification: Option<string>, reviewStatus: Option<string>,
                         assignedTo: Option<string>, rotationStatus: Option<string>)

  datatype Incident = Incident(severityMax: Severity, severityRank: nat,
                               title: string, secretType: Option<string>, maskedValue: Option<string>,
                               validation: string, firstSeen: nat, lastSeen: nat, occurrenceCount: nat,
                               disposition: Disposition, version: nat)

  /** One occurrence of a secret as ingest sees it. */
  datatype Sighting = Sighting(severity: Severity, title: string, secretType: Option<string>,
                               maskedValue: Option<string>, validation: string, at: nat)

  datatype Key = Key(tenant: string, secretHash: string)

  datatype Op =
    | Ingest(key: Key, sighting: Sighting)
    | Edit(key: Key, expected: nat, patch: Patch)
    | Recount(key: Key, count: nat)

  type Table = map<Key, Incident>

  const UNTRIAGED := Disposition("needs_review", "unreviewed", None, None)

  function Inserted(s: Sighting): Incident {
    Incident(s.severity, Rank(s.severity), s.title, s.secretType, s.maskedValue, s.validation,
             s.at, s.at, 1, UNTRIAGED, 1)
  }

  function Merged(row: Incident, s: Sighting): Incident {
    row.(severityRank := Max(row.severityRank, Rank(s.severity)),
         severityMax := if Rank(s.severity) > row.severityRank then s.severity else row.severityMax,
         title := s.title,
         secretType := OrElse(s.secretType, row.secretType),
         maskedValue := OrElse(s.maskedValue, row.maskedValue),
         lastSeen := Max(row.lastSeen, s.at),
         validation := s.validation)
  }

  function Upserted(table: Table, key: Key, s: Sighting): Table {
    table[key := if key in table then Merged(table[key], s) else Inserted(s)]
  }

  function Patched(d: Disposition, p: Patch): Disposition {
    Disposition(if p.classification.Some? then p.classification.value else d.classification,
                if p.reviewStatus.Some? then p.reviewStatus.value else d.reviewStatus,
                OrElse(p.assignedTo, d.assignedTo), OrElse(p.rotationStatus, d.rotationStatus))
  }

  /** A triage edit lands only on a row that still has the version it was based on. */
  predicate Lands(row: Incident, expected: nat) {
    row.version == expected
  }

  function Step(table: Table, op: Op): Table {
    match op
    case Ingest(key, s) => Upserted(table, key, s)
    case Edit(key, expected, patch) =>
      if key in table && Lands(table[key], expected) then
        table[key := table[key].(disposition := Patched(table[key].disposition, patch), version := expected + 1)]
      else table
    case Recount(key, count) =>
      if key in table then table[key := table[key].(occurrenceCount := count)] else table
  }

  function Run(table: Table, ops: seq<Op>): Table
    decreases |ops|
  {
    if ops == [] then table else Step(Run(table, ops[..|ops|-1]), ops[|ops|-1])
  }

  /** The table itself, written in place. */
  class IncidentTable {
    var rows: Table

    constructor ()
      ensures rows == map[]
    {
      rows := map[];
    }

    /** INSERT … ON CONFLICT DO UPDATE, one atomic statement. */
    method Upsert(key: Key, s: Sighting)
      modifies this
      ensures rows == Step(old(rows), Ingest(key, s))
    {
      if key !in rows {
        rows := rows[key := Incident(s.severity, Rank(s.severity), s.title, s.secretType, s.maskedValue,
                                     s.validation, s.at, s.at, 1, UNTRIAGED, 1)];
      } else {
        var row := rows[key];
        var incoming := Rank(s.severity);
        if incoming > row.severityRank {
          row := row.(severityMax := s.severity);
        }
        row := row.(severityRank := Max(row.severityRank, incoming), lastSeen := Max(row.lastSeen, s.at));
        if s.secretType.Some? {
          row := row.(secretType := s.secretType);
        }
        if s.maskedValue.Some? {
          row := row.(maskedValue := s.maskedValue);
        }
        rows := rows[key := row.(title := s.title, validation := s.validation)];
      }
    }

    /** PATCH of an incident: false is the 409 (or the missing row). */
    method Triage(key: Key, expected: nat, patch: Patch) returns (ok: bool)
      modifies this
      ensures rows == Step(old(rows), Edit(key, expected, patch))
      ensures ok <==> key in old(rows) && old(rows)[key].version == expected
    {
      ok := key in rows && rows[key].version == expected;
      if ok {
        var row := rows[key];
        rows := rows[key := row.(disposition := Patched(row.disposition, patch), version := row.version + 1)];
      }
    }

    /** The occurrences of one scan, with the scan's cache of hashes already upserted. */
    method IngestScan(tenant: string, occurrences: seq<(string, Sighting)>)
      modifies this
      ensures rows == Cached(tenant, old(rows), occurrences)
    {
      var cache: set<string> := {};
      for i := 0 to |occurrences|
        invariant cache == SeenHashes(occurrences[..i])
        invariant rows == Cached(tenant, old(rows), occurrences[..i])
      {
        assert occurrences[..i+1][..i] == occurrences[..i];
        var (secretHash, sighting) := occurrences[i];
        if secretHash != "" && secretHash !in cache {
          Upsert(Key(tenant, secretHash), sighting);
          cache := cache + {secretHash};
        }
      }
      assert occurrences[..|occurrences|] == occurrences;
    }
  }

  // ---------- One row under any interleaving ----------

  /** The sightings ingested for `key`, in order. */
  function Sightings(ops: seq<Op>, key: Key): seq<Sighting> {
    if ops == [] then []
    else
      SightedBy(ops[|ops|-1], key, Sightings(ops[..|ops|-1], key))
  }

  function MaxRank(sightings: seq<Sighting>): nat {
    if sightings == [] then 0
    else Max(MaxRank(sightings[..|sightings|-1]), Rank(sightings[|sightings|-1].severity))
  }

  function MaxSeen(sightings: seq<Sighting>): nat {
    if sightings == [] then 0
    else Max(MaxSeen(sightings[..|sightings|-1]), sightings[|sightings|-1].at)
  }

  /** The triage columns and the version, as the edits alone decide them from the moment the
      row exists. */
  function Triaged(ops: seq<Op>, key: Key): (Disposition, nat) {
    if ops == [] then (UNTRIAGED, 1)
    else
      TriagedBy(ops[|ops|-1], key, Sightings(ops[..|ops|-1], key), Triaged(ops[..|ops|-1], key))
  }

  /** What an operation makes of a row's occurrence count: a new row has one, a recount sets it. */
  function CountedBy(op: Op, key: Key, seen: seq<Sighting>, count: nat): nat {
    if op.Recount? && op.key == key && seen != [] then op.count else count
  }

  function Counted(ops: seq<Op>, key: Key): nat {
    if ops == [] then 1
    else CountedBy(ops[|ops|-1], key, Sightings(ops[..|ops|-1], key), Counted(ops[..|ops|-1], key))
  }

  /** `value` is the last one known among the values of all sightings, if any is. */
  ghost predicate IsLatest<T(!new)>(value: Option<T>, values: Sighting -> Option<T>, seen: seq<Sighting>) {
    if value.None? then forall k :: 0 <= k < |seen| ==> values(seen[k]).None?
    else exists k :: 0 <= k < |seen| && values(seen[k]) == value && forall j :: k < j < |seen| ==> values(seen[j]).None?
  }

  /** Its severity is that of some sighting, and no sighting is above it. */
  ghost predicate IsHighest(severity: Severity, seen: seq<Sighting>) {
    && (exists k :: 0 <= k < |seen| && seen[k].severity == severity)
    && (forall k :: 0 <= k < |seen| ==> severity !in Below(seen[k].severity))
  }

  /** What a row must look like after the given sightings and triage. */
  ghost predicate Explains(row: Incident, seen: seq<Sighting>, triage: (Disposition, nat)) {
    && seen != []
    && IsHighest(row.severityMax, seen)
    && row.title == seen[|seen|-1].title && row.validation == seen[|seen|-1].validation
    && IsLatest(row.secretType, (s: Sighting) => s.secretType, seen)
    && IsLatest(row.maskedValue, (s: Sighting) => s.maskedValue, seen)
    && row.severityRank == MaxRank(seen) == Rank(row.severityMax)
    && row.lastSeen == MaxSeen(seen)
    && row.firstSeen == seen[0].at
    && row.disposition == triage.0 && row.version == triage.1
  }

  /** Under any interleaving of ingests, edits and recounts: the row exists exactly when
      something was ingested for it, its rank and last-seen are the maxima over the ingests,
      its severity is the one its rank names, its first-seen is the first ingest's, and its
      triage columns and version are the fold of the edits alone. */
  lemma {:induction false} RowUnderInterleaving(ops: seq<Op>, key: Key)
    ensures RowFits(Run(map[], ops), key, Sightings(ops, key), Triaged(ops, key))
    decreases |ops|
  {
    if ops != [] {
      var front, last := ops[..|ops|-1], ops[|ops|-1];
      RowUnderInterleaving(front, key);
      StepFits(Run(map[], front), last, key, Sightings(front, key), Triaged(front, key));
    }
  }

  /** The row of `key` is there exactly when it was sighted, and then looks as it must. */
  ghost predicate RowFits(table: Table, key: Key, seen: seq<Sighting>, triage: (Disposition, nat)) {
    && (key in table <==> seen != [])
    && (key in table ==> Explains(table[key], seen, triage))
    && (seen == [] ==> triage == (UNTRIAGED, 1))
  }

  /** One more operation, and what it adds to the sightings and to the triage of a key. */
  function SightedBy(op: Op, key: Key, seen: seq<Sighting>): seq<Sighting> {
    if op.Ingest? && op.key == key then seen + [op.sighting] else seen
  }

  function TriagedBy(op: Op, key: Key, seen: seq<Sighting>, triage: (Disposition, nat)): (Disposition, nat) {
    if op.Edit? && op.key == key && seen != [] && triage.1 == op.expected
    then (Patched(triage.0, op.patch), triage.1 + 1) else triage
  }

  lemma StepFits(table: Table, op: Op, key: Key, seen: seq<Sighting>, triage: (Disposition, nat))
    requires RowFits(table, key, seen, triage)
    ensures RowFits(Step(table, op), key, SightedBy(op, key, seen), TriagedBy(op, key, seen, triage))
  {
    if op.Ingest? && op.key == key {
      if key in table {
        MergeExplains(table[key], seen, triage, op.sighting);
      } else {
        InsertExplains(op.sighting);
        assert seen + [op.sighting] == [op.sighting];
      }
    }
  }

  lemma InsertExplains(s: Sighting)
    ensures Explains(Inserted(s), [s], (UNTRIAGED, 1))
  {
    assert [s][..0] == [];
    assert MaxRank([]) == 0 && MaxSeen([]) == 0;
    assert [s][0] == s;
  }

  lemma MergeExplains(row: Incident, seen: seq<Sighting>, triage: (Disposition, nat), s: Sighting)
    requires Explains(row, seen, triage)
    ensures Explains(Merged(row, s), seen + [s], triage)
  {
    assert (seen + [s])[..|seen|] == seen;
    HighestGrows(row, seen, s);
    LatestGrows(row.secretType, (t: Sighting) => t.secretType, seen, s);
    LatestGrows(row.maskedValue, (t: Sighting) => t.maskedValue, seen, s);
  }

  lemma HighestGrows(row: Incident, seen: seq<Sighting>, s: Sighting)
    requires IsHighest(row.severityMax, seen) && row.severityRank == Rank(row.severityMax)
    ensures IsHighest(Merged(row, s).severityMax, seen + [s])
  {
    var after, all := Merged(row, s).severityMax, seen + [s];
    var k :| 0 <= k < |seen| && seen[k].severity == row.severityMax;
    assert all[k] == seen[k] && all[|seen|] == s;
    forall j | 0 <= j < |all| ensures after !in Below(all[j].severity) {
      RankIsOrder(after, all[j].severity);
      RankIsOrder(row.severityMax, all[j].severity);
    }
  }

  lemma LatestGrows<T(!new)>(value: Option<T>, values: Sighting -> Option<T>, seen: seq<Sighting>, s: Sighting)
    requires IsLatest(value, values, seen)
    ensures IsLatest(OrElse(values(s), value), values, seen + [s])
  {
    var all := seen + [s];
    assert all[|seen|] == s;
    if values(s).None? && value.Some? {
      var k :| 0 <= k < |seen| && values(seen[k]) == value && forall j :: k < j < |seen| ==> values(seen[j]).None?;
      assert values(all[k]) == value;
    }
  }

  lemma {:induction false} MaximaCover(sightings: seq<Sighting>, s: Sighting)
    requires s in sightings
    ensures Rank(s.severity) <= MaxRank(sightings) && s.at <= MaxSeen(sightings)
  {
    var front, last := sightings[..|sightings|-1], sightings[|sightings|-1];
    assert sightings == front + [last];
    if s != last {
      MaximaCover(front, s);
    }
  }

  /** The maxima depend on which sightings there are, not on their order. */
  lemma {:induction false} MaximaAreMonotone(some: seq<Sighting>, all: seq<Sighting>)
    requires forall s :: s in some ==> s in all
    ensures MaxRank(some) <= MaxRank(all) && MaxSeen(some) <= MaxSeen(all)
    decreases |some|
  {
    if some != [] {
      MaximaAreMonotone(some[..|some|-1], all);
      MaximaCover(all, some[|some|-1]);
    }
  }

  /** The occurrence count is one from the first ingest on, and after that what the last recount
      said; no ingest moves it. */
  lemma {:induction false} CountFollowsRecounts(ops: seq<Op>, key: Key)
    ensures key in Run(map[], ops) <==> Sightings(ops, key) != []
    ensures key in Run(map[], ops) ==> Run(map[], ops)[key].occurrenceCount == Counted(ops, key)
    ensures Sightings(ops, key) == [] ==> Counted(ops, key) == 1
    decreases |ops|
  {
    if ops != [] {
      CountFollowsRecounts(ops[..|ops|-1], key);
    }
  }

  /** A new incident awaits review: nobody has it, nothing was decided. */
  lemma NewIncidentAwaitsReview(ops: seq<Op>, key: Key)
    requires Sightings(ops, key) != [] && forall k :: 0 <= k < |ops| ==> !ops[k].Edit?
    ensures key in Run(map[], ops)
    ensures var row := Run(map[], ops)[key];
            && row.disposition.classification == "needs_review" && row.disposition.reviewStatus == "unreviewed"
            && row.disposition.assignedTo == None && row.disposition.rotationStatus == None && row.version == 1
  {
    RowUnderInterleaving(ops, key);
    NoEditsNoTriage(ops, key);
  }

  lemma {:induction false} NoEditsNoTriage(ops: seq<Op>, key: Key)
    requires forall k :: 0 <= k < |ops| ==> !ops[k].Edit?
    ensures Triaged(ops, key) == (UNTRIAGED, 1)
    decreases |ops|
  {
    if ops != [] {
      NoEditsNoTriage(ops[..|ops|-1], key);
    }
  }

  /** A triage edit that lands sets exactly the columns it names and moves the version by one;
      one based on another version changes nothing. */
  lemma EditSetsItsColumns(table: Table, key: Key, expected: nat, patch: Patch)
    requires key in table
    ensures var before, after := table[key], Step(table, Edit(key, expected, patch));
            && after.Keys == table.Keys && (forall other :: other in table && other != key ==> after[other] == table[other])
            && (before.version != expected ==> after[key] == before)
            && (before.version == expected ==>
                  && after[key] == before.(disposition := after[key].disposition, version := before.version + 1)
                  && after[key].disposition.classification
                     == (match patch.classification case Some(v) => v case None => before.disposition.classification)
                  && after[key].disposition.reviewStatus
                     == (match patch.reviewStatus case Some(v) => v case None => before.disposition.reviewStatus)
                  && after[key].disposition.assignedTo
                     == (match patch.assignedTo case Some(v) => Some(v) case None => before.disposition.assignedTo)
                  && after[key].disposition.rotationStatus
                     == (match patch.rotationStatus case Some(v) => Some(v) case None => before.disposition.rotationStatus))
  {}

  /** Two histories that ingest the same sightings, in whatever order and however mixed with
      edits, end with the same severity, rank and last-seen. */
  lemma OrderDoesNotMatter(ops: seq<Op>, other: seq<Op>, key: Key)
    requires multiset(Sightings(ops, key)) == multiset(Sightings(other, key)) && Sightings(ops, key) != []
    ensures key in Run(map[], ops) && key in Run(map[], other)
    ensures var a, b := Run(map[], ops)[key], Run(map[], other)[key];
            a.severityMax == b.severityMax && a.severityRank == b.severityRank && a.lastSeen == b.lastSeen
  {
    var xs, ys := Sightings(ops, key), Sightings(other, key);
    SameMaxima(xs, ys);
    RowUnderInterleaving(ops, key);
    RowUnderInterleaving(other, key);
    SameRankIsSame(Run(map[], ops)[key].severityMax, Run(map[], other)[key].severityMax);
  }

  lemma SameMaxima(xs: seq<Sighting>, ys: seq<Sighting>)
    requires multiset(xs) == multiset(ys)
    ensures MaxRank(xs) == MaxRank(ys) && MaxSeen(xs) == MaxSeen(ys) && |xs| == |ys|
  {
    assert |multiset(xs)| == |xs| && |multiset(ys)| == |ys|;
    assert forall s :: s in xs ==> s in multiset(xs);
    assert forall s :: s in ys ==> s in multiset(ys);
    MaximaAreMonotone(xs, ys);
    MaximaAreMonotone(ys, xs);
  }

  lemma SameRankIsSame(a: Severity, b: Severity)
    requires Rank(a) == Rank(b)
    ensures a == b
  {}

  /** A further ingest touches no triage column, no version and no occurrence count. */
  lemma {:induction false} IngestLeavesTriageAlone(ops: seq<Op>, key: Key, extra: Sighting)
    requires Sightings(ops, key) != []
    ensures var row := Run(map[], ops + [Ingest(key, extra)]);
            key in Run(map[], ops) && key in row
            && row[key].disposition == Run(map[], ops)[key].disposition
            && row[key].version == Run(map[], ops)[key].version
            && row[key].occurrenceCount == Run(map[], ops)[key].occurrenceCount
  {
    RowUnderInterleaving(ops, key);
    assert (ops + [Ingest(key, extra)])[..|ops|] == ops;
  }

  // ---------- The in-scan cache ----------

  function SeenHashes(occurrences: seq<(string, Sighting)>): set<string> {
    if occurrences == [] then {}
    else
      var front, last := SeenHashes(occurrences[..|occurrences|-1]), occurrences[|occurrences|-1];
      if last.0 != "" then front + {last.0} else front
  }

  /** A scan with the cache: only the first occurrence of a hash reaches the table. */
  function Cached(tenant: string, table: Table, occurrences: seq<(string, Sighting)>): Table
    decreases |occurrences|
  {
    if occurrences == [] then table
    else
      var front, last := occurrences[..|occurrences|-1], occurrences[|occurrences|-1];
      var before := Cached(tenant, table, front);
      if last.0 != "" && last.0 !in SeenHashes(front) then Upserted(before, Key(tenant, last.0), last.1) else before
  }

  /** The same scan without it. */
  function Uncached(tenant: string, table: Table, occurrences: seq<(string, Sighting)>): Table
    decreases |occurrences|
  {
    if occurrences == [] then table
    else
      var last := occurrences[|occurrences|-1];
      var before := Uncached(tenant, table, occurrences[..|occurrences|-1]);
      if last.0 != "" then Upserted(before, Key(tenant, last.0), last.1) else before
  }

  function OldRank(table: Table, key: Key): nat {
    if key in table then table[key].severityRank else 0
  }

  /** The rank of the first occurrence of a hash, and the largest among all of them. */
  function FirstRank(occurrences: seq<(string, Sighting)>, secretHash: string): nat {
    if occurrences == [] then 0
    else
      var front := FirstRank(occurrences[..|occurrences|-1], secretHash);
      if front == 0 && occurrences[|occurrences|-1].0 == secretHash
      then Rank(occurrences[|occurrences|-1].1.severity) else front
  }

  function TopRank(occurrences: seq<(string, Sighting)>, secretHash: string): nat {
    if occurrences == [] then 0
    else
      var front := TopRank(occurrences[..|occurrences|-1], secretHash);
      if occurrences[|occurrences|-1].0 == secretHash
      then Max(front, Rank(occurrences[|occurrences|-1].1.severity)) else front
  }

  /** With the cache the rank becomes the larger of the old one and the first occurrence's;
      without it, of the old one and every occurrence's. */
  lemma {:induction false} RankWithAndWithoutCache(tenant: string, table: Table, occurrences: seq<(string, Sighting)>, secretHash: string)
    requires secretHash != ""
    ensures var key := Key(tenant, secretHash);
            && OldRank(Cached(tenant, table, occurrences), key) == Max(OldRank(table, key), FirstRank(occurrences, secretHash))
            && OldRank(Uncached(tenant, table, occurrences), key) == Max(OldRank(table, key), TopRank(occurrences, secretHash))
            && FirstRank(occurrences, secretHash) <= TopRank(occurrences, secretHash)
            && (secretHash in SeenHashes(occurrences) <==> FirstRank(occurrences, secretHash) > 0)
    decreases |occurrences|
  {
    if occurrences != [] {
      RankWithAndWithoutCache(tenant, table, occurrences[..|occurrences|-1], secretHash);
    }
  }

  /** The cached scan agrees with the uncached one on the rank exactly when no occurrence
      outranks both the stored row and the first occurrence. */
  lemma CacheAgreesIff(tenant: string, table: Table, occurrences: seq<(string, Sighting)>, secretHash: string)
    requires secretHash != ""
    ensures OldRank(Cached(tenant, table, occurrences), Key(tenant, secretHash))
            == OldRank(Uncached(tenant, table, occurrences), Key(tenant, secretHash))
       <==> forall i :: 0 <= i < |occurrences| && occurrences[i].0 == secretHash ==>
              Rank(occurrences[i].1.severity)
              <= Max(OldRank(table, Key(tenant, secretHash)), FirstRank(occurrences, secretHash))
  {
    RankWithAndWithoutCache(tenant, table, occurrences, secretHash);
    TopRankBounds(occurrences, secretHash);
  }

  lemma {:induction false} TopRankBounds(occurrences: seq<(string, Sighting)>, secretHash: string)
    ensures forall i :: 0 <= i < |occurrences| && occurrences[i].0 == secretHash
              ==> Rank(occurrences[i].1.severity) <= TopRank(occurrences, secretHash)
    ensures TopRank(occurrences, secretHash) > 0 ==>
              exists i :: 0 <= i < |occurrences| && occurrences[i].0 == secretHash
                && Rank(occurrences[i].1.severity) == TopRank(occurrences, secretHash)
  {
    if occurrences != [] {
      var front := occurrences[..|occurrences|-1];
      TopRankBounds(front, secretHash);
      if TopRank(front, secretHash) == TopRank(occurrences, secretHash) > 0 {
        var i :| 0 <= i < |front| && front[i].0 == secretHash
                 && Rank(front[i].1.severity) == TopRank(front, secretHash);
        assert occurrences[i] == front[i];
      } else if TopRank(occurrences, secretHash) > 0 {
        assert occurrences[|front|].0 == secretHash;
      }
    }
  }

  /** A scan that meets the same secret first as low and then as critical stores it as low. */
  lemma CacheCanFallShort()
    ensures var low := Sighting(Low, "", None, None, "unverified", 1);
            var scan := [("hash", low), ("hash", low.(severity := Critical))];
            var key := Key("tenant", "hash");
            key in Cached("tenant", map[], scan) && Cached("tenant", map[], scan)[key].severityMax == Low
            && key in Uncached("tenant", map[], scan) && Uncached("tenant", map[], scan)[key].severityMax == Critical
  {
    var low := Sighting(Low, "", None, None, "unverified", 1);
    var scan := [("hash", low), ("hash", low.(severity := Critical))];
    assert scan[..1] == [("hash", low)] && scan[..1][..0] == [];
    assert SeenHashes(scan[..1]) == {"hash"};
    assert Cached("tenant", map[], scan[..1]) == map[Key("tenant", "hash") := Inserted(low)];
    assert Uncached("tenant", map[], scan[..1]) == map[Key("tenant", "hash") := Inserted(low)];
  }
}
