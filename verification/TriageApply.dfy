// Applying AI verdicts: the confidence threshold, the cascade to the incident and to its
// other occurrences, and the guard against rows deleted while the AI phase ran.
module TriageApply {
  import opened Prelude

  /** A finding's or incident's classification; `Decided` stands for any human decision. */
  datatype Class = NeedsReview | LikelyTrue | LikelyFalse | Decided(author: string)

  /** What the model proposed, with its confidence if it gave one. */
  datatype Verdict = Verdict(proposed: Class, confidence: Option<real>)

  type FindingId = string
  type IncidentId = string

  datatype Occurrence = Occurrence(incident: Option<IncidentId>, verdict: Class)

  datatype Db = Db(findings: map<FindingId, Occurrence>, incidents: map<IncidentId, Class>)

  type Results = seq<(FindingId, Verdict)>

  /** Below the tenant's threshold a decision is held at needs-review. */
  function Accepted(v: Verdict, threshold: real): Class {
    if v.proposed != NeedsReview && v.confidence.Some? && v.confidence.value < threshold then NeedsReview else v.proposed
  }

  /** A decision is held exactly when its confidence is known and below the threshold; at the
      threshold or above it, or without one, it passes as proposed. */
  lemma HeldIff(v: Verdict, threshold: real)
    ensures Accepted(v, threshold) == NeedsReview
       <==> v.proposed == NeedsReview || (v.confidence.Some? && v.confidence.value < threshold)
    ensures Accepted(v, threshold) != NeedsReview ==> Accepted(v, threshold) == v.proposed
  {}

  /** The one UPDATE that cascades a verdict to the occurrences still needing review. */
  function CascadeTo(findings: map<FindingId, Occurrence>, from: FindingId, incident: IncidentId, accepted: Class)
    : map<FindingId, Occurrence>
  {
    map id | id in findings ::
      if id != from && findings[id].incident == Some(incident) && findings[id].verdict == NeedsReview
      then findings[id].(verdict := accepted) else findings[id]
  }

  function Apply1(db: Db, id: FindingId, v: Verdict, threshold: real): Db
    requires id in db.findings
  {
    var accepted := Accepted(v, threshold);
    var own := db.findings[id];
    var written := db.findings[id := own.(verdict := accepted)];
    if own.incident.Some? && own.incident.value in db.incidents then
      var k := own.incident.value;
      Db(CascadeTo(written, id, k, accepted),
         if db.incidents[k] == NeedsReview then db.incidents[k := accepted] else db.incidents)
    else Db(written, db.incidents)
  }

  ghost predicate AllPresent(db: Db, results: Results) {
    forall i :: 0 <= i < |results| ==> results[i].0 in db.findings
  }

  function ApplyAll(db: Db, results: Results, threshold: real): (after: Db)
    requires AllPresent(db, results)
    ensures after.findings.Keys == db.findings.Keys && after.incidents.Keys == db.incidents.Keys
    ensures forall id :: id in db.findings ==> after.findings[id].incident == db.findings[id].incident
    decreases |results|
  {
    if results == [] then db
    else
      var last := results[|results|-1];
      Apply1(ApplyAll(db, results[..|results|-1], threshold), last.0, last.1, threshold)
  }

  // ---------- The cascade over a whole batch ----------

  /** The first accepted decision among the results of one incident, in application order. */
  function FirstAccepted(db: Db, results: Results, incident: IncidentId, threshold: real): Class
    requires AllPresent(db, results)
    decreases |results|
  {
    if results == [] then NeedsReview
    else
      var front, last := FirstAccepted(db, results[..|results|-1], incident, threshold), results[|results|-1];
      if front == NeedsReview && db.findings[last.0].incident == Some(incident) then Accepted(last.1, threshold) else front
  }

  function Submitted(results: Results): set<FindingId> {
    set i | 0 <= i < |results| :: results[i].0
  }

  /** Where a classification ends that the batch only reaches by cascade. */
  function Settled(before: Class, first: Class): Class {
    if before == NeedsReview then first else before
  }

  /** An incident leaves needs-review for the first accepted verdict among its results, and
      an incident that had left it never moves. */
  lemma {:induction false} IncidentTakesFirstAccepted(db: Db, results: Results, k: IncidentId, threshold: real)
    requires AllPresent(db, results) && k in db.incidents
    ensures ApplyAll(db, results, threshold).incidents[k]
         == Settled(db.incidents[k], FirstAccepted(db, results, k, threshold))
    decreases |results|
  {
    if results != [] {
      IncidentTakesFirstAccepted(db, results[..|results|-1], k, threshold);
    }
  }

  /** So does every occurrence of the incident that the batch holds no result for. */
  lemma {:induction false} OccurrenceTakesFirstAccepted(db: Db, results: Results, id: FindingId, k: IncidentId, threshold: real)
    requires AllPresent(db, results) && id in db.findings && id !in Submitted(results)
    requires db.findings[id].incident == Some(k) && k in db.incidents
    ensures ApplyAll(db, results, threshold).findings[id].verdict
         == Settled(db.findings[id].verdict, FirstAccepted(db, results, k, threshold))
    decreases |results|
  {
    if results != [] {
      assert results[|results|-1].0 in Submitted(results);
      assert Submitted(results[..|results|-1]) <= Submitted(results);
      OccurrenceTakesFirstAccepted(db, results[..|results|-1], id, k, threshold);
    }
  }

  /** A finding with no incident, or whose incident is gone, changes only by its own result. */
  lemma {:induction false} LonelyFindingIsUntouched(db: Db, results: Results, id: FindingId, threshold: real)
    requires AllPresent(db, results) && id in db.findings && id !in Submitted(results)
    requires db.findings[id].incident.Some? ==> db.findings[id].incident.value !in db.incidents
    ensures ApplyAll(db, results, threshold).findings[id] == db.findings[id]
    decreases |results|
  {
    if results != [] {
      assert results[|results|-1].0 in Submitted(results);
      assert Submitted(results[..|results|-1]) <= Submitted(results);
      LonelyFindingIsUntouched(db, results[..|results|-1], id, threshold);
    }
  }

  /** What one result offers an incident. */
  function Proposed(db: Db, result: (FindingId, Verdict), k: IncidentId, threshold: real): Class
    requires result.0 in db.findings
  {
    if db.findings[result.0].incident == Some(k) then Accepted(result.1, threshold) else NeedsReview
  }

  lemma FirstAcceptedSnoc(db: Db, results: Results, k: IncidentId, threshold: real)
    requires AllPresent(db, results) && results != []
    ensures FirstAccepted(db, results, k, threshold)
         == Settled(FirstAccepted(db, results[..|results|-1], k, threshold),
                    Proposed(db, results[|results|-1], k, threshold))
  {}

  lemma SettledTwice(own: Class, first: Class, second: Class)
    ensures Settled(Settled(own, first), second) == Settled(own, Settled(first, second))
  {}

  /** What one result does to another finding of a present incident. */
  lemma OtherVerdict(db: Db, from: FindingId, v: Verdict, threshold: real, id: FindingId)
    requires from in db.findings && id in db.findings && id != from
    requires db.findings[id].incident.Some? && db.findings[id].incident.value in db.incidents
    ensures Apply1(db, from, v, threshold).findings[id].verdict
         == Settled(db.findings[id].verdict, Proposed(db, (from, v), db.findings[id].incident.value, threshold))
  {}

  lemma LastResult(db: Db, results: Results, id: FindingId, threshold: real)
    requires AllPresent(db, results) && results != [] && id in db.findings && id != results[|results|-1].0
    requires db.findings[id].incident.Some? && db.findings[id].incident.value in db.incidents
    ensures ApplyAll(db, results, threshold).findings[id].verdict
         == Settled(ApplyAll(db, results[..|results|-1], threshold).findings[id].verdict,
                    Proposed(db, results[|results|-1], db.findings[id].incident.value, threshold))
  {
    var before, last := ApplyAll(db, results[..|results|-1], threshold), results[|results|-1];
    OtherVerdict(before, last.0, last.1, threshold, id);
  }

  lemma LastTakesItsOwn(db: Db, results: Results, threshold: real)
    requires AllPresent(db, results) && results != []
    ensures ApplyAll(db, results, threshold).findings[results[|results|-1].0].verdict
         == Accepted(results[|results|-1].1, threshold)
  {}

  lemma ResultBehind(db: Db, results: Results, last: (FindingId, Verdict), id: FindingId, threshold: real)
    requires AllPresent(db, results + [last]) && AllPresent(db, results) && id in db.findings && id != last.0
    requires db.findings[id].incident.Some? && db.findings[id].incident.value in db.incidents
    ensures last.0 in db.findings
    ensures ApplyAll(db, results + [last], threshold).findings[id].verdict
         == Settled(ApplyAll(db, results, threshold).findings[id].verdict,
                    Proposed(db, last, db.findings[id].incident.value, threshold))
  {
    var all := results + [last];
    assert all[|all|-1] == last && all[..|all|-1] == results;
    LastResult(db, all, id, threshold);
  }

  /** What becomes of the finding whose result stands last in `head`, when `rest` follows. */
  lemma {:induction false} OwnThenRest(db: Db, head: Results, rest: Results, threshold: real)
    requires head != [] && AllPresent(db, head + rest) && AllPresent(db, rest)
    requires forall i :: 0 <= i < |rest| ==> rest[i].0 != head[|head|-1].0
    requires head[|head|-1].0 in db.findings && db.findings[head[|head|-1].0].incident.Some?
             && db.findings[head[|head|-1].0].incident.value in db.incidents
    ensures var (id, v) := head[|head|-1];
            ApplyAll(db, head + rest, threshold).findings[id].verdict
            == Settled(Accepted(v, threshold), FirstAccepted(db, rest, db.findings[id].incident.value, threshold))
    decreases |rest|
  {
    if rest == [] {
      assert head + rest == head;
      LastTakesItsOwn(db, head, threshold);
    } else {
      var front, own := rest[..|rest|-1], head[|head|-1];
      assert head + rest == head + front + [rest[|rest|-1]] && rest[|rest|-1].0 != own.0;
      assert forall i :: 0 <= i < |head + front| ==> (head + front)[i] == (head + rest)[i];
      var first := FirstAccepted(db, front, db.findings[own.0].incident.value, threshold);
      assert ApplyAll(db, head + front, threshold).findings[own.0].verdict == Settled(Accepted(own.1, threshold), first) by {
        OwnThenRest(db, head, front, threshold);
      }
      ResultBehind(db, head + front, rest[|rest|-1], own.0, threshold);
      FirstAcceptedSnoc(db, rest, db.findings[own.0].incident.value, threshold);
      SettledTwice(Accepted(own.1, threshold), first, Proposed(db, rest[|rest|-1], db.findings[own.0].incident.value, threshold));
    }
  }

  /** A submitted finding ends with its own last verdict, unless that one was held: then the
      next accepted verdict of its incident overtakes it. */
  lemma SubmittedTakesItsOwn(db: Db, results: Results, j: nat, threshold: real)
    requires AllPresent(db, results) && j < |results|
    requires forall i :: j < i < |results| ==> results[i].0 != results[j].0
    requires db.findings[results[j].0].incident.Some? && db.findings[results[j].0].incident.value in db.incidents
    ensures var id := results[j].0;
            AllPresent(db, results[j+1..]) &&
            ApplyAll(db, results, threshold).findings[id].verdict
            == Settled(Accepted(results[j].1, threshold),
                       FirstAccepted(db, results[j+1..], db.findings[id].incident.value, threshold))
  {
    assert results == results[..j+1] + results[j+1..];
    assert results[..j+1][j] == results[j];
    OwnThenRest(db, results[..j+1], results[j+1..], threshold);
  }

  lemma {:induction false} FirstAcceptedIsFirst(db: Db, results: Results, m: nat, k: IncidentId, threshold: real)
    requires AllPresent(db, results) && m <= |results|
    requires FirstAccepted(db, results[..m], k, threshold) != NeedsReview
    ensures FirstAccepted(db, results, k, threshold) == FirstAccepted(db, results[..m], k, threshold)
    decreases |results|
  {
    if m == |results| {
      assert results[..m] == results;
    } else {
      assert results[..|results|-1][..m] == results[..m];
      FirstAcceptedIsFirst(db, results[..|results|-1], m, k, threshold);
    }
  }

  /** Once decided, never moved again: over the batch an incident's classification changes
      at most once. */
  lemma DecidedIsFinal(db: Db, results: Results, m: nat, k: IncidentId, threshold: real)
    requires AllPresent(db, results) && m <= |results| && k in db.incidents
    requires ApplyAll(db, results[..m], threshold).incidents[k] != NeedsReview
    ensures ApplyAll(db, results, threshold).incidents[k] == ApplyAll(db, results[..m], threshold).incidents[k]
  {
    IncidentTakesFirstAccepted(db, results[..m], k, threshold);
    IncidentTakesFirstAccepted(db, results, k, threshold);
    if db.incidents[k] == NeedsReview {
      FirstAcceptedIsFirst(db, results, m, k, threshold);
    }
  }

  /** An incident and its still-undecided silent occurrences leave the batch in agreement. */
  lemma IncidentAndOccurrencesAgree(db: Db, results: Results, id: FindingId, k: IncidentId, threshold: real)
    requires AllPresent(db, results) && id in db.findings && id !in Submitted(results)
    requires db.findings[id].incident == Some(k) && k in db.incidents
    requires db.findings[id].verdict == db.incidents[k] == NeedsReview
    ensures ApplyAll(db, results, threshold).findings[id].verdict == ApplyAll(db, results, threshold).incidents[k]
  {
    IncidentTakesFirstAccepted(db, results, k, threshold);
    OccurrenceTakesFirstAccepted(db, results, id, k, threshold);
  }

  // ---------- The loop and its stale-row guard ----------

  /** Results that name a finding loaded before the AI phase. */
  function Candidates(results: Results, loaded: set<FindingId>): set<FindingId> {
    Submitted(results) * loaded
  }

  /** The loop applies a result to a loaded finding unless the liveness probe returned
      something and does not list it. */
  predicate Passes(id: FindingId, loaded: set<FindingId>, alive: set<FindingId>) {
    id in loaded && (alive == {} || id in alive)
  }

  function Passing(results: Results, loaded: set<FindingId>, alive: set<FindingId>): Results {
    if results == [] then []
    else
      var front, last := Passing(results[..|results|-1], loaded, alive), results[|results|-1];
      if Passes(last.0, loaded, alive) then front + [last] else front
  }

  lemma {:induction false} PassingMeaning(results: Results, loaded: set<FindingId>, alive: set<FindingId>)
    ensures forall i :: 0 <= i < |Passing(results, loaded, alive)| ==>
              Passing(results, loaded, alive)[i] in results && Passes(Passing(results, loaded, alive)[i].0, loaded, alive)
    ensures forall r :: r in results && Passes(r.0, loaded, alive) ==> r in Passing(results, loaded, alive)
  {
    if results != [] {
      var front, last := results[..|results|-1], results[|results|-1];
      assert results == front + [last];
      PassingMeaning(front, loaded, alive);
    }
  }

  class TriageSession {
    var db: Db

    constructor (db: Db)
      ensures this.db == db
    {
      this.db := db;
    }

    /** Writes one verdict and cascades it. */
    method WriteVerdict(id: FindingId, v: Verdict, threshold: real)
      requires id in db.findings
      modifies this
      ensures db == Apply1(old(db), id, v, threshold)
    {
      var accepted := v.proposed;
      if v.proposed != NeedsReview && v.confidence.Some? && v.confidence.value < threshold {
        accepted := NeedsReview;
      }
      var own := db.findings[id];
      var findings := db.findings[id := own.(verdict := accepted)];
      var incidents := db.incidents;
      if own.incident.Some? && own.incident.value in incidents {
        var k := own.incident.value;
        if incidents[k] == NeedsReview {
          incidents := incidents[k := accepted];
        }
        findings := CascadeTo(findings, id, k, accepted);
      }
      db := Db(findings, incidents);
    }

    /** The apply loop. Writing to a row that is gone fails the flush, which loses the whole
        batch: the session rolls back and the phase reports failure. */
    method ApplyVerdicts(results: Results, loaded: set<FindingId>, alive: set<FindingId>, threshold: real)
      returns (ok: bool, triaged: nat)
      modifies this
      ensures ok <==> AllPresent(old(db), Passing(results, loaded, alive))
      ensures ok ==> db == ApplyAll(old(db), Passing(results, loaded, alive), threshold)
                     && triaged == |Passing(results, loaded, alive)|
      ensures !ok ==> db == old(db)
    {
      ghost var start := db;
      var saved := db;
      triaged := 0;
      for i := 0 to |results|
        invariant AllPresent(start, Passing(results[..i], loaded, alive))
        invariant db == ApplyAll(start, Passing(results[..i], loaded, alive), threshold)
        invariant triaged == |Passing(results[..i], loaded, alive)|
      {
        assert results[..i+1][..i] == results[..i];
        var (id, v) := results[i];
        ghost var front := Passing(results[..i], loaded, alive);
        if id in loaded && (alive == {} || id in alive) {
          assert Passing(results[..i+1], loaded, alive) == front + [results[i]];
          if id !in db.findings {
            PassingGrows(results, loaded, alive, i + 1);
            assert (front + [results[i]])[|front|] == results[i];
            db := saved;
            return false, 0;
          }
          assert (front + [results[i]])[..|front|] == front;
          WriteVerdict(id, v, threshold);
          triaged := triaged + 1;
        }
      }
      assert results[..|results|] == results;
      ok := true;
    }
  }

  lemma {:induction false} PassingGrows(results: Results, loaded: set<FindingId>, alive: set<FindingId>, n: nat)
    requires n <= |results|
    ensures Passing(results[..n], loaded, alive) <= Passing(results, loaded, alive)
    decreases |results| - n
  {
    if n == |results| {
      assert results[..n] == results;
    } else {
      assert results[..n+1][..n] == results[..n];
      PassingGrows(results, loaded, alive, n + 1);
    }
  }

  /** One finding, deleted while the AI phase ran: the probe comes back empty, the guard lets
      its verdict through, and the batch is lost. */
  method DeletedFindingLosesTheBatch(verdict: Verdict, threshold: real) returns (ok: bool)
    ensures !ok
  {
    var session := new TriageSession(Db(map[], map[]));
    var results, loaded := [("finding", verdict)], {"finding"};
    var alive := Candidates(results, loaded) * session.db.findings.Keys;
    assert results[..0] == [];
    assert Passing(results, loaded, alive) == results;
    var triaged;
    ok, triaged := session.ApplyVerdicts(results, loaded, alive, threshold);
  }

  /** The guard protects the batch exactly when some candidate survived, or there was none
      to begin with: with every candidate gone the probe comes back empty and is ignored. */
  lemma GuardProtectsIff(db: Db, results: Results, loaded: set<FindingId>, alive: set<FindingId>)
    requires alive == Candidates(results, loaded) * db.findings.Keys
    ensures AllPresent(db, Passing(results, loaded, alive)) <==> Candidates(results, loaded) == {} || alive != {}
  {
    PassingMeaning(results, loaded, alive);
    var passing := Passing(results, loaded, alive);
    assert passing != [] ==> passing[0].0 in Candidates(results, loaded);
    if Candidates(results, loaded) == {} {
    } else if alive == {} {
      var id :| id in Candidates(results, loaded);
      var k :| 0 <= k < |results| && results[k].0 == id;
      assert results[k] in passing;
      assert id in db.findings ==> id in alive;
    } else {
      forall i | 0 <= i < |passing| ensures passing[i].0 in db.findings {
        assert passing[i].0 in alive;
      }
    }
  }
}
