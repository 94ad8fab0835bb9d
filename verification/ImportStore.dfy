// Storing findings imported by the CLI: one row per stability id, counts recomputed from
// the rows, and a job that may fail, roll back and be delivered any number of times.
module ImportStore {
  import opened Prelude
  import opened FindingRows
  import opened FindingStore

  datatype Status = Pending | Running | Completed | Failed

  /** Imports never sync suppression, so the verifier's verdict plays no part. */
  function AsImported(item: Raw): (imported: Raw)
    ensures SidOf("", imported) == SidOf("", item) && IncidentOf(imported) == IncidentOf(item)
  {
    item.(verdict := Unproven)
  }

  /** Import paths are already repository-relative. */
  function ImportSid(item: Raw): Sid {
    SidOf("", item)
  }

  function ImportIds(items: seq<Raw>): set<Sid> {
    if items == [] then {}
    else
      var front, last := ImportIds(items[..|items|-1]), ImportSid(items[|items|-1]);
      if last in front then front else front + {last}
  }

  /** The first item of each stability id, in order. */
  function Distinct(items: seq<Raw>): seq<Raw> {
    if items == [] then []
    else
      var front, last := items[..|items|-1], items[|items|-1];
      if ImportSid(last) in ImportIds(front) then Distinct(front) else Distinct(front) + [AsImported(last)]
  }

  /** Incidents the import touches. */
  function Touched(items: seq<Raw>): set<string> {
    if items == [] then {}
    else
      var front, last := items[..|items|-1], items[|items|-1];
      if ImportSid(last) !in ImportIds(front) && last.secretHash != ""
      then Touched(front) + {last.secretHash} else Touched(front)
  }

  function Imported(rows: seq<Row>, items: seq<Raw>): seq<Row> {
    Stored("", rows, Distinct(items), {})
  }

  /** COUNT(*) of the rows linked to an incident. */
  function Linked(rows: seq<Row>, incident: string): nat {
    if rows == [] then 0
    else Linked(rows[..|rows|-1], incident) + if rows[|rows|-1].incident == Some(incident) then 1 else 0
  }

  /** The count is over every repository: `elsewhere` are the rows of the others. */
  function LinkedAnywhere(elsewhere: seq<Row>, rows: seq<Row>, incident: string): nat {
    Linked(elsewhere, incident) + Linked(rows, incident)
  }

  function Recounted(counts: map<string, nat>, elsewhere: seq<Row>, rows: seq<Row>, touched: set<string>): map<string, nat> {
    counts + map incident | incident in touched && LinkedAnywhere(elsewhere, rows, incident) > 0
               :: LinkedAnywhere(elsewhere, rows, incident)
  }

  // ---------- What an import does ----------

  lemma {:induction false} ImportIdsMeaning(items: seq<Raw>, sid: Sid)
    ensures sid in ImportIds(items) <==> exists i :: 0 <= i < |items| && ImportSid(items[i]) == sid
  {
    if items != [] {
      ImportIdsMeaning(items[..|items|-1], sid);
    }
  }

  /** One row per stability id, no more. */
  lemma {:induction false} ImportKeepsUnique(rows: seq<Row>, items: seq<Raw>)
    requires Unique(rows)
    ensures Unique(Imported(rows, items))
    ensures forall sid :: Has(Imported(rows, items), sid) <==> Has(rows, sid) || sid in ImportIds(items)
    decreases |items|
  {
    if items != [] {
      var front, last := items[..|items|-1], items[|items|-1];
      ImportKeepsUnique(rows, front);
      DistinctSnoc(rows, items);
      if ImportSid(last) !in ImportIds(front) {
        AppliedKeepsUnique("", Imported(rows, front), AsImported(last), {});
      }
    }
  }

  lemma DistinctSnoc(rows: seq<Row>, items: seq<Raw>)
    requires items != []
    ensures var front, last := items[..|items|-1], items[|items|-1];
            Imported(rows, items) == if ImportSid(last) in ImportIds(front) then Imported(rows, front)
                                     else Applied1("", Imported(rows, front), AsImported(last), {})
  {
    var front, last := items[..|items|-1], items[|items|-1];
    assert (Distinct(front) + [AsImported(last)])[..|Distinct(front)|] == Distinct(front);
  }

  /** created + updated is the number of distinct stability ids. */
  lemma {:induction false} DistinctCountsIds(items: seq<Raw>)
    ensures |Distinct(items)| == |ImportIds(items)|
  {
    if items != [] {
      DistinctCountsIds(items[..|items|-1]);
    }
  }

  /** Rows that existed keep their place, their id and their triage. */
  ghost predicate TriageKept(before: seq<Row>, after: seq<Row>) {
    |before| <= |after| && forall i :: 0 <= i < |before| ==>
      after[i].sid == before[i].sid && after[i].classification == before[i].classification
      && after[i].remediation == before[i].remediation && after[i].suppressed == before[i].suppressed
  }

  lemma {:induction false} ImportKeepsTriage(rows: seq<Row>, items: seq<Raw>)
    ensures TriageKept(rows, Imported(rows, items))
    decreases |items|
  {
    if items != [] {
      var front, last := items[..|items|-1], items[|items|-1];
      ImportKeepsTriage(rows, front);
      DistinctSnoc(rows, items);
      AppliedKeepsTriage(Imported(rows, front), AsImported(last));
    } else {
      assert Imported(rows, []) == rows;
    }
  }

  lemma AppliedKeepsTriage(rows: seq<Row>, item: Raw)
    requires item.verdict == Unproven
    ensures TriageKept(rows, Applied1("", rows, item, {}))
  {}

  /** Importing over a table that already has the ids creates no row. */
  lemma {:induction false} NoBirths(rows: seq<Row>, items: seq<Raw>)
    requires forall sid :: sid in ImportIds(items) ==> Has(rows, sid)
    ensures |Imported(rows, items)| == |rows|
    decreases |items|
  {
    if items != [] {
      var front, last := items[..|items|-1], items[|items|-1];
      NoBirths(rows, front);
      DistinctSnoc(rows, items);
      ImportKeepsTriage(rows, front);
      var i := Find(rows, ImportSid(last));
      assert Imported(rows, front)[i].sid == ImportSid(last);
    }
  }

  /** Importing the same items again creates nothing and changes counters only. */
  lemma ImportIsIdempotent(rows: seq<Row>, items: seq<Raw>)
    requires Unique(rows)
    ensures var once := Imported(rows, items);
            |Imported(once, items)| == |once| && Cores(Imported(once, items)) == Cores(once)
  {
    ImportKeepsUnique(rows, items);
    NoBirths(Imported(rows, items), items);
    RepeatChangesCountersOnly(rows, items, items);
  }

  /** Every item's row already is what importing the item again would make it. */
  lemma {:induction false} RepeatChangesCountersOnly(rows: seq<Row>, items: seq<Raw>, again: seq<Raw>)
    requires Unique(rows) && again <= items
    ensures Cores(Imported(Imported(rows, items), again)) == Cores(Imported(rows, items))
    decreases |again|
  {
    if again != [] {
      var front, last := again[..|again|-1], again[|again|-1];
      RepeatChangesCountersOnly(rows, items, front);
      DistinctSnoc(Imported(rows, items), again);
      if ImportSid(last) !in ImportIds(front) {
        var once, twice := Imported(rows, items), Imported(Imported(rows, items), front);
        assert items[|front|] == last && items[..|front|] == front;
        SettledByImport(rows, items, |front|);
        AppliedRespectsCores("", twice, once, AsImported(last), {});
        assert Cores(Applied1("", once, AsImported(last), {})) == Cores(once);
      }
    }
  }

  lemma {:induction false} SettledByImport(rows: seq<Row>, items: seq<Raw>, k: nat)
    requires k < |items| && ImportSid(items[k]) !in ImportIds(items[..k])
    ensures Settles(Imported(rows, items), items[k])
    decreases |items|
  {
    var front, last := items[..|items|-1], items[|items|-1];
    DistinctSnoc(rows, items);
    if k == |items| - 1 {
      RefreshSettles(Imported(rows, front), AsImported(last));
    } else {
      assert front[..k] == items[..k];
      SettledByImport(rows, front, k);
      if ImportSid(last) !in ImportIds(front) {
        ImportIdsMeaning(front, ImportSid(last));
        OtherKeepsSettled(Imported(rows, front), items[k], AsImported(last));
      }
    }
  }

  /** The row of the item is there and would not change, up to its counter. */
  ghost predicate Settles(rows: seq<Row>, item: Raw) {
    Has(rows, ImportSid(item)) &&
    Cores(Applied1("", rows, AsImported(item), {})) == Cores(rows)
  }

  lemma RefreshSettles(rows: seq<Row>, item: Raw)
    requires item == AsImported(item)
    ensures Settles(Applied1("", rows, item, {}), item)
  {
    var sid := ImportSid(item);
    var after := Applied1("", rows, item, {});
    if Has(rows, sid) {
      var i := Find(rows, sid);
      assert after[i].sid == sid && Find(after, sid) == i;
      RefreshIsIdempotent(rows[i], item);
    } else {
      assert after[|rows|].sid == sid && Find(after, sid) == |rows|;
      RefreshAfterCreate("", item);
    }
    assert Cores(Applied1("", after, item, {})) == Cores(after);
  }

  lemma OtherKeepsSettled(rows: seq<Row>, item: Raw, other: Raw)
    requires Settles(rows, item) && ImportSid(item) != ImportSid(other)
    ensures Settles(Applied1("", rows, other, {}), item)
  {
    var sid := ImportSid(item);
    var after := Applied1("", rows, other, {});
    var i := Find(rows, sid);
    SameCores(Applied1("", rows, AsImported(item), {}), rows);
    assert after[i] == rows[i] && Find(after, sid) == i;
    assert Cores(Applied1("", after, AsImported(item), {})) == Cores(after);
  }

  /** An imported finding has the stability id of a server scan of the same secret. */
  lemma ImportMatchesScan(root: string, item: Raw)
    requires item.path != "" && item.path[0] != '/'
    ensures SidOf(root, item.(path := root + "/" + item.path)) == ImportSid(item)
  {
    assert (root + "/" + item.path)[|root|..] == "/" + item.path;
    assert ("/" + item.path)[1..] == item.path;
    assert item.path[0..] == item.path;
  }

  lemma {:induction false} DistinctIsDistinct(items: seq<Raw>)
    ensures DistinctSids("", Distinct(items))
    ensures forall k :: 0 <= k < |Distinct(items)| ==> SidOf("", Distinct(items)[k]) in ImportIds(items)
  {
    if items != [] {
      DistinctIsDistinct(items[..|items|-1]);
    }
  }

  /** The first item of an id is the one that is stored. */
  lemma {:induction false} FirstItemIsStored(items: seq<Raw>, k: nat) returns (j: nat)
    requires k < |items| && ImportSid(items[k]) !in ImportIds(items[..k])
    ensures j < |Distinct(items)| && Distinct(items)[j] == AsImported(items[k])
    decreases |items|
  {
    if k == |items| - 1 {
      j := |Distinct(items)| - 1;
    } else {
      assert items[..|items|-1][..k] == items[..k];
      j := FirstItemIsStored(items[..|items|-1], k);
    }
  }

  /** What an import leaves in the row of an id, column by column: the first item of that id
      refreshes the row or makes a new one, and never suppresses. */
  lemma RowAfterImport(rows: seq<Row>, items: seq<Raw>, k: nat)
    requires Unique(rows) && k < |items| && ImportSid(items[k]) !in ImportIds(items[..k])
    ensures var item, after := items[k].(verdict := Unproven), Imported(rows, items);
            var sid := SidOf("", item);
            && Has(after, sid)
            && if Has(rows, sid) then IsRefreshOf(after[Find(after, sid)], rows[Find(rows, sid)], item)
               else IsBirthOf(after[Find(after, sid)], "", item)
  {
    var j := FirstItemIsStored(items, k);
    DistinctIsDistinct(items);
    StoredRow("", rows, Distinct(items), {}, j);
  }

  // ---------- Linked counts ----------

  /** The touched incidents are those of the imported secrets. */
  lemma {:induction false} TouchedMeaning(items: seq<Raw>, incident: string)
    ensures incident in Touched(items)
       <==> incident != "" && exists k :: 0 <= k < |items| && items[k].secretHash == incident
    decreases |items|
  {
    if items != [] {
      var front, last := items[..|items|-1], items[|items|-1];
      TouchedMeaning(front, incident);
      if last.secretHash == incident && incident != "" && ImportSid(last) in ImportIds(front) {
        ImportIdsMeaning(front, ImportSid(last));
        var k :| 0 <= k < |front| && ImportSid(front[k]) == ImportSid(last);
        assert items[k].secretHash == incident;
      }
      assert forall k :: 0 <= k < |front| ==> front[k] == items[k];
    }
  }

  /** It counts the rows that carry the incident. */
  lemma {:induction false} LinkedCounts(rows: seq<Row>, incident: string)
    ensures Linked(rows, incident) == |set i | 0 <= i < |rows| && rows[i].incident == Some(incident)|
  {
    if rows != [] {
      var n := |rows| - 1;
      LinkedCounts(rows[..n], incident);
      var before := set i | 0 <= i < n && rows[..n][i].incident == Some(incident);
      var after := set i | 0 <= i < |rows| && rows[i].incident == Some(incident);
      assert after == if rows[n].incident == Some(incident) then before + {n} else before;
    }
  }

  /** The recount writes the touched incidents that have rows, and no other. */
  lemma RecountWrites(counts: map<string, nat>, elsewhere: seq<Row>, rows: seq<Row>, touched: set<string>, incident: string)
    ensures var after, linked := Recounted(counts, elsewhere, rows, touched), LinkedAnywhere(elsewhere, rows, incident);
            if incident in touched && linked != 0 then incident in after && after[incident] == linked
            else (incident in after <==> incident in counts) && (incident in after ==> after[incident] == counts[incident])
  {}

  lemma {:induction false} LinkedIsPositive(rows: seq<Row>, incident: string, i: nat)
    requires i < |rows| && rows[i].incident == Some(incident)
    ensures Linked(rows, incident) > 0
  {
    if i < |rows| - 1 {
      LinkedIsPositive(rows[..|rows|-1], incident, i);
    }
  }

  /** A touched incident has a row linked to it. */
  lemma {:induction false} TouchedIsLinked(rows: seq<Row>, items: seq<Raw>, incident: string)
    requires incident in Touched(items)
    ensures exists i :: 0 <= i < |Imported(rows, items)| && Imported(rows, items)[i].incident == Some(incident)
              && Imported(rows, items)[i].sid in ImportIds(items)
    decreases |items|
  {
    var front, last := items[..|items|-1], items[|items|-1];
    DistinctSnoc(rows, items);
    var before, after := Imported(rows, front), Imported(rows, items);
    if ImportSid(last) !in ImportIds(front) && last.secretHash == incident && incident != "" {
      var at := if Has(before, ImportSid(last)) then Find(before, ImportSid(last)) else |before|;
      assert after[at].incident == Some(incident) && after[at].sid == ImportSid(last);
    } else {
      TouchedIsLinked(rows, front, incident);
      var i :| 0 <= i < |before| && before[i].incident == Some(incident) && before[i].sid in ImportIds(front);
      assert after[i] == before[i];
    }
  }

  /** After the recount every touched incident's count is the number of rows linked to it in
      all repositories, at least one of them just imported; no other count moves. */
  lemma RecountIsExact(counts: map<string, nat>, elsewhere: seq<Row>, rows: seq<Row>, items: seq<Raw>, incident: string)
    ensures var after := Imported(rows, items);
            var recounted := Recounted(counts, elsewhere, after, Touched(items));
            if incident in Touched(items) then
              incident in recounted && recounted[incident] == Linked(elsewhere, incident) + Linked(after, incident)
              && Linked(after, incident) > 0
            else
              (incident in recounted <==> incident in counts)
              && (incident in counts ==> recounted[incident] == counts[incident])
  {
    if incident in Touched(items) {
      TouchedIsLinked(rows, items, incident);
      var i :| 0 <= i < |Imported(rows, items)| && Imported(rows, items)[i].incident == Some(incident);
      LinkedIsPositive(Imported(rows, items), incident, i);
    }
  }

  /** The storing loop of an import after `i` items. */
  ghost predicate IsImporting(start: seq<Row>, items: seq<Raw>, i: nat, seen: set<Sid>, touched: set<string>, rows: seq<Row>) {
    && i <= |items|
    && seen == ImportIds(items[..i])
    && touched == Touched(items[..i])
    && rows == Imported(start, items[..i])
  }

  lemma ImportStep(start: seq<Row>, items: seq<Raw>, i: nat, seen: set<Sid>, touched: set<string>, rows: seq<Row>)
    requires i < |items| && IsImporting(start, items, i, seen, touched, rows)
    ensures var item, sid := items[i], ImportSid(items[i]);
            if sid in seen then IsImporting(start, items, i + 1, seen, touched, rows)
            else IsImporting(start, items, i + 1, seen + {sid},
                             if item.secretHash != "" then touched + {item.secretHash} else touched,
                             Applied1("", rows, AsImported(item), {}))
  {
    assert items[..i+1][..i] == items[..i] && items[..i+1][i] == items[i];
    DistinctSnoc(start, items[..i+1]);
  }

  // ---------- The job ----------

  /** What becomes of one delivery of the job. */
  datatype Delivery = Stores | StoreRaises | RepositoryGone

  /** One import job, with the rows of its repository and the counts as committed and as the
      session sees them, and the rows of all other repositories. */
  class ImportJob {
    const elsewhere: seq<Row>
    var status: Status
    var committed: seq<Row>
    var committedCounts: map<string, nat>
    var rows: seq<Row>
    var counts: map<string, nat>

    constructor (elsewhere: seq<Row>, rows: seq<Row>, counts: map<string, nat>)
      ensures status == Pending && this.elsewhere == elsewhere
      ensures committed == this.rows == rows && committedCounts == this.counts == counts
    {
      this.elsewhere, status := elsewhere, Pending;
      committed, this.rows := rows, rows;
      committedCounts, this.counts := counts, counts;
    }

    /** One item that is the first of its id. */
    method StoreItem(item: Raw) returns (isNew: bool)
      modifies `rows
      ensures rows == Applied1("", old(rows), AsImported(item), {})
      ensures |rows| == |old(rows)| + if isNew then 1 else 0
    {
      var sid := ImportSid(item);
      isNew := !Has(rows, sid);
      if isNew {
        rows := rows + [Created("", AsImported(item))];
      } else {
        var at := Find(rows, sid);
        rows := rows[at := Refreshed(rows[at], AsImported(item))];
      }
    }

    /** Stores the items in the session; nothing is committed here. */
    method StoreImported(items: seq<Raw>) returns (created: nat, updated: nat)
      requires Unique(rows)
      modifies `rows, `counts
      ensures rows == Imported(old(rows), items)
      ensures counts == Recounted(old(counts), elsewhere, rows, Touched(items))
      ensures created + updated == |ImportIds(items)|
      ensures created == |rows| - |old(rows)|
    {
      ghost var start := rows;
      var seen: set<Sid> := {};
      var touched: set<string> := {};
      created, updated := 0, 0;
      for i := 0 to |items|
        invariant IsImporting(start, items, i, seen, touched, rows) && counts == old(counts)
        invariant created + updated == |seen|
        invariant created == |rows| - |start|
      {
        ImportStep(start, items, i, seen, touched, rows);
        var item := items[i];
        var sid := ImportSid(item);
        if sid !in seen {
          seen := seen + {sid};
          if item.secretHash != "" {
            touched := touched + {item.secretHash};
          }
          var isNew := StoreItem(item);
          created := created + if isNew then 1 else 0;
          updated := updated + if isNew then 0 else 1;
        }
      }
      assert items[..|items|] == items;
      RefreshCounts(touched);
    }

    /** Recomputes `occurrence_count` from the rows for every touched incident with a row. */
    method RefreshCounts(touched: set<string>)
      modifies `counts
      ensures counts == Recounted(old(counts), elsewhere, rows, touched)
    {
      var todo := touched;
      while todo != {}
        invariant todo <= touched
        invariant forall k :: k in counts <==>
                    k in old(counts) || (k in touched && k !in todo && LinkedAnywhere(elsewhere, rows, k) > 0)
        invariant forall k :: k in counts ==>
                    counts[k] == if k in touched && k !in todo && LinkedAnywhere(elsewhere, rows, k) > 0
                                 then LinkedAnywhere(elsewhere, rows, k) else old(counts)[k]
        decreases todo
      {
        var incident :| incident in todo;
        var linked := LinkedAnywhere(elsewhere, rows, incident);
        if linked > 0 {
          counts := counts[incident := linked];
        }
        todo := todo - {incident};
      }
    }

    /** One delivery of the job. */
    method Ingest(items: seq<Raw>, delivery: Delivery)
      requires Unique(committed) && rows == committed && counts == committedCounts
      modifies this
      ensures rows == committed && counts == committedCounts
      ensures old(status) == Completed ==> status == Completed
      ensures old(status) != Completed ==> status == if delivery.Stores? then Completed else Failed
      ensures committed == if old(status) != Completed && delivery.Stores? then Imported(old(committed), items)
                           else old(committed)
      ensures committedCounts == if old(status) != Completed && delivery.Stores?
                                 then Recounted(old(committedCounts), elsewhere, committed, Touched(items))
                                 else old(committedCounts)
    {
      if status == Completed {
        return;
      }
      if delivery.RepositoryGone? {
        status := Failed;
        return;
      }
      status := Running;
      var created, updated := StoreImported(items);
      if delivery.StoreRaises? {
        rows, counts := committed, committedCounts;
        status := Failed;
      } else {
        status := Completed;
        committed, committedCounts := rows, counts;
      }
    }

    /** However the deliveries fail and repeat, the job ends as one success if any delivery
        succeeds, and as if it had never run otherwise. */
    method Deliver(items: seq<Raw>, deliveries: seq<Delivery>)
      requires status == Pending && Unique(committed) && rows == committed && counts == committedCounts
      modifies this
      ensures committed == if Stores in deliveries then Imported(old(committed), items) else old(committed)
      ensures committedCounts == if Stores in deliveries
                                 then Recounted(old(committedCounts), elsewhere, committed, Touched(items))
                                 else old(committedCounts)
      ensures status == Completed <==> Stores in deliveries
      ensures Unique(committed)
    {
      ImportKeepsUnique(committed, items);
      for k := 0 to |deliveries|
        invariant rows == committed && counts == committedCounts && Unique(committed)
        invariant committed == if Stores in deliveries[..k] then Imported(old(committed), items) else old(committed)
        invariant committedCounts == if Stores in deliveries[..k]
                                     then Recounted(old(committedCounts), elsewhere, committed, Touched(items))
                                     else old(committedCounts)
        invariant status == Completed <==> Stores in deliveries[..k]
      {
        assert deliveries[..k+1] == deliveries[..k] + [deliveries[k]];
        Ingest(items, deliveries[k]);
      }
      assert deliveries[..|deliveries|] == deliveries;
    }
  }
}
