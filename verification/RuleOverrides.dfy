// Rule overrides: the set of rules muted for a scan target, and the write-back that credits
// each blocked finding to exactly one override.
module RuleOverrides {
  import opened Prelude

  /** One override. Both target columns empty means organisation-wide. */
  datatype Override = Override(id: nat, tenant: string, rule: string, repository: Option<string>,
                               source: Option<string>, active: bool, expires: Option<int>, blocked: nat)

  /** What a scan asks about: its tenant, its target and the moment it asks. */
  datatype Query = Query(tenant: string, repository: Option<string>, source: Option<string>, now: int)

  predicate OrgWide(o: Override) {
    o.repository.None? && o.source.None?
  }

  predicate InScope(o: Override, q: Query) {
    OrgWide(o) || (q.repository.Some? && o.repository == q.repository) || (q.source.Some? && o.source == q.source)
  }

  /** Enforced for this query: right tenant, switched on, not expired, in scope. */
  predicate Enforced(o: Override, q: Query) {
    o.tenant == q.tenant && o.active && (o.expires.None? || o.expires.value > q.now) && InScope(o, q)
  }

  function MutedRules(rows: seq<Override>, q: Query): set<string> {
    set i | 0 <= i < |rows| && Enforced(rows[i], q) && rows[i].rule != "" :: rows[i].rule
  }

  /** A rule is muted for a target exactly when some override names it that is of the tenant,
      switched on, not expired at the moment, and either names no target at all or names this
      repository or this source. */
  lemma MutedMeaning(rows: seq<Override>, q: Query, rule: string)
    ensures rule in MutedRules(rows, q) <==> rule != "" && exists i :: 0 <= i < |rows| && Mutes(rows[i], q, rule)
  {
    forall i | 0 <= i < |rows| ensures Enforced(rows[i], q) && rows[i].rule == rule <==> Mutes(rows[i], q, rule) {}
  }

  predicate Mutes(o: Override, q: Query, rule: string) {
    && o.rule == rule && o.tenant == q.tenant && o.active
    && (o.expires == None || o.expires.value > q.now)
    && NamesTarget(o, q.repository, q.source)
  }

  predicate NamesTarget(o: Override, repository: Option<string>, source: Option<string>) {
    match (o.repository, o.source)
    case (None, None) => true
    case (None, Some(_)) => o.source == source
    case (Some(_), None) => o.repository == repository
    case (Some(_), Some(_)) => o.repository == repository || o.source == source
  }

  ghost predicate UniqueIds(rows: seq<Override>) {
    forall i, j :: 0 <= i < j < |rows| ==> rows[i].id != rows[j].id
  }

  // ---------- The owner of a rule ----------

  /** The row credited with a rule's blocks after the first `n` rows, in the order the query
      returned them: a scoped row always takes over, an organisation-wide one only if free. */
  function Owner(rows: seq<Override>, q: Query, rule: string, n: nat): (owner: Option<nat>)
    requires n <= |rows|
    ensures owner.Some? ==> owner.value < n
  {
    if n == 0 then None
    else
      var before := Owner(rows, q, rule, n - 1);
      if Enforced(rows[n-1], q) && rows[n-1].rule == rule && (before.None? || !OrgWide(rows[n-1])) then Some(n - 1)
      else before
  }

  predicate Candidate(rows: seq<Override>, q: Query, rule: string, i: nat)
    requires i < |rows|
  {
    Enforced(rows[i], q) && rows[i].rule == rule
  }

  /** The owner is an enforced override of that rule, it exists whenever there is one, and it
      is target-scoped whenever a target-scoped one exists, in whatever order the rows came. */
  lemma {:induction false} OwnerMeaning(rows: seq<Override>, q: Query, rule: string, n: nat)
    requires n <= |rows|
    ensures var owner := Owner(rows, q, rule, n);
            && (owner.Some? <==> exists i :: 0 <= i < n && Candidate(rows, q, rule, i))
            && (owner.Some? ==> owner.value < n && Candidate(rows, q, rule, owner.value))
            && (owner.Some? ==> (!OrgWide(rows[owner.value]) <==>
                  exists i :: 0 <= i < n && Candidate(rows, q, rule, i) && !OrgWide(rows[i])))
  {
    if n > 0 {
      OwnerMeaning(rows, q, rule, n - 1);
      if Candidate(rows, q, rule, n - 1) {
        assert n - 1 < n;
      }
    }
  }

  /** Among several overrides of a rule the last scoped one is credited, and without a scoped
      one the first organisation-wide one. */
  lemma {:induction false} OwnerAmongSeveral(rows: seq<Override>, q: Query, rule: string, n: nat)
    requires n <= |rows| && Owner(rows, q, rule, n).Some?
    ensures var owner := Owner(rows, q, rule, n).value;
            if OrgWide(rows[owner]) then forall i :: 0 <= i < owner ==> !Candidate(rows, q, rule, i)
            else forall i :: owner < i < n && Candidate(rows, q, rule, i) ==> OrgWide(rows[i])
  {
    if n > 0 {
      OwnerMeaning(rows, q, rule, n - 1);
      if Owner(rows, q, rule, n - 1).Some? {
        OwnerAmongSeveral(rows, q, rule, n - 1);
      }
    }
  }

  /** With the table and the moment unchanged, a rule is in the loaded mute set exactly when
      the recorder finds an owner for it. */
  lemma MutedIffOwned(rows: seq<Override>, q: Query, rule: string)
    requires rule != ""
    ensures rule in MutedRules(rows, q) <==> Owner(rows, q, rule, |rows|).Some?
  {
    OwnerMeaning(rows, q, rule, |rows|);
    if rule in MutedRules(rows, q) {
      var i :| 0 <= i < |rows| && Enforced(rows[i], q) && rows[i].rule == rule;
      assert Candidate(rows, q, rule, i);
    }
  }

  // ---------- Writing the counts back ----------

  type Counts = seq<(string, nat)>

  ghost predicate DistinctRules(counts: Counts) {
    forall i, j :: 0 <= i < j < |counts| ==> counts[i].0 != counts[j].0
  }

  /** times_blocked := times_blocked + count, WHERE id = … */
  function Bumped(rows: seq<Override>, id: nat, count: nat): seq<Override> {
    if rows == [] then []
    else
      var last := rows[|rows|-1];
      Bumped(rows[..|rows|-1], id, count) + [if last.id == id then last.(blocked := last.blocked + count) else last]
  }

  function Credited(rows: seq<Override>, table: seq<Override>, q: Query, count: (string, nat)): seq<Override> {
    var owner := Owner(rows, q, count.0, |rows|);
    if count.1 > 0 && owner.Some? then Bumped(table, rows[owner.value].id, count.1) else table
  }

  /** The table after crediting all counts to the owners found in `rows`. */
  function Recorded(rows: seq<Override>, q: Query, counts: Counts): seq<Override> {
    if counts == [] then rows
    else Credited(rows, Recorded(rows, q, counts[..|counts|-1]), q, counts[|counts|-1])
  }

  function TotalBlocked(rows: seq<Override>): nat {
    if rows == [] then 0 else TotalBlocked(rows[..|rows|-1]) + rows[|rows|-1].blocked
  }

  function TotalCount(counts: Counts): nat {
    if counts == [] then 0 else TotalCount(counts[..|counts|-1]) + counts[|counts|-1].1
  }

  /** What of the counts still has an owner. */
  function OwnedCount(rows: seq<Override>, q: Query, counts: Counts): nat {
    if counts == [] then 0
    else
      var last := counts[|counts|-1];
      OwnedCount(rows, q, counts[..|counts|-1]) + if Owner(rows, q, last.0, |rows|).Some? then last.1 else 0
  }

  class OverrideTable {
    var rows: seq<Override>

    constructor (rows: seq<Override>)
      ensures this.rows == rows
    {
      this.rows := rows;
    }

    /** One pass picks the owners, a second one issues the UPDATEs. */
    method RecordBlocks(counts: Counts, q: Query)
      requires UniqueIds(rows) && DistinctRules(counts)
      modifies this
      ensures rows == Recorded(old(rows), q, counts)
    {
      ghost var start := rows;
      var fired := FiredRules(counts);
      var ownerFor: map<string, nat> := map[];
      for i := 0 to |rows|
        invariant rows == start
        invariant forall rule :: rule in fired ==>
          (rule in ownerFor <==> Owner(start, q, rule, i).Some?)
          && (rule in ownerFor ==> ownerFor[rule] == start[Owner(start, q, rule, i).value].id)
      {
        var o := rows[i];
        if Enforced(o, q) && o.rule in fired {
          var isScoped := o.repository.Some? || o.source.Some?;
          if o.rule !in ownerFor || isScoped {
            ownerFor := ownerFor[o.rule := o.id];
          }
        }
      }
      for k := 0 to |counts|
        invariant rows == Recorded(start, q, counts[..k])
      {
        assert counts[..k+1][..k] == counts[..k];
        var (rule, count) := counts[k];
        FiredMeaning(counts, k);
        if count > 0 && rule in ownerFor {
          rows := Bumped(rows, ownerFor[rule], count);
        }
      }
      assert counts[..|counts|] == counts;
    }
  }

  function FiredRules(counts: Counts): set<string> {
    if counts == [] then {}
    else
      var last := counts[|counts|-1];
      if last.1 > 0 then FiredRules(counts[..|counts|-1]) + {last.0} else FiredRules(counts[..|counts|-1])
  }

  lemma {:induction false} FiredMeaning(counts: Counts, k: nat)
    requires k < |counts|
    ensures counts[k].1 > 0 ==> counts[k].0 in FiredRules(counts)
  {
    if k < |counts| - 1 {
      FiredMeaning(counts[..|counts|-1], k);
    }
  }

  // ---------- Where the counts end up ----------

  lemma {:induction false} BumpedAt(table: seq<Override>, id: nat, count: nat)
    ensures |Bumped(table, id, count)| == |table|
    ensures forall i :: 0 <= i < |table| ==>
              Bumped(table, id, count)[i]
              == if table[i].id == id then table[i].(blocked := table[i].blocked + count) else table[i]
  {
    if table != [] {
      BumpedAt(table[..|table|-1], id, count);
    }
  }

  lemma {:induction false} BumpedTotal(table: seq<Override>, id: nat, count: nat)
    requires UniqueIds(table)
    ensures TotalBlocked(Bumped(table, id, count))
         == TotalBlocked(table) + if exists i :: 0 <= i < |table| && table[i].id == id then count else 0
  {
    if table != [] {
      var front := table[..|table|-1];
      BumpedTotal(front, id, count);
      var bumped := Bumped(table, id, count);
      assert bumped[..|bumped|-1] == Bumped(front, id, count);
      if table[|front|].id == id {
        assert forall i :: 0 <= i < |front| ==> front[i] == table[i] && front[i].id != id;
      } else if i :| 0 <= i < |table| && table[i].id == id {
        assert front[i].id == id;
      }
    }
  }

  /** Only counters change. */
  ghost predicate SameButCounters(before: seq<Override>, after: seq<Override>) {
    |before| == |after| && forall i :: 0 <= i < |before| ==> after[i] == before[i].(blocked := after[i].blocked)
  }

  lemma {:induction false} RecordedKeepsRows(rows: seq<Override>, q: Query, counts: Counts)
    ensures SameButCounters(rows, Recorded(rows, q, counts))
    decreases |counts|
  {
    if counts != [] {
      var front, last := counts[..|counts|-1], counts[|counts|-1];
      RecordedKeepsRows(rows, q, front);
      var owner := Owner(rows, q, last.0, |rows|);
      if owner.Some? {
        OwnerMeaning(rows, q, last.0, |rows|);
        BumpedAt(Recorded(rows, q, front), rows[owner.value].id, last.1);
      }
    }
  }

  /** Each blocked rule increments exactly one row, its owner, by its whole count; a row that
      owns no counted rule is untouched. */
  lemma {:induction false} EachRuleCreditsItsOwner(rows: seq<Override>, q: Query, counts: Counts, i: nat)
    requires UniqueIds(rows) && DistinctRules(counts) && i < |rows|
    ensures |Recorded(rows, q, counts)| == |rows|
    ensures Recorded(rows, q, counts)[i].blocked == rows[i].blocked + CreditOf(rows, q, counts, i)
    decreases |counts|
  {
    RecordedKeepsRows(rows, q, counts);
    if counts != [] {
      var front, last := counts[..|counts|-1], counts[|counts|-1];
      EachRuleCreditsItsOwner(rows, q, front, i);
      RecordedKeepsRows(rows, q, front);
      var owner := Owner(rows, q, last.0, |rows|);
      if owner.Some? {
        OwnerMeaning(rows, q, last.0, |rows|);
        BumpedAt(Recorded(rows, q, front), rows[owner.value].id, last.1);
        assert rows[owner.value].id == rows[i].id ==> owner.value == i;
      }
    }
  }

  /** The counts of the rules that row `i` owns; it can own one rule only, its own. */
  function CreditOf(rows: seq<Override>, q: Query, counts: Counts, i: nat): nat
    requires i < |rows|
  {
    if counts == [] then 0
    else
      var last := counts[|counts|-1];
      CreditOf(rows, q, counts[..|counts|-1], i)
      + if Owner(rows, q, last.0, |rows|) == Some(i) then last.1 else 0
  }

  lemma {:induction false} CreditIsOneCount(rows: seq<Override>, q: Query, counts: Counts, i: nat, k: nat)
    requires DistinctRules(counts) && i < |rows| && k < |counts| && counts[k].0 == rows[i].rule
    ensures CreditOf(rows, q, counts, i) == if Owner(rows, q, rows[i].rule, |rows|) == Some(i) then counts[k].1 else 0
    decreases |counts|
  {
    var front, last := counts[..|counts|-1], counts[|counts|-1];
    OwnerMeaning(rows, q, last.0, |rows|);
    if k == |counts| - 1 {
      NoCredit(rows, q, front, i);
    } else {
      CreditIsOneCount(rows, q, front, i, k);
    }
  }

  lemma {:induction false} NoCredit(rows: seq<Override>, q: Query, counts: Counts, i: nat)
    requires i < |rows| && forall k :: 0 <= k < |counts| ==> counts[k].0 != rows[i].rule
    ensures CreditOf(rows, q, counts, i) == 0
    decreases |counts|
  {
    if counts != [] {
      NoCredit(rows, q, counts[..|counts|-1], i);
      OwnerMeaning(rows, q, counts[|counts|-1].0, |rows|);
    }
  }

  /** The increments sum to the counts that still have an owner. */
  lemma {:induction false} IncrementsAreOwnedCounts(rows: seq<Override>, q: Query, counts: Counts)
    requires UniqueIds(rows)
    ensures TotalBlocked(Recorded(rows, q, counts)) == TotalBlocked(rows) + OwnedCount(rows, q, counts)
    decreases |counts|
  {
    if counts != [] {
      var front, last := counts[..|counts|-1], counts[|counts|-1];
      IncrementsAreOwnedCounts(rows, q, front);
      RecordedKeepsRows(rows, q, front);
      var table := Recorded(rows, q, front);
      var owner := Owner(rows, q, last.0, |rows|);
      if owner.Some? {
        OwnerMeaning(rows, q, last.0, |rows|);
        assert table[owner.value].id == rows[owner.value].id;
        BumpedTotal(table, rows[owner.value].id, last.1);
      }
    }
  }

  lemma {:induction false} OwnedIsAllIff(rows: seq<Override>, q: Query, counts: Counts)
    ensures OwnedCount(rows, q, counts) <= TotalCount(counts)
    ensures OwnedCount(rows, q, counts) == TotalCount(counts)
       <==> forall k :: 0 <= k < |counts| && counts[k].1 > 0 ==> Owner(rows, q, counts[k].0, |rows|).Some?
  {
    if counts != [] {
      var front := counts[..|counts|-1];
      OwnedIsAllIff(rows, q, front);
      assert forall k :: 0 <= k < |front| ==> front[k] == counts[k];
      assert counts[|front|] == counts[|counts|-1];
    }
  }

  /** No block is lost exactly when every blocked rule is still muted when the counts are
      written; in particular when nothing expired since the mute set was loaded. */
  lemma NoBlockIsLostIff(rows: seq<Override>, q: Query, counts: Counts)
    requires UniqueIds(rows) && forall k :: 0 <= k < |counts| ==> counts[k].0 != ""
    ensures TotalBlocked(Recorded(rows, q, counts)) == TotalBlocked(rows) + TotalCount(counts)
       <==> forall k :: 0 <= k < |counts| && counts[k].1 > 0 ==> counts[k].0 in MutedRules(rows, q)
  {
    IncrementsAreOwnedCounts(rows, q, counts);
    OwnedIsAllIff(rows, q, counts);
    forall k | 0 <= k < |counts|
      ensures counts[k].0 in MutedRules(rows, q) <==> Owner(rows, q, counts[k].0, |rows|).Some?
    {
      MutedIffOwned(rows, q, counts[k].0);
    }
  }

  /** An override that expires between the load and the write-back loses its blocks. */
  lemma ExpiryDuringScanLosesBlocks()
    ensures var row := Override(1, "tenant", "R", None, None, true, Some(10), 0);
            var load, write := Query("tenant", None, None, 5), Query("tenant", None, None, 10);
            "R" in MutedRules([row], load) && TotalBlocked(Recorded([row], write, [("R", 3)])) == 0
  {
    var row := Override(1, "tenant", "R", None, None, true, Some(10), 0);
    var load, write := Query("tenant", None, None, 5), Query("tenant", None, None, 10);
    assert Enforced([row][0], load);
    assert Owner([row], write, "R", 1) == None;
    IncrementsAreOwnedCounts([row], write, [("R", 3)]);
    OwnedIsAllIff([row], write, [("R", 3)]);
    assert OwnedCount([row], write, []) == 0;
    assert [("R", 3)][..0] == [];
    assert [row][..0] == [];
  }
}
