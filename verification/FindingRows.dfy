// Finding rows and their two keys: the within-scan fingerprint and the stability id, and
// what creating or refreshing one row does.
module FindingRows {
  import opened Prelude

  /** What the inline verifier said about the credential. */
  datatype Verdict = Unproven | Live | Dead

  /** A finding as the detector emits it; `branded` is its customer-facing rule id. */
  datatype Raw = Raw(rule: string, branded: string, path: string, line: nat, category: string,
                     secretHash: string, severity: nat, title: string, verdict: Verdict)

  /** The hashed fields, with the truncated digests taken to be injective. */
  datatype Fingerprint = Fingerprint(rule: string, path: string, line: nat, category: string)
  datatype Sid = BySecret(secretHash: string, path: string) | ByPlace(rule: string, path: string, line: nat)

  datatype Reason = NoReason | VerifiedInactive | OtherReason
  datatype Remediation = Untouched | Applied | InHand

  datatype Row = Row(sid: Sid, line: nat, severity: nat, title: string, suppressed: bool, reason: Reason,
                     classification: string, remediation: Remediation, incident: Option<string>, scanCount: nat)

  function FingerprintOf(raw: Raw): Fingerprint {
    Fingerprint(raw.rule, raw.path, raw.line, raw.category)
  }

  function TrimSlashes(path: string): string {
    if path != "" && path[0] == '/' then TrimSlashes(path[1..]) else path
  }

  /** The path below the checkout, or "unknown". */
  function RelativePath(root: string, path: string): string {
    var known := if path == "" then "unknown" else path;
    if root <= known then TrimSlashes(known[|root|..]) else known
  }

  function SidOf(root: string, raw: Raw): Sid {
    var path := RelativePath(root, raw.path);
    if raw.secretHash != "" then BySecret(raw.secretHash, path) else ByPlace(raw.rule, path, raw.line)
  }

  function IncidentOf(raw: Raw): Option<string> {
    if raw.secretHash == "" then None else Some(raw.secretHash)
  }

  function Cut(title: string): string {
    if |title| > 500 then title[..500] else title
  }

  predicate IsMuted(raw: Raw, muted: set<string>) {
    raw.branded != "" && raw.branded in muted
  }

  function Created(root: string, raw: Raw): Row {
    Row(SidOf(root, raw), raw.line, raw.severity, Cut(if raw.title == "" then "Untitled" else raw.title),
        raw.verdict == Dead, if raw.verdict == Dead then VerifiedInactive else NoReason,
        "needs_review", Untouched, IncidentOf(raw), 1)
  }

  function Refreshed(row: Row, raw: Raw): Row {
    var lifted := raw.verdict == Live && row.reason == VerifiedInactive;
    row.(line := raw.line, severity := raw.severity,
         title := if raw.title == "" then row.title else Cut(raw.title),
         suppressed := if raw.verdict == Dead then true else if lifted then false else row.suppressed,
         reason := if raw.verdict == Dead then VerifiedInactive else if lifted then NoReason else row.reason,
         incident := IncidentOf(raw), scanCount := row.scanCount + 1)
  }

  /** The row without the counter that says how often it was seen. */
  function Core(row: Row): Row {
    row.(scanCount := 0)
  }

  function Cores(rows: seq<Row>): seq<Row> {
    seq(|rows|, i requires 0 <= i < |rows| => Core(rows[i]))
  }

  predicate Has(rows: seq<Row>, sid: Sid) {
    exists i :: 0 <= i < |rows| && rows[i].sid == sid
  }

  ghost predicate Unique(rows: seq<Row>) {
    forall i, j :: 0 <= i < j < |rows| ==> rows[i].sid != rows[j].sid
  }

  /** The position of the row holding `sid`. */
  function Find(rows: seq<Row>, sid: Sid): (i: nat)
    requires Has(rows, sid)
    ensures i < |rows| && rows[i].sid == sid
    ensures forall j :: 0 <= j < i ==> rows[j].sid != sid
  {
    if rows[0].sid == sid then 0
    else
      assert Has(rows[1..], sid) by {
        var i :| 0 <= i < |rows| && rows[i].sid == sid;
        assert rows[1..][i-1].sid == sid;
      }
      1 + Find(rows[1..], sid)
  }

  /** One finding against the table: refresh its row, drop it if its rule is muted, or
      create its row. Muting gates creation only. */
  function Applied1(root: string, rows: seq<Row>, raw: Raw, muted: set<string>): seq<Row> {
    var sid := SidOf(root, raw);
    if Has(rows, sid) then rows[Find(rows, sid) := Refreshed(rows[Find(rows, sid)], raw)]
    else if IsMuted(raw, muted) then rows
    else rows + [Created(root, raw)]
  }

  function Stored(root: string, rows: seq<Row>, kept: seq<Raw>, muted: set<string>): seq<Row>
    decreases |kept|
  {
    if kept == [] then rows
    else Applied1(root, Stored(root, rows, kept[..|kept|-1], muted), kept[|kept|-1], muted)
  }

  // ---------- Facts about single rows ----------

  lemma RefreshIsIdempotent(row: Row, raw: Raw)
    ensures Core(Refreshed(Refreshed(row, raw), raw)) == Core(Refreshed(row, raw))
  {}

  lemma RefreshAfterCreate(root: string, raw: Raw)
    ensures Core(Refreshed(Created(root, raw), raw)) == Core(Created(root, raw))
  {}

  /** Equal up to counters stays equal up to counters, whatever finding arrives. */
  lemma AppliedRespectsCores(root: string, a: seq<Row>, b: seq<Row>, raw: Raw, muted: set<string>)
    requires Cores(a) == Cores(b)
    ensures Cores(Applied1(root, a, raw, muted)) == Cores(Applied1(root, b, raw, muted))
  {
    var sid := SidOf(root, raw);
    SameCores(a, b);
    if Has(a, sid) {
      var i := Find(a, sid);
      assert b[i].sid == sid;
      assert Find(b, sid) == i;
    } else {
      assert !Has(b, sid);
    }
  }

  lemma SameCores(a: seq<Row>, b: seq<Row>)
    requires Cores(a) == Cores(b)
    ensures |a| == |b|
    ensures forall i :: 0 <= i < |a| ==> Core(a[i]) == Core(b[i]) && a[i].sid == b[i].sid
  {
    assert |Cores(a)| == |a| && |Cores(b)| == |b|;
    forall i | 0 <= i < |a| ensures Core(a[i]) == Core(b[i]) {
      assert Cores(a)[i] == Cores(b)[i];
    }
  }

  lemma AppliedKeepsUnique(root: string, rows: seq<Row>, raw: Raw, muted: set<string>)
    requires Unique(rows)
    ensures Unique(Applied1(root, rows, raw, muted))
    ensures forall sid :: Has(Applied1(root, rows, raw, muted), sid) <==>
              Has(rows, sid) || (sid == SidOf(root, raw) && !IsMuted(raw, muted))
  {
    var after := Applied1(root, rows, raw, muted);
    var own := SidOf(root, raw);
    forall sid
      ensures Has(after, sid) <==> Has(rows, sid) || (sid == own && !IsMuted(raw, muted))
    {
      if Has(rows, sid) {
        var i := Find(rows, sid);
        assert after[i].sid == sid;
      } else {
        assert forall i :: 0 <= i < |rows| ==> rows[i].sid != sid;
      }
      if !Has(rows, own) && !IsMuted(raw, muted) { assert after[|rows|].sid == own; }
    }
  }

  lemma {:induction false} StoredKeepsUnique(root: string, rows: seq<Row>, kept: seq<Raw>, muted: set<string>)
    requires Unique(rows)
    ensures Unique(Stored(root, rows, kept, muted))
    decreases |kept|
  {
    if kept != [] {
      var front := kept[..|kept|-1];
      StoredKeepsUnique(root, rows, front, muted);
      AppliedKeepsUnique(root, Stored(root, rows, front, muted), kept[|kept|-1], muted);
    }
  }
}
