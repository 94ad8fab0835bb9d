// The codemod that rewrites lookahead rules: the bounded search below each rule id, and the
// bottom-up splicing of replacement lines into the file.
module LookaheadSplicer {
  import opened Prelude

  /** What a recognised pattern is rewritten to: the stripped base and the post-filter fields
      to inject, one per line, without indentation. */
  datatype Rewrite = Rewrite(base: string, fields: seq<string>)

  /** A `pattern=` line taken apart. */
  datatype PatternLine = PatternLine(indent: string, quote: string, pattern: string)

  /** The regular expressions of the script, as functions. */
  datatype Matchers = Matchers(ruleId: string -> Option<string>, patternLine: string -> Option<PatternLine>,
                               parse: string -> Option<Rewrite>)

  const WINDOW := 30
  const NOTE := "# 2-pass: lookahead \U{2192} post_filter_* (Option B-1 codemod, 2026-05-24)."

  // ---------- Lines that end the search ----------

  predicate Contains(line: string, part: string) {
    part <= line || (line != "" && Contains(line[1..], part))
  }

  function TrimRight(line: string): string {
    if line != "" && (line[|line|-1] == ' ' || line[|line|-1] == '\t' || line[|line|-1] == '\r')
    then TrimRight(line[..|line|-1]) else line
  }

  predicate EndsRule(line: string) {
    var trimmed := TrimRight(line);
    |trimmed| >= 2 && trimmed[|trimmed|-2..] == "),"
  }

  predicate MarksDone(line: string) {
    Contains(line, "post_filter_keywords")
  }

  // ---------- The search below a rule id ----------

  /** The last pattern line between `j` and the line that ends the search, and whether that
      line says the rule was rewritten before. */
  function Scan(m: Matchers, lines: seq<string>, j: nat, end: nat): (Option<nat>, bool)
    requires end <= |lines|
    decreases end - j
  {
    if j >= end then (None, false)
    else
      var here := if m.patternLine(lines[j]).Some? then Some(j) else None;
      if MarksDone(lines[j]) then (here, true)
      else if EndsRule(lines[j]) then (here, false)
      else
        var rest := Scan(m, lines, j + 1, end);
        (if rest.0.Some? then rest.0 else here, rest.1)
  }

  function BlockEnd(lines: seq<string>, i: nat): nat {
    if i + WINDOW < |lines| then i + WINDOW else |lines|
  }

  method Locate(m: Matchers, lines: seq<string>, i: nat) returns (at: Option<nat>, done: bool)
    requires i < |lines|
    ensures (at, done) == Scan(m, lines, i, BlockEnd(lines, i))
  {
    var end := BlockEnd(lines, i);
    at, done := None, false;
    var j := i;
    while j < end
      invariant i <= j <= end && !done
      invariant Scan(m, lines, i, end)
             == (var rest := Scan(m, lines, j, end); (if rest.0.Some? then rest.0 else at, rest.1))
    {
      if m.patternLine(lines[j]).Some? {
        at := Some(j);
      }
      if MarksDone(lines[j]) {
        done := true;
        return;
      }
      if EndsRule(lines[j]) {
        return;
      }
      j := j + 1;
    }
  }

  /** What the search finds is a pattern line of its window, and no line before it ends the
      rule or says that the rule was rewritten. */
  lemma {:induction false} ScanFindsPattern(m: Matchers, lines: seq<string>, j: nat, end: nat)
    requires end <= |lines| && Scan(m, lines, j, end).0.Some?
    ensures var at := Scan(m, lines, j, end).0.value; j <= at < end && m.patternLine(lines[at]).Some?
    ensures forall k :: j <= k < Scan(m, lines, j, end).0.value ==> !EndsRule(lines[k]) && !MarksDone(lines[k])
    decreases end - j
  {
    if !MarksDone(lines[j]) && !EndsRule(lines[j]) && Scan(m, lines, j + 1, end).0.Some? {
      ScanFindsPattern(m, lines, j + 1, end);
    }
  }

  /** The search gets as far as line `k`: nothing before it ends the rule or marks it done. */
  ghost predicate Reaches(lines: seq<string>, j: nat, end: nat, k: nat)
    requires end <= |lines|
  {
    j <= k < end && forall l :: j <= l < k ==> !EndsRule(lines[l]) && !MarksDone(lines[l])
  }

  /** It finds the last pattern line it gets to, if there is one, and says done exactly when it
      gets to a mark. */
  lemma {:induction false} ScanMeaning(m: Matchers, lines: seq<string>, j: nat, end: nat)
    requires end <= |lines|
    ensures var found := Scan(m, lines, j, end);
            && (found.0.Some? ==> Reaches(lines, j, end, found.0.value) && m.patternLine(lines[found.0.value]).Some?)
            && (forall k: nat :: Reaches(lines, j, end, k) && m.patternLine(lines[k]).Some? ==> found.0.Some? && k <= found.0.value)
            && (found.1 <==> exists k: nat :: Reaches(lines, j, end, k) && MarksDone(lines[k]))
    decreases end - j
  {
    if j < end {
      assert Reaches(lines, j, end, j);
      if !MarksDone(lines[j]) && !EndsRule(lines[j]) {
        ScanMeaning(m, lines, j + 1, end);
        forall k: nat ensures Reaches(lines, j, end, k) <==> k == j || Reaches(lines, j + 1, end, k) {}
      } else {
        forall k: nat ensures Reaches(lines, j, end, k) <==> k == j {}
      }
    }
  }

  /** The window is the line of the rule id and the twenty-nine below it, or up to the end. */
  lemma WindowIsThirty(lines: seq<string>, i: nat)
    requires i < |lines|
    ensures i < BlockEnd(lines, i) <= |lines| && BlockEnd(lines, i) - i <= 30
    ensures BlockEnd(lines, i) - i == 30 || BlockEnd(lines, i) == |lines|
  {}

  lemma {:induction false} BlanksAreTrimmed(line: string, blanks: string)
    requires forall k :: 0 <= k < |blanks| ==> blanks[k] in " \t\r"
    requires line != "" ==> line[|line|-1] !in " \t\r"
    ensures TrimRight(line + blanks) == line
    decreases |blanks|
  {
    if blanks == "" {
      assert line + blanks == line;
    } else {
      var all, front := line + blanks, blanks[..|blanks|-1];
      assert all[|all|-1] == blanks[|blanks|-1] && all[..|all|-1] == line + front;
      BlanksAreTrimmed(line, front);
    }
  }

  /** A rule ends at a line that closes a constructor, whatever blanks follow. */
  lemma EndsRuleIff(line: string, blanks: string)
    requires forall k :: 0 <= k < |blanks| ==> blanks[k] in " \t\r"
    requires line != "" ==> line[|line|-1] !in " \t\r"
    ensures EndsRule(line + blanks) <==> |line| >= 2 && line[|line|-2..] == "),"
  {
    BlanksAreTrimmed(line, blanks);
  }

  lemma TailSlice(line: string, k: nat, n: nat)
    requires k + n < |line|
    ensures line[1..][k..k+n] == line[k+1..k+1+n]
  {
    assert line[1..][k..] == line[k+1..];
    assert line[1..][k..k+n] == line[1..][k..][..n] && line[k+1..k+1+n] == line[k+1..][..n];
  }

  predicate StandsAt(line: string, part: string, k: nat) {
    k + |part| <= |line| && line[k..k+|part|] == part
  }

  /** A line marks its rule done exactly when the field's name stands somewhere in it. */
  lemma MarksDoneIff(line: string)
    ensures MarksDone(line) <==> exists k :: StandsAt(line, "post_filter_keywords", k)
  {
    ContainsIff(line, "post_filter_keywords");
  }

  lemma {:induction false} ContainsIff(line: string, part: string)
    ensures Contains(line, part) <==> exists k :: StandsAt(line, part, k)
  {
    assert part <= line <==> StandsAt(line, part, 0);
    if line != "" {
      ContainsIff(line[1..], part);
      forall k: nat ensures StandsAt(line[1..], part, k) <==> StandsAt(line, part, k + 1) {
        if k + |part| <= |line| - 1 {
          TailSlice(line, k, |part|);
        }
      }
      if k: nat :| StandsAt(line, part, k) && k > 0 {
        assert StandsAt(line[1..], part, k - 1);
      }
    }
  }

  /** A search that starts later but not past the first one's find, and reaches further, finds
      something at least as far down. */
  lemma {:induction false} LaterScanFindsLater(m: Matchers, lines: seq<string>, j: nat, end: nat, j': nat, end': nat)
    requires j <= j' && end <= end' <= |lines|
    requires Scan(m, lines, j, end).0.Some? && j' <= Scan(m, lines, j, end).0.value
    ensures Scan(m, lines, j', end').0.Some? && Scan(m, lines, j, end).0.value <= Scan(m, lines, j', end').0.value
    decreases end' - j
  {
    ScanFindsPattern(m, lines, j, end);
    if j < j' {
      LaterScanFindsLater(m, lines, j + 1, end, j', end');
    } else if !MarksDone(lines[j]) && !EndsRule(lines[j]) {
      if Scan(m, lines, j + 1, end).0.Some? {
        ScanFindsPattern(m, lines, j + 1, end);
        LaterScanFindsLater(m, lines, j + 1, end, j + 1, end');
      } else if Scan(m, lines, j + 1, end').0.Some? {
        ScanFindsPattern(m, lines, j + 1, end');
      }
    }
  }

  // ---------- The edits ----------

  datatype Edit = Edit(at: nat, replacement: string, injected: seq<string>)

  function Indented(indent: string, fields: seq<string>): seq<string> {
    if fields == [] then [] else Indented(indent, fields[..|fields|-1]) + [indent + fields[|fields|-1]]
  }

  /** What becomes of one pattern line. */
  function EditOf(m: Matchers, lines: seq<string>, at: nat): Option<Edit>
    requires at < |lines|
  {
    var line := m.patternLine(lines[at]);
    if line.None? then None
    else
      var rewrite := m.parse(line.value.pattern);
      if rewrite.None? then None
      else
        var PatternLine(indent, quote, _) := line.value;
        Some(Edit(at, indent + "pattern=r" + quote + rewrite.value.base + quote + ",",
                  [indent + NOTE] + Indented(indent, rewrite.value.fields)))
  }

  /** What becomes of the rule whose id is on line `i`, if there is one. */
  datatype Outcome =
    | NoRule
    | Unselected
    | NoPattern
    | AlreadyDone(id: string)
    | Unrecognised(id: string, pattern: string)
    | Rewritten(id: string, edit: Edit)

  function RuleOutcome(m: Matchers, lines: seq<string>, i: nat, only: Option<set<string>>): (outcome: Outcome)
    requires i < |lines|
    ensures outcome.Rewritten? ==> i <= outcome.edit.at < |lines| && outcome.edit.injected != []
  {
    var id := m.ruleId(lines[i]);
    if id.None? then NoRule
    else if only.Some? && id.value !in only.value then Unselected
    else
      var found := Scan(m, lines, i, BlockEnd(lines, i));
      if found.0.None? then NoPattern
      else if found.1 then AlreadyDone(id.value)
      else
        ScanFindsPattern(m, lines, i, BlockEnd(lines, i));
        var edit := EditOf(m, lines, found.0.value);
        if edit.Some? then Rewritten(id.value, edit.value)
        else Unrecognised(id.value, Shown(m.patternLine(lines[found.0.value]).value.pattern))
  }

  /** What becomes of a rule, from the search and the shape of its pattern: it is left alone
      when it is not selected or has no pattern, reported when it was done before or its
      pattern is not recognised, and rewritten otherwise. */
  lemma RuleFate(m: Matchers, lines: seq<string>, i: nat, only: Option<set<string>>)
    requires i < |lines| && m.ruleId(lines[i]).Some?
    ensures var id := m.ruleId(lines[i]).value;
            var found, outcome := Scan(m, lines, i, BlockEnd(lines, i)), RuleOutcome(m, lines, i, only);
            if only.Some? && id !in only.value then outcome == Unselected
            else if found.0 == None then outcome == NoPattern
            else if found.1 then outcome == AlreadyDone(id)
            else
              found.0.value < |lines| && m.patternLine(lines[found.0.value]).Some? &&
              var line := m.patternLine(lines[found.0.value]).value;
              match m.parse(line.pattern)
              case None =>
                outcome.Unrecognised? && outcome.id == id && outcome.pattern <= line.pattern
                && |outcome.pattern| == if |line.pattern| > 80 then 80 else |line.pattern|
              case Some(rewrite) =>
                outcome.Rewritten? && outcome.id == id && Rewrites(outcome.edit, found.0.value, line, rewrite)
  {
    ScanMeaning(m, lines, i, BlockEnd(lines, i));
    var found := Scan(m, lines, i, BlockEnd(lines, i));
    if found.0.Some? {
      var line := m.patternLine(lines[found.0.value]).value;
      if m.parse(line.pattern).Some? {
        IndentedAt(line.indent, m.parse(line.pattern).value.fields);
      }
    }
  }

  /** The edit puts the stripped pattern into its line, and below it, as deep, a note and the
      fields. */
  ghost predicate Rewrites(edit: Edit, at: nat, line: PatternLine, rewrite: Rewrite) {
    && edit.at == at
    && edit.replacement == line.indent + "pattern=r" + line.quote + rewrite.base + line.quote + ","
    && |edit.injected| == |rewrite.fields| + 1
    && edit.injected[0] == line.indent + NOTE
    && forall k :: 0 <= k < |rewrite.fields| ==> edit.injected[k+1] == line.indent + rewrite.fields[k]
  }

  lemma {:induction false} IndentedAt(indent: string, fields: seq<string>)
    ensures |Indented(indent, fields)| == |fields|
    ensures forall k :: 0 <= k < |fields| ==> Indented(indent, fields)[k] == indent + fields[k]
  {
    if fields != [] {
      IndentedAt(indent, fields[..|fields|-1]);
    }
  }

  /** The first eighty characters of a pattern. */
  function Shown(pattern: string): string {
    if |pattern| > 80 then pattern[..80] else pattern
  }

  /** The edit, if any, of the rule whose id is on line `i`. */
  function RuleEdit(m: Matchers, lines: seq<string>, i: nat, only: Option<set<string>>): Option<Edit>
    requires i < |lines|
  {
    var outcome := RuleOutcome(m, lines, i, only);
    if outcome.Rewritten? then Some(outcome.edit) else None
  }

  /** The rules rewritten and skipped, in the order they were worked on. */
  datatype Report = Report(rewritten: seq<string>, done: seq<string>, unrecognised: seq<(string, string)>)

  function Noted(report: Report, outcome: Outcome): Report {
    match outcome
    case AlreadyDone(id) => report.(done := report.done + [id])
    case Unrecognised(id, pattern) => report.(unrecognised := report.unrecognised + [(id, pattern)])
    case Rewritten(id, _) => report.(rewritten := report.rewritten + [id])
    case _ => report
  }

  /** The report on the rules from line `i` on; the last rule of the file comes first. */
  function Reported(m: Matchers, lines: seq<string>, only: Option<set<string>>, i: nat): Report
    requires i <= |lines|
    decreases |lines| - i
  {
    if i == |lines| then Report([], [], []) else Noted(Reported(m, lines, only, i + 1), RuleOutcome(m, lines, i, only))
  }

  /** The edits of the rules from line `i` on, in file order. */
  function Edits(m: Matchers, lines: seq<string>, only: Option<set<string>>, i: nat): (edits: seq<Edit>)
    requires i <= |lines|
    ensures forall k :: 0 <= k < |edits| ==> i <= edits[k].at < |lines| && edits[k].injected != []
    decreases |lines| - i
  {
    if i == |lines| then []
    else
      var edit := RuleEdit(m, lines, i, only);
      if edit.None? then Edits(m, lines, only, i + 1)
      else
        [edit.value] + Edits(m, lines, only, i + 1)
  }

  /** One in-place edit: overwrite the line and insert the new ones behind it. */
  function Splice(lines: seq<string>, e: Edit): seq<string>
    requires e.at < |lines|
  {
    lines[..e.at] + [e.replacement] + e.injected + lines[e.at+1..]
  }

  /** Bottom-up: the last edit first, each on the lines the later ones left. */
  function SpliceAll(lines: seq<string>, edits: seq<Edit>): (spliced: seq<string>)
    requires forall k :: 0 <= k < |edits| ==> edits[k].at < |lines|
    ensures |spliced| == |lines| + TotalInjected(edits)
  {
    if edits == [] then lines else Splice(SpliceAll(lines, edits[1..]), edits[0])
  }

  function TotalInjected(edits: seq<Edit>): nat {
    if edits == [] then 0 else |edits[0].injected| + TotalInjected(edits[1..])
  }

  /** One rule: the bounded search below its id, then the shape of its pattern. */
  method Examine(m: Matchers, lines: seq<string>, i: nat, only: Option<set<string>>) returns (outcome: Outcome)
    requires i < |lines|
    ensures outcome == RuleOutcome(m, lines, i, only)
  {
    var id := m.ruleId(lines[i]);
    if id.None? {
      return NoRule;
    }
    if only.Some? && id.value !in only.value {
      return Unselected;
    }
    var at, done := Locate(m, lines, i);
    if at.None? {
      return NoPattern;
    }
    if done {
      return AlreadyDone(id.value);
    }
    ScanFindsPattern(m, lines, i, BlockEnd(lines, i));
    var edit := EditOf(m, lines, at.value);
    if edit.None? {
      return Unrecognised(id.value, Shown(m.patternLine(lines[at.value]).value.pattern));
    }
    return Rewritten(id.value, edit.value);
  }

  /** The whole rewrite of one file. */
  method RewriteFile(m: Matchers, lines: seq<string>, only: Option<set<string>>)
    returns (newLines: seq<string>, report: Report)
    ensures newLines == SpliceAll(lines, Edits(m, lines, only, 0))
    ensures report == Reported(m, lines, only, 0)
  {
    newLines, report := lines, Report([], [], []);
    var i := |lines|;
    while i > 0
      invariant 0 <= i <= |lines|
      invariant IsProgress(m, lines, only, i, newLines, report)
    {
      i := i - 1;
      var outcome := Examine(m, lines, i, only);
      ProgressStep(m, lines, only, i, newLines, report);
      newLines, report := RecordOutcome(newLines, report, outcome);
    }
  }

  /** Applies one rule's edit and notes what became of the rule. */
  method RecordOutcome(lines: seq<string>, report: Report, outcome: Outcome) returns (newLines: seq<string>, noted: Report)
    requires outcome.Rewritten? ==> outcome.edit.at < |lines|
    ensures newLines == if outcome.Rewritten? then Splice(lines, outcome.edit) else lines
    ensures noted == Noted(report, outcome)
  {
    newLines, noted := lines, report;
    match outcome {
      case Rewritten(id, edit) =>
        newLines := InsertLines(lines, edit);
        noted := report.(rewritten := report.rewritten + [id]);
      case AlreadyDone(id) =>
        noted := report.(done := report.done + [id]);
      case Unrecognised(id, pattern) =>
        noted := report.(unrecognised := report.unrecognised + [(id, pattern)]);
      case _ =>
    }
  }

  /** The rules from line `i` on have been worked on. */
  ghost predicate IsProgress(m: Matchers, lines: seq<string>, only: Option<set<string>>, i: nat,
                             newLines: seq<string>, report: Report)
  {
    && i <= |lines|
    && newLines == SpliceAll(lines, Edits(m, lines, only, i))
    && report == Reported(m, lines, only, i)
  }

  lemma ProgressStep(m: Matchers, lines: seq<string>, only: Option<set<string>>, i: nat, newLines: seq<string>, report: Report)
    requires i < |lines| && IsProgress(m, lines, only, i + 1, newLines, report)
    ensures var outcome := RuleOutcome(m, lines, i, only);
            && (outcome.Rewritten? ==> outcome.edit.at < |newLines|)
            && IsProgress(m, lines, only, i, if outcome.Rewritten? then Splice(newLines, outcome.edit) else newLines,
                          Noted(report, outcome))
  {
    SpliceOne(m, lines, only, i);
  }

  /** One more rule, spliced into what the later ones left. */
  lemma SpliceOne(m: Matchers, lines: seq<string>, only: Option<set<string>>, i: nat)
    requires i < |lines|
    ensures var outcome := RuleOutcome(m, lines, i, only);
            var later := SpliceAll(lines, Edits(m, lines, only, i + 1));
            SpliceAll(lines, Edits(m, lines, only, i)) == if outcome.Rewritten? then Splice(later, outcome.edit) else later
  {
    var edit := RuleEdit(m, lines, i, only);
    if edit.Some? {
      assert ([edit.value] + Edits(m, lines, only, i + 1))[1..] == Edits(m, lines, only, i + 1);
    }
  }

  /** The rule on line `i` is selected and the search below it finds a pattern. */
  predicate HasPattern(m: Matchers, lines: seq<string>, i: nat, only: Option<set<string>>)
    requires i < |lines|
  {
    var id := m.ruleId(lines[i]);
    id.Some? && (only.None? || id.value in only.value) && Scan(m, lines, i, BlockEnd(lines, i)).0.Some?
  }

  function WithPattern(m: Matchers, lines: seq<string>, only: Option<set<string>>, i: nat): nat
    requires i <= |lines|
    decreases |lines| - i
  {
    if i == |lines| then 0 else WithPattern(m, lines, only, i + 1) + if HasPattern(m, lines, i, only) then 1 else 0
  }

  function Size(report: Report): nat {
    |report.rewritten| + |report.done| + |report.unrecognised|
  }

  lemma OneRuleCounts(m: Matchers, lines: seq<string>, only: Option<set<string>>, i: nat, report: Report)
    requires i < |lines|
    ensures var outcome := RuleOutcome(m, lines, i, only);
            && Size(Noted(report, outcome)) == Size(report) + (if HasPattern(m, lines, i, only) then 1 else 0)
            && |Noted(report, outcome).rewritten| == |report.rewritten| + (if outcome.Rewritten? then 1 else 0)
            && |Edits(m, lines, only, i)| == |Edits(m, lines, only, i + 1)| + (if outcome.Rewritten? then 1 else 0)
  {}

  /** Every selected rule with a pattern is reported exactly once, and as many are reported as
      rewritten as there are edits. */
  lemma {:induction false} ReportCountsRules(m: Matchers, lines: seq<string>, only: Option<set<string>>, i: nat)
    requires i <= |lines|
    ensures Size(Reported(m, lines, only, i)) == WithPattern(m, lines, only, i)
    ensures |Reported(m, lines, only, i).rewritten| == |Edits(m, lines, only, i)|
    decreases |lines| - i
  {
    if i < |lines| {
      ReportCountsRules(m, lines, only, i + 1);
      OneRuleCounts(m, lines, only, i, Reported(m, lines, only, i + 1));
    }
  }

  ghost predicate IsPart(part: Report, whole: Report) {
    part.rewritten <= whole.rewritten && part.done <= whole.done && part.unrecognised <= whole.unrecognised
  }

  /** The report lists each rule by what became of it, the last rule of the file first. */
  lemma ReportListsRules(m: Matchers, lines: seq<string>, only: Option<set<string>>, i: nat, id: string, pattern: string)
    requires i <= |lines|
    ensures i < |lines| ==> IsPart(Reported(m, lines, only, i + 1), Reported(m, lines, only, i))
    ensures id in Reported(m, lines, only, i).rewritten <==> exists j :: i <= j < |lines| && IsRewritten(m, lines, only, j, id)
    ensures id in Reported(m, lines, only, i).done <==> exists j :: i <= j < |lines| && RuleOutcome(m, lines, j, only) == AlreadyDone(id)
    ensures (id, pattern) in Reported(m, lines, only, i).unrecognised <==>
              exists j :: i <= j < |lines| && RuleOutcome(m, lines, j, only) == Unrecognised(id, pattern)
  {
    if i < |lines| {
      NotedLists(Reported(m, lines, only, i + 1), RuleOutcome(m, lines, i, only), id, pattern);
    }
    RewrittenIsListed(m, lines, only, i, id);
    SkippedIsListed(m, lines, only, i, AlreadyDone(id));
    SkippedIsListed(m, lines, only, i, Unrecognised(id, pattern));
  }

  lemma {:induction false} RewrittenIsListed(m: Matchers, lines: seq<string>, only: Option<set<string>>, i: nat, id: string)
    requires i <= |lines|
    ensures id in Reported(m, lines, only, i).rewritten <==> exists j :: i <= j < |lines| && IsRewritten(m, lines, only, j, id)
    decreases |lines| - i
  {
    if i < |lines| {
      RewrittenIsListed(m, lines, only, i + 1, id);
      NotedLists(Reported(m, lines, only, i + 1), RuleOutcome(m, lines, i, only), id, "");
      assert IsRewritten(m, lines, only, i, id) <==> RuleOutcome(m, lines, i, only).Rewritten? && RuleOutcome(m, lines, i, only).id == id;
    }
  }

  predicate IsSkippedAs(report: Report, outcome: Outcome) {
    match outcome
    case AlreadyDone(id) => id in report.done
    case Unrecognised(id, pattern) => (id, pattern) in report.unrecognised
    case _ => false
  }

  lemma {:induction false} SkippedIsListed(m: Matchers, lines: seq<string>, only: Option<set<string>>, i: nat, outcome: Outcome)
    requires i <= |lines| && (outcome.AlreadyDone? || outcome.Unrecognised?)
    ensures IsSkippedAs(Reported(m, lines, only, i), outcome)
       <==> exists j :: i <= j < |lines| && RuleOutcome(m, lines, j, only) == outcome
    decreases |lines| - i
  {
    if i < |lines| {
      SkippedIsListed(m, lines, only, i + 1, outcome);
      NotedLists(Reported(m, lines, only, i + 1), RuleOutcome(m, lines, i, only), outcome.id,
                 if outcome.Unrecognised? then outcome.pattern else "");
    }
  }

  predicate IsRewritten(m: Matchers, lines: seq<string>, only: Option<set<string>>, j: nat, id: string)
    requires j < |lines|
  {
    RuleOutcome(m, lines, j, only).Rewritten? && RuleOutcome(m, lines, j, only).id == id
  }

  lemma NotedLists(report: Report, outcome: Outcome, id: string, pattern: string)
    ensures IsPart(report, Noted(report, outcome))
    ensures id in Noted(report, outcome).rewritten <==> id in report.rewritten || (outcome.Rewritten? && outcome.id == id)
    ensures id in Noted(report, outcome).done <==> id in report.done || outcome == AlreadyDone(id)
    ensures (id, pattern) in Noted(report, outcome).unrecognised
       <==> (id, pattern) in report.unrecognised || outcome == Unrecognised(id, pattern)
  {}

  /** Overwrites one line and inserts the injected ones one by one. */
  method InsertLines(lines: seq<string>, e: Edit) returns (newLines: seq<string>)
    requires e.at < |lines|
    ensures newLines == Splice(lines, e)
  {
    newLines := lines[e.at := e.replacement];
    for offset := 0 to |e.injected|
      invariant newLines == lines[..e.at] + [e.replacement] + e.injected[..offset] + lines[e.at+1..]
    {
      var position := e.at + 1 + offset;
      newLines := newLines[..position] + [e.injected[offset]] + newLines[position..];
      assert e.injected[..offset+1] == e.injected[..offset] + [e.injected[offset]];
    }
    assert e.injected[..|e.injected|] == e.injected;
  }

  // ---------- All edits at once ----------

  /** What line `i` becomes when every edit is applied to the original file at once. */
  function Expanded(lines: seq<string>, edits: seq<Edit>, i: nat): seq<string>
    requires i < |lines|
  {
    if edits == [] then [lines[i]]
    else if edits[0].at == i then [edits[0].replacement] + edits[0].injected
    else Expanded(lines, edits[1..], i)
  }

  function Simultaneous(lines: seq<string>, edits: seq<Edit>, i: nat): seq<string>
    requires i <= |lines|
    decreases |lines| - i
  {
    if i == |lines| then [] else Expanded(lines, edits, i) + Simultaneous(lines, edits, i + 1)
  }

  predicate InOrder(edits: seq<Edit>) {
    forall j, k :: 0 <= j < k < |edits| ==> edits[j].at <= edits[k].at
  }

  predicate AtDistinctLines(edits: seq<Edit>) {
    forall j, k :: 0 <= j < k < |edits| ==> edits[j].at != edits[k].at
  }

  /** Edits of one line are equal: they were computed from the original file. */
  predicate Consistent(edits: seq<Edit>) {
    forall j, k :: 0 <= j < k < |edits| && edits[j].at == edits[k].at ==> edits[j] == edits[k]
  }

  // ---------- What the search guarantees about the edits ----------

  lemma {:induction false} LaterEditsAreBelow(m: Matchers, lines: seq<string>, only: Option<set<string>>, i: nat, i': nat)
    requires i < i' <= |lines| && Scan(m, lines, i, BlockEnd(lines, i)).0.Some?
    ensures forall k :: 0 <= k < |Edits(m, lines, only, i')| ==>
              Scan(m, lines, i, BlockEnd(lines, i)).0.value <= Edits(m, lines, only, i')[k].at
    decreases |lines| - i'
  {
    if i' < |lines| {
      LaterEditsAreBelow(m, lines, only, i, i' + 1);
      var at := Scan(m, lines, i, BlockEnd(lines, i)).0.value;
      var edit := RuleEdit(m, lines, i', only);
      if edit.Some? {
        ScanFindsPattern(m, lines, i', BlockEnd(lines, i'));
        if i' <= at {
          LaterScanFindsLater(m, lines, i, BlockEnd(lines, i), i', BlockEnd(lines, i'));
        }
      }
    }
  }

  lemma {:induction false} EditsAreComputed(m: Matchers, lines: seq<string>, only: Option<set<string>>, i: nat, k: nat)
    requires i <= |lines| && k < |Edits(m, lines, only, i)|
    ensures Some(Edits(m, lines, only, i)[k]) == EditOf(m, lines, Edits(m, lines, only, i)[k].at)
    decreases |lines| - i
  {
    if RuleEdit(m, lines, i, only).None? {
      EditsAreComputed(m, lines, only, i + 1, k);
    } else {
      ScanFindsPattern(m, lines, i, BlockEnd(lines, i));
      if k > 0 {
        EditsAreComputed(m, lines, only, i + 1, k - 1);
      }
    }
  }

  lemma InOrderBehind(first: Edit, rest: seq<Edit>)
    requires InOrder(rest) && forall k :: 0 <= k < |rest| ==> first.at <= rest[k].at
    ensures InOrder([first] + rest)
  {
    var all := [first] + rest;
    forall j, k | 0 <= j < k < |all| ensures all[j].at <= all[k].at {
      assert all[k] == rest[k-1];
    }
  }

  lemma {:induction false} EditsAreOrdered(m: Matchers, lines: seq<string>, only: Option<set<string>>, i: nat)
    requires i <= |lines|
    ensures InOrder(Edits(m, lines, only, i))
    decreases |lines| - i
  {
    if i < |lines| {
      var edit, rest := RuleEdit(m, lines, i, only), Edits(m, lines, only, i + 1);
      EditsAreOrdered(m, lines, only, i + 1);
      assert Edits(m, lines, only, i) == if edit.Some? then [edit.value] + rest else rest;
      if edit.Some? {
        LaterEditsAreBelow(m, lines, only, i, i + 1);
        InOrderBehind(edit.value, rest);
      }
    }
  }

  /** The edits come in file order, and rules that share a pattern line share their edit. */
  lemma EditsFit(m: Matchers, lines: seq<string>, only: Option<set<string>>)
    ensures InOrder(Edits(m, lines, only, 0)) && Consistent(Edits(m, lines, only, 0))
  {
    EditsAreOrdered(m, lines, only, 0);
    var edits := Edits(m, lines, only, 0);
    forall j, k | 0 <= j < k < |edits| && edits[j].at == edits[k].at ensures edits[j] == edits[k] {
      EditsAreComputed(m, lines, only, 0, j);
      EditsAreComputed(m, lines, only, 0, k);
    }
  }

  /** The search below every rule id stops before the next rule id. */
  ghost predicate RuleWindowsApart(m: Matchers, lines: seq<string>) {
    forall i, i' :: 0 <= i < i' < |lines| && m.ruleId(lines[i]).Some? && m.ruleId(lines[i']).Some? ==>
      var found := Scan(m, lines, i, BlockEnd(lines, i)).0;
      found.Some? ==> found.value < i'
  }

  lemma ApartBehind(first: Edit, rest: seq<Edit>)
    requires AtDistinctLines(rest) && forall k :: 0 <= k < |rest| ==> first.at < rest[k].at
    ensures AtDistinctLines([first] + rest)
  {
    var all := [first] + rest;
    forall j, k | 0 <= j < k < |all| ensures all[j].at != all[k].at {
      assert all[k] == rest[k-1];
    }
  }

  lemma {:induction false} ApartWindowsEditApart(m: Matchers, lines: seq<string>, only: Option<set<string>>, i: nat)
    requires i <= |lines| && RuleWindowsApart(m, lines)
    ensures AtDistinctLines(Edits(m, lines, only, i))
    decreases |lines| - i
  {
    if i < |lines| {
      var edit, rest := RuleEdit(m, lines, i, only), Edits(m, lines, only, i + 1);
      ApartWindowsEditApart(m, lines, only, i + 1);
      assert Edits(m, lines, only, i) == if edit.Some? then [edit.value] + rest else rest;
      if edit.Some? {
        ApartEditsAreBelow(m, lines, only, i, i + 1);
        ApartBehind(edit.value, rest);
      }
    }
  }

  lemma {:induction false} ApartEditsAreBelow(m: Matchers, lines: seq<string>, only: Option<set<string>>, i: nat, i': nat)
    requires i < i' <= |lines| && RuleWindowsApart(m, lines)
    requires m.ruleId(lines[i]).Some? && Scan(m, lines, i, BlockEnd(lines, i)).0.Some?
    ensures forall k :: 0 <= k < |Edits(m, lines, only, i')| ==>
              Scan(m, lines, i, BlockEnd(lines, i)).0.value < Edits(m, lines, only, i')[k].at
    decreases |lines| - i'
  {
    if i' < |lines| {
      ApartEditsAreBelow(m, lines, only, i, i' + 1);
      if RuleEdit(m, lines, i', only).Some? {
        ScanFindsPattern(m, lines, i', BlockEnd(lines, i'));
      }
    }
  }

  // ---------- Bottom-up equals simultaneous ----------

  lemma {:induction false} UntouchedAbove(lines: seq<string>, edits: seq<Edit>, i: nat, n: nat)
    requires i <= n <= |lines| && forall k :: 0 <= k < |edits| ==> n <= edits[k].at
    ensures Simultaneous(lines, edits, i) == lines[i..n] + Simultaneous(lines, edits, n)
    decreases n - i
  {
    if i < n {
      UntouchedAbove(lines, edits, i + 1, n);
      ExpandedElsewhere(lines, edits, i);
      assert lines[i..n] == [lines[i]] + lines[i+1..n];
    }
  }

  lemma {:induction false} ExpandedElsewhere(lines: seq<string>, edits: seq<Edit>, i: nat)
    requires i < |lines| && forall k :: 0 <= k < |edits| ==> edits[k].at != i
    ensures Expanded(lines, edits, i) == [lines[i]]
  {
    if edits != [] {
      ExpandedElsewhere(lines, edits[1..], i);
    }
  }

  lemma {:induction false} BelowTheFirstEdit(lines: seq<string>, edits: seq<Edit>, i: nat)
    requires edits != [] && edits[0].at < i <= |lines|
    ensures Simultaneous(lines, edits, i) == Simultaneous(lines, edits[1..], i)
    decreases |lines| - i
  {
    if i < |lines| {
      BelowTheFirstEdit(lines, edits, i + 1);
    }
  }

  /** Taking the first edit apart, when no other edit is at or above its line. */
  lemma FirstEdit(lines: seq<string>, edits: seq<Edit>)
    requires edits != [] && edits[0].at < |lines|
    requires forall k :: 0 < k < |edits| ==> edits[0].at < edits[k].at < |lines|
    ensures edits[0].at < |Simultaneous(lines, edits[1..], 0)|
    ensures Simultaneous(lines, edits, 0) == Splice(Simultaneous(lines, edits[1..], 0), edits[0])
  {
    var e, rest := edits[0], edits[1..];
    var below := Simultaneous(lines, rest, e.at + 1);
    assert forall k :: 0 <= k < |rest| ==> rest[k] == edits[k+1];
    UntouchedAbove(lines, rest, 0, e.at + 1);
    assert Simultaneous(lines, rest, 0) == lines[0..e.at+1] + below;
    UntouchedAbove(lines, edits, 0, e.at);
    BelowTheFirstEdit(lines, edits, e.at + 1);
    assert Simultaneous(lines, edits, 0) == lines[0..e.at] + ([e.replacement] + e.injected + below);
    SpliceShape(lines[0..e.at+1], below, e);
    assert lines[0..e.at+1][..e.at] == lines[0..e.at];
  }

  lemma SpliceShape(head: seq<string>, below: seq<string>, e: Edit)
    requires |head| == e.at + 1
    ensures Splice(head + below, e) == head[..e.at] + ([e.replacement] + e.injected + below)
  {
    assert (head + below)[..e.at] == head[..e.at];
    assert (head + below)[e.at+1..] == below;
  }

  /** Repeating the first edit changes nothing when all are applied at once. */
  lemma {:induction false} RepeatedEdit(lines: seq<string>, edits: seq<Edit>, i: nat)
    requires |edits| > 1 && edits[0] == edits[1] && i <= |lines|
    ensures Simultaneous(lines, edits, i) == Simultaneous(lines, edits[1..], i)
    decreases |lines| - i
  {
    if i < |lines| {
      RepeatedEdit(lines, edits, i + 1);
    }
  }

  lemma {:induction false} NoEdits(lines: seq<string>, i: nat)
    requires i <= |lines|
    ensures Simultaneous(lines, [], i) == lines[i..]
    decreases |lines| - i
  {
    if i < |lines| {
      NoEdits(lines, i + 1);
    }
  }

  lemma SharedLineGrows(lines: seq<string>, edits: seq<Edit>)
    requires |edits| > 1 && edits[0] == edits[1] && forall k :: 0 <= k < |edits| ==> edits[k].at < |lines|
    ensures Simultaneous(lines, edits, 0) == Simultaneous(lines, edits[1..], 0)
    ensures |SpliceAll(lines, edits)| == |SpliceAll(lines, edits[1..])| + |edits[0].injected|
    ensures !AtDistinctLines(edits)
  {
    RepeatedEdit(lines, edits, 0);
  }

  lemma ApartLineSplices(lines: seq<string>, edits: seq<Edit>)
    requires edits != [] && InOrder(edits) && forall k :: 0 <= k < |edits| ==> edits[k].at < |lines|
    requires |edits| > 1 ==> edits[0].at != edits[1].at
    ensures edits[0].at < |Simultaneous(lines, edits[1..], 0)|
    ensures Simultaneous(lines, edits, 0) == Splice(Simultaneous(lines, edits[1..], 0), edits[0])
    ensures |Simultaneous(lines, edits, 0)| == |Simultaneous(lines, edits[1..], 0)| + |edits[0].injected|
    ensures AtDistinctLines(edits[1..]) <==> AtDistinctLines(edits)
  {
    var rest := edits[1..];
    forall k | 0 < k < |edits| ensures edits[0].at < edits[k].at {
      assert edits[1].at <= edits[k].at;
    }
    FirstEdit(lines, edits);
    assert forall k :: 0 <= k < |rest| ==> rest[k] == edits[k+1];
    ApartBehind(edits[0], if AtDistinctLines(rest) then rest else []);
    assert edits == [edits[0]] + rest;
  }

  lemma SameLengthWhenSpliced(a: seq<string>, b: seq<string>, e: Edit)
    requires e.at < |a| && e.at < |b|
    ensures a == b ==> Splice(a, e) == Splice(b, e)
    ensures |Splice(a, e)| == |a| + |e.injected|
  {}

  /** Editing bottom-up gives the file with all edits applied at once exactly when no two
      rules rewrite the same line; otherwise the shared line's fields are injected twice. */
  lemma {:induction false} BottomUpIsSimultaneousIff(lines: seq<string>, edits: seq<Edit>)
    requires forall k :: 0 <= k < |edits| ==> edits[k].at < |lines| && edits[k].injected != []
    requires InOrder(edits) && Consistent(edits)
    ensures SpliceAll(lines, edits) == Simultaneous(lines, edits, 0) <==> AtDistinctLines(edits)
    ensures |Simultaneous(lines, edits, 0)| <= |SpliceAll(lines, edits)|
    ensures !AtDistinctLines(edits) ==> |Simultaneous(lines, edits, 0)| < |SpliceAll(lines, edits)|
    decreases |edits|
  {
    if edits == [] {
      NoEdits(lines, 0);
    } else {
      var rest := edits[1..];
      assert forall k :: 0 <= k < |rest| ==> rest[k] == edits[k+1];
      BottomUpIsSimultaneousIff(lines, rest);
      if rest != [] && edits[0].at == edits[1].at {
        SharedLineGrows(lines, edits);
      } else {
        ApartLineSplices(lines, edits);
        SameLengthWhenSpliced(SpliceAll(lines, rest), Simultaneous(lines, rest, 0), edits[0]);
      }
    }
  }

  /** The rewritten file, when every search stops before the next rule: all edits at once. */
  lemma RewriteIsSimultaneous(m: Matchers, lines: seq<string>, only: Option<set<string>>)
    requires RuleWindowsApart(m, lines)
    ensures SpliceAll(lines, Edits(m, lines, only, 0)) == Simultaneous(lines, Edits(m, lines, only, 0), 0)
  {
    EditsFit(m, lines, only);
    ApartWindowsEditApart(m, lines, only, 0);
    BottomUpIsSimultaneousIff(lines, Edits(m, lines, only, 0));
  }

  /** Every original line keeps its turn: what stands before it comes from earlier lines and
      what follows from later ones. */
  lemma {:induction false} LinesKeepTheirOrder(lines: seq<string>, edits: seq<Edit>, i: nat)
    requires i < |lines|
    ensures Simultaneous(lines, edits, 0)
         == Above(lines, edits, i) + Expanded(lines, edits, i) + Simultaneous(lines, edits, i + 1)
  {
    if i > 0 {
      LinesKeepTheirOrder(lines, edits, i - 1);
      assert Simultaneous(lines, edits, i) == Expanded(lines, edits, i) + Simultaneous(lines, edits, i + 1);
    }
  }

  function Above(lines: seq<string>, edits: seq<Edit>, i: nat): seq<string>
    requires i <= |lines|
  {
    if i == 0 then [] else Above(lines, edits, i - 1) + Expanded(lines, edits, i - 1)
  }

  // ---------- Keywords ----------

  predicate IsSpecial(c: char) {
    c in ".-_/: "
  }

  /** Drops the backslash before a special character. */
  function Unescaped(s: string): string {
    if s == "" then ""
    else if s[0] == '\\' && |s| > 1 && IsSpecial(s[1]) then [s[1]] + Unescaped(s[2..])
    else [s[0]] + Unescaped(s[1..])
  }

  lemma UnescapeAt(s: string, i: nat, out: string)
    requires i < |s|
    ensures var width := if s[i] == '\\' && i + 1 < |s| && IsSpecial(s[i+1]) then 2 else 1;
            out + Unescaped(s[i..]) == out + [s[i+width-1]] + Unescaped(s[i+width..])
  {
    var rest := s[i..];
    assert |rest| > 1 ==> rest[1..] == s[i+1..] && rest[2..] == s[i+2..];
    assert |rest| == 1 ==> rest[1..] == s[i+1..];
  }

  method UnescapeForSubstring(s: string) returns (out: string)
    ensures out == Unescaped(s)
  {
    out := "";
    var i := 0;
    while i < |s|
      invariant 0 <= i <= |s|
      invariant out + Unescaped(s[i..]) == Unescaped(s)
    {
      UnescapeAt(s, i, out);
      if s[i] == '\\' && i + 1 < |s| && IsSpecial(s[i+1]) {
        out := out + [s[i+1]];
        i := i + 2;
      } else {
        out := out + [s[i]];
        i := i + 1;
      }
    }
  }

  /** The backslash goes before exactly six characters, and a lone one stays. */
  lemma SixCharactersAreSpecial(c: char)
    ensures Unescaped(['\\', c])
         == if c == '.' || c == '-' || c == '_' || c == '/' || c == ':' || c == ' ' then [c] else ['\\', c]
    ensures Unescaped([c]) == [c]
  {
    assert Unescaped([c]) == [c];
  }

  /** Escapes every special character, as a rule author would. */
  function Escaped(s: string): string {
    if s == "" then "" else (if IsSpecial(s[0]) then ['\\', s[0]] else [s[0]]) + Escaped(s[1..])
  }

  /** Unescaping gives back every keyword, even one with backslashes of its own. */
  lemma {:induction false} UnescapeInvertsEscape(s: string)
    ensures Unescaped(Escaped(s)) == s
  {
    if s != "" {
      var rest := Escaped(s[1..]);
      UnescapeInvertsEscape(s[1..]);
      if IsSpecial(s[0]) {
        assert Escaped(s)[2..] == rest;
      } else {
        assert Escaped(s)[1..] == rest;
        assert rest == "" || !IsSpecial(rest[0]);
      }
      assert s == [s[0]] + s[1..];
    }
  }
}
