// Runs that show what the coverage theorems' hypotheses are for: every one of them starts
// from a fresh repository, meets every hypothesis but the ones named, and ends with a
// checkpoint on a commit that holds a file nothing has ever read at its contents there.
module CheckpointFailures {
  import opened Prelude
  import opened ScanCoverage
  import opened Checkpoints
  import opened CheckpointSafety

  const APP := Path("app.py", Core, false)
  const LIB := Path("lib.py", Core, false)
  const NOTES := Path("notes.md", Prose, false)

  function Text(text: string): Content { Content(text, true, false) }

  const FIRST: Tree := map[APP := Text("one"), LIB := Text("lib"), NOTES := Text("draft")]
  const SECOND: Tree := map[APP := Text("two"), LIB := Text("lib"), NOTES := Text("final")]

  const THIRD: Tree := SECOND[APP := Text("three")]

  const EVERYTHING: set<Hypothesis> := COVERAGE + PACKS

  function Repository(scope: Scope): World {
    World(map[1 := FIRST, 2 := SECOND, 3 := THIRD], {1, 2, 3}, map[], map[], None, "main", 0, scope, {}, {}, {}, map[])
  }

  /** The head of `main` is checkpointed although `path` was never read at its contents. */
  ghost predicate Skipped(w: World, path: Path) {
    "main" in w.rows && w.rows["main"].commit in w.trees &&
    var tree := w.trees[w.rows["main"].commit];
    path in tree && WalkReads(w.scope, path, tree[path]) && !Measured(w.recorded, path, tree[path])
  }

  lemma SkippedIsUncovered(w: World, path: Path)
    requires Skipped(w, path)
    ensures !AllCovered(w, w.scope)
  {
    assert !CommitCovered(w, w.scope, Some(w.rows["main"].commit));
  }

  /** A checkpoint whose pack vouches for a file it was never read under. */
  lemma UnreadIsUntrue(w: World, path: Path)
    requires Skipped(w, path)
    requires w.rows["main"].pack.Some? && w.rows["main"].pack.value.scope == w.scope
    ensures !PacksTrue(w)
  {
    var row := w.rows["main"];
    assert Reading(row.pack.value, path, w.trees[row.commit][path]) in FullReadings(row.pack.value, w.trees[row.commit]);
    assert !PackTrue(w, row.commit, row.pack);
  }

  // ---------- Putting runs together ----------

  /** The steps are possible, lead to `w'`, and every one of them meets what is asked. */
  ghost predicate Leads(w: World, steps: seq<Step>, scope: Scope, asked: set<Hypothesis>, w': World) {
    Runs(w, steps) && After(w, steps) == w' && RunMeets(w, steps, scope, asked)
  }

  lemma OneStep(w: World, step: Step, scope: Scope, asked: set<Hypothesis>, w': World)
    requires Enabled(w, step) && Next(w, step) == w' && StepMeets(w, step, scope, asked)
    ensures Leads(w, [step], scope, asked, w')
  {
    assert [step][1..] == [];
  }

  /** A step that reads no file and leaves the scope alone meets everything. */
  lemma QuietStep(w: World, step: Step, scope: Scope, asked: set<Hypothesis>, w': World)
    requires !step.ReadFiles? && !step.ReadWebhook? && !step.SetScope?
    requires Enabled(w, step) && Next(w, step) == w'
    ensures Leads(w, [step], scope, asked, w')
  {
    forall h | h in asked ensures Meets(w, step, scope, h) {}
    OneStep(w, step, scope, asked, w');
  }

  lemma {:induction false} Join(w: World, first: seq<Step>, mid: World, second: seq<Step>, scope: Scope,
                                asked: set<Hypothesis>, w': World)
    requires Leads(w, first, scope, asked, mid) && Leads(mid, second, scope, asked, w')
    ensures Leads(w, first + second, scope, asked, w')
    decreases |first|
  {
    if first == [] {
      assert first + second == second;
    } else {
      Join(Next(w, first[0]), first[1..], mid, second, scope, asked, w');
      assert (first + second)[1..] == first[1..] + second;
    }
  }

  function WithJob(w: World, id: nat, job: Job): World {
    w.(jobs := w.jobs[id := job])
  }

  lemma ReplacedJob(w: World, id: nat, first: Job, second: Job)
    ensures WithJob(WithJob(w, id, first), id, second) == WithJob(w, id, second)
  {
    assert w.jobs[id := first][id := second] == w.jobs[id := second];
  }

  lemma JobLeavesNothing(jobs: map<nat, Job>, id: nat, job: Job)
    requires id !in jobs
    ensures jobs[id := job] - {id} == jobs
  {}

  // ---------- An uninterrupted manual scan ----------

  function PreparedJob(w: World, branch: Branch, head: Sha): Job {
    Manual(branch, branch, Some(head), Pack(w.rules, w.scope), false, false, Prepared)
  }

  /** The job once it has its base and an empty view of the cache. */
  function WarmedJob(w: World, branch: Branch, head: Sha): Job {
    var job := PreparedJob(w, branch, head);
    var chosen := ChooseBase(false, branch, true, w.rows, w.legacy, w.defaultBranch, job.pack);
    job.(phase := Warmed(chosen.0, chosen.1, {}))
  }

  function PrepareSteps(id: nat, branch: Branch, head: Sha): seq<Step> {
    [Prepare(id, branch, branch, Some(head), map[], false, false)]
  }

  lemma PrepareLeads(w: World, id: nat, branch: Branch, head: Sha, scope: Scope, asked: set<Hypothesis>)
    requires id !in w.jobs && head in w.trees
    ensures Leads(w, PrepareSteps(id, branch, head), scope, asked,
                  WithJob(w.(work := w.trees[head]), id, PreparedJob(w, branch, head)))
  {
    QuietStep(w, Prepare(id, branch, branch, Some(head), map[], false, false), scope, asked,
              WithJob(w.(work := w.trees[head]), id, PreparedJob(w, branch, head)));
  }

  function SelectSteps(id: nat): seq<Step> {
    [ReadCheckpoint(id, true)] + [WarmCache(id, {})]
  }

  lemma SelectLeads(w: World, id: nat, branch: Branch, head: Sha, scope: Scope, asked: set<Hypothesis>)
    requires id in w.jobs && w.jobs[id] == PreparedJob(w, branch, head)
    ensures Leads(w, SelectSteps(id), scope, asked, WithJob(w, id, WarmedJob(w, branch, head)))
  {
    var job := PreparedJob(w, branch, head);
    var chosen := ChooseBase(false, branch, true, w.rows, w.legacy, w.defaultBranch, job.pack);
    var mid := WithJob(w, id, job.(phase := Chosen(chosen.0, chosen.1)));
    QuietStep(w, ReadCheckpoint(id, true), scope, asked, mid);
    ReplacedJob(w, id, mid.jobs[id], WarmedJob(w, branch, head));
    QuietStep(mid, WarmCache(id, {}), scope, asked, WithJob(w, id, WarmedJob(w, branch, head)));
    Join(w, [ReadCheckpoint(id, true)], mid, [WarmCache(id, {})], scope, asked, WithJob(w, id, WarmedJob(w, branch, head)));
  }

  function ReadSteps(id: nat, listing: Listing): seq<Step> {
    [ReadFiles(id, listing, {})] + [Finish(id, true)]
  }

  /** What reading and finishing leave of a scan of `main` that was the job `id`. */
  function Closed(w: World, id: nat, head: Sha, pack: Option<Pack>, read: set<Reading>): World {
    w.(rows := w.rows["main" := Row(head, pack)], legacy := Some(head), jobs := w.jobs - {id},
       recorded := w.recorded + read, scanned := w.scanned + read)
  }

  lemma ReadStep(w: World, id: nat, listing: Listing) returns (mid: World)
    requires Enabled(w, ReadFiles(id, listing, {})) && w.jobs[id].phase.view == {}
    ensures mid == Next(w, ReadFiles(id, listing, {}))
    ensures var outcome := ManualReadings(w, w.jobs[id], listing);
            mid == WithJob(w.(scanned := w.scanned + outcome.1), id,
                           w.jobs[id].(phase := Scanned(outcome.0, w.jobs[id].phase.rowPack, outcome.1)))
  {
    mid := Next(w, ReadFiles(id, listing, {}));
    var read := ManualReadings(w, w.jobs[id], listing).1;
    assert read - {} == read && w.cache + {} * read == w.cache;
  }

  lemma ReadLeads(w: World, id: nat, listing: Listing, scope: Scope, asked: set<Hypothesis>)
    requires Enabled(w, ReadFiles(id, listing, {})) && StepMeets(w, ReadFiles(id, listing, {}), scope, asked)
    requires w.jobs[id].phase.view == {} && w.jobs[id].head.Some? && !w.jobs[id].history
    requires w.jobs[id].branch == w.defaultBranch == "main"
    ensures var job := w.jobs[id];
            var outcome := ManualReadings(w, job, listing);
            Leads(w, ReadSteps(id, listing), scope, asked,
                  Closed(w, id, job.head.value, if outcome.0 then job.phase.rowPack else Some(job.pack), outcome.1))
  {
    var job := w.jobs[id];
    var outcome := ManualReadings(w, job, listing);
    var mid := ReadStep(w, id, listing);
    var done := Closed(w, id, job.head.value, if outcome.0 then job.phase.rowPack else Some(job.pack), outcome.1);
    OneStep(w, ReadFiles(id, listing, {}), scope, asked, mid);
    FinishLeads(w, mid, id, job, outcome.0, outcome.1, scope, asked);
    Join(w, [ReadFiles(id, listing, {})], mid, [Finish(id, true)], scope, asked, done);
  }

  lemma FinishLeads(w: World, mid: World, id: nat, job: Job, diff: bool, read: set<Reading>, scope: Scope, asked: set<Hypothesis>)
    requires id in w.jobs && w.jobs[id] == job && job.Manual? && job.phase.Warmed? && job.head.Some? && !job.history
    requires job.branch == w.defaultBranch == "main"
    requires mid == WithJob(w.(scanned := w.scanned + read), id, job.(phase := Scanned(diff, job.phase.rowPack, read)))
    ensures Leads(mid, [Finish(id, true)], scope, asked,
                  Closed(w, id, job.head.value, if diff then job.phase.rowPack else Some(job.pack), read))
  {
    assert mid.jobs - {id} == w.jobs - {id};
    QuietStep(mid, Finish(id, true), scope, asked,
              Closed(w, id, job.head.value, if diff then job.phase.rowPack else Some(job.pack), read));
  }

  /** The steps of a manual scan of `main` at `head`, with nothing taken from the file cache. */
  function ManualScan(id: nat, head: Sha, listing: Listing): seq<Step> {
    PrepareSteps(id, "main", head) + (SelectSteps(id) + ReadSteps(id, listing))
  }

  ghost predicate QuietAt(w: World, id: nat, head: Sha) {
    id !in w.jobs && head in w.trees && w.present <= w.trees.Keys && w.defaultBranch == "main"
  }

  /** Whether a scan of `main` in this world goes by the diff, and what it leaves behind. */
  function GoesByDiff(w: World, head: Sha, listing: Listing): bool {
    TakesDiff(WarmedJob(w, "main", head).phase.base, Some(head), w.present) && listing.Listed?
  }

  function ScannedWorld(w: World, head: Sha, listing: Listing): World
    requires head in w.trees
  {
    var job := WarmedJob(w, "main", head);
    var diff := GoesByDiff(w, head, listing);
    var read := if diff then DiffReadings(job.pack, w.trees[head], listing.paths) else FullReadings(job.pack, w.trees[head]);
    w.(work := w.trees[head], rows := w.rows["main" := Row(head, if diff then job.phase.rowPack else Some(job.pack))],
       legacy := Some(head), recorded := w.recorded + read, scanned := w.scanned + read)
  }

  /** Nothing is asked about what a diff walk misses, or it has git's whole listing and a scope
      below the extended one. */
  ghost predicate DiffIsSafe(w: World, base: Sha, head: Sha, listing: Listing, scope: Scope, asked: set<Hypothesis>) {
    (ManualDiff !in asked && PackDiff !in asked)
    || (base in w.trees && head in w.trees && listing == Listed(ChangedPaths(w.trees[base], w.trees[head]))
        && scope != Extended && w.scope != Extended)
  }

  /** What an uninterrupted manual scan of `main` leaves behind. It meets every hypothesis,
      but for those on what a diff walk misses when it goes by a diff that may miss something. */
  lemma ManualScanRuns(w: World, id: nat, head: Sha, listing: Listing, scope: Scope, asked: set<Hypothesis>)
    requires QuietAt(w, id, head)
    requires var base := WarmedJob(w, "main", head).phase.base;
             TakesDiff(base, Some(head), w.present) ==> GoodListing(w, base.value, head, listing)
    requires GoesByDiff(w, head, listing) ==>
               DiffIsSafe(w, WarmedJob(w, "main", head).phase.base.value, head, listing, scope, asked)
    ensures Leads(w, ManualScan(id, head, listing), scope, asked, ScannedWorld(w, head, listing))
  {
    var w1 := WithJob(w.(work := w.trees[head]), id, PreparedJob(w, "main", head));
    var w3 := WithJob(w1, id, WarmedJob(w, "main", head));
    PrepareLeads(w, id, "main", head, scope, asked);
    SelectLeads(w1, id, "main", head, scope, asked);
    ReplacedJob(w.(work := w.trees[head]), id, PreparedJob(w, "main", head), WarmedJob(w, "main", head));
    ReadStepMeets(w3, id, listing, scope, asked);
    ReadLeads(w3, id, listing, scope, asked);
    JobLeavesNothing(w.jobs, id, WarmedJob(w, "main", head));
    var done := ScannedWorld(w, head, listing);
    Join(w1, SelectSteps(id), w3, ReadSteps(id, listing), scope, asked, done);
    Join(w, PrepareSteps(id, "main", head), w1, SelectSteps(id) + ReadSteps(id, listing), scope, asked, done);
  }

  /** Reading with the tree at the head and no diff, or with a safe one. */
  lemma ReadStepMeets(w: World, id: nat, listing: Listing, scope: Scope, asked: set<Hypothesis>)
    requires Enabled(w, ReadFiles(id, listing, {})) && w.jobs[id].head.Some? && !w.jobs[id].history
    requires w.jobs[id].pack.scope == w.scope
    requires var job := w.jobs[id];
             if TakesDiff(job.phase.base, job.head, w.present) && listing.Listed?
             then DiffIsSafe(w, job.phase.base.value, job.head.value, listing, scope, asked)
             else AtHead(w, job.head.value) || ManualTree !in asked
    ensures StepMeets(w, ReadFiles(id, listing, {}), scope, asked)
  {
    var step := ReadFiles(id, listing, {});
    if ManualGoesByDiff(w, step) && scope != Extended && w.scope != Extended
       && listing.paths == ChangedPaths(w.trees[w.jobs[id].phase.base.value], w.trees[w.jobs[id].head.value]) {
      WholeListingMeets(w, step, scope);
    }
  }

  // ---------- The failures ----------

  function WebhookScan(id: nat, base: Option<Sha>, head: Sha, listing: Listing): seq<Step> {
    [BeginWebhook(id, "main", base, Some(head), true)] + ([ReadWebhook(id, listing)] + [FinishWebhook(id, true)])
  }

  /** What a webhook scan of `main` leaves behind, when its reading meets what is asked. */
  lemma WebhookScanRuns(w: World, id: nat, base: Option<Sha>, head: Sha, listing: Listing, scope: Scope,
                        asked: set<Hypothesis>, read: set<Reading>)
    requires QuietAt(w, id, head)
    requires var job := Webhook("main", base, Some(head), Pack(w.rules, Standard), None);
             var begun := WithJob(w.(work := w.trees[head]), id, job);
             && Enabled(begun, ReadWebhook(id, listing)) && StepMeets(begun, ReadWebhook(id, listing), scope, asked)
             && read == WebhookReadings(begun, job, listing)
    ensures Leads(w, WebhookScan(id, base, head, listing), scope, asked,
                  w.(work := w.trees[head], rows := w.rows["main" := Row(head, None)], legacy := Some(head),
                     recorded := w.recorded + read, scanned := w.scanned + read))
  {
    var job := Webhook("main", base, Some(head), Pack(w.rules, Standard), None);
    var begun := WithJob(w.(work := w.trees[head]), id, job);
    var mid := WithJob(w.(work := w.trees[head], scanned := w.scanned + read), id, job.(read := Some(read)));
    var done := w.(work := w.trees[head], rows := w.rows["main" := Row(head, None)], legacy := Some(head),
                   recorded := w.recorded + read, scanned := w.scanned + read);
    QuietStep(w, BeginWebhook(id, "main", base, Some(head), true), scope, asked, begun);
    ReplacedJob(w.(work := w.trees[head], scanned := w.scanned + read), id, job, job.(read := Some(read)));
    OneStep(begun, ReadWebhook(id, listing), scope, asked, mid);
    JobLeavesNothing(w.jobs, id, job.(read := Some(read)));
    QuietStep(mid, FinishWebhook(id, true), scope, asked, done);
    Join(begun, [ReadWebhook(id, listing)], mid, [FinishWebhook(id, true)], scope, asked, done);
    Join(w, [BeginWebhook(id, "main", base, Some(head), true)], begun, [ReadWebhook(id, listing)] + [FinishWebhook(id, true)],
         scope, asked, done);
  }

  /** What a webhook's reading has to meet. */
  lemma WebhookReadMeets(w: World, step: Step, scope: Scope, asked: set<Hypothesis>)
    requires Enabled(w, step) && ReadsForWebhook(w, step)
    requires var job := w.jobs[step.id];
             if WebhookGoesByDiff(w, step) then
               && (WebhookBase in asked ==> Covered(w.recorded, scope, w.trees[job.base.value]))
               && (WebhookDiff in asked ==> MissedBy(w, scope, job.base, job.head, step.listing) == {})
             else
               && AtHead(w, job.head.value)
               && (WebhookScope in asked ==> Added(job.pack.scope, scope, w.work) == {})
    ensures StepMeets(w, step, scope, asked)
  {}

  /** A webhook whose payload names a base nobody scanned: the files it shares with the
      head are skipped, and the checkpoint says otherwise. */
  lemma WebhookFromUnscannedBase()
    ensures var w := Repository(Standard);
            var steps := WebhookScan(0, Some(1), 2, Listed(ChangedPaths(FIRST, SECOND)));
            Fresh(w) && Runs(w, steps) && RunMeets(w, steps, Standard, EVERYTHING - {WebhookBase})
            && Skipped(After(w, steps), LIB) && !AllCovered(After(w, steps), Standard)
  {
    var w, listing := Repository(Standard), Listed(ChangedPaths(FIRST, SECOND));
    var steps := WebhookScan(0, Some(1), 2, listing);
    var begun := WithJob(w.(work := SECOND), 0, Webhook("main", Some(1), Some(2), Pack(0, Standard), None));
    StandardScopeMissesNothing(Standard, FIRST, SECOND);
    WebhookReadMeets(begun, ReadWebhook(0, listing), Standard, EVERYTHING - {WebhookBase});
    WebhookScanRuns(w, 0, Some(1), 2, listing, Standard, EVERYTHING - {WebhookBase},
                    DiffReadings(Pack(0, Standard), SECOND, listing.paths));
    SkippedIsUncovered(After(w, steps), LIB);
  }

  /** A webhook scan always walks with the standard scope, whatever the tenant has set. */
  lemma WebhookIgnoresExtendedScope()
    ensures var w := Repository(Extended);
            var steps := WebhookScan(0, None, 2, Raised);
            Fresh(w) && Runs(w, steps) && RunMeets(w, steps, Extended, EVERYTHING - {WebhookScope})
            && Skipped(After(w, steps), NOTES) && !AllCovered(After(w, steps), Extended)
  {
    var w := Repository(Extended);
    var steps := WebhookScan(0, None, 2, Raised);
    var begun := WithJob(w.(work := SECOND), 0, Webhook("main", None, Some(2), Pack(0, Standard), None));
    WebhookReadMeets(begun, ReadWebhook(0, Raised), Extended, EVERYTHING - {WebhookScope});
    WebhookScanRuns(w, 0, None, 2, Raised, Extended, EVERYTHING - {WebhookScope}, FullReadings(Pack(0, Standard), SECOND));
    SkippedIsUncovered(After(w, steps), NOTES);
  }

  /** A full scan of the first commit and an incremental one of the second. */
  function FullThenIncremental(listed: set<Path>): seq<Step> {
    ManualScan(0, 1, Raised) + ManualScan(1, 2, Listed(listed))
  }

  /** The world after the first of the two scans, and after both. */
  function AfterFull(scope: Scope): World {
    ScannedWorld(Repository(scope), 1, Raised)
  }

  function AfterBoth(scope: Scope, listed: set<Path>): World {
    ScannedWorld(AfterFull(scope), 2, Listed(listed))
  }

  lemma AfterFullIs(scope: Scope)
    ensures var w := AfterFull(scope);
            w == Repository(scope).(work := FIRST, rows := map["main" := Row(1, Some(Pack(0, scope)))], legacy := Some(1),
                                    recorded := FullReadings(Pack(0, scope), FIRST),
                                    scanned := FullReadings(Pack(0, scope), FIRST))
  {}

  lemma AfterBothIs(scope: Scope, listed: set<Path>)
    ensures var done := AfterBoth(scope, listed);
            done.rows == map["main" := Row(2, Some(Pack(0, scope)))] && done.scope == scope
            && done.trees == Repository(scope).trees
            && done.recorded == FullReadings(Pack(0, scope), FIRST) + DiffReadings(Pack(0, scope), SECOND, listed)
  {
    AfterFullIs(scope);
  }

  lemma FullThenIncrementalRuns(scope: Scope, listed: set<Path>)
    requires listed <= ChangedPaths(FIRST, SECOND)
    ensures Fresh(Repository(scope))
    ensures Leads(Repository(scope), FullThenIncremental(listed), scope, EVERYTHING - {ManualDiff, PackDiff}, AfterBoth(scope, listed))
  {
    var asked := EVERYTHING - {ManualDiff, PackDiff};
    ManualScanRuns(Repository(scope), 0, 1, Raised, scope, asked);
    SecondScanRuns(scope, listed, asked);
    Join(Repository(scope), ManualScan(0, 1, Raised), AfterFull(scope), ManualScan(1, 2, Listed(listed)), scope, asked,
         AfterBoth(scope, listed));
  }

  lemma SecondScanRuns(scope: Scope, listed: set<Path>, asked: set<Hypothesis>)
    requires listed <= ChangedPaths(FIRST, SECOND) && ManualDiff !in asked && PackDiff !in asked
    ensures Leads(AfterFull(scope), ManualScan(1, 2, Listed(listed)), scope, asked, AfterBoth(scope, listed))
  {
    AfterFullIs(scope);
    ManualScanRuns(AfterFull(scope), 1, 2, Listed(listed), scope, asked);
  }

  /** When listing the changed files fails with an exit code, the diff walk reads nothing,
      no fallback happens and the checkpoint still advances, pack and all. */
  lemma SilentListingFailure()
    ensures var w := Repository(Standard);
            Fresh(w) && Runs(w, FullThenIncremental({}))
            && RunMeets(w, FullThenIncremental({}), Standard, EVERYTHING - {ManualDiff, PackDiff})
    ensures var done := After(Repository(Standard), FullThenIncremental({}));
            Skipped(done, APP) && !AllCovered(done, Standard) && !PacksTrue(done)
  {
    FullThenIncrementalRuns(Standard, {});
    AfterBothIs(Standard, {});
    var done := AfterBoth(Standard, {});
    ChangedIsSkipped(done, Standard, {}, APP);
  }

  /** Under the extended scope even a complete listing skips: the diff walk never asks the
      scanner for its extension set, and the stored pack still claims the whole tree. */
  lemma ExtendedScopeSkipsProse()
    ensures var w := Repository(Extended);
            var steps := FullThenIncremental(ChangedPaths(FIRST, SECOND));
            Fresh(w) && Runs(w, steps) && RunMeets(w, steps, Extended, EVERYTHING - {ManualDiff, PackDiff})
    ensures var done := After(Repository(Extended), FullThenIncremental(ChangedPaths(FIRST, SECOND)));
            Skipped(done, NOTES) && !AllCovered(done, Extended) && !PacksTrue(done)
  {
    FullThenIncrementalRuns(Extended, ChangedPaths(FIRST, SECOND));
    AfterBothIs(Extended, ChangedPaths(FIRST, SECOND));
    var done := AfterBoth(Extended, ChangedPaths(FIRST, SECOND));
    ChangedIsSkipped(done, Extended, ChangedPaths(FIRST, SECOND), NOTES);
  }

  /** A changed file that the diff walk does not read stays unread. */
  lemma ChangedIsSkipped(done: World, scope: Scope, listed: set<Path>, path: Path)
    requires done.rows == map["main" := Row(2, Some(Pack(0, scope)))] && done.scope == scope
    requires done.trees == Repository(scope).trees
    requires done.recorded == FullReadings(Pack(0, scope), FIRST) + DiffReadings(Pack(0, scope), SECOND, listed)
    requires path in SECOND && Changed(FIRST, SECOND, path) && WalkReads(scope, path, SECOND[path])
    requires !(path in listed && DiffReads(path, SECOND[path]))
    ensures Skipped(done, path) && !AllCovered(done, scope) && !PacksTrue(done)
  {
    assert !Measured(done.recorded, path, SECOND[path]);
    SkippedIsUncovered(done, path);
    UnreadIsUntrue(done, path);
  }

  /** A full scan of the first commit, a webhook scan of the second, an edit of the rules and a
      scan of the third. */
  function RuleEditRun(): seq<Step> {
    ManualScan(0, 1, Raised)
    + (WebhookScan(1, Some(1), 2, Listed(ChangedPaths(FIRST, SECOND)))
       + ([EditRules(1)] + ManualScan(2, 3, Listed(ChangedPaths(SECOND, THIRD)))))
  }

  /** The world after the webhook scan, before the rules are edited. */
  function AfterWebhook(): World {
    var w := AfterFull(Standard);
    var read := DiffReadings(Pack(0, Standard), SECOND, ChangedPaths(FIRST, SECOND));
    w.(work := SECOND, rows := w.rows["main" := Row(2, None)], legacy := Some(2),
       recorded := w.recorded + read, scanned := w.scanned + read)
  }

  lemma CoveredBaseWebhookRuns(asked: set<Hypothesis>)
    ensures Leads(AfterFull(Standard), WebhookScan(1, Some(1), 2, Listed(ChangedPaths(FIRST, SECOND))), Standard, asked, AfterWebhook())
  {
    var w, listing := AfterFull(Standard), Listed(ChangedPaths(FIRST, SECOND));
    AfterFullIs(Standard);
    StandardScopeMissesNothing(Standard, FIRST, SECOND);
    WiderWalkAddsNothing(Standard, Standard, FIRST);
    FullWalkCoversScopeIff({}, Pack(0, Standard), Standard, FIRST);
    assert {} + FullReadings(Pack(0, Standard), FIRST) == w.recorded;
    var begun := WithJob(w.(work := SECOND), 1, Webhook("main", Some(1), Some(2), Pack(0, Standard), None));
    WebhookReadMeets(begun, ReadWebhook(1, listing), Standard, asked);
    WebhookScanRuns(w, 1, Some(1), 2, listing, Standard, asked, DiffReadings(Pack(0, Standard), SECOND, listing.paths));
  }

  function AfterRuleEdit(): World {
    ScannedWorld(AfterWebhook().(rules := 1), 3, Listed(ChangedPaths(SECOND, THIRD)))
  }

  lemma RuleEditRunLeads()
    ensures Fresh(Repository(Standard))
    ensures Leads(Repository(Standard), RuleEditRun(), Standard, EVERYTHING, AfterRuleEdit())
  {
    var w0, w1, w2, done := Repository(Standard), AfterFull(Standard), AfterWebhook(), AfterRuleEdit();
    var w3, rest := w2.(rules := 1), ManualScan(2, 3, Listed(ChangedPaths(SECOND, THIRD)));
    AfterFullIs(Standard);
    ManualScanRuns(w0, 0, 1, Raised, Standard, EVERYTHING);
    CoveredBaseWebhookRuns(EVERYTHING);
    QuietStep(w2, EditRules(1), Standard, EVERYTHING, w3);
    ManualScanRuns(w3, 2, 3, Listed(ChangedPaths(SECOND, THIRD)), Standard, EVERYTHING);
    Join(w2, [EditRules(1)], w3, rest, Standard, EVERYTHING, done);
    Join(w1, WebhookScan(1, Some(1), 2, Listed(ChangedPaths(FIRST, SECOND))), w2, [EditRules(1)] + rest, Standard, EVERYTHING, done);
    Join(w0, ManualScan(0, 1, Raised), w1,
         WebhookScan(1, Some(1), 2, Listed(ChangedPaths(FIRST, SECOND))) + ([EditRules(1)] + rest), Standard, EVERYTHING, done);
  }

  /** A webhook scan's NULL pack hides a rule-pack change: with every hypothesis met, the scan
      after the edit goes by the diff, an unchanged file is never read under the new pack, and
      the checkpoint goes on hiding it. */
  lemma WebhookHidesRuleChange()
    ensures var w := Repository(Standard);
            Fresh(w) && Runs(w, RuleEditRun()) && RunMeets(w, RuleEditRun(), Standard, EVERYTHING)
    ensures var done := After(Repository(Standard), RuleEditRun());
            && done.rules == 1 && done.rows == map["main" := Row(3, None)]
            && LIB in THIRD && WalkReads(Standard, LIB, THIRD[LIB])
            && Reading(Pack(1, Standard), LIB, THIRD[LIB]) !in done.recorded
  {
    RuleEditRunLeads();
    AfterRuleEditIs();
  }

  lemma AfterRuleEditIs()
    ensures var done := AfterRuleEdit();
            && done.rules == 1 && done.rows == map["main" := Row(3, None)]
            && Reading(Pack(1, Standard), LIB, THIRD[LIB]) !in done.recorded
  {
    AfterFullIs(Standard);
    var w, listed := AfterWebhook().(rules := 1), ChangedPaths(SECOND, THIRD);
    assert WarmedJob(w, "main", 3).phase == Warmed(Some(2), None, {});
    assert AfterRuleEdit().recorded == w.recorded + DiffReadings(Pack(1, Standard), THIRD, listed);
    assert LIB !in listed;
    assert forall reading :: reading in w.recorded ==> reading.pack == Pack(0, Standard);
  }

  /** Two branches share one clone: a scan of `dev` checks out its own commit between the
      checkout and the walk of a scan of `main`, which then stamps a commit it never read. */
  function SharedCloneRun(mine: Sha, theirs: Sha): seq<Step> {
    PrepareSteps(0, "main", mine) + (PrepareSteps(1, "dev", theirs) + (SelectSteps(0) + ReadSteps(0, Raised)))
  }

  /** What it leaves behind in a world where nothing was scanned. */
  function SharedCloneWorld(w: World, mine: Sha, theirs: Sha): World
    requires mine in w.trees && theirs in w.trees
  {
    var pack := Pack(w.rules, w.scope);
    var read := FullReadings(pack, w.trees[theirs]);
    w.(work := w.trees[theirs], rows := map["main" := Row(mine, Some(pack))], legacy := Some(mine),
       jobs := map[1 := PreparedJob(w, "dev", theirs)], recorded := w.recorded + read, scanned := w.scanned + read)
  }

  lemma SharedCloneRuns(w: World, mine: Sha, theirs: Sha, scope: Scope)
    requires w.jobs == map[] && w.rows == map[] && w.legacy == None && w.defaultBranch == "main"
    requires mine in w.trees && theirs in w.trees
    ensures Leads(w, SharedCloneRun(mine, theirs), scope, EVERYTHING - {ManualTree}, SharedCloneWorld(w, mine, theirs))
  {
    var asked, job, other := EVERYTHING - {ManualTree}, PreparedJob(w, "main", mine), PreparedJob(w, "dev", theirs);
    var w1 := WithJob(w.(work := w.trees[mine]), 0, job);
    var w2 := WithJob(w1.(work := w.trees[theirs]), 1, other);
    var w3 := WithJob(w2, 0, WarmedJob(w, "main", mine));
    var done := SharedCloneWorld(w, mine, theirs);
    PrepareLeads(w, 0, "main", mine, scope, asked);
    PrepareLeads(w1, 1, "dev", theirs, scope, asked);
    SelectLeads(w2, 0, "main", mine, scope, asked);
    ReadStepMeets(w3, 0, Raised, scope, asked);
    ReadLeads(w3, 0, Raised, scope, asked);
    assert w3.jobs - {0} == map[1 := other];
    Join(w2, SelectSteps(0), w3, ReadSteps(0, Raised), scope, asked, done);
    Join(w1, PrepareSteps(1, "dev", theirs), w2, SelectSteps(0) + ReadSteps(0, Raised), scope, asked, done);
    Join(w, PrepareSteps(0, "main", mine), w1, PrepareSteps(1, "dev", theirs) + (SelectSteps(0) + ReadSteps(0, Raised)),
         scope, asked, done);
  }

  lemma SharedCloneSwapsTheTree()
    ensures var w := Repository(Standard);
            Fresh(w) && Runs(w, SharedCloneRun(2, 1)) && RunMeets(w, SharedCloneRun(2, 1), Standard, EVERYTHING - {ManualTree})
    ensures var done := After(Repository(Standard), SharedCloneRun(2, 1));
            Skipped(done, APP) && !AllCovered(done, Standard) && !PacksTrue(done)
  {
    SharedCloneRuns(Repository(Standard), 2, 1, Standard);
    var done := After(Repository(Standard), SharedCloneRun(2, 1));
    assert !Measured(done.recorded, APP, SECOND[APP]);
    SkippedIsUncovered(done, APP);
    UnreadIsUntrue(done, APP);
  }
}
