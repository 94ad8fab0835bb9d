// Safety of the checkpoints over every run: what a checkpoint row promises about the
// files of its commit, under which hypotheses, and that the file cache never lies.
module CheckpointSafety {
  import opened Prelude
  import opened ScanCoverage
  import opened Checkpoints

  // ---------- Hypotheses on a step ----------

  /** What a run may be asked to respect at every step, for coverage at one scope:
      - `ManualTree`: a manual full walk finds the working tree still at its own head;
      - `ManualDiff`: what a manual diff walk misses had been read before;
      - `PackDiff`: what a manual diff walk misses had been read under the pack it vouches for;
      - `WebhookTree`, `WebhookDiff`: the same two for webhook scans;
      - `WebhookScope`: what the scope adds to a webhook's full walk had been read before;
      - `WebhookBase`: a webhook diff starts at a commit already covered;
      - `ScopeKept`: the scope setting never drops below the scope we speak about. */
  datatype Hypothesis =
    | ManualTree | ManualDiff | PackDiff | WebhookTree | WebhookScope | WebhookBase | WebhookDiff | ScopeKept

  const COVERAGE: set<Hypothesis> := {ManualTree, ManualDiff, WebhookTree, WebhookScope, WebhookBase, WebhookDiff, ScopeKept}
  const PACKS: set<Hypothesis> := {ManualTree, PackDiff}

  /** The job of a `ReadFiles` step, when its scan knows its commit and is no history scan. */
  predicate ReadsManually(w: World, step: Step) {
    step.ReadFiles? && InPhase(w, step.id) && w.jobs[step.id].phase.Warmed?
    && w.jobs[step.id].head.Some? && !w.jobs[step.id].history
  }

  predicate ManualGoesByDiff(w: World, step: Step)
    requires ReadsManually(w, step)
  {
    TakesDiff(w.jobs[step.id].phase.base, w.jobs[step.id].head, w.present) && step.listing.Listed?
  }

  predicate ReadsForWebhook(w: World, step: Step) {
    step.ReadWebhook? && step.id in w.jobs && w.jobs[step.id].Webhook? && w.jobs[step.id].head.Some?
  }

  predicate WebhookGoesByDiff(w: World, step: Step)
    requires ReadsForWebhook(w, step)
  {
    WebhookTakesDiff(w.jobs[step.id].base, w.jobs[step.id].head, w.present)
  }

  /** The files a diff walk from `base` to `head` misses at a scope. */
  function MissedBy(w: World, scope: Scope, base: Option<Sha>, head: Option<Sha>, listing: Listing): set<Path> {
    if base.Some? && head.Some? && base.value in w.trees && head.value in w.trees && listing.Listed?
    then Missed(scope, w.trees[base.value], w.trees[head.value], listing.paths) else {}
  }

  predicate AtHead(w: World, head: Sha) {
    head in w.trees && w.work == w.trees[head]
  }

  ghost predicate Meets(w: World, step: Step, scope: Scope, h: Hypothesis)
    requires Enabled(w, step)
  {
    match h
    case ManualTree => ReadsManually(w, step) && !ManualGoesByDiff(w, step) ==> AtHead(w, w.jobs[step.id].head.value)
    case ManualDiff =>
      ReadsManually(w, step) && ManualGoesByDiff(w, step) ==>
        var job := w.jobs[step.id];
        AllMeasured(w.recorded, MissedBy(w, scope, job.phase.base, job.head, step.listing), w.trees[job.head.value])
    case PackDiff =>
      ReadsManually(w, step) && ManualGoesByDiff(w, step) && w.jobs[step.id].phase.rowPack.Some? ==>
        var job := w.jobs[step.id];
        MissedReadUnder(w, job.pack, job.phase.base, job.head, step.listing)
    case WebhookTree => ReadsForWebhook(w, step) && !WebhookGoesByDiff(w, step) ==> AtHead(w, w.jobs[step.id].head.value)
    case WebhookScope =>
      ReadsForWebhook(w, step) && !WebhookGoesByDiff(w, step) ==>
        AllMeasured(w.recorded, Added(w.jobs[step.id].pack.scope, scope, w.work), w.work)
    case WebhookBase =>
      ReadsForWebhook(w, step) && WebhookGoesByDiff(w, step) ==>
        Covered(w.recorded, scope, w.trees[w.jobs[step.id].base.value])
    case WebhookDiff =>
      ReadsForWebhook(w, step) && WebhookGoesByDiff(w, step) ==>
        var job := w.jobs[step.id];
        AllMeasured(w.recorded, MissedBy(w, scope, job.base, job.head, step.listing), w.trees[job.head.value])
    case ScopeKept => step.SetScope? ==> Width(scope) <= Width(step.scope)
  }

  ghost predicate MissedReadUnder(w: World, pack: Pack, base: Option<Sha>, head: Option<Sha>, listing: Listing)
    requires head.Some? && head.value in w.trees
  {
    forall path :: path in MissedBy(w, pack.scope, base, head, listing) ==>
      path in w.trees[head.value] && Reading(pack, path, w.trees[head.value][path]) in w.recorded
  }

  ghost predicate StepMeets(w: World, step: Step, scope: Scope, asked: set<Hypothesis>)
    requires Enabled(w, step)
  {
    forall h :: h in asked ==> Meets(w, step, scope, h)
  }

  ghost predicate RunMeets(w: World, steps: seq<Step>, scope: Scope, asked: set<Hypothesis>)
    requires Runs(w, steps)
    decreases |steps|
  {
    steps == [] || (StepMeets(w, steps[0], scope, asked) && RunMeets(Next(w, steps[0]), steps[1..], scope, asked))
  }

  /** With git's whole listing and a scope below the extended one, a diff walk misses nothing. */
  lemma WholeListingMeets(w: World, step: Step, scope: Scope)
    requires Enabled(w, step) && ReadsManually(w, step) && ManualGoesByDiff(w, step)
    requires var job := w.jobs[step.id];
             step.listing.paths == ChangedPaths(w.trees[job.phase.base.value], w.trees[job.head.value])
    ensures scope != Extended ==> Meets(w, step, scope, ManualDiff)
    ensures w.jobs[step.id].pack.scope != Extended ==> Meets(w, step, scope, PackDiff)
  {
    var job := w.jobs[step.id];
    var base, head := w.trees[job.phase.base.value], w.trees[job.head.value];
    if scope != Extended {
      StandardScopeMissesNothing(scope, base, head);
    }
    if job.pack.scope != Extended {
      StandardScopeMissesNothing(job.pack.scope, base, head);
    }
  }

  // ---------- The pack stored beside a checkpoint ----------

  /** A row holding pack `p` speaks the truth: its commit is fully measured under `p`. */
  ghost predicate PackTrue(w: World, commit: Sha, pack: Option<Pack>) {
    pack.Some? ==> commit in w.trees && CoveredUnder(w.recorded, pack.value, w.trees[commit])
  }

  ghost predicate BasePackTrue(w: World, job: Job, base: Option<Sha>, rowPack: Option<Pack>) {
    base.Some? && rowPack.Some? ==>
      job.pack == rowPack.value && PackTrue(w, base.value, rowPack)
  }

  ghost predicate JobPackTrue(w: World, job: Job)
    requires job.Manual?
  {
    (job.head.Some? ==> job.head.value in w.trees) &&
    match job.phase
    case Prepared => true
    case Chosen(base, rowPack) => BasePackTrue(w, job, base, rowPack)
    case Warmed(base, rowPack, _) => BasePackTrue(w, job, base, rowPack)
    case Scanned(incremental, rowPack, read) =>
      !job.history && job.head.Some? && StampedPack(job).Some? ==>
        StampedPack(job).value == job.pack
        && CoveredUnder(w.recorded + read, job.pack, w.trees[job.head.value])
  }

  ghost predicate PacksTrue(w: World) {
    (forall branch :: branch in w.rows ==> PackTrue(w, w.rows[branch].commit, w.rows[branch].pack)) &&
    (forall id :: id in w.jobs && w.jobs[id].Manual? ==> JobPackTrue(w, w.jobs[id]))
  }

  /** Recording more readings keeps every promise of a job. */
  lemma JobPackTrueGrows(w: World, w': World, job: Job)
    requires job.Manual? && JobPackTrue(w, job)
    requires w'.trees == w.trees && w.recorded <= w'.recorded
    ensures JobPackTrue(w', job)
  {}

  lemma ReadFilesKeepsPackTrue(w: World, step: Step, scope: Scope)
    requires PacksTrue(w) && Enabled(w, step) && step.ReadFiles? && StepMeets(w, step, scope, PACKS)
    ensures JobPackTrue(Next(w, step), Next(w, step).jobs[step.id])
  {
    var job := w.jobs[step.id];
    assert JobPackTrue(w, job);
    assert Meets(w, step, scope, ManualTree) && Meets(w, step, scope, PackDiff);
    if ReadsManually(w, step) && ManualGoesByDiff(w, step) && job.phase.rowPack.Some? {
      DiffWalkCoversUnderIff(w.recorded, job.pack, w.trees[job.phase.base.value], w.trees[job.head.value], step.listing.paths);
    }
  }

  /** A step that moves a job elsewhere than through `ReadFiles`. */
  lemma StepKeepsJobPackTrue(w: World, step: Step, id: nat)
    requires PacksTrue(w) && Enabled(w, step) && !step.ReadFiles?
    requires id in Next(w, step).jobs && Next(w, step).jobs[id].Manual?
    ensures JobPackTrue(Next(w, step), Next(w, step).jobs[id])
  {
    var w' := Next(w, step);
    if id in w.jobs && w'.jobs[id] == w.jobs[id] {
      JobPackTrueGrows(w, w', w.jobs[id]);
    } else if id in w.jobs {
      assert JobPackTrue(w, w.jobs[id]);
    }
  }

  lemma StepKeepsRowPackTrue(w: World, step: Step, branch: Branch)
    requires PacksTrue(w) && Enabled(w, step) && branch in Next(w, step).rows
    ensures PackTrue(Next(w, step), Next(w, step).rows[branch].commit, Next(w, step).rows[branch].pack)
  {
    if step.Finish? && branch == w.jobs[step.id].branch {
      assert JobPackTrue(w, w.jobs[step.id]);
    }
  }

  lemma StepKeepsPacksTrue(w: World, step: Step, scope: Scope)
    requires PacksTrue(w) && Enabled(w, step) && StepMeets(w, step, scope, PACKS)
    ensures PacksTrue(Next(w, step))
  {
    var w' := Next(w, step);
    forall branch | branch in w'.rows ensures PackTrue(w', w'.rows[branch].commit, w'.rows[branch].pack) {
      StepKeepsRowPackTrue(w, step, branch);
    }
    forall id | id in w'.jobs && w'.jobs[id].Manual? ensures JobPackTrue(w', w'.jobs[id]) {
      if !step.ReadFiles? {
        StepKeepsJobPackTrue(w, step, id);
      } else if id == step.id {
        ReadFilesKeepsPackTrue(w, step, scope);
      } else {
        JobPackTrueGrows(w, w', w.jobs[id]);
      }
    }
  }

  /** Rule-pack soundness: whatever webhooks do, a checkpoint that holds a pack means every
      file of its commit was measured under that pack. */
  lemma {:induction false} RulePackSoundness(w: World, steps: seq<Step>, scope: Scope)
    requires PacksTrue(w) && Runs(w, steps) && RunMeets(w, steps, scope, PACKS)
    ensures PacksTrue(After(w, steps))
    decreases |steps|
  {
    if steps != [] {
      StepKeepsPacksTrue(w, steps[0], scope);
      RulePackSoundness(Next(w, steps[0]), steps[1..], scope);
    }
  }

  // ---------- Coverage ----------

  ghost predicate CommitCovered(w: World, scope: Scope, commit: Option<Sha>) {
    commit.Some? ==> commit.value in w.trees && Covered(w.recorded, scope, w.trees[commit.value])
  }

  /** Reading `read` on top of what is recorded will cover the job's head. */
  ghost predicate WillCover(w: World, scope: Scope, head: Option<Sha>, read: set<Reading>) {
    head.Some? ==> head.value in w.trees && Covered(w.recorded + read, scope, w.trees[head.value])
  }

  ghost predicate JobCovered(w: World, scope: Scope, job: Job) {
    (job.Manual? ==> Width(scope) <= Width(job.pack.scope)) &&
    (job.head.Some? ==> job.head.value in w.trees) &&
    match job
    case Manual(_, _, head, _, _, history, Prepared) => true
    case Manual(_, _, head, _, _, history, Chosen(base, _)) => CommitCovered(w, scope, base)
    case Manual(_, _, head, _, _, history, Warmed(base, _, _)) => CommitCovered(w, scope, base)
    case Manual(_, _, head, _, _, history, Scanned(_, _, read)) => history || WillCover(w, scope, head, read)
    case Webhook(_, _, head, _, read) => read.Some? ==> WillCover(w, scope, head, read.value)
  }

  ghost predicate AllCovered(w: World, scope: Scope) {
    Width(scope) <= Width(w.scope) &&
    (forall branch :: branch in w.rows ==> CommitCovered(w, scope, Some(w.rows[branch].commit))) &&
    CommitCovered(w, scope, w.legacy) &&
    (forall id :: id in w.jobs ==> JobCovered(w, scope, w.jobs[id]))
  }

  lemma CommitCoveredGrows(w: World, w': World, scope: Scope, commit: Option<Sha>)
    requires CommitCovered(w, scope, commit)
    requires w'.trees == w.trees && w.recorded <= w'.recorded
    ensures CommitCovered(w', scope, commit)
  {
    if commit.Some? {
      CoverageGrows(w.recorded, w'.recorded, scope, w.trees[commit.value]);
    }
  }

  lemma JobCoveredGrows(w: World, w': World, scope: Scope, job: Job)
    requires JobCovered(w, scope, job)
    requires w'.trees == w.trees && w.recorded <= w'.recorded
    ensures JobCovered(w', scope, job)
  {
    match job
    case Manual(_, _, head, _, _, history, Prepared) =>
    case Manual(_, _, head, _, _, history, Chosen(base, _)) => CommitCoveredGrows(w, w', scope, base);
    case Manual(_, _, head, _, _, history, Warmed(base, _, _)) => CommitCoveredGrows(w, w', scope, base);
    case Manual(_, _, head, _, _, history, Scanned(_, _, read)) =>
      if !history && head.Some? {
        CoverageGrows(w.recorded + read, w'.recorded + read, scope, w.trees[head.value]);
      }
    case Webhook(_, _, head, _, read) =>
      if read.Some? && head.Some? {
        CoverageGrows(w.recorded + read.value, w'.recorded + read.value, scope, w.trees[head.value]);
      }
  }

  /** A full walk of the right tree covers the head, when what the scope adds had been read. */
  lemma FullReadingsCover(w: World, scope: Scope, pack: Pack, head: Sha)
    requires head in w.trees && w.work == w.trees[head]
    requires AllMeasured(w.recorded, Added(pack.scope, scope, w.work), w.work)
    ensures WillCover(w, scope, Some(head), FullReadings(pack, w.work))
  {
    FullWalkCoversScopeIff(w.recorded, pack, scope, w.work);
  }

  /** A diff walk from a covered base covers the head when what it missed had been read. */
  lemma DiffReadingsCover(w: World, scope: Scope, pack: Pack, base: Sha, head: Sha, listing: Listing)
    requires listing.Listed? && base in w.trees && head in w.trees && GoodListing(w, base, head, listing)
    requires Covered(w.recorded, scope, w.trees[base])
    requires AllMeasured(w.recorded, MissedBy(w, scope, Some(base), Some(head), listing), w.trees[head])
    ensures WillCover(w, scope, Some(head), DiffReadings(pack, w.trees[head], listing.paths))
  {
    DiffWalkCoversIffMissedRead(w.recorded, pack, scope, w.trees[base], w.trees[head], listing.paths);
  }

  lemma ReadFilesCovers(w: World, step: Step, scope: Scope)
    requires AllCovered(w, scope)
    requires Enabled(w, step) && step.ReadFiles? && StepMeets(w, step, scope, COVERAGE)
    ensures JobCovered(Next(w, step), scope, Next(w, step).jobs[step.id])
  {
    var job := w.jobs[step.id];
    assert JobCovered(w, scope, job);
    assert Meets(w, step, scope, ManualTree) && Meets(w, step, scope, ManualDiff);
    if ReadsManually(w, step) {
      if ManualGoesByDiff(w, step) {
        DiffReadingsCover(w, scope, job.pack, job.phase.base.value, job.head.value, step.listing);
      } else {
        WiderWalkAddsNothing(job.pack.scope, scope, w.work);
        FullReadingsCover(w, scope, job.pack, job.head.value);
      }
    }
  }

  lemma ReadWebhookCovers(w: World, step: Step, scope: Scope)
    requires AllCovered(w, scope)
    requires Enabled(w, step) && step.ReadWebhook? && StepMeets(w, step, scope, COVERAGE)
    ensures JobCovered(Next(w, step), scope, Next(w, step).jobs[step.id])
  {
    var job := w.jobs[step.id];
    assert JobCovered(w, scope, job);
    if ReadsForWebhook(w, step) {
      if WebhookGoesByDiff(w, step) {
        assert Meets(w, step, scope, WebhookBase) && Meets(w, step, scope, WebhookDiff);
        DiffReadingsCover(w, scope, job.pack, job.base.value, job.head.value, step.listing);
      } else {
        assert Meets(w, step, scope, WebhookTree) && Meets(w, step, scope, WebhookScope);
        FullReadingsCover(w, scope, job.pack, job.head.value);
      }
    }
  }

  /** Exactly when a webhook scan that takes the diff path covers its head: every file the
      payload's base shares with the head had been read before. The stored checkpoint plays
      no part in it. */
  lemma WebhookCoversIff(w: World, step: Step, scope: Scope)
    requires scope != Extended && Enabled(w, step) && step.ReadWebhook?
    requires WebhookTakesDiff(w.jobs[step.id].base, w.jobs[step.id].head, w.present)
    requires var job := w.jobs[step.id];
             step.listing.paths == ChangedPaths(w.trees[job.base.value], w.trees[job.head.value])
    ensures var job := w.jobs[step.id];
            var base, head := w.trees[job.base.value], w.trees[job.head.value];
            WillCover(w, scope, job.head, Next(w, step).jobs[step.id].read.value)
            <==> forall path :: path in head && !Changed(base, head, path) && WalkReads(scope, path, head[path])
                                ==> Measured(w.recorded, path, head[path])
  {
    var job := w.jobs[step.id];
    DiffWalkCoversIff(w.recorded, job.pack, scope, w.trees[job.base.value], w.trees[job.head.value]);
  }

  // One lemma per kind of step for the jobs, then the rows and the legacy column.

  predicate MovesJob(step: Step) {
    step.Prepare? || step.ReadCheckpoint? || step.WarmCache? || step.ReadFiles? || step.BeginWebhook? || step.ReadWebhook?
  }

  lemma OtherJobsStay(w: World, step: Step, id: nat)
    requires Enabled(w, step) && id in Next(w, step).jobs && !(MovesJob(step) && step.id == id)
    ensures id in w.jobs && Next(w, step).jobs[id] == w.jobs[id]
    ensures Next(w, step).trees == w.trees && w.recorded <= Next(w, step).recorded
  {}

  lemma ReadCheckpointCovers(w: World, step: Step, scope: Scope)
    requires AllCovered(w, scope) && Enabled(w, step) && step.ReadCheckpoint?
    ensures JobCovered(Next(w, step), scope, Next(w, step).jobs[step.id])
  {
    var job := w.jobs[step.id];
    assert JobCovered(w, scope, job);
    var base := ChooseBase(job.force, job.requested, step.readOk, w.rows, w.legacy, w.defaultBranch, job.pack).0;
    if job.requested in w.rows {
      assert CommitCovered(w, scope, Some(w.rows[job.requested].commit));
    }
    assert CommitCovered(w, scope, base);
  }

  lemma WarmCacheCovers(w: World, step: Step, scope: Scope)
    requires AllCovered(w, scope) && Enabled(w, step) && step.WarmCache?
    ensures JobCovered(Next(w, step), scope, Next(w, step).jobs[step.id])
  {
    assert JobCovered(w, scope, w.jobs[step.id]);
  }

  lemma NewJobCovers(w: World, step: Step, scope: Scope)
    requires AllCovered(w, scope) && Enabled(w, step) && (step.Prepare? || step.BeginWebhook?)
    ensures JobCovered(Next(w, step), scope, Next(w, step).jobs[step.id])
  {}

  lemma StepKeepsJobsCovered(w: World, step: Step, scope: Scope, id: nat)
    requires AllCovered(w, scope) && Enabled(w, step) && StepMeets(w, step, scope, COVERAGE)
    requires id in Next(w, step).jobs
    ensures JobCovered(Next(w, step), scope, Next(w, step).jobs[id])
  {
    if !(MovesJob(step) && step.id == id) {
      OtherJobsStay(w, step, id);
      JobCoveredGrows(w, Next(w, step), scope, w.jobs[id]);
    } else if step.ReadCheckpoint? {
      ReadCheckpointCovers(w, step, scope);
    } else if step.WarmCache? {
      WarmCacheCovers(w, step, scope);
    } else if step.ReadFiles? {
      ReadFilesCovers(w, step, scope);
    } else if step.ReadWebhook? {
      ReadWebhookCovers(w, step, scope);
    } else {
      NewJobCovers(w, step, scope);
    }
  }

  /** A step that writes a checkpoint writes the head of a job that covered it. */
  lemma FinishCovers(w: World, step: Step, scope: Scope)
    requires AllCovered(w, scope) && Enabled(w, step) && (step.Finish? || step.FinishWebhook?)
    requires w.jobs[step.id].head.Some? && (step.Finish? ==> !w.jobs[step.id].history)
    ensures CommitCovered(Next(w, step), scope, w.jobs[step.id].head)
  {
    assert JobCovered(w, scope, w.jobs[step.id]);
  }

  lemma StepKeepsRowsCovered(w: World, step: Step, scope: Scope, branch: Branch)
    requires AllCovered(w, scope) && Enabled(w, step)
    requires branch in Next(w, step).rows
    ensures CommitCovered(Next(w, step), scope, Some(Next(w, step).rows[branch].commit))
  {
    var w' := Next(w, step);
    if branch in w.rows && w'.rows[branch] == w.rows[branch] {
      CommitCoveredGrows(w, w', scope, Some(w.rows[branch].commit));
    } else {
      FinishCovers(w, step, scope);
    }
  }

  lemma StepKeepsLegacyCovered(w: World, step: Step, scope: Scope)
    requires AllCovered(w, scope) && Enabled(w, step)
    ensures CommitCovered(Next(w, step), scope, Next(w, step).legacy)
  {
    var w' := Next(w, step);
    if w'.legacy == w.legacy {
      CommitCoveredGrows(w, w', scope, w.legacy);
    } else {
      FinishCovers(w, step, scope);
    }
  }

  lemma StepKeepsAllCovered(w: World, step: Step, scope: Scope)
    requires AllCovered(w, scope) && Enabled(w, step) && StepMeets(w, step, scope, COVERAGE)
    ensures AllCovered(Next(w, step), scope)
  {
    var w' := Next(w, step);
    assert Meets(w, step, scope, ScopeKept);
    forall id | id in w'.jobs ensures JobCovered(w', scope, w'.jobs[id]) {
      StepKeepsJobsCovered(w, step, scope, id);
    }
    forall branch | branch in w'.rows ensures CommitCovered(w', scope, Some(w'.rows[branch].commit)) {
      StepKeepsRowsCovered(w, step, scope, branch);
    }
    StepKeepsLegacyCovered(w, step, scope);
  }

  /** Incremental coverage: over every such run, every checkpointed commit (row or legacy
      column) has every file that a walk of the given scope reads measured at exactly its
      contents there. */
  lemma {:induction false} IncrementalCoverage(w: World, steps: seq<Step>, scope: Scope)
    requires AllCovered(w, scope)
    requires Runs(w, steps) && RunMeets(w, steps, scope, COVERAGE)
    ensures AllCovered(After(w, steps), scope)
    decreases |steps|
  {
    if steps != [] {
      StepKeepsAllCovered(w, steps[0], scope);
      IncrementalCoverage(Next(w, steps[0]), steps[1..], scope);
    }
  }

  // ---------- Coverage under conditions that can be checked beforehand ----------

  const CHECKABLE: set<Hypothesis> := {ManualTree, WebhookTree, WebhookBase, ScopeKept}

  /** Every diff walk of the step gets git's whole listing. */
  predicate IsListedWhole(w: World, step: Step)
    requires Enabled(w, step)
  {
    && (ReadsManually(w, step) && ManualGoesByDiff(w, step) ==>
          var job := w.jobs[step.id];
          step.listing.paths == ChangedPaths(w.trees[job.phase.base.value], w.trees[job.head.value]))
    && (ReadsForWebhook(w, step) && WebhookGoesByDiff(w, step) ==>
          var job := w.jobs[step.id];
          step.listing.paths == ChangedPaths(w.trees[job.base.value], w.trees[job.head.value]))
  }

  ghost predicate ListsWhole(w: World, steps: seq<Step>)
    requires Runs(w, steps)
    decreases |steps|
  {
    steps == [] || (IsListedWhole(w, steps[0]) && ListsWhole(Next(w, steps[0]), steps[1..]))
  }

  /** Webhook scans walk with the standard scope. */
  ghost predicate WebhooksAreStandard(w: World) {
    forall id :: id in w.jobs && w.jobs[id].Webhook? ==> w.jobs[id].pack.scope == Standard
  }

  lemma WholeListingMeetsAll(w: World, step: Step, scope: Scope)
    requires scope != Extended && WebhooksAreStandard(w) && Enabled(w, step)
    requires StepMeets(w, step, scope, CHECKABLE) && IsListedWhole(w, step)
    ensures StepMeets(w, step, scope, COVERAGE)
  {
    forall h | h in COVERAGE ensures Meets(w, step, scope, h) {
      match h
      case ManualDiff =>
        if ReadsManually(w, step) && ManualGoesByDiff(w, step) {
          WholeListingMeets(w, step, scope);
        }
      case WebhookDiff =>
        if ReadsForWebhook(w, step) && WebhookGoesByDiff(w, step) {
          StandardScopeMissesNothing(scope, w.trees[w.jobs[step.id].base.value], w.trees[w.jobs[step.id].head.value]);
        }
      case WebhookScope =>
        WiderWalkAddsNothing(Standard, scope, w.work);
      case _ =>
        assert h in CHECKABLE;
    }
  }

  /** Below the extended scope, coverage over every run in which full walks find their tree,
      diff walks get git's whole listing and webhook bases are covered. */
  lemma {:induction false} WholeListingsCover(w: World, steps: seq<Step>, scope: Scope)
    requires scope != Extended && AllCovered(w, scope) && WebhooksAreStandard(w)
    requires Runs(w, steps) && RunMeets(w, steps, scope, CHECKABLE) && ListsWhole(w, steps)
    ensures AllCovered(After(w, steps), scope)
    decreases |steps|
  {
    if steps != [] {
      WholeListingMeetsAll(w, steps[0], scope);
      StepKeepsAllCovered(w, steps[0], scope);
      StepKeepsWebhooksStandard(w, steps[0]);
      WholeListingsCover(Next(w, steps[0]), steps[1..], scope);
    }
  }

  lemma StepKeepsWebhooksStandard(w: World, step: Step)
    requires WebhooksAreStandard(w) && Enabled(w, step)
    ensures WebhooksAreStandard(Next(w, step))
  {}

  /** The base of an unforced scan: the row's commit unless its pack changed, and without a
      readable row the legacy commit, on the default branch alone. */
  lemma BaseIsChosen(requested: Branch, readOk: bool, rows: map<Branch, Row>, legacy: Option<Sha>, defaultBranch: Branch, pack: Pack)
    ensures ChooseBase(true, requested, readOk, rows, legacy, defaultBranch, pack) == (None, None)
    ensures var chosen := ChooseBase(false, requested, readOk, rows, legacy, defaultBranch, pack);
            if readOk && requested in rows then
              chosen.1 == rows[requested].pack
              && chosen.0 == if rows[requested].pack.Some? && rows[requested].pack.value != pack then None
                             else Some(rows[requested].commit)
            else if requested == defaultBranch then chosen == (legacy, None)
            else chosen == (None, None)
  {}

  // ---------- What a rule-pack change does ----------

  /** A changed rule pack forces an unforced scan of a checkpointed branch into a full walk
      exactly when the checkpoint still knows its pack. */
  lemma PackChangeDropsBaseIff(requested: Branch, rows: map<Branch, Row>, legacy: Option<Sha>, defaultBranch: Branch, pack: Pack)
    requires requested in rows
    ensures ChooseBase(false, requested, true, rows, legacy, defaultBranch, pack).0 == None
       <==> rows[requested].pack.Some? && rows[requested].pack.value != pack
  {}

  // ---------- What a forced scan does ----------

  /** A forced scan never has a base, a stored pack or anything warmed from the cache. */
  ghost predicate IsForcedFull(job: Job) {
    match job
    case Manual(_, _, _, _, true, _, Chosen(base, rowPack)) => base == None && rowPack == None
    case Manual(_, _, _, _, true, _, Warmed(base, rowPack, view)) => base == None && rowPack == None && view == {}
    case Manual(_, _, _, _, true, _, Scanned(incremental, rowPack, _)) => !incremental && rowPack == None
    case _ => true
  }

  ghost predicate ForcedAreFull(w: World) {
    forall id :: id in w.jobs ==> IsForcedFull(w.jobs[id])
  }

  lemma {:induction false} ForcedStayFull(w: World, steps: seq<Step>)
    requires ForcedAreFull(w) && Runs(w, steps)
    ensures ForcedAreFull(After(w, steps))
    decreases |steps|
  {
    if steps != [] {
      var w' := Next(w, steps[0]);
      forall id | id in w'.jobs ensures IsForcedFull(w'.jobs[id]) {
        if id in w.jobs { assert IsForcedFull(w.jobs[id]); }
      }
      ForcedStayFull(w', steps[1..]);
    }
  }

  /** Over every run, whatever rows, legacy column and cache hold: a forced scan that is no
      history scan reads its whole tree, every file anew, and its finish stamps the head with
      its own pack. */
  lemma ForcedScanWalksEverything(w: World, steps: seq<Step>, id: nat, listing: Listing, flushed: set<Reading>)
    requires ForcedAreFull(w) && Runs(w, steps) && Enabled(After(w, steps), ReadFiles(id, listing, flushed))
    requires After(w, steps).jobs[id].force && !After(w, steps).jobs[id].history
    ensures var now := After(w, steps);
            var job, read := now.jobs[id], Next(now, ReadFiles(id, listing, flushed));
            && read.jobs[id].phase == Scanned(false, None, FullReadings(job.pack, now.work))
            && read.scanned == now.scanned + FullReadings(job.pack, now.work)
            && Enabled(read, Finish(id, true))
            && (job.head.Some? ==> var done := Next(read, Finish(id, true));
                                   job.branch in done.rows && done.rows[job.branch] == Row(job.head.value, Some(job.pack)))
  {
    ForcedStayFull(w, steps);
    assert IsForcedFull(After(w, steps).jobs[id]);
  }

  /** A scan that is neither forced nor a history scan goes by the diff exactly when it has a
      base, knows its head, the two differ, the clone has the base, and listing did not raise;
      it reads the working tree otherwise. */
  lemma ReadsByDiffIff(w: World, id: nat, listing: Listing, flushed: set<Reading>)
    requires Enabled(w, ReadFiles(id, listing, flushed)) && !w.jobs[id].history
    ensures var job := w.jobs[id];
            var phase := Next(w, ReadFiles(id, listing, flushed)).jobs[id].phase;
            && phase.rowPack == job.phase.rowPack
            && (phase.incremental <==> job.phase.base.Some? && job.head.Some? && job.phase.base.value != job.head.value
                                       && job.phase.base.value in w.present && listing.Listed?)
            && (!phase.incremental ==> phase.read == FullReadings(job.pack, w.work))
            && (phase.incremental ==> phase.read == DiffReadings(job.pack, w.trees[job.head.value], listing.paths))
  {}

  /** A history scan reads no tree. */
  lemma HistoryScanReadsNoTree(w: World, id: nat, listing: Listing, flushed: set<Reading>)
    requires Enabled(w, ReadFiles(id, listing, flushed)) && w.jobs[id].history
    ensures Next(w, ReadFiles(id, listing, flushed)).jobs[id].phase == Scanned(false, w.jobs[id].phase.rowPack, {})
    ensures Next(w, ReadFiles(id, listing, flushed)).scanned == w.scanned
  {}

  /** Reading runs the rules on what the warmed view lacks and caches of that what is flushed. */
  lemma ReadingFillsTheCache(w: World, id: nat, listing: Listing, flushed: set<Reading>, reading: Reading)
    requires Enabled(w, ReadFiles(id, listing, flushed))
    ensures var read := Next(w, ReadFiles(id, listing, flushed));
            var isMiss := reading in read.jobs[id].phase.read && reading !in w.jobs[id].phase.view;
            && (reading in read.scanned <==> reading in w.scanned || isMiss)
            && (reading in read.cache <==> reading in w.cache || (isMiss && reading in flushed))
  {}

  /** Only finishing a scan writes: one row at most, that of its branch, and the legacy column
      only from the default branch; a history scan or an unknown head writes neither. */
  lemma OnlyFinishingWrites(w: World, step: Step, branch: Branch)
    requires Enabled(w, step)
    ensures var w' := Next(w, step);
            var changed := branch in w'.rows && (branch !in w.rows || w'.rows[branch] != w.rows[branch]);
            && (branch in w.rows ==> branch in w'.rows)
            && (changed || w'.legacy != w.legacy || w'.recorded != w.recorded ==> step.Finish? || step.FinishWebhook?)
            && (changed ==> w.jobs[step.id].branch == branch && step.writeOk)
            && (w'.legacy != w.legacy ==> w.jobs[step.id].branch == w.defaultBranch && w'.legacy == w.jobs[step.id].head)
            && (changed || w'.legacy != w.legacy ==>
                  w.jobs[step.id].head.Some? && (step.Finish? ==> !w.jobs[step.id].history))
  {}

  /** What a finished webhook scan leaves in its row, and either kind in the legacy column. */
  lemma FinishStamps(w: World, step: Step)
    requires Enabled(w, step) && (step.Finish? || step.FinishWebhook?)
    requires w.jobs[step.id].head.Some? && (step.Finish? ==> !w.jobs[step.id].history)
    ensures var job, w' := w.jobs[step.id], Next(w, step);
            && (step.FinishWebhook? && step.writeOk ==>
                  job.branch in w'.rows && w'.rows[job.branch] == Row(job.head.value, None))
            && (step.Finish? && step.writeOk ==> job.branch in w'.rows && w'.rows[job.branch].commit == job.head.value)
            && (job.branch == w.defaultBranch ==> w'.legacy == job.head)
            && w'.recorded == w.recorded + (if job.Manual? then job.phase.read else job.read.value)
            && step.id !in w'.jobs
  {}

  /** Both invariants hold of a repository nothing has scanned. */
  lemma FreshIsSafe(w: World, scope: Scope)
    requires Fresh(w) && Width(scope) <= Width(w.scope)
    ensures PacksTrue(w) && AllCovered(w, scope)
  {}

  // ---------- The file cache ----------

  ghost predicate CacheTrue(w: World) {
    w.cache <= w.scanned && w.recorded <= w.scanned &&
    forall id :: id in w.jobs ==>
      match w.jobs[id]
      case Manual(_, _, _, _, _, _, Warmed(_, _, view)) => view <= w.scanned
      case Manual(_, _, _, _, _, _, Scanned(_, _, read)) => read <= w.scanned
      case Webhook(_, _, _, _, read) => read.Some? ==> read.value <= w.scanned
      case _ => true
  }

  lemma StepKeepsCacheTrue(w: World, step: Step)
    requires CacheTrue(w) && Enabled(w, step)
    ensures CacheTrue(Next(w, step))
  {
    var w' := Next(w, step);
    if step.ReadFiles? {
      var job := w.jobs[step.id];
      var read := ManualReadings(w, job, step.listing).1;
      assert job.phase.view <= w.scanned;
      assert read <= w'.scanned;
    }
  }

  /** The cache skips work but never a reading: everything a scan took from it, and every
      recorded reading, the rule engine has really performed under that same pack. */
  lemma {:induction false} CacheNeverLies(w: World, steps: seq<Step>)
    requires CacheTrue(w) && Runs(w, steps)
    ensures CacheTrue(After(w, steps))
    decreases |steps|
  {
    if steps != [] {
      StepKeepsCacheTrue(w, steps[0]);
      CacheNeverLies(Next(w, steps[0]), steps[1..]);
    }
  }

  // ---------- The stamped pack ----------

  /** The pack a job read beside a checkpoint it still trusts is the pack it scans with. */
  ghost predicate PackAgrees(job: Job) {
    match job
    case Manual(_, _, _, pack, _, _, Chosen(base, rowPack)) => base.Some? && rowPack.Some? ==> rowPack == Some(pack)
    case Manual(_, _, _, pack, _, _, Warmed(base, rowPack, _)) => base.Some? && rowPack.Some? ==> rowPack == Some(pack)
    case Manual(_, _, _, pack, _, _, Scanned(incremental, rowPack, _)) =>
      incremental && rowPack.Some? ==> rowPack == Some(pack)
    case _ => true
  }

  ghost predicate PacksAgree(w: World) {
    forall id :: id in w.jobs ==> PackAgrees(w.jobs[id])
  }

  lemma {:induction false} PacksAlwaysAgree(w: World, steps: seq<Step>)
    requires PacksAgree(w) && Runs(w, steps)
    ensures PacksAgree(After(w, steps))
    decreases |steps|
  {
    if steps != [] {
      var w' := Next(w, steps[0]);
      forall id | id in w'.jobs ensures PackAgrees(w'.jobs[id]) {
        if id in w.jobs { assert PackAgrees(w.jobs[id]); }
      }
      PacksAlwaysAgree(w', steps[1..]);
    }
  }

  /** After any manual checkpoint write, the stored pack is NULL or the pack the scan ran
      with; a webhook write always leaves NULL. No hypothesis on the run. */
  lemma StampedPackIsOwnOrNull(w: World, steps: seq<Step>, id: nat)
    requires PacksAgree(w) && Runs(w, steps)
    requires var now := After(w, steps);
             Enabled(now, Finish(id, true)) && now.jobs[id].head.Some? && !now.jobs[id].history
    ensures var now := After(w, steps);
            var job := now.jobs[id];
            var row := Next(now, Finish(id, true)).rows[job.branch];
            row.commit == job.head.value && (row.pack == None || row.pack == Some(job.pack))
            && (!job.phase.incremental ==> row.pack == Some(job.pack))
  {
    PacksAlwaysAgree(w, steps);
    assert PackAgrees(After(w, steps).jobs[id]);
  }
}
