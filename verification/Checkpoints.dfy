// The incremental-scan checkpoints of one repository as a state machine: manual, forced,
// history and webhook scans interleave step by step, rules and scope are edited, commits
// come and go in the shared clone, and any scan may die between two steps.
module Checkpoints {
  import opened Prelude
  import opened ScanCoverage

  type Sha = nat
  type Branch = string

  /** One row of `repo_branch_checkpoints`; a NULL pack means "unknown". */
  datatype Row = Row(commit: Sha, pack: Option<Pack>)

  /** How far a manual scan has come. `rowPack` is the pack read beside the checkpoint. */
  datatype Phase =
    | Prepared
    | Chosen(base: Option<Sha>, rowPack: Option<Pack>)
    | Warmed(base: Option<Sha>, rowPack: Option<Pack>, view: set<Reading>)
    | Scanned(incremental: bool, rowPack: Option<Pack>, read: set<Reading>)

  datatype Job =
    | Manual(requested: Branch, branch: Branch, head: Option<Sha>, pack: Pack,
             force: bool, history: bool, phase: Phase)
    | Webhook(branch: Branch, base: Option<Sha>, head: Option<Sha>, pack: Pack,
              read: Option<set<Reading>>)

  /** `trees` is what each commit contains, which never changes; `present` is what the
      clone holds; `work` is the shared working tree. `scanned` is every reading the rule
      engine has really performed and `recorded` every reading whose findings a finished
      scan has stored. */
  datatype World = World(
    trees: map<Sha, Tree>,
    present: set<Sha>,
    work: Tree,
    rows: map<Branch, Row>,
    legacy: Option<Sha>,
    defaultBranch: Branch,
    rules: nat,
    scope: Scope,
    cache: set<Reading>,
    scanned: set<Reading>,
    recorded: set<Reading>,
    jobs: map<nat, Job>)

  /** What listing the changed files gave: an exception, or some of the changed paths
      (all of them when git succeeds, none when it exits with an error). */
  datatype Listing = Raised | Listed(paths: set<Path>)

  datatype Step =
    | EditRules(rules: nat)
    | SetScope(scope: Scope)
    | SetDefaultBranch(branch: Branch)
    | Fetch(present: set<Sha>)
    | PruneCache(kept: set<Reading>)
    | Prepare(id: nat, requested: Branch, branch: Branch, head: Option<Sha>, archive: Tree,
              force: bool, history: bool)
    | ReadCheckpoint(id: nat, readOk: bool)
    | WarmCache(id: nat, view: set<Reading>)
    | ReadFiles(id: nat, listing: Listing, flushed: set<Reading>)
    | Finish(id: nat, writeOk: bool)
    | BeginWebhook(id: nat, branch: Branch, base: Option<Sha>, head: Option<Sha>, checkoutOk: bool)
    | ReadWebhook(id: nat, listing: Listing)
    | FinishWebhook(id: nat, writeOk: bool)
    | Crash(id: nat)

  // ---------- The decisions ----------

  /** The checkpoint a manual scan starts from, and the pack stored beside it. */
  function ChooseBase(force: bool, requested: Branch, readOk: bool, rows: map<Branch, Row>,
                      legacy: Option<Sha>, defaultBranch: Branch, pack: Pack): (Option<Sha>, Option<Pack>)
  {
    if force then (None, None) else
    var found := readOk && requested in rows;
    var rowPack := if found then rows[requested].pack else None;
    var base := if found then Some(rows[requested].commit)
                else if requested == defaultBranch then legacy
                else None;
    if base.Some? && rowPack.Some? && rowPack.value != pack then (None, rowPack) else (base, rowPack)
  }

  /** The manual scan takes the diff path only from a different commit the clone still has. */
  predicate TakesDiff(base: Option<Sha>, head: Option<Sha>, present: set<Sha>) {
    base.Some? && head.Some? && base != head && base.value in present
  }

  /** The webhook scan trusts the payload's base as long as the clone has it. */
  predicate WebhookTakesDiff(base: Option<Sha>, head: Option<Sha>, present: set<Sha>) {
    base.Some? && head.Some? && base.value in present
  }

  function StampRow(rows: map<Branch, Row>, branch: Branch, row: Row, writeOk: bool): map<Branch, Row> {
    if writeOk then rows[branch := row] else rows
  }

  function StampLegacy(legacy: Option<Sha>, branch: Branch, defaultBranch: Branch, head: Sha): Option<Sha> {
    if branch == defaultBranch then Some(head) else legacy
  }

  // ---------- The steps ----------

  predicate InPhase(w: World, id: nat) {
    id in w.jobs && w.jobs[id].Manual?
  }

  predicate GoodListing(w: World, base: Sha, head: Sha, listing: Listing)
    requires base in w.trees && head in w.trees
  {
    listing.Listed? ==> listing.paths <= ChangedPaths(w.trees[base], w.trees[head])
  }

  predicate Enabled(w: World, step: Step) {
    match step
    case Fetch(present) => present <= w.trees.Keys
    case PruneCache(kept) => kept <= w.cache
    case Prepare(id, _, _, head, _, _, _) => id !in w.jobs && (head.Some? ==> head.value in w.trees)
    case ReadCheckpoint(id, _) => InPhase(w, id) && w.jobs[id].phase.Prepared?
    case WarmCache(id, view) =>
      InPhase(w, id) && w.jobs[id].phase.Chosen? && view <= w.cache
      && (w.jobs[id].force ==> view == {})
      && forall reading :: reading in view ==> reading.pack == w.jobs[id].pack
    case ReadFiles(id, listing, _) =>
      InPhase(w, id) && w.jobs[id].phase.Warmed?
      && (TakesDiff(w.jobs[id].phase.base, w.jobs[id].head, w.present) ==>
            w.jobs[id].phase.base.value in w.trees && w.jobs[id].head.value in w.trees
            && GoodListing(w, w.jobs[id].phase.base.value, w.jobs[id].head.value, listing))
    case Finish(id, _) => InPhase(w, id) && w.jobs[id].phase.Scanned?
    case BeginWebhook(id, _, _, head, _) => id !in w.jobs && (head.Some? ==> head.value in w.trees)
    case ReadWebhook(id, listing) =>
      id in w.jobs && w.jobs[id].Webhook? && w.jobs[id].read.None?
      && (WebhookTakesDiff(w.jobs[id].base, w.jobs[id].head, w.present) ==>
            listing.Listed?
            && w.jobs[id].base.value in w.trees && w.jobs[id].head.value in w.trees
            && GoodListing(w, w.jobs[id].base.value, w.jobs[id].head.value, listing))
    case FinishWebhook(id, _) => id in w.jobs && w.jobs[id].Webhook? && w.jobs[id].read.Some?
    case Crash(id) => id in w.jobs
    case _ => true
  }

  /** What a manual scan in phase `Warmed` reads, and whether it went by the diff. */
  function ManualReadings(w: World, job: Job, listing: Listing): (bool, set<Reading>)
    requires job.Manual? && job.phase.Warmed?
    requires TakesDiff(job.phase.base, job.head, w.present) ==> job.head.value in w.trees
  {
    if job.history then (false, {})
    else if TakesDiff(job.phase.base, job.head, w.present) && listing.Listed? then
      (true, DiffReadings(job.pack, w.trees[job.head.value], listing.paths))
    else (false, FullReadings(job.pack, w.work))
  }

  function WebhookReadings(w: World, job: Job, listing: Listing): set<Reading>
    requires job.Webhook?
    requires WebhookTakesDiff(job.base, job.head, w.present) ==> listing.Listed? && job.head.value in w.trees
  {
    if WebhookTakesDiff(job.base, job.head, w.present) then
      DiffReadings(job.pack, w.trees[job.head.value], listing.paths)
    else FullReadings(job.pack, w.work)
  }

  /** The pack a finishing manual scan stamps: its own after a full walk, the one it read
      beside the checkpoint after a diff walk. */
  function StampedPack(job: Job): Option<Pack>
    requires job.Manual? && job.phase.Scanned?
  {
    if job.phase.incremental then job.phase.rowPack else Some(job.pack)
  }

  function Next(w: World, step: Step): World
    requires Enabled(w, step)
  {
    match step
    case EditRules(rules) => w.(rules := rules)
    case SetScope(scope) => w.(scope := scope)
    case SetDefaultBranch(branch) => w.(defaultBranch := branch)
    case Fetch(present) => w.(present := present)
    case PruneCache(kept) => w.(cache := kept)
    case Prepare(id, requested, branch, head, archive, force, history) =>
      w.(work := if head.Some? then w.trees[head.value] else archive,
         jobs := w.jobs[id := Manual(requested, branch, head, Pack(w.rules, w.scope), force, history, Prepared)])
    case ReadCheckpoint(id, readOk) =>
      var job := w.jobs[id];
      var chosen := ChooseBase(job.force, job.requested, readOk, w.rows, w.legacy, w.defaultBranch, job.pack);
      w.(jobs := w.jobs[id := job.(phase := Chosen(chosen.0, chosen.1))])
    case WarmCache(id, view) =>
      var job := w.jobs[id];
      w.(jobs := w.jobs[id := job.(phase := Warmed(job.phase.base, job.phase.rowPack, view))])
    case ReadFiles(id, listing, flushed) =>
      var job := w.jobs[id];
      var outcome := ManualReadings(w, job, listing);
      var misses := outcome.1 - job.phase.view;
      w.(scanned := w.scanned + misses,
         cache := w.cache + flushed * misses,
         jobs := w.jobs[id := job.(phase := Scanned(outcome.0, job.phase.rowPack, outcome.1))])
    case Finish(id, writeOk) =>
      var job := w.jobs[id];
      var after := w.(recorded := w.recorded + job.phase.read, jobs := w.jobs - {id});
      if job.head.None? || job.history then after
      else after.(rows := StampRow(w.rows, job.branch, Row(job.head.value, StampedPack(job)), writeOk),
                  legacy := StampLegacy(w.legacy, job.branch, w.defaultBranch, job.head.value))
    case BeginWebhook(id, branch, base, head, checkoutOk) =>
      w.(work := if head.Some? && checkoutOk then w.trees[head.value] else w.work,
         jobs := w.jobs[id := Webhook(branch, base, head, Pack(w.rules, Standard), None)])
    case ReadWebhook(id, listing) =>
      var job := w.jobs[id];
      var read := WebhookReadings(w, job, listing);
      w.(scanned := w.scanned + read, jobs := w.jobs[id := job.(read := Some(read))])
    case FinishWebhook(id, writeOk) =>
      var job := w.jobs[id];
      var after := w.(recorded := w.recorded + job.read.value, jobs := w.jobs - {id});
      if job.head.None? then after
      else after.(rows := StampRow(w.rows, job.branch, Row(job.head.value, None), writeOk),
                  legacy := StampLegacy(w.legacy, job.branch, w.defaultBranch, job.head.value))
    case Crash(id) => w.(jobs := w.jobs - {id})
  }

  // ---------- Runs ----------

  ghost predicate Runs(w: World, steps: seq<Step>)
    decreases |steps|
  {
    steps == [] || (Enabled(w, steps[0]) && Runs(Next(w, steps[0]), steps[1..]))
  }

  ghost function After(w: World, steps: seq<Step>): World
    requires Runs(w, steps)
    decreases |steps|
  {
    if steps == [] then w else After(Next(w, steps[0]), steps[1..])
  }

  /** A repository nothing has scanned yet. */
  ghost predicate Fresh(w: World) {
    w.rows == map[] && w.legacy == None && w.cache == {} && w.scanned == {} && w.recorded == {}
    && w.jobs == map[] && w.present <= w.trees.Keys
  }
}
