# Scan worker: models and proofs

The scan worker keeps state that outlives a single scan: which commit of a branch has been
read and with which rules, which findings and incidents are stored, which AI verdicts were
applied, which scans count as alive, which notifications are still owed. This project models
that state and proves what every run of the worker keeps. Where the code falls short of what
its comments promise, the model follows the code, a lemma gives a concrete failing run, and
another lemma says exactly when the promise holds.

## Parts

| files | subject |
|---|---|
| `ScanCoverage`, `Checkpoints`, `CheckpointSafety`, `CheckpointFailures`, `CheckpointStore` | incremental scanning: manual, forced, history and webhook scans interleave step by step with pushes, rule edits, cache pruning and crashes |
| `FindingRows`, `FindingStore` | storing a scan's findings: deduplication, chunked commits, redelivery after a crash, the pass over stale rows |
| `Incidents` | the atomic incident upsert racing with triage edits, and the in-scan upsert cache |
| `ImportStore` | importing findings from a client, with failed deliveries and recounts |
| `TriageGroups`, `TriageBatch`, `TriageCalls`, `TriageApply` | AI triage: grouping, the concurrent batch, the retry loop and rate limiter, the cascade of verdicts |
| `Liveness` | the duplicate-delivery guard, the stale-scan watchdog and the lock sweeper as one timed protocol |
| `RuleOverrides` | muted rules and the credit for each blocked finding |
| `LookaheadSplicer` | the bottom-up line edits of the pattern rewriter |
| `RetryQueue`, `Rotation` | the notification retry queue; rotation events over verification passes |

Components that the program writes as loops over mutable fields are classes and methods here
(`CheckpointRows`, `FileCacheView`, `FindingTable`, `IncidentTable`, `ImportJob`,
`TokenBucket`, `TriageSession`, `OverrideTable`, `Queue`, `TrackedFinding`, and the methods
`GroupFindings`, `ExpandResults`, `ProcessSingle`, `RewriteFile`, `InsertLines`,
`UnescapeForSubstring`). Each is proved against a specification function, and the theorems
are about that function. Interleavings (checkpoints, batch, liveness) are state machines over
their atomic steps.

## Where the code and its comments disagree

* The webhook scan trusts the push payload's base commit as long as the clone has it; it is
  never compared with the stored checkpoint, yet the checkpoint advances to the head
  (`WebhookFromUnscannedBase`). Coverage is proved for runs in which that base is covered.
* A webhook scan always walks with the standard scope, whatever scope the tenant has set
  (`WebhookIgnoresExtendedScope`).
* Listing the changed files answers "no files" when git exits with an error, so the announced
  fallback to a full walk happens only for exceptions (`SilentListingFailure`).
* The diff walk does not ask the scanner for its extension set, so a scanner with the extended
  set skips changed prose and source files that a full walk reads, and the stored pack still
  claims them (`ExtendedScopeSkipsProse`).
* A rule-pack change is meant to force a full walk. It does exactly when the checkpoint still
  knows its pack (`PackChangeDropsBaseIff`); a webhook scan writes NULL there, and the diff scans
  after it keep it (`WebhookHidesRuleChange`).
* Scan locks are per branch, the clone directory per repository: a scan of another branch can
  swap the tree under a full walk (`SharedCloneSwapsTheTree`).
* The stale pass is meant to resolve findings the scan did not reproduce, but it reads rows
  loaded for ids this scan produced: it can only resolve ids the scan produced and then dropped
  by the fingerprint check (`StalePassResolvesOnlyLost`, `FixedFindingStaysOpen`). The engine's
  overlap check leaves no such ids on walk and diff scans (`DistinctPlacesLoseNothing`); a
  history scan can produce them, from two secrets that stood on one line in different commits
  (`LineThatHeldTwoSecrets`).
* The group key of AI triage joins its fields with bars, so two findings whose fields differ can
  share a group when a file name contains one (`KeyTellsApartIff`).
* The upsert cache assumes that all occurrences of one secret carry the same severity
  (`CacheAgreesIff`, `CacheCanFallShort`).
* The guard on rows deleted during the AI phase switches itself off when every row is gone
  (`GuardProtectsIff`, `DeletedFindingLosesTheBatch`).
* With the stall threshold above the backstop, the guard calls alive a scan that the watchdog
  calls stalled, because only the watchdog clamps the threshold (`GuardContradictsWatchdogIff`).
  Exactly at the threshold a scan is neither alive nor dead (`BoundaryGapIff`). Before the first
  RUNNING commit two deliveries of one job both land (`TwoDeliveriesBothLand`), and a sweep in
  that gap lets another job onto the branch (`SweptBeforeLandingSharesTheBranch`). A cancelled
  scan's lock can be swept while its worker still runs (`CancelledScanSharesTheBranch`).
  `DeliveryKeepsOwnersIff` and `SweepKeepsOwnersIff` say exactly when these happen.
* An override that expires between load and write-back takes its block count with it
  (`ExpiryDuringScanLosesBlocks`).
* The retry queue rolls a tick back when its commit collides, after the notifications were sent:
  committed retries are bounded, attempts are not (`RetriesAreBounded`, `CollisionsAreUnbounded`).
* The delivery model's text speaks of five attempts; the code makes six, the first one and
  five retries (`ExhaustionTakesAllRetries`).
* The batch announces that a scan cancellation can surface from a finished call as well as from
  the progress callback. One raised inside a provider call would be caught by the general
  handler and retried like any error (`CancelInsideCallIsAbsorbed`); the batch drains exactly
  when a progress callback cancelled the scan (`DrainsIff`). No present caller raises it inside
  a call: the two places that do are the progress callback and the final status check.

## Model

| member | source | states |
|---|---|---|
| ScanCoverage.DiffWalkCoversUnderIff | services/secret_scan/engine.py:1408-1460 | A diff walk from a fully read base completes coverage of the head under one pack exactly when every changed file it misses had already been read at those contents |
| ScanCoverage.NamesDecide | services/secret_scan/engine.py:1344-1376 | Which names each scope reads: special names always, data files from the standard scope on, prose under the extended one only, others by a content marker; skipped directories and unreadable files never on a full walk |
| ScanCoverage.CompleteListingMisses | services/secret_scan/engine.py:1344-1359 | With a complete listing the diff walk misses a changed file exactly when the scope is the extended one, only that lists the name, and no marker promotes the content |
| ScanCoverage.StandardScopeMissesNothing | services/secret_scan/engine.py:1344-1359 | With the standard extension set or a narrower one, a complete listing misses nothing |
| ScanCoverage.DiffWalkCoversIff | services/secret_scan/engine.py:1408-1460 | Whatever the base, a diff walk with a complete listing covers the head exactly when every file base and head share had been read before |
| ScanCoverage.DiffWalkCoversIffMissedRead | services/secret_scan/engine.py:1408-1460 | From a covered base, whatever git listed and at every scope, a diff walk covers the head exactly when every file it missed had been read before |
| ScanCoverage.FullWalkCoversUnderIff | services/secret_scan/engine.py:2066-2103 | A full walk of the working tree covers a commit under its pack exactly when every file of that commit is in the tree unchanged or was read before |
| ScanCoverage.FullWalkCoversScopeIff | services/secret_scan/engine.py:2066-2103 | A full walk covers its tree at another scope, as a webhook walk does, exactly when the files that scope adds had been read before |
| CheckpointStore.CheckpointRows.Select | apps/worker/tasks.py:3988-4056 | A forced scan gets no base and no pack; an unforced one the row's commit unless its pack changed, and without a readable row the legacy commit, on the default branch alone |
| CheckpointStore.CheckpointRows.StampManual | apps/worker/tasks.py:6206-6263 | After a manual scan: the row of the scanned branch and the legacy column, with history scans and unknown heads leaving everything alone and a diff scan keeping the pack it read |
| CheckpointStore.CheckpointRows.StampWebhook | apps/worker/tasks.py:2883-2926 | After a webhook scan: the row holds the head with no pack, the legacy column follows on the default branch, and an unknown head writes nothing |
| CheckpointStore.FileCacheView.Lookup | services/secret_scan/file_cache.py:126-157 | A hit answers exactly for a warmed reading whose row deserialises, and only then counts |
| CheckpointStore.FileCacheView.WalkTree | services/secret_scan/engine.py:2066-2150 | The cached full walk reports every reading a full walk makes and runs the rules only on those the view cannot answer |
| CheckpointStore.FileCacheView.WalkDiff | services/secret_scan/engine.py:1408-1460 | So does the cached diff walk |
| CheckpointSafety.RulePackSoundness | apps/worker/tasks.py:4018-4056 | In every reachable state, whatever webhooks do and at every scope, a checkpoint holding a pack means every file of that commit was read under that pack, if full walks find their tree and what a diff walk misses had been read under the pack |
| CheckpointSafety.IncrementalCoverage | apps/worker/tasks.py:3988-4438 | Over every interleaving in which full walks find their tree, what diff walks miss had been read and webhook bases are covered, every checkpointed commit, per branch and legacy, is covered at the scope: incremental scanning skips no file a full walk would read |
| CheckpointSafety.WholeListingMeets | apps/worker/tasks.py:4339-4438 | A manual diff walk with git's whole listing and a scope below the extended one misses nothing, so it meets both diff hypotheses |
| CheckpointSafety.WholeListingsCover | apps/worker/tasks.py:3988-4438 | Below the extended scope, over every run in which full walks find their tree, diff walks get git's whole listing and webhook bases are covered, every checkpointed commit is covered |
| CheckpointSafety.PackChangeDropsBaseIff | apps/worker/tasks.py:4035-4056 | A changed rule pack sends an unforced scan of a checkpointed branch into a full walk exactly when the checkpoint still holds a pack |
| CheckpointSafety.BaseIsChosen | apps/worker/tasks.py:3988-4056 | The same choice of the state machine |
| CheckpointSafety.ForcedScanWalksEverything | apps/worker/tasks.py:4004-4438 | Over every run, whatever rows, legacy column and cache hold, a forced scan that is no history scan reads its whole tree anew and its finish stamps the head with its own pack |
| CheckpointSafety.ReadsByDiffIff | apps/worker/tasks.py:4339-4438 | A scan goes by the diff exactly when it has a base other than its head that the clone holds and listing did not raise; it reads the whole tree otherwise |
| CheckpointSafety.HistoryScanReadsNoTree | apps/worker/tasks.py:4318-4338 | A history scan records no tree reading |
| CheckpointSafety.ReadingFillsTheCache | services/secret_scan/engine.py:2104-2150 | Rules run on what the view lacks, and the cache gains of that what is flushed |
| CheckpointSafety.OnlyFinishingWrites | apps/worker/tasks.py:6206-6263 | Only finishing a scan writes: the row of its branch, the legacy column from the default branch only, neither for history scans or unknown heads |
| CheckpointSafety.FinishStamps | apps/worker/tasks.py:2883-2926 | What finishing leaves in the row and the legacy column, and that a webhook leaves no pack |
| CheckpointSafety.FreshIsSafe | apps/worker/tasks.py:3988-4056 | A repository nothing has scanned satisfies both invariants, so every run from it keeps them |
| CheckpointSafety.StepKeepsPacksTrue | apps/worker/tasks.py:6206-6246 | Every single step keeps the pack invariant, including a checkpoint read under the requested branch and written under the scanned one |
| CheckpointSafety.StepKeepsAllCovered | apps/worker/tasks.py:4339-4438 | Every single step keeps coverage of all rows, the legacy column and all scans under way |
| CheckpointSafety.ReadWebhookCovers | apps/worker/tasks.py:2611-2682 | A webhook scan from a covered base, or by the full-walk fallback, covers its head |
| CheckpointSafety.WebhookCoversIff | apps/worker/tasks.py:2611-2629 | A webhook scan on the diff path covers its head exactly when every file the payload's base shares with the head had been read before |
| CheckpointSafety.CacheNeverLies | services/secret_scan/file_cache.py:102-184 | Over every run, whatever is flushed, pruned or warmed, every cached, taken or recorded reading was really performed under that pack |
| CheckpointSafety.PacksAlwaysAgree | apps/worker/tasks.py:4046-4056 | Whenever a running manual scan has kept both a base and a stored pack, that pack is the scan's own |
| CheckpointSafety.StampedPackIsOwnOrNull | apps/worker/tasks.py:6236-6245 | After any manual checkpoint write the stored pack is NULL or the pack the scan ran with, and its own after a full walk, with no hypothesis on the run |
| CheckpointFailures.WebhookFromUnscannedBase | apps/worker/tasks.py:2611-2629 | A run from a fresh repository that meets every hypothesis but the webhook base: a commit with an unread file is checkpointed and coverage fails |
| CheckpointFailures.WebhookIgnoresExtendedScope | apps/worker/tasks.py:2599-2682 | A run that meets every hypothesis but the webhook scope: a full webhook walk leaves prose unread under the extended scope |
| CheckpointFailures.SilentListingFailure | services/secret_scan/git_history.py:296-340 | A run that meets every hypothesis but those on what a diff walk misses: listing fails by exit code, nothing is read, the checkpoint advances with its pack, coverage and pack truth fail |
| CheckpointFailures.ExtendedScopeSkipsProse | services/secret_scan/engine.py:1426-1431 | The same with a complete listing under the extended scope |
| CheckpointFailures.SharedCloneSwapsTheTree | apps/worker/tasks.py:3557-3583 | A run that meets every hypothesis but the one on the tree: two branches share a clone, a full walk stamps a commit it never read, coverage and pack truth fail |
| CheckpointFailures.WebhookHidesRuleChange | apps/worker/tasks.py:4035-4056 | A run that meets every hypothesis: full scan, webhook scan, rule edit, diff scan; an unchanged file is never read under the new rules and the checkpoint still holds no pack |
| CheckpointFailures.ManualScanRuns | apps/worker/tasks.py:3988-4438 | What an uninterrupted, unforced scan of the default branch `main` leaves behind when it is no history scan, its cache view is empty and its reads and writes succeed, from any quiet state, and which hypotheses it meets |
| FindingStore.SeenFingerprintsMeaning | apps/worker/tasks.py:4765-4772 | A finding passes the fingerprint check exactly when no earlier finding of the scan equals it there |
| FindingStore.SeenIsKept | apps/worker/tasks.py:4858-4864 | The set of seen ids is exactly the ids of the kept findings |
| FindingStore.KeptIsDistinct | apps/worker/tasks.py:4858-4864 | Kept findings have pairwise distinct stability ids |
| FindingRows.StoredKeepsUnique | apps/worker/tasks.py:4864-5085 | Storing any findings keeps at most one row per stability id |
| FindingStore.ReplayChangesCountersOnly | apps/worker/tasks.py:4866-5085 | Replaying findings that a table already holds changes only counters |
| FindingStore.ReplayCatchesUp | apps/worker/tasks.py:4866-5085 | Replaying from the start over a table that holds a prefix lands where one uninterrupted pass would, up to counters |
| FindingStore.CrashConfluence | apps/worker/tasks.py:5086-5129 | Any sequence of crashes, each keeping some committed prefix, followed by one full pass ends with the rows of an uninterrupted pass |
| FindingStore.FindingTable.Probe | apps/worker/tasks.py:4676-4693 | The bounded probe loads exactly the rows of ids this scan produced |
| FindingStore.FindingTable.StoreOne | apps/worker/tasks.py:4866-5085 | One kept finding refreshes its row, is muted, or creates one row |
| FindingStore.FindingTable.StoreFindings | apps/worker/tasks.py:4764-5129 | The loop stores the kept findings in order, counts as created exactly those new to the table and not muted, and has committed all but the last unfinished chunk of 500, wherever the worker dies |
| FindingStore.FindingTable.StoreUntilDone | apps/worker/tasks.py:4647-5129 | Crashing any number of times and restarting from the committed rows ends with the rows of one uninterrupted pass and one row per id |
| FindingStore.FindingTable.ScanUntilDone | apps/worker/tasks.py:4647-5190 | Crashed deliveries followed by one that runs through, stale pass included, end in the table of one uninterrupted scan, up to counters |
| FindingStore.AfterScanForgetsCrashes | apps/worker/tasks.py:4676-5190 | What crashed deliveries added to the loaded rows makes no difference to the stale pass |
| FindingStore.ChunkBoundary | apps/worker/tasks.py:5109-5111 | The three-part test fires exactly when 500 findings have been handled since the last commit |
| FindingStore.BirthsCountRows | apps/worker/tasks.py:4933-5085 | The table grows by exactly the kept findings whose id had no row before the scan and whose rule is not muted |
| FindingStore.FindingTable.ResolveStale | apps/worker/tasks.py:5174-5190 | The pass resolves exactly the loaded, unseen, untouched rows and returns how many there were |
| FindingStore.StalePassResolvesOnlyLost | apps/worker/tasks.py:5174-5190 | The pass changes a row exactly when it is untouched and its id was produced by this scan and dropped by the fingerprint check |
| FindingStore.StalePassIsIdleIff | apps/worker/tasks.py:5174-5190 | Whatever the table holds the pass resolves nothing, exactly when the scan lost no id |
| FindingStore.FixedFindingStaysOpen | apps/worker/tasks.py:5174-5190 | A whole scan, storing and stale pass together, leaves every row it did not reproduce as it was, the rows the pass is meant for |
| FindingStore.RowAfterScan | apps/worker/tasks.py:4875-5085 | Column by column, what a whole scan leaves in the row of a finding it kept: a dead credential suppresses, a live one lifts only the verifier's own suppression, other verdicts leave both columns; line, severity, incident and a given title are the finding's, classification and remediation the old row's; a muted rule creates nothing, a new row awaits review |
| FindingStore.StoredRow | apps/worker/tasks.py:4875-5085 | The same before the stale pass |
| FindingStore.SameSidIff | services/normalization/stability.py:102-133 | Two findings share a stability id exactly when they have the same secret in the same file, or neither has a secret and rule, file and line agree |
| FindingStore.SameFingerprintIff | apps/worker/tasks.py:4765-4768 | And a fingerprint exactly when rule, path, line and category agree |
| FindingStore.PathsAreRelative | apps/worker/tasks.py:320-323 | A file below the checkout is known by its relative path, any other by its own, a missing one as unknown |
| FindingStore.FindingTable.RunScan | apps/worker/tasks.py:4647-5190 | Probe, storing loop and stale pass together write the specified table |
| FindingStore.NothingLostWhenFingerprintsAgree | apps/worker/tasks.py:4765-4772 | No id is lost when equal fingerprints imply equal stability ids |
| FindingStore.DistinctPlacesLoseNothing | services/secret_scan/engine.py:1138-1143 | Findings with pairwise distinct file and line, which is what the engine leaves of walk and diff scans, lose no id, and the stale pass is idle on every table |
| FindingStore.LineThatHeldTwoSecrets | apps/worker/tasks.py:4765-4772 | A history scan that finds two secrets on one line, from different commits, resolves the stored finding of the second |
| Incidents.IncidentTable.Upsert | apps/worker/tasks.py:146-206 | One statement inserts the row or merges it, as the specification step does |
| Incidents.IncidentTable.Triage | apps/worker/tasks.py:110-129 | A triage edit lands exactly on the version it was based on |
| Incidents.IncidentTable.IngestScan | apps/worker/tasks.py:139-206 | A scan with the cache writes what the cached specification says |
| Incidents.RowUnderInterleaving | apps/worker/tasks.py:110-206 | Under any interleaving: one row exactly when something was ingested; its severity is that of some sighting and none is above it, rank and last-seen the maxima, title and validation the last sighting's, secret type and masked value the last known ones, triage columns and version the fold of the edits alone |
| Incidents.RankIsOrder | apps/worker/tasks.py:72 | The numeric rank is the order of the five severities |
| Incidents.CountFollowsRecounts | apps/worker/tasks.py:131-134 | The occurrence count starts at one and is afterwards what the last recount said |
| Incidents.NewIncidentAwaitsReview | apps/worker/tasks.py:154-175 | Without edits an incident awaits review, unassigned, at version one |
| Incidents.EditSetsItsColumns | apps/worker/tasks.py:110-129 | An edit that lands sets exactly the columns it names and moves the version by one; another changes nothing |
| Incidents.OrderDoesNotMatter | apps/worker/tasks.py:176-206 | Histories with the same ingests in any order end with the same severity, rank and last-seen |
| Incidents.IngestLeavesTriageAlone | apps/worker/tasks.py:110-129 | A further ingest changes no triage column, version or count |
| Incidents.RankWithAndWithoutCache | apps/worker/tasks.py:139-145 | With the cache the rank is the maximum of the old one and the first occurrence's; without it, of the old one and all of them |
| Incidents.CacheAgreesIff | apps/worker/tasks.py:139-145 | Both ranks are equal exactly when no occurrence outranks both the stored row and the first occurrence |
| Incidents.CacheCanFallShort | apps/worker/tasks.py:139-145 | A scan in which the cache keeps an incident below the severity of one of its occurrences |
| ImportStore.ImportKeepsUnique | apps/worker/tasks.py:421-445 | An import keeps one row per stability id |
| ImportStore.DistinctCountsIds | apps/worker/tasks.py:418-421 | The items that pass the duplicate check are as many as the distinct ids |
| ImportStore.ImportKeepsTriage | apps/worker/tasks.py:455-469 | No existing row's classification is touched |
| ImportStore.RowAfterImport | apps/worker/tasks.py:418-515 | Column by column, what an import leaves in the row of an id: the first item of the id refreshes it or makes a new one, and nothing is suppressed |
| ImportStore.ImportMatchesScan | apps/worker/tasks.py:416-418 | An imported finding has the stability id of a server scan of the same secret |
| ImportStore.TouchedMeaning | apps/worker/tasks.py:445-453 | The touched incidents are exactly those of the imported secrets |
| ImportStore.LinkedCounts | apps/worker/tasks.py:525-530 | The count is the number of rows that carry the incident |
| ImportStore.RecountWrites | apps/worker/tasks.py:522-537 | The recount writes touched incidents that have rows, and no other |
| ImportStore.ImportIsIdempotent | apps/worker/tasks.py:381-515 | Repeating an import creates nothing and changes counters only |
| ImportStore.RecountIsExact | apps/worker/tasks.py:517-537 | Every touched incident ends with the number of rows linked to it in all repositories, at least one of them in this one, and no other count moves |
| ImportStore.ImportJob.StoreImported | apps/worker/tasks.py:381-537 | Created plus updated is the number of distinct ids, created is the growth of the table, rows and counts are those of the specification |
| ImportStore.ImportJob.RefreshCounts | apps/worker/tasks.py:522-537 | The recount writes exactly the touched incidents that have rows |
| ImportStore.ImportJob.Ingest | apps/worker/tasks.py:1097-1222 | A completed job is left alone, a delivery without a repository fails it, a failing one rolls everything back |
| ImportStore.ImportJob.Deliver | apps/worker/tasks.py:1097-1222 | Any sequence of failing and succeeding deliveries ends as one import if one succeeds, as none otherwise |
| TriageGroups.LeaderIsLongest | services/ai_triage/dedup.py:93-100 | The representative has the longest snippet of its group |
| TriageGroups.KeysKeepOrder | services/ai_triage/dedup.py:79-90 | Keys stand in the order of first occurrence |
| TriageGroups.MembersKeepOrder | services/ai_triage/dedup.py:88-90 | Members stand in the order of the findings |
| TriageGroups.GroupColumns | services/ai_triage/dedup.py:97-107 | A group names its key, its representative and its members in order |
| TriageGroups.LongestIsFirst | services/ai_triage/dedup.py:95-97 | Of several longest the first is sent out |
| TriageGroups.KeyTellsApartIff | services/ai_triage/dedup.py:79-88 | Findings that agree in CWE, file, rule and snippet fingerprint share a key; the converse holds for a finding exactly when none of its three fields contains a bar |
| TriageGroups.GroupFindings | services/ai_triage/dedup.py:79-114 | The two passes yield the representatives, one for each distinct key in order of first occurrence, and the map of groups by representative |
| TriageGroups.GroupsPartition | services/ai_triage/dedup.py:79-108 | A finding is listed by the group of its own key and by no other |
| TriageGroups.ExpandResults | services/ai_triage/dedup.py:122-152 | Every member of an answered group gets an answered group's verdict, every other answered id its own, nothing else anything |
| TriageGroups.ExpansionFollowsLeaders | services/ai_triage/dedup.py:122-152 | After expansion a finding carries exactly its representative's verdict, and none when the representative has none |
| TriageGroups.GroupingRefinesTriageIff | services/ai_triage/dedup.py:58-152 | Group, triage, expand equals triaging every finding exactly when each finding would get its representative's verdict |
| TriageBatch.BatchSafety | services/ai_triage/batch.py:151-400 | Under every interleaving: in-flight calls within the limit, at most max_retries + 1 calls per finding, progress 1, 2, 3, …, no call running once a cancellation has left the batch |
| TriageBatch.OneResultPerFinding | services/ai_triage/batch.py:190-274 | A batch that finished collected every finding exactly once |
| TriageBatch.ResultFollowsHistory | services/ai_triage/batch.py:290-396 | Over every run, from the steps of a task alone up to a cancellation: answered exactly when its last call returned, refused exactly when the breaker was open, exhausted exactly when one call more threw than there are retries, each after that many calls that threw |
| TriageBatch.CancellationFreezesCalls | services/ai_triage/batch.py:214-262 | Once the callback cancelled the scan, every task is stopped when it is next resumed: no provider call starts, nothing more is collected, and after one step for each live task the batch aborts |
| TriageBatch.DrainsIff | services/ai_triage/batch.py:214-262 | A batch drains exactly when some progress callback cancelled the scan |
| TriageBatch.CancelInsideCallIsAbsorbed | services/ai_triage/batch.py:369-396 | A run in which a cancellation raised inside a provider call is caught, the call repeated and the batch finished |
| TriageBatch.NeverStuck | services/ai_triage/batch.py:151-400 | A batch that is not over can always take a step |
| TriageBatch.EveryScheduleEnds | services/ai_triage/batch.py:290-400 | Every schedule is bounded by the number of findings and retries |
| TriageCalls.ProcessSingle | services/ai_triage/batch.py:276-400 | The retry loop ends at the first attempt that is not retryable, makes exactly the calls before and at it, and sleeps the backoff of every retry it makes, at most a minute each |
| TriageCalls.BackoffDoubles | services/ai_triage/batch.py:343-385 | The first retry after a 429 waits ten seconds, after anything else the base delay, each further one twice as long, none more than a minute |
| TriageCalls.TokenBucket.Acquire | services/ai_triage/batch.py:433-448 | A grant comes at the later of the request and one interval after the last grant, plus whatever the sleep overruns |
| TriageCalls.TokenBucket.Serve | services/ai_triage/batch.py:433-448 | For any sequence of callers all grants are spaced by the interval |
| TriageCalls.RateBound | services/ai_triage/batch.py:304-309 | Any half-open minute holds at most max(rpm, 1) grants |
| TriageCalls.RateBoundIsTight | services/ai_triage/batch.py:433-448 | Some schedule reaches that bound |
| TriageApply.IncidentTakesFirstAccepted | apps/worker/tasks.py:7489-7507 | An incident in needs-review ends with the first accepted verdict among its results; any other never moves |
| TriageApply.HeldIff | apps/worker/tasks.py:7449-7466 | A decision is held exactly when its confidence is known and below the threshold |
| TriageApply.OccurrenceTakesFirstAccepted | apps/worker/tasks.py:7508-7546 | So does every occurrence the batch holds no result for |
| TriageApply.SubmittedTakesItsOwn | apps/worker/tasks.py:7447-7546 | A submitted finding ends with its own verdict, or, if that was held, the next accepted one of its incident |
| TriageApply.LonelyFindingIsUntouched | apps/worker/tasks.py:7489-7546 | A finding without an incident changes only by its own result |
| TriageApply.DecidedIsFinal | apps/worker/tasks.py:7494-7503 | An incident that has left needs-review at any point of the loop keeps its classification to the end |
| TriageApply.IncidentAndOccurrencesAgree | apps/worker/tasks.py:7489-7546 | An undecided incident and its undecided occurrences leave the batch with the same classification |
| TriageApply.TriageSession.ApplyVerdicts | apps/worker/tasks.py:7424-7546 | The loop applies exactly the results that pass the guard, in order |
| TriageApply.GuardProtectsIff | apps/worker/tasks.py:7377-7434 | The loop meets no deleted row exactly when some candidate row is still there or there was no candidate |
| TriageApply.DeletedFindingLosesTheBatch | apps/worker/tasks.py:7377-7434 | With one finding, deleted meanwhile, the apply loop fails |
| Liveness.SweeperImpliesWatchdog | apps/worker/tasks.py:8293-8322 | The sweeper frees a non-terminal holder's lock only when the watchdog would reap it, for every setting |
| Liveness.GuardContradictsWatchdogIff | apps/worker/tasks.py:8078-8083 | Guard and watchdog can contradict each other exactly when the stall threshold exceeds the backstop |
| Liveness.BoundaryGapIff | apps/worker/tasks.py:3316-3350 | A running scan is neither alive to the guard nor dead to the watchdog exactly when its heartbeat is as old as the stall threshold, the threshold is within the backstop and the backstop has not passed; the sweeper keeps its lock then |
| Liveness.BoundaryGap | apps/worker/tasks.py:8076-8122 | Under every setting with the threshold within the backstop there is such a scan |
| Liveness.RedeliveryIsSkipped | apps/worker/tasks.py:3316-3350 | A redelivery of a job that is running with a fresh heartbeat changes nothing, whoever holds the lock |
| Liveness.StepKeepsGuarded | apps/worker/tasks.py:8045-8122 | No step takes the row or the branch from the job of a fresh landed execution |
| Liveness.LiveExecutionIsLeftAlone | apps/worker/tasks.py:8045-8122 | In any world, once an execution has landed while its job held the branch, then over every run in which it heartbeats in time, is younger than the backstop and is not ended, it is never reaped and its job keeps the branch |
| Liveness.DeliveryKeepsOwnersIff | apps/worker/tasks.py:3523-3583 | A delivery keeps every execution alone in its job and in possession of its branch exactly when the guard calls the job alive or the job has no execution |
| Liveness.SweepKeepsOwnersIff | apps/worker/tasks.py:8293-8322 | A sweep keeps that exactly when it frees no execution's branch |
| Liveness.YoungRowIsSpared | apps/worker/tasks.py:8293-8322 | It frees none whose row shows a sign of life within the stall threshold |
| Liveness.OneExecutionPerBranch | services/repo_scan/concurrency.py:102-160 | Over every run from a world without executions, no two executions share a branch and every landed one whose scan is under way is guarded, provided that executions under way are fresh, a job is delivered again only while all its executions are under way, and no sweep frees the branch of an execution that has not landed or whose scan is over, say cancelled |
| Liveness.SweptBeforeLandingSharesTheBranch | apps/worker/tasks.py:8277-8322 | A run in which a sweep between delivery and landing lets two jobs land on one branch |
| Liveness.CancelledScanSharesTheBranch | apps/worker/tasks.py:8311-8314 | A run in which a running scan is cancelled, its branch swept before its worker notices, and another job lands on the branch |
| Liveness.TwoDeliveriesBothLand | apps/worker/tasks.py:3617-3621 | Before the first RUNNING commit two deliveries of one job share the re-entrant lock and both land |
| Liveness.DeadWorkerIsRecovered | apps/worker/tasks.py:8277-8322 | When a scan stays silent past the threshold, the watchdog can reap it, the sweeper can free its lock, and a redelivery starts a new execution, unless another job holds the branch and the row is cancelled |
| Liveness.CompletionFreesBranchIff | services/repo_scan/concurrency.py:152-156 | Completing takes away the branch lock exactly when it carries this job and token, and no other lock |
| Liveness.NextJobStartsAfterCompletion | services/repo_scan/concurrency.py:102-156 | A pending job of the branch starts on its next delivery once the owner has completed |
| Liveness.BranchIsFreeUnlessOwnerDied | services/repo_scan/concurrency.py:102-160 | Over every run from a world without locks a branch stays locked only while its owner is at work or when it died |
| Liveness.SignsOfLife | apps/worker/tasks.py:3617-3625 | Landing and progress stamp the moment, so the guard sees the scan |
| Liveness.DeliveryOutcomes | apps/worker/tasks.py:3565-3600 | A delivery the guard lets through starts an execution with the lock, or cancels the row when another job has it |
| Liveness.RowsAreClosed | apps/worker/tasks.py:8045-8122 | What the watchdog and a cancellation do to the rows, and that neither frees a lock |
| Liveness.AnyMomentSteps | apps/worker/tasks.py:8122-8127 | Executions may die, progress or complete at any moment, and a watchdog pass reaps at most five hundred scans, each by its test |
| Liveness.ThresholdsResolve | apps/worker/tasks.py:7954-8016 | Minutes win over hours, ninety minutes and four hours are the defaults, and anything but a number from one on counts as unset |
| Liveness.ReapedIff | apps/worker/tasks.py:8102-8122 | The watchdog reaps a scan that is not over and whose heartbeat, or creation, is older than the smaller threshold, or whose run is older than the backstop |
| Liveness.ReleasableIff | apps/worker/tasks.py:8293-8322 | The sweeper frees a lock whose holder is gone, over, or silent beyond the stall threshold |
| RuleOverrides.OwnerMeaning | apps/worker/rule_overrides.py:181-214 | The owner exists exactly when an enforced override of the rule does, and is target-scoped whenever one is, in any row order |
| RuleOverrides.OwnerAmongSeveral | apps/worker/rule_overrides.py:196-214 | Among several overrides of a rule the last scoped one is credited, without a scoped one the first organisation-wide one |
| RuleOverrides.MutedIffOwned | apps/worker/rule_overrides.py:86-112 | A rule is muted exactly when the recorder finds an owner for it |
| RuleOverrides.MutedMeaning | apps/worker/rule_overrides.py:86-112 | A rule is muted exactly when an override names it that is of the tenant, switched on, not expired, and names no target or this one |
| RuleOverrides.OverrideTable.RecordBlocks | apps/worker/rule_overrides.py:181-233 | The two passes write the specified table |
| RuleOverrides.RecordedKeepsRows | apps/worker/rule_overrides.py:215-233 | Nothing but counters changes |
| RuleOverrides.EachRuleCreditsItsOwner | apps/worker/rule_overrides.py:196-233 | Every row grows by the counts of the rules it owns |
| RuleOverrides.CreditIsOneCount | apps/worker/rule_overrides.py:196-233 | That is the count of its own rule if it is the owner, zero otherwise |
| RuleOverrides.NoBlockIsLostIff | apps/worker/rule_overrides.py:181-233 | The increments sum to the blocked total exactly when every blocked rule is still muted at write-back |
| RuleOverrides.ExpiryDuringScanLosesBlocks | apps/worker/rule_overrides.py:181-195 | An override expiring in between loses three blocks |
| LookaheadSplicer.RewriteFile | scripts/rewrite_lookaheads.py:337-414 | Working from the last rule to the first, the method splices the computed edits bottom up and reports rewritten, already done and unrecognised rules in that order |
| LookaheadSplicer.ReportCountsRules | scripts/rewrite_lookaheads.py:327-403 | Every selected rule with a pattern line is reported exactly once, and as many as rewritten as there are edits |
| LookaheadSplicer.ReportListsRules | scripts/rewrite_lookaheads.py:344-403 | The report lists each rule by what became of it, the last rule of the file first |
| LookaheadSplicer.ScanFindsPattern | scripts/rewrite_lookaheads.py:354-368 | What the window search finds is a pattern line within the window, with no line before it that ends the rule or marks it done |
| LookaheadSplicer.ScanMeaning | scripts/rewrite_lookaheads.py:354-368 | The search finds the last pattern line it gets to and says done exactly when it gets to a mark |
| LookaheadSplicer.WindowIsThirty | scripts/rewrite_lookaheads.py:355 | The window is thirty lines or up to the end of the file |
| LookaheadSplicer.EndsRuleIff | scripts/rewrite_lookaheads.py:366 | A rule ends at a line that closes a constructor, whatever blanks follow |
| LookaheadSplicer.MarksDoneIff | scripts/rewrite_lookaheads.py:363 | A line marks its rule done exactly when the field's name stands somewhere in it |
| LookaheadSplicer.RuleFate | scripts/rewrite_lookaheads.py:350-403 | What becomes of a rule and, when it is rewritten, the exact lines of its edit |
| LookaheadSplicer.EditsFit | scripts/rewrite_lookaheads.py:344-392 | Edits come in file order and rules that share a pattern line compute the same edit |
| LookaheadSplicer.BottomUpIsSimultaneousIff | scripts/rewrite_lookaheads.py:344-408 | Reverse splicing equals all edits at once exactly when no two rules edit one line; otherwise that line's fields are injected twice |
| LookaheadSplicer.RewriteIsSimultaneous | scripts/rewrite_lookaheads.py:337-414 | When every rule's window ends before the next rule the file is the simultaneous edit |
| LookaheadSplicer.LinesKeepTheirOrder | scripts/rewrite_lookaheads.py:392-414 | Every original line keeps its turn |
| LookaheadSplicer.UnescapeForSubstring | scripts/rewrite_lookaheads.py:90-109 | The index loop computes the recursive unescaping |
| LookaheadSplicer.UnescapeInvertsEscape | scripts/rewrite_lookaheads.py:90-109 | Unescaping gives back every keyword, also one with backslashes |
| LookaheadSplicer.SixCharactersAreSpecial | scripts/rewrite_lookaheads.py:103-105 | The backslash goes before exactly six characters |
| RetryQueue.Retry | apps/worker/tasks.py:9271-9365 | What one pick does to its row |
| RetryQueue.FatesDecide | apps/worker/tasks.py:9271-9366 | What each fate makes of a waiting row: status, counted attempt, and the moment of the next retry |
| RetryQueue.FirstRetryInAMinute | services/notifications/dispatcher.py:219-224 | A failed first attempt is due a minute later |
| RetryQueue.NoDueRowIsForgotten | apps/worker/tasks.py:9245-9258 | A tick leaves a due row out only when 150 others are due at least as long |
| RetryQueue.Queue.RetryAll | apps/worker/tasks.py:9263-9366 | Every picked row moves on, no other row changes, and the counters are the numbers of rows ending in each status |
| RetryQueue.Queue.Tick | apps/worker/tasks.py:9245-9381 | processed = succeeded + still retrying + dead-lettered, the picked rows and no others move on, and a stale-data collision leaves the queue as it was |
| RetryQueue.WaitingRow | apps/worker/tasks.py:9313-9366 | A row still waiting after n committed retries records n + 1 attempts, met only transient failures in them and has served the waiting times |
| RetryQueue.CommittedPicksDecide | apps/worker/tasks.py:9367-9374 | A row is what its committed picks make of it; picks rolled back by a collision leave no trace |
| RetryQueue.RetriesAreBounded | apps/worker/tasks.py:9313-9374 | At most five picks of a row are ever committed; all others were rolled back by collisions |
| RetryQueue.CollisionsAreUnbounded | apps/worker/tasks.py:9367-9374 | For every number there is a row picked that often, its notification sent each time, that is still as it was recorded |
| RetryQueue.RowLife | apps/worker/tasks.py:9227-9381 | Over any run of enqueues and ticks the life of each row is a list of due picks |
| RetryQueue.SixAttemptsAtMost | apps/worker/tasks.py:9313-9366 | Over any run of the queue no row records more than six attempts |
| RetryQueue.ClosedIsFinal | apps/worker/tasks.py:9252-9258 | A closed row is never picked again |
| RetryQueue.ExhaustionTakesAllRetries | apps/api/app/models/notification_delivery.py:129-136 | Only-transient failures dead-letter a row at its sixth recorded attempt, after 26460 seconds at the earliest |
| Rotation.TrackedFinding.VerifyAll | apps/worker/tasks.py:8846-8922 | The passes leave the specified stamp and events |
| Rotation.EventsAreFlips | apps/worker/tasks.py:8568-8614 | The rotation events number exactly the adjacent active-then-inactive pairs of stamped statuses |
| Rotation.EventsKeepOrder | apps/worker/tasks.py:8586-8604 | Later passes only add events behind the earlier ones |
| Rotation.PassStamps | apps/worker/tasks.py:8710-8763 | A pass stamps the finding exactly when it brings a definite verdict |
| Rotation.EventColumns | apps/worker/tasks.py:8586-8603 | An event dates the credential from the anchor, else from the last verification, else from now, and is never negative |
| Rotation.AnchorIsFirstActive | apps/worker/tasks.py:8846-8922 | The anchor is set by the first pass that finds the credential active |
| Rotation.AnchorNeverMoves | apps/worker/tasks.py:8710-8763 | The first-seen-active moment, once set, never changes |

## Left out

- FindingStore.CrashConfluence: compares the rows without `scan_count` and the refreshed columns, which a replay advances.
- Liveness.OneExecutionPerBranch: promises nothing for runs in which a job is delivered again, or its branch swept, before one of its executions has landed or after its scan was cancelled under a running one; the exact conditions and failing runs stand beside it.
- Git, cloning, HTTP, Redis, task queue and database session mechanics; commits and single statements are atomic steps. Lock expiry by TTL is not modelled.
- The rule engine, its patterns and what a file's findings are: a reading of a file under a pack is atomic.
- Truncated SHA-256 keys are taken as injective in their fields.
- Snippets, evidence, tags, timestamps and display columns of finding rows that no decision reads.
- Unknown severity strings: severities are the five normalised ones.
- Circuit-breaker internals: an open breaker is one possible outcome of an attempt.
- The progress callback's own failures other than a cancellation, beyond their being swallowed.
- The meaning of the rewritten regular expressions: matching a line is an abstract predicate, and the rendered fields of an edit are abstract lines.
- The storing loops of source scans and webhook scans, which repeat the same deduplication with other columns.
- Failing inserts of rotation events and audit rows.
- Tombstoning of findings in deleted files, history-walk findings, pull-request comments, tickets and notification texts.
- Claims that terminal scan states are absorbing or that progress never goes back: unguarded writes make them false.
- Prompts, model probing, accuracy figures, auto-configuration, calibration, encryption, URL handling, the command line: only easy members.
