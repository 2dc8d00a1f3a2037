# ChainPort, modelled and proved in Dafny

ChainPort moves a Solidity project to another chain: it scans the repository, scores its compatibility, plans a
migration, generates and reviews a change set, and deploys the result through a sandbox. This project models the parts of
it that are algorithms or protocols, and proves what they promise. `dafny verify dfyconfig.toml` checks all of it.

## What is modelled

**Planning.** `Dependencies` is Kahn's algorithm over mutable maps and a FIFO queue; `DraftMerging` merges the drafts of
the rules; `MigrationPlan` puts both together, numbers the actions twice and sums them up. The rules and `localeCompare`
are parameters.

**Change sets.** `Diff` prints a unified diff and `DiffReview` is the page that reads it back; `LineReplacement` is the
one-line primitive of the patchers. `ChangeSets` is a stored change set with its counts and the review calls of the API;
`ChangeSetEngine` has the two processors, in which every awaited operation may fail before or after it has had its
effect, the worker may crash, and the API is served in between; `ChangeSetScenarios` runs them one after the other.
`Eligibility` decides what may be deployed, and ends in the statement about the whole way from a plan to a deployable tree.

**Deployment.** `DeploymentRun` is the stored run: the status a caller *claims* is checked against the transition table,
the stored one is overwritten whatever it is, so the two are kept apart. `Credentials` is the map of disposable keys; the
entry of a run in it is what a process of the protocol has as its `live` credential. `DeploymentProtocol` is a state
machine with one step for every awaited operation of the processors, which may fail before or after it has had its effect,
any number of processes, crashes, and cancellations by the API. Any job may be delivered to an idle process at any time.
That is more than the queue does, which drops a job while it still holds one with the same id, and holds the last hundred
that are done (`apps/api/src/queue.ts:72-100`): what holds of every execution here holds of those the queue allows, while
an execution that is said to exist may take deliveries that the queue drops, like a second reconciliation soon after the
first. `DeploymentCalls` says what each call comes to when nothing interferes, for every way in which its operations
answer or throw; `DeploymentCredentialUse` what holds in every interleaving; `DeploymentDiscipline` what holds when calls
are delivered one at a time, and exactly to which runs they may be delivered; `DeploymentStandstill` exactly which runs are
stuck for ever and which cancellations stand; `DeploymentReruns` which runs can still end, whose script can still be
executed, and how many deliveries that takes. `DeploymentScenarios` builds executions that show what can happen.
`RpcProxy` is the proxy between the sandbox and the chain, with handlers that interleave at their awaits;
`DeploymentJournal` follows the hashes from its journal into the run.

**Scores, canonical forms, walks.** `Scoring` has the weighted score with its three layers of rounding, over `real`;
`CanonicalJson` and `TargetSnapshot` the text snapshots are hashed from, and `JsonReading` reads such text back;
`TreeHash` the bytes a tree is hashed from; `Inventory` the bounded scan; `FileTrees` what the two walks share.
`Sequences`, `Text`, `Rounding` and `Options` are shared helpers.

## What turned out not to hold

Where the code does not meet what one would expect, the code is modelled as it is and the exact condition is proved.

- A transition writes a status log that lies as soon as the claimed status is not the stored one
  (`DeploymentRun.ClaimConsistent`). Preparing a FAILED, SIMULATING or FUNDING run, or reconciling a run that is not in
  flight but has transactions, does that; no other delivery does (`DeploymentDiscipline.CallTruthful`).
- The script of a run can be executed more than once. A second preparation revives a FAILED run
  (`DeploymentScenarios.PrepareRevivesFailedRun`), and a reconciliation whose checks fail makes every run with a transaction
  FAILED, even a COMPLETED or CANCELLED one (`DeploymentReruns.ReconcileFails`). When nobody works on a run, its script can
  be executed, for the first time or again, if and only if the run has a transaction, is FAILED or has not reached the
  broadcast (`DeploymentReruns.ScriptRunsExactly`); so it can after a disciplined execution that ended COMPLETED
  (`DeploymentReruns.CompletedRunsAgain`), although `docs/DEPLOYMENT_ENGINE.md:58-59` promises that a script which has
  sent a transaction is never rerun.
  An execution takes a broadcast and a preparation of its own (`DeploymentReruns.SecondExecutionTakes`). One request is
  enough to reconcile a COMPLETED run (`apps/api/src/deployment-service.ts:302-313`). A second preparation is not
  requested by the API, which asks for one only for a QUEUED run (`apps/api/src/deployment-service.ts:187-189`): it is the
  first one, tried again after it has thrown (`apps/api/src/queue.ts:27-32`) or handed out again after its worker has
  died. A second broadcast is requested when the revived run is confirmed, but dropped while the first is one of the last
  hundred jobs done, so the script runs again only after a hundred other jobs, or when a broadcast is handed out again.
- A cancellation that races a broadcast is overwritten (`DeploymentScenarios.CancelOverwritten`), with one
  preparation and one broadcast, neither of which the queue drops. A cancelled run without
  transactions stays as it is in every execution if and only if no process is in the middle of work on it
  (`DeploymentStandstill.CancellationStandsExactly`).
- A run in CONFIRMING, VERIFYING or RECONCILIATION_REQUIRED can be stuck: when no process works on it, no job and no
  cancellation ever moves it again if and only if it has no transaction (`DeploymentStandstill.StrandedExactly`). With
  BROADCASTING included, a run in flight can still be COMPLETED or FAILED if and only if it has a transaction
  (`DeploymentReruns.EndsExactly`); the way there is a reconciliation, which the queue drops while it holds an earlier
  one. A stranded run comes about when the sandbox call throws, as the journal is then not read, and when the script succeeds without a
  hash and the worker crashes before the run is completed (`DeploymentScenarios.ThrownExecutionStrands`,
  `DeploymentScenarios.SilentExecutionStrands`).
- The key that dedupes evidence is ambiguous: different items can be dropped (`DraftMerging.MergedEvidenceLossless`).
- The page takes a deleted line "--…" or an added line "++…" for a file header and loses the numbering after it
  (`DiffReview.ReviewExact`).
- A revision that an earlier failed finalization has left is kept with its old completeness and content hash. After a
  finalization the stored revision describes the artifact if and only if there was none before, or it did already
  (`ChangeSetEngine.ProcessFinalize`); `ChangeSetScenarios.StaleRevision` ends with a finalized, complete change set whose
  revision is stale in either way. Eligibility refuses a stale partial revision for ever, and passes a stale complete one
  with the content hash it was created with (`Eligibility.StoredRevisionEligible`). What is left to catch the second is the
  comparison of the artifact's hash with that content hash when a revision is validated and when a deployment is prepared
  (`apps/worker/src/validation-processor.ts:134-151`, `apps/worker/src/deployment-processor.ts:172-177`), which then fails.
- An own `__proto__` entry leaves no trace in canonical JSON (`CanonicalJson.LookupSorted`, `CanonicalJson.PrototypeEntryLost`).
- The comment in `packages/changeset/src/hash.ts` suggests that the hashed bytes determine the tree. Among trees whose files
  contain no NUL they do (`TreeHash.PreimageDetermines`). Among all trees, the bytes of such a tree determine it if and
  only if it has at most one file: two records can be read as one (`TreeHash.BytesDetermineExactly`, `TreeHash.NulCollides`). The code also
  skips every path that starts with two dots, which the comment does not say.
- The same comment has the records in the order of the UTF-8 paths. The code compares UTF-16 units: the orders agree if and
  only if no two paths first differ in one character beyond U+FFFF and one from U+E000 on (`TreeHash.Utf8OrderExactly`,
  `TreeHash.OutOfUtf8Order`).
- The window limit needs a clock that never steps back: whatever the clock does, it holds exactly for limits of at most one
  (`RpcProxy.AnyClockExactly`, `RpcProxy.ClockSteppingBack`).

## Model

| member | source | states |
|---|---|---|
| Dependencies.CountEdges | packages/migration/src/dependencies.ts:14-27 | the two maps hold, for every key, the number of its unfinished dependencies counted with multiplicity, and the list of its dependants |
| Dependencies.FinishCurrent | packages/migration/src/dependencies.ts:32-43 | taking one key off the queue keeps the frontier invariant: counts are what is still open, and exactly the keys whose count fell to zero are queued, one level deeper than what they wait for |
| Dependencies.TopologicalOrder | packages/migration/src/dependencies.ts:10-49 | for distinct keys an order is returned if and only if the edges between known keys are acyclic; it is a permutation with every dependency first, non-decreasing in the length of the longest dependency chain; without internal edges it is the input |
| Dependencies.SortedIsAcyclic | packages/migration/src/dependencies.ts:45-48 | whatever has a dependency order has no cycle |
| Dependencies.LeftoverCycle | packages/migration/src/dependencies.ts:45-47 | keys left over, each waiting for another of them, contain a real cycle |
| Dependencies.ReachedByDepth | packages/migration/src/dependencies.ts:29-44 | an order built wave by wave never falls in chain depth |
| DraftMerging.UniqueEvidence | packages/migration/src/dedupe.ts:28-42 | the first item of every dedupe key is kept, in order |
| DraftMerging.MergeDrafts | packages/migration/src/dedupe.ts:3-22 | one draft per key, keys distinct and in first-seen order, each the merge of exactly the drafts with its key |
| DraftMerging.MergeConserves | packages/migration/src/dedupe.ts:16-19 | no finding id, dependency or evidence key is lost, and none is invented |
| DraftMerging.MergeKeepsFirst | packages/migration/src/dedupe.ts:5-19 | an action is the first draft with its key, but for the three lists that are merged |
| DraftMerging.MergedEvidenceLossless | packages/migration/src/dedupe.ts:17 | evidence items themselves survive if and only if no two different ones share a dedupe key |
| DraftMerging.EvidenceKeyCollides | packages/migration/src/dedupe.ts:34 | two pairs of different evidence items with the same key |
| DraftMerging.EvidenceKeyInjective | packages/migration/src/dedupe.ts:34 | without colons in ids and paths the key determines all but the evidence id |
| MigrationPlan.ResolvedDependencies | packages/migration/src/engine.ts:18-31 | exactly the edges that are pushed, in their order and as often; an edge is among them if and only if it leads from an action to a different known action it asks for |
| MigrationPlan.DisplayOrderIsPreorder | packages/migration/src/ordering.ts:21-31 | the four-level comparison is a total preorder for every collation |
| MigrationPlan.OrderShown | packages/migration/src/ordering.ts:6-31 | it puts actions first by automation level, BLOCKED, UNKNOWN, MANUAL, REVIEW_REQUIRED, SAFE_AUTOMATIC, then by stage in the listed order, then by title, then by key |
| MigrationPlan.OrderActions | packages/migration/src/ordering.ts:14-37 | both numberings are bijections onto 0..n-1, the display order is sorted and keeps drafts that tie as they came, the dependency order respects every edge, is by length of chains, and without edges is the order of the drafts; refused if and only if there is a cycle |
| MigrationPlan.CountsPartition | packages/migration/src/status.ts:5-14 | the five level counts add up to the total |
| MigrationPlan.CountsAre | packages/migration/src/status.ts:5-14 | each of them is the number of actions of its level |
| MigrationPlan.OutcomeMeaning | packages/migration/src/status.ts:16-33 | ready means every action is safe, blocked means some action is blocked, and so on, in both directions |
| MigrationPlan.PercentRange | packages/migration/src/status.ts:35-49 | the rounded quotient is within 0..100, 0 with no safe action, 100 with only safe ones among the actionable |
| MigrationPlan.PercentIs | packages/migration/src/status.ts:35-49 | it is the nearest whole percentage of the safe ones among those neither blocked nor unknown |
| MigrationPlan.GatheredAreCreated | packages/migration/src/engine.ts:35-43 | a draft is gathered if and only if the first rule that supports some finding that did not pass creates it; the drafts come finding by finding |
| MigrationPlan.PlanCovers | packages/migration/src/engine.ts:33-61 | the plan has the keys of these drafts and no others, and each action has every finding and every dependency of the drafts with its key, and no others |
| MigrationPlan.CreateMigrationPlan | packages/migration/src/engine.ts:33-61 | a plan for what the first supporting rules create for the findings that did not pass, unless the wanted edges between the merged drafts have a cycle, with all of the above at once |
| Diff.SplitLinesInvertible | packages/changeset/src/diff.ts:1-5 | the lines and the newline flag give the text back |
| Diff.CommonPrefix | packages/changeset/src/diff.ts:14-21 | the longest common prefix |
| Diff.CommonSuffix | packages/changeset/src/diff.ts:22-29 | the longest common suffix of what is left |
| Diff.HunkLines | packages/changeset/src/diff.ts:30-57 | the lines pushed are the header, whose counts are those of the rows, and the printed rows of the hunk |
| Diff.UnifiedDiff | packages/changeset/src/diff.ts:7-59 | equal texts print the file header alone, other texts the printed hunk around changed blocks that share no first and no last line; its header announces what follows |
| Diff.PrintAnnounces | packages/changeset/src/diff.ts:30-59 | read from the text: after the file header a line `@@ -a,b +c,d @@`, whose a and c are the first line shown, b the number of following lines that begin with a blank or a minus, d of those that begin with a blank or a plus; these are up to three unchanged lines, the old, the new, up to three unchanged |
| Diff.HunkPatches | packages/changeset/src/diff.ts:30-57 | applying the hunk to the old lines, checking context and deletions, gives the new lines |
| Diff.HunkLabelled | packages/changeset/src/diff.ts:46-57 | every row of the hunk carries the line of the old and of the new text that its numbers name |
| Diff.HunkCounts | packages/changeset/src/diff.ts:40-45 | the counts of the hunk header are the numbers of old and of new rows |
| Diff.HunkPrinted | packages/changeset/src/diff.ts:46-57 | the rows are printed as four marked blocks in this order |
| DiffReview.ParseDiff | apps/web/components/changeset-review.tsx:414-447 | the loop computes the fold of the line parser over the lines |
| DiffReview.FindHunkExactly | apps/web/components/changeset-review.tsx:420-422 | the two start numbers are those of the leftmost `@@ -a +c` or `@@ -a,b +c` in the line, whatever stands around it, and there are none if and only if there is no such header |
| DiffReview.ShownExactly | apps/web/components/changeset-review.tsx:414-447 | for every text: one row for every line that is not skipped, in order, of the kind and with the text its first characters ask for; and a row's old (new) number is where the last hunk header before it starts, or zero, plus the old (new) rows since |
| DiffReview.ReviewExact | apps/web/components/changeset-review.tsx:419-445 | parsing a printed hunk gives back exactly its rows and numbers if and only if the path is quiet and no row is ambiguous |
| DiffReview.ReviewedDiff | apps/web/components/changeset-review.tsx:414-447 | for the hunk of two texts: read back exactly if and only if no deleted line starts with "--" and no added line with "++" (and the path is quiet); then the rows carry the labelled lines and patch the old text into the new |
| DiffReview.Review | apps/web/components/changeset-review.tsx:449-450 | from two different texts, through the printed diff, to the rows on the page: they are the hunk of the two texts if and only if the path is quiet and no changed line is ambiguous, and then they patch the one text into the other |
| LineReplacement.OccursOnce | packages/changeset/src/patch.ts:44 | what splitting counts as one occurrence: the source occurs, and not again behind its first occurrence (it may overlap itself); of the empty source, a line of two characters |
| LineReplacement.ReplacesExactly | packages/changeset/src/patch.ts:38-49 | a call succeeds if and only if the line is there and has the source once in that sense; a target without patterns then stands where the source first occurred, and every other line is as before |
| LineReplacement.KeepsOtherLines | packages/changeset/src/patch.ts:38-49 | a success changes one line; the line count stays if and only if the target has no newline |
| LineReplacement.Commutes | packages/changeset/src/patch.ts:32-50 | calls on different lines commute, in success and in result |
| LineReplacement.Undo | packages/changeset/src/patch.ts:44-48 | without replacement patterns, swapping source and target restores the text if and only if the target then occurs once on the line, at the replaced position |
| LineReplacement.PatternsKeepFromUndoing | packages/changeset/src/patch.ts:48 | with a pattern in the source, a target at the replaced position whose source does not come back |
| LineReplacement.PatternsUndo | packages/changeset/src/patch.ts:48 | with patterns in both, a target at another position whose source comes back all the same |
| ChangeSets.CountsPartition | packages/db/src/changeset-repository.ts:337-355 | the five counts add up to the number of rows |
| ChangeSets.CountsAre | packages/db/src/changeset-repository.ts:337-355 | each count is the number of rows with its verdict |
| ChangeSets.PersistedCounts | packages/db/src/changeset-repository.ts:172-205 | the counts written with generated rows are exact if and only if no row comes decided |
| ChangeSets.AllAcceptedByCounts | apps/worker/src/changeset-processor.ts:329-335 | with nothing undecided, no rejected, skipped and failed rows by the counts means every row is accepted, and conversely |
| ChangeSets.CallKeepsSound | apps/api/src/changeset-service.ts:99-192 | a call of the API keeps the invariant (counts exact unless a write was lost, rows those of the plan, log a path through the table) and takes no decision back |
| ChangeSets.CallsRefused | apps/api/src/changeset-service.ts:128-192 | outside review and after finalization nothing the API does changes a change set |
| ChangeSets.FirstDecisionStands | packages/db/src/changeset-repository.ts:207-227 | under review, for any calls: an undecided row gets the verdict of the first call that addresses it, ACCEPTED or REJECTED as it says, and stays undecided if none does |
| ChangeSets.RollbackIsFinal | apps/api/src/changeset-service.ts:128-147 | a rollback of a finalized change set is written and logged, and nothing changes it afterwards |
| ChangeSets.WentThroughReview | packages/shared/src/changeset-transitions.ts:4-15 | the log of a finalized change set ends with the whole way from the queue through the review, without a shortcut |
| ChangeSets.NothingLeftToDecide | apps/worker/src/changeset-processor.ts:274-282 | once everything is settled, calls before the review is closed change neither rows nor counts, even if a write is lost |
| ChangeSets.MadeStaysFresh | apps/api/src/changeset-service.ts:99-192 | calls of which no write of the counts is lost keep them exact |
| ChangeSets.MoveKeepsSound | packages/db/src/changeset-repository.ts:131-170 | a transition from the stored status keeps the invariant, given what the new status demands |
| ChangeSetEngine.Store.Transition | packages/db/src/changeset-repository.ts:131-170 | only the table is checked; status and log are written |
| ChangeSetEngine.Store.PersistGenerated | packages/db/src/changeset-repository.ts:172-205 | rows replaced, counts written as computed there |
| ChangeSetEngine.Store.SetChangeStatus | packages/db/src/changeset-repository.ts:207-218 | only an undecided row changes; the answer says whether it did |
| ChangeSetEngine.Store.SettleProposed | packages/db/src/changeset-repository.ts:220-236 | every undecided row gets the verdict, and the answer is their number |
| ChangeSetEngine.Store.Serve | apps/api/src/changeset-service.ts:99-192 | what one call of the API does, and that a refused one does nothing |
| ChangeSetEngine.GenerateRows | apps/worker/src/changeset-processor.ts:134-214 | one row for each safe action, in order, unless the patcher of one throws: PROPOSED if and only if its only evidence file is contained, present and small enough and the patcher answers with a patch, and then with the file and the values that the patcher reports; SKIPPED else |
| ChangeSetEngine.RowsForFit | apps/worker/src/changeset-processor.ts:134-214 | the same of the specification function, and there are no rows if and only if a patcher throws |
| ChangeSetEngine.RowsForPlan | apps/worker/src/changeset-processor.ts:134-214 | the rows are those of the safe actions, in order, none decided |
| ChangeSetEngine.Claim | apps/worker/src/changeset-processor.ts:90-106 | a transition that may fail before or after its effect; the claimed status is the stored one |
| ChangeSetEngine.ProcessGenerate | apps/worker/src/changeset-processor.ts:44-237 | however it ends, the change set is sound; when done from an unfinished one, it is ready for review with the rows described for GenerateRows and exact counts; a reviewed one keeps its decisions; counts stay exact while no write of them is lost; when nothing fails it is done, but FAILED if a patcher throws or the repository is at another commit |
| ChangeSetEngine.ApplyAccepted | apps/worker/src/changeset-processor.ts:297-323 | the accepted changes applied one after the other, or none if one of them fails |
| ChangeSetEngine.Publish | apps/worker/src/changeset-processor.ts:325-355 | artifact is the tree, completeness is by the counts, a revision is written only where there is none |
| ChangeSetEngine.ReviewedRowsAre | apps/worker/src/changeset-processor.ts:274-282 | a finalization finds the first decision on each row, and skips the undecided ones |
| ChangeSets.InTurnExactly | apps/worker/src/changeset-processor.ts:297-323 | the accepted changes lead to a tree if and only if each in turn is given to its patcher, as its action with the values of its row, and the patcher's text replaces the file |
| ChangeSetEngine.FinalizeClosed | apps/worker/src/changeset-processor.ts:284-369 | from a closed review: no decision is taken back, the revision is the earlier one or that of the new tree, and with no failure but the last write the whole outcome is determined |
| ChangeSetEngine.ProcessFinalize | apps/worker/src/changeset-processor.ts:239-369 | however it ends, the change set is sound and no decision is taken back; counts stay exact while no write of them is lost; when done it is finalized, and its revision describes the artifact if and only if there was none before or it did already; when nothing fails, or only the write of the completeness, the rows, tree, revision and status, and whether the revision describes them, are determined by the state before |
| ChangeSetScenarios.FinalizeTwice | apps/worker/src/changeset-processor.ts:325-369 | generated and finalized, failed at the write of the completeness, generated and finalized again: the completeness and the tree are the second, the revision is the first |
| ChangeSetScenarios.StaleRevision | apps/worker/src/changeset-processor.ts:334-355 | two such runs, one with a revision that is partial, one with a revision of other content |
| Eligibility.EligibleExactly | packages/deployment/src/eligibility.ts:24-97 | a revision may be deployed if and only if it is whole, validated as it is, every action is safe, and there is none or its own change set is finalized and complete |
| Eligibility.RefusedExactly | packages/deployment/src/eligibility.ts:24-97 | for any stored record of a plan, each refusal is given if and only if its own reason holds, and with none of them the change set comes back for a generated revision only |
| Eligibility.StoredRevisionEligible | packages/deployment/src/eligibility.ts:24-97 | the stored revision of a change set: refused for ever if it was partial when it was created, otherwise judged by its own content hash and what the change set is by now |
| Eligibility.EligibleMeansApplied | packages/deployment/src/eligibility.ts:46-96 | a deployable stored revision of a plan with actions: every action was safe, has exactly one row, which was accepted and has the values its patcher reported, and the artifact is the base with exactly these changes applied; the content hash is the artifact's if the revision describes it, and only then unless hashes collide |
| DeploymentRun.NoReturn | packages/shared/src/deployment-transitions.ts:4-20 | a truthful log never comes back across the broadcast boundary |
| DeploymentRun.ClaimConsistent | packages/db/src/deployment-repository.ts:169-230 | a claim keeps the log truthful if and only if it is the stored status and the edge is in the table |
| DeploymentRun.RecordHashes | packages/db/src/deployment-repository.ts:276-328 | recording loses no row, keeps hashes distinct and adds at most one |
| DeploymentRun.RecordStatus | packages/db/src/deployment-repository.ts:290-310 | the row of the hash gets the status, every other row stays |
| DeploymentRun.RecordKeeps | packages/db/src/deployment-repository.ts:290-328 | it keeps its place, its sequence number, and what is not given; a hash without a row gets one at the end |
| DeploymentRun.DeploymentRepository.Transition | packages/db/src/deployment-repository.ts:169-230 | refused off the table, otherwise status and log are written whatever was stored |
| DeploymentRun.DeploymentRepository.RecordTransaction | packages/db/src/deployment-repository.ts:276-328 | the loop is the upsert by hash |
| Credentials.Handle.PeekPrivateKey | packages/deployment/src/credentials.ts:29-34 | a key until destroyed, an error after |
| Credentials.LiveCredentials.StoreCredential | packages/deployment/src/credentials.ts:44-47 | the new handle is live, the replaced one has lost its key, the others keep theirs |
| Credentials.LiveCredentials.DestroyCredential | packages/deployment/src/credentials.ts:53-57 | the key is gone from the handle, not only from the map |
| Credentials.LiveCredentials.GetCredential | packages/deployment/src/credentials.ts:49-51 | the run's handle, which still has its key, or none |
| DeploymentCredentialUse.NextCareful | apps/worker/src/deployment-processor.ts:322-539 | no step adds a credential to execute with but the live one at the start of a broadcast, and after an execution every way on leads through its destruction |
| DeploymentCredentialUse.CredentialsAreUsedOnce | apps/worker/src/deployment-processor.ts:206-539 | with any number of processes, interleavings and crashes: no credential is used twice, two executions of a process are separated by a fresh issue, executions never exceed issues |
| DeploymentDiscipline.StepsFit | apps/worker/src/deployment-processor.ts:90-736 | along a call that nobody interferes with, what the process assumes about the stored run holds at every step, and the log stays truthful |
| DeploymentDiscipline.PrepareLies | apps/worker/src/deployment-processor.ts:95-106 | a preparation of a FAILED, SIMULATING or FUNDING run has answers under which it writes a false claim |
| DeploymentDiscipline.ReconcileLies | apps/worker/src/deployment-processor.ts:729-735 | so has a reconciliation of a run that is not in flight but has transactions |
| DeploymentDiscipline.CallTruthful | apps/worker/src/deployment-processor.ts:90-736 | a call keeps the log truthful, whatever its operations answer, if and only if its job is deliverable |
| DeploymentDiscipline.DisciplineSuffices | apps/worker/src/deployment-processor.ts:90-736 | in every disciplined execution, with crashes: the log is a path to the stored status, the script runs at most once, a COMPLETED run has only confirmed transactions, and only COMPLETED and FAILED runs must not be reconciled |
| DeploymentScenarios.CanComplete | apps/worker/src/deployment-processor.ts:90-736 | a disciplined execution gets through every status to COMPLETED with one run of the script |
| DeploymentScenarios.CancelOverwritten | apps/api/src/deployment-service.ts:273-300 | an execution in which a cancelled run is broadcast |
| DeploymentScenarios.PrepareRevivesFailedRun | apps/worker/src/deployment-processor.ts:95-106 | an execution in which a FAILED run is prepared and broadcast again |
| DeploymentReruns.ScriptRunsExactly | apps/worker/src/deployment-processor.ts:90-736 | with nobody at work, some execution runs the script (once more) if and only if the run has a transaction, is FAILED, or has not reached the broadcast |
| DeploymentReruns.DeadForEver | apps/worker/src/deployment-processor.ts:541-558 | past the broadcast or given up, without a transaction and with nobody at work: nothing is ever issued or executed, and the run keeps its status or comes to need reconciliation |
| DeploymentReruns.ReconcileFails | apps/worker/src/deployment-processor.ts:596-736 | a reconciliation whose checks fail makes any run with transactions FAILED, whatever its status |
| DeploymentReruns.CompletedRunsAgain | apps/worker/src/deployment-processor.ts:541-736 | a disciplined execution that completes a run with one execution of the script, and a continuation with a second |
| DeploymentReruns.EndsExactly | apps/worker/src/deployment-processor.ts:541-736 | with nobody at work on a run in flight, some execution makes it COMPLETED or FAILED if and only if it has a transaction |
| DeploymentReruns.ExecutionsNeedDeliveries | apps/worker/src/deployment-processor.ts:90-539 | in every interleaving with crashes: at most one execution for every broadcast and one credential for every preparation that a process takes up |
| DeploymentReruns.SecondExecutionTakes | apps/worker/src/deployment-processor.ts:90-539 | from the beginning, no more executions than broadcasts taken up, and no more than preparations |
| DeploymentScenarios.SilentExecutionStrands | apps/worker/src/deployment-processor.ts:447-498 | disciplined executions that end in CONFIRMING and in VERIFYING without a transaction and with nobody at work |
| DeploymentStandstill.StrandedForEver | apps/worker/src/deployment-processor.ts:546-558 | in CONFIRMING, VERIFYING or RECONCILIATION_REQUIRED without a transaction and with nobody at work, no execution ever changes the run |
| DeploymentStandstill.StrandedExactly | apps/worker/src/deployment-processor.ts:541-736 | with nobody at work on a run in flight, some execution moves it if and only if it has a transaction or is BROADCASTING |
| DeploymentStandstill.CancellationStands | apps/api/src/deployment-service.ts:273-300 | a cancelled run without transactions that no process is in the middle of work on is left as it is in every execution, and its script is not run |
| DeploymentStandstill.CancellationStandsExactly | apps/api/src/deployment-service.ts:273-300 | every execution leaves a cancelled run as it is if and only if it has no transaction and every process is settled |
| DeploymentScenarios.ThrownExecutionStrands | apps/worker/src/deployment-processor.ts:516-528 | a disciplined execution that ends in such a run |
| RpcProxy.PurgedIsRecent | packages/deployment/src/rpc-proxy.ts:73-76 | once purged, the queue is exactly what was admitted in the window that ends now |
| RpcProxy.RefusedExactlyWhenFull | packages/deployment/src/rpc-proxy.ts:77-85 | with a non-decreasing clock a request is refused if and only if the window ending at it already holds the limit |
| RpcProxy.WindowNeverOverfull | packages/deployment/src/rpc-proxy.ts:73-85 | with a non-decreasing clock no closed window of 60,000 ms, wherever it starts, holds more admitted requests than the limit |
| RpcProxy.ClockSteppingBack | packages/deployment/src/rpc-proxy.ts:73-85 | for every limit from two on, arrivals with a clock that steps back and a window with more than the limit |
| RpcProxy.AnyClockExactly | packages/deployment/src/rpc-proxy.ts:73-85 | the bound holds for every clock if and only if the limit is at most one |
| RpcProxy.OnlySendSends | packages/deployment/src/rpc-proxy.ts:8-22 | of the allowed methods only the one whose transactions are journalled sends anything, and none signs |
| RpcProxy.Proxy.Arrive | packages/deployment/src/rpc-proxy.ts:65-85 | the answer and the new queue of one arrival, between any others |
| RpcProxy.Proxy.Receive | packages/deployment/src/rpc-proxy.ts:86-108 | what becomes of the body |
| RpcProxy.Proxy.Append | packages/deployment/src/rpc-proxy.ts:109-134 | the entry is in the journal before the handler may forward; a blocked one is answered |
| RpcProxy.Proxy.Forward | packages/deployment/src/rpc-proxy.ts:135-154 | a forwarded request was in the journal before |
| RpcProxy.HashesFromProxyJournal | packages/deployment/src/artifacts.ts:98-115 | the loop computes the hashes of the journal |
| RpcProxy.JournalHashesAre | packages/deployment/src/artifacts.ts:98-115 | a hash is read back if and only if some line sends a transaction with that hash |
| RpcProxy.ForwardedIsRead | packages/deployment/src/artifacts.ts:104-109 | a sent transaction that was forwarded is among the hashes read back |
| DeploymentJournal.DecidesOnRecordedHashes | apps/worker/src/deployment-processor.ts:447-498 | in every execution, a process that decides what its broadcast amounts to has recorded every hash of journal and artifacts, and hashes are distinct |
| DeploymentJournal.ClaimsOnRecordedHashes | apps/worker/src/deployment-processor.ts:447-528 | in every execution, a process that goes on to a claim after reading the hashes of journal and artifacts has recorded all of them, unless the claim is RECONCILIATION_REQUIRED |
| DeploymentJournal.ClaimsByOutcome | apps/worker/src/deployment-processor.ts:479-528 | in every execution, what a process claims after its execution of the script is what the script yielded: FAILED while broadcasting only if it ended in time, badly and without a hash; anything else but a reconciliation only if it ended in time, and well or with a hash |
| DeploymentCalls.PrepareEnds | apps/worker/src/deployment-processor.ts:90-318 | a preparation nobody interferes with, for every answer: PREPARED with a new credential if and only if the checks pass, there is a candidate and the simulation succeeds, else FAILED |
| DeploymentCalls.BroadcastEnds | apps/worker/src/deployment-processor.ts:322-515 | a broadcast, for every answer: FAILED without an execution when the lookup fails; else one execution, a row for exactly its hashes, and RECONCILIATION_REQUIRED, FAILED or CONFIRMING by what the script yielded |
| DeploymentCalls.ConfirmEnds | apps/worker/src/deployment-processor.ts:596-736 | a confirmation, for every answer: every row gets the status of its receipt; RECONCILIATION_REQUIRED if and only if one is in doubt, else COMPLETED if and only if there is a transaction, all are confirmed and the checks pass, else FAILED |
| DeploymentCalls.BroadcastWhole | apps/worker/src/deployment-processor.ts:322-528 | a whole broadcast, for every outcome of the script and all receipts: one execution, a destroyed credential, and the status that outcome and the receipts of all recorded hashes call for |
| DeploymentCalls.ReconcileEnds | apps/worker/src/deployment-processor.ts:541-594 | a reconciliation of a run in flight, up to the receipts |
| DeploymentCalls.CancelEnds | apps/api/src/deployment-service.ts:273-300 | a cancellation takes hold of a run that is not funded yet, and of no other |
| DeploymentCalls.NothingToDo | apps/worker/src/deployment-processor.ts:95-106 | which preparations and broadcasts change nothing, and that a prepared run without its credential is FAILED |
| DeploymentCalls.UncaughtEnds | apps/worker/src/deployment-processor.ts:90-158 | an exception outside of any `try` leaves the run as it is |
| DeploymentCalls.CaughtEarlyEnds | apps/worker/src/deployment-processor.ts:302-528 | an exception caught before the script has begun makes the run FAILED, without an execution |
| DeploymentCalls.CaughtLateEnds | apps/worker/src/deployment-processor.ts:516-594 | one caught after it has begun leaves a run that needs reconciliation, and a broadcast destroys its credential |
| DeploymentCalls.ReceiptCaughtEnds | apps/worker/src/deployment-processor.ts:614-650 | a receipt that is stored but whose write throws late, or whose contract lookup throws: its row alone has changed, and the run needs reconciliation |
| DeploymentCalls.WriteFailsEnds | apps/worker/src/deployment-processor.ts:302-594 | a call in which one write of the status fails, before or after its effect, ends with the status then stored, or with what the `catch` around it makes of that by the table; a broadcast inside its `try` destroys its credential |
| DeploymentCalls.EndsAlike | apps/worker/src/deployment-processor.ts:90-736 | a call ends in one way only for given answers |
| DeploymentJournal.RecordedForEver | packages/db/src/deployment-repository.ts:290-327 | nothing anybody does removes a recorded hash |
| DeploymentJournal.ForwardedIsRecorded | apps/worker/src/deployment-processor.ts:447-478 | what the proxy had forwarded when its journal was read has a row when the process decides, and for ever after |
| Scoring.MeansAndWeights | packages/compatibility/src/scoring.ts:36-118 | the means and weights of the code are those of the documented formula over the numbers of findings |
| Scoring.ScoresMeaning | packages/compatibility/src/scoring.ts:62-152 | every reported number by the numbers of findings and the documented weights: coverage and its label, the counts, each category's applicability, rounded weight and rounded mean, and the score as the nearest whole number to the sum of their products |
| Scoring.ScoreNearExact | packages/compatibility/src/scoring.ts:95-143 | the score is within 0.59 of the exact weighted mean, whenever anything is known |
| Scoring.ScoreInRange | packages/compatibility/src/scoring.ts:69-143 | score and coverage are whole numbers in 0..100 |
| Scoring.RaisingNeverLowers | packages/compatibility/src/scoring.ts:20-143 | raising a known finding from BLOCKER towards PASS never lowers the score |
| Scoring.StatusTotals | packages/compatibility/src/scoring.ts:53-60 | the counts of the categories add up to the counts of the whole |
| Scoring.OrderIrrelevant | packages/compatibility/src/scoring.ts:62-152 | the whole result does not depend on the order of the findings |
| Scoring.ReadinessMeaning | packages/compatibility/src/readiness.ts:3-22 | the documented rules, in both directions: blocked by a blocker; else too little known; else warnings; else anything unknown; ready if and only if every finding passes |
| Scoring.ReadyIsPerfect | packages/compatibility/src/readiness.ts:3-22 | ready means score 100, coverage 100 and high confidence, for all the rounding |
| Scoring.AllUnknown | packages/compatibility/src/scoring.ts:131-143 | only unknown findings: score 0 |
| Scoring.GroupByCategory | packages/compatibility/src/scoring.ts:75-81 | the findings of every category, in order |
| Scoring.Participants | packages/compatibility/src/scoring.ts:83-93 | the categories with any, and with any known finding |
| Scoring.Weigh | packages/compatibility/src/scoring.ts:95-101 | raw weights and their sum |
| Scoring.ScoreFindings | packages/compatibility/src/scoring.ts:62-152 | the loops over maps and sets compute the result that the lemmas above are about |
| CanonicalJson.LookupSorted | packages/chain-registry/src/canonicalize.ts:11-27 | sorting keeps what is found under every key but `__proto__` |
| CanonicalJson.SortedIdempotent | packages/chain-registry/src/canonicalize.ts:11-27 | sorting a sorted value changes nothing |
| CanonicalJson.PrintCode | packages/chain-registry/src/canonicalize.ts:3-5 | the printed text determines the value |
| CanonicalJson.SameText | packages/chain-registry/src/canonicalize.ts:3-27 | two values have the same canonical text if and only if they are equal up to key order, undefined entries, and undefined items in place of null |
| CanonicalJson.PrototypeEntryLost | packages/chain-registry/src/canonicalize.ts:17-21 | an own `__proto__` entry leaves no trace |
| CanonicalJson.SortValue | packages/chain-registry/src/canonicalize.ts:11-27 | filling the sorted object key by key gives the sorted value, in the order in which objects enumerate |
| CanonicalJson.CanonicalizeJson | packages/chain-registry/src/canonicalize.ts:3-5 | the canonical text, and none for undefined |
| CanonicalJson.IndicesAre | packages/chain-registry/src/canonicalize.ts:16-21 | which keys an object enumerates first, by value: numerals up to 4294967294 |
| JsonReading.ValueRead | packages/chain-registry/src/canonicalize.ts:3-5 | printed text, read by the grammar of RFC 8259, is the value that was printed |
| JsonReading.CanonicalReadsBack | packages/chain-registry/src/canonicalize.ts:3-27 | canonical text, read likewise, is the sorted value with `null` for undefined items |
| TargetSnapshot.PermutedLists | packages/chain-registry/src/snapshot.ts:59-80 | permuting the lists keeps the text when items of a list that the collation does not tell apart are printed alike |
| TargetSnapshot.PermutedListsExactly | packages/chain-registry/src/snapshot.ts:59-80 | every permutation of the lists keeps the text if and only if items of a list that the collation does not tell apart are printed alike |
| TargetSnapshot.TextDeterminesSnapshot | packages/chain-registry/src/snapshot.ts:59-80 | the same text means the same fields and, sorted, the same items |
| TargetSnapshot.OrderShows | packages/chain-registry/src/snapshot.ts:67 | of two items of a list, of any length, that tie and are printed differently, the text shows which came first |
| FileTrees.ListingDistinct | packages/changeset/src/hash.ts:28-50 | a walk reports no path twice |
| FileTrees.SameListing | packages/changeset/src/hash.ts:28-50 | rearranged trees are reported with the same items |
| TreeHash.ListingOrderIrrelevant | packages/changeset/src/hash.ts:21-67 | the hashed bytes do not depend on the order of directory listings |
| TreeHash.PreimageDetermines | packages/changeset/src/hash.ts:52-67 | without NUL in files, trees have the same bytes if and only if they have the same files |
| TreeHash.BytesDetermineExactly | packages/changeset/src/hash.ts:52-67 | for a tree whose files contain no NUL: no tree with other files is hashed from the same bytes if and only if it has at most one file |
| TreeHash.NulCollides | packages/changeset/src/hash.ts:61-64 | with NUL in a file, one file and two can give the same bytes |
| TreeHash.Utf8OrderExactly | packages/changeset/src/hash.ts:8-24 | the records come in the order of the UTF-8 paths if and only if no two paths first differ in a pair that UTF-16 orders the other way |
| TreeHash.OutOfUtf8Order | packages/changeset/src/hash.ts:8-24 | a tree of two files in the other order |
| TreeHash.FileLister.Walk | packages/changeset/src/hash.ts:28-50 | the recursive walk appends exactly the listing |
| TreeHash.HashedExactly | packages/changeset/src/hash.ts:28-50 | exactly the regular files are hashed that are reached by names none of which is `.git`, along paths none of which starts with two dots |
| TreeHash.HashRepositoryTree | packages/changeset/src/hash.ts:52-67 | the bytes fed to the hash, in order |
| Inventory.AnalyzedExactlyWhen | packages/scanner/src/inventory.ts:116-161 | a text is analyzed if and only if it is a regular file, small enough, without NUL in its first 8,000 bytes, and still fits; and which skip reason it has if and only if which of these fails first |
| Inventory.CandidatesAre | packages/scanner/src/inventory.ts:80-115 | exactly the files and links are reported that can be reached through directories that are not skipped and not too deep |
| Inventory.AdmittedIsInventory | packages/scanner/src/inventory.ts:79-167 | the first candidates, each path once, never more bytes than allowed |
| Inventory.Scanner.Report | packages/scanner/src/inventory.ts:94-162 | what one entry adds |
| Inventory.Scanner.Walk | packages/scanner/src/inventory.ts:80-165 | the recursive walk with its early returns adds the candidates one by one |
| Inventory.InventoryRepository | packages/scanner/src/inventory.ts:72-167 | the first `maxFiles` entries of the pruned, depth-limited preorder listing, with greedy byte admission |

## Left out

- Dependencies.TopologicalOrder: nothing is promised for repeated keys, for which the code is not meant and which merging rules out.
- MigrationPlan.OrderActions: the same for repeated keys.
- DraftMerging.EvidenceKeyInjective: only for ids and paths without colons; `DraftMerging.MergedEvidenceLossless` has the exact condition.
- LineReplacement.Undo: sources and targets with one of the replacement patterns `$$`, `$&` and the two quote patterns, which are modelled; with them neither direction holds (`LineReplacement.PatternsKeepFromUndoing`, `LineReplacement.PatternsUndo`), and the text comes back in cases that have no simpler description than trying.
- CanonicalJson.SameText: for strings without lone surrogates; numbers stand for the numerals the engine prints.
- TargetSnapshot.PermutedLists: `localeCompare` is an arbitrary total preorder.
- Eligibility.EligibleMeansApplied: the plan the change set was made from is the plan eligibility is asked with, which the code does not check.
- DeploymentJournal.ForwardedIsRecorded: the journal is read after the forward and the read succeeds; an entry survives being written as a JSON line and read back.
- The deployment processors are steps on values, not imperative code: what matters is how the steps of several processes interleave, and every step is one awaited operation. Checks that only decide between going on and failing are folded into the choice that comes with the step, and one run stands for all.
- Receipts are a status, contracts and post-deployment checks are one answer; a COMPLETED run is only known to have confirmed transactions.
- One change-set processor works on a change set at a time, as the worker is configured; two at once could regenerate rows under a review.
- Review calls are atomic but for the write of the counts, which may be lost.
- File-specific patchers, compatibility and migration rules and detectors are parameters; so are SHA-256, keccak and key generation, of which only the inputs are modelled.
- The unused `counts` map of the proxy, the audit of its journal, HTTP answers beyond their status, and `scripts/rpc-proxy.mjs`, which is not part of this model.
- Categories and extensions in the inventory, and reads that fail while the file system changes.
- POSIX conventions for unified diffs: the code prints start+1 even for an empty range, and the model follows the code.
- Floating-point error in scores, Git, Docker, queues, databases beyond atomic writes, authentication, presentation and configuration.
- Funnel counting, the comparison of validations, the classification of gaps and the status tables of ingestion, analysis and validation.
