# Verified model of the XA-Guard evaluation and evidence engine

This project models, in Dafny, the parts of XA-Guard that decide what an acceptance run
measures and what its evidence proves, and proves properties of them over all inputs and
all runs. `dafny verify dfyconfig.toml` checks everything.

## What is modelled

* **Budgeted sampling** (`BudgetLedger`, `CalibrationPlan`, `Sampler`, `GreedyAllocation`,
  `SampleProperties`, `SampleCosts`, `SampleExamples`). Cases are ranked, the front of every stratum
  calibrates prices, and the main sample is allocated greedily under two hard caps. Money is
  reserved and settled in a ledger. Costs are reals.
* **Resumable jobs** (`JobRunner`, `JobRunnerProperties`, `JobRunnerRepeats`, `JobRunnerStops`,
  `JobRunnerExits`). `run_jobs` over stored job states. A child process is an arbitrary
  outcome: its exit code, whether its result matches, a budget block or a quota pause.
* **Hash-chained evidence** (`HashChain`, `Json`, `PublicProjection`, `GateEvidence`,
  `EffectChain`, `EffectRecords`, `EffectImport`, `CrossLinks`, `EvidenceBundle`,
  `CrossLinkExamples`). `EvidenceBundle` joins the collector's steps, from database rows to
  artifacts, and the verifier's, from artifacts to a verdict.
  The hash is an arbitrary function. Where collision freedom matters, a result says "or here
  are two different bodies with one hash"; where the empty hash matters, it is assumed never
  to be returned.
* **Threshold lock** (`Wilson`, `ThresholdLock`, `FormalThreshold`, `Holdout`,
  `BucketSplit`, `Corpus`). Arithmetic is over the reals, with the square root as a function
  that squares back, and rounding to six decimals as a monotone function off by at most half
  a unit.
* **Event store** (`EventLog`, `EventStore`). Lock-protected methods are atomic steps, and a
  run is any interleaving of appends and polls.
* **Small algorithms** (`Enrichment`, `LineStream`, `Percentile`, `SpikeLedger`).

`PyLists`, `Sorting` and `Wrappers` hold shared conventions. Components that update state in
the source are methods and classes here, each proved equal to a specification function; the properties
are lemmas about those functions. Lemmas named `...Exactly` say what an operation computes or
accepts in terms of its inputs alone: which calls, rows, events or cases, with which values.

## What the proofs turned up

Each of these is stated with its exact condition; where the code falls short, an input shows it.

* Listing a suite twice makes the sampler select and charge its floor twice
  (`SampleProperties.NoRepeatedCase`, `SampleExamples.RepeatedSuiteTwice`).
* A plan that lists a job id twice can launch it beyond the resume limit
  (`JobRunnerProperties.LaunchBoundNeedsDistinctIds`), and need never drain: its second entry
  restarts what the first has just failed terminally. A budget plan with attempts to make drains
  exactly when ids are distinct or one turn uses up the resume limit; a full-matrix plan with jobs
  never has to (`JobRunnerRepeats.DrainsExactly`).
* A budget block or a quota pause erases the failures recorded before it, so every stop grants a
  job the whole resume limit again: launches are bounded in the number of stops, and unbounded
  without a bound on those (`JobRunnerStops.StopForgets`, `StopBound`, `PausedForever`).
* A dry run launches nothing, but it writes: a job the ledger refuses is marked as not run,
  with every later pending job that has no state yet
  (`JobRunnerProperties.DryRunChangesExactly`, `DryRunMarks`).
* The R3 estimate respects its cap only when the cap is not negative: a negative quotient
  becomes a Python slice counted from the end (`SampleProperties.R3WithinCap`,
  `SampleExamples.NegativeCapOverspends`).
* The legacy importer extends a tenant's chain without updating the stored chain tail, so the
  next native append that trusts that tail breaks the chain, exactly when some offered event was
  new for the tenant (`EffectImport.AppendAfterImport`, `ImportBreaksAppend`).
* The collector only looks for one Gate6 record with the tenant, the verifier wants it on all
  records of both traces; and the collector accepts an undo without a request id. From a sound
  database it then writes a bundle, its own closing checks included, that the verifier refuses
  (`EvidenceBundle.CollectedBundleVerifies`, `CrossLinkExamples.MissingTenant`, `MissingRequestIds`).
* Neither `seq` nor `occurred_at` of an effect event is protected by its hash
  (`EffectChain.StampsAreNotProtected`).
* Evaluating with the threshold rounded to four decimals can lose attacks or break the limit
  the threshold was chosen for (`FormalThreshold.RoundedThreshold`, `RoundingCosts`).
* Enrichment documents itself as idempotent. It is, exactly on suites where no numbering meets
  another case; duplicates with `arguments: null` beside duplicates with `arguments: {}` are a
  counterexample without any variant index (`Enrichment.EnrichTwice`, `BlankArgumentsBreakIt`).
* Nothing keeps a drawn run id from being one that is registered already, or that names a log an
  earlier process left. Two records then share one log file: an append to either makes the other
  disagree with the disk (`EventStore.RunStore.CreateRun`, `RepeatedToken`, `LeftoverLog`).
* The store checks an event against the schema only when it renumbers it. All stored events pass
  exactly when those pass that arrive with the expected number; what keeps that true is the check
  the builder makes of every event it emits (`EventLog.StoredPassExactly`, `EmittedPass`).

## Model

| member | source | states |
|---|---|---|
| BudgetLedger.BudgetSafety | bench/external/budget.py:102-186 | under every sequence of reservations and settlements, commitments pass a cap by at most what providers charged above their own reservations; an open ledger is within every cap; a halt is final and has a cause |
| BudgetLedger.LedgerRun | bench/external/budget.py:102-186 | from a new ledger, after any calls: within every cap while open or while no provider charged above a reservation, and halted only over a missing cost or such a charge |
| BudgetLedger.ReservedExactly | bench/external/budget.py:102-140 | when a reservation is taken, and that it adds one entry of its amount to the total and its bucket and changes nothing else |
| BudgetLedger.SettledExactly | bench/external/budget.py:143-186 | an accepted settlement puts the actual cost, or for want of one the reservation, in the place of the reservation, in the entry, its bucket and the total, and halts exactly on a missing cost or a passed cap |
| BudgetLedger.SettleRefused | bench/external/budget.py:152-170 | a settlement is refused exactly without one entry of the id, when that is closed, or for a negative cost |
| BudgetLedger.LookAheadIsExact | scripts/run_r2_r3_acceptance.py:332-341 | a reservation succeeds exactly when it is positive and the driver's look-ahead says yes |
| BudgetLedger.Totals | bench/external/budget.py:94-99 | the sum over the buckets is the sum over the entries, and each bucket's sum counts reserved money until it is settled |
| BudgetLedger.Ledger.ReserveCost | bench/external/budget.py:102-140 | a reservation is refused, with the reason, exactly when it is not positive, the ledger is halted, the bucket is unknown or a cap would be passed; otherwise exactly one entry is added |
| BudgetLedger.Ledger.SettleCost | bench/external/budget.py:143-186 | settling closes the one reservation of that id, keeps the reservation when the cost is unknown, and halts on a missing cost or a passed cap |
| CalibrationPlan.UniqueCases | scripts/run_r2_r3_acceptance.py:371-379 | the loop keeps the first case of every key, in order |
| CalibrationPlan.FirstByKeyIsUnique | scripts/run_r2_r3_acceptance.py:371-379 | every key of the plan is kept, and each once |
| CalibrationPlan.SortedUniverse | scripts/run_r2_r3_acceptance.py:396-399 | the universe is in (rank, key) order with the same keys, each once |
| CalibrationPlan.UniverseIsRanked | scripts/run_r2_r3_acceptance.py:396-399 | the universe is a permutation of the plan's distinct cases, in rank order |
| CalibrationPlan.SelectCalibration | scripts/run_r2_r3_acceptance.py:400-411 | fails exactly when some stratum has fewer cases than asked for, naming it, else takes the front of every stratum |
| CalibrationPlan.CandidatesFollowCalibration | scripts/run_r2_r3_acceptance.py:471-476 | the candidates left for the main sample are each stratum's rank order right after its calibration cases |
| CalibrationPlan.SampleFollowsCalibration | scripts/run_r2_r3_acceptance.py:400-535 | calibration and frozen sample are consecutive blocks of every suite's rank order, no case skipped |
| Sampler.JobCosts | scripts/run_r2_r3_acceptance.py:441-444 | a job has a cost exactly when a settled calibration entry names it, and it is the sum of those entries |
| Sampler.SettledPrices | scripts/run_r2_r3_acceptance.py:441-444 | an accepted settlement raises its job's cost by the actual cost exactly if it is known and of a calibration call |
| Sampler.SettledPairPrices | scripts/run_r2_r3_acceptance.py:449-456 | a settled calibration call of either job of a case raises what its pair cost by the actual cost |
| Sampler.CalibrationPairCosts | scripts/run_r2_r3_acceptance.py:438-457 | raises exactly when a calibrated case lacks a settled cost, naming such a case; otherwise prices each stratum |
| Sampler.DearestIsLeastBound | scripts/run_r2_r3_acceptance.py:454-456 | the price of a stratum is the least upper bound of its calibrated pairs' costs |
| Sampler.TakeFloors | scripts/run_r2_r3_acceptance.py:471-485 | the floor loop selects each available suite's floor, reports the unavailable ones, and queues the rest in order |
| Sampler.FreezeSampleManifest | scripts/run_r2_r3_acceptance.py:460-535 | the manifest is frozen exactly when there is no error, and then its cases are floor, a maximal greedy run and the R3 prefix; otherwise it selects nothing |
| Sampler.JobsOfCases | scripts/run_r2_r3_acceptance.py:517-517 | every selected case contributes its undefended and its defended job, in order |
| SampleCosts.ConservativePrice | scripts/run_r2_r3_acceptance.py:477-512 | the price a stratum is planned with is the safety multiplier times the least upper bound of its calibrated pairs' costs |
| SampleCosts.SampleAffordable | scripts/run_r2_r3_acceptance.py:460-535 | with every sampled pair at the multiplier times the cost of any calibrated pair of its stratum, a frozen sample stays within the R2 cap and within an R3 cap that is not negative |
| SampleCosts.StratumAffordable | scripts/run_r2_r3_acceptance.py:460-535 | the number sampled of a stratum, times the multiplier, times any calibrated pair's cost, is within the cap of its benchmark |
| SampleCosts.ErrorsExactly | scripts/run_r2_r3_acceptance.py:471-513 | which errors keep a sample from being frozen, each exactly when: no price or too few candidates, floors above the cap, no R3 price |
| GreedyAllocation.NextSuite | scripts/run_r2_r3_acceptance.py:496-503 | the sorted scan picks the eligible suite with the least (share, name), or reports that none is eligible |
| GreedyAllocation.Allocate | scripts/run_r2_r3_acceptance.py:489-506 | the loop terminates and its picks are a greedy run that cannot be extended |
| GreedyAllocation.Fairness | scripts/run_r2_r3_acceptance.py:495-506 | at every iteration, a suite taken above its floor was, before its last pick, not ahead of any suite still eligible |
| GreedyAllocation.FinalFairness | scripts/run_r2_r3_acceptance.py:495-506 | at the end the same holds against every suite with candidates left that costs no more, eligible or not |
| GreedyAllocation.WithinLimits | scripts/run_r2_r3_acceptance.py:488-506 | no run overspends the cap, and every suite gets its floor and no more than it has |
| GreedyAllocation.Deterministic | scripts/run_r2_r3_acceptance.py:495-506 | the outcome is determined by the input |
| SampleProperties.PicksArePrefix | scripts/run_r2_r3_acceptance.py:482-506 | each suite's picks are a prefix of its rank order, at least the floor long |
| SampleProperties.NoRepeatedCase | scripts/run_r2_r3_acceptance.py:471-506 | no case is sampled twice if and only if no suite is listed twice or there is no floor |
| SampleProperties.CalibrationExcluded | scripts/run_r2_r3_acceptance.py:464-476 | no calibration case is sampled |
| SampleProperties.R2WithinCapAndMaximal | scripts/run_r2_r3_acceptance.py:486-506 | the R2 estimate is within its cap, and no suite with a candidate left could afford one more pair |
| SampleProperties.R3WithinCap | scripts/run_r2_r3_acceptance.py:511-516 | the R3 estimate is within its cap if and only if the cap is not negative |
| SampleProperties.R3LongestPrefix | scripts/run_r2_r3_acceptance.py:511-516 | R3 takes a prefix of its rank order, and a prefix length is reached exactly when it is affordable |
| SampleProperties.SampleIsFair | scripts/run_r2_r3_acceptance.py:489-506 | the proportional-fairness inequality between two suites of the frozen sample, by cross-multiplication |
| SampleExamples.NegativeCapOverspends | scripts/run_r2_r3_acceptance.py:511-516 | a universe whose calibrated pair prices R3 at 1, and the sample frozen from it under an R3 cap of -1, which spends 1 |
| SampleExamples.RepeatedSuiteTwice | scripts/run_r2_r3_acceptance.py:471-485 | a universe with calibrated prices and the sample frozen from it that holds the only remaining case twice and charges it twice, its suite being listed twice |
| JobRunner.Workspace.WriteNotRunBudget | scripts/run_r2_r3_acceptance.py:344-357 | the loop over the files marks exactly the jobs without a stored state |
| JobRunner.Workspace.RunJob | scripts/run_r2_r3_acceptance.py:730-795 | the attempts loop: resumed attempts, success, exhaustion, budget block and quota pause, in that order of precedence |
| JobRunner.Workspace.RunJobs | scripts/run_r2_r3_acceptance.py:671-815 | a whole invocation's effect on the stored states, its exit code and which jobs it launched |
| JobRunner.LaunchAppends | scripts/run_r2_r3_acceptance.py:737-795 | attempts are only appended, at most max_attempts a turn, exactly that many when none ends the turn |
| JobRunnerExits.LaunchExactly | scripts/run_r2_r3_acceptance.py:737-795 | the children are launched up to the first that succeeds, is blocked or is paused, at most max_attempts; each leaves its numbered attempt, and the last decides how the turn ends |
| JobRunnerExits.TurnRecords | scripts/run_r2_r3_acceptance.py:730-811 | what a turn stores about its job: status, attempts and result, and when it ends the batch |
| JobRunnerProperties.MarkUnrunAddsOnly | scripts/run_r2_r3_acceptance.py:344-357 | marking unrun jobs never overwrites a stored state and touches only the listed jobs |
| JobRunnerProperties.SettledIsAbsorbing | scripts/run_r2_r3_acceptance.py:678-690 | a job with a matching result, or a terminal one, is never launched again and its state never changes |
| JobRunnerProperties.LaunchBound | scripts/run_r2_r3_acceptance.py:683-689 | over all invocations a job that is never stopped is launched at most its remaining allowance |
| JobRunnerProperties.ResumeLimit | scripts/run_r2_r3_acceptance.py:677-690 | with one attempt an invocation, at most max_job_resume_attempts launches in all |
| JobRunnerStops.StopForgets | scripts/run_r2_r3_acceptance.py:732-795 | after an invocation that was stopped in a job, no earlier failure of that job counts any more |
| JobRunnerStops.StopBound | scripts/run_r2_r3_acceptance.py:671-815 | over all invocations a job is launched at most its allowance and, for each time it was stopped, a resume limit and two turns more |
| JobRunnerStops.PausedForever | scripts/run_r2_r3_acceptance.py:771-795 | a job whose child is paused for quota every time is launched again every time, for any number of invocations |
| JobRunnerProperties.LaunchBoundNeedsDistinctIds | scripts/run_r2_r3_acceptance.py:671-702 | the bound holds for a plan if and only if its job ids are distinct |
| JobRunnerProperties.InvocationProgress | scripts/run_r2_r3_acceptance.py:691-815 | an undisturbed invocation lowers the outstanding work by at least its batch size, so a failing head blocks nobody |
| JobRunnerProperties.Drains | scripts/run_r2_r3_acceptance.py:671-815 | with distinct job ids, from any stored states, as many undisturbed invocations as attempts are left leave no job pending |
| JobRunnerRepeats.DrainsExactly | scripts/run_r2_r3_acceptance.py:671-815 | a plan always drains if and only if it has nothing to do, or it is a budget plan with attempts a turn and its job ids are distinct or one turn uses up the resume limit |
| JobRunnerRepeats.NeverDone | scripts/run_r2_r3_acceptance.py:730-808 | otherwise a repeated id is still pending after any number of undisturbed invocations |
| JobRunnerProperties.DrainedForever | scripts/run_r2_r3_acceptance.py:691-697 | a drained plan stays as it is under any further invocations |
| JobRunnerProperties.ExitZeroMeansDone | scripts/run_r2_r3_acceptance.py:812-815 | exit code 0 means no terminal job, and every job has its result when the batch was not cut short |
| JobRunnerExits.ExitZeroExactly | scripts/run_r2_r3_acceptance.py:691-815 | with distinct ids, exit code 0 if and only if no job is terminal and every job of the batch has its result and is recorded complete |
| JobRunnerExits.ExitOneExactly | scripts/run_r2_r3_acceptance.py:691-815 | exit code 1 if and only if the batch could start and ran through, but some job is terminal or some job of the batch is not done |
| JobRunnerExits.EarlyExit | scripts/run_r2_r3_acceptance.py:704-795 | a batch that does not run through exits with 2 when the first turn to break lacks money and with 4 when the provider pauses it |
| JobRunnerProperties.ExitCodes | scripts/run_r2_r3_acceptance.py:691-815 | 2: no pending job is left without a state or result; 3: nothing was touched; 4: the interrupted job is paused for quota; 0 and 1: nothing was interrupted |
| JobRunnerProperties.DryRunEffects | scripts/run_r2_r3_acceptance.py:716-729 | a dry run launches nothing, and all it can change is to mark the queue from a refused job on |
| JobRunnerProperties.DryRunChangesExactly | scripts/run_r2_r3_acceptance.py:716-729 | a dry run changes the stored states if and only if the ledger refuses a job of the batch and that or a later pending job has no state |
| JobRunnerProperties.DryRunMarks | scripts/run_r2_r3_acceptance.py:716-722 | a plan, a disk and a dry run after which the job is stored as not run |
| HashChain.HeadCommits | scripts/verify_identity_undo_evidence.py:311-352 | two chains with one head are equal body by body, or contain a collision |
| HashChain.LinkedAppend | scripts/verify_identity_undo_evidence.py:316-321 | a chain is extended exactly by a body that links to its head |
| HashChain.HashesDiffer | scripts/verify_identity_undo_evidence.py:311-352 | within a chain no two prefixes have one head, or it contains a collision |
| HashChain.InjectiveNeverCollides | scripts/verify_identity_undo_evidence.py:311-352 | the collision alternative of these results never applies where no two bodies hash alike |
| PublicProjection.ProjectionIsClean | scripts/collect_identity_undo_evidence.py:290-304 | no sensitive or excluded key and no secret-looking text is left at any depth |
| PublicProjection.Idempotent | scripts/collect_identity_undo_evidence.py:290-304 | projecting twice is projecting once |
| PublicProjection.ForgetsExactly | scripts/collect_identity_undo_evidence.py:290-304 | two values project alike if and only if they differ only in what the projection drops |
| PublicProjection.PublishedKeys | scripts/collect_identity_undo_evidence.py:290-304 | which keys of a record are published, and that their values are the projected ones |
| GateEvidence.VerifyGateChain | scripts/verify_identity_undo_evidence.py:311-322 | accepts exactly non-empty verified chains, else names the first faulty record and its fault |
| GateEvidence.VerifiedExactly | scripts/verify_identity_undo_evidence.py:311-322 | a chain verifies exactly if each record names the hash of the one before, the first none, and carries its own |
| GateEvidence.UnsignedExactly | scripts/verify_identity_undo_evidence.py:318-319 | two records hash alike for certain exactly if they agree on every field but hash and signature |
| GateEvidence.VerifiedPrefix | scripts/verify_identity_undo_evidence.py:311-322 | every prefix of a verified chain verifies |
| GateEvidence.GateHeadCommits | scripts/verify_identity_undo_evidence.py:311-322 | two accepted chains with one head have the same length and hashed fields, or exhibit a collision |
| GateEvidence.ProjectGate | scripts/collect_identity_undo_evidence.py:307-364 | accepts exactly sound source chains that show both traces, else names the first faulty row |
| GateEvidence.SourceOkExactly | scripts/collect_identity_undo_evidence.py:313-333 | source rows are sound exactly if each row and its record name the row before and carry the hash of the record |
| GateEvidence.RechainingIsVerified | scripts/collect_identity_undo_evidence.py:332-349 | the re-chained public records, as many as there are rows, are accepted by the separately written verifier, for any hash |
| GateEvidence.RecordAndMapping | scripts/collect_identity_undo_evidence.py:332-349 | record i is row i projected and linked to its predecessor, and mapping i pairs its hash with row i's source hash |
| GateEvidence.PublicIsClean | scripts/collect_identity_undo_evidence.py:332-336 | apart from the link and the hash, no published field is sensitive |
| GateEvidence.SourceHeadFixesPublicChain | scripts/collect_identity_undo_evidence.py:307-364 | the source head fixes the whole published chain, or there is a collision |
| EffectRecords.VerifyEffectRecords | scripts/verify_identity_undo_evidence.py:325-352 | on the records as read, shape included: accepts exactly non-empty verified ones, else names the first faulty record and its fault |
| EffectRecords.RecordsExactly | scripts/verify_identity_undo_evidence.py:325-352 | records verify exactly if each has the shape, a larger number, the hash of the one before and its own over the six hashed fields |
| EffectRecords.RecordsOfEvents | scripts/verify_identity_undo_evidence.py:325-352 | on well-shaped records the record form and the event form of the verifier agree |
| EffectChain.VerifyEffectChain | scripts/verify_identity_undo_evidence.py:336-352 | on events of the required shape: accepts exactly non-empty verified chains, else names the first faulty event and its fault |
| EffectChain.VerifiedExactly | scripts/verify_identity_undo_evidence.py:325-352 | events verify exactly if each has a larger number than the one before, its hash as link, and its own hash |
| EffectChain.EffectHeadCommits | scripts/verify_identity_undo_evidence.py:325-352 | two accepted event chains with one head agree on length and every hashed field, or exhibit a collision |
| EffectChain.HashedFields | scripts/verify_identity_undo_evidence.py:338-352 | the hash covers all fields but seq, occurred_at and the hash itself |
| EffectChain.StampsAreNotProtected | scripts/verify_identity_undo_evidence.py:325-352 | with numbers and times replaced a verified chain keeps its head, and verifies if and only if the numbers grow from 0 on |
| EffectChain.VerifiedAppend | scripts/verify_identity_undo_evidence.py:325-352 | exactly which event extends a verified chain |
| EffectChain.VerifiedPrefix | scripts/verify_identity_undo_evidence.py:325-352 | every prefix of a verified event chain verifies |
| EffectImport.EffectsOnlyAdded | scripts/import_sqlite_effects.py:240-269 | importing adds effect rows and never changes one |
| EffectImport.EffectsStored | scripts/import_sqlite_effects.py:240-269 | a new effect id is stored with the tenant and content of its first listing, under the legacy contract |
| EffectImport.ByIdIsLast | scripts/import_sqlite_effects.py:373-373 | an event's effect is looked up as the snapshot lists it last |
| EffectImport.InsertsExactly | scripts/import_sqlite_effects.py:378-379 | the effect table grows by one for every insertion counted |
| EffectImport.ConflictsExactly | scripts/import_sqlite_effects.py:381-385 | the conflicts counted are the listings that the table in the end holds under another tenant or contract |
| EffectImport.EligibleExactly | scripts/import_sqlite_effects.py:375-385 | events are taken exactly for effects that the table holds under a listing's tenant and the legacy contract |
| EffectImport.ImportOrder | scripts/import_sqlite_effects.py:387-393 | events are offered by tenant and then by legacy number |
| EffectImport.ImportMembers | scripts/import_sqlite_effects.py:387-393 | exactly the snapshot's events are offered |
| EffectImport.ControlPlane.ImportSnapshot | scripts/import_sqlite_effects.py:345-414 | the new tables, what every counter counts, and conservation: effects scanned are inserted, existing or conflicted, events inserted, existing or skipped |
| EffectImport.ImportedRows | scripts/import_sqlite_effects.py:284-342 | what an import appends: in the order of the offers, one row for each of an accepted effect that is not in the table and repeats no earlier one, with the event's effect, actor and five legacy values, its effect's tenant, the tenant's tail as link and its own hash |
| EffectImport.ImportKeepsChains | scripts/import_sqlite_effects.py:284-342 | every tenant chain that verified before verifies after, and nothing stored is lost |
| EffectImport.ImportIsIdempotent | scripts/import_sqlite_effects.py:240-342 | importing the same snapshot again, at any later time, changes neither table |
| EffectImport.NativeAppend | src/xa_guard/control/store.py:409-462 | a native append keeps the chain if and only if the stored tail is the chain's head |
| EffectImport.ImportAddsExactly | scripts/import_sqlite_effects.py:284-342 | an import changes a tenant's chain if and only if some offered event of an accepted effect of the tenant is not present yet |
| EffectImport.AppendAfterImport | scripts/import_sqlite_effects.py:303-342 | after an import the next native append verifies if and only if no offered event was new for the tenant (or there is a collision) |
| EffectImport.ImportBreaksAppend | scripts/import_sqlite_effects.py:303-342 | a snapshot of one effect and one event, imported into an empty control plane, after which preparing a new effect breaks the tenant's chain |
| CrossLinks.GateLinksFollow | scripts/verify_identity_undo_evidence.py:374-462 | the Gate6 links of what the collector accepts verify exactly when the tenant is on all records of both traces |
| CrossLinks.EventLinksFollow | scripts/verify_identity_undo_evidence.py:374-462 | the workflow event links verify exactly when the request ids read as one non-empty text |
| CrossLinks.ArtifactLinksFollow | scripts/collect_identity_undo_evidence.py:440-520 | the published assignment and business timeline satisfy the verifier's artifact checks |
| CrossLinks.CollectorImpliesVerifier | scripts/collect_identity_undo_evidence.py:367-475 | what the collector accepts the verifier accepts, if and only if the two conditions above hold |
| CrossLinks.ValidateExactly | scripts/collect_identity_undo_evidence.py:367-437 | the collector accepts exactly rows that belong together, four events by the right people on the right traces under one request id, and a record of each trace saying all of it |
| CrossLinks.WorkflowExactly | scripts/verify_identity_undo_evidence.py:365-371 | the four events are found exactly where each is the only one of its kind for the effect |
| CrossLinks.VerifierExactly | scripts/verify_identity_undo_evidence.py:374-462 | the verifier accepts exactly two distinct people on two distinct traces whose records, events and artifacts are linked |
| CrossLinks.GateLinksExactly | scripts/verify_identity_undo_evidence.py:392-414 | what the verifier asks of the Gate6 records, check by check |
| CrossLinks.EventLinksExactly | scripts/verify_identity_undo_evidence.py:416-438 | what it asks of the events |
| CrossLinks.ArtifactLinksExactly | scripts/verify_identity_undo_evidence.py:440-462 | what it asks of the business and assignment artifacts, the effect id being found at any depth |
| CrossLinks.AssignmentExactly | scripts/collect_identity_undo_evidence.py:440-460 | an authorization snapshot is taken exactly if it names an assignment, a subject and the effect's agent, and covers tool and domain |
| CrossLinks.AssignmentReads | scripts/collect_identity_undo_evidence.py:461-475 | what is published of it, field by field |
| CrossLinks.TimelineReads | scripts/collect_identity_undo_evidence.py:501-520 | what the published business timeline says, field by field |
| EvidenceBundle.ClosingChecks | scripts/collect_identity_undo_evidence.py:837-843 | of the collector's two closing chain checks only the one on the events can fail, and neither does when the tenant's chain verifies |
| EvidenceBundle.CollectedBundleVerifies | scripts/verify_identity_undo_evidence.py:665-679 | a collected bundle passes both chain verifiers and the links if and only if every source record of the two traces shows the tenant and the request ids read as one non-empty text |
| EvidenceBundle.CollectExactly | scripts/collect_identity_undo_evidence.py:673-850 | a bundle is written exactly from verifying events up to a compensation, sound Gate6 rows that show both traces, rows that belong together and an assignment |
| EvidenceBundle.LastCompensatedIsMax | scripts/collect_identity_undo_evidence.py:242-246 | the events are selected up to the effect's highest-numbered compensation |
| EvidenceBundle.HeadsFixBundle | scripts/verify_identity_undo_evidence.py:665-679 | two bundles that verify and end in the same hashes agree in every hashed field of both chains, or exhibit a collision |
| EvidenceBundle.TenantOfSource | scripts/collect_identity_undo_evidence.py:307-365 | the published records meet the verifier's tenant check exactly when the source records do, read through the projection |
| CrossLinkExamples.MissingTenant | scripts/verify_identity_undo_evidence.py:374-462 | a database with sound chains, collected with and without a third Gate6 record that lacks the tenant, whose bundle verifies only without it |
| CrossLinkExamples.MissingRequestIds | scripts/collect_identity_undo_evidence.py:367-437 | a database with sound chains but without request ids, whose collected bundle the verifier refuses |
| CrossLinks.SelectionVerifies | scripts/collect_identity_undo_evidence.py:234-252 | the selected events are a prefix of the tenant's chain and verify on their own |
| Wilson.Bracket | bench/gate1_holdout.py:576-586 | 0 <= lower <= k/n <= upper <= 1 |
| Wilson.BoundsSolveScore | bench/gate1_holdout.py:576-586 | both bounds solve (k/n - p)^2 = z^2 p (1 - p) / n |
| Wilson.UpperWithin | bench/gate1_holdout.py:576-586 | `upper <= m` decided without a square root, in both directions |
| Wilson.UpperMonotone | bench/gate1_holdout.py:576-586 | the upper bound grows with the number of hits |
| Wilson.UpperAtZero | bench/gate1_holdout.py:576-586 | with no hit the upper bound is z^2 / (n + z^2) |
| Wilson.ClampedIsSame | scripts/run_r2_r3_acceptance.py:983-992 | the driver's clamped interval is the same interval, and its clamps never act |
| ThresholdLock.EveryThresholdHasACandidate | bench/gate1_holdout.py:612-614 | every real threshold flags exactly the rows some candidate flags |
| ThresholdLock.CandidatesExactly | bench/gate1_holdout.py:612-614 | the candidates are the rows' scores, 0, 1/2, 1 and one more than the highest score, or 1 without rows |
| ThresholdLock.FlaggedByScore | bench/gate1_holdout.py:544-549 | a row is flagged by any score at or above the threshold; without scores it counts as 0 |
| ThresholdLock.HitsAgree | bench/gate1_holdout.py:552-573 | two thresholds flag equally many rows of a role exactly when no such row scores between them |
| ThresholdLock.AdmittedUpwards | bench/gate1_holdout.py:616-624 | raising an admitted threshold keeps it admitted |
| ThresholdLock.AdmittedExactly | bench/gate1_holdout.py:616-624 | a threshold is admitted exactly if the share of flagged negative controls is at most the limit and, with confidence, there is a negative control and the upper bound is at most the limit |
| ThresholdLock.LockedIsAdmitted | bench/gate1_holdout.py:615-627 | the locked point is a candidate's own point and meets the limits |
| ThresholdLock.LockedWithinLimits | bench/gate1_holdout.py:615-627 | the locked point reports its own hits and shares, and in both modes a false-positive rate within the limit |
| ThresholdLock.LockedIsOptimal | bench/gate1_holdout.py:612-627 | over all real thresholds that meet the two limits in numbers, the locked one has the highest recall and among equals the fewest false positives; among candidates of equal recall it is the largest |
| ThresholdLock.LockedHitsMost | bench/gate1_holdout.py:612-627 | the optimum is in hits when reported recall tells hit counts apart |
| ThresholdLock.LockOutcome | bench/gate1_holdout.py:599-627 | exactly when locking succeeds, finds no threshold, refuses the limit or fails on a missing bound |
| FormalThreshold.FormalMinimum | scripts/gate1_holdout.py:34-40 | with no false positive the reported bound is at most 1% exactly from 381 negative controls on |
| FormalThreshold.OneIsTooMany | scripts/gate1_holdout.py:34-40 | at 381 negative controls any false positive breaks the limit |
| FormalThreshold.FormalLock | bench/gate1_holdout.py:589-627 | a formal lock exists if and only if there are at least 381 negative controls |
| FormalThreshold.FormalLockAtMinimum | bench/gate1_holdout.py:589-627 | at the minimum size the locked threshold flags no negative control |
| FormalThreshold.ReportedLockHitsMost | bench/gate1_holdout.py:552-573 | below a million attacks the lock flags at least as many attacks as any admitted real threshold |
| FormalThreshold.RoundedThreshold | scripts/evaluate_gate1.py:208-218 | the rounded threshold flags what the selected one flags if and only if no score lies between the two |
| FormalThreshold.RoundingCosts | scripts/evaluate_gate1.py:208-218 | two suites on which rounding the threshold selected for one percent loses the attack, or breaks that limit |
| Holdout.CheckCases | bench/gate1_holdout.py:404-450 | the loop over the cases reports nothing exactly on sound ones, and counts derived groups |
| Holdout.SoundMeans | bench/gate1_holdout.py:404-450 | sound cases are well formed, have distinct ids, and no payload and no semantic group occurs in two splits |
| Holdout.ValidateCases | bench/gate1_holdout.py:404-473 | the verdict is clean exactly when the cases are sound, the minima are met and independence, if required, is given |
| Holdout.ManifestExactly | bench/gate1_holdout.py:404-473 | a sound manifest, said of its cases: fields, digests, distinct ids, nothing shared between splits, enough of every kind, and independence where asked for |
| Holdout.ValidateRows | bench/gate1_holdout.py:508-541 | rows are accepted exactly when they are the split's cohort, one row a case, committed to payload and oracle |
| Holdout.RowsExactly | bench/gate1_holdout.py:508-541 | with distinct case ids, rows are accepted exactly if they are the split's cases, one row each, tagged or untagged fingerprints alike |
| Holdout.CohortsShareNothing | bench/gate1_holdout.py:508-541 | accepted calibration and holdout rows share no id, no payload fingerprint and no semantic group |
| BucketSplit.PartitionWithoutOverlap | scripts/evaluate_gate1.py:258-269 | every row is on exactly one side, and no fingerprint is on both |
| BucketSplit.CutoffMonotone | scripts/evaluate_gate1.py:264-266 | a larger ratio only moves rows to the calibration side |
| Corpus.ListsFindDuplicates | bench/corpus.py:300-311 | no hash lists two cases exactly when no two rows have the same normalized payload |
| Corpus.SetsFindCrossings | bench/corpus.py:303-317 | no group collects two splits exactly when no group crosses splits |
| Corpus.ValidateRows | bench/corpus.py:258-317 | the rows are reported clean exactly when each is well formed, ids and payloads are distinct and groups stay in one split |
| Corpus.CleanExactly | bench/corpus.py:258-317 | a clean corpus, said of its rows and pairs of rows |
| EventLog.AppendNumbers | workbench/store.py:92-103 | on a gapless log any accepted event is stored as the next, and exactly which are accepted |
| EventLog.AfterOfNumbered | workbench/store.py:117-124 | a poller is handed exactly the events from its cursor on |
| EventLog.LogIsAccepted | workbench/store.py:92-103 | under every interleaving the log is the accepted events in order of arrival, numbered 1, 2, ... |
| EventLog.PollersSeeEachEventOnce | workbench/store.py:117-124 | under every interleaving a poller's batches form a prefix of the log, each event once |
| EventLog.PollCatchesUp | workbench/store.py:117-124 | after a poll the poller has seen everything appended before it |
| EventLog.NothingLost | workbench/store.py:96-103 | when all events pass a schema that asks only for a positive number, none is lost and all stored ones pass |
| EventLog.StoredPassExactly | workbench/store.py:99-103 | under every interleaving, all stored events pass the schema if and only if those do that arrive with the expected number |
| EventLog.EmittedPass | workbench/events.py:101-102 | because builders check what they emit, all stored events pass |
| EventLog.UnknownTypeIsStored | workbench/store.py:99-103 | an event type the schema does not know is stored when it arrives with the expected number and refused otherwise |
| EventLog.DecisionIsLastGuard | workbench/store.py:104-110 | the decision shown is that of the last guard event carrying one |
| EventLog.StateIsLast | workbench/store.py:104-104 | the state shown is that of the last event naming one |
| EventLog.IntentIsLast | workbench/store.py:105-107 | the intent shown is that of the last event carrying one |
| EventLog.ShownAtFirst | workbench/store.py:104-110 | what is shown before any event says otherwise |
| EventStore.EventBuilder.For | workbench/events.py:57-62 | a builder is refused exactly for a run mode the schema does not know |
| EventStore.EventBuilder.Emit | workbench/events.py:64-102 | numbers events consecutively, and a refused event uses up its number |
| EventStore.MadeIdsAreRunIds | workbench/store.py:66-85 | ids the server makes pass its own lookup pattern and are told apart by their token |
| EventStore.RunStore.CreateRun | workbench/store.py:66-79 | a valid store stays valid if and only if the drawn id is neither registered nor names a log on disk |
| EventStore.RepeatedToken | workbench/store.py:66-115 | an id drawn twice and one append to the displaced record leave the registered record out of step with its file |
| EventStore.LeftoverLog | workbench/store.py:66-79 | a log left by an earlier process makes a new run of its id inconsistent at once |
| EventStore.RunStore.AppendEvent | workbench/store.py:92-115 | for any record: accepted exactly as numbering demands, written to memory and disk alike; in a valid store every record stays gapless, equal on disk and showing the fold of its log |
| EventStore.RunStore.EventsAfter | workbench/store.py:117-124 | for any cursor, in a valid store, returns the rest of the log on disk after it, and its length as the next cursor |
| Enrichment.GroupByFingerprint | scripts/enrich_csab_gov_mini.py:196-198 | the grouping loop lists the positions of every fingerprint, groups in order of first occurrence |
| Enrichment.Decollide | scripts/enrich_csab_gov_mini.py:184-213 | tagging in place gives each repeated case its rank within its group, leaves others alone, and raises exactly where arguments are no mapping |
| Enrichment.TaggedExactly | scripts/enrich_csab_gov_mini.py:194-213 | the number reported as tagged is that of the cases whose fingerprint repeats |
| Enrichment.DistinctWhenSafe | scripts/enrich_csab_gov_mini.py:184-213 | one pass leaves all fingerprints distinct if and only if no numbering meets another case |
| Enrichment.EnrichTwice | scripts/enrich_csab_gov_mini.py:216-239 | enriching twice is enriching once if and only if the annotated suite is safe in that sense |
| Enrichment.FreshSuiteIsIdempotent | scripts/enrich_csab_gov_mini.py:216-239 | suites of mapping arguments without a variant index are enriched idempotently, to distinct fingerprints |
| Enrichment.BlankArgumentsBreakIt | scripts/enrich_csab_gov_mini.py:204-211 | four cases without a variant index on which a second enrichment changes the suite |
| LineStream.SplitAppend | frontend/timeline.js:446-449 | splitting a text cut anywhere, even between \r and \n, continues the last part of the first piece |
| LineStream.JoinSplit | frontend/timeline.js:425 | lines written with \n in between come back from splitting if and only if they hold no \n and none but the last ends in \r |
| LineStream.JoinSplitReturns | frontend/timeline.js:425 | lines written with \r\n in between come back if and only if they hold no \n |
| LineStream.PartsHoldNoNewline | frontend/timeline.js:425 | no part holds a line feed |
| LineStream.ParseJSONL | frontend/timeline.js:424-434 | records and numbered errors of the whole text |
| LineStream.RecordsExactly | frontend/timeline.js:424-434 | the records are those of the lines whose trimmed text is not empty and parses to one, in order |
| LineStream.ErrorsExactly | frontend/timeline.js:424-434 | the errors are those of the lines that do not parse, each with its number from 1 |
| LineStream.FetchRecords | frontend/timeline.js:442-455 | for every way of cutting the text, the streamed records are those of the whole text |
| Percentile.PercentileInRange | scripts/benchmark_identity_undo.py:66-82 | the percentile lies in every range that holds the samples |
| Percentile.PercentileMonotone | scripts/benchmark_identity_undo.py:66-82 | it does not fall as the quantile grows |
| Percentile.PercentilePermuted | scripts/benchmark_identity_undo.py:66-82 | it does not depend on the order of the samples |
| Percentile.PercentileAtGrid | scripts/benchmark_identity_undo.py:75-80 | at a grid point it is the order statistic |
| Percentile.PercentileBetween | scripts/benchmark_identity_undo.py:75-82 | a share w of the way between two grid points it is that share of the way between the two order statistics |
| Percentile.PercentileErrors | scripts/benchmark_identity_undo.py:69-72 | when there is no percentile, and why |
| Percentile.PercentileCovers | scripts/benchmark_identity_undo.py:66-82 | at least floor((n - 1) q) + 1 samples do not exceed it |
| Percentile.BootstrapInRange | scripts/benchmark_identity_undo.py:101-124 | whatever resamples are drawn, the bootstrap bound lies within the range of the samples |
| Percentile.BootstrapErrors | scripts/benchmark_identity_undo.py:110-118 | when there is no bound, and why; a single sample is its own bound |
| Percentile.BootstrapCovers | scripts/benchmark_identity_undo.py:119-124 | the bound covers its share of the resamples' 95th percentiles |
| Percentile.RandomizedOrders | scripts/benchmark_identity_undo.py:127-137 | for every shuffle both orders occur equally often, the odd one falling to the coin |
| SpikeLedger.Ledger.Append | open-agent-range/spike.py:54-75 | appending keeps the ledger verified and numbered |
| SpikeLedger.Ledger.VerifyHashChain | open-agent-range/spike.py:82-92 | returns true exactly on verified ledgers |
| SpikeLedger.VerifiedAppend | open-agent-range/spike.py:82-92 | an entry extends a verified ledger exactly when it carries the head and its own hash |
| SpikeLedger.VerifiedPrefix | open-agent-range/spike.py:82-92 | every prefix of a verified ledger verifies |
| SpikeLedger.HeadFixesLedger | open-agent-range/spike.py:77-92 | two verified ledgers with one head are equal, or exhibit a collision |
| SpikeLedger.ToolSurface.ExecutePlan | open-agent-range/spike.py:275-285 | a validated plan never fails, and the ledger gains exactly its facts |
| SpikeLedger.RunNormalDay | open-agent-range/spike.py:288-313 | the day fails exactly when validation refuses the plan, and else leaves a verified ledger of its events and the plan's facts |
| SpikeLedger.ValidatedExactly | open-agent-range/spike.py:247-272 | validation takes an action exactly if it is one of the three tools' and has what its tool needs |
| SpikeLedger.EffectsExactly | open-agent-range/spike.py:112-130 | what a valid action leaves in the ledger |
| SpikeLedger.FindViolations | open-agent-range/spike.py:322-332 | the loop finds exactly the violating entries, in order |
| SpikeLedger.ViolationsExactly | open-agent-range/spike.py:322-332 | the entries reported are those that sent a record marked sensitive to an external receiver |
| SpikeLedger.PropertyReflectsPlan | open-agent-range/spike.py:322-332 | after any day, the ledger shows a violation if and only if it did before the plan or an action of the plan sends a sensitive record to an external receiver |

## Left out

- Real SHA-256, SM3 and SM2 digests, signatures, time stamps, key files and canonical JSON bytes: hashes are functions on JSON values, so collisions through the byte encoding are not modelled.
- Subprocesses, git, Docker, HTTP, SQL and file access beyond their outcomes; a file changed by someone else between two reads of one step.
- Floating point: costs, scores and rates are reals. Display rounding is modelled only where a decision depends on it.
- `build_plan`, the upstream locks, `aggregate` and `verify` of the acceptance run; reading job results is an input of the model.
- The retry delay, the messages and the time stamps of job attempts, and reasons stored with a job state.
- Negative counts in the sampling settings; the manifest's own hash.
- JSON numbers other than integers, and list-of-pairs values that Python's `dict` would accept as a mapping.
- UTF-8 decoding of evidence files and how text is cut into JSONL lines there.
- Tool and domain lists of an authorization snapshot that are not JSON arrays; identity and image sections of the bundle; the format check of identifiers before the rows are read; the secret-text scanner, which is a parameter, and its closing pass over the written files.
- How Gate6 rows are selected by tenant and trace: `EvidenceBundle.Source` holds the selected rows.
- Batches of several native effect mutations: one appended event stands for a batch.
- `list_runs`, artifact paths and the run's metadata in the event store; a failing disk write after the event is in memory.
- The fields of a case that derive its kind and citations are one abstract function, and key reordering in the written suite file is not modelled.
- Enrichment.EnrichTwice: assumes an injective fingerprint, while the code joins fields with "|" and keeps 16 digits of the digest.
- EventLog.NothingLost: assumes the schema does not look at the number beyond its being positive, as the event schema in the repository does.
- EffectChain.VerifyEffectChain: takes events that have the required shape; EffectRecords.VerifyEffectRecords adds the shape check.
- Holdout.ValidateCases: covers the cases, minima and independence; the schema, commitment, source and system-lock checks of the manifest are independent of them and not modelled.
- LineStream.FetchRecords: chunks are texts, so the bytes a UTF-8 decoder holds back at the end of the stream are not modelled.
- JobRunnerProperties.LaunchBound: is stated for jobs never stopped by the budget or the quota, because a stop does not count as an attempt and erases the failures recorded before it; JobRunnerStops.StopBound is the bound with stops.
- Corpus-wide manifest, source and taxonomy checks, profile minima and the attestation file: long lists of independent checks.
- The normal form of corpus payloads (Unicode composition, line ends, dropped keys): one abstract digest of the payload.
- Static verifiers, report builders, DOM rendering and command lines.
