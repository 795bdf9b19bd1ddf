# FORENSIA: verified model of the durable state

FORENSIA lets an unreliable language model investigate forensic evidence and keeps
everything that matters in a case database. Evidence is replaced underneath conclusions,
runs crash and resume, and the same work must not be proposed for ever. This project models
the code that keeps that state honest, in Dafny, and proves what it promises over every
input, every run or every reachable state. `dafny verify dfyconfig.toml` checks all of it.

DuckDB tables are maps and sets, a transaction is an atomic change, SHA-256 fingerprints are
modelled by what they are taken of, and whatever the model, a parser or the clock decides is
a parameter or a free choice. Operations that change stored state are methods on classes that
hold the tables; each is proved against a function of the old state, and the theorems are
about that function.

## The parts

**Evidence underneath conclusions.** `EvidenceSources`, `ContentIdentity`, `Invalidation`,
`CaseDatabase`, `NormalizePass`, `SourceReplacement`, `SourceConvergence`, `SourcePass`,
`PassCommits`, `EvidenceRuns`, `EvidenceLinks`. A hypothesis, a claim or a report section rests
on evidence directly or through other conclusions; what an invalidation does to each is settled
column by column. `EvidenceRuns` proves, for any history of normalizations, retirements and
unrelated work, that a conclusion keeps standing if and only if no step disturbed evidence it
rests on; that an interrupted normalization is a real exception to "what stands is supported",
because the next survey starts from the damaged rows; and exactly when evidence is still
supported after one. `EvidenceLinks` shows that reading links as current is safe even then.
`SourcePass` says what one completed pass over any keys does to every path, from any state, and
exactly when its newest source remains; `PassCommits` that every state committed on the way,
file by file, ends a run of the case, misses a source only behind a ready replacement and a row
only with its source.

**Registry datasets.** `RegistryAdmission`, `RegistryTables`, `RegistryPass`, `RegistryLaws`,
`RegistryTotals`, `RegistryKeys`, `RegistryTimeline`. Grouping hives into datasets is a
partition; a pass of per-dataset transactions, over any keys, works on exactly the datasets with
a member among them, keeps one current dataset per lineage, counts that equal the rows, member
sources that add up, mirrored timelines, and never loses a lineage. Which successes survive a
pass, what its total counts and which counts stay on member sources is settled for every pass.

**The draft ledger.** `DraftLedger`, `DraftProtocol`, `DraftOnce`, `DraftReturn`, `DraftStore`.
Each input of a candidate is recorded as attempted before the model is called. Over all
sessions, crashes and answers an input is corrected at most once, and drafted at most once if
its admissions close it; exactly when an input can come back is an if-and-only-if.

**Receipts, leases and loops.** `StageReceipts`, `StageSoundness`, `StageWindows`,
`PipelineStages`, `PipelineRuns`, `StageLink`, `SessionLease`, `OutageRecovery`, `LoopControl`.
When a run skips the analysis, the findings are those of the current rules on the current
evidence exactly if the rows are those of the last analysis. That is so except in four windows,
each of which is shown to suffice alone; files that cannot be parsed, adapters that raise half
way, raw output that is missing and unusable registry files are all part of the histories.
`StageLink` relates the stage of the protocol to the source pass on the tables.

**The case policy.** `TextScan`, `PolicyDocument`, `PolicyLens`, `PolicyLaws`, `PolicyPattern`,
`PolicyHeadings`, `PolicyExamples`, `PolicyPinning`. Which lines are headings, of which level
and name, is settled character by character; reading and updating named sections of a Markdown
file obey lens laws, with exact conditions; which revision is in force is settled over any
sequence of runs.

**Folds and selections.** `EpochClusters`, `CandidateProjection`, `KeypointRoundRobin`,
`TextOrder`. A batched in-place fold equals a declarative clustering; evidence is partitioned
and conserved; selections are fair.

## Where the code does less than one might expect

Each of these is a property that is false of the code without a condition. The code is
modelled as it is, and the condition is part of the proved statement.

- A normalization that raises has already committed rows, and the survey of the next pass no
  longer sees the old ones: `EvidenceRuns.InterruptionHidesDamage`. What still stands keeps its
  evidence exactly when that is found with its first content at some point after the last
  damaging interruption; evidence that is absent right after it is damaged until a later step
  brings that content back: `EvidenceRuns.SupportedIff`.
- A pass over given keys leaves paths without a key alone, and of a path whose keys are only
  older ones it retires the newest source: `SourcePass.KeyedPassSkipsOtherPaths`,
  `SourcePass.NewestRemainsIff`, `SourcePass.OlderKeyRetiresNewest`.
- An admission that merges into a hypothesis already linked to its input, while a linked
  specification has changed, does not close the input: `DraftOnce.UnclosedAdmissionComesBack`,
  and a whole run in which it comes back, `DraftReturn.InputComesBack`.
- A run may skip an analysis it should repeat. Exactly when is
  `StageSoundness.SkipIsCurrentIff`; four windows lead there, and outside them it cannot happen
  (`StageSoundness.SkippedAnalysisIsCurrent`): a stop between the completed normalize receipt
  and the start of the analysis (exactly when: `StageWindows.StopHidesNewEvidence`); a return to
  the parser of the receipt after another one began rewriting
  (`StageWindows.ReturnHidesForeignRows`); a normalization in which the raw output of a key is
  missing, so that its old rows stay and its source counts as normalized; and a run without
  input that finds the raw directory empty and does not look at the receipt. Each is reached
  alone by a whole history: `StageWindows.FirstWindowReached`, `StageWindows.SecondWindowReached`,
  `StageWindows.ThirdWindowReached`, `StageWindows.FourthWindowReached`.
- A policy text that contains a heading of its section's level or above is cut off when read
  back, and the check for headings looks only for keyed ones: `PolicyLaws.UpdateThenRead`, for
  example `PolicyExamples.AcceptedTextIsCutOff`. An unterminated heading line gains a line
  feed, so not quite every other byte is preserved, as the comment at
  `src/forensia/investigation/case_policy.py:143` says: `PolicyLaws.UpdateTwice`, for example
  `PolicyExamples.SecondTextDoesNotRemainAlone`.
- An empty policy file is adopted and then blocks every later start:
  `PolicyPinning.EmptyAdoptionBlocksResume`.
- The comment at `src/forensia/evidence/registry.py:321` speaks of a newer dataset; the pass
  goes by dataset id, and the returned total counts replaced datasets too:
  `RegistryLaws.TotalCountsReplaced`; exactly when it does not is `RegistryTotals.TotalIsRowsIff`.
  With shared members the counts on the sources are overwritten:
  `RegistryLaws.SharedMemberLosesCount`; exactly when they stay is `RegistryTotals.CountStaysIff`.
- A worker that lost its lease can still rewrite its terminal row:
  `SessionLease.LateOwnerRewritesReceipt`; exactly when a terminal row stays as written is
  `SessionLease.TerminalRowStaysIff`.
- A broken attempt that counts rows on a row that counts none changes its count; no caller makes
  one: `EvidenceSources.BrokenAttemptLeavesNoTrace`.

## Model

| member | source | states |
|---|---|---|
| `EvidenceSources.BrokenAttemptLeavesNoTrace` | src/forensia/db/evidence_sources.py:45-75 | a failed or partial attempt leaves count, channel, hosts and times of its row as they were, whatever it names, except exactly when it counts rows on a row that counts none |
| `EvidenceSources.UsableAttemptDecides` | src/forensia/db/evidence_sources.py:45-75 | a usable attempt determines every measurement; two different rows are equal after it if and only if they agreed in the columns it names nothing for |
| `EvidenceSources.LastUsableMeasures` | src/forensia/db/evidence_sources.py:45-75 | over any attempts, of which the broken ones count no rows, the measurements are those of the last usable one, and status and error those of the last one |
| `CaseDatabase.RegisterEvidenceSource` | src/forensia/db/evidence_sources.py:18-96 | one upsert changes the named source row and nothing else |
| `ContentIdentity.SameContent` | src/forensia/evidence/content_identity.py:33-62 | two records have the same fingerprint if and only if they agree on every column that is not administrative |
| `ContentIdentity.LookupMeans` | src/forensia/db/evidence_lookup.py:88-160 | an evidence id names the row under it in the table of the family its prefix says |
| `ContentIdentity.PresentMeans` | src/forensia/evidence/content_identity.py:17-62 | evidence is there if it has a row, or a part of its own, in the tables of that family |
| `Invalidation.InvalidateReaches` | src/forensia/evidence/invalidation.py:264-349 | a hypothesis, claim or section is sent to review if and only if the evidence it rests on, directly or through others, meets the invalidated evidence; all others keep every field |
| `Invalidation.HypothesisReviewed` | src/forensia/evidence/invalidation.py:280-334 | column by column: a hypothesis with an assessed link to the evidence is active, needs review for the given reason and by a human, has no verdict, session or schedule left and keeps its specification; any other is untouched |
| `Invalidation.ClaimReviewed` | src/forensia/evidence/invalidation.py:297-341 | a claim needs review if and only if it mentions the evidence or a hypothesis an assessed link ties to it, and nothing else of it changes |
| `Invalidation.SectionReviewed` | src/forensia/evidence/invalidation.py:289-348 | a section becomes stale if and only if it cites the evidence or holds a claim that rests on it |
| `Invalidation.InvalidateKeeps` | src/forensia/evidence/invalidation.py:264-349 | invalidation changes no link, no evidence and no source, and not what any conclusion rests on |
| `Invalidation.InvalidateTwice` | src/forensia/evidence/invalidation.py:264-349 | invalidating one set and then another is invalidating their union |
| `Invalidation.InvalidateCommutes` | src/forensia/evidence/invalidation.py:264-349 | the order of two invalidations does not matter, and repeating one changes nothing |
| `CaseDatabase.ScanClaims` | src/forensia/evidence/invalidation.py:297-315 | the scan finds exactly the claims that mention the evidence or a linked hypothesis, and their sections besides the direct ones |
| `CaseDatabase.InvalidateInTransaction` | src/forensia/evidence/invalidation.py:264-349 | the new tables are the old ones with exactly the dependents of the evidence moved to review; `Invalidation.HypothesisReviewed`, `ClaimReviewed` and `SectionReviewed` say so of every column |
| `CaseDatabase.InvalidateRemovedEvidence` | src/forensia/evidence/invalidation.py:251-262 | one transaction, and none for no evidence |
| `NormalizePass.HitIsDamage` | src/forensia/evidence/normalize.py:63-110 | of the evidence something rests on, a finished adapter's step invalidates exactly what it removed or changed |
| `NormalizePass.NormalizeOne` | src/forensia/evidence/normalize.py:63-110 | survey, adapter, survey, and the two invalidations, as a function of the old tables, with exactly the states it commits |
| `NormalizePass.NormalizeAdapters` | src/forensia/evidence/normalize.py:63-110 | all adapters in order, or up to the first that raises: then its partial work stays, its sources are marked failed and nothing of it is invalidated; and which states were committed on the way |
| `NormalizePass.RegisterFailures` | src/forensia/evidence/normalize.py:69-88 | every source of the raising family, and no other, is merged with a failed attempt, one commit per source, and every committed state differs from the first by some of these attempts |
| `NormalizePass.FailedSources` | src/forensia/evidence/normalize.py:69-88 | after a raise every source of the family among the keys has failed with the exception's text and its old count, and every other one is as the adapters left it |
| `NormalizePass.AdaptersLeave` | src/forensia/evidence/normalize.py:63-110 | adapters that come to their end leave of each family exactly the tables they left, whatever invalidations follow, and of ingest records, links and section evidence every row |
| `SourceReplacement.FindFirst` | src/forensia/evidence/invalidation.py:69-83 | the first of a nonempty selection by ingest time, absent last, then hash, both descending |
| `SourceReplacement.FirstIsUnique` | src/forensia/evidence/invalidation.py:69-83 | that order has at most one first member |
| `SourceReplacement.FindReplacedSourceIds` | src/forensia/evidence/invalidation.py:33-94 | the result maps exactly the superseded sources to the first promotable source of their path and family |
| `SourceReplacement.ReplacedByNewest` | src/forensia/evidence/invalidation.py:46-94 | in terms of the ingest records: a source is replaced by the promotable source of its path and family that was ingested last, undated ones earliest and the greater hash deciding ties |
| `SourceConvergence.RetiredIff` | src/forensia/evidence/invalidation.py:105-124 | a source is retired if and only if its replacement is an ingested file of the same path and family with a ready row of that family |
| `SourceConvergence.RetiredRows` | src/forensia/evidence/invalidation.py:125-161 | with a retired source exactly its own ingest record, source row, evidence rows and parts go, and nothing of another source or family |
| `SourceConvergence.RetiredTimeline` | src/forensia/evidence/invalidation.py:125-153 | a timeline entry goes if and only if a row or part of its evidence was a retired source's |
| `SourceReplacement.DomainAndImageDisjoint` | src/forensia/evidence/invalidation.py:33-94 | no source is both superseded and a replacement |
| `SourceReplacement.RetireOne` | src/forensia/evidence/invalidation.py:97-161 | one family's retirement is one transaction, or none if nothing is eligible: invalidate the referenced evidence, delete the rows, the timeline entries, the source and file rows |
| `SourceReplacement.RetireReplacedSources` | src/forensia/evidence/invalidation.py:97-161 | family after family, as a function of the old tables, with exactly the states it commits |
| `SourceConvergence.UpdateSourceStatus` | src/forensia/evidence/normalize.py:143-252 | every file-based source among the keys is registered with its row count and the status that follows from it and the raw file; no other row changes; one commit per source |
| `SourceConvergence.ReadyMeans` | src/forensia/evidence/normalize.py:176-235 | after the update a source is ready if and only if it has rows or its raw file is there and empty |
| `SourceConvergence.MeasuredRow` | src/forensia/evidence/normalize.py:143-252 | which row the update leaves on every source: normalized with the count of its rows, empty, or failed with the count it had; a source that is no file-based key keeps its row |
| `SourceConvergence.MeasuredColumns` | src/forensia/evidence/normalize.py:143-252 | its other columns: hosts, times and the one channel of its rows, or those there were and why it failed |
| `SourceConvergence.FamiliesIndependent` | src/forensia/evidence/invalidation.py:97-161 | retiring family after family does to each family what retiring it alone would |
| `SourceConvergence.Converges` | src/forensia/evidence/invalidation.py:97-161 | after a decision over any keys, a path whose newest promotable source is ready keeps that source alone, with no row of the others; otherwise the path keeps every source |
| `SourceConvergence.RetireSafe` | src/forensia/evidence/invalidation.py:105-161 | one family's retirement takes a source only with a ready replacement of its path in place before and after, and rows only with their source |
| `SourcePass.RunSourcePass` | src/forensia/pipeline.py:708-756 | what is superseded is decided before the adapters run and retired only after all of them and the status update finished; a raising adapter retires nothing; and which states were committed |
| `SourcePass.PassConverges` | src/forensia/pipeline.py:696-756 | from any state and over any keys: if the newest promotable source of a path was rebuilt (or, where the update of its state raised, was left ready by the adapters) it alone remains, with no row of the others, and otherwise the path keeps every source |
| `SourcePass.NewestRemainsIff` | src/forensia/evidence/invalidation.py:46-94 | when a promotable source of a path was rebuilt, the path's newest source is still there if and only if it is promotable itself |
| `SourcePass.OlderKeyRetiresNewest` | src/forensia/evidence/invalidation.py:46-94 | a concrete pass over the older hash of a path that retires the newer source |
| `SourcePass.FullPassConverges` | src/forensia/pipeline.py:696-756 | one completed full pass leaves exactly the newest rebuilt source of every path of a file-based family |
| `SourcePass.KeyedPassSkipsOtherPaths` | src/forensia/evidence/invalidation.py:46-62 | a path without a promotable source is left as it was |
| `SourcePass.CompletedPassIsSound` | src/forensia/evidence/normalize.py:38-124 | after one completed pass from any state, whatever still stands rests on evidence that is still there unchanged |
| `PassCommits.CompletedPassCommitsSafely` | src/forensia/pipeline.py:708-756 | every state a completed pass commits, each adapter's file by file, is the end of a run of the case; a source is missing from it only if a ready replacement of its path is there, and a row is retired only with its source |
| `PassCommits.RaisedPassCommitsSafely` | src/forensia/evidence/normalize.py:63-110 | every state committed by a pass whose adapter raises, file by file and up to the registration of its failed sources, is the end of a run too, and nothing is retired in it |
| `StageLink.NormalizedMeans` | src/forensia/pipeline.py:292-300 | what the receipts read as normalized sources is that every ingested file has a ready row of its family |
| `StageLink.MeasuringAgrees` | src/forensia/evidence/normalize.py:143-252 | the update of the source states on the tables is the one of the receipt protocol, file by file, where rows and raw output are the same |
| `StageLink.RetirementAgrees` | src/forensia/evidence/invalidation.py:97-161 | so is the retirement: exactly the sources it takes disappear from files and states |
| `EvidenceRuns.StepTouches` | src/forensia/evidence/normalize.py:63-110 | a step sends a conclusion to review if and only if it strikes something the conclusion rests on, and never changes what it rests on |
| `EvidenceRuns.DamageIsStruck` | src/forensia/evidence/invalidation.py:97-161 | every step that ran to its end strikes whatever relied-on evidence it removes or changes |
| `EvidenceRuns.RetireStrikes` | src/forensia/evidence/invalidation.py:125-142 | retirement strikes exactly the relied-on evidence it deletes a row of |
| `EvidenceRuns.NormalizationReviews` | src/forensia/evidence/normalize.py:63-110 | after a finished normalization a hypothesis is under review because evidence changed, if some of its evidence says something else now; because evidence was removed, if some is gone; and otherwise untouched |
| `EvidenceRuns.RetirementReviews` | src/forensia/evidence/invalidation.py:125-142 | after a retirement a hypothesis is under review because evidence was removed, if a retired source holds a row of its evidence, and otherwise untouched |
| `EvidenceRuns.StandsUnlessStruck` | src/forensia/evidence/normalize.py:63-110 | over any history a conclusion keeps standing if and only if nothing it rests on was struck |
| `EvidenceRuns.StandsUnlessDisturbed` | src/forensia/evidence/normalize.py:63-110 | over any history a conclusion keeps standing if and only if no step removed or changed evidence it rests on or retired a source that holds a row of it; so nothing is reopened without a cause in the evidence |
| `EvidenceRuns.StandingIsSupported` | src/forensia/evidence/normalize.py:63-110 | what still stands after any history rests on present, unchanged evidence, up to what interrupted steps damaged |
| `EvidenceRuns.SupportedIff` | src/forensia/evidence/normalize.py:63-110 | from the last damaging interruption on, what stood and stands keeps its evidence if and only if that is at some point present with its first content; if it is present right after the interruption, its content there decides |
| `EvidenceRuns.InterruptionHidesDamage` | src/forensia/evidence/normalize.py:69-88 | an interrupted normalization followed by a completed one over the same input leaves a conclusion standing on damaged evidence |
| `EvidenceLinks.CurrentMeans` | src/forensia/evidence/links.py:42-87 | a link is current if and only if its row is there with the recorded content, its specification is the recorded one, and outside the registry the row is of the recorded source |
| `EvidenceLinks.LoadedIff` | src/forensia/evidence/links.py:90-133 | which links of a hypothesis are loaded: all its own and no others, and if only current ones are wanted exactly those whose row, source and specification are the recorded ones |
| `EvidenceLinks.StaleBecause` | src/forensia/evidence/links.py:42-87 | why a link is not current: the first thing that is wrong with it |
| `EvidenceLinks.FreshLinkIsCurrent` | src/forensia/investigation/verification/sufficiency.py:508-600 | a judgment is current when it is made, if its row exists and names its source |
| `EvidenceLinks.RecordedAs` | src/forensia/investigation/verification/sufficiency.py:508-600 | exactly what is stored of a judgment, and that nothing is without a valid specification |
| `EvidenceLinks.RecordedLinkCurrent` | src/forensia/evidence/links.py:42-87 | a recorded link is current if and only if row, volatile columns aside, and specification are what they were at the judgment, and the source matches |
| `EvidenceLinks.CurrentLinksAreTrue` | src/forensia/evidence/links.py:90-133 | in any history, with aborted normalizations and edited specifications, every link loaded as current was judged at an earlier state on a row and specification that say the same now |
| `EvidenceLinks.DamageIsNeverCurrent` | src/forensia/evidence/links.py:59-64 | evidence damaged since its judgment is never offered as current, however it was damaged |
| `RegistryAdmission.AdmitRegistryDatasets` | src/forensia/evidence/registry.py:183-237 | every primary is in exactly one dataset; each dataset holds a primary, no path twice, only primaries of its identity, and exactly the logs that belong to one of them; datasets come in the order of their first primaries and name the right reason |
| `RegistryAdmission.ShareIff` | src/forensia/evidence/registry.py:202-234 | two primaries share a dataset if and only if they have the same nonempty identity |
| `RegistryAdmission.OpenersStand` | src/forensia/evidence/registry.py:198-237 | the datasets stand in the order of the primaries that opened them |
| `RegistryAdmission.LogsAre` | src/forensia/evidence/registry.py:183-237 | a dataset holds exactly the transaction logs that lie beside one of its primaries under its name with a log's ending |
| `RegistryTables.OrderedIdsFacts` | src/forensia/evidence/registry.py:162 | the member ids without blanks and repetitions |
| `RegistryTables.ProjectUsable` | src/forensia/evidence/registry.py:146-180 | a usable outcome puts the whole count on the first member and zero on every other |
| `RegistryTables.ProjectBroken` | src/forensia/evidence/registry.py:146-180 | a broken outcome changes no source's count |
| `RegistryTables.ProjectStatus` | src/forensia/evidence/registry.py:146-180 | every listed member is left in the state of its dataset, but empty for a normalized dataset without rows |
| `RegistryTables.MembersAfter` | src/forensia/evidence/registry.py:146-180 | what the turn of a dataset leaves of every member source: the state its raw file gave it, all records counted on the first nonblank member, and after a broken file the counts there were |
| `RegistryTables.BrokenTouchesNothing` | src/forensia/evidence/registry.py:538-569 | malformed, missing or failing raw input leaves every derived row, every other dataset and every count as they were |
| `RegistryTables.SuccessMeans` | src/forensia/evidence/registry.py:474-537 | a success normalizes its dataset with as many rows as records, drops exactly the datasets it replaces and keeps the others |
| `RegistryTables.SuccessRows` | src/forensia/evidence/registry.py:362-473 | it leaves exactly its records as its rows, none of the replaced datasets, and those of all others |
| `RegistryPass.InsertLines` | src/forensia/evidence/registry.py:374-465 | the outcome of the first unusable line, or all records inserted in order |
| `RegistryPass.NormalizeDataset` | src/forensia/evidence/registry.py:338-569 | one dataset with rollback, as a function of the old tables and the raw file |
| `RegistryPass.NormalizeRegistry` | src/forensia/evidence/registry.py:303-571 | the pass over the snapshot in id order, skipping replaced datasets and those without a nonblank member among the keys, stopped by the first that raises; `RegistryKeys.PassLeaves` says what that leaves |
| `RegistryKeys.ReachedIff` | src/forensia/evidence/registry.py:303-337 | a dataset still there at its turn is worked on if and only if the pass did not raise before and some nonblank member of it is among the keys, or there are none |
| `RegistryKeys.RaisedIff` | src/forensia/evidence/registry.py:303-571 | a pass has raised if and only if it worked on a dataset whose raw file breaks with an exception |
| `RegistryKeys.OutcomeMeans` | src/forensia/evidence/registry.py:374-400 | a raw file is usable if and only if every line is a record; the first line that is none decides between malformed and an exception |
| `RegistryKeys.PassLeaves` | src/forensia/evidence/registry.py:303-571 | what any pass, keyed or not, leaves of every dataset it comes to: unless a success of its lineage replaced it, exactly the records of its raw file, or a broken row over the artifacts it had, or, without a key, what it was |
| `RegistryLaws.ReplacedIsLineage` | src/forensia/evidence/registry.py:486-519 | the replaced datasets are exactly the other current ones of the same lineage: same identity, or no identity and exactly the same ingest paths |
| `RegistryLaws.SameLineageIff` | src/forensia/evidence/registry.py:486-519 | two datasets share a lineage if they have the same identity, or if neither has one and their members were ingested from the same paths |
| `RegistryLaws.StepDatasets` | src/forensia/evidence/registry.py:338-569 | how one dataset's outcome changes which datasets exist and which are current |
| `RegistryLaws.PassKeeps` | src/forensia/evidence/registry.py:303-571 | every pass, also one that raises, keeps one current dataset per lineage, counts equal to rows, and counts on the first member of unshared members |
| `RegistryLaws.FullPassEstablishes` | src/forensia/evidence/registry.py:303-571 | a full pass that ends establishes all of it from any admitted state |
| `RegistryLaws.FullPassMeans` | src/forensia/evidence/registry.py:303-571 | the same in plain terms, with the sum over the member sources |
| `RegistryLaws.LineageSurvives` | src/forensia/evidence/registry.py:486-537 | once a dataset of a lineage was normalized in a pass, some dataset of it is current at the end |
| `RegistryTotals.SurvivesIff` | src/forensia/evidence/registry.py:314-537 | in any pass, a dataset that was normalized is still there at the end if and only if no later success in the order has its lineage; then it is current with exactly its records, else no row of it is left |
| `RegistryTotals.TotalCountsSuccesses` | src/forensia/evidence/registry.py:314-571 | the returned total is the sum of the records of all successes |
| `RegistryTotals.TotalIsRowsIff` | src/forensia/evidence/registry.py:314-571 | it is the number of rows left of them if and only if it counted no record of a dataset replaced later, and never less |
| `RegistryTotals.CountIsLastWritten` | src/forensia/evidence/registry.py:146-180 | after any pass a source counts what the last success that lists it wrote |
| `RegistryTotals.CountStaysIff` | src/forensia/evidence/registry.py:162-180 | the count of a surviving success is still on its members, shared or not, if and only if on each of them the last success that lists it wrote that same value |
| `RegistryLaws.SharedMemberLosesCount` | src/forensia/evidence/registry.py:162-180 | two datasets that share their only member: the sum no longer is the earlier dataset's count |
| `RegistryLaws.TotalCountsReplaced` | src/forensia/evidence/registry.py:314-330 | two datasets of one identity: both are counted, and the last by id survives |
| `RegistryTimeline.PassMirrors` | src/forensia/evidence/registry.py:362-473 | whatever happens, exactly the timed artifacts are on the registry timeline and on the case timeline, and no other family's entry changes |
| `DraftLedger.EligibleMeans` | src/forensia/investigation/investigation_cycle.py:445-494 | an input is eligible if and only if nothing admitted settled it and no row of it counts as a used attempt |
| `DraftLedger.SaveReplaces` | src/forensia/investigation/investigation_session.py:269-315 | a saved step replaces the row it had and no other |
| `DraftProtocol.SelectionSeesCorrection` | src/forensia/investigation/investigation_cycle.py:730-743 | whoever selects an input again after a correction sees that correction |
| `DraftProtocol.AtMostOneCorrection` | src/forensia/investigation/investigation_cycle.py:700-1208 | in every run, across sessions and crashes, an input gets at most one correction |
| `DraftOnce.AtMostOnce` | src/forensia/investigation/investigation_cycle.py:700-1208 | an input whose admissions close it is begun at most once, corrected at most once, and costs at most two draft calls, in every run |
| `DraftOnce.ComesBackIff` | src/forensia/investigation/investigation_cycle.py:445-494 | an input can be selected again under some specifications if and only if no row blocks it, nothing settled it, and the admitted hypotheses are the linked ones |
| `DraftOnce.UnclosedAdmissionComesBack` | src/forensia/investigation/investigation_cycle.py:1097-1122 | a merge into an already linked hypothesis under a changed specification leaves an input that can come back |
| `DraftReturn.InputComesBack` | src/forensia/investigation/investigation_cycle.py:700-1314 | a whole run from an empty ledger in which an input is drafted twice |
| `DraftStore.SelectGapDrafts` | src/forensia/investigation/investigation_cycle.py:1217-1314 | the first eligible gaps with an identity, in order, up to the limit, and the number of gaps whose attempts are used up among those looked at |
| `DraftStore.OfferedIff` | src/forensia/investigation/investigation_cycle.py:1233-1311 | in the columns of the rows alone: a gap is offered if and only if it or its keypoint has an identity, no admission of its reference settled the input, and no attempt on the input drafted or found requested values unobserved; the attempt is numbered one past the attempts on the input |
| `DraftStore.SelectionMeans` | src/forensia/investigation/investigation_cycle.py:1233-1268 | the reference of a gap is its own or "gap-" with the gap's or the keypoint's id, and its input is told apart by the gap, the policy and the specification of everything admitted for the reference |
| `DraftStore.ExhaustedIff` | src/forensia/investigation/investigation_cycle.py:1289-1300 | the gaps counted as used up are those with an identity whose input nothing settled while an attempt on it drafted or found requested values unobserved |
| `DraftStore.EligibleGapsAre` | src/forensia/investigation/investigation_cycle.py:1229-1314 | a pass may draft exactly what some gap offers |
| `DraftStore.EligibleGapsOrdered` | src/forensia/investigation/investigation_cycle.py:1229-1314 | and in the order of the gaps |
| `DraftStore.EligibleGapsSelectable` | src/forensia/investigation/investigation_cycle.py:1263-1311 | every gap it selects is selectable in the protocol's sense |
| `DraftStore.EligibleGapsDistinct` | src/forensia/investigation/investigation_cycle.py:1229-1313 | gaps with distinct references give distinct selections |
| `DraftStore.ConcludedMeans` | src/forensia/investigation/investigation_cycle.py:742-1143 | a draft reports one or two calls, the second only with the correction, and uses the correction at most once; what it admits is settled by `DraftStore.AdmitsIff` |
| `DraftStore.AdmitsIff` | src/forensia/investigation/investigation_cycle.py:780-1122 | on the answers alone: a draft admits a hypothesis if and only if the search found evidence, nothing requested is unobserved, the last draft asked for was accepted and the merge came to it |
| `DraftStore.EndsIff` | src/forensia/investigation/investigation_cycle.py:780-1208 | and exactly how it ends otherwise |
| `DraftStore.CallsAre` | src/forensia/investigation/investigation_cycle.py:723-1050 | a second draft is asked for exactly when the first was refused while the correction was unused, and a correction is reported exactly when it was used |
| `DraftProtocol.FinalRowMeans` | src/forensia/investigation/investigation_cycle.py:1060-1122 | what the terminal record says of the admission, the settled input, the corrections and the calls |
| `DraftStore.Store.DraftAndAdmit` | src/forensia/investigation/investigation_cycle.py:700-1208 | whatever the model answers, the writes of one draft are steps of the protocol, and the outcome that follows from the answers, a merge that raises among them, is on record; an admitted hypothesis is among those admitted for the candidate afterwards |
| `StageSoundness.SkipIsCurrentIff` | src/forensia/pipeline.py:1196-1254 | in every history whatsoever a skipped analysis leaves findings that are the result of the current rules on the current evidence if and only if the rows are those the last analysis was completed on; and no ingested source is a failed one then, unless the raw directory is empty |
| `StageSoundness.SkippedAnalysisIsCurrent` | src/forensia/pipeline.py:662-829 | in every history outside the four windows, with crashes, raising adapters, missing raw output and unusable registry files, a skipped analysis leaves findings that are the result of the current rules on the current evidence, of ready sources only |
| `StageSoundness.StepKeeps` | src/forensia/pipeline.py:662-1015 | every step outside the windows, status writes during the adapters included, keeps what receipts say about rows and findings |
| `StageWindows.StopHidesNewEvidence` | src/forensia/pipeline.py:750-829 | after any history, a stop between the normalize receipt and the analysis makes the next run skip over stale findings if and only if the sources are ready (or no raw output is left), the rules are those of the last analysis and the rows are not |
| `StageWindows.ReturnHidesForeignRows` | src/forensia/pipeline.py:278-300 | in the second window a run skips over rows of another parser |
| `StageWindows.FirstWindowReached` | src/forensia/pipeline.py:750-829 | a whole history from a new case, in no window but the first, that ends in a stale skip |
| `StageWindows.SecondWindowReached` | src/forensia/pipeline.py:278-300 | a whole history from a new case, in no window but the second, that ends in a stale skip |
| `StageWindows.ThirdWindowReached` | src/forensia/evidence/normalize.py:176-235 | the same for the third: raw output missing under a new parser, the old rows counted as normalized, and a forced rerun over the restored output that stops |
| `StageWindows.FourthWindowReached` | src/forensia/pipeline.py:1202-1254 | the same for the fourth: rows rewritten by a new parser that stops, and a run that finds no raw output |
| `PipelineStages.IngestMeans` | src/forensia/evidence/ingest.py:80-265 | in whatever order and grouping files are found, exactly those whose parser leaves raw records become ingested files; every new one is a key, and no key and no touched file is ready |
| `PipelineStages.AddedIff` | src/forensia/evidence/ingest.py:80-265 | exactly which files are keys afterwards: what an item leaves records of that had something unknown in it when it was met; a file no such item lists keeps its state |
| `PipelineStages.SingleFilesAdded` | src/forensia/evidence/ingest.py:170-240 | of single files exactly the readable unknown ones are added, and every known one keeps its state |
| `PipelineStages.IngestOneWrites` | src/forensia/evidence/ingest.py:80-265 | the state an item writes on a file: parsed where its parser left records, failed with the rows counted before where it raised, empty where it found none |
| `PipelineStages.LastTouchDecides` | src/forensia/evidence/ingest.py:80-265 | of several items that touch a file the last one decides its state |
| `PipelineStages.NormalizesIff` | src/forensia/pipeline.py:662-708 | exactly when a run normalizes, in terms of what it found, the receipt and the states of the sources |
| `PipelineStages.RunMeans` | src/forensia/pipeline.py:662-829 | what a run leaves of receipts, files and findings, whether it normalizes, comes to its end, is stopped or cut short |
| `PipelineStages.RunRewrites` | src/forensia/pipeline.py:676-772 | whose rows it rewrites: those of the new files, if there are some and the receipt was of the same parser, and otherwise of all |
| `PipelineStages.NothingNewChangesNothing` | src/forensia/pipeline.py:662-829 | a run that finds only known files, under a current receipt, without rerun and under the rules of the last analysis, changes nothing |
| `PipelineStages.SecondRunChangesNothing` | src/forensia/pipeline.py:662-829 | the same run again after one that came to its end with every source ready changes nothing |
| `PipelineStages.NormalizedMeans` | src/forensia/pipeline.py:696-772 | what a normalization leaves of every file's rows: those its raw output yields if that was there, else those it had; exactly the retired sources are gone, and the receipt is of what is left |
| `PipelineStages.NormalizedStatus` | src/forensia/evidence/normalize.py:143-252 | and of the state of every key |
| `PipelineStages.CutShortMeans` | src/forensia/evidence/normalize.py:63-110 | what an adapter leaves that raised: receipt and analysis as they were, rows only of the files it had come to, and its sources failed |
| `PipelineStages.RaiseIsRepeated` | src/forensia/pipeline.py:662-708 | after a normalization that raised and marked an ingested source, the next run normalizes again, whatever it finds |
| `PipelineRuns.Pipeline.RunNormalizeStage` | src/forensia/pipeline.py:696-772 | rows and states of exactly the keys are rebuilt, except the rows of a key whose raw output is missing, which stay and are counted; exactly the eligible sources retired, and the receipt is of what is left; or an adapter raised, and its partial work and failed sources are there and no receipt; every write is a step of the protocol |
| `PipelineRuns.Pipeline.RunIngestStage` | src/forensia/pipeline.py:616-659 | the ingest as a function of the old case, with its writes as steps of the protocol; the files added are exactly those an item leaves records of that had something unknown in it when it was met, none of them ready |
| `PipelineRuns.Pipeline.RunEvidenceStages` | src/forensia/pipeline.py:1188-1270 | the new state is a function of the old one, whatever parsers and adapters do, also when an adapter raises or the run is stopped before the analysis; a run that analyzes to its end leaves findings that are the result of the current rules on the current evidence, and one that skips does so if and only if the rows are those of the last analysis; it skips if and only if it need not normalize and the rules are those of the last analysis |
| `SessionLease.OneRunningSession` | src/forensia/investigation/investigation_session.py:146-184 | at most one session runs, in every history of starts, heartbeats, finishes, crashes and clock steps |
| `SessionLease.NeverRevived` | src/forensia/investigation/investigation_session.py:109-123 | a session that stopped running never runs again |
| `SessionLease.StartTakesOver` | src/forensia/investigation/investigation_session.py:436-459 | a start succeeds if and only if the writer lock was recovered or no running session is live, and then it alone runs |
| `SessionLease.OnlyExpiredAbandoned` | src/forensia/investigation/investigation_session.py:146-184 | without the writer lock only a session with an absent or expired heartbeat is abandoned |
| `SessionLease.BeatingSessionKeepsLease` | src/forensia/investigation/investigation_session.py:109-184 | a session that beat within the lease keeps running, whatever others do |
| `SessionLease.HeartbeatRenews` | src/forensia/investigation/investigation_session.py:109-123 | a heartbeat renews the lease of its own running session to the moment and changes nothing else |
| `SessionLease.BeatingSessionRunsOn` | src/forensia/investigation/investigation_session.py:109-184 | a worker whose last beat is at most 600 seconds old at every start without the writer lock is never displaced, however long the history, and nothing of its row changes but the time of that beat |
| `SessionLease.SilentSessionsAreReplaced` | src/forensia/investigation/investigation_session.py:146-184 | once every running session has been silent for more than 600 seconds, a new one starts and abandons them |
| `SessionLease.RefusedIff` | src/forensia/investigation/investigation_session.py:146-184 | exactly when a start is refused: its name is taken, or a session runs with a heartbeat at most 600 seconds old and the writer lock is not held |
| `SessionLease.StartMeans` | src/forensia/investigation/investigation_session.py:126-184 | what an accepted start leaves of every row, column by column |
| `SessionLease.FinishMeans` | src/forensia/investigation/investigation_session.py:69-106 | what a finish writes, and to which row alone |
| `SessionLease.TerminalRowStaysIff` | src/forensia/investigation/investigation_session.py:69-184 | over any history a terminal row stays as written if and only if no finish for it, ownerless or from its owner, says something else |
| `SessionLease.LastFinishDecides` | src/forensia/investigation/investigation_session.py:69-106 | at the end of any history a terminal row says what the last finish addressed to it said |
| `SessionLease.LateOwnerRewritesReceipt` | src/forensia/investigation/investigation_session.py:69-106 | the owner of an abandoned row can still rewrite it, though not by a heartbeat |
| `SessionLease.SessionStore.StartSession` | src/forensia/investigation/investigation_session.py:436-459 | a refused start changes nothing; an accepted one is the start function of the old rows |
| `SessionLease.SessionStore.ReconcileStaleSessions` | src/forensia/investigation/investigation_session.py:146-184 | refused while a live session runs, else every running row is abandoned |
| `OutageRecovery.CallWithOutageRecovery` | src/forensia/investigation/investigation_session.py:200-248 | at most ceil(budget/interval) invocations, each the moment the wait before it is over; every retry starts before a deadline fixed at the first failure and an interval after the start before it; the last invocation decides the outcome |
| `OutageRecovery.BudgetIsUsed` | src/forensia/investigation/investigation_session.py:200-248 | with calls and waits that take no longer than they must, a call that never gets through is made every interval, exactly ceil(budget/interval) times |
| `OutageRecovery.RetriesFit` | src/forensia/investigation/investigation_session.py:200-248 | a retry that starts before the deadline is one of the first ceil(budget/interval) |
| `OutageRecovery.PromptWait` | src/forensia/investigation/investigation_session.py:218-248 | when a failed call is made again: an interval and the recovery later, or not at all if the budget ends first |
| `OutageRecovery.SleptMeans` | src/forensia/investigation/investigation_session.py:225-230 | a wait takes as many slices as it needs and no more |
| `OutageRecovery.SpacedStarts` | src/forensia/investigation/investigation_session.py:225-248 | starts an interval apart are k intervals after the base |
| `LoopControl.MarkersAreNoProgress` | src/forensia/investigation/report_gap.py:374-418 | stop markers on work with an open hypothesis never count as progress |
| `LoopControl.LoneMarkerIsProgress` | src/forensia/investigation/report_gap.py:374-418 | a marker on work without a hypothesis does |
| `LoopControl.ProgressIff` | src/forensia/investigation/report_gap.py:374-418 | exactly what counts as progress: work opened or resolved, a new observation or contradiction, or another identity of the evidence |
| `LoopControl.RunInvestigationLoop` | src/forensia/investigation/investigator.py:328-428 | the loop ends with the first cycle that leaves it, for which reason, and how many report refreshes failed; it is completed if and only if that cycle was not interrupted and left nothing open, or only a report was asked for |
| `LoopControl.LeavesIff` | src/forensia/investigation/investigator.py:212-242 | exactly which cycle leaves the loop, the last of limit unchanged ones among them |
| `LoopControl.NoProgressMeans` | src/forensia/investigation/investigator.py:212-242 | a stop for lack of progress comes after exactly limit unchanged cycles |
| `PolicyDocument.PolicySectionSpans` | src/forensia/investigation/case_policy.py:111-131 | the offset-tracking loop returns the spans of the document |
| `PolicyDocument.SpansAreOrdered` | src/forensia/investigation/case_policy.py:111-131 | the spans are disjoint, in order and inside the document |
| `PolicyDocument.SpliceStep` | src/forensia/investigation/case_policy.py:162-163 | splicing the rightmost section leaves every earlier offset valid |
| `PolicyDocument.UpdatePolicySections` | src/forensia/investigation/case_policy.py:142-169 | the loops compute the refusal, or the spliced and extended document |
| `PolicyDocument.CollectMeans` | src/forensia/investigation/case_policy.py:134-139 | a key is extracted if and only if some section of it has a text, and then the text of the last of these |
| `PolicyLens.SectionListByLines` | src/forensia/investigation/case_policy.py:111-139 | reading by offsets and reading by lines find the same sections |
| `PolicyLens.SplicedIsRewritten` | src/forensia/investigation/case_policy.py:162-163 | splicing by offsets is rewriting line by line: everything outside the replaced spans is unchanged |
| `PolicyLens.RewrittenSections` | src/forensia/investigation/case_policy.py:142-169 | with clean texts the rewritten document shows exactly the overridden sections |
| `PolicyLaws.UpdateThenRead` | src/forensia/investigation/case_policy.py:134-169 | the sections read after an accepted update are the old ones overridden by the stripped texts, new ones last, if and only if every text is clean for its place |
| `PolicyLaws.SecondAccepted` | src/forensia/investigation/case_policy.py:147-161 | whether an update of one section is accepted depends only on the number of its sections and on the text |
| `PolicyLaws.SameMatches` | src/forensia/investigation/case_policy.py:142-169 | replacing a text leaves as many sections of its key as there were |
| `PolicyLaws.UpdateThenExtract` | src/forensia/investigation/case_policy.py:134-169 | the dictionary read back is the old one overridden by the stripped texts |
| `PolicyLaws.UpdateTwice` | src/forensia/investigation/case_policy.py:142-169 | updating twice is updating once with the later text, to the byte, if and only if the heading line is terminated |
| `PolicyPattern.RealPatternIsStable` | src/forensia/investigation/case_policy.py:116-119 | the real heading pattern has the properties the laws need |
| `PolicyPattern.PolicyUpdateThenRead` | src/forensia/investigation/case_policy.py:134-169 | the lens law for the documents the program reads and writes |
| `PolicyPattern.PolicyUpdateTwice` | src/forensia/investigation/case_policy.py:142-169 | overwriting an update, for those documents |
| `PolicyHeadings.HeadingMeans` | src/forensia/investigation/case_policy.py:116-120 | a line of at most three spaces, one to six hashes, whitespace and a text is a heading of as many levels as hashes, named by the first section name in its folded title |
| `PolicyHeadings.NoHeading` | src/forensia/investigation/case_policy.py:116 | more than three spaces, no hash or more than six, or no whitespace behind them make no heading |
| `PolicyHeadings.BlankHeading` | src/forensia/investigation/case_policy.py:116 | when a line with nothing behind its hashes is still a heading |
| `PolicyHeadings.SectionsAre` | src/forensia/investigation/case_policy.py:111-139 | the reader finds one section for each heading that names one, with the lines up to the next such heading or one with no more hashes; deeper subheadings stay inside |
| `PolicyHeadings.HeadingEnds` | src/forensia/investigation/case_policy.py:125-129 | a heading with a text ends a section if and only if its title names a section or it has no more hashes |
| `PolicyHeadings.UpdateInPlace` | src/forensia/investigation/case_policy.py:142-169 | what an update of an existing section writes, to the byte |
| `PolicyHeadings.UpdateAppends` | src/forensia/investigation/case_policy.py:142-169 | what an update of a missing section appends, to the byte |
| `PolicyHeadings.RefusedIff` | src/forensia/investigation/case_policy.py:147-158 | exactly when an update is refused |
| `PolicyExamples.AcceptedTextIsCutOff` | src/forensia/investigation/case_policy.py:142-169 | a concrete accepted text that is not what is read back |
| `PolicyExamples.SecondTextDoesNotRemainAlone` | src/forensia/investigation/case_policy.py:142-169 | a concrete policy with an unterminated heading, where the second update does not leave what it alone would |
| `PolicyPinning.PolicyOverRuns` | src/forensia/investigation/case_policy.py:189-313 | after any run starts the policy in force is the last explicit one, else the first designated one, and every stored receipt reloads with its hash |
| `PolicyPinning.StartIff` | src/forensia/investigation/case_policy.py:189-313 | exactly when a start fails, whatever was recorded, and what it applies and records otherwise |
| `PolicyPinning.ReloadOnlyByExplicitPath` | src/forensia/investigation/case_policy.py:227-313 | a case-root file never displaces a recorded revision, an explicit path always does |
| `PolicyPinning.EmptyAdoptionBlocksResume` | src/forensia/investigation/case_policy.py:189-224 | an adopted file can be loaded again if and only if it had a body and a path |
| `EpochClusters.RunsCluster` | src/forensia/core/case.py:54-71 | the folded runs are a clustering: pieces with gaps within the limit, separated by more |
| `EpochClusters.ClusteringIsUnique` | src/forensia/core/case.py:54-71 | there is only one clustering of given times |
| `EpochClusters.FoldIsClustering` | src/forensia/core/case.py:53-76 | row by row the fold holds the epoch list of every host seen so far |
| `EpochClusters.DetectEpochs` | src/forensia/core/case.py:32-76 | with batches of any size, epochs mutated in place are the declarative clustering of every host |
| `EpochClusters.EpochListMeans` | src/forensia/core/case.py:55-75 | event counts sum to the host's rows, only the last epoch is active, neighbours are more than the limit apart |
| `CandidateProjection.GroupsPartition` | src/forensia/context/investigation_candidates.py:107-161 | the groups are nonempty, pairwise disjoint and together all matched evidence, and their sizes add up to its size |
| `CandidateProjection.UnknownAreSingletons` | src/forensia/context/investigation_candidates.py:107-161 | evidence without a usable entity is alone in its group |
| `CandidateProjection.GroupedTogetherIff` | src/forensia/context/investigation_candidates.py:107-161 | two rows of evidence are grouped together if and only if both have a usable entity and they agree in rules, family, source, host, day and the first filled entity column |
| `CandidateProjection.UsableMeans` | src/forensia/context/investigation_candidates.py:128-139 | an entity is usable if and only if the row has one, a time and a source, and on event logs a host |
| `CandidateProjection.ProjectionConserves` | src/forensia/context/investigation_candidates.py:141-200 | over all groups every evidence id and every match is counted once |
| `CandidateProjection.FirstsBeforeSeconds` | src/forensia/context/investigation_candidates.py:173-204 | within a family every rule's first candidate comes before any rule's second |
| `CandidateProjection.SameRuleOrder` | src/forensia/context/investigation_candidates.py:173-186 | of one rule the more severe candidate comes first, then the one with more evidence, then the smaller anchor |
| `CandidateProjection.SameFamilyOrder` | src/forensia/context/investigation_candidates.py:173-204 | between two rules of a family the place within the rule decides, then the rule's name |
| `CandidateProjection.OtherFamilyOrder` | src/forensia/context/investigation_candidates.py:173-204 | between two families the place within the family decides, then the family: event logs, file tables, prefetch, registry |
| `CandidateProjection.FamiliesShareFairly` | src/forensia/context/investigation_candidates.py:173-204 | in any prefix, families that both have candidates left differ by at most one |
| `CandidateProjection.ProjectedAnchorsDistinct` | src/forensia/context/investigation_candidates.py:141-161 | projected candidates have distinct anchors |
| `CandidateProjection.FirstRowsAreFair` | src/forensia/context/investigation_candidates.py:173-262 | the first rows of the ordered query are a prefix of the order for every length, so the fairness results hold of them |
| `CandidateProjection.SelectionIsFair` | src/forensia/context/investigation_candidates.py:173-262 | what the loop selects when nothing is excluded is fair for every limit |
| `CandidateProjection.KeptAre` | src/forensia/context/investigation_candidates.py:225-320 | the kept rows are exactly those neither excluded nor ineligible, each once and in their order |
| `CandidateProjection.BuildInvestigationCandidates` | src/forensia/context/investigation_candidates.py:207-360 | the cursor loop selects the first eligible candidates, which are the eligible ones among the rows looked at, and its counts say exactly what was looked at |
| `KeypointRoundRobin.Fairness` | src/forensia/investigation/planner.py:933-947 | an earlier family is at most one ahead of a later one unless that is exhausted, and never behind unless itself exhausted |
| `KeypointRoundRobin.SegmentQuota` | src/forensia/investigation/planner.py:933-947 | in an initial segment of the order every family has had exactly its quota |
| `KeypointRoundRobin.GroupsTotal` | src/forensia/investigation/planner.py:921-931 | grouping loses and doubles no name |
| `KeypointRoundRobin.UncoveredAre` | src/forensia/investigation/planner.py:899-931 | the uncovered names are those of the observed items that have one which no target names |
| `KeypointRoundRobin.FamilyMeans` | src/forensia/investigation/planner.py:930 | the family of a name is what stands before its first underscore, or all of it |
| `KeypointRoundRobin.ComputeUncoveredKeypoints` | src/forensia/investigation/planner.py:899-947 | eight names, or all uncovered ones if fewer, none covered, an initial segment of the round-robin order |

## Left out

- `EpochClusters.DetectEpochs`: the gap is compared in whole microseconds, not through the floating-point division by 86400.
- `SourceConvergence.UpdateSourceStatus`: the hosts, channels and time range found in a source's rows are a parameter; keys whose update raises are a parameter too.
- `SourcePass.PassConverges`: what the adapters do to their own family's rows is arbitrary.
- `NormalizePass.NormalizeAdapters`: the row counts it returns; each adapter is an arbitrary replacement of its family's tables and, for the registry, of the timeline and the source rows, committed in any number of parts.
- `Invalidation.InvalidateReaches`: update timestamps, and evidence lists stored as malformed JSON, which the program reads as empty.
- `SourceReplacement.RetireOne`: timeline entries of other references to the same evidence are not told apart.
- `EvidenceLinks.FreshLinkIsCurrent`: the search for an identical earlier link, and the grounds stored with a link.
- `RegistryAdmission.AdmitRegistryDatasets`: assumes distinct paths; detection by file content and the dataset id are not part of it.
- `RegistryPass.NormalizeRegistry`: the columns projected out of a record are one text and one optional timestamp; a conflict of primary keys cannot occur and is not modelled.
- `DraftOnce.AtMostOnce`: two inputs whose hashes share the first ten characters are not confused in the model, as they could be in a step id; the references within one pass are assumed distinct.
- `DraftStore.Store.DraftAndAdmit`: prompts, question contracts and feasibility rules are arbitrary answers; a search or a repair that uses the correction is one event.
- `DraftStore.SelectGapDrafts`: the fingerprint of a gap is a parameter. The selection of observed candidates applies the same rule through the cursor loop of `CandidateProjection.BuildInvestigationCandidates`.
- `StageSoundness.SkippedAnalysisIsCurrent`: what a file's raw output yields is determined by the parser; the two writes that ingest one file are one step; registry lineage replacement within the stage is not modelled there.
- `PipelineRuns.Pipeline.RunNormalizeStage`: which sources are superseded and eligible is arbitrary here; `SourcePass.RunSourcePass` says which they are, and `StageLink` relates the two.
- `PipelineRuns.Pipeline.RunIngestStage`: forced ingestion of known files.
- `CandidateProjection.BuildInvestigationCandidates`: the evidence attached to the selected candidates.
- `PolicyPattern.RealPatternIsStable`: case folding is exact only where it can produce ASCII letters.
- `KeypointRoundRobin.ComputeUncoveredKeypoints`: lower-casing a name is a parameter.
- `OutageRecovery.CallWithOutageRecovery`: the clock advances by at least a tick in every wait.
- Steps recorded at the same moment: the newest receipt is the one written last.
- Rule evaluation, settlement, sufficiency and work judgment: abstract results.
- Parsers, SQL extraction, SQL validation, DuckDB and file locks: libraries and the operating system.
- Language model transport, prompts, telemetry, the terminal interface, the command line and report rendering: input and output.
- Configuration parsing, time zones and the grounding of dates in questions: branch-by-branch checks with no state.
- Slugs, front matter, paging and compaction: only easy members.
