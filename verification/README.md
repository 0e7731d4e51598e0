# Verified model of the DaHe tooling and worker layer

This project models, in Dafny, the protocols and algorithms of the browser worker and of the
command line tools around it, and proves what their code and documentation promise. One module
models one component. Protocols are total step functions over an arbitrary schedule of actions
(interleavings, crashes, refusals and re-runs are all just schedules); an invariant is proved for
every schedule, and the main theorems follow from it. Algorithms that the source writes as loops
over mutable state are methods or classes proved against a specification function, and the
specification function is then related to an independent statement of what it should mean.

| file | component |
|---|---|
| `BrowserWorker.dfy` | the two threads of the browser worker, its queue, abort and response protocol |
| `WriteOnce.dfy` | concurrent write-once publication: check, stage, link, compare, with crashes |
| `WriterFailures.dfy` | when such writers can fail, and that each of them comes to an end |
| `ContractInstall.dfy` | installing read contracts: dependencies, then pointers, then evidence |
| `ShadowRollover.dfy`, `RolloverTool.dfy` | the resumable template rollover: freeze, clone, write drafts, evaluate, publish, lineage |
| `RolloverRestart.dfy`, `RolloverRefusals.dfy` | when a restarted rollover finishes, and three ways in which it cannot |
| `OcrGenerations.dfy` | building and activating OCR generations, overlapping runs and clean-up |
| `ExclusionChain.dfy` | the append-only exclusion chain and the tool that rebuilds it |
| `SelectionRetirement.dfy` | retiring a locked selection: chain first, lifecycle last |
| `InstanceGuards.dfy` | taking several data roots in one global order |
| `NeedleScan.dfy` | the streaming substring search with overlap |
| `SitePackages.dfy` | the work-list copy of site-packages |
| `DigestFraming.dfy` | the byte streams that are hashed for trees and sources |
| `TicketRaster.dfy`, `SmokePng.dfy` | the 5 by 7 rasteriser and the PNG writer, with a decoder |
| `NumericText.dfy`, `TruthMatch.dfy` | number extraction, canonical decimal text, truth comparison |
| `DeterministicSample.dfy` | the order-independent prioritised sample |
| `NetworkTrial.dfy`, `Percentiles.dfy` | the bounded recovery loop and its percentile |
| `OfflineTwin.dfy` | the transition recogniser and the request router |
| `PathBudget.dfy` | the worst-case Windows path bound |
| `Sequences.dfy`, `Sorting.dfy` | shared vocabulary; strictly sorted sequences |

Hashes are opaque and injective unless a module says otherwise, files are maps from paths to
contents, and clocks, servers, compressors and the outside world are parameters.

## What turned out not to hold

Each of these is a lemma with a concrete or general witness, next to the exact condition under
which the code does what is expected.

- An abort that was accepted need not lead to a cancelled response. Its batch can still be answered as
  successful exactly if it is behind its last look at the event with nothing failed yet
  (`BrowserWorker.AcceptedAbortMayStillSucceed`); an abort accepted before that look is always obeyed
  (`BrowserWorker.AbortInTimeIsObeyed`). An input line that fails with anything but a
  protocol error ends the worker with exit code 0 (`BrowserWorker.ExitCodeTellsTheLastLine`).
- Two installers with identical content can fail each other, because a directory made by the other
  between the check and `mkdir` raises (`WriterFailures.SharedDirectoryCanFail`). Writers whose files
  fit each other and the tree can fail exactly when they share a missing directory
  (`WriterFailures.NeverFailsExactly`).
- The search lower-cases the content but not the needles, so a needle with a byte between 0x41 and
  0x5A is never found; in UTF-16LE these are, for example, all needles with a character from U+4E00
  to U+5AFF (`NeedleScan.IdeographsAreInvisible`; exact condition `NeedleScan.SeenExactlyWhenUntouched`).
- The digest of the worker sources is ambiguous for contents with a zero byte
  (`DigestFraming.FoldedSourcesCollide`); among zero-free contents it is unique, and among all contents
  exactly for at most one file (`DigestFraming.UniqueExactlyAmongNulFree`).
- A rollover that was interrupted can be refused when it is started again: after cloning, because another
  build published its clones and its revise key is spent (`RolloverRefusals.InterruptedBuildIsRefused`);
  before its evidence was written, because its evaluation exists already
  (`RolloverRefusals.LostEvidenceIsRefused`); before publishing, and then under every schedule, because
  another build has evaluated the same candidates (`RolloverRefusals.SupersededBuildIsRefused`). When it
  finishes is stated exactly in `RolloverRestart.RestartFinishesExactly`.
- Two overlapping bootstraps can lose the GPU composition (`OcrGenerations.OverlapLosesGpu`), and a
  bootstrap that drew the active generation's identity would remove it in its `finally` block
  (`OcrGenerations.ReusedIdRemovesActive`); exact condition `OcrGenerations.HistoryLosesGpuExactly`; with
  fresh identities the active generation is never broken, `OcrGenerations.ActiveIsComplete`.
- An append to the exclusion chain that is interrupted after its first and before its last write
  leaves a store that refuses every later call
  (`ExclusionChain.InterruptionSticksExactly`). An interrupted invalidation is refused when the tool is
  run again, although the store would have completed it (`SelectionRetirement.InterruptedInvalidation`).
  A retirement can be repeated only on the same evidence and only while no child has been appended
  since (`SelectionRetirement.RetirementTool.Retire`).
- A truth with more than 28 significant digits is rounded before it is compared, so a candidate can
  match a truth it does not equal (`TruthMatch.UnequalMatch`); this happens exactly when such a
  truth, rounded, fits the six whole and three fraction digits of a candidate
  (`TruthMatch.MatchMeansEqualExactly`).
- The percentile of the recognition experiment covers 95 percent of the samples only for one sample and
  for multiples of twenty (`Percentiles.TruncatedRankCoversExactly`).
- The offline twin forgets transitions when handlers overlap (`OfflineTwin.OverlapForgets`; exact conditions
  `OfflineTwin.RecognisesExactly` for the index and `OfflineTwin.ReadyIsRightExactly` for the answer), though
  it never reports ready too early (`OfflineTwin.ReadyNeedsTransitions`).

## Model

| member | source | states |
|---|---|---|
| `BrowserWorker.RunKeeps` | browser-runtime/src/dahe_browser_worker/__main__.py:115-231 | for every schedule of the two threads: answered, in-flight and queued commands together are the commands read, in order; stops enter the queue only after the last line; the active cell names exactly the batch being executed |
| `BrowserWorker.ResponsesFollowRequests` | browser-runtime/src/dahe_browser_worker/__main__.py:178-229 | in every interleaving the responses answer the commands one by one in input order, none after the first Close |
| `BrowserWorker.ExitAnswersEverything` | browser-runtime/src/dahe_browser_worker/__main__.py:138-231 | a worker that exits has answered exactly the commands up to the first Close or bad line |
| `BrowserWorker.ExitCodeTellsTheLastLine` | browser-runtime/src/dahe_browser_worker/__main__.py:141-168 | the exit code is 0 or 2; it is 2 only if the readable input ends on a malformed line, and without a Close exactly then |
| `BrowserWorker.ProgressStandsBeforeItsResponse` | browser-runtime/src/dahe_browser_worker/__main__.py:189-228 | a progress frame of a command stands after the response before and before its own, and only batches emit any |
| `BrowserWorker.CancellationIsExact` | browser-runtime/src/dahe_browser_worker/__main__.py:148-165 | an abort is accepted exactly when its target is the request active at that moment, which is the next to be answered; the events set are exactly those of accepted aborts |
| `BrowserWorker.OnlyTheActiveCommandIsHit` | browser-runtime/src/dahe_browser_worker/__main__.py:148-188 | with distinct identities, a queued or answered command is never cancelled by an accepted abort |
| `BrowserWorker.EveryAbortIsAcknowledged` | browser-runtime/src/dahe_browser_worker/__main__.py:148-165 | when the reader has finished, every abort line read has one acknowledgement, in order, that says what was decided |
| `BrowserWorker.AbortInTimeIsObeyed` | browser-runtime/src/dahe_browser_worker/engine.py:3838-3843 | in every run, if the target of an accepted abort is answered as successful, the abort was decided when the batch was behind its last look at the event and had not failed |
| `BrowserWorker.AcceptedAbortMayStillSucceed` | browser-runtime/src/dahe_browser_worker/engine.py:4289-4343 | from every point of every run, the target of an accepted abort can be answered as successful exactly if it has been, or is behind its last look with nothing failed yet |
| `BrowserWorker.WorkIsBounded` | browser-runtime/src/dahe_browser_worker/__main__.py:138-231 | apart from progress frames, at most 12 steps per input line plus a constant change the worker, whatever the schedule |
| `BrowserWorker.NoDeadlock` | browser-runtime/src/dahe_browser_worker/__main__.py:138-231 | until the engine exits or dies, some step other than a progress frame is enabled |
| `BrowserWorker.WorkerProcess.StepReader` | browser-runtime/src/dahe_browser_worker/__main__.py:138-168 | the reader thread's statements on the shared fields are the reader step of the model |
| `BrowserWorker.WorkerProcess.StepEngine` | browser-runtime/src/dahe_browser_worker/__main__.py:178-231 | the engine loop's statements on the shared fields are the engine step of the model |
| `BrowserWorker.WorkerProcess.Drive` | browser-runtime/src/dahe_browser_worker/__main__.py:115-231 | driving the object along any schedule gives the state of the model's run |
| `WriteOnce.RunKeeps` | tools/install_operational_read_contracts.py:205-264 | with any number of writers, interleavings and crashes: what was there stays, every new node is explained by one writer's item, and every writer holds the items it has passed |
| `WriteOnce.PublishedNeverChanges` | tools/install_operational_read_contracts.py:234-264 | a path goes from absent to one content and never changes again |
| `WriteOnce.PublishedInOrder` | tools/loop7_shadow_authority_rollover.py:124-164 | a new file was published by one writer, after all items that writer had before it |
| `WriteOnce.DoneMeansOwnContent` | tools/loop9_invalidate_locked_selection.py:234-284 | a writer returns normally only if every path of its own holds its own content |
| `WriteOnce.ConflictingWritersNeverBothSucceed` | tools/install_operational_read_contracts.py:234-264 | of two writers with different content for one path at most one returns normally |
| `WriteOnce.RunRooted` | tools/install_operational_read_contracts.py:205-231 | directories exist before anything is put into them, in every run |
| `WriterFailures.NeverFailsExactly` | tools/install_operational_read_contracts.py:205-264 | for every list of jobs and every tree, no schedule of steps and crashes makes a writer fail exactly if every file fits the tree, the files of all writers fit each other, and no directory missing at the start lies above entries of two writers |
| `WriterFailures.PeacefulIsCalm` | tools/install_operational_read_contracts.py:205-264 | in every run of such writers nobody has failed, and each directory a writer found missing while climbing is still missing when it comes to make it |
| `WriterFailures.SharedDirectoryCanFail` | tools/install_operational_read_contracts.py:212-224 | whenever a missing directory lies above entries of two writers, identical or not, some schedule makes a writer fail |
| `WriterFailures.SoloEnds` | tools/install_operational_read_contracts.py:205-264 | from every state of every run, a writer that has not crashed returns or fails when left alone |
| `ContractInstall.PlanKeepsEverything` | tools/install_operational_read_contracts.py:304-320 | the order of writing keeps every dependency once, non-pointers before pointers |
| `ContractInstall.PutAllDescribes` | tools/install_operational_read_contracts.py:234-264 | writing a list loses nothing, puts every entry in place and adds only the directories above |
| `ContractInstall.CompletesExactly` | tools/install_operational_read_contracts.py:205-264 | a list completes exactly when no entry conflicts with the tree or another entry |
| `ContractInstall.ResumeReachesTheSameTree` | tools/install_operational_read_contracts.py:234-264 | from any tree between start and result, writing the list again completes to the same result |
| `ContractInstall.PointerComesLast` | tools/install_operational_read_contracts.py:304-320 | under any interleaving of installers and any crash, an active-candidate pointer implies its installer's whole dependency closure is in the target with the content it read |
| `ContractInstall.RerunCompletes` | tools/install_operational_read_contracts.py:234-320 | after any interleaved and interrupted runs of one source, one more run on its own never fails, wherever it stands, and when left alone returns with the tree an undisturbed installation gives |
| `ContractInstall.TargetRoot.EnsureSafeParent` | tools/install_operational_read_contracts.py:205-231 | succeeds exactly when no ancestor is a file, and then adds the missing directories only |
| `ContractInstall.TargetRoot.WriteOnce` | tools/install_operational_read_contracts.py:234-264 | succeeds exactly when the path is free or holds the same content, and changes nothing else |
| `ContractInstall.TargetRoot.Install` | tools/install_operational_read_contracts.py:304-368 | succeeds exactly when the plan completes and verification passed; otherwise the tree is a first part of the plan |
| `ShadowRollover.RunKeeps` | tools/loop7_shadow_authority_rollover.py:929-1097 | for any number of builds, crashes and re-runs: between frozen source and published version there is only a lineage, and after it at most one unsealed version that continues it |
| `ShadowRollover.OneVersionPerFamily` | tools/loop7_shadow_authority_rollover.py:621-689 | a build adds at most one version to a family over any schedule |
| `ShadowRollover.DraftStateLoads` | tools/loop7_shadow_authority_rollover.py:480-582 | a written draft state passes its load checks in every later state |
| `ShadowRollover.FinishedMeansShadow` | tools/loop7_shadow_authority_rollover.py:792-873 | a finished build has every family in shadow, each candidate descending from the frozen source with parents linked, numbers rising by one and one content |
| `ShadowRollover.CloneSucceedsExactly` | tools/loop7_shadow_authority_rollover.py:633-688 | cloning a family succeeds exactly when an unsealed version is waiting or the build has not revised the family before |
| `ShadowRollover.RunRecords` | tools/loop7_composite_lifecycle_evaluation.py:345-455 | for any number of builds, crashes and re-runs: every recorded evaluation is of the written drafts of its build, and evidence on disk reports its build's last evaluation, which succeeded |
| `ShadowRollover.AuthorizesExactly` | src/dahe/adapters/sqlite/template_studio.py:2356-2429 | the evaluation a build has evidence of authorizes a candidate exactly until another build's evaluation of it stands later in the sequence |
| `ShadowRollover.AdvancedOnlyWhenWritten` | tools/loop7_shadow_authority_rollover.py:792-834 | over every schedule: a version that is no longer in the lifecycle it was stored with is among the drafts some build has written to disk and passed the evaluation of |
| `RolloverRestart.PublishFinishesExactly` | src/dahe/adapters/sqlite/template_studio.py:5067-5093 | left alone, a publishing run finishes, within 13 steps, if each candidate is unsealed and authorized by the build's own evaluation or published already under the build's contract, and otherwise never |
| `RolloverRestart.RestartFinishesExactly` | tools/loop7_shadow_authority_rollover.py:941-1140 | from every reachable state without a run, a restarted build that is left alone finishes exactly if: with evidence, its candidates settle as above; with drafts only, they are all unsealed and the same evaluation was not stored before; with neither, it can still clone each family |
| `RolloverRefusals.SupersededBuildIsRefused` | src/dahe/adapters/sqlite/template_studio.py:5074-5081 | from every repository that can be rolled over and for any two builds, a history after which the first, evaluated and interrupted, never finishes under any schedule, because the second has evaluated the same candidates; the second still can |
| `RolloverRefusals.LostEvidenceIsRefused` | tools/loop7_composite_lifecycle_evaluation.py:385-435 | from every such repository, a build that is interrupted between storing its evaluation and writing the evidence is refused when the evaluation comes out the same |
| `RolloverRefusals.InterruptedBuildIsRefused` | src/dahe/adapters/sqlite/template_studio.py:4943-4951 | from every such repository in which some family has nothing waiting, a build that is interrupted after cloning is refused once another build has published its clones |
| `RolloverTool.Rollover.CloneDrafts` | tools/loop7_shadow_authority_rollover.py:633-689 | the loop over the families is a run of cloning steps: a draft for every family, or the run stops at the first refusal |
| `RolloverTool.Rollover.Publish` | tools/loop7_shadow_authority_rollover.py:799-834 | the loop over the candidates is a run of publishing steps; it finishes the build exactly if at its start every candidate is unsealed and authorized or published under the build's contract, and then every family points to its candidate |
| `ShadowRollover.VersionLineage` | tools/loop7_shadow_authority_rollover.py:837-873 | the parent walk terminates; what it returns is consecutive with one content; it succeeds on every descendant |
| `OcrGenerations.RunKeeps` | tools/bootstrap_ocr.py:455-516 | for any overlapping bootstraps with fresh identities, failures and kills: the pointer loads, every run's directory holds what its stage says, no run that may clean up owns the active generation |
| `OcrGenerations.ActiveIsComplete` | src/dahe/adapters/ocr/runtime_layout.py:168-333 | the active pointer always names a complete generation whose qualification covers exactly its runtimes |
| `OcrGenerations.OnceActiveStays` | tools/bootstrap_ocr.py:505-516 | a generation that was active stays on disk unchanged for good |
| `OcrGenerations.GpuIsLostExactly` | tools/bootstrap_ocr.py:347-366 | a step takes the GPU away exactly when it activates a CPU-only run while GPU is active |
| `OcrGenerations.HistoryLosesGpuExactly` | tools/bootstrap_ocr.py:347-504 | a history loses GPU exactly if some run planned without it, while it was not active, and activated what it built after GPU had become active |
| `OcrGenerations.GpuStays` | tools/bootstrap_ocr.py:347-366 | once GPU is active it stays active as long as runs do not overlap |
| `OcrGenerations.OverlapLosesGpu` | tools/bootstrap_ocr.py:455-504 | from every state without an active GPU, two overlapping runs that activate GPU and then replace it |
| `OcrGenerations.HealthyRunActivates` | tools/bootstrap_ocr.py:466-504 | if nothing outside fails, a run activates its generation within eight steps from every reachable state |
| `OcrGenerations.ReusedIdRemovesActive` | tools/bootstrap_ocr.py:466-512 | a run that draws the active identity removes the active generation |
| `OcrGenerations.NothingIsLeftBehind` | tools/bootstrap_ocr.py:505-512 | once all runs have left, the root holds what it held before, unchanged, plus exactly the activated generations |
| `OcrGenerations.RemovalIsLocal` | tools/bootstrap_ocr.py:135-146 | removing a generation takes exactly its tree; other generations, the pointer and everything outside the root stay |
| `OcrGenerations.RuntimeRoot.Bootstrap` | tools/bootstrap_ocr.py:439-516 | activates exactly when the request is allowed, the identity is free, models are at hand, the qualification reports the requested runtimes and no step raises; otherwise the root is as it was |
| `ExclusionChain.FirstOccurrencesKeepsAll` | tools/loop9_build_exclusion_authority.py:118-133 | deduplication keeps every inventory once |
| `ExclusionChain.FirstOccurrencesKeepsOrder` | tools/loop9_build_exclusion_authority.py:118-133 | deduplication keeps the order of first occurrences |
| `ExclusionChain.Deduplicate` | tools/loop9_build_exclusion_authority.py:118-133 | refused exactly when one digest names two payloads, else the first occurrences |
| `ExclusionChain.Merge` | tools/loop9_build_exclusion_authority.py:136-164 | refused exactly when a sealed inventory is missing or changed, else the sealed order followed by the new ones |
| `ExclusionChain.MergedIsTheRegistry` | tools/loop9_build_exclusion_authority.py:136-164 | the merge has the sealed chain as a prefix, no duplicates, and exactly the candidates |
| `ExclusionChain.WalkChain` | src/dahe/verification/loop9_exclusion_authority.py:1450-1495 | the walk accepts exactly the node sets that are the prefixes of one chain, and returns its tip: no fork, one first node, nothing unmet |
| `ExclusionChain.LoadChain` | src/dahe/verification/loop9_exclusion_authority.py:1433-1581 | the walk and the comparisons with head, rows and child files load exactly the sealed stores |
| `ExclusionChain.LoadedIsWhole` | src/dahe/verification/loop9_exclusion_authority.py:1433-1581 | what a store loads as determines every file, row and head of it |
| `ExclusionChain.AppendExtends` | src/dahe/verification/loop9_exclusion_authority.py:1584-1761 | a finished append adds the child at the end, or nothing if it is there |
| `ExclusionChain.InterruptionSticksExactly` | src/dahe/verification/loop9_exclusion_authority.py:1717-1760 | cutting an append short makes the store stuck exactly when it had begun to write |
| `ExclusionChain.PlanIsTheRegistry` | tools/loop9_build_exclusion_authority.py:195-238 | the planned chain extends the sealed one, repeats nothing, holds exactly what was given, its development children exactly the registered ones |
| `ExclusionChain.AuthorityStore.Append` | src/dahe/verification/loop9_exclusion_authority.py:1584-1761 | the statements of the append, killed after any number of writes, are the append of the model |
| `ExclusionChain.AuthorityStore.Rebuild` | tools/loop9_build_exclusion_authority.py:167-252 | refused before the first write, or the planned chain is built; killed on the way, the chain is between old and planned or the store is stuck |
| `SelectionRetirement.RunKeeps` | tools/loop9_invalidate_locked_selection.py:415-496 | for any runs, other tools and crashes: lifecycle nodes are recorded against growing chains, retired selections are in theirs, replacements are not |
| `SelectionRetirement.InvalidatedIsExcluded` | tools/loop9_invalidate_locked_selection.py:426-491 | in every crash state a selection is recorded as invalidated only if its inventory is in the chain it was recorded against, which is still part of the chain on disk |
| `SelectionRetirement.HistoriesGrow` | src/dahe/adapters/files/shadow_selection_lifecycle.py:708-821 | both histories are append-only under every schedule, and the chain repeats nothing |
| `SelectionRetirement.LoadedChainIsTheHistory` | src/dahe/verification/loop9_exclusion_authority.py:1852-1884 | what loads as current is the whole history, its development children exactly the registered ones |
| `SelectionRetirement.RetiredForGood` | src/dahe/adapters/files/shadow_selection_lifecycle.py:1034-1184 | activations and retirements alternate, and a retired selection is never active again |
| `SelectionRetirement.InterruptedInvalidation` | tools/loop9_invalidate_locked_selection.py:287-308 | a cut-short invalidation leaves the strict load failing exactly between its first and last write; every re-run is then refused, though the store would complete it |
| `SelectionRetirement.InvalidateExactly` | src/dahe/adapters/files/shadow_selection_lifecycle.py:926-1032 | at the tip, invalidation returns exactly for an active selection or for the same evidence and chain head |
| `SelectionRetirement.RetirementTool.Retire` | tools/loop9_invalidate_locked_selection.py:287-496 | succeeds exactly when the selection is the tip of a strict lifecycle, not retired on other evidence or another chain head, and the chain can be extended; repeating it then succeeds and changes nothing |
| `InstanceGuards.GuardsAreExclusive` | src/dahe/system/instance_lock.py:38-65 | no root is ever held twice, and a process that is over holds no handle |
| `InstanceGuards.RunExplainsLosses` | tools/loop7_locked_set_release.py:372-395 | every root a process found taken is one that some process owns, or has owned and not given up at or below, unless a process was killed or raised |
| `InstanceGuards.SomebodyGetsThrough` | tools/loop7_locked_set_release.py:372-395 | when any set of contending processes, crashes included, is over, at least one did not give up for a busy root |
| `InstanceGuards.SomebodyHeldAll` | tools/loop7_locked_set_release.py:372-395 | when nothing is killed or raises, some process held all its roots at a point of the run |
| `InstanceGuards.NoWaitingCycle` | tools/loop7_locked_set_release.py:372-395 | if processes waited instead, the awaited roots would grow along every chain of waiting processes, so no chain closes |
| `InstanceGuards.PrepareRoots` | tools/loop7_locked_set_release.py:361-380 | refused exactly for no root or a repeated one, else the roots in the global order |
| `NeedleScan.FileContains` | tools/portable_python_runtime.py:108-119 | for every split into non-empty blocks, true exactly when some needle or its UTF-16LE form occurs in the lower-cased whole content |
| `NeedleScan.OverlapSuffices` | tools/portable_python_runtime.py:111-118 | an occurrence in the whole is one before the block or one in the kept overlap and the block |
| `NeedleScan.ScanStep` | tools/portable_python_runtime.py:113-118 | one round of the loop decides the extended content and keeps the right tail, lower-casing included |
| `NeedleScan.SeenExactlyWhenUntouched` | tools/portable_python_runtime.py:115-116 | a needle survives lower-casing of the data, for all data, exactly when it has no byte from 0x41 to 0x5A |
| `NeedleScan.CapitalByteIsNeverFound` | tools/portable_python_runtime.py:115-116 | a needle with such a byte is found in no data |
| `NeedleScan.Utf16UntouchedExactly` | tools/portable_python_runtime.py:109-110 | for which texts the UTF-16LE form can be found |
| `NeedleScan.Utf8UntouchedExactly` | tools/portable_python_runtime.py:90-105 | for which texts the UTF-8 form can be found: those without capital letters |
| `NeedleScan.IdeographsAreInvisible` | tools/portable_python_runtime.py:109-116 | a needle with a character from U+4E00 to U+5AFF is never found in its UTF-16LE form |
| `SitePackages.CopySitePackages` | tools/portable_python_runtime.py:60-87 | the work list terminates and makes exactly the recursive copy; refused exactly for a link or special file outside skipped folders |
| `SitePackages.CopiedExactly` | tools/portable_python_runtime.py:68-87 | a file is copied, unchanged and under the same path, exactly when unskipped folders lead to it and its name is not left out |
| `DigestFraming.Feed` | tools/portable_python_runtime.py:24-31 | the updates of the digest loop are the framed stream |
| `DigestFraming.StreamIsDecodable` | tools/portable_python_runtime.py:24-31 | a parser recovers the exact list of entries from the stream |
| `DigestFraming.EqualTreeStreamsMeanEqualTrees` | tools/portable_python_runtime.py:24-31 | equal tree streams mean equal trees, for NUL-free paths and hashes that tell contents apart |
| `DigestFraming.EqualSourceStreamsMeanEqualSources` | tools/build_formal_release.py:214-226 | equal source streams mean equal sources, for NUL-free contents |
| `DigestFraming.FoldedSourcesCollide` | tools/build_formal_release.py:214-226 | folding one file into the content of the one before gives the same stream |
| `DigestFraming.UniqueExactlyAmongNulFree` | tools/build_formal_release.py:214-226 | a NUL-free source list has a stream of its own among NUL-free lists, and among all lists exactly if it has at most one file |
| `TicketRaster.DrawText` | tools/ocr_runtime_check.py:155-177 | blackens exactly the ink of the text and keeps every other byte and the length; raises at the first character without a glyph |
| `TicketRaster.TextInkAt` | tools/ocr_runtime_check.py:164-177 | for text that fits, a pixel is ink exactly when the cell it falls in, found by division, is lit |
| `SmokePng.ChunkReads` | tools/ocr_runtime_check.py:118-120 | a chunk is read back with kind, payload and rest, its checksum verified |
| `SmokePng.UnfilterFiltered` | tools/ocr_runtime_check.py:197-200 | rows behind filter type 0 are read back exactly |
| `SmokePng.DecodeEncode` | tools/ocr_runtime_check.py:197-207 | decoding what was encoded gives the picture back, whatever the compressor |
| `SmokePng.LinesFitExactly` | tools/ocr_runtime_check.py:188-196 | the four lines fit exactly for at most 7, 15 and 9 characters, hence for seven each |
| `SmokePng.SmokePng` | tools/ocr_runtime_check.py:180-207 | the file is the encoded ticket, or there is none because a character has no glyph or the data is too long |
| `SmokePng.TicketDecodes` | tools/ocr_runtime_check.py:180-207 | the file of a ticket decodes to that ticket |
| `SmokePng.TicketPixel` | tools/ocr_runtime_check.py:188-196 | every sample of a ticket is black where a line is lit and white elsewhere |
| `NumericText.ScanIsFindAll` | tools/rapidocr_experiment_worker.py:13 | a scan over maximal digit runs yields exactly the leftmost non-overlapping matches of the backtracking pattern |
| `NumericText.CanonicalKeepsValue` | tools/rapidocr_experiment_worker.py:23-26 | the canonical text has the same value and is its own canonical text |
| `NumericText.CanonicalExactly` | tools/rapidocr_experiment_worker.py:23-26 | two numerals have the same canonical text exactly when they are numerically equal |
| `NumericText.ExtractNumericCandidates` | tools/rapidocr_experiment_worker.py:17-27 | returns exactly the canonical texts of all matches, each once, by length and text |
| `TruthMatch.RoundingKeepsExactly` | tools/run_ocr_experiment.py:214-218 | rounding to 28 digits leaves a coefficient alone exactly when at most 28 digits are significant |
| `TruthMatch.MatchIsEqualToRounded` | tools/ocr_experiment.py:496 | a candidate matches exactly when its value is the rounded truth's |
| `TruthMatch.MatchMeansEqualExactly` | tools/ocr_experiment.py:475-499 | over the candidates the extractor can emit, a match means numeric equality exactly for truths of at most 28 significant digits and for truths whose rounded value has more than six whole or three fraction digits |
| `TruthMatch.EmittedExactly` | tools/rapidocr_experiment_worker.py:13-27 | the candidates of all texts are exactly the normal numerals of at most six whole and three fraction digits |
| `TruthMatch.UnequalMatch` | tools/run_ocr_experiment.py:214-218 | a truth that differs from twelve and is matched by the candidate twelve |
| `DeterministicSample.Sample` | tools/ocr_experiment.py:426-454 | refused exactly for a size outside 1 to 30 or above the number of images, or a repeated digest; else the sample in digest order that no left-out image precedes |
| `DeterministicSample.SampleIsOrderIndependent` | tools/ocr_experiment.py:426-454 | two samples of one size drawn from permuted inputs are equal |
| `DeterministicSample.ConditionsComeFirst` | tools/ocr_experiment.py:437-453 | all images with a quality condition are taken if they fit, and nothing else if they fill the sample |
| `NetworkTrial.AttemptSafeStop` | tools/benchmark_operational_daily_batches.py:199-232 | the status is read first; at most one cancel, directly after, offered and bound to the version just read; a terminal status is reported only as last replied |
| `NetworkTrial.RecoverLogin` | tools/benchmark_operational_daily_batches.py:284-317 | a recovery is posted only after the cool-down and keeps the history within three recoveries, thirty seconds apart |
| `NetworkTrial.Poll` | tools/benchmark_operational_daily_batches.py:261-332 | polling terminates, reads the status only before the deadline, sends no cancel, and ends for the reason its last reply shows |
| `NetworkTrial.RunTrial` | tools/benchmark_operational_daily_batches.py:235-369 | for every server: at most three recoveries at least 30 s apart, all bound to the job; for every started job, however polling ends, the history is the polling calls without a cancel, then the stop's status read and after it at most one cancel bound to that read, so at most one cancel in all; the outcome tells how polling ended and how the stop did, and a trial has fetched at least total above zero and a terminal status |
| `Percentiles.NearestRankIsPercentile` | tools/benchmark_operational_daily_batches.py:127-132 | the reported value is the smallest that at least 95 percent of the samples do not exceed |
| `Percentiles.TruncatedRankCoversExactly` | tools/run_ocr_experiment.py:127-130 | the other index covers 95 percent exactly for one sample and multiples of twenty |
| `OfflineTwin.IndexIsLongest` | tools/chengfeng_offline_twin_check.py:224-230 | the greedy index is the length of the longest prefix of the transitions that is a subsequence of the stages |
| `OfflineTwin.Twin.Post` | tools/chengfeng_offline_twin_check.py:216-246 | one handler at a time: final is ready exactly when the five transitions are a subsequence of the earlier stages |
| `OfflineTwin.ReadyNeedsTransitions` | tools/chengfeng_offline_twin_check.py:224-231 | under every interleaving of handlers, ready implies the five transitions arrived in order |
| `OfflineTwin.OverlapForgets` | tools/chengfeng_offline_twin_check.py:224-230 | for every pattern in which a handler reads the index between another's read and its store, and every window of transitions around it, the final index stays behind the transitions that arrived in order |
| `OfflineTwin.RecognisesExactly` | tools/chengfeng_offline_twin_check.py:224-230 | once all handlers are done, the index counts the transitions that arrived in order, for every assignment of stages, exactly if no handler reads between another's read and its store |
| `OfflineTwin.ReadyIsRightExactly` | tools/chengfeng_offline_twin_check.py:224-234 | a final query after all handlers is ready exactly when the five transitions arrived in order, for every assignment of stages, exactly if no handlers overlap or there are fewer than five |
| `OfflineTwin.Router.Route` | tools/chengfeng_offline_twin_check.py:302-342 | observed is approved plus blocked, approved at most one; exactly the transitions before arming and the first final query go through |
| `PathBudget.ParentsWithin` | tools/build_formal_release.py:590-597 | the parent walk always reaches its stop point and checks exactly the directories down from the target |
| `PathBudget.Validate` | tools/build_formal_release.py:668-696 | accepts exactly when all projections for the longest user name are within the limits |
| `PathBudget.AcceptedExactly` | tools/build_formal_release.py:569-597 | that is exactly: for every user name of at most 20 characters and both targets, files within 259 and directories within 247 |
| `PathBudget.BudgetIsTight` | tools/build_formal_release.py:668-696 | for every longer user name there is an accepted package that does not fit |

## Left out

- Playwright, Paddle, PIL, SQLite, zlib, subprocess, ACL and HTTP internals: only their success, refusal or result enters, as a parameter or as an action.
- SHA-256 collisions: digests are opaque and injective, except where `ExclusionChain.Deduplicate` and `ExclusionChain.Merge` check payloads themselves.
- Reparse points, symbolic links and case folding of Windows paths: paths are lists of resolved components.
- A process that is interrupted between moving the OCR pointer and setting its `activated` flag, and partly written runtime directories: a step completes or has no effect.
- A browser engine that raises while it is closed behind the last response, which ends the worker without either exit code.
- The flat and the legacy OCR layouts beyond what resolving them yields: other tools write them.
- `ShadowRollover.RunKeeps`: the idempotency keys of the two lifecycle calls are not modelled, because a call is made only when the stored lifecycle asks for it; the validity of the publications that were there before the first freeze is not checked.
- `ShadowRollover.AuthorizesExactly`: the OCR run behind an evaluation, its dataset, matcher, policy and runtime are constant for a build, so the scope of an attempt is build, candidates and lifecycles; evaluations started by hand, and the withdrawal of a published version that a failed one of them causes, are not modelled.
- `RolloverRestart.RestartFinishesExactly`: the restarted build is undisturbed and its evaluation, if one is due, passes; the exclusion snapshots behind the final authority are unchanged.
- `SelectionRetirement.RunKeeps`: overlap of a replacement with excluded evidence is reduced to its inventory not being in the chain; build and contract bindings are constant.
- `NumericText.CanonicalExactly`: digits are ASCII; Unicode digits that the pattern also accepts are not modelled.
- `TruthMatch.MatchMeansEqualExactly`: truths are unsigned decimal numerals; signs, exponents, blanks and special values that the decimal constructor accepts are not modelled.
- `TicketRaster.DrawText`: text whose last pixel row ends behind the buffer, which a byte array would silently grow for, is excluded.
- `NetworkTrial.RunTrial`: the reply's fields are a fixed record, and the trial's elapsed time and response samples are not returned.
- `Percentiles.TruncatedRankCoversExactly`: 0.95 is the exact fraction, not its binary approximation.
- `InstanceGuards.SomebodyGetsThrough`: guards are named mutex objects; the SQLite runtime opened under each guard is a step that may raise.
- The exclusion accounting of the development import, the review binding of the locked-set release and the needle list for developer roots: finite checks and set unions, which would add only easy members.
- `SitePackages.CopiedExactly`: names are lower-cased as ASCII, not case-folded.
- Identity contexts, schema versions and inventory identifiers of exclusion inventories, and the directory that model provisioning stages in: constant, or cleaned within one step.
- Argument parsing, JSON layouts, manifest pin checks and console output: finite case checks.
