# A verified model of WLM2PST

WLM2PST converts a Windows Live Mail store into an Outlook PST. This project models the parts of it whose
correctness is not visible from one function, and proves what they promise: the crash-recoverable import of
messages with the validation that judges it, the planning of PST folders, the repair of damaged mail headers,
and a handful of exact algorithms (SHA-256, calendar dates, UTF-8 and UTF-16, the manifest text).
`dafny verify dfyconfig.toml` checks all of it.

## How the import is modelled

The PST is durable at every message save; the state database is durable only at each batch commit. The run is a
function of what the outside world answers (`ImportProtocol.Answers`: cancellation, folder creation, reading and
hashing a file, import, fallback, commit), and it logs every state it goes through: PST, committed tables and
working tables. A crash is then the choice of one logged state, after which only the PST and the committed tables
are left (`History.Survivor`). A job is any sequence of runs, each cut anywhere or ending by itself, all but the first
resuming. The classes in `ImportPipeline` run the same protocol step by step over mutable state, and each of their
methods is proved to compute its protocol function, up to the whole run. What a run does is told a second time, from
the disk it starts on and the answers alone (`RunOutcomes`): the record of each row, the mail, the progress lines, the
ending and the exit code; and every run is proved to do just that.

What is assumed of the environment is an argument of the theorems (`ProtocolSafety.Trust`):

* `Unreliable`: nothing. Progress, bounded loss, accounting, lost fallbacks and the end-to-end result hold here.
* `ReadableFolders`: a resumed run can open and read the target folder of a row that is still PENDING although its
  message is there. Exactly-once needs this: `ResumeIndex.UnreadableFolderDuplicates` shows a job that saves a message
  twice without it, and `Duplicates.DuplicatesExactly` says exactly when a run does. When a completed job validates is
  known exactly under this assumption alone.
* `StableSource`: besides, a source path always has one digest. Only corollaries ask for it.

Everywhere: `import_eml` and `import_fallback` add exactly one message and succeed, or add none and fail; relative
paths are unique, as the table demands; row updates succeed, their results are ignored by the code; a folder's entry
id is represented by its path. For validation, a session tells the truth about what it lists and reads.

## Findings

Each is a property that the code does not always have: an input, and the exact condition.

* A fallback message saved but not committed before a crash is never found again, since resuming looks only in the
  row's target folder: it stays in the errors folder as surplus (`History.LostStaysLost`), and the job completes but does
  not pass validation (`CutJobs.LostFallbackFails`).
* The digest stored for a row survives a run that fails after hashing it, and adopting a message does not replace it. If
  the file changed in between, the job completes with nothing lost and still does not pass validation
  (`CutJobs.OldDigestFails`). `JobValidation.CompletedJobValidates` is the exact condition for both: no run starts with a
  lost fallback that validation looks for, and none with a PENDING row whose message has another digest than the row.
* A resumed run that cannot read a folder saves the messages in it again (`Duplicates.DuplicatesExactly`).
* The circuit breaker counts since the last message saved, and a fallback counts as saved: a store in which every import
  fails but every fallback is saved does not stop a run (`CircuitBreaker.ConversionFailuresNeverTrip`).
  `CircuitBreaker.BreakerTripsExactly` is the exact condition.
* A folder whose normalized name no sibling has can still be renamed: a sibling may have got that name by its suffix
  (`FolderNaming.SuffixedNameIsTaken`). `FolderNaming.KeepsBaseExactly` is the exact condition, and for names that do not end in
  a parenthesis `FolderNaming.PlainNameKeptExactly` tells it from the sources.
* `iso8601_from_filetime` truncates toward zero: a time before 1970 that is no whole second is printed one second
  late. `Dates.IsoNamesTheSecond` is the exact condition.
* Header repair turns a line of NUL bytes into a blank line, which ends the header. `RepairReading.RepairKeepsReadingExactly`
  and `RepairReading.RepairIsFixedExactly` are the exact conditions; both hold for every header without NUL bytes. The caps
  must be large enough for the rewritten header, which can be longer than the original.
* The manifest text is ambiguous if a path may contain a newline (`Manifest.NewlineIsAmbiguous`), though not every newline
  does harm: it must end what could be the size and time of a shorter path. `Manifest.TextIsSharedExactly` is the exact
  condition for one manifest to share its text with another, and `Manifest.TextIsUnambiguous` holds of all manifests
  without such paths.
* The layout text of the collapse options is ambiguous if an extra pattern contains `;extra=`, which the command line
  does not forbid (`FolderLayout.MarkIsAmbiguous`): `--resume` would accept other containers than the job was created
  with. `FolderLayout.LayoutIsSharedExactly` is the exact condition for some other options to have the same text, and
  among options without that mark the text decides (`FolderLayout.LayoutDecides`).

## Model

| member | source | states |
|---|---|---|
| History.ExactlyOnce | src/worker/pipeline/import_pipeline.cpp:107-198 | after any history of runs cut at any step and resumed, every row has at most one message with its run id and path in its target folder, every committed IMPORTED row exactly one, and the PST holds nothing that is not a message of one of the job's rows in its place |
| History.DuplicateStopUnreachable | src/worker/pipeline/import_pipeline.cpp:193-197 | the stop for two matching messages is never reached by such a job |
| History.SettledForever | src/worker/pipeline/import_pipeline.cpp:107-170 | whatever the environment does, a committed row that is not PENDING is never changed by any later run, cut or not |
| History.PendingNeverGrows | src/worker/pipeline/import_pipeline.cpp:119-120 | so the number of committed PENDING rows never grows |
| History.LossIsBounded | src/worker/pipeline/import_pipeline.cpp:127-145 | at every logged step of every run, a crash forgets the outcome of at most one batch of rows |
| History.RunAccounts | src/worker/pipeline/import_pipeline.cpp:147-154 | every progress line satisfies processed = initially settled + imported + fallback + failed, and a run that ends neither cut, cancelled, fatal nor with a database error leaves no committed row PENDING |
| History.UncutRunLosesNothing | src/worker/pipeline/import_pipeline.cpp:282-308 | if none was lost before, a run that ends without a database error records every fallback message it saves |
| History.LostStaysLost | src/worker/pipeline/import_pipeline.cpp:328-353 | a fallback message that a cut lost stays surplus in the errors folder, however later runs end; resuming looks only in the row's target folder |
| ResumeIndex.IndexIsNeverStale | src/worker/pipeline/import_pipeline.cpp:328-353 | the run that reads each folder once goes through exactly the states of a run that searches the folder afresh for every row, although it keeps saving messages |
| ResumeIndex.UnreadableFolderDuplicates | src/worker/pipeline/import_pipeline.cpp:330-336 | a concrete job, cut between save and commit and resumed with an unreadable folder, ends with two messages for one IMPORTED row |
| Duplicates.DuplicatesExactly | src/worker/pipeline/import_pipeline.cpp:181-365 | in the next run of a job whose folders could be read so far, whatever happens in it, a row ends with a second message in its target folder if and only if it is PENDING with one there, the run comes to it, its folder is neither indexed nor opened and read then, and the import (or, for a row of the errors folder, the fallback) saves |
| CutJobs.LostFallbackFails | src/worker/pipeline/import_pipeline.cpp:282-308 | a concrete job whose first run is cut between saving a fallback and its commit: the fallback is lost, the second run completes, and validation reports it |
| CutJobs.OldDigestFails | src/worker/pipeline/import_pipeline.cpp:200-207 | a concrete job of three runs with every folder readable and no fallback lost: the row is adopted with the digest of an earlier run, the job completes, and validation reports it |
| DigestClashes.RunKeepsClashes | src/worker/pipeline/import_pipeline.cpp:328-353 | a run, however cut, keeps every row whose message has another digest, and a row that it leaves IMPORTED is one exactly if it was one when the run started |
| DigestClashes.ClashesOnlyByCuts | src/worker/pipeline/import_pipeline.cpp:328-353 | when nothing is pending any more, an IMPORTED row has another digest than its message if and only if some run started with such a row PENDING |
| DigestClashes.StableNeverClashes | src/worker/pipeline/import_pipeline.cpp:200-207 | if every path has one digest in all runs, no run ever starts with such a row |
| RunOutcomes.EveryRunIsTold | src/worker/pipeline/import_pipeline.cpp:107-365 | after any history and whatever the answers, told from the disk and the answers alone: in every state of the next run each settled row is as it was and each pending one at a stage of its record, in both tables; the PST holds what it held, in order, and behind it the mail of the first rows; the progress lines are the first of those told, each number the rows this run brought to that status; the run ends where and as told; and one that completes or is cancelled leaves exactly the records, mail, lines and recorded folders of the rows before its end |
| RunOutcomes.SettledAsTold | src/worker/pipeline/import_pipeline.cpp:181-326 | whatever step the run is cut at, a row it leaves settled has the whole record told: adopted or imported is IMPORTED with that entry id, an unreadable digest, prefix or stream is FAILED_SOURCE_READ with its code, a saved fallback is PRESERVED_AS_ATTACHMENT with the first code, and a failed one FAILED_MAPI with the last |
| RowOutcomes.RowTold | src/worker/pipeline/import_pipeline.cpp:181-326 | one row, from any state: every logged state in between is a stage of its record with its mail saved or not, and if the run goes on the record, the mail, the counters and the known folders are those told |
| RowOutcomes.AdoptionTold | src/worker/pipeline/import_pipeline.cpp:328-353 | a row its folder shows once is adopted with that message's entry id and its old digest; one shown twice ends the run; none is saved |
| RowOutcomes.RowStops | src/worker/pipeline/import_pipeline.cpp:181-326 | a row ends the run exactly on a second match, on a folder it needs and cannot open, or on the breaker |
| RunExit.ExitIsTold | src/worker/app/worker_app.cpp:382-486 | after any history the exit code is told from the disk, the answers and the view: the code of the ending, a failed validation, or for a completed run that passes the worst status of any row: FAILED_MAPI, then FAILED_SOURCE_READ, then PRESERVED_AS_ATTACHMENT, else success |
| RunSafety.RowsSafe | src/worker/pipeline/import_pipeline.cpp:119-160 | the loop invariant from any row on: snapshots stay safe, the log monotone, losses bounded, progress lines exact, and settled rows settled |
| CircuitBreaker.ConversionFailuresNeverTrip | src/worker/pipeline/import_pipeline.cpp:267-308 | while folders open and every fallback message can be saved, no number of failed conversions stops a run with an output failure: the breaker starts over |
| CircuitBreaker.BreakerTripsExactly | src/worker/pipeline/import_pipeline.cpp:97-326 | after any history, a run that is not cancelled and in which folders open, begin and commit succeed ends with an output failure if and only if, told from the disk and the answers alone, as many store-level failures as the threshold follow each other with no message saved between; imports and fallbacks count separately, settled, unreadable and adopted rows neither count nor start over, and an ambiguous row ends the run |
| CircuitBreaker.TripsExactly | src/worker/pipeline/import_pipeline.cpp:267-324 | the counting itself, from any count: it reaches the threshold if and only if the missing failures come at once or a full count of them somewhere |
| RowTrace.ConversionCounts | src/worker/pipeline/import_pipeline.cpp:200-326 | one row that is not adopted counts its import and its fallback, and stops the run exactly if one of them reaches the threshold or a folder it needs cannot be opened |
| CircuitBreaker.BrokenStoreTrips | src/worker/pipeline/import_pipeline.cpp:267-324 | after any history, a store that fails every import and every fallback stops the run if and only if it would convert at least half as many rows as the threshold, rounded up; adopted, settled and ambiguous rows are told apart, and a first run would convert all |
| ProtocolSafety.TryAdoptSafe | src/worker/pipeline/import_pipeline.cpp:328-353 | adoption keeps the job safe, marks the row only if its message is there, stops only on two matches, and finds every message when folders can be read |
| ProtocolSafety.ImportFailureSafe | src/worker/pipeline/import_pipeline.cpp:261-325 | a failed import, through the circuit breaker and the fallback, keeps at most one message per row in its target and counts the row's outcome once |
| ImportPipeline.PipelineRun.Run | src/worker/pipeline/import_pipeline.cpp:107-170 | the imperative run reaches exactly the state and the ending of the protocol, for all answers; a database that cannot be read ends it untouched before the first row or as a database error after the last, and otherwise the counters are those of the tables |
| ImportPipeline.PipelineRun.ProcessRow | src/worker/pipeline/import_pipeline.cpp:181-326 | one row computes its protocol step, including the logged states in between |
| ImportPipeline.PipelineRun.ImportRow | src/worker/pipeline/import_pipeline.cpp:239-325 | importing a read file computes its protocol step: target folder, import, read failure, circuit breaker, fallback |
| ImportPipeline.PipelineRun.RecordFallback | src/worker/pipeline/import_pipeline.cpp:289-325 | saving and recording the fallback computes its protocol step |
| ImportPipeline.PipelineRun.TryAdoptExisting | src/worker/pipeline/import_pipeline.cpp:328-353 | adoption through the per-folder index computes its protocol step |
| ImportPipeline.PipelineRun.EnsureTargetFolder | src/worker/pipeline/import_pipeline.cpp:355-365 | the folder cache, the folder chain and the recorded entry id compute their protocol step |
| ImportPipeline.PipelineRun.FinishRow | src/worker/pipeline/import_pipeline.cpp:141-154 | counting, committing a full batch or rolling it back, and reporting, with the whole new state |
| ImportPipeline.PipelineRun.ProcessRows | src/worker/pipeline/import_pipeline.cpp:119-155 | the row loop equals the recursive loop of the protocol and leaves exactly the batch that is still open |
| ImportPipeline.Transaction.Destroy | src/worker/resume/sqlite_util.cpp:357-363 | an active, uncommitted transaction restores the committed tables; any other leaves everything alone |
| ImportPipeline.Transaction.Commit | src/worker/resume/sqlite_util.cpp:395-405 | commit publishes the working tables once, and fails without effect on an inactive transaction or a refused commit |
| ImportPipeline.StateDb.SetFolderEntryId | src/worker/resume/state_db.cpp:433-447 | every folder row with the target gets the entry id, no other changes, durable at once outside a transaction |
| ImportPipeline.StateDb.CountByStatus | src/worker/resume/state_db.cpp:477-505 | the five counters are the numbers of rows with their status, unless the query fails |
| Validation.ValidatePst | src/worker/validation/validator.cpp:19-153 | reports exactly the issues of the independent definition, fails if and only if there is one, and is VALIDATED_WITH_FALLBACKS otherwise exactly when some row is PRESERVED_AS_ATTACHMENT |
| Validation.ExpectedCounts | src/worker/validation/validator.cpp:28-49 | expected folders and counts are those with imported or preserved rows, and the opened ones with zero |
| Validation.CheckExpectations | src/worker/validation/validator.cpp:60-74 | reports exactly the missing folders and the wrong counts |
| Validation.VerifyFolder | src/worker/validation/validator.cpp:89-141 | reports exactly the untracked messages and, for every row, a missing, duplicate, differing or attachment-less message |
| ValidationProofs.PassedMeansExact | src/worker/validation/validator.cpp:59-143 | if nothing is reported, then in every folder with imported or preserved rows the messages and rows correspond one to one by path and all are of this run, although no check looks at other runs' messages |
| ValidationExact.PassesExactly | src/worker/validation/validator.cpp:23-143 | for any tables and any view nothing is reported if and only if every folder that rows belong in or that was opened is listed with as many messages as rows, and where there are rows it can be read, no message lacks a run id, and each row has exactly one message of this run with its path, with no other digest and, if it is preserved, in the errors folder with its attachment |
| ValidationExact.SpotlessIsThere | src/worker/validation/validator.cpp:105-139 | a row's matches give no issue if and only if exactly one message matches and is good |
| JobValidation.PassesExactlyWhenNothingLost | src/worker/validation/validator.cpp:23-151 | the PST of a finished job passes if and only if no IMPORTED row has another digest than its message, and no fallback is lost in it or nothing makes validation look at the errors folder |
| JobValidation.CompletedJobValidates | src/worker/validation/validator.cpp:23-151 | over any history whose last run completes: nothing is reported if and only if no run started with a PENDING row whose own message has another digest than the row, and none with a lost fallback, or the errors folder is not expected |
| JobValidation.StableJobValidates | src/worker/validation/validator.cpp:23-151 | if every path has one digest in all runs, only a lost fallback can make a completed job fail |
| JobValidation.LostOnlyByCuts | src/worker/pipeline/import_pipeline.cpp:282-308 | a completed job has lost no fallback if and only if none of its runs started with one lost |
| JobValidation.CountsAgree | src/worker/validation/validator.cpp:60-74 | the message count of a folder is the expected one, except in the errors folder after a lost fallback |
| WorkerApp.RunWorker | src/worker/app/worker_app.cpp:382-486 | run, validation through a fresh session and the decision give the documented exit code of the ending, the tables and the view; a database that cannot be read is an incompatible one |
| WorkerApp.SuccessMeansConverted | src/worker/app/worker_app.cpp:419-485 | if the worker reports success then, whatever happened in all runs, every manifest file is IMPORTED, and in every planned folder the messages are exactly the files whose directory is planned into it, each once |
| WorkerApp.SuccessExactlyWhen | src/worker/app/worker_app.cpp:468-485 | a completed run is a success if and only if every row is IMPORTED, no run started with a PENDING row whose message has another digest, and none with a lost fallback that validation looks for |
| WorkerApp.RunFatals | src/worker/pipeline/import_pipeline.cpp:181-326 | a run never stops fatally with a code that claims success |
| JobSetup.StartJob | src/worker/app/worker_app.cpp:233-360 | a new job exists unless a path is listed twice or lies too deep; every row is pending and targets the planned folder of its directory |
| JobSetup.CreateNew | src/worker/resume/state_db.cpp:122-194 | all rows are created or, if a path repeats or the lists differ in length, none |
| JobSetup.RecordFolders | src/worker/app/worker_app.cpp:341-354 | the folder map has one unopened row per planned folder; no upsert ever replaces one |
| JobSetup.ParentDirExactly | src/worker/app/worker_app.cpp:98-101 | directory, separator and a name without one are the path, or there is no separator and no directory |
| JobSetup.ParentDirOf | src/worker/app/worker_app.cpp:98-101 | the part before the last separator, or nothing |
| WorkerPlan.PlanTargets | src/worker/app/worker_app.cpp:233-267 | planning fails only for a path that is too deep: the error for an unplanned folder is unreachable, and every directory gets its planned target |
| WorkerPlan.SharedExactly | src/worker/app/worker_app.cpp:242-267 | two directories share a PST folder if and only if they are equal without containers (up to case when merging), and splitting a joined target gives it back |
| WorkerPlan.IndexTargets | src/worker/app/worker_app.cpp:256-259 | the map from logical path to joined target is total and exact on the plan |
| ResumeGate.GateIsExact | src/worker/resume/state_db.cpp:260-288 | resuming is accepted if and only if the stored job is the requested one, and a changed source is reported if and only if nothing but the manifest hash differs |
| ResumeGate.ResumedManifestIsTheSame | src/worker/app/worker_app.cpp:289-305 | an accepted resume has the manifest of the created job entry by entry if no path embeds a record, unless two manifest texts collide under SHA-256 |
| ResumeGate.HashManifest | src/worker/app/worker_app.cpp:225-231 | hashing line by line gives the digest of the whole manifest text |
| ResumeGate.ToHexLower | src/common/hashing/sha256.cpp:13-21 | the hexadecimal text of the bytes |
| ResumeGate.HexAt | src/common/hashing/sha256.cpp:13-21 | each byte is two digits in lower case, the high half first |
| ResumeGate.HexInjective | src/common/hashing/sha256.cpp:13-21 | different bytes have different texts |
| FolderPlanner.BuildFolderPlan | src/worker/folder_mapping/folder_mapper.cpp:227-299 | fails exactly for a path that is too deep; otherwise every ancestor prefix of every directory is placed exactly once, with Root Messages exactly when the root has mail, as an injective tree embedding in which every name is given in turn |
| FolderNaming.NameIsFirstFree | src/worker/folder_mapping/folder_mapper.cpp:168-196 | in every plan a folder has the k-th name tried for its source if and only if no earlier sibling has that name and earlier siblings have all those before it, up to case; earlier is the order of the source names without case, then exactly |
| FolderNaming.KeepsBaseExactly | src/worker/folder_mapping/folder_mapper.cpp:187-196 | a folder keeps its normalized name if and only if no earlier sibling has it |
| FolderNaming.PlainNameKeptExactly | src/worker/folder_mapping/folder_mapper.cpp:183-196 | told from the sources alone: a folder whose normalized name does not end in a parenthesis keeps it if and only if no earlier sibling has the same normalized name up to case |
| FolderNaming.SuffixedNameIsTaken | src/worker/folder_mapping/folder_mapper.cpp:187-196 | of the directories A, a and `a (2)` the last is renamed although no sibling has its normalized name |
| FolderPlan.NodeLessEqExactly | src/worker/folder_mapping/folder_mapper.cpp:175-179 | the comparison is by the first different character without case, then exactly |
| FolderPlanner.TargetsAreInjective | src/worker/folder_mapping/folder_mapper.cpp:181-209 | different sources never share a target, even ignoring ASCII case |
| FolderPlanner.ParentsComeFirst | src/worker/folder_mapping/folder_mapper.cpp:290-296 | a child's target extends its parent's by one name, and the parent comes first in the output |
| FolderPlanner.TargetsAreClean | src/worker/folder_mapping/folder_mapper.cpp:208-211 | targets are nonempty and no name in them contains a separator |
| FolderPlanner.CloseAncestors | src/worker/folder_mapping/folder_mapper.cpp:228-245 | fails exactly for a path that is too deep; otherwise the needed directories are exactly the nonempty prefixes of the given ones |
| FolderPlanner.BuildTrie | src/worker/folder_mapping/folder_mapper.cpp:247-254 | the trie has exactly the needed paths, in whatever order they are inserted |
| FolderPlanner.SortOutput | src/worker/folder_mapping/folder_mapper.cpp:290-296 | the output is sorted by target path and has the same folders |
| FolderTrie.InsertAddsPrefixes | src/worker/folder_mapping/folder_mapper.cpp:149-157 | inserting a path adds its prefixes and nothing else |
| FolderPlan.PlaceTrie | src/worker/folder_mapping/folder_mapper.cpp:261-288 | breadth-first processing places every path of the trie and nothing else, as an injective tree embedding, with every name given in turn |
| FolderPlan.TakeGroup | src/worker/folder_mapping/folder_mapper.cpp:274-286 | the front entries with equal parent source are exactly one parent's children |
| FolderPlan.ProcessSiblingGroup | src/worker/folder_mapping/folder_mapper.cpp:168-223 | siblings are named in order, each by the first name free among those given before, placed below their parent, and their children queued |
| FolderPlan.SortSiblings | src/worker/folder_mapping/folder_mapper.cpp:175-179 | case-insensitive order with exact tie-break, the same siblings |
| FolderNames.ResolveCollision | src/worker/folder_mapping/folder_mapper.cpp:187-196 | the least free suffix is found after at most one more try than there are names in use |
| FolderNames.CollisionsAreBounded | src/worker/folder_mapping/folder_mapper.cpp:190-196 | with n names in use at most n candidates collide, so the search ends |
| FolderNames.CandidatesDiffer | src/worker/folder_mapping/folder_mapper.cpp:190-196 | the candidates differ pairwise even up to case |
| FolderNames.NormalizeFixesNormal | src/worker/folder_mapping/folder_mapper.cpp:103-138 | normalization changes a name if and only if it is not normal |
| FolderNames.NormalizedExactly | src/worker/folder_mapping/folder_mapper.cpp:103-138 | the whole result: what is left without blanks and periods at the end, its control characters replaced; an underscore if nothing is left; the first 100 characters, a tilde and the hash if more than 120 are |
| FolderNames.HashOfA | src/worker/folder_mapping/folder_mapper.cpp:51-62 | the hash is 32-bit FNV-1a over four bytes a character: the published value for the first byte of `a`, and the value for the name |
| FolderNames.NormalizedIsNormal | src/worker/folder_mapping/folder_mapper.cpp:103-138 | its result is always normal and contains no separator the name did not have |
| FolderCollapse.BuildCollapseMap | src/worker/folder_mapping/folder_collapse.cpp:119-149 | every directory is mapped to its logical path, which depends only on the set of directories |
| FolderCollapse.CollapseKernel | src/worker/folder_mapping/folder_collapse.cpp:119-149 | two directories get one logical path if and only if their components without containers are equal, up to case when merging |
| FolderCollapse.CollapseIgnoresOrder | src/worker/folder_mapping/folder_collapse.cpp:121-123 | the result does not depend on the order of the input |
| FolderCollapse.CollapseIsIdempotent | src/worker/folder_mapping/folder_collapse.cpp:119-149 | collapsing the outputs again changes nothing |
| FolderCollapse.SpellParts | src/worker/folder_mapping/folder_collapse.cpp:129-146 | the growing spelling map gives every component the first spelling of its folded prefix |
| ContainerRules.ContainersExactly | src/worker/folder_mapping/folder_collapse.cpp:19-104 | a folder is a container if and only if, with the built-in rules, the name it stands for is one of six up to case or it is itself of letters, digits, blanks and dashes with two dashes and six digits or more; or the name it stands for fits an extra pattern, with a star at the end for any rest |
| ContainerRules.SpelledByFirst | src/worker/folder_mapping/folder_collapse.cpp:119-149 | each component of a merged path is spelled as in the first directory in sorted order that starts alike up to case without its containers |
| ContainerNames.MarkIsDropped | src/worker/folder_mapping/folder_collapse.cpp:19-29 | a name with a duplicate marker stands for its base |
| ContainerNames.OnlyMarksAreDropped | src/worker/folder_mapping/folder_collapse.cpp:19-29 | and no other name is changed |
| ContainerNames.ContainersIgnoreCase | src/worker/folder_mapping/folder_collapse.cpp:92-104 | whether a folder is a container does not depend on case |
| ContainerNames.CaseVariantsMerge | src/worker/folder_mapping/folder_collapse.cpp:119-149 | directories that differ only in case always share a logical path when merging, containers included |
| FolderLayout.DescribeCollapseOptions | src/worker/folder_mapping/folder_collapse.cpp:106-117 | the text of the flags and of the lowered patterns in sorted order |
| FolderLayout.LayoutSpelled | src/worker/folder_mapping/folder_collapse.cpp:106-117 | the text, literally, of two flags and two patterns |
| FolderLayout.LayoutDecides | src/worker/folder_mapping/folder_collapse.cpp:106-117 | against options without the mark `;extra=` in a pattern, another text is equal and its options free of the mark if and only if both are the same up to order and case of the patterns |
| FolderLayout.LayoutIsSharedExactly | src/worker/folder_mapping/folder_collapse.cpp:106-117 | some other options have the same text if and only if there are two or more patterns (which could be one with marks inside) or a single one that a mark cuts into two in order |
| FolderLayout.SameOptionsPlanAlike | src/worker/folder_mapping/folder_collapse.cpp:119-149 | such options give every directory the same logical path |
| FolderLayout.MarkIsAmbiguous | src/worker/folder_mapping/folder_collapse.cpp:106-117 | with the mark in a pattern, options with different containers can have one text |
| Text.SplitSegments | src/worker/pipeline/import_pipeline.cpp:22-38 | the nonempty parts between separators; the planner and the collapser split alike |
| Text.SplitAtSeparator | src/worker/pipeline/import_pipeline.cpp:22-38 | a separator splits a path in two, whatever is on its sides |
| Text.SplitJoin | src/worker/app/worker_app.cpp:89-96 | splitting the join of clean parts gives them back |
| Text.JoinInjective | src/worker/folder_mapping/folder_mapper.cpp:90-97 | different lists of clean parts have different joins |
| PathOrder.LessEqExactly | src/worker/folder_mapping/folder_collapse.cpp:121-123 | the order of strings is that of their first different character, or of their lengths |
| PathOrder.SortPaths | src/worker/folder_mapping/folder_collapse.cpp:121-123 | sorted, with the same elements as often |
| EmlNormalizer.NormalizeEmlHeader | src/worker/normalize/eml_normalizer.cpp:28-117 | the scanner computes the repair that the walk over lines defines, with its flags |
| EmlNormalizer.WalkHeader | src/worker/normalize/eml_normalizer.cpp:44-91 | the position-driven loop rebuilds exactly the lines of the walk |
| EmlNormalizer.IsHeaderLikeLine | src/worker/normalize/eml_normalizer.cpp:9-20 | a continuation, or a printable name before a colon |
| RepairGrammar.PartsDecideRepair | src/worker/normalize/eml_normalizer.cpp:28-117 | for every message: how its bytes split into a BOM, header lines with their breaks and an ending (a blank line, a line that does not belong, or nothing) decides the rewritten header, its original length, whether a separator is inserted, and every repair reported, in order |
| RepairGrammar.EveryTextParses | src/worker/normalize/eml_normalizer.cpp:44-91 | every text splits so |
| RepairGrammar.HeaderLikeExactly | src/worker/normalize/eml_normalizer.cpp:9-20 | told on bytes: a line that starts with 0x20 or 0x09, or one with 0x3A somewhere behind the first byte and only bytes 33 to 126 without 0x3A before it |
| RepairGrammar.BoundaryGuessedExactly | src/worker/normalize/eml_normalizer.cpp:66-78 | a boundary is guessed if and only if, behind lines that belong to the header, there is a nonempty line without NUL that is not of that form |
| RepairGrammar.WellFormedIsKept | src/worker/normalize/eml_normalizer.cpp:28-117 | any list of fields (a name of bytes 33 to 126 without colon, a body, continuation lines) written with CRLF and ended by a blank line is left alone whatever follows: unchanged, no separator inserted, originalBytes its length; a BOM before it is removed and nothing else |
| RepairProofs.RepairConservesContent | src/worker/normalize/eml_normalizer.cpp:28-117 | for every input, the consumed header after a BOM and the rewritten one have the same bytes but for CR, LF and NUL |
| RepairProofs.UnchangedIsIdentical | src/worker/normalize/eml_normalizer.cpp:93-117 | if nothing is reported changed the header is byte-identical |
| RepairReading.RepairIsFixedExactly | src/worker/normalize/eml_normalizer.cpp:28-117 | repairing the repaired message changes nothing and consumes exactly the rewritten header, if and only if every kept line is a header line without its NUL bytes |
| RepairReading.RepairKeepsReadingExactly | src/worker/headers/header_inspector.cpp:102-242 | the fields read after repair are those read before, or the first of them where a boundary was guessed, the separator ends the rewritten header and nothing is malformed, if and only if every kept line can be read without its NUL bytes and none uncovers a BOM |
| RepairReading.NulFreeIsSafe | src/worker/normalize/eml_normalizer.cpp:66-89 | a header without NUL bytes always meets both conditions |
| RepairReading.NulLineEndsTheHeader | src/worker/normalize/eml_normalizer.cpp:70-89 | a line of NUL bytes before a field meets neither |
| RepairReading.ReadOriginal | src/worker/headers/header_inspector.cpp:121-226 | the inspector reads exactly the fields of the lines that repair keeps, or starts with them where a boundary is guessed |
| HeaderRoundTrip.ReadBack | src/worker/headers/header_inspector.cpp:102-242 | a written header section is read back, whatever follows it: the fields in order with exactly their names, each value the nonempty texts of its lines with single spaces between, the separator and the length; lines without a colon are reported and end the field before them, and continuation lines without a field are ignored |
| HeaderReasons.InspectionIsTold | src/worker/headers/header_inspector.cpp:102-242 | for every message, told from its bytes: whether the separator is found and where, each reason reported once and exactly if a line or break before the end gives it, and malformed exactly if one other than the BOM is |
| HeaderInspector.InspectHeaders | src/worker/headers/header_inspector.cpp:102-242 | the scanner computes the reading that lines define, with deduplicated reasons and the malformed flag |
| HeaderInspector.Trim | src/worker/headers/header_inspector.cpp:28-34 | blanks are removed at both ends |
| Sha256.Hasher.Update | src/common/hashing/sha256_portable.cpp:122-125 | absorbs the bytes and keeps the bit length modulo 2^64 |
| Sha256.Hasher.Absorb | src/common/hashing/sha256_portable.cpp:108-120 | state and buffer are the hash of the complete blocks and the rest, for any chunk length |
| Sha256.Hasher.ProcessBlock | src/common/hashing/sha256_portable.cpp:60-103 | one compression as section 6.2.2 of FIPS 180-4 defines it |
| Sha256.Hasher.Schedule | src/common/hashing/sha256_portable.cpp:61-72 | the 64 words of the message schedule, as section 6.2.2 of FIPS 180-4 defines them |
| Sha256Bits.ChBits | src/common/hashing/sha256_portable.cpp:79 | each bit of Ch is that of y where x has a one and that of z elsewhere |
| Sha256Bits.MajBits | src/common/hashing/sha256_portable.cpp:82 | each bit of Maj is the majority |
| Sha256Bits.BigSigma0Bits | src/common/hashing/sha256_portable.cpp:81 | bit k is the sum modulo 2 of the bits k + 2, k + 13 and k + 22, in a circle |
| Sha256Bits.BigSigma1Bits | src/common/hashing/sha256_portable.cpp:78 | likewise with 6, 11 and 25 |
| Sha256Bits.SmallSigma0Bits | src/common/hashing/sha256_portable.cpp:69 | likewise with 7 and 18, and bit k + 3 if there is one |
| Sha256Bits.SmallSigma1Bits | src/common/hashing/sha256_portable.cpp:70 | likewise with 17 and 19, and bit k + 10 if there is one |
| Sha256Constants.RoundConstantsAreRoots | src/common/hashing/sha256_portable.cpp:26-35 | each round constant is the first 32 bits of the fraction of the cube root of its prime |
| Sha256Constants.InitialValuesAreRoots | src/common/hashing/sha256_portable.cpp:50-57 | each initial value likewise by the square root |
| Sha256Constants.PrimesAreThePrimes | src/common/hashing/sha256_portable.cpp:26-35 | those primes are the first 64, in order, with none between |
| Sha256Example.DigestOfAbc | src/common/hashing/sha256_portable.cpp:60-151 | the digest of `abc` is the published one, byte by byte |
| Sha256.Hasher.Pad | src/common/hashing/sha256_portable.cpp:130-135 | the padding loop ends after the least number of zero bytes |
| Sha256.Hasher.Finish | src/common/hashing/sha256_portable.cpp:127-151 | the digest of the padded message |
| Sha256.DigestOfChunks | src/common/hashing/sha256_portable.cpp:184-197 | however a stream is cut into chunks, its digest is that of the whole |
| Sha256.PaddingFillsBlocks | src/common/hashing/sha256_portable.cpp:130-141 | padding fills whole blocks with less than a block of zero bytes |
| Sha256.PaddingIsInjective | src/common/hashing/sha256_portable.cpp:130-141 | messages short of 2^61 bytes are told apart by their padded forms |
| Calendar.CivilUndoesDays | src/worker/reporting/report.cpp:80-91 | civil_from_days undoes days_from_civil on every date of the proleptic Gregorian calendar |
| Calendar.DaysUndoCivil | src/worker/dates/date_parser.cpp:137-144 | days_from_civil undoes civil_from_days on every day, through a valid date |
| Calendar.DaysUnwrapped | src/worker/dates/date_parser.cpp:137-144 | the day of the year, the year of the era and the day of the era are within the ranges the code states, so nothing wraps in spite of the -3 in unsigned arithmetic, and the sum is the plain one |
| Calendar.DateUnwrapped | src/worker/reporting/report.cpp:80-91 | nor in the inverse, in spite of the wrapping -9: day of the era, year, day of the year, month index, month and day are within their stated ranges |
| Calendar.TomorrowIsOneMore | src/worker/dates/date_parser.cpp:124-144 | the count is 0 on 1970-01-01 and grows by one from each date to the next, with months as long as days_in_month says |
| Calendar.MonthsDiffer | src/worker/dates/date_parser.cpp:128-144 | consecutive months, December and January too, differ by the length of the first |
| Dates.ParseRfc5322Date | src/worker/dates/date_parser.cpp:223-271 | comments are stripped, tokens cut, and fields read as their definitions say |
| Dates.StripComments | src/worker/dates/date_parser.cpp:31-55 | the text outside nested comments, with quoted pairs inside them |
| Dates.Tokenize | src/worker/dates/date_parser.cpp:61-71 | the maximal runs without white space |
| Dates.ParseDigits | src/worker/dates/date_parser.cpp:75-84 | the decimal value of a text of digits within its length bounds, otherwise nothing |
| Dates.CanonicalReads | src/worker/dates/date_parser.cpp:223-271 | a date in the form of section 3.3 of RFC 5322 is parsed to the instant it names, with its zone, leap second clamped |
| DateForms.WrittenReads | src/worker/dates/date_parser.cpp:85-271 | a date in any form of sections 3.3 and 4.3 of RFC 5322 is parsed to the instant it names: years of two digits from 1950 to 2049 and of three from 1900, one-digit days, long and mixed-case month names, no seconds, no zone, named zones in any case, single letters as UTC |
| DateForms.EpochIsExact | src/common/model.h:17-21 | the ticks count from the start of 1601, ten million a second |
| Dates.CommentIsSkipped | src/worker/dates/date_parser.cpp:31-55 | a comment is skipped, with the comments and quoted pairs in it |
| Dates.CommentedReads | src/worker/dates/date_parser.cpp:223-271 | a canonical date with a comment behind it, as mailers add the zone name, is parsed to the same instant |
| Dates.EveryParsedDateFits | src/worker/dates/date_parser.cpp:223-271 | whatever text is accepted, the time fits 64 bits and is printed exactly, also before 1970 |
| Dates.ParsedPrintsTheSameInstant | src/worker/reporting/report.cpp:102-116 | parsing such a date and printing it gives the same instant in UTC, and no product or sum leaves 64 bits |
| Dates.PrintedFieldsAreExact | src/worker/reporting/report.cpp:102-116 | the printed date and clock of any second name that second |
| DateForms.IsoShows | src/worker/reporting/report.cpp:102-116 | in years of four digits the text is year, month, day and clock in this order, at full width |
| Dates.IsoTellsSecondsApart | src/worker/reporting/report.cpp:102-116 | different seconds are printed differently |
| Dates.IsoNamesTheSecond | src/worker/reporting/report.cpp:102-116 | the second a tick lies in is printed if and only if the tick is not before 1970 or on a whole second |
| Dates.LastTickOf1969 | src/worker/reporting/report.cpp:102-116 | one tick before 1970 is printed as 1970 |
| Dates.Iso8601FromFileTime | src/worker/reporting/report.cpp:93-116 | the text of the second that truncating division gives |
| Utf.Utf8FromWide | src/common/unicode/utf.cpp:60-98 | valid UTF-8 of the scalar values, with unpaired surrogates replaced |
| Utf.WideFromUtf8 | src/common/unicode/utf.cpp:100-179 | a well-formed wide string of what the bytes are read as, one replacement per maximal malformed run |
| Utf.WideRoundTrip | src/common/unicode/utf.cpp:60-179 | a wide string survives encoding and decoding if and only if it is well-formed |
| Utf.ByteRoundTrip | src/common/unicode/utf.cpp:60-179 | bytes survive decoding and encoding if and only if they are valid UTF-8 |
| UtfLayout.LayoutOfUtf8 | src/common/unicode/utf.cpp:23-39 | the layout of section 3 of RFC 3629: number and ranges of the bytes, and the code point from their free bits |
| UtfLayout.LayoutOfUtf16 | src/common/unicode/utf.cpp:42-56 | the layout of section 2 of RFC 2781: one unit, or a high and a low surrogate that give the code point |
| UtfLayout.PublishedExamples | src/common/unicode/utf.cpp:23-56 | the examples of section 7 of RFC 3629 and section 5 of RFC 2781 |
| Utf.Utf8ReadsBack | src/common/unicode/utf.cpp:100-179 | a valid front is read as it is, whatever follows it |
| Manifest.SerializeManifest | src/worker/scanner/manifest_hash.cpp:61-72 | one line per entry, in order, together the manifest text |
| Manifest.WstringToUtf8 | src/worker/scanner/manifest_hash.cpp:35-55 | the bytes of the code points, unpaired surrogates kept |
| Manifest.DecimalReads | src/worker/scanner/manifest_hash.cpp:61-72 | the digits of a number have its value, the most significant first, with no leading zero |
| Manifest.LineOfA | src/worker/scanner/manifest_hash.cpp:61-72 | one line, byte by byte |
| Manifest.TextIsUnambiguous | src/worker/scanner/manifest_hash.cpp:61-72 | manifests of paths that embed no record (a separator, a size, a separator, a time and a newline) have one text only if they are equal in path, size and time, even when paths contain separators and newlines |
| Manifest.TextIsSharedExactly | src/worker/scanner/manifest_hash.cpp:61-72 | some other manifest has the same text if and only if there are two or more entries (which could be one whose path embeds the record of the first) or a single one whose path embeds a record |
| Manifest.NewlineFreeIsRecordFree | src/worker/scanner/manifest_hash.cpp:61-72 | paths without newlines embed no record |
| Manifest.NewlineAloneIsHarmless | src/worker/scanner/manifest_hash.cpp:61-72 | a path with a newline and no numbers before it shares its text with no other manifest |
| Manifest.NewlineIsAmbiguous | src/worker/scanner/manifest_hash.cpp:61-72 | with a newline in a path two manifests can have one text |

## Left out

- MAPI, COM, the registry, the launcher and everything behind them: only what a session does to folders and messages is modelled.
- The two attempts of a real import and the deletion of a message that fails its integrity check: one atomic step that saves or does not.
- SQLite: statements, write-ahead log and busy handling. A failed row update is not modelled; the code ignores the result.
- Clocks, timestamps, the errors CSV, the log, warnings, rename records and the job status text.
- Reading files and traversing directories: their outcomes are answers of the environment.
- The metadata and date fallbacks that accompany a message; only its path, run id, digest and attachment flag are tracked.
- Validation.ValidatePst: says which issues are reported, not their order, which follows map iteration, nor how often; `messages_checked` is not modelled, since nothing decides on it.
- The trie's pointers: nodes are values, so that aliasing is not modelled; the queue and the loops are kept.
- FolderNaming.NameIsFirstFree: leaves open which of "Root Messages" and a directory of that name comes first; they compare equal, and the sort is not stable.
- Case folding and alphanumeric tests beyond ASCII, which belong to the C library.
- The order of strings is that of code points; on Windows it is that of 16-bit units, which differs only for characters beyond U+FFFF.
- Wide characters of 32 bits, as on Linux, and the other copies of the UTF-8 encoder.
- Shifts and masks of the encoders are written as division and remainder by powers of two; the hash works on machine words.
- The accessors of an inspection (first value of a field and the like), the bounded date check and the alias tables: single steps that would only add easy members.
- SHA-256 collision resistance is an explicit hypothesis where the manifest hash is used.
- ImportPipeline.PipelineRun.Run: asks that splitting and joining a target path gives it back; JobSetup.StartJob proves this of every planned target.
