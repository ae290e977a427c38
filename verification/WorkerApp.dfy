/** The worker: one run of a job, the validation after it, and the exit code it reports. */
module WorkerApp {
  import opened Wrappers
  import opened FolderCollapse
  import opened FolderPlan
  import opened WorkerPlan
  import opened JobSetup
  import opened Store
  import opened ImportProtocol
  import opened ProtocolSafety
  import opened RunSafety
  import opened History
  import opened DigestClashes
  import opened Validation
  import opened ValidationProofs
  import opened JobValidation
  import opened ImportPipeline

  ghost predicate AnyHas(files: seq<FileRow>, status: Status) {
    exists i :: 0 <= i < |files| && files[i].status == status
  }

  /** The exit code the design documents for a run that ended this way and left these tables; `view` is
      what the validation session shows, if it could be opened. */
  ghost function ExitOf(ending: Ending, db: Tables, view: Option<PstView>, runId: string): ExitCode {
    match ending
    case DatabaseError => StateDbIncompatible
    case WasFatal(code) => code
    case WasCancelled => Cancelled
    case Completed =>
      if view.None? || exists issue :: IsIssue(db, view.value, runId, issue) then ExitCode.ValidationFailed
      else if AnyHas(db.files, FailedMapi) then OutputWriteFailure
      else if AnyHas(db.files, FailedSourceRead) then SuccessWithReadFailures
      else if AnyHas(db.files, PreservedAsAttachment) then SuccessWithFallbacks
      else Success
  }

  lemma {:induction false} CountsSome(files: seq<FileRow>, status: Status)
    ensures CountStatus(files, status) > 0 <==> AnyHas(files, status)
  {
    if files != [] {
      CountsSome(files[1..], status);
      if AnyHas(files[1..], status) {
        var i :| 0 <= i < |files[1..]| && files[1..][i].status == status;
        assert files[i + 1].status == status;
      }
    }
  }

  /** Runs the pipeline, validates through a fresh session, and decides the exit code. */
  method RunWorker(cfg: Config, db: StateDb, session: PstSession, env: nat -> Answers, loadOk: bool,
                   lastCommitOk: bool, countOk: bool, show: Pst -> Option<PstView>)
    returns (code: ExitCode, outcome: Option<Outcome>)
    requires !db.inTransaction && db.working == db.committed
    requires forall k :: 0 <= k < |db.working.files| ==> Canonical(db.working.files[k].target)
    modifies db, session
    ensures !db.inTransaction
    ensures !loadOk ==> session.pst == old(session.pst) && db.committed == old(db.committed) && db.working == old(db.working)
    ensures loadOk ==> var (r, ending) := Execute(cfg, old(session.pst), old(db.working), env, lastCommitOk);
      && session.pst == r.pst && db.committed == r.committed && db.working == r.working
      && code == ExitOf(if countOk then ending else DatabaseError, r.working, show(r.pst), cfg.runId)
    ensures !loadOk ==> code == StateDbIncompatible
  {
    hide Canonical, Execute, IsIssue;
    outcome := None;
    var run := new PipelineRun(cfg, db, session);
    var ending, counters := run.Run(env, loadOk, lastCommitOk, countOk);
    assert db.working == run.State().working && session.pst == run.State().pst && db.committed == run.State().committed;
    match ending {
      case DatabaseError => return StateDbIncompatible, None;
      case WasFatal(fatal) => return fatal, None;
      case WasCancelled => return Cancelled, None;
      case Completed =>
    }
    var view := show(session.pst);
    if view.None? {
      return ExitCode.ValidationFailed, None;
    }
    var validated := ValidatePst(db.working, view.value, cfg.runId);
    outcome := Some(validated);
    CountsSome(db.working.files, FailedMapi);
    CountsSome(db.working.files, FailedSourceRead);
    CountsSome(db.working.files, PreservedAsAttachment);
    code := if validated.status.ValidationFailed? then ExitCode.ValidationFailed
            else if counters.failedMapi > 0 then OutputWriteFailure
            else if counters.failedRead > 0 then SuccessWithReadFailures
            else if counters.preserved > 0 then SuccessWithFallbacks
            else Success;
  }

  predicate IsFatalCode(fatal: Option<ExitCode>) {
    fatal.Some? ==> fatal.value == OutputWriteFailure || fatal.value == ResumeIntegrityError
  }

  lemma RowFatals(c: Config, r: Run, i: nat, row: FileRow, a: Answers)
    requires i < |r.working.files|
    ensures IsFatalCode(ProcessRow(c, r, i, row, a).1)
  {
    hide EnsureFolder, Saw, Indexed, Deliver, AdoptIndexed;
  }

  /** A run never stops with a code that claims success. */
  lemma {:induction false} RunFatals(c: Config, r: Run, rows: seq<FileRow>, k: nat, env: nat -> Answers)
    requires k <= |rows| == |r.working.files|
    ensures var ending := Rows(c, r, rows, k, env).1; ending.WasFatal? ==> IsFatalCode(Some(ending.code))
    decreases |rows| - k
  {
    hide ProcessRow;
    if k == |rows| {
    } else if rows[k].status != Pending {
      RunFatals(c, r, rows, k + 1, env);
    } else if env(k).cancelled || (!r.batchOpen && !env(k).beginOk) {
    } else {
      RowFatals(c, BeginBatch(r), k, rows[k], env(k));
      var (r1, fatal) := ProcessRow(c, BeginBatch(r), k, rows[k], env(k));
      if fatal.None? {
        var r2 := Counted(r1);
        if r2.batchRows < c.batchSize {
          RunFatals(c, Report(r2, |rows|), rows, k + 1, env);
        } else if env(k).commitOk {
          RunFatals(c, Report(Commit(r2), |rows|), rows, k + 1, env);
        }
      }
    }
  }

  /** What a session shows of a PST is true, though it may not list every folder or read every one. */
  ghost predicate ShowsTruly(view: PstView, pst: Pst) {
    forall info :: info in view.folders ==>
      && info.path in pst && info.messageCount == |pst[info.path]|
      && (view.read(info.path).Readable? ==> view.read(info.path).messages == pst[info.path])
  }

  /** What the worker reports after a history of runs whose last one was not cut. */
  ghost function Reported(c: Config, plan: seq<FileRow>, folders: seq<FolderRow>, attempts: seq<Attempt>,
                          last: Attempt, view: Option<PstView>): ExitCode {
    var before := After(c, Created(plan, folders), attempts);
    var (r, ending) := Attempted(RunConfig(c, |attempts|), before, last);
    ExitOf(ending, r.working, view, c.runId)
  }

  ghost predicate EndsUncut(c: Config, plan: seq<FileRow>, folders: seq<FolderRow>, attempts: seq<Attempt>,
                            last: Attempt, view: PstView) {
    && last.cut.None? && ShowsTruly(view, After(c, Created(plan, folders), attempts + [last]).pst)
  }

  /** A reported success: the run completed, nothing is wrong, and every row is IMPORTED. */
  lemma {:induction false} SuccessIsImported(c: Config, plan: seq<FileRow>, folders: seq<FolderRow>,
                                             attempts: seq<Attempt>, last: Attempt, view: PstView)
    requires NewJob(plan, folders) && EndsUncut(c, plan, folders, attempts, last, view)
    requires Reported(c, plan, folders, attempts, last, Some(view)) == Success
    ensures var d := After(c, Created(plan, folders), attempts + [last]);
      && SamePlan(plan, d.db.files)
      && (forall issue :: !IsIssue(d.db, view, c.runId, issue))
      && forall i :: 0 <= i < |plan| ==> d.db.files[i].status == Imported
  {
    hide IsIssue, Canonical, ShowsTruly, Rows, RowSafe, OnlyOurs, AttemptFits, LossBounded, LogMonotone, UpdatesAddUp;
    var before := After(c, Created(plan, folders), attempts);
    var (r, ending) := Attempted(RunConfig(c, |attempts|), before, last);
    RunFatals(RunConfig(c, |attempts|), Start(before.pst, before.db), before.db.files, 0, last.env);
    LastRun(c, Created(plan, folders), attempts, last);
    RunAccounts(c, plan, folders, attempts, last);
    UnreliableFits(c, plan, folders, attempts + [last]);
    HistorySafe(Unreliable, c, plan, folders, attempts + [last]);
    assert r.working == r.committed by {
      UnreliableFits(c, plan, folders, attempts);
      HistorySafe(Unreliable, c, plan, folders, attempts);
      ExecuteSafe(NoSurplus(Unreliable), RunConfig(c, |attempts|), plan, before, last);
    }
    assert ending.Completed?;
    forall i | 0 <= i < |plan| ensures r.working.files[i].status == Imported {
      assert !AnyHas(r.working.files, FailedMapi);
      assert !AnyHas(r.working.files, FailedSourceRead);
      assert !AnyHas(r.working.files, PreservedAsAttachment);
    }
  }

  /** In every folder that a row of the plan names, the messages are those rows, one to one by path. */
  ghost predicate OneToOne(files: seq<FileRow>, pst: Pst, runId: string) {
    forall i :: 0 <= i < |files| ==>
      var folder := files[i].target;
      && folder in pst
      && multiset(MessagePaths(pst[folder])) == multiset(RowPaths(ImportedInto(files, folder)))
      && forall m :: m in pst[folder] ==> m.runId == runId
  }

  lemma PassedIsOneToOne(db: Tables, view: PstView, pst: Pst, runId: string)
    requires DistinctPaths(db.files) && ShowsTruly(view, pst)
    requires forall i :: 0 <= i < |db.files| ==> db.files[i].status == Imported
    requires forall issue :: !IsIssue(db, view, runId, issue)
    ensures OneToOne(db.files, pst, runId)
  {
    hide IsIssue, ImportedInto;
    NonePreserved(db.files);
    forall i | 0 <= i < |db.files|
      ensures var folder := db.files[i].target;
        && folder in pst
        && multiset(MessagePaths(pst[folder])) == multiset(RowPaths(ImportedInto(db.files, folder)))
        && forall m :: m in pst[folder] ==> m.runId == runId
    {
      var folder := db.files[i].target;
      InItsFolder(db.files, i);
      assert RowsOf(db.files, folder) == ImportedInto(db.files, folder);
      PassedMeansExact(db, view, runId, folder);
    }
  }

  lemma {:induction false} NonePreserved(files: seq<FileRow>)
    requires forall i :: 0 <= i < |files| ==> files[i].status == Imported
    ensures PreservedRows(files) == []
  {
    if files != [] {
      NonePreserved(files[..|files| - 1]);
    }
  }

  /** If the worker reports success, then whatever the environment did in this and all earlier runs,
      every file of the manifest is IMPORTED, and in each planned folder the messages are exactly the
      files whose directory is planned into it, each once. */
  lemma {:induction false} SuccessMeansConverted(entries: seq<ManifestEntry>, options: CollapseOptions,
                                                 sorted: seq<string>, placed: seq<Placed>,
                              tables: Tables, c: Config, attempts: seq<Attempt>, last: Attempt, view: PstView)
    requires JobFits(tables, entries, options, sorted, placed)
    requires EndsUncut(c, tables.files, tables.folders, attempts, last, view)
    requires Reported(c, tables.files, tables.folders, attempts, last, Some(view)) == Success
    ensures var d := After(c, Created(tables.files, tables.folders), attempts + [last]);
      && |d.db.files| == |entries| && OneToOne(d.db.files, d.pst, c.runId)
      && forall i :: 0 <= i < |entries| ==>
           && d.db.files[i].path == entries[i].path && d.db.files[i].status == Imported
           && PlacedAs(placed, PlanPath(LogicalParts(sorted, options, ParentDir(entries[i].path))), d.db.files[i].target)
  {
    hide IsIssue, ParentDir, LogicalParts, PlacedAs, PlanPath, Embeds, After, Reported, EndsUncut, Canonical, OneToOne, Created;
    SuccessIsImported(c, tables.files, tables.folders, attempts, last, view);
    var d := After(c, Created(tables.files, tables.folders), attempts + [last]);
    assert DistinctPaths(d.db.files);
    assert ShowsTruly(view, d.pst) by { UncutShows(c, tables.files, tables.folders, attempts, last, view); }
    PassedIsOneToOne(d.db, view, d.pst, c.runId);
  }

  lemma {:induction false} UncutShows(c: Config, plan: seq<FileRow>, folders: seq<FolderRow>, attempts: seq<Attempt>,
                                      last: Attempt, view: PstView)
    requires EndsUncut(c, plan, folders, attempts, last, view)
    ensures ShowsTruly(view, After(c, Created(plan, folders), attempts + [last]).pst)
  {
  }

  /** Conversely, with a PST shown completely, a completed run is reported as a success exactly when every
      row is IMPORTED, no run started with a PENDING row whose message has another digest, and none with
      a lost fallback that validation looks for. */
  lemma {:induction false} SuccessExactlyWhen(c: Config, plan: seq<FileRow>, folders: seq<FolderRow>,
                                              attempts: seq<Attempt>, last: Attempt, view: PstView)
    requires NewJob(plan, folders) && c.runId != "" && EndsCompleted(c, plan, folders, attempts, last)
    requires HistoryFits(ReadableFolders, c, plan, folders, attempts + [last])
    requires Shows(view, After(c, Created(plan, folders), attempts + [last]).pst)
    ensures var d := After(c, Created(plan, folders), attempts + [last]);
      Reported(c, plan, folders, attempts, last, Some(view)) == Success <==>
        && (forall i :: 0 <= i < |d.db.files| ==> d.db.files[i].status == Imported)
        && NoClashAtStart(c, plan, folders, attempts)
        && (NoneLostAtStart(c, plan, folders, attempts) || !IsExpected(d.db, CONVERSION_ERRORS))
  {
    hide IsIssue, NoneLostAtStart, NoClashAtStart, IsExpected, Shows, HistoryFits, Rows;
    CompletedJobValidates(c, plan, folders, attempts, last, view);
    var d := After(c, Created(plan, folders), attempts + [last]);
    LastRun(c, Created(plan, folders), attempts, last);
    RunAccounts(c, plan, folders, attempts, last);
    var before := After(c, Created(plan, folders), attempts);
    var (r, ending) := Attempted(RunConfig(c, |attempts|), before, last);
    assert r.working == r.committed by {
      UnreliableFits(c, plan, folders, attempts);
      HistorySafe(Unreliable, c, plan, folders, attempts);
      ExecuteSafe(NoSurplus(Unreliable), RunConfig(c, |attempts|), plan, before, last);
    }
    AllImported(d.db.files);
  }

  lemma AllImported(files: seq<FileRow>)
    requires forall i :: 0 <= i < |files| ==> files[i].status != Pending
    ensures (forall i :: 0 <= i < |files| ==> files[i].status == Imported)
      <==> !AnyHas(files, FailedMapi) && !AnyHas(files, FailedSourceRead) && !AnyHas(files, PreservedAsAttachment)
  {
  }
}
