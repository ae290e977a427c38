/** The exit code of a run, told from disk, answers and view. */
module RunExit {
  import opened Wrappers
  import opened Store
  import opened ImportProtocol
  import opened ProtocolSafety
  import opened History
  import opened Validation
  import opened ValidationExact
  import opened RowOutcomes
  import opened RunOutcomes
  import opened WorkerApp

  /** The status of a row when the run has completed. */
  function FinalStatus(c: Config, d: Durable, i: nat, env: nat -> Answers): Status
    requires i < |d.db.files|
  {
    if d.db.files[i].status != Pending then d.db.files[i].status else ToldAt(c, d, i, env).status
  }

  ghost predicate AnyEnds(c: Config, d: Durable, env: nat -> Answers, status: Status) {
    exists i :: 0 <= i < |d.db.files| && FinalStatus(c, d, i, env) == status
  }

  lemma EndsAsTold(c: Config, d: Durable, r: Run, env: nat -> Answers, status: Status)
    requires LeavesTold(c, d, |d.db.files|, r, env) && RecordsTold(c, d, env, r.committed.files)
    ensures AnyHas(r.committed.files, status) <==> AnyEnds(c, d, env, status)
  {
    hide Mail, Lines, ToldAt, MatchesAt, IsStage;
    forall i | 0 <= i < |d.db.files| ensures r.committed.files[i].status == FinalStatus(c, d, i, env) {
      assert RecordTold(c, d, env, i, r.committed.files[i]);
    }
  }

  ghost predicate Passes(db: Tables, view: Option<PstView>, runId: string) {
    view.Some? && forall f :: FolderIsGood(db, view.value, runId, f)
  }

  /** After any history: a run that the database, a row or the user ends reports just that. A completed one whose
      PST does not pass reports it; otherwise the worst status of any row decides, whether the row was settled
      before or is told for this run. */
  lemma {:induction false} ExitIsTold(c: Config, plan: seq<FileRow>, folders: seq<FolderRow>, attempts: seq<Attempt>,
                                      next: Attempt, view: Option<PstView>)
    requires NewJob(plan, folders)
    ensures var d := After(c, Created(plan, folders), attempts); var c1 := RunConfig(c, |attempts|);
      var env, db := next.env, Attempted(c1, d, next).0.committed;
      var code, ending := Reported(c, plan, folders, attempts, next, view), EndingOf(c1, d, next);
      && (ending.DatabaseError? ==> code == StateDbIncompatible)
      && (ending.WasFatal? ==> code == ending.code)
      && (ending.WasCancelled? ==> code == Cancelled)
      && (ending.Completed? && !Passes(db, view, c.runId) ==> code == ExitCode.ValidationFailed)
      && (ending.Completed? && Passes(db, view, c.runId) ==>
            var mapi, read, kept := AnyEnds(c1, d, env, FailedMapi), AnyEnds(c1, d, env, FailedSourceRead),
                                    AnyEnds(c1, d, env, PreservedAsAttachment);
            && (code == OutputWriteFailure <==> mapi) && (code == SuccessWithReadFailures <==> read && !mapi)
            && (code == SuccessWithFallbacks <==> kept && !read && !mapi) && (code == Success <==> !kept && !read && !mapi))
  {
    var d, c1 := After(c, Created(plan, folders), attempts), RunConfig(c, |attempts|);
    var r := Attempted(c1, d, next).0;
    EveryRunIsTold(c, plan, folders, attempts, next);
    WorkingIsCommitted(c, plan, folders, attempts, next);
    hide Attempted, After, EndingOf, IsIssue, FolderIsGood, AnyHas, AnyEnds, LeavesTold, RecordsTold;
    if EndingOf(c1, d, next).Completed? {
      CompletesAtTheEnd(c1, d, next);
      assert RecordsTold(c1, d, next.env, r.committed.files) by { CommittedTold(c1, d, next.env, r); }
      EndsAsTold(c1, d, r, next.env, FailedMapi);
      EndsAsTold(c1, d, r, next.env, FailedSourceRead);
      EndsAsTold(c1, d, r, next.env, PreservedAsAttachment);
      if view.Some? { PassesExactly(r.committed, view.value, c.runId); }
    }
  }

  lemma CommittedTold(c: Config, d: Durable, env: nat -> Answers, r: Run)
    requires RunTold(c, d, env, r)
    ensures RecordsTold(c, d, env, r.committed.files)
  {
    hide RecordsTold;
    assert StateTold(c, d, env, Current(r));
  }

  lemma {:induction false} CompletesAtTheEnd(c: Config, d: Durable, next: Attempt)
    requires EndingOf(c, d, next).Completed?
    ensures EndFrom(c, d, 0, next.env).row == |d.db.files|
  {
    hide EndFrom;
  }

  lemma {:induction false} WorkingIsCommitted(c: Config, plan: seq<FileRow>, folders: seq<FolderRow>,
                                              attempts: seq<Attempt>, next: Attempt)
    requires NewJob(plan, folders)
    ensures var r := Attempted(RunConfig(c, |attempts|), After(c, Created(plan, folders), attempts), next).0;
      r.working == r.committed
  {
    UnreliableFits(c, plan, folders, attempts);
    HistorySafe(Unreliable, c, plan, folders, attempts);
    hide Attempted, SafeDisk;
    ExecuteSafe(NoSurplus(Unreliable), RunConfig(c, |attempts|), plan, After(c, Created(plan, folders), attempts), next);
  }
}
