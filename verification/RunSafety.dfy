/** What a whole import run keeps: the row loop, its batches, and everything it logged on the way. */
module RunSafety {
  import opened Wrappers
  import opened Store
  import opened ImportProtocol
  import opened ProtocolSafety

  /** What is assumed of the answers for a pending row: its digest fits the source, and a resumed run can
      open and read the target folder if the row's message is there already. */
  ghost predicate RowEnvFits(src: Source, c: Config, pst: Pst, row: FileRow, a: Answers) {
    row.status == Pending ==>
      && AnswerFits(src, row.path, a)
      && (c.resume && !src.trust.Unreliable? && HitsIn(pst, row.target, c.runId, row.path) != [] ==>
            a.lookup.ok && a.readOk)
  }

  ghost predicate EnvFits(src: Source, c: Config, pst: Pst, rows: seq<FileRow>, k: nat, env: nat -> Answers) {
    forall j :: k <= j < |rows| ==> RowEnvFits(src, c, pst, rows[j], env(j))
  }

  /** The rows whose outcome a crash would forget. */
  ghost function Unsaved(s: Snapshot): set<int> {
    set j | 0 <= j < |s.committed.files| && j < |s.working.files|
      && s.committed.files[j].status != s.working.files[j].status
  }

  function BatchBound(c: Config): nat {
    if c.batchSize == 0 then 1 else c.batchSize
  }

  /** The errors folder holds exactly one message for each preserved row and none for another. */
  ghost predicate OrphanFree(runId: string, plan: seq<FileRow>, pst: Pst, files: seq<FileRow>)
    requires |files| == |plan|
  {
    forall j :: 0 <= j < |plan| && plan[j].target != CONVERSION_ERRORS ==>
      |HitsIn(pst, CONVERSION_ERRORS, runId, plan[j].path)|
        == if files[j].status.PreservedAsAttachment? then 1 else 0
  }

  /** Each progress line adds up: the rows settled before the run plus this run's outcomes. */
  ghost predicate UpdatesAddUp(before: nat, updates: seq<Progress>) {
    forall u :: u in updates ==> u.processed == before + u.imported + u.fallback + u.failed
  }

  /** What was committed at one moment is still committed at every later one. */
  ghost predicate LogMonotone(r: Run) {
    && (forall x, y :: 0 <= x < y < |r.seen| ==> Settling(r.seen[x].committed, r.seen[y].committed))
    && (forall s :: s in r.seen ==> Settling(s.committed, r.committed))
  }

  ghost predicate LossBounded(c: Config, r: Run) {
    forall s :: s in r.seen ==> |Unsaved(s)| <= BatchBound(c)
  }

  /** Holds of a run at every point of the row loop, and when it ends. */
  ghost predicate Kept(src: Source, c: Config, plan: seq<FileRow>, before: nat, r: Run) {
    && DistinctPaths(plan) && RunSafe(src, c.runId, plan, r)
    && LogMonotone(r) && LossBounded(c, r)
    && UpdatesAddUp(before, r.updates)
  }

  /** The tables when the rows before k have been looked at. */
  ghost predicate Position(plan: seq<FileRow>, rows: seq<FileRow>, k: nat, r: Run) {
    && |rows| == |plan| == |r.working.files| == |r.committed.files| && k <= |plan|
    && (forall j :: k <= j < |plan| ==> r.working.files[j] == rows[j] && r.committed.files[j] == rows[j])
    && (forall j :: 0 <= j < k ==> r.working.files[j].status != Pending)
    && r.processed == Settled(rows) + Outcomes(r)
  }

  ghost predicate RestNotSaved(src: Source, runId: string, plan: seq<FileRow>, k: nat, r: Run) {
    forall j :: k <= j < |plan| ==> NotYetSaved(src, runId, plan, r, j)
  }

  ghost predicate RestClashesKnown(src: Source, runId: string, k: nat, r: Run) {
    forall j :: k <= j < |r.working.files| && r.working.files[j].status == Pending ==>
      ClashKnown(src, runId, r.pst, r.working.files[j])
  }

  /** Resumed runs rely on the index, first runs on the PST having started empty. */
  ghost predicate KnowsTheRest(src: Source, c: Config, plan: seq<FileRow>, k: nat, r: Run) {
    && RestClashesKnown(src, c.runId, k, r)
    && if c.resume then IndexCurrent(c.runId, plan, k, r) else RestNotSaved(src, c.runId, plan, k, r)
  }

  /** Holds when the loop is about to look at row k of the rows it loaded. */
  ghost predicate AtLoop(src: Source, c: Config, plan: seq<FileRow>, rows: seq<FileRow>, k: nat, r: Run) {
    && Kept(src, c, plan, Settled(rows), r) && Position(plan, rows, k, r) && KnowsTheRest(src, c, plan, k, r)
    && (if r.batchOpen then |Unsaved(Current(r))| <= r.batchRows < BatchBound(c) else r.working == r.committed)
  }

  lemma ProcessRowSafe(src: Source, c: Config, plan: seq<FileRow>, r: Run, i: nat, row: FileRow, a: Answers)
    requires AtRow(src, c.runId, plan, r, i, row) && row.status == Pending
    requires KnowsTheRest(src, c, plan, i, r) && RowEnvFits(src, c, r.pst, row, a)
    ensures var (b, fatal) := ProcessRow(c, r, i, row, a);
      && RowOutcome(src, c.runId, plan, i, r, b, fatal)
      && KnowsTheRest(src, c, plan, i + 1, b)
  {
    hide RunSafe, RowEffect, TryAdopt, ReadAndConvert;
    var r1 := MarkStarted(r, i);
    StillAtRow(src, c.runId, plan, r, i, row, r.working.files[i].(attempts := r.working.files[i].attempts + 1));
    var (b, fatal) := ProcessRow(c, r, i, row, a);
    if !c.resume {
      assert NotYetSaved(src, c.runId, plan, r, i);
      ReadAndConvertSafe(src, c, plan, r1, i, row, a);
      RowEffectTransitive(c.runId, plan, i, r, r1, b);
      RestStaysNotSaved(src, c.runId, plan, i, r, r1, b);
    } else {
      var (r2, adoption) := TryAdopt(c, r1, i, row, a);
      assert IndexCurrent(c.runId, plan, i, r1);
      TryAdoptSafe(src, c, plan, r1, i, row, a);
      if adoption.NotFound? {
        ReadAndConvertSafe(src, c, plan, r2, i, row, a);
        IndexStaysCurrent(c.runId, plan, i, r2, b);
        OutcomeAfter(src, c.runId, plan, i, r1, r2, b, fatal);
      } else {
        assert IndexCurrent(c.runId, plan, i + 1, b);
      }
    }
    OutcomeAfter(src, c.runId, plan, i, r, r1, b, fatal);
    RestClashesStay(src, c.runId, plan, i, r, b, row);
  }

  lemma RestClashesStay(src: Source, runId: string, plan: seq<FileRow>, i: nat, a: Run, b: Run, row: FileRow)
    requires AtRow(src, runId, plan, a, i, row) && RowEffect(runId, plan, i, a, b) && RestClashesKnown(src, runId, i, a)
    ensures RestClashesKnown(src, runId, i + 1, b)
  {
    assert SamePlan(plan, a.working.files) by { assert SnapSafe(src, runId, plan, Current(a)); }
    hide RunSafe, HitsIn;
    forall j | i < j < |b.working.files| && b.working.files[j].status == Pending
      ensures ClashKnown(src, runId, b.pst, b.working.files[j])
    {
      assert b.working.files[j] == a.working.files[j];
      assert ClashKnown(src, runId, a.pst, a.working.files[j]);
      assert plan[j].path != plan[i].path;
    }
  }

  /** Messages saved for row i do not make the index stale for the rows after it. */
  lemma IndexStaysCurrent(runId: string, plan: seq<FileRow>, i: nat, a: Run, b: Run)
    requires i < |plan| && DistinctPaths(plan) && RowEffect(runId, plan, i, a, b)
    requires IndexCurrent(runId, plan, i, a) && b.index == a.index
    ensures IndexCurrent(runId, plan, i + 1, b)
  {
  }

  lemma OneMoreUnsaved(a: Snapshot, b: Snapshot, i: nat)
    requires b.committed == a.committed && SameButRow(a.working.files, b.working.files, i)
    ensures |Unsaved(b)| <= |Unsaved(a)| + 1
  {
    assert Unsaved(b) <= Unsaved(a) + {i as int};
    SubsetSize(Unsaved(b), Unsaved(a) + {i as int});
  }

  lemma {:induction false} SubsetSize<T>(a: set<T>, b: set<T>)
    requires a <= b
    ensures |a| <= |b|
  {
    if a != {} {
      var x :| x in a;
      SubsetSize(a - {x}, b - {x});
    }
  }

  /** One row adds at most one outcome to what a crash would forget, at every step of it. */
  lemma RowKeepsLog(c: Config, runId: string, plan: seq<FileRow>, i: nat, a: Run, b: Run)
    requires i < |plan| && RowEffect(runId, plan, i, a, b) && LogMonotone(a) && LossBounded(c, a)
    requires |Unsaved(Current(a))| < BatchBound(c)
    ensures LogMonotone(b) && LossBounded(c, b) && |Unsaved(Current(b))| <= |Unsaved(Current(a))| + 1
  {
    OneMoreUnsaved(Current(a), Current(b), i);
    assert forall y :: |a.seen| <= y < |b.seen| ==> b.seen[y] in b.seen[|a.seen|..];
    forall s | s in b.seen ensures |Unsaved(s)| <= BatchBound(c) && Settling(s.committed, b.committed) {
      if s !in a.seen {
        OneMoreUnsaved(Current(a), s, i);
      }
    }
    forall x, y | 0 <= x < y < |b.seen| ensures Settling(b.seen[x].committed, b.seen[y].committed) {
      if x < |a.seen| { assert b.seen[x] in a.seen; }
    }
  }

  lemma NothingUnsaved(s: Snapshot)
    requires s.committed == s.working
    ensures Unsaved(s) == {}
  {
  }

  /** Commit keeps and advances the log; rollback returns to what was committed. */
  lemma CommitKeeps(src: Source, c: Config, plan: seq<FileRow>, r: Run)
    requires RunSafe(src, c.runId, plan, r) && LogMonotone(r) && LossBounded(c, r)
    ensures RunSafe(src, c.runId, plan, Commit(r)) && LogMonotone(Commit(r)) && LossBounded(c, Commit(r))
  {
    var after := Snapshot(r.pst, r.working, r.working);
    NothingUnsaved(after);
    hide TablesSafe, Unsaved;
    assert SnapSafe(src, c.runId, plan, after);
    forall s | s in r.seen ensures Settling(s.committed, r.working) {
      assert Settling(s.committed, r.committed) && Settling(r.committed, r.working);
    }
  }

  lemma RollbackKeeps(src: Source, c: Config, plan: seq<FileRow>, r: Run)
    requires RunSafe(src, c.runId, plan, r) && LogMonotone(r) && LossBounded(c, r)
    ensures RunSafe(src, c.runId, plan, Rollback(r)) && LogMonotone(Rollback(r)) && LossBounded(c, Rollback(r))
  {
    var after := Snapshot(r.pst, r.committed, r.committed);
    NothingUnsaved(after);
    hide TablesSafe, Unsaved;
    assert SnapSafe(src, c.runId, plan, after);
  }

  /** Row k has been processed; its batch is still open. */
  ghost predicate RowBehind(src: Source, c: Config, plan: seq<FileRow>, rows: seq<FileRow>, k: nat, b: Run) {
    && Kept(src, c, plan, Settled(rows), b) && Position(plan, rows, k + 1, b) && KnowsTheRest(src, c, plan, k + 1, b)
    && b.batchOpen && |Unsaved(Current(b))| <= b.batchRows
  }

  lemma SameStoreKnows(src: Source, c: Config, plan: seq<FileRow>, k: nat, a: Run, b: Run)
    requires KnowsTheRest(src, c, plan, k, a) && b.pst == a.pst && b.index == a.index && b.working == a.working
    ensures KnowsTheRest(src, c, plan, k, b)
  {
    if !c.resume {
      forall j | k <= j < |plan| ensures NotYetSaved(src, c.runId, plan, b, j) {
        assert NotYetSaved(src, c.runId, plan, a, j);
      }
    }
  }

  /** What is kept does not depend on the batch and progress counters. */
  lemma SameStoreKept(src: Source, c: Config, plan: seq<FileRow>, before: nat, a: Run, b: Run)
    requires Kept(src, c, plan, before, a)
    requires b == a.(batchOpen := b.batchOpen, batchRows := b.batchRows, processed := b.processed, updates := b.updates)
    requires UpdatesAddUp(before, b.updates)
    ensures Kept(src, c, plan, before, b)
  {
    assert Current(b) == Current(a);
    hide SnapSafe, Unsaved, Settling;
  }

  lemma RestStaysNotSaved(src: Source, runId: string, plan: seq<FileRow>, i: nat, a: Run, b: Run, d: Run)
    requires i < |plan| && DistinctPaths(plan) && RestNotSaved(src, runId, plan, i, a)
    requires RowEffect(runId, plan, i, a, b) && RowEffect(runId, plan, i, b, d)
    ensures RestNotSaved(src, runId, plan, i + 1, d)
  {
    forall j | i < j < |plan| ensures NotYetSaved(src, runId, plan, d, j) {
      assert NotYetSaved(src, runId, plan, a, j);
    }
  }

  lemma BatchBegins(src: Source, c: Config, plan: seq<FileRow>, rows: seq<FileRow>, k: nat, r: Run)
    requires AtLoop(src, c, plan, rows, k, r) && k < |rows| && rows[k].status == Pending
    ensures var r0 := BeginBatch(r);
      && AtLoop(src, c, plan, rows, k, r0) && AtRow(src, c.runId, plan, r0, k, rows[k]) && r0.batchOpen
  {
    if !r.batchOpen { NothingUnsaved(Current(r)); }
    SameStoreKept(src, c, plan, Settled(rows), r, BeginBatch(r));
    SameStoreKnows(src, c, plan, k, r, BeginBatch(r));
    assert SamePlan(plan, r.working.files) by { assert SnapSafe(src, c.runId, plan, Current(r)); }
    hide SnapSafe, KnowsTheRest, Unsaved;
  }

  lemma PositionAfterRow(src: Source, c: Config, plan: seq<FileRow>, rows: seq<FileRow>, k: nat, r: Run, b: Run)
    requires Position(plan, rows, k, r) && k < |rows| && RowOutcome(src, c.runId, plan, k, r, b, None)
    ensures Position(plan, rows, k + 1, Counted(b))
  {
    hide RunSafe;
  }

  lemma CountedIsBehind(src: Source, c: Config, plan: seq<FileRow>, rows: seq<FileRow>, k: nat, r: Run, b: Run)
    requires AtLoop(src, c, plan, rows, k, r) && k < |rows| && r.batchOpen
    requires RowOutcome(src, c.runId, plan, k, r, b, None) && KnowsTheRest(src, c, plan, k + 1, b)
    requires LogMonotone(b) && LossBounded(c, b) && |Unsaved(Current(b))| <= |Unsaved(Current(r))| + 1
    ensures RowBehind(src, c, plan, rows, k, Counted(b))
  {
    var d := Counted(b);
    assert Current(d) == Current(b);
    PositionAfterRow(src, c, plan, rows, k, r, b);
    SameStoreKnows(src, c, plan, k + 1, b, d);
    hide SnapSafe, KnowsTheRest, Unsaved, Settling, Position, LogMonotone, LossBounded;
    assert Kept(src, c, plan, Settled(rows), b);
    SameStoreKept(src, c, plan, Settled(rows), b, d);
  }

  lemma ProcessRowInLoop(src: Source, c: Config, plan: seq<FileRow>, rows: seq<FileRow>, k: nat, r: Run, a: Answers)
    requires AtLoop(src, c, plan, rows, k, r) && k < |rows| && AtRow(src, c.runId, plan, r, k, rows[k]) && r.batchOpen
    requires rows[k].status == Pending && RowEnvFits(src, c, r.pst, rows[k], a)
    ensures var (b, fatal) := ProcessRow(c, r, k, rows[k], a);
      && RowOutcome(src, c.runId, plan, k, r, b, fatal)
      && LogMonotone(b) && LossBounded(c, b)
      && (fatal.None? ==> RowBehind(src, c, plan, rows, k, Counted(b)))
  {
    var (b, fatal) := ProcessRow(c, r, k, rows[k], a);
    ProcessRowSafe(src, c, plan, r, k, rows[k], a);
    RowKeepsLog(c, c.runId, plan, k, r, b);
    if fatal.None? {
      CountedIsBehind(src, c, plan, rows, k, r, b);
    }
  }

  lemma InLoop(src: Source, c: Config, plan: seq<FileRow>, rows: seq<FileRow>, k: nat, r: Run)
    requires AtLoop(src, c, plan, rows, k, r)
    ensures |rows| == |r.working.files| == |plan| && DistinctPaths(plan)
  {
    hide RunSafe;
  }

  /** A row of the loop about whose answers nothing is assumed. */
  lemma AnyRowInLoop(src: Source, c: Config, plan: seq<FileRow>, rows: seq<FileRow>, k: nat, r: Run, a: Answers)
    requires AtLoop(src, c, plan, rows, k, r) && k < |rows| && rows[k].status == Pending && src.trust.Unreliable?
    ensures var r0 := BeginBatch(r);
      var (b, fatal) := ProcessRow(c, r0, k, rows[k], a);
      && RowEffect(c.runId, plan, k, r0, b) && (c.resume ==> IndexCurrent(c.runId, plan, k, r0))
      && (fatal.None? ==> RowBehind(src, c, plan, rows, k, Counted(b)))
  {
    hide ProcessRow, RunSafe, RowEffect, LogMonotone, LossBounded, UpdatesAddUp, RowBehind, RestClashesKnown, IndexCurrent;
    var r0 := BeginBatch(r);
    BatchBegins(src, c, plan, rows, k, r);
    assert RowEnvFits(src, c, r0.pst, rows[k], a);
    ProcessRowInLoop(src, c, plan, rows, k, r0, a);
  }

  /** What is assumed of later rows does not depend on the messages saved for this one. */
  lemma EnvStillFits(src: Source, c: Config, plan: seq<FileRow>, rows: seq<FileRow>, k: nat, a: Run, b: Run,
                     env: nat -> Answers)
    requires k < |rows| == |plan| && DistinctPaths(plan) && RowEffect(c.runId, plan, k, a, b) && SamePlan(plan, rows)
    requires EnvFits(src, c, a.pst, rows, k, env)
    ensures EnvFits(src, c, b.pst, rows, k + 1, env)
  {
    hide HitsIn;
    forall j | k < j < |rows| ensures RowEnvFits(src, c, b.pst, rows[j], env(j)) {
      assert RowEnvFits(src, c, a.pst, rows[j], env(j));
      assert rows[j].path == plan[j].path != plan[k].path;
    }
  }

  lemma OrphanFreeAfterRow(src: Source, runId: string, plan: seq<FileRow>, i: nat, a: Run, b: Run, fatal: Option<ExitCode>)
    requires i < |plan| == |a.working.files| && DistinctPaths(plan) && a.working.files[i].status == Pending
    requires RowOutcome(src, runId, plan, i, a, b, fatal)
    requires OrphanFree(runId, plan, a.pst, a.working.files)
    ensures OrphanFree(runId, plan, b.pst, b.working.files)
  {
    hide RunSafe;
    forall j | 0 <= j < |plan| && plan[j].target != CONVERSION_ERRORS
      ensures |HitsIn(b.pst, CONVERSION_ERRORS, runId, plan[j].path)|
           == if b.working.files[j].status.PreservedAsAttachment? then 1 else 0
    {
      if j == i {
        assert ErrorHits(runId, plan, i, a) == 0;
      }
    }
  }

  /** What holds when the row loop, or the whole run, has ended. */
  ghost predicate RunEnded(src: Source, c: Config, plan: seq<FileRow>, rows: seq<FileRow>, r: Run, b: Run, ending: Ending) {
    && Kept(src, c, plan, Settled(rows), b) && (!b.batchOpen ==> b.working == b.committed)
    && |b.working.files| == |plan| == |r.working.files| && r.seen <= b.seen
    && (ending.Completed? ==> forall j :: 0 <= j < |plan| ==> b.working.files[j].status != Pending)
    && (ending == WasFatal(ResumeIntegrityError) ==> src.trust.Unreliable?)
    && (ending.DatabaseError? ==> !b.batchOpen)
    && (!ending.DatabaseError? && OrphanFree(c.runId, plan, r.pst, r.working.files) ==>
          OrphanFree(c.runId, plan, b.pst, b.working.files))
  }

  lemma RunEndedFrom(src: Source, c: Config, plan: seq<FileRow>, rows: seq<FileRow>, r: Run, m: Run, b: Run, ending: Ending)
    requires RunEnded(src, c, plan, rows, m, b, ending) && |r.working.files| == |plan| && r.seen <= m.seen
    requires OrphanFree(c.runId, plan, r.pst, r.working.files) ==> OrphanFree(c.runId, plan, m.pst, m.working.files)
    ensures RunEnded(src, c, plan, rows, r, b, ending)
  {
  }

  lemma {:induction false} ReportAddsUp(plan: seq<FileRow>, rows: seq<FileRow>, k: nat, r: Run)
    requires Position(plan, rows, k, r) && UpdatesAddUp(Settled(rows), r.updates)
    ensures UpdatesAddUp(Settled(rows), Report(r, |rows|).updates)
  {
  }

  /** The next loop position when the batch stays open. */
  lemma OpenPosition(src: Source, c: Config, plan: seq<FileRow>, rows: seq<FileRow>, k: nat, b: Run)
    requires RowBehind(src, c, plan, rows, k, b) && b.batchRows < c.batchSize
    ensures AtLoop(src, c, plan, rows, k + 1, Report(b, |rows|))
  {
    var m := Report(b, |rows|);
    ReportAddsUp(plan, rows, k + 1, b);
    SameStoreKept(src, c, plan, Settled(rows), b, m);
    SameStoreKnows(src, c, plan, k + 1, b, m);
    assert Current(m) == Current(b);
    hide Kept, KnowsTheRest, Unsaved;
  }

  /** The next loop position when the batch is committed. */
  lemma CommittedPosition(src: Source, c: Config, plan: seq<FileRow>, rows: seq<FileRow>, k: nat, b: Run)
    requires RowBehind(src, c, plan, rows, k, b)
    ensures AtLoop(src, c, plan, rows, k + 1, Report(Commit(b), |rows|))
  {
    var d := Commit(b);
    var m := Report(d, |rows|);
    CommitKeeps(src, c, plan, b);
    assert Position(plan, rows, k + 1, d);
    ReportAddsUp(plan, rows, k + 1, d);
    SameStoreKnows(src, c, plan, k + 1, b, m);
    hide RunSafe, LogMonotone, LossBounded, KnowsTheRest, UpdatesAddUp;
    assert Kept(src, c, plan, Settled(rows), d);
    SameStoreKept(src, c, plan, Settled(rows), d, m);
  }

  lemma {:induction false} RolledBack(src: Source, c: Config, plan: seq<FileRow>, rows: seq<FileRow>, k: nat, b: Run)
    requires RowBehind(src, c, plan, rows, k, b)
    ensures Kept(src, c, plan, Settled(rows), Rollback(b)) && |Rollback(b).working.files| == |plan|
  {
    RollbackKeeps(src, c, plan, b);
    hide RunSafe, LogMonotone, LossBounded, KnowsTheRest;
  }

  lemma {:induction false} RowsSafe(src: Source, c: Config, plan: seq<FileRow>, rows: seq<FileRow>, k: nat, r: Run,
                                    env: nat -> Answers)
    requires AtLoop(src, c, plan, rows, k, r) && SamePlan(plan, rows) && EnvFits(src, c, r.pst, rows, k, env)
    ensures var (b, ending) := Rows(c, r, rows, k, env);
      RunEnded(src, c, plan, rows, r, b, ending)
    decreases |rows| - k
  {
    hide RunSafe, LogMonotone, LossBounded, UpdatesAddUp, KnowsTheRest, ProcessRow, OrphanFree;
    if k == |rows| {
    } else if rows[k].status != Pending {
      assert AtLoop(src, c, plan, rows, k + 1, r) by { SkippedPosition(src, c, plan, rows, k, r); }
      RowsSafe(src, c, plan, rows, k + 1, r, env);
    } else if env(k).cancelled || (!r.batchOpen && !env(k).beginOk) {
    } else {
      var r0 := BeginBatch(r);
      BatchBegins(src, c, plan, rows, k, r);
      assert RowEnvFits(src, c, r0.pst, rows[k], env(k));
      ProcessRowInLoop(src, c, plan, rows, k, r0, env(k));
      var (b, fatal) := ProcessRow(c, r0, k, rows[k], env(k));
      EnvStillFits(src, c, plan, rows, k, r0, b, env);
      if OrphanFree(c.runId, plan, r.pst, r.working.files) {
        OrphanFreeAfterRow(src, c.runId, plan, k, r0, b, fatal);
      }
      if fatal.None? {
        var d := Counted(b);
        if d.batchRows >= c.batchSize {
          if !env(k).commitOk {
            RolledBack(src, c, plan, rows, k, d);
          } else {
            CommittedPosition(src, c, plan, rows, k, d);
            var m := Report(Commit(d), |rows|);
            RowsSafe(src, c, plan, rows, k + 1, m, env);
            var (e, ending) := Rows(c, m, rows, k + 1, env);
            RunEndedFrom(src, c, plan, rows, r, m, e, ending);
          }
        } else {
          OpenPosition(src, c, plan, rows, k, d);
          var m := Report(d, |rows|);
          RowsSafe(src, c, plan, rows, k + 1, m, env);
          var (e, ending) := Rows(c, m, rows, k + 1, env);
          RunEndedFrom(src, c, plan, rows, r, m, e, ending);
        }
      }
    }
  }

  lemma SkippedPosition(src: Source, c: Config, plan: seq<FileRow>, rows: seq<FileRow>, k: nat, r: Run)
    requires AtLoop(src, c, plan, rows, k, r) && k < |rows| && rows[k].status != Pending
    ensures AtLoop(src, c, plan, rows, k + 1, r)
  {
  }
}
