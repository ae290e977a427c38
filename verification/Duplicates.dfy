/** Exactly when a run gives a row a second message. */
module Duplicates {
  import opened Wrappers
  import opened Store
  import opened ImportProtocol
  import opened ProtocolSafety
  import opened RunSafety
  import opened History
  import opened RowTrace

  /** The state in which the row loop comes to row i and processes it, if it does. */
  function Reached(c: Config, r: Run, rows: seq<FileRow>, k: nat, env: nat -> Answers, i: nat): Option<Run>
    requires k <= |rows| == |r.working.files|
    decreases |rows| - k
  {
    if k == |rows| then None
    else if rows[k].status != Pending then Reached(c, r, rows, k + 1, env, i)
    else if env(k).cancelled || (!r.batchOpen && !env(k).beginOk) then None
    else if k == i then Some(r)
    else
      var (b, fatal) := ProcessRow(c, BeginBatch(r), k, rows[k], env(k));
      if fatal.Some? then None
      else
        var d := Counted(b);
        if d.batchRows < c.batchSize then Reached(c, Report(d, |rows|), rows, k + 1, env, i)
        else if env(k).commitOk then Reached(c, Report(Commit(d), |rows|), rows, k + 1, env, i)
        else None
  }

  /** Whether converting the row saves a message in its own target folder: the import does, or the fallback
      if the row belongs in the errors folder. */
  predicate SavesHere(c: Config, r: Run, row: FileRow, a: Answers) {
    && a.digest.Digest? && a.prefixOk
    && (row.target in r.folderIds || (c.resume && a.lookup.ok) || a.target.ok)
    && match a.importing
       case ImportOk(_, _) => true
       case ImportFailed(op, _, _) =>
         && row.target == CONVERSION_ERRORS && !op.CreateStreamOnFile?
         && !(IsSystemic(op) && r.systemic + 1 >= c.threshold) && a.fallback.FallbackOk?
  }

  ghost function Here(c: Config, pst: Pst, row: FileRow): nat {
    |HitsIn(pst, row.target, c.runId, row.path)|
  }

  lemma SameContents(c: Config, a: Pst, b: Pst, row: FileRow)
    requires Contents(a, row.target) == Contents(b, row.target)
    ensures Here(c, a, row) == Here(c, b, row)
  {
  }

  lemma FallbackSaves(c: Config, r: Run, i: nat, row: FileRow, sha: string, first: int, a: Answers)
    requires i < |r.working.files| && row.target in r.folderIds
    ensures var b := PreserveRow(c, r, i, row, sha, first, a).0;
      Here(c, b.pst, row) == Here(c, r.pst, row) + if row.target == CONVERSION_ERRORS && a.fallback.FallbackOk? then 1 else 0
  {
    hide EnsureFolder, Hits, Contents;
    FolderTrace(r, CONVERSION_ERRORS, a.errors);
    var (o, ok) := EnsureFolder(r, CONVERSION_ERRORS, a.errors);
    SameContents(c, o.pst, r.pst, row);
    if ok && a.fallback.FallbackOk? {
      DeliveredHits(o.pst, CONVERSION_ERRORS, TrackedMessage(a.fallback.entryId, row.path, sha, c.runId, true),
                    row.target, c.runId, row.path);
    }
  }

  /** What converting a row adds to its target folder. */
  lemma ConversionSaves(c: Config, r: Run, i: nat, row: FileRow, a: Answers)
    requires i < |r.working.files| && (c.resume && a.lookup.ok ==> row.target in r.folderIds)
    ensures var b := ReadAndConvert(c, r, i, row, a).0;
      Here(c, b.pst, row) == Here(c, r.pst, row) + if SavesHere(c, r, row, a) then 1 else 0
  {
    hide EnsureFolder, PreserveRow, Hits, Contents;
    if a.digest.Digest? {
      var sha := a.digest.sha;
      var h := SetSha(r, i, sha);
      FolderTrace(h, row.target, a.target);
      var (o, ok) := EnsureFolder(h, row.target, a.target);
      SameContents(c, o.pst, r.pst, row);
      if ok {
        match a.importing {
          case ImportOk(id, attachments) =>
            DeliveredHits(o.pst, row.target, TrackedMessage(id, row.path, sha, c.runId, attachments), row.target, c.runId, row.path);
          case ImportFailed(op, hresult, first) =>
            FallbackSaves(c, o, i, row, sha, first, a);
            FallbackSaves(c, o.(systemic := o.systemic + 1), i, row, sha, first, a);
        }
      }
    }
  }

  /** What processing a row adds to its target folder. */
  ghost function Added(c: Config, r: Run, row: FileRow, a: Answers): nat {
    if SavesHere(c, r, row, a) && !(Sees(c, r, row, a) && Here(c, r.pst, row) > 0) then 1 else 0
  }

  lemma RowSaves(c: Config, r: Run, i: nat, row: FileRow, a: Answers)
    requires i < |r.working.files| && (c.resume ==> FreshFor(c, r, row))
    ensures var b := ProcessRow(c, r, i, row, a).0;
      Here(c, b.pst, row) == Here(c, r.pst, row) + Added(c, r, row, a)
  {
    hide TryAdopt, ReadAndConvert, Hits, Contents;
    var m := MarkStarted(r, i);
    if !c.resume {
      ConversionSaves(c, m, i, row, a);
    } else {
      AdoptionTrace(c, m, i, row, a);
      var (t, adoption) := TryAdopt(c, m, i, row, a);
      SameContents(c, t.pst, r.pst, row);
      ConversionSaves(c, t, i, row, a);
    }
  }

  /** One row of the loop: what it adds to its own target folder and to those of the others. */
  lemma RowAdds(c: Config, plan: seq<FileRow>, rows: seq<FileRow>, k: nat, r: Run, env: nat -> Answers, i: nat)
    requires AtLoop(NoSurplus(Unreliable), c, plan, rows, k, r) && SamePlan(plan, rows) && k < |rows| && i < |rows|
    requires rows[k].status == Pending
    ensures var (b, fatal) := ProcessRow(c, BeginBatch(r), k, rows[k], env(k));
      && Here(c, b.pst, rows[i]) == Here(c, r.pst, rows[i]) + (if i == k then Added(c, r, rows[i], env(i)) else 0)
      && (fatal.None? ==> RowBehind(NoSurplus(Unreliable), c, plan, rows, k, Counted(b)))
  {
    hide AtLoop, ProcessRow, Hits, RowEffect, RowBehind, Added;
    var r0 := BeginBatch(r);
    AnyRowInLoop(NoSurplus(Unreliable), c, plan, rows, k, r, env(k));
    assert |r.working.files| == |rows| && DistinctPaths(plan) by { InLoop(NoSurplus(Unreliable), c, plan, rows, k, r); }
    if i == k {
      FreshAt(c, plan, rows, k, r0);
      RowSaves(c, r0, k, rows[k], env(k));
      SameTallies(c, r, rows[k], env(k));
    } else {
      OthersKeepTheirs(c, plan, rows, k, r0, ProcessRow(c, r0, k, rows[k], env(k)).0, i);
    }
  }

  lemma SameTallies(c: Config, r: Run, row: FileRow, a: Answers)
    ensures Added(c, BeginBatch(r), row, a) == Added(c, r, row, a)
  {
  }

  lemma OthersKeepTheirs(c: Config, plan: seq<FileRow>, rows: seq<FileRow>, k: nat, a: Run, b: Run, i: nat)
    requires k < |rows| && i < |rows| && i != k && SamePlan(plan, rows) && DistinctPaths(plan)
    requires RowEffect(c.runId, plan, k, a, b)
    ensures Here(c, b.pst, rows[i]) == Here(c, a.pst, rows[i])
  {
    hide HitsIn;
    assert rows[i].path == plan[i].path != plan[k].path;
  }

  /** Along the loop the target folder of row i gets a message only when the loop comes to it. */
  lemma {:induction false} LoopAdds(c: Config, plan: seq<FileRow>, rows: seq<FileRow>, k: nat, r: Run,
                                    env: nat -> Answers, i: nat)
    requires AtLoop(NoSurplus(Unreliable), c, plan, rows, k, r) && SamePlan(plan, rows) && k <= |rows| && i < |rows|
    ensures var b := Rows(c, r, rows, k, env).0;
      var at := Reached(c, r, rows, k, env, i);
      && (at.Some? ==> k <= i && rows[i].status == Pending && Here(c, at.value.pst, rows[i]) == Here(c, r.pst, rows[i]))
      && Here(c, b.pst, rows[i]) == Here(c, r.pst, rows[i]) + if at.Some? then Added(c, at.value, rows[i], env(i)) else 0
    decreases |rows| - k
  {
    hide Kept, KnowsTheRest, ProcessRow, RowBehind, Added, Here;
    var src := NoSurplus(Unreliable);
    if k == |rows| {
    } else if rows[k].status != Pending {
      SkippedPosition(src, c, plan, rows, k, r);
      LoopAdds(c, plan, rows, k + 1, r, env, i);
    } else if !env(k).cancelled && (r.batchOpen || env(k).beginOk) {
      RowAdds(c, plan, rows, k, r, env, i);
      var (b, fatal) := ProcessRow(c, BeginBatch(r), k, rows[k], env(k));
      if fatal.None? {
        var d := Counted(b);
        if d.batchRows < c.batchSize {
          OpenPosition(src, c, plan, rows, k, d);
          LoopAdds(c, plan, rows, k + 1, Report(d, |rows|), env, i);
        } else if env(k).commitOk {
          CommittedPosition(src, c, plan, rows, k, d);
          LoopAdds(c, plan, rows, k + 1, Report(Commit(d), |rows|), env, i);
        }
      }
    }
  }

  /** The state in which a run comes to row i. */
  function ComesTo(c: Config, d: Durable, a: Attempt, i: nat): Option<Run> {
    Reached(c, Start(d.pst, d.db), d.db.files, 0, a.env, i)
  }

  /** The next run of a job whose folders could be read so far: whatever happens in it, a row ends with a
      second message in its target folder exactly if it is PENDING with one there, and the run comes to it,
      does not get to see that message, and saves another. */
  lemma {:induction false} DuplicatesExactly(c: Config, plan: seq<FileRow>, folders: seq<FolderRow>,
                                             attempts: seq<Attempt>, next: Attempt, i: nat)
    requires NewJob(plan, folders) && HistoryFits(ReadableFolders, c, plan, folders, attempts) && i < |plan|
    ensures |After(c, Created(plan, folders), attempts).db.files| == |plan|
    ensures var d := After(c, Created(plan, folders), attempts);
      var c1 := RunConfig(c, |attempts|);
      var row, a := d.db.files[i], next.env(i);
      Here(c1, Attempted(c1, d, next).0.pst, plan[i]) > 1 <==>
        && row.status == Pending && Here(c1, d.pst, plan[i]) == 1
        && var at := ComesTo(c1, d, next, i);
           at.Some? && !Sees(c1, at.value, row, a) && SavesHere(c1, at.value, row, a)
  {
    var d := After(c, Created(plan, folders), attempts);
    var c1 := RunConfig(c, |attempts|);
    HistorySafe(ReadableFolders, c, plan, folders, attempts);
    SafeRow(ReadableFolders, c.runId, plan, d, i);
    UnreliableFits(c, plan, folders, attempts);
    HistorySafe(Unreliable, c, plan, folders, attempts);
    RunAdds(c1, plan, d, next, i);
  }

  lemma RunAdds(c: Config, plan: seq<FileRow>, d: Durable, next: Attempt, i: nat)
    requires SafeDisk(NoSurplus(Unreliable), c.runId, plan, d) && Startable(c, d) && i < |plan|
    ensures var at := ComesTo(c, d, next, i);
      && (at.Some? ==> d.db.files[i].status == Pending && Here(c, at.value.pst, plan[i]) == Here(c, d.pst, plan[i]))
      && Here(c, Attempted(c, d, next).0.pst, plan[i])
         == Here(c, d.pst, plan[i]) + if at.Some? then Added(c, at.value, d.db.files[i], next.env(i)) else 0
  {
    hide Rows, Reached, AtLoop, HitsIn, RowSafe, OnlyOurs;
    StartIsSafe(NoSurplus(Unreliable), c, plan, d);
    LoopAdds(c, plan, d.db.files, 0, Start(d.pst, d.db), next.env, i);
    assert Here(c, d.pst, plan[i]) == Here(c, d.pst, d.db.files[i]);
  }
}
