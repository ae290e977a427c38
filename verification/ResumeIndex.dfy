/** The per-folder resume index against a fresh search of the folder for every row. */
module ResumeIndex {
  import opened Wrappers
  import opened Store
  import opened ImportProtocol
  import opened ProtocolSafety
  import opened RunSafety
  import opened History

  /** Adoption that scans the folder again for each row, as find_tracked_messages would. */
  function AdoptAfresh(c: Config, r: Run, i: nat, row: FileRow): (res: (Run, Adoption))
    requires i < |r.working.files|
    ensures |res.0.working.files| == |r.working.files|
  {
    var matches := HitsIn(r.pst, row.target, c.runId, row.path);
    if matches == [] then (r, NotFound)
    else if |matches| > 1 then (r, Ambiguous)
    else (MarkImported(r, i, matches[0].entryId).(imported := r.imported + 1), Adopted)
  }

  function TryAdoptAfresh(c: Config, r: Run, i: nat, row: FileRow, a: Answers): (res: (Run, Adoption))
    requires i < |r.working.files|
    ensures |res.0.working.files| == |r.working.files|
  {
    var (r1, ok) := EnsureFolder(r, row.target, a.lookup);
    if !ok || (row.target !in r1.index && !a.readOk) then (r1, NotFound)
    else AdoptAfresh(c, Indexed(r1, row.target), i, row)
  }

  function ProcessRowAfresh(c: Config, r: Run, i: nat, row: FileRow, a: Answers): (res: (Run, Option<ExitCode>))
    requires i < |r.working.files|
    ensures |res.0.working.files| == |r.working.files|
  {
    var r1 := MarkStarted(r, i);
    if !c.resume then ReadAndConvert(c, r1, i, row, a)
    else
      var (r2, adoption) := TryAdoptAfresh(c, r1, i, row, a);
      match adoption
      case Adopted => (r2, None)
      case Ambiguous => (r2, Some(ResumeIntegrityError))
      case NotFound => ReadAndConvert(c, r2, i, row, a)
  }

  function RowsAfresh(c: Config, r: Run, rows: seq<FileRow>, k: nat, env: nat -> Answers): (Run, Ending)
    requires k <= |rows| == |r.working.files|
    decreases |rows| - k
  {
    if k == |rows| then (r, Completed)
    else if rows[k].status != Pending then RowsAfresh(c, r, rows, k + 1, env)
    else if env(k).cancelled then (r, WasCancelled)
    else if !r.batchOpen && !env(k).beginOk then (r, DatabaseError)
    else
      var (r1, fatal) := ProcessRowAfresh(c, BeginBatch(r), k, rows[k], env(k));
      if fatal.Some? then (r1, WasFatal(fatal.value))
      else
        var r2 := Counted(r1);
        if r2.batchRows >= c.batchSize
        then
          if !env(k).commitOk then (Rollback(r2), DatabaseError)
          else RowsAfresh(c, Report(Commit(r2), |rows|), rows, k + 1, env)
        else RowsAfresh(c, Report(r2, |rows|), rows, k + 1, env)
  }

  lemma SameAdoption(src: Source, c: Config, plan: seq<FileRow>, r: Run, i: nat, row: FileRow, a: Answers)
    requires AtRow(src, c.runId, plan, r, i, row) && IndexCurrent(c.runId, plan, i, r)
    ensures TryAdopt(c, r, i, row, a) == TryAdoptAfresh(c, r, i, row, a)
  {
    hide RunSafe, RowEffect, EnsureFolder, Hits;
    var (r1, ok) := EnsureFolder(r, row.target, a.lookup);
    AtRowOpened(src, c.runId, plan, r, i, row, row.target, a.lookup);
    IndexedSafe(src, c.runId, plan, i, r, r1, row.target);
  }

  lemma SameRow(src: Source, c: Config, plan: seq<FileRow>, r: Run, i: nat, row: FileRow, a: Answers)
    requires AtRow(src, c.runId, plan, r, i, row) && KnowsTheRest(src, c, plan, i, r)
    ensures ProcessRow(c, r, i, row, a) == ProcessRowAfresh(c, r, i, row, a)
  {
    hide RunSafe, RowEffect, TryAdopt, TryAdoptAfresh, ReadAndConvert;
    var r1 := MarkStarted(r, i);
    StillAtRow(src, c.runId, plan, r, i, row, r.working.files[i].(attempts := r.working.files[i].attempts + 1));
    if c.resume {
      assert IndexCurrent(c.runId, plan, i, r1);
      SameAdoption(src, c, plan, r1, i, row, a);
    }
  }

  lemma {:induction false} SameRows(src: Source, c: Config, plan: seq<FileRow>, rows: seq<FileRow>, k: nat, r: Run,
                                    env: nat -> Answers)
    requires AtLoop(src, c, plan, rows, k, r) && SamePlan(plan, rows) && EnvFits(src, c, r.pst, rows, k, env)
    ensures Rows(c, r, rows, k, env) == RowsAfresh(c, r, rows, k, env)
    decreases |rows| - k
  {
    hide RowEnvFits, RowEffect, RunSafe, UpdatesAddUp, KnowsTheRest, ProcessRow, ProcessRowAfresh, LogMonotone, LossBounded, RowBehind;
    if k == |rows| {
    } else if rows[k].status != Pending {
      SkippedPosition(src, c, plan, rows, k, r);
      SameRows(src, c, plan, rows, k + 1, r, env);
    } else if !env(k).cancelled && (r.batchOpen || env(k).beginOk) {
      var r0 := BeginBatch(r);
      BatchBegins(src, c, plan, rows, k, r);
      SameRow(src, c, plan, r0, k, rows[k], env(k));
      assert RowEnvFits(src, c, r0.pst, rows[k], env(k));
      ProcessRowInLoop(src, c, plan, rows, k, r0, env(k));
      var (b, fatal) := ProcessRow(c, r0, k, rows[k], env(k));
      EnvStillFits(src, c, plan, rows, k, r0, b, env);
      if fatal.None? {
        var d := Counted(b);
        if d.batchRows < c.batchSize {
          OpenPosition(src, c, plan, rows, k, d);
          SameRows(src, c, plan, rows, k + 1, Report(d, |rows|), env);
        } else if env(k).commitOk {
          CommittedPosition(src, c, plan, rows, k, d);
          SameRows(src, c, plan, rows, k + 1, Report(Commit(d), |rows|), env);
        }
      }
    }
  }

  /** In every run of every job, the index read once per folder never gives another answer than a
      fresh search would, at any row that consults it: the two loops go through the same states. */
  lemma {:induction false} IndexIsNeverStale(c: Config, plan: seq<FileRow>, folders: seq<FolderRow>,
                                             attempts: seq<Attempt>, env: nat -> Answers)
    requires NewJob(plan, folders)
    ensures var d := After(c, Created(plan, folders), attempts);
      Rows(RunConfig(c, |attempts|), Start(d.pst, d.db), d.db.files, 0, env)
        == RowsAfresh(RunConfig(c, |attempts|), Start(d.pst, d.db), d.db.files, 0, env)
  {
    var d := After(c, Created(plan, folders), attempts);
    var src := NoSurplus(Unreliable);
    UnreliableFits(c, plan, folders, attempts);
    HistorySafe(Unreliable, c, plan, folders, attempts);
    StartIsSafe(src, RunConfig(c, |attempts|), plan, d);
    SameRows(src, RunConfig(c, |attempts|), plan, d.db.files, 0, Start(d.pst, d.db), env);
  }

  const PAGE: FileRow := FileRow("a.eml", 1, 0, "", "Inbox", None, Pending, 0, 0)

  function Ready(readOk: bool, id: nat): Answers {
    Answers(false, true, FolderAnswer(true, {}), readOk, Digest("d"), true,
            FolderAnswer(true, {}), ImportOk(id, false), FolderAnswer(true, {}), FallbackOk(id), true)
  }

  const CUT: Attempt := Attempt(k => Ready(true, 1), true, Some(5))
  const BLIND: Attempt := Attempt(k => Ready(false, 2), true, None)

  function Copy(c: Config, id: nat): TrackedMessage {
    TrackedMessage(id, PAGE.path, "d", c.runId, false)
  }

  /** Six states are logged until the message is saved: start, mark, hash, folder, folder entry, save. */
  lemma CutAfterTheSave(c: Config)
    requires !c.resume && c.batchSize > 1
    ensures Survivor(c, Created([PAGE], []), CUT) == Durable(map[PAGE.target := [Copy(c, 1)]], Tables([PAGE], []))
  {
    var a := Ready(true, 1);
    var r0 := BeginBatch(Start(map[], Tables([PAGE], [])));
    var r2 := SetSha(MarkStarted(r0, 0), 0, "d");
    var r4 := EnsureFolder(r2, PAGE.target, a.target).0;
    assert WithFolderEntry([], PAGE.target) == [];
    assert r4.pst == map[PAGE.target := []];
    var r5 := Deliver(r4, PAGE.target, Copy(c, 1));
    assert [] + [Copy(c, 1)] == [Copy(c, 1)];
    assert r5.pst == map[PAGE.target := [Copy(c, 1)]];
    assert |r5.seen| == 6 && r5.seen[5] == Snapshot(map[PAGE.target := [Copy(c, 1)]], Tables([PAGE], []), r2.working);
    var r6 := MarkImported(r5, 0, 1).(imported := 1, systemic := 0);
    assert ProcessRow(c, r0, 0, PAGE, a) == (r6, None);
    var r7 := Report(Counted(r6), 1);
    assert Rows(c, Start(map[], Tables([PAGE], [])), [PAGE], 0, CUT.env) == Rows(c, r7, [PAGE], 1, CUT.env);
    assert Rows(c, r7, [PAGE], 1, CUT.env) == (r7, Completed);
    assert Commit(r7).seen[5] == r5.seen[5];
  }

  lemma BlindRunSavesAgain(c: Config)
    requires c.resume && c.batchSize > 1
    ensures var d := Survivor(c, Durable(map[PAGE.target := [Copy(c, 1)]], Tables([PAGE], [])), BLIND);
      d.pst == map[PAGE.target := [Copy(c, 1), Copy(c, 2)]] && |d.db.files| == 1 && d.db.files[0].status == Imported
  {
    var a := Ready(false, 2);
    var disk := map[PAGE.target := [Copy(c, 1)]];
    var start := Start(disk, Tables([PAGE], []));
    var r0 := BeginBatch(start);
    var r1 := MarkStarted(r0, 0);
    assert WithFolderEntry([], PAGE.target) == [];
    var r2 := EnsureFolder(r1, PAGE.target, a.lookup).0;
    assert r2.pst == disk;
    assert TryAdopt(c, r1, 0, PAGE, a) == (r2, NotFound);
    var r3 := SetSha(r2, 0, "d");
    assert EnsureFolder(r3, PAGE.target, a.target) == (r3, true);
    var r4 := Deliver(r3, PAGE.target, Copy(c, 2));
    assert [Copy(c, 1)] + [Copy(c, 2)] == [Copy(c, 1), Copy(c, 2)];
    assert r4.pst == map[PAGE.target := [Copy(c, 1), Copy(c, 2)]];
    var r5 := MarkImported(r4, 0, 2).(imported := 1, systemic := 0);
    assert ProcessRow(c, r0, 0, PAGE, a) == (r5, None);
    var r6 := Report(Counted(r5), 1);
    assert Rows(c, start, [PAGE], 0, BLIND.env) == Rows(c, r6, [PAGE], 1, BLIND.env);
    assert Rows(c, r6, [PAGE], 1, BLIND.env) == (r6, Completed);
  }

  /** Why resumed runs must be able to read their folders: a run cut between the save and the commit,
      followed by one whose folder read fails, saves the message twice. */
  lemma {:induction false} UnreadableFolderDuplicates(c: Config)
    requires c.batchSize > 1
    ensures NewJob([PAGE], [])
    ensures var d := After(c, Created([PAGE], []), [CUT, BLIND]);
      |HitsIn(d.pst, PAGE.target, c.runId, PAGE.path)| == 2 && d.db.files != [] && d.db.files[0].status == Imported
  {
    hide Survivor, Hits;
    CutAfterTheSave(RunConfig(c, 0));
    BlindRunSavesAgain(RunConfig(c, 1));
    AfterNext(c, Created([PAGE], []), [], CUT);
    AfterNext(c, Created([PAGE], []), [CUT], BLIND);
    assert [] + [CUT] == [CUT] && [CUT] + [BLIND] == [CUT, BLIND];
    TwoCopies(c);
  }

  lemma TwoCopies(c: Config)
    ensures |Hits([Copy(c, 1), Copy(c, 2)], c.runId, PAGE.path)| == 2
  {
    assert [Copy(c, 1), Copy(c, 2)][1..] == [Copy(c, 2)];
    assert [Copy(c, 2)][1..] == [];
    assert Hits([Copy(c, 2)], c.runId, PAGE.path) == [Copy(c, 2)];
  }
}
