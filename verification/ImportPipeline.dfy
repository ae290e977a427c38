/** The import pipeline over mutable state; each method computes its protocol function. */
module ImportPipeline {
  import opened Wrappers
  import opened Store
  import opened ImportProtocol
  import opened Text

  /** Splitting the path of a target folder and joining it again gives the same path. */
  predicate Canonical(target: string) {
    Join(Split(target)) == target
  }

  /** The PST behind an open session. */
  class PstSession {
    var pst: Pst

    constructor (disk: Pst)
      ensures pst == disk
    {
      pst := disk;
    }

    method EnsureFolder(segments: seq<string>, a: FolderAnswer)
      modifies this
      ensures pst == Ensured(old(pst), a.created + if a.ok then {Join(segments)} else {})
    {
      pst := Ensured(pst, a.created + if a.ok then {Join(segments)} else {});
    }

    /** import_eml and import_fallback: one message is appended exactly when the call succeeds. */
    method Save(folder: string, m: TrackedMessage, ok: bool)
      modifies this
      ensures pst == if ok then Delivered(old(pst), folder, m) else old(pst)
    {
      if ok {
        pst := pst[folder := (if folder in pst then pst[folder] else []) + [m]];
      }
    }

    method ReadTrackedMessages(folder: string) returns (messages: seq<TrackedMessage>)
      ensures messages == Contents(pst, folder)
    {
      messages := if folder in pst then pst[folder] else [];
    }
  }

  datatype StatusCounts = StatusCounts(pending: nat, imported: nat, preserved: nat, failedRead: nat, failedMapi: nat)

  /** Each counter is the number of rows with its status. */
  predicate Counts(counts: StatusCounts, files: seq<FileRow>) {
    && counts.pending == CountStatus(files, Pending) && counts.imported == CountStatus(files, Imported)
    && counts.preserved == CountStatus(files, PreservedAsAttachment)
    && counts.failedRead == CountStatus(files, FailedSourceRead)
    && counts.failedMapi == CountStatus(files, FailedMapi)
  }

  /** The tables as last committed and as the open transaction sees them. */
  class StateDb {
    var committed: Tables
    var working: Tables
    var inTransaction: bool

    constructor (tables: Tables)
      ensures committed == working == tables && !inTransaction
    {
      committed, working, inTransaction := tables, tables, false;
    }

    /** Outside a transaction every statement commits by itself. */
    method Write(tables: Tables)
      modifies this
      ensures working == tables && inTransaction == old(inTransaction)
      ensures committed == if inTransaction then old(committed) else working
    {
      working := tables;
      if !inTransaction {
        committed := working;
      }
    }

    method MarkStarted(i: nat)
      requires i < |working.files|
      modifies this
      ensures working == WithFile(old(working), i,
        old(working.files[i]).(attempts := old(working.files[i].attempts) + 1))
      ensures inTransaction == old(inTransaction) && committed == if inTransaction then old(committed) else working
    {
      Write(WithFile(working, i, working.files[i].(attempts := working.files[i].attempts + 1)));
    }

    method SetSha256(i: nat, sha: string)
      requires i < |working.files|
      modifies this
      ensures working == WithFile(old(working), i, old(working.files[i]).(sha := sha))
      ensures inTransaction == old(inTransaction) && committed == if inTransaction then old(committed) else working
    {
      Write(WithFile(working, i, working.files[i].(sha := sha)));
    }

    method MarkImported(i: nat, entryId: nat)
      requires i < |working.files|
      modifies this
      ensures working == WithFile(old(working), i,
        old(working.files[i]).(status := Imported, entryId := Some(entryId), hresult := 0))
      ensures inTransaction == old(inTransaction) && committed == if inTransaction then old(committed) else working
    {
      Write(WithFile(working, i, working.files[i].(status := Imported, entryId := Some(entryId), hresult := 0)));
    }

    method MarkStatus(i: nat, status: Status, hresult: int)
      requires i < |working.files|
      modifies this
      ensures working == WithFile(old(working), i, old(working.files[i]).(status := status, hresult := hresult))
      ensures inTransaction == old(inTransaction) && committed == if inTransaction then old(committed) else working
    {
      Write(WithFile(working, i, working.files[i].(status := status, hresult := hresult)));
    }

    method SetFolderEntryId(target: string)
      modifies this
      ensures working == old(working).(folders := WithFolderEntry(old(working.folders), target))
      ensures inTransaction == old(inTransaction) && committed == if inTransaction then old(committed) else working
    {
      var folders := working.folders;
      var k := 0;
      while k < |folders|
        invariant 0 <= k <= |folders| == |working.folders|
        invariant forall j :: 0 <= j < k ==> folders[j] == WithFolderEntry(working.folders, target)[j]
        invariant forall j :: k <= j < |folders| ==> folders[j] == working.folders[j]
      {
        if folders[k].target == target {
          folders := folders[k := folders[k].(entryId := Some(target))];
        }
        k := k + 1;
      }
      assert folders == WithFolderEntry(working.folders, target);
      Write(working.(folders := folders));
    }

    method LoadAllFiles(answer: bool) returns (rows: Option<seq<FileRow>>)
      ensures rows == if answer then Some(working.files) else None
    {
      rows := if answer then Some(working.files) else None;
    }

    method CountByStatus(answer: bool) returns (counts: Option<StatusCounts>)
      ensures counts.Some? == answer
      ensures answer ==> Counts(counts.value, working.files)
    {
      if !answer {
        return None;
      }
      var pending, imported, preserved, failedRead, failedMapi := 0, 0, 0, 0, 0;
      var k := |working.files|;
      while k > 0
        invariant 0 <= k <= |working.files|
        invariant Counts(StatusCounts(pending, imported, preserved, failedRead, failedMapi), working.files[k..])
      {
        k := k - 1;
        assert working.files[k..] == [working.files[k]] + working.files[k + 1..];
        match working.files[k].status {
          case Pending => pending := pending + 1;
          case Imported => imported := imported + 1;
          case PreservedAsAttachment => preserved := preserved + 1;
          case FailedSourceRead => failedRead := failedRead + 1;
          case FailedMapi => failedMapi := failedMapi + 1;
        }
      }
      assert working.files[0..] == working.files;
      counts := Some(StatusCounts(pending, imported, preserved, failedRead, failedMapi));
    }
  }

  /** RAII transaction: rolled back when it is destroyed uncommitted. */
  class Transaction {
    const db: StateDb
    var active: bool
    var committed: bool

    constructor BeginImmediate(db: StateDb)
      modifies db
      ensures this.db == db && active && !committed && db.inTransaction
      ensures db.working == old(db.working) && db.committed == old(db.committed)
    {
      this.db := db;
      active, committed := true, false;
      new;
      db.inTransaction := true;
    }

    method Commit(answer: bool) returns (ok: bool)
      modifies this, db
      ensures ok == (old(active) && answer)
      ensures db.working == old(db.working)
      ensures ok ==> db.committed == db.working && !db.inTransaction && committed && !active
      ensures !ok ==> db.committed == old(db.committed) && db.inTransaction == old(db.inTransaction)
      ensures !ok ==> active == old(active) && committed == old(committed)
    {
      if !active || !answer {
        return false;
      }
      db.committed, db.inTransaction := db.working, false;
      committed, active := true, false;
      ok := true;
    }

    method Destroy()
      modifies db
      ensures db.committed == old(db.committed)
      ensures if active && !committed then db.working == db.committed && !db.inTransaction
              else db.working == old(db.working) && db.inTransaction == old(db.inTransaction)
    {
      if active && !committed {
        db.working, db.inTransaction := db.committed, false;
      }
    }
  }

  class PipelineRun {
    const cfg: Config
    const db: StateDb
    const session: PstSession
    var folderIds: set<string>
    var resumeIndex: map<string, seq<TrackedMessage>>
    var imported: nat
    var preserved: nat
    var failedRead: nat
    var failedMapi: nat
    var consecutiveSystemic: int
    var batchRows: nat
    var processed: nat
    var updates: seq<Progress>
    ghost var seen: seq<Snapshot>

    /** The run as ImportProtocol describes it. */
    ghost function State(): ImportProtocol.Run
      reads this, db, session
    {
      ImportProtocol.Run.Run(session.pst, db.committed, db.working, db.inTransaction, batchRows, folderIds, resumeIndex,
          imported, preserved, failedRead, failedMapi, consecutiveSystemic, processed, updates, seen)
    }

    constructor (cfg: Config, db: StateDb, session: PstSession)
      requires db.working == db.committed && !db.inTransaction
      ensures this.cfg == cfg && this.db == db && this.session == session
      ensures State() == Start(session.pst, db.working).(processed := 0)
    {
      this.cfg, this.db, this.session := cfg, db, session;
      folderIds, resumeIndex := {}, map[];
      imported, preserved, failedRead, failedMapi, consecutiveSystemic := 0, 0, 0, 0, 0;
      batchRows, processed, updates := 0, 0, [];
      seen := [Snapshot(session.pst, db.committed, db.working)];
    }

    /** Logs the state reached, as a crash at this step would find it. */
    ghost method Log()
      modifies this`seen
      ensures State() == Saw(old(State()))
    {
      seen := seen + [Current(State())];
    }

    method EnsureTargetFolder(target: string, a: FolderAnswer) returns (ok: bool)
      requires Canonical(target) && db.inTransaction
      modifies this, db, session
      ensures db.inTransaction
      ensures (State(), ok) == EnsureFolder(old(State()), target, a)
    {
      if target in folderIds {
        return true;
      }
      var segments := SplitSegments(target);
      session.EnsureFolder(segments, a);
      Log();
      ok := a.ok;
      if ok {
        folderIds := folderIds + {target};
        db.SetFolderEntryId(target);
        Log();
      }
    }

    method TryAdoptExisting(i: nat, row: FileRow, a: Answers) returns (adoption: Adoption)
      requires i < |db.working.files| && Canonical(row.target) && db.inTransaction
      modifies this, db, session
      ensures db.inTransaction
      ensures (State(), adoption) == TryAdopt(cfg, old(State()), i, row, a)
    {
      var ok := EnsureTargetFolder(row.target, a.lookup);
      if !ok {
        return NotFound;
      }
      if row.target !in resumeIndex {
        if !a.readOk {
          return NotFound;
        }
        var tracked := session.ReadTrackedMessages(row.target);
        resumeIndex := resumeIndex[row.target := tracked];
      }
      var matches := Matching(resumeIndex[row.target], row.path);
      if matches == [] {
        return NotFound;
      }
      if |matches| > 1 {
        return Ambiguous;
      }
      db.MarkImported(i, matches[0].entryId);
      Log();
      imported := imported + 1;
      adoption := Adopted;
    }

    method Matching(messages: seq<TrackedMessage>, path: string) returns (matches: seq<TrackedMessage>)
      ensures matches == Hits(messages, cfg.runId, path)
    {
      matches := [];
      for k := 0 to |messages|
        invariant matches == Hits(messages[..k], cfg.runId, path)
      {
        assert messages[..k + 1] == messages[..k] + [messages[k]];
        HitsConcat(messages[..k], [messages[k]], cfg.runId, path);
        if messages[k].runId == cfg.runId && messages[k].path == path {
          matches := matches + [messages[k]];
        }
      }
      assert messages[..|messages|] == messages;
    }

    method RecordReadFailure(i: nat, hresult: int)
      requires i < |db.working.files| && db.inTransaction
      modifies this, db
      ensures db.inTransaction
      ensures State() == ImportProtocol.RecordReadFailure(old(State()), i, hresult)
    {
      db.MarkStatus(i, FailedSourceRead, hresult);
      Log();
      failedRead := failedRead + 1;
    }

    method RecordFallback(i: nat, row: FileRow, sha: string, first: int,
                          answer: FallbackAnswer) returns (fatal: Option<ExitCode>)
      requires i < |db.working.files| && db.inTransaction
      modifies this, db, session
      ensures db.inTransaction
      ensures (State(), fatal) == ImportProtocol.RecordFallback(cfg, old(State()), i, row, sha, first, answer)
    {
      match answer {
        case FallbackOk(id) =>
          session.Save(CONVERSION_ERRORS, TrackedMessage(id, row.path, sha, cfg.runId, true), true);
          Log();
          db.MarkStatus(i, PreservedAsAttachment, first);
          Log();
          preserved := preserved + 1;
          consecutiveSystemic := 0;
          return None;
        case FallbackFailed(op, hresult) =>
          db.MarkStatus(i, FailedMapi, hresult);
          Log();
          failedMapi := failedMapi + 1;
          if IsSystemic(op) {
            consecutiveSystemic := consecutiveSystemic + 1;
            if consecutiveSystemic >= cfg.threshold {
              return Some(OutputWriteFailure);
            }
          }
          return None;
      }
    }

    method PreserveAsAttachment(i: nat, row: FileRow, sha: string, first: int, a: Answers) returns (fatal: Option<ExitCode>)
      requires i < |db.working.files| && db.inTransaction
      modifies this, db, session
      ensures db.inTransaction
      ensures (State(), fatal) == PreserveRow(cfg, old(State()), i, row, sha, first, a)
    {
      hide ImportProtocol.RecordFallback, ImportProtocol.EnsureFolder, Canonical;
      ErrorsFolderIsCanonical();
      var ok := EnsureTargetFolder(CONVERSION_ERRORS, a.errors);
      if !ok {
        return Some(OutputWriteFailure);
      }
      fatal := RecordFallback(i, row, sha, first, a.fallback);
    }

    method ImportRow(i: nat, row: FileRow, sha: string, a: Answers) returns (fatal: Option<ExitCode>)
      requires i < |db.working.files| && Canonical(row.target) && db.inTransaction
      modifies this, db, session
      ensures db.inTransaction
      ensures (State(), fatal) == ConvertRow(cfg, old(State()), i, row, sha, a)
    {
      hide Canonical, EnsureFolder, PreserveRow;
      var ok := EnsureTargetFolder(row.target, a.target);
      if !ok {
        return Some(OutputWriteFailure);
      }
      match a.importing {
        case ImportOk(id, attachments) =>
          session.Save(row.target, TrackedMessage(id, row.path, sha, cfg.runId, attachments), true);
          Log();
          db.MarkImported(i, id);
          Log();
          imported := imported + 1;
          consecutiveSystemic := 0;
          return None;
        case ImportFailed(op, hresult, first) =>
          if op.CreateStreamOnFile? {
            RecordReadFailure(i, hresult);
            return None;
          }
          if IsSystemic(op) {
            consecutiveSystemic := consecutiveSystemic + 1;
            if consecutiveSystemic >= cfg.threshold {
              return Some(OutputWriteFailure);
            }
          }
          fatal := PreserveAsAttachment(i, row, sha, first, a);
      }
    }

    method ReadAndImport(i: nat, row: FileRow, a: Answers) returns (fatal: Option<ExitCode>)
      requires i < |db.working.files| && Canonical(row.target) && db.inTransaction
      modifies this, db, session
      ensures db.inTransaction
      ensures (State(), fatal) == ReadAndConvert(cfg, old(State()), i, row, a)
    {
      hide ConvertRow;
      match a.digest {
        case Unreadable(hresult) =>
          RecordReadFailure(i, hresult);
          return None;
        case Digest(sha) =>
          db.SetSha256(i, sha);
          Log();
          if !a.prefixOk {
            RecordReadFailure(i, 0);
            return None;
          }
          fatal := ImportRow(i, row, sha, a);
      }
    }

    method ProcessRow(i: nat, row: FileRow, a: Answers) returns (fatal: Option<ExitCode>)
      requires i < |db.working.files| && Canonical(row.target) && db.inTransaction
      modifies this, db, session
      ensures db.inTransaction
      ensures (State(), fatal) == ImportProtocol.ProcessRow(cfg, old(State()), i, row, a)
    {
      hide TryAdopt, ReadAndConvert, Canonical;
      db.MarkStarted(i);
      Log();
      if cfg.resume {
        var adoption := TryAdoptExisting(i, row, a);
        if adoption.Adopted? {
          return None;
        }
        if adoption.Ambiguous? {
          return Some(ResumeIntegrityError);
        }
      }
      fatal := ReadAndImport(i, row, a);
    }

    method CountSettled(rows: seq<FileRow>) returns (settled: nat)
      ensures settled == Settled(rows)
    {
      settled := 0;
      var k := |rows|;
      while k > 0
        invariant 0 <= k <= |rows| && settled == Settled(rows[k..])
      {
        k := k - 1;
        assert rows[k..] == [rows[k]] + rows[k + 1..];
        if rows[k].status != Pending {
          settled := settled + 1;
        }
      }
      assert rows[0..] == rows;
    }

    /** Counts a processed row and commits its batch when it is full. */
    method FinishRow(batch: Transaction, total: nat, commitOk: bool) returns (ok: bool, open: Transaction?)
      requires batch.db == db && batch.active && !batch.committed && db.inTransaction
      modifies this, db, batch
      ensures |db.working.files| == old(|db.working.files|) || !ok
      ensures open == null || open == batch
      ensures if open == null then !db.inTransaction else batch.active && !batch.committed && db.inTransaction
      ensures var counted := Counted(old(State()));
        if counted.batchRows < cfg.batchSize then ok && open == batch && State() == Report(counted, total)
        else if commitOk then ok && open == null && State() == Report(Commit(counted), total)
        else !ok && open == null && State() == Rollback(counted)
    {
      open := batch;
      processed := processed + 1;
      batchRows := batchRows + 1;
      if batchRows >= cfg.batchSize {
        ok := batch.Commit(commitOk);
        open := null;
        if !ok {
          batch.Destroy();
          Log();
          return false, null;
        }
        Log();
      }
      updates := updates + [Progress(processed, total, imported, preserved, failedRead + failedMapi)];
      ok := true;
    }

    /** The row loop; on return the batch that is still open, if any. */
    method ProcessRows(rows: seq<FileRow>, env: nat -> Answers) returns (ending: Ending, batch: Transaction?)
      requires |rows| == |db.working.files| && !db.inTransaction
      requires forall k :: 0 <= k < |rows| ==> Canonical(rows[k].target)
      modifies this, db, session
      ensures (State(), ending) == Rows(cfg, old(State()), rows, 0, env)
      ensures if batch == null then !db.inTransaction
              else fresh(batch) && batch.db == db && batch.active && !batch.committed && db.inTransaction
      ensures ending.DatabaseError? ==> batch == null
    {
      hide ImportProtocol.ProcessRow, Canonical, Counted, Report, Commit, Rollback;
      ghost var start := State();
      batch := null;
      var k := 0;
      while k < |rows|
        invariant 0 <= k <= |rows| == |db.working.files|
        invariant if batch == null then !db.inTransaction
                  else fresh(batch) && batch.db == db && batch.active && !batch.committed && db.inTransaction
        invariant Rows(cfg, State(), rows, k, env) == Rows(cfg, start, rows, 0, env)
      {
        var row := rows[k];
        if row.status != Pending {
          k := k + 1;
          continue;
        }
        if env(k).cancelled {
          return WasCancelled, batch;
        }
        if batch == null {
          if !env(k).beginOk {
            return DatabaseError, null;
          }
          batch := new Transaction.BeginImmediate(db);
          batchRows := 0;
        }
        var fatal := ProcessRow(k, row, env(k));
        if fatal.Some? {
          return WasFatal(fatal.value), batch;
        }
        var ok;
        ok, batch := FinishRow(batch, |rows|, env(k).commitOk);
        if !ok {
          return DatabaseError, null;
        }
        k := k + 1;
      }
      ending := Completed;
    }

    /** Runs the job over every row that is PENDING when the run starts; the counters are those of the database.
        A database that cannot be read ends the run before it starts, or when all of it is done. */
    method Run(env: nat -> Answers, loadOk: bool, lastCommitOk: bool, countOk: bool)
      returns (ending: Ending, counters: StatusCounts)
      requires !db.inTransaction && db.working == db.committed
      requires State() == Start(session.pst, db.working).(processed := 0)
      requires forall k :: 0 <= k < |db.working.files| ==> Canonical(db.working.files[k].target)
      modifies this, db, session
      ensures !loadOk ==> ending == DatabaseError && State() == old(State())
      ensures loadOk ==> var (r, e) := Execute(cfg, old(session.pst), old(db.working), env, lastCommitOk);
        State() == r && ending == if countOk then e else DatabaseError
      ensures !ending.DatabaseError? ==> Counts(counters, db.working.files)
      ensures !db.inTransaction
    {
      hide Canonical, Rows, Counts;
      counters := StatusCounts(0, 0, 0, 0, 0);
      var loaded := db.LoadAllFiles(loadOk);
      if loaded.None? {
        return DatabaseError, counters;
      }
      var rows := loaded.value;
      processed := CountSettled(rows);
      assert State() == Start(session.pst, db.working);
      var batch;
      ending, batch := ProcessRows(rows, env);
      if batch != null {
        var ok := batch.Commit(lastCommitOk);
        if !ok {
          batch.Destroy();
          ending := DatabaseError;
        }
        Log();
      }
      if ending.DatabaseError? {
        return ending, counters;
      }
      var counted := db.CountByStatus(countOk);
      if counted.None? {
        return DatabaseError, counters;
      }
      counters := counted.value;
    }
  }

  lemma ErrorsFolderIsCanonical()
    ensures Canonical(CONVERSION_ERRORS)
  {
    assert Clean(CONVERSION_ERRORS);
    SplitJoin([CONVERSION_ERRORS]);
  }
}
