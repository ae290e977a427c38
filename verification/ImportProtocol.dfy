/** The import run as a function of what the environment answers. */
module ImportProtocol {
  import opened Wrappers
  import opened Store

  /** Operation names reported by the session; all but the last two are store-level. */
  datatype Operation =
    | SaveChanges | SaveFallbackChanges | CreateMessage | OpenFolderEntry | CreateFolder
    | ConversionIntegrity | CreateStreamOnFile | OtherOperation(name: string)

  predicate IsSystemic(op: Operation) {
    !op.CreateStreamOnFile? && !op.OtherOperation?
  }

  /** An ensure_folder call: the folders of the chain it created, and whether it succeeded. */
  datatype FolderAnswer = FolderAnswer(ok: bool, created: set<string>)

  datatype DigestAnswer = Digest(sha: string) | Unreadable(hresult: int)

  /** import_eml saves exactly one message and succeeds, or saves none and fails. */
  datatype ImportAnswer =
    | ImportOk(entryId: nat, hasAttachments: bool)
    | ImportFailed(op: Operation, hresult: int, firstHresult: int)

  datatype FallbackAnswer =
    | FallbackOk(entryId: nat)
    | FallbackFailed(op: Operation, hresult: int)

  /** Everything the outside world answers while one row is processed. */
  datatype Answers = Answers(
    cancelled: bool, beginOk: bool,
    lookup: FolderAnswer, readOk: bool,
    digest: DigestAnswer, prefixOk: bool,
    target: FolderAnswer, importing: ImportAnswer,
    errors: FolderAnswer, fallback: FallbackAnswer,
    commitOk: bool)

  datatype Config = Config(runId: string, resume: bool, batchSize: nat, threshold: int)

  datatype Snapshot = Snapshot(pst: Pst, committed: Tables, working: Tables)

  datatype Progress = Progress(processed: nat, total: nat, imported: nat, fallback: nat, failed: nat)

  /** A run; `seen` logs every state it goes through, so that a crash at any step is a choice of one
      logged snapshot. */
  datatype Run = Run(
    pst: Pst, committed: Tables, working: Tables, batchOpen: bool, batchRows: nat,
    folderIds: set<string>, index: map<string, seq<TrackedMessage>>,
    imported: nat, preserved: nat, failedRead: nat, failedMapi: nat, systemic: int,
    processed: nat, updates: seq<Progress>, seen: seq<Snapshot>)

  datatype ExitCode = Success | SuccessWithFallbacks | SuccessWithReadFailures | InvalidSource
    | OutputWriteFailure | ValidationFailed | StateDbIncompatible | SourceChanged
    | ResumeIntegrityError | Cancelled

  datatype Ending = Completed | WasCancelled | WasFatal(code: ExitCode) | DatabaseError

  datatype Adoption = Adopted | NotFound | Ambiguous

  function Current(r: Run): Snapshot {
    Snapshot(r.pst, r.committed, r.working)
  }

  function Saw(r: Run): Run {
    r.(seen := r.seen + [Current(r)])
  }

  function WithFile(t: Tables, i: nat, row: FileRow): Tables
    requires i < |t.files|
  {
    t.(files := t.files[i := row])
  }

  function UpdateFile(r: Run, i: nat, row: FileRow): Run
    requires i < |r.working.files|
  {
    Saw(r.(working := WithFile(r.working, i, row)))
  }

  function MarkStarted(r: Run, i: nat): Run
    requires i < |r.working.files|
  {
    UpdateFile(r, i, r.working.files[i].(attempts := r.working.files[i].attempts + 1))
  }

  function SetSha(r: Run, i: nat, sha: string): Run
    requires i < |r.working.files|
  {
    UpdateFile(r, i, r.working.files[i].(sha := sha))
  }

  function MarkImported(r: Run, i: nat, entryId: nat): Run
    requires i < |r.working.files|
  {
    UpdateFile(r, i, r.working.files[i].(status := Imported, entryId := Some(entryId), hresult := 0))
  }

  function MarkStatus(r: Run, i: nat, status: Status, hresult: int): Run
    requires i < |r.working.files|
  {
    UpdateFile(r, i, r.working.files[i].(status := status, hresult := hresult))
  }

  function EnsureFolder(r: Run, folder: string, a: FolderAnswer): (res: (Run, bool))
    ensures |res.0.working.files| == |r.working.files| && res.0.index == r.index
  {
    if folder in r.folderIds then (r, true)
    else
      var r1 := Saw(r.(pst := Ensured(r.pst, a.created + if a.ok then {folder} else {})));
      if !a.ok then (r1, false)
      else
        var tables := r1.working.(folders := WithFolderEntry(r1.working.folders, folder));
        (Saw(r1.(folderIds := r1.folderIds + {folder}, working := tables)), true)
  }

  function Deliver(r: Run, folder: string, m: TrackedMessage): Run {
    Saw(r.(pst := Delivered(r.pst, folder, m)))
  }

  /** A folder is read once per run; later rows use what was read then. */
  function Indexed(r: Run, folder: string): Run {
    if folder in r.index then r else r.(index := r.index[folder := Contents(r.pst, folder)])
  }

  function AdoptIndexed(c: Config, r: Run, i: nat, row: FileRow): (res: (Run, Adoption))
    requires i < |r.working.files| && row.target in r.index
    ensures |res.0.working.files| == |r.working.files|
  {
    var matches := Hits(r.index[row.target], c.runId, row.path);
    if matches == [] then (r, NotFound)
    else if |matches| > 1 then (r, Ambiguous)
    else (MarkImported(r, i, matches[0].entryId).(imported := r.imported + 1), Adopted)
  }

  function TryAdopt(c: Config, r: Run, i: nat, row: FileRow, a: Answers): (res: (Run, Adoption))
    requires i < |r.working.files|
    ensures |res.0.working.files| == |r.working.files|
  {
    var (r1, ok) := EnsureFolder(r, row.target, a.lookup);
    if !ok || (row.target !in r1.index && !a.readOk) then (r1, NotFound)
    else AdoptIndexed(c, Indexed(r1, row.target), i, row)
  }

  function RecordReadFailure(r: Run, i: nat, hresult: int): Run
    requires i < |r.working.files|
  {
    MarkStatus(r, i, FailedSourceRead, hresult).(failedRead := r.failedRead + 1)
  }

  function RecordFallback(c: Config, r: Run, i: nat, row: FileRow, sha: string, first: int,
                          answer: FallbackAnswer): (res: (Run, Option<ExitCode>))
    requires i < |r.working.files|
    ensures |res.0.working.files| == |r.working.files| && res.0.index == r.index
  {
    match answer
    case FallbackOk(id) =>
      var r1 := Deliver(r, CONVERSION_ERRORS, TrackedMessage(id, row.path, sha, c.runId, true));
      (MarkStatus(r1, i, PreservedAsAttachment, first).(preserved := r1.preserved + 1, systemic := 0), None)
    case FallbackFailed(op, hresult) =>
      var r1 := MarkStatus(r, i, FailedMapi, hresult).(failedMapi := r.failedMapi + 1);
      if IsSystemic(op)
      then
        (r1.(systemic := r1.systemic + 1),
         if r1.systemic + 1 >= c.threshold then Some(OutputWriteFailure) else None)
      else (r1, None)
  }

  /** The last resort: the source file as an attachment of a note in the errors folder. */
  function PreserveRow(c: Config, r: Run, i: nat, row: FileRow, sha: string, first: int,
                       a: Answers): (res: (Run, Option<ExitCode>))
    requires i < |r.working.files|
    ensures |res.0.working.files| == |r.working.files| && res.0.index == r.index
  {
    var (r1, ok) := EnsureFolder(r, CONVERSION_ERRORS, a.errors);
    if !ok then (r1, Some(OutputWriteFailure))
    else RecordFallback(c, r1, i, row, sha, first, a.fallback)
  }

  /** A stream that cannot be opened is a read failure; store-level failures count for the circuit breaker. */
  function ImportFailure(c: Config, r: Run, i: nat, row: FileRow, sha: string,
                         op: Operation, hresult: int, first: int, a: Answers): (res: (Run, Option<ExitCode>))
    requires i < |r.working.files|
    ensures |res.0.working.files| == |r.working.files| && res.0.index == r.index
  {
    if op.CreateStreamOnFile? then (RecordReadFailure(r, i, hresult), None)
    else
      var r1 := if IsSystemic(op) then r.(systemic := r.systemic + 1) else r;
      if IsSystemic(op) && r1.systemic >= c.threshold then (r1, Some(OutputWriteFailure))
      else PreserveRow(c, r1, i, row, sha, first, a)
  }

  /** Conversion of a row whose source file has been read. */
  function ConvertRow(c: Config, r: Run, i: nat, row: FileRow, sha: string, a: Answers): (res: (Run, Option<ExitCode>))
    requires i < |r.working.files|
    ensures |res.0.working.files| == |r.working.files| && res.0.index == r.index
  {
    var (r1, ok) := EnsureFolder(r, row.target, a.target);
    if !ok then (r1, Some(OutputWriteFailure))
    else match a.importing
      case ImportOk(id, attachments) =>
        var r2 := Deliver(r1, row.target, TrackedMessage(id, row.path, sha, c.runId, attachments));
        (MarkImported(r2, i, id).(imported := r2.imported + 1, systemic := 0), None)
      case ImportFailed(op, hresult, first) => ImportFailure(c, r1, i, row, sha, op, hresult, first, a)
  }

  function ReadAndConvert(c: Config, r: Run, i: nat, row: FileRow, a: Answers): (res: (Run, Option<ExitCode>))
    requires i < |r.working.files|
    ensures |res.0.working.files| == |r.working.files| && res.0.index == r.index
  {
    match a.digest
    case Unreadable(hresult) => (RecordReadFailure(r, i, hresult), None)
    case Digest(sha) =>
      var r1 := SetSha(r, i, sha);
      if !a.prefixOk then (RecordReadFailure(r1, i, 0), None)
      else ConvertRow(c, r1, i, row, sha, a)
  }

  function ProcessRow(c: Config, r: Run, i: nat, row: FileRow, a: Answers): (res: (Run, Option<ExitCode>))
    requires i < |r.working.files|
    ensures |res.0.working.files| == |r.working.files|
  {
    var r1 := MarkStarted(r, i);
    if !c.resume then ReadAndConvert(c, r1, i, row, a)
    else
      var (r2, adoption) := TryAdopt(c, r1, i, row, a);
      match adoption
      case Adopted => (r2, None)
      case Ambiguous => (r2, Some(ResumeIntegrityError))
      case NotFound => ReadAndConvert(c, r2, i, row, a)
  }

  function Commit(r: Run): Run {
    Saw(r.(committed := r.working, batchOpen := false))
  }

  /** A transaction that is destroyed before its commit rolls back. */
  function Rollback(r: Run): Run {
    Saw(r.(working := r.committed, batchOpen := false))
  }

  function Report(r: Run, total: nat): Run {
    r.(updates := r.updates
        + [Progress(r.processed, total, r.imported, r.preserved, r.failedRead + r.failedMapi)])
  }

  function BeginBatch(r: Run): Run {
    if r.batchOpen then r else r.(batchOpen := true, batchRows := 0)
  }

  function Counted(r: Run): Run {
    r.(processed := r.processed + 1, batchRows := r.batchRows + 1)
  }

  /** The row loop from row k on, over the rows loaded when the run started. */
  function Rows(c: Config, r: Run, rows: seq<FileRow>, k: nat, env: nat -> Answers): (Run, Ending)
    requires k <= |rows| == |r.working.files|
    decreases |rows| - k
  {
    if k == |rows| then (r, Completed)
    else if rows[k].status != Pending then Rows(c, r, rows, k + 1, env)
    else if env(k).cancelled then (r, WasCancelled)
    else if !r.batchOpen && !env(k).beginOk then (r, DatabaseError)
    else
      var (r1, fatal) := ProcessRow(c, BeginBatch(r), k, rows[k], env(k));
      if fatal.Some? then (r1, WasFatal(fatal.value))
      else
        var r2 := Counted(r1);
        if r2.batchRows >= c.batchSize
        then
          if !env(k).commitOk then (Rollback(r2), DatabaseError)
          else Rows(c, Report(Commit(r2), |rows|), rows, k + 1, env)
        else Rows(c, Report(r2, |rows|), rows, k + 1, env)
  }

  function Start(pst: Pst, db: Tables): Run {
    Saw(Run(pst, db, db, false, 0, {}, map[], 0, 0, 0, 0, 0,
            Settled(db.files), [], []))
  }

  /** How many rows an earlier run has settled. */
  function Settled(files: seq<FileRow>): nat {
    if files == [] then 0
    else (if files[0].status != Pending then 1 else 0) + Settled(files[1..])
  }

  function Execute(c: Config, pst: Pst, db: Tables, env: nat -> Answers, lastCommitOk: bool): (Run, Ending) {
    var (r, ending) := Rows(c, Start(pst, db), db.files, 0, env);
    if ending.DatabaseError? || !r.batchOpen then (r, ending)
    else if lastCommitOk then (Commit(r), ending)
    else (Rollback(r), DatabaseError)
  }
}
