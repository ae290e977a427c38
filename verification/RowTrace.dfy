/** One row of a run, told from the state it starts in. */
module RowTrace {
  import opened Wrappers
  import opened Store
  import opened ImportProtocol
  import opened ProtocolSafety

  /** Whether a resumed run gets to see what its target folder holds when it comes to a row. */
  predicate Sees(c: Config, r: Run, row: FileRow, a: Answers) {
    c.resume && (row.target in r.folderIds || a.lookup.ok) && (row.target in r.index || a.readOk)
  }

  /** What was read of the target folder, if it was, still shows the row's messages. */
  predicate FreshFor(c: Config, r: Run, row: FileRow) {
    row.target in r.index ==> Hits(r.index[row.target], c.runId, row.path) == HitsIn(r.pst, row.target, c.runId, row.path)
  }

  lemma FreshAt(c: Config, plan: seq<FileRow>, rows: seq<FileRow>, k: nat, r: Run)
    requires k < |rows| && SamePlan(plan, rows) && (c.resume ==> IndexCurrent(c.runId, plan, k, r))
    ensures c.resume ==> FreshFor(c, r, rows[k])
  {
    hide Hits;
  }

  /** The folders opened so far, with one more if it could be opened. */
  function Opened(folderIds: set<string>, folder: string, a: FolderAnswer): set<string> {
    if a.ok then folderIds + {folder} else folderIds
  }

  lemma FolderTrace(r: Run, folder: string, a: FolderAnswer)
    ensures var (b, ok) := EnsureFolder(r, folder, a);
      && b.systemic == r.systemic && b.index == r.index && b.folderIds == Opened(r.folderIds, folder, a)
      && (ok <==> folder in r.folderIds || a.ok)
      && forall f :: Contents(b.pst, f) == Contents(r.pst, f)
  {
  }

  /** Adoption looks at the row's own messages, if it sees them, and leaves the breaker's count alone. */
  lemma AdoptionTrace(c: Config, r: Run, i: nat, row: FileRow, a: Answers)
    requires i < |r.working.files| && c.resume && FreshFor(c, r, row)
    ensures var (b, adoption) := TryAdopt(c, r, i, row, a);
      var here := HitsIn(r.pst, row.target, c.runId, row.path);
      && adoption == (if !Sees(c, r, row, a) || here == [] then NotFound else if |here| == 1 then Adopted else Ambiguous)
      && b.systemic == r.systemic && b.folderIds == Opened(r.folderIds, row.target, a.lookup)
      && b.index.Keys == r.index.Keys + (if Sees(c, r, row, a) then {row.target} else {})
      && forall f :: Contents(b.pst, f) == Contents(r.pst, f)
  {
    hide EnsureFolder, Hits;
    FolderTrace(r, row.target, a.lookup);
  }

  /** What the breaker counts of one row: a message saved, or a store-level failure. */
  datatype Event = Saved | StoreFailure

  function Failure(op: Operation): seq<Event> {
    if IsSystemic(op) then [StoreFailure] else []
  }

  function FallbackEvents(answer: FallbackAnswer): seq<Event> {
    match answer
    case FallbackOk(_) => [Saved]
    case FallbackFailed(op, _) => Failure(op)
  }

  /** An import and its fallback count separately; a file that cannot be read counts nothing. */
  function RowEvents(a: Answers): seq<Event> {
    if a.digest.Unreadable? || !a.prefixOk then []
    else match a.importing
      case ImportOk(_, _) => [Saved]
      case ImportFailed(op, _, _) => if op.CreateStreamOnFile? then [] else Failure(op) + FallbackEvents(a.fallback)
  }

  /** Whether some failure brings the count, n before the events, to the threshold. */
  predicate Trips(events: seq<Event>, n: int, threshold: int) {
    events != [] &&
      if events[0].Saved? then Trips(events[1..], 0, threshold)
      else n + 1 >= threshold || Trips(events[1..], n + 1, threshold)
  }

  /** The failures since the last message saved. */
  function Count(events: seq<Event>, n: int): int {
    if events == [] then n
    else if events[0].Saved? then Count(events[1..], 0)
    else Count(events[1..], n + 1)
  }

  lemma {:induction false} NoEvents(n: int, threshold: int)
    ensures !Trips([], n, threshold) && Count([], n) == n
  {
  }

  lemma {:induction false} OneEvent(e: Event, n: int, threshold: int)
    ensures Trips([e], n, threshold) <==> e.StoreFailure? && n + 1 >= threshold
    ensures Count([e], n) == if e.Saved? then 0 else n + 1
  {
    assert [e][1..] == [];
  }

  lemma {:induction false} TwoEvents(e: Event, f: Event, n: int, threshold: int)
    ensures Trips([e, f], n, threshold) <==> Trips([e], n, threshold) || Trips([f], Count([e], n), threshold)
    ensures Count([e, f], n) == Count([f], Count([e], n))
  {
    assert [e, f][1..] == [f] && [e][1..] == [];
  }

  predicate CanBeRead(a: Answers) {
    a.digest.Digest? && a.prefixOk
  }

  predicate NeedsFallback(a: Answers) {
    a.importing.ImportFailed? && !a.importing.op.CreateStreamOnFile?
  }

  /** The folders that converting the row needs are there or can be opened. */
  predicate FoldersOpen(folderIds: set<string>, row: FileRow, a: Answers) {
    CanBeRead(a) ==>
      && (row.target in folderIds || a.target.ok)
      && (NeedsFallback(a) ==> CONVERSION_ERRORS in Opened(folderIds, row.target, a.target) || a.errors.ok)
  }

  ghost predicate BreakerFits(c: Config, events: seq<Event>, r: Run, b: Run, fatal: Option<ExitCode>) {
    && fatal == (if Trips(events, r.systemic, c.threshold) then Some(OutputWriteFailure) else None)
    && (fatal.None? ==> b.systemic == Count(events, r.systemic))
  }

  lemma FallbackCounts(c: Config, r: Run, i: nat, row: FileRow, sha: string, first: int, a: Answers)
    requires i < |r.working.files|
    ensures var (b, fatal) := PreserveRow(c, r, i, row, sha, first, a);
      if CONVERSION_ERRORS in r.folderIds || a.errors.ok then BreakerFits(c, FallbackEvents(a.fallback), r, b, fatal)
      else fatal == Some(OutputWriteFailure)
  {
    hide EnsureFolder, Trips, Count;
    FolderTrace(r, CONVERSION_ERRORS, a.errors);
    NoEvents(r.systemic, c.threshold);
    OneEvent(Saved, r.systemic, c.threshold);
    OneEvent(StoreFailure, r.systemic, c.threshold);
  }

  lemma FailedImportCounts(c: Config, r: Run, i: nat, row: FileRow, sha: string, op: Operation, hresult: int,
                           first: int, a: Answers)
    requires i < |r.working.files|
    ensures var (b, fatal) := ImportFailure(c, r, i, row, sha, op, hresult, first, a);
      if op.CreateStreamOnFile? then BreakerFits(c, [], r, b, fatal)
      else if CONVERSION_ERRORS in r.folderIds || a.errors.ok
      then BreakerFits(c, Failure(op) + FallbackEvents(a.fallback), r, b, fatal)
      else fatal == Some(OutputWriteFailure)
  {
    hide PreserveRow, Trips, Count;
    var rest := FallbackEvents(a.fallback);
    NoEvents(r.systemic, c.threshold);
    FallbackCounts(c, r, i, row, sha, first, a);
    FallbackCounts(c, r.(systemic := r.systemic + 1), i, row, sha, first, a);
    NoEvents(r.systemic + 1, c.threshold);
    OneEvent(StoreFailure, r.systemic, c.threshold);
    if rest == [] {
      assert [StoreFailure] + rest == [StoreFailure];
    } else {
      assert [StoreFailure] + rest == [StoreFailure, rest[0]] && rest == [rest[0]];
      TwoEvents(StoreFailure, rest[0], r.systemic, c.threshold);
    }
    assert [] + rest == rest;
  }

  /** A row that is not adopted counts what its import and its fallback do. It stops the run if that trips the
      breaker or if a folder it needs cannot be opened, and otherwise does not. */
  lemma ConversionCounts(c: Config, r: Run, i: nat, row: FileRow, a: Answers)
    requires i < |r.working.files|
    ensures var (b, fatal) := ReadAndConvert(c, r, i, row, a);
      if FoldersOpen(r.folderIds, row, a) then BreakerFits(c, RowEvents(a), r, b, fatal)
      else fatal == Some(OutputWriteFailure)
  {
    hide EnsureFolder, ImportFailure, Trips, Count;
    NoEvents(r.systemic, c.threshold);
    OneEvent(Saved, r.systemic, c.threshold);
    if a.digest.Digest? {
      var h := SetSha(r, i, a.digest.sha);
      FolderTrace(h, row.target, a.target);
      var o := EnsureFolder(h, row.target, a.target).0;
      if a.importing.ImportFailed? {
        FailedImportCounts(c, o, i, row, a.digest.sha, a.importing.op, a.importing.hresult, a.importing.firstHresult, a);
      }
    }
  }
}
