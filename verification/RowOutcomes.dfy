/** What becomes of one row, told from the disk and the answers. */
module RowOutcomes {
  import opened Wrappers
  import opened Store
  import opened ImportProtocol
  import opened ProtocolSafety
  import opened RowTrace

  /** The folders a run has opened, and those whose messages it has read. */
  datatype Folders = Folders(ensured: set<string>, read: set<string>)

  predicate SeesTarget(c: Config, f: Folders, row: FileRow, a: Answers) {
    c.resume && (row.target in f.ensured || a.lookup.ok) && (row.target in f.read || a.readOk)
  }

  /** The messages of the row that a resumed run gets to see. */
  function Matches(c: Config, pst: Pst, f: Folders, row: FileRow, a: Answers): seq<TrackedMessage> {
    if SeesTarget(c, f, row, a) then HitsIn(pst, row.target, c.runId, row.path) else []
  }

  function Looked(c: Config, f: Folders, row: FileRow, a: Answers): Folders {
    if !c.resume then f
    else Folders(Opened(f.ensured, row.target, a.lookup), f.read + if SeesTarget(c, f, row, a) then {row.target} else {})
  }

  /** The folders ensured once a row that is not adopted has been dealt with. */
  function Converted(ensured: set<string>, row: FileRow, a: Answers): set<string> {
    if !CanBeRead(a) then ensured
    else
      var more := Opened(ensured, row.target, a.target);
      if NeedsFallback(a) then Opened(more, CONVERSION_ERRORS, a.errors) else more
  }

  function FoldersAfter(c: Config, f: Folders, row: FileRow, matches: seq<TrackedMessage>, a: Answers): Folders {
    var looked := Looked(c, f, row, a);
    if matches != [] then looked else looked.(ensured := Converted(looked.ensured, row, a))
  }

  /** Whether the row ends the run, with n failures counted before: on a second match, on a folder it needs
      and cannot open, or on the breaker. */
  function StopOf(c: Config, f: Folders, row: FileRow, matches: seq<TrackedMessage>, a: Answers, n: int): Option<ExitCode> {
    if |matches| > 1 then Some(ResumeIntegrityError)
    else if |matches| == 1 then None
    else if !FoldersOpen(Looked(c, f, row, a).ensured, row, a) || Trips(RowEvents(a), n, c.threshold) then Some(OutputWriteFailure)
    else None
  }

  /** The failures counted since the last message saved, once the row has been dealt with. */
  function CountAfter(matches: seq<TrackedMessage>, a: Answers, n: int): int {
    if matches != [] then n else Count(RowEvents(a), n)
  }

  // ---- The row's record ----

  function Started(row: FileRow): FileRow {
    row.(attempts := row.attempts + 1)
  }

  /** The record of a row that is settled. A row that is adopted keeps the digest it has; otherwise the digest
      is stored as soon as there is one. */
  function Told(row: FileRow, matches: seq<TrackedMessage>, a: Answers): FileRow {
    var started := Started(row);
    if matches != [] then started.(status := Imported, entryId := Some(matches[0].entryId), hresult := 0)
    else match a.digest
      case Unreadable(hresult) => started.(status := FailedSourceRead, hresult := hresult)
      case Digest(sha) =>
        var hashed := started.(sha := sha);
        if !a.prefixOk then hashed.(status := FailedSourceRead, hresult := 0)
        else match a.importing
          case ImportOk(id, _) => hashed.(status := Imported, entryId := Some(id), hresult := 0)
          case ImportFailed(op, hresult, first) =>
            if op.CreateStreamOnFile? then hashed.(status := FailedSourceRead, hresult := hresult)
            else match a.fallback
              case FallbackOk(_) => hashed.(status := PreservedAsAttachment, hresult := first)
              case FallbackFailed(_, last) => hashed.(status := FailedMapi, hresult := last)
  }

  /** The records a row goes through: untouched, started, hashed, settled. */
  predicate IsStage(row: FileRow, matches: seq<TrackedMessage>, a: Answers, x: FileRow) {
    || x == row || x == Started(row)
    || (matches == [] && a.digest.Digest? && x == Started(row).(sha := a.digest.sha))
    || (|matches| <= 1 && x == Told(row, matches, a))
  }

  // ---- The mail saved ----

  datatype Delivery = Delivery(folder: string, message: TrackedMessage)

  /** At most one message: the import's in the target folder, or the fallback's in the errors folder. */
  function MailOf(c: Config, row: FileRow, matches: seq<TrackedMessage>, a: Answers): seq<Delivery> {
    if matches != [] || !CanBeRead(a) then []
    else match a.importing
      case ImportOk(id, attachments) =>
        [Delivery(row.target, TrackedMessage(id, row.path, a.digest.sha, c.runId, attachments))]
      case ImportFailed(op, _, _) =>
        if op.CreateStreamOnFile? || a.fallback.FallbackFailed? then []
        else [Delivery(CONVERSION_ERRORS, TrackedMessage(a.fallback.entryId, row.path, a.digest.sha, c.runId, true))]
  }

  function Into(mail: seq<Delivery>, folder: string): seq<TrackedMessage> {
    if mail == [] then []
    else (if mail[0].folder == folder then [mail[0].message] else []) + Into(mail[1..], folder)
  }

  /** Every folder holds what it held, and behind that what was delivered to it. */
  ghost predicate Holds(before: Pst, mail: seq<Delivery>, pst: Pst) {
    forall f :: Contents(pst, f) == Contents(before, f) + Into(mail, f)
  }

  lemma HoldsNothing(before: Pst, pst: Pst)
    ensures Holds(before, [], pst) <==> forall f :: Contents(pst, f) == Contents(before, f)
  {
    hide Contents;
    assert forall f :: Contents(before, f) + [] == Contents(before, f);
  }

  lemma HoldsOne(before: Pst, pst: Pst, d: Delivery)
    requires forall f :: Contents(pst, f) == Contents(before, f)
    ensures Holds(before, [d], Delivered(pst, d.folder, d.message))
  {
    assert [d][1..] == [];
    assert forall f :: Contents(before, f) + [] == Contents(before, f);
  }

  // ---- One row ----

  /** What holds of the row and the mail at any moment of processing row i. */
  ghost predicate InStages(c: Config, base: Snapshot, i: nat, matches: seq<TrackedMessage>, a: Answers, s: Snapshot) {
    && i < |base.working.files| && s.committed == base.committed && SameButRow(base.working.files, s.working.files, i)
    && IsStage(base.working.files[i], matches, a, s.working.files[i])
    && (Holds(base.pst, [], s.pst) || Holds(base.pst, MailOf(c, base.working.files[i], matches, a), s.pst))
  }

  ghost predicate LogInStages(c: Config, base: Snapshot, i: nat, matches: seq<TrackedMessage>, a: Answers, n: nat, r: Run) {
    && n <= |r.seen| && InStages(c, base, i, matches, a, Current(r))
    && forall x :: n <= x < |r.seen| ==> InStages(c, base, i, matches, a, r.seen[x])
  }

  predicate SameCounts(a: Run, b: Run) {
    && b.imported == a.imported && b.preserved == a.preserved && b.failedRead == a.failedRead
    && b.failedMapi == a.failedMapi
  }

  /** Two states that differ at most in empty folders and in the table of folders. */
  ghost predicate SameButFolders(s: Snapshot, t: Snapshot) {
    t.committed == s.committed && t.working.files == s.working.files && forall f :: Contents(t.pst, f) == Contents(s.pst, f)
  }

  lemma FolderLog(r: Run, folder: string, answer: FolderAnswer)
    ensures var b := EnsureFolder(r, folder, answer).0;
      && r.seen <= b.seen && SameButFolders(Current(r), Current(b))
      && (forall x :: |r.seen| <= x < |b.seen| ==> SameButFolders(Current(r), b.seen[x]))
      && SameCounts(r, b) && b.working.files == r.working.files
  {
    hide WithFolderEntry;
  }

  lemma SameStage(c: Config, base: Snapshot, i: nat, matches: seq<TrackedMessage>, a: Answers, s: Snapshot, t: Snapshot)
    requires InStages(c, base, i, matches, a, s) && SameButFolders(s, t)
    ensures InStages(c, base, i, matches, a, t)
  {
    hide IsStage, MailOf, Contents, Into;
  }

  lemma FolderStage(c: Config, base: Snapshot, i: nat, matches: seq<TrackedMessage>, a: Answers, n: nat, r: Run,
                    folder: string, answer: FolderAnswer)
    requires LogInStages(c, base, i, matches, a, n, r)
    ensures var (b, ok) := EnsureFolder(r, folder, answer);
      && LogInStages(c, base, i, matches, a, n, b) && b.working.files == r.working.files && SameCounts(r, b)
      && b.index == r.index && b.folderIds == Opened(r.folderIds, folder, answer)
      && (forall f :: Contents(b.pst, f) == Contents(r.pst, f))
  {
    hide EnsureFolder, InStages, Contents;
    FolderTrace(r, folder, answer);
    FolderLog(r, folder, answer);
    var b := EnsureFolder(r, folder, answer).0;
    SameStage(c, base, i, matches, a, Current(r), Current(b));
    forall x | n <= x < |b.seen| ensures InStages(c, base, i, matches, a, b.seen[x]) {
      if x >= |r.seen| { SameStage(c, base, i, matches, a, Current(r), b.seen[x]); }
    }
  }

  lemma RecordStage(c: Config, base: Snapshot, i: nat, matches: seq<TrackedMessage>, a: Answers, n: nat, r: Run, row: FileRow)
    requires LogInStages(c, base, i, matches, a, n, r) && IsStage(base.working.files[i], matches, a, row)
    ensures var b := UpdateFile(r, i, row); LogInStages(c, base, i, matches, a, n, b) && b.working.files[i] == row
  {
    hide IsStage, MailOf, Holds;
  }

  lemma MailStage(c: Config, base: Snapshot, i: nat, matches: seq<TrackedMessage>, a: Answers, n: nat, r: Run, d: Delivery)
    requires LogInStages(c, base, i, matches, a, n, r) && Holds(base.pst, [], r.pst)
    requires MailOf(c, base.working.files[i], matches, a) == [d]
    ensures var b := Deliver(r, d.folder, d.message);
      LogInStages(c, base, i, matches, a, n, b) && Holds(base.pst, [d], b.pst)
  {
    hide IsStage, MailOf;
    HoldsNothing(base.pst, r.pst);
    HoldsOne(base.pst, r.pst, d);
    hide Holds, Contents, Delivered;
  }

  lemma InRange(c: Config, base: Snapshot, i: nat, matches: seq<TrackedMessage>, a: Answers, s: Snapshot)
    requires InStages(c, base, i, matches, a, s)
    ensures i < |base.working.files| == |s.working.files|
  {
  }

  function One(yes: bool): nat { if yes then 1 else 0 }

  predicate CountedAs(a: Run, b: Run, status: Status) {
    && b.imported == a.imported + One(status == Imported)
    && b.preserved == a.preserved + One(status == PreservedAsAttachment)
    && b.failedRead == a.failedRead + One(status == FailedSourceRead)
    && b.failedMapi == a.failedMapi + One(status == FailedMapi)
  }

  predicate SameFolders(a: Run, b: Run) {
    b.folderIds == a.folderIds && b.index == a.index
  }

  /** The row went through its stages only; unless the run ends here it is settled as told, counted as what it
      is, and its mail is saved. */
  ghost predicate RowDone(c: Config, base: Snapshot, i: nat, matches: seq<TrackedMessage>, a: Answers, n: nat,
                          r: Run, b: Run, fatal: Option<ExitCode>) {
    && LogInStages(c, base, i, matches, a, n, b)
    && (fatal.None? ==>
          && |matches| <= 1 && b.working.files[i] == Told(base.working.files[i], matches, a)
          && Holds(base.pst, MailOf(c, base.working.files[i], matches, a), b.pst)
          && CountedAs(r, b, Told(base.working.files[i], matches, a).status))
  }

  /** The digest is stored and nothing saved yet. */
  ghost predicate ReadyToConvert(c: Config, base: Snapshot, i: nat, a: Answers, n: nat, r: Run) {
    && LogInStages(c, base, i, [], a, n, r) && a.digest.Digest? && Holds(base.pst, [], r.pst)
    && r.working.files[i] == Started(base.working.files[i]).(sha := a.digest.sha)
  }

  lemma ReadyInFolder(c: Config, base: Snapshot, i: nat, a: Answers, n: nat, r: Run, folder: string, answer: FolderAnswer)
    requires ReadyToConvert(c, base, i, a, n, r)
    ensures var b := EnsureFolder(r, folder, answer).0;
      && ReadyToConvert(c, base, i, a, n, b) && SameCounts(r, b)
      && b.index == r.index && b.folderIds == Opened(r.folderIds, folder, answer)
  {
    hide InStages, EnsureFolder;
    FolderStage(c, base, i, [], a, n, r, folder, answer);
    HoldsNothing(base.pst, r.pst);
    HoldsNothing(base.pst, EnsureFolder(r, folder, answer).0.pst);
  }

  lemma FallbackTold(c: Config, base: Snapshot, i: nat, a: Answers, n: nat, r: Run)
    requires ReadyToConvert(c, base, i, a, n, r) && CanBeRead(a) && NeedsFallback(a)
    ensures var (b, fatal) := RecordFallback(c, r, i, base.working.files[i], a.digest.sha, a.importing.firstHresult, a.fallback);
      RowDone(c, base, i, [], a, n, r, b, fatal) && SameFolders(r, b)
  {
    hide InStages, Holds, Contents;
    InRange(c, base, i, [], a, Current(r));
    var row := base.working.files[i];
    var told := Told(row, [], a);
    assert IsStage(row, [], a, told);
    match a.fallback
    case FallbackOk(id) =>
      var d := Delivery(CONVERSION_ERRORS, TrackedMessage(id, row.path, a.digest.sha, c.runId, true));
      assert MailOf(c, row, [], a) == [d];
      MailStage(c, base, i, [], a, n, r, d);
      RecordStage(c, base, i, [], a, n, Deliver(r, d.folder, d.message), told);
    case FallbackFailed(_, _) =>
      RecordStage(c, base, i, [], a, n, r, told);
  }

  lemma FailureTold(c: Config, base: Snapshot, i: nat, a: Answers, n: nat, r: Run)
    requires ReadyToConvert(c, base, i, a, n, r) && CanBeRead(a) && a.importing.ImportFailed?
    ensures var (b, fatal) := ImportFailure(c, r, i, base.working.files[i], a.digest.sha, a.importing.op,
                                            a.importing.hresult, a.importing.firstHresult, a);
      && RowDone(c, base, i, [], a, n, r, b, fatal) && b.index == r.index
      && (fatal.None? ==> b.folderIds == if NeedsFallback(a) then Opened(r.folderIds, CONVERSION_ERRORS, a.errors) else r.folderIds)
  {
    hide InStages, Holds, EnsureFolder, RecordFallback;
    InRange(c, base, i, [], a, Current(r));
    var row := base.working.files[i];
    if a.importing.op.CreateStreamOnFile? {
      RecordStage(c, base, i, [], a, n, r, Told(row, [], a));
    } else {
      var r1 := if IsSystemic(a.importing.op) then r.(systemic := r.systemic + 1) else r;
      assert Current(r1) == Current(r);
      ReadyInFolder(c, base, i, a, n, r1, CONVERSION_ERRORS, a.errors);
      FallbackTold(c, base, i, a, n, EnsureFolder(r1, CONVERSION_ERRORS, a.errors).0);
    }
  }

  lemma ConversionTold(c: Config, base: Snapshot, i: nat, a: Answers, n: nat, r: Run)
    requires ReadyToConvert(c, base, i, a, n, r) && CanBeRead(a)
    ensures var (b, fatal) := ConvertRow(c, r, i, base.working.files[i], a.digest.sha, a);
      && RowDone(c, base, i, [], a, n, r, b, fatal) && b.index == r.index
      && (fatal.None? ==> b.folderIds == Converted(r.folderIds, base.working.files[i], a))
  {
    hide InStages, Holds, EnsureFolder, ImportFailure, Contents;
    InRange(c, base, i, [], a, Current(r));
    var row := base.working.files[i];
    ReadyInFolder(c, base, i, a, n, r, row.target, a.target);
    var r1 := EnsureFolder(r, row.target, a.target).0;
    match a.importing
    case ImportOk(id, attachments) =>
      var d := Delivery(row.target, TrackedMessage(id, row.path, a.digest.sha, c.runId, attachments));
      assert MailOf(c, row, [], a) == [d];
      MailStage(c, base, i, [], a, n, r1, d);
      RecordStage(c, base, i, [], a, n, Deliver(r1, d.folder, d.message), Told(row, [], a));
    case ImportFailed(_, _, _) =>
      FailureTold(c, base, i, a, n, r1);
  }

  /** A row that is not adopted. */
  lemma ReadingTold(c: Config, base: Snapshot, i: nat, a: Answers, n: nat, r: Run)
    requires LogInStages(c, base, i, [], a, n, r) && Holds(base.pst, [], r.pst)
    requires r.working.files[i] == Started(base.working.files[i])
    ensures var row := base.working.files[i]; var (b, fatal) := ReadAndConvert(c, r, i, row, a);
      && RowDone(c, base, i, [], a, n, r, b, fatal) && b.index == r.index
      && (fatal.None? ==> b.folderIds == Converted(r.folderIds, row, a))
  {
    hide InStages, Holds, ConvertRow;
    InRange(c, base, i, [], a, Current(r));
    var row := base.working.files[i];
    match a.digest
    case Unreadable(_) =>
      RecordStage(c, base, i, [], a, n, r, Told(row, [], a));
    case Digest(sha) =>
      RecordStage(c, base, i, [], a, n, r, Started(row).(sha := sha));
      var r1 := SetSha(r, i, sha);
      if a.prefixOk {
        ConversionTold(c, base, i, a, n, r1);
      } else {
        RecordStage(c, base, i, [], a, n, r1, Told(row, [], a));
      }
  }

  /** What the run knows of folders is what was told. */
  predicate Knows(f: Folders, r: Run) {
    r.folderIds == f.ensured && r.index.Keys == f.read
  }

  /** A row that its folder shows once is adopted, with that message's entry id. */
  lemma AdoptionTold(c: Config, base: Snapshot, i: nat, a: Answers, n: nat, r: Run, f: Folders)
    requires i < |base.working.files|
    requires var row := base.working.files[i];
      c.resume && Knows(f, r) && FreshFor(c, r, row) && LogInStages(c, base, i, Matches(c, base.pst, f, row, a), a, n, r)
      && Holds(base.pst, [], r.pst) && r.working.files[i] == Started(row)
    ensures var row := base.working.files[i]; var matches := Matches(c, base.pst, f, row, a);
      var (b, adoption) := TryAdopt(c, r, i, row, a);
      && LogInStages(c, base, i, matches, a, n, b) && Holds(base.pst, [], b.pst) && Knows(Looked(c, f, row, a), b)
      && adoption == (if matches == [] then NotFound else if |matches| == 1 then Adopted else Ambiguous)
      && (adoption.NotFound? ==> b.working.files[i] == Started(row) && SameCounts(r, b))
      && (adoption.Adopted? ==> b.working.files[i] == Told(row, matches, a) && CountedAs(r, b, Imported))
  {
    hide InStages, EnsureFolder, Hits, Contents;
    var row := base.working.files[i];
    var matches := Matches(c, base.pst, f, row, a);
    InRange(c, base, i, matches, a, Current(r));
    AdoptionTrace(c, r, i, row, a);
    FolderStage(c, base, i, matches, a, n, r, row.target, a.lookup);
    HoldsNothing(base.pst, r.pst);
    var (r1, ok) := EnsureFolder(r, row.target, a.lookup);
    HoldsNothing(base.pst, TryAdopt(c, r, i, row, a).0.pst);
    FolderTrace(r, row.target, a.lookup);
    if ok && (row.target in r1.index || a.readOk) && matches != [] {
      var r2 := Indexed(r1, row.target);
      assert Current(r2) == Current(r1);
      if |matches| == 1 { RecordStage(c, base, i, matches, a, n, r2, Told(row, matches, a)); }
    }
  }

  lemma RowTold(c: Config, i: nat, a: Answers, r: Run, f: Folders)
    requires i < |r.working.files| && Knows(f, r) && (c.resume ==> FreshFor(c, r, r.working.files[i]))
    ensures var row := r.working.files[i]; var matches := Matches(c, r.pst, f, row, a);
      var (b, fatal) := ProcessRow(c, r, i, row, a);
      && RowDone(c, Current(r), i, matches, a, |r.seen|, r, b, fatal)
      && (fatal.None? ==> Knows(FoldersAfter(c, f, row, matches, a), b))
  {
    hide InStages, TryAdopt, ReadAndConvert, Hits, Contents;
    var row := r.working.files[i];
    var base, n, matches := Current(r), |r.seen|, Matches(c, r.pst, f, row, a);
    StartsInStages(c, r, i, matches, a);
    var m := MarkStarted(r, i);
    RecordStage(c, base, i, matches, a, n, r, Started(row));
    if !c.resume {
      ReadingTold(c, base, i, a, n, m);
    } else {
      AdoptionTold(c, base, i, a, n, m, f);
      var (t, adoption) := TryAdopt(c, m, i, row, a);
      if adoption.NotFound? { ReadingTold(c, base, i, a, n, t); }
    }
  }

  lemma StartsInStages(c: Config, r: Run, i: nat, matches: seq<TrackedMessage>, a: Answers)
    requires i < |r.working.files|
    ensures LogInStages(c, Current(r), i, matches, a, |r.seen|, r) && Holds(r.pst, [], r.pst)
  {
    HoldsNothing(r.pst, r.pst);
  }

  lemma RowStops(c: Config, i: nat, a: Answers, r: Run, f: Folders)
    requires i < |r.working.files| && Knows(f, r) && (c.resume ==> FreshFor(c, r, r.working.files[i]))
    ensures var row := r.working.files[i]; var matches := Matches(c, r.pst, f, row, a);
      var (b, fatal) := ProcessRow(c, r, i, row, a);
      && fatal == StopOf(c, f, row, matches, a, r.systemic)
      && (fatal.None? ==> b.systemic == CountAfter(matches, a, r.systemic))
  {
    hide TryAdopt, ReadAndConvert, Hits, Contents, Trips, Count, RowEvents, FoldersOpen;
    var row := r.working.files[i];
    var m := MarkStarted(r, i);
    if !c.resume {
      ConversionCounts(c, m, i, row, a);
    } else {
      AdoptionTrace(c, m, i, row, a);
      ConversionCounts(c, TryAdopt(c, m, i, row, a).0, i, row, a);
    }
  }

  // ---- The table of folders ----

  /** The rows of the folders that were ensured hold their entry ids. */
  function Recorded(folders: seq<FolderRow>, ensured: set<string>): (recorded: seq<FolderRow>)
    ensures |recorded| == |folders|
  {
    seq(|folders|, i requires 0 <= i < |folders| =>
      if folders[i].target in ensured then folders[i].(entryId := Some(folders[i].target)) else folders[i])
  }

  ghost predicate Recording(folders: seq<FolderRow>, r: Run) {
    r.working.folders == Recorded(folders, r.folderIds)
  }

  lemma EnsuringRecords(folders: seq<FolderRow>, r: Run, folder: string, answer: FolderAnswer)
    requires Recording(folders, r)
    ensures Recording(folders, EnsureFolder(r, folder, answer).0)
  {
    var b := EnsureFolder(r, folder, answer).0;
    if b.folderIds != r.folderIds {
      assert WithFolderEntry(Recorded(folders, r.folderIds), folder) == Recorded(folders, r.folderIds + {folder});
    }
  }

  lemma ConversionRecords(folders: seq<FolderRow>, c: Config, r: Run, i: nat, row: FileRow, a: Answers)
    requires i < |r.working.files| && Recording(folders, r)
    ensures Recording(folders, ReadAndConvert(c, r, i, row, a).0)
  {
    hide EnsureFolder, Recorded;
    if CanBeRead(a) {
      var h := SetSha(r, i, a.digest.sha);
      EnsuringRecords(folders, h, row.target, a.target);
      var o := EnsureFolder(h, row.target, a.target).0;
      if NeedsFallback(a) {
        var e := if IsSystemic(a.importing.op) then o.(systemic := o.systemic + 1) else o;
        EnsuringRecords(folders, e, CONVERSION_ERRORS, a.errors);
      }
    }
  }

  lemma RowRecords(folders: seq<FolderRow>, c: Config, r: Run, i: nat, row: FileRow, a: Answers)
    requires i < |r.working.files| && Recording(folders, r)
    ensures Recording(folders, ProcessRow(c, r, i, row, a).0)
  {
    hide EnsureFolder, ReadAndConvert, Recorded, Hits;
    var m := MarkStarted(r, i);
    if !c.resume {
      ConversionRecords(folders, c, m, i, row, a);
    } else {
      EnsuringRecords(folders, m, row.target, a.lookup);
      ConversionRecords(folders, c, TryAdopt(c, m, i, row, a).0, i, row, a);
    }
  }
}
