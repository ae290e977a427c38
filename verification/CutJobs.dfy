/** Small jobs in which a cut leads to a PST that does not pass validation. */
module CutJobs {
  import opened Wrappers
  import opened Store
  import opened ImportProtocol
  import opened ProtocolSafety
  import opened RunSafety
  import opened History
  import opened DigestClashes
  import opened Validation
  import opened JobValidation
  import opened ResumeIndex

  /** A run over one pending row. */
  lemma OneRowRun(c: Config, d: Durable, a: Attempt)
    requires c.batchSize > 1 && |d.db.files| == 1 && d.db.files[0].status == Pending
    requires !a.env(0).cancelled && a.env(0).beginOk && a.lastCommitOk
    ensures var r0 := BeginBatch(Start(d.pst, d.db));
      var (r1, fatal) := ProcessRow(c, r0, 0, d.db.files[0], a.env(0));
      r1.batchOpen && r1.batchRows == 0 ==>
        Attempted(c, d, a) == if fatal.Some? then (Commit(r1), WasFatal(fatal.value))
                              else (Commit(Report(Counted(r1), 1)), Completed)
  {
    hide ProcessRow;
    var start := Start(d.pst, d.db);
    var (r1, fatal) := ProcessRow(c, BeginBatch(start), 0, d.db.files[0], a.env(0));
    if fatal.None? && r1.batchOpen && r1.batchRows == 0 {
      var r2 := Report(Counted(r1), 1);
      assert Rows(c, start, d.db.files, 0, a.env) == Rows(c, r2, d.db.files, 1, a.env);
      assert Rows(c, r2, d.db.files, 1, a.env) == (r2, Completed);
    }
  }

  /** The first folder that a run without cached folders opens; there is no folder map. */
  lemma FolderOpened(r: Run, folder: string)
    requires folder !in r.folderIds && r.working.folders == []
    ensures var r1 := Saw(r.(pst := Ensured(r.pst, {folder})));
      EnsureFolder(r, folder, FolderAnswer(true, {})) == (Saw(r1.(folderIds := r1.folderIds + {folder})), true)
  {
    assert {} + {folder} == {folder};
    assert WithFolderEntry([], folder) == [];
  }

  // ---- A fallback lost ----

  const UNCONVERTIBLE: Answers :=
    Ready(true, 1).(importing := ImportFailed(OtherOperation("convert"), 1, 1), fallback := FallbackOk(2))

  const LOSING: Attempt := Attempt(k => UNCONVERTIBLE, true, Some(7))
  const PRESERVING: Attempt := Attempt(k => UNCONVERTIBLE, true, None)

  function Note(c: Config): TrackedMessage {
    TrackedMessage(2, PAGE.path, "d", c.runId, true)
  }

  function NoteDisk(notes: seq<TrackedMessage>): Pst {
    map[PAGE.target := [], CONVERSION_ERRORS := notes]
  }

  const HASHED: FileRow := PAGE.(attempts := 1, sha := "d")
  const KEPT: FileRow := HASHED.(status := PreservedAsAttachment, hresult := 1)

  lemma PageFallsBack(c: Config, r: Run)
    requires |r.working.files| == 1 && PAGE.target in r.folderIds
    ensures ConvertRow(c, r, 0, PAGE, "d", UNCONVERTIBLE) == PreserveRow(c, r, 0, PAGE, "d", 1, UNCONVERTIBLE)
  {
    hide PreserveRow;
  }

  /** The import fails, the errors folder is opened and the fallback saved; four states are logged. */
  lemma PageIsKept(c: Config, r: Run, notes: seq<TrackedMessage>)
    requires r.working == Tables([HASHED], []) && r.folderIds == {PAGE.target}
    requires r.pst == NoteDisk(notes) || (r.pst == map[PAGE.target := []] && notes == [])
    ensures var (b, fatal) := ConvertRow(c, r, 0, PAGE, "d", UNCONVERTIBLE);
      && fatal == None && b.batchOpen == r.batchOpen && b.batchRows == r.batchRows && b.committed == r.committed
      && b.pst == NoteDisk(notes + [Note(c)]) && b.working == Tables([KEPT], [])
      && |b.seen| == |r.seen| + 4 && r.seen <= b.seen
      && b.seen[|r.seen| + 2] == Snapshot(NoteDisk(notes + [Note(c)]), r.committed, r.working)
  {
    hide ConvertRow, EnsureFolder;
    PageFallsBack(c, r);
    FolderOpened(r, CONVERSION_ERRORS);
    var o := EnsureFolder(r, CONVERSION_ERRORS, UNCONVERTIBLE.errors).0;
    assert o.pst == NoteDisk(notes);
    var s := Deliver(o, CONVERSION_ERRORS, Note(c));
    assert s.pst == NoteDisk(notes + [Note(c)]);
  }

  /** The first steps of the first run: started, hashed, target folder opened. */
  lemma PageIsHashed(c: Config, r: Run)
    requires r == BeginBatch(Start(map[], Tables([PAGE], [])))
    ensures var h := SetSha(MarkStarted(r, 0), 0, "d");
      var o := EnsureFolder(h, PAGE.target, FolderAnswer(true, {}));
      && o.1 && o.0.working == Tables([HASHED], []) && o.0.committed == r.committed && o.0.folderIds == {PAGE.target}
      && o.0.pst == map[PAGE.target := []] && |o.0.seen| == 5 && o.0.batchOpen && o.0.batchRows == 0
  {
    var h := SetSha(MarkStarted(r, 0), 0, "d");
    assert h.working == Tables([HASHED], []) && |h.seen| == 3;
    FolderOpened(h, PAGE.target);
    hide WithFolderEntry;
    assert Ensured(map[], {PAGE.target}) == map[PAGE.target := []];
    assert {} + {PAGE.target} == {PAGE.target};
  }

  /** The first run, to the state in which the fallback is saved and its row is not. */
  lemma FallbackIsCut(c: Config)
    requires !c.resume && c.batchSize > 1
    ensures Survivor(c, Created([PAGE], []), LOSING) == Durable(NoteDisk([Note(c)]), Tables([PAGE], []))
  {
    hide EnsureFolder, ConvertRow, Execute;
    var d := Created([PAGE], []);
    var r := BeginBatch(Start(d.pst, d.db));
    PageIsHashed(c, r);
    var h := SetSha(MarkStarted(r, 0), 0, "d");
    var o := EnsureFolder(h, PAGE.target, FolderAnswer(true, {})).0;
    PageIsKept(c, o, []);
    assert [] + [Note(c)] == [Note(c)];
    var (b, fatal) := ConvertRow(c, o, 0, PAGE, "d", UNCONVERTIBLE);
    assert ConvertRow(c, h, 0, PAGE, "d", UNCONVERTIBLE) == (b, fatal) by { FolderIsOpen(c, h, UNCONVERTIBLE); }
    assert ProcessRow(c, r, 0, PAGE, UNCONVERTIBLE) == (b, None);
    OneRowRun(c, d, LOSING);
  }

  /** Opening the target folder first changes nothing. */
  lemma FolderIsOpen(c: Config, r: Run, a: Answers)
    requires |r.working.files| == 1 && EnsureFolder(r, PAGE.target, a.target).1
    ensures ConvertRow(c, EnsureFolder(r, PAGE.target, a.target).0, 0, PAGE, "d", a) == ConvertRow(c, r, 0, PAGE, "d", a)
  {
    hide WithFolderEntry, Ensured, ImportFailure;
  }

  /** What a resumed run does before it converts the row if its message is not there. */
  lemma PageIsSought(c: Config, r: Run, row: FileRow, a: Answers)
    requires |r.working.files| == 1 && r.working.folders == [] && row.target == PAGE.target
    requires r.folderIds == {} && r.index == map[] && a.lookup == FolderAnswer(true, {}) && a.readOk
    requires HitsIn(r.pst, PAGE.target, c.runId, row.path) == []
    ensures var (b, adoption) := TryAdopt(c, r, 0, row, a);
      && adoption == NotFound && b.pst == Ensured(r.pst, {PAGE.target}) && b.working == r.working
      && b.committed == r.committed && b.folderIds == {PAGE.target} && b.batchOpen == r.batchOpen
      && b.batchRows == r.batchRows && r.seen <= b.seen && |b.seen| == |r.seen| + 2
  {
    hide Hits;
    FolderOpened(r, PAGE.target);
    assert {} + {PAGE.target} == {PAGE.target};
  }

  /** The resumed run finds nothing in the target folder and saves the fallback again. */
  lemma FallbackIsRepeated(c: Config)
    requires c.resume && c.batchSize > 1
    ensures var (r, ending) := Attempted(c, Durable(NoteDisk([Note(c)]), Tables([PAGE], [])), PRESERVING);
      && ending == Completed && r.committed == Tables([KEPT], []) && r.pst == NoteDisk([Note(c), Note(c)])
  {
    hide TryAdopt, ConvertRow, Execute;
    var d := Durable(NoteDisk([Note(c)]), Tables([PAGE], []));
    var r := BeginBatch(Start(d.pst, d.db));
    var m := MarkStarted(r, 0);
    assert m.working == Tables([PAGE.(attempts := 1)], []);
    assert Hits([], c.runId, PAGE.path) == [];
    PageIsSought(c, m, PAGE, UNCONVERTIBLE);
    assert Ensured(d.pst, {PAGE.target}) == d.pst;
    var t := TryAdopt(c, m, 0, PAGE, UNCONVERTIBLE).0;
    var h := SetSha(t, 0, "d");
    assert h.working == Tables([HASHED], []);
    PageIsKept(c, h, [Note(c)]);
    assert [Note(c)] + [Note(c)] == [Note(c), Note(c)];
    OneRowRun(c, d, PRESERVING);
  }

  /** Runs that can open and read every folder. */
  lemma {:induction false} OpenRunsFit(c: Config, attempts: seq<Attempt>)
    requires forall k, j :: 0 <= k < |attempts| ==> attempts[k].env(j).lookup.ok && attempts[k].env(j).readOk
    ensures HistoryFits(ReadableFolders, c, [PAGE], [], attempts)
  {
    hide After, HitsIn;
  }

  lemma {:induction false} LosingJob(c: Config)
    requires c.batchSize > 1
    ensures After(c, Created([PAGE], []), [LOSING]) == Durable(NoteDisk([Note(c)]), Tables([PAGE], []))
    ensures EndsCompleted(c, [PAGE], [], [LOSING], PRESERVING)
    ensures After(c, Created([PAGE], []), [LOSING] + [PRESERVING]).db == Tables([KEPT], [])
  {
    hide Survivor, Execute, After;
    FallbackIsCut(RunConfig(c, 0));
    FallbackIsRepeated(RunConfig(c, 1));
    NothingYet(c);
    AfterNext(c, Created([PAGE], []), [], LOSING);
    assert [] + [LOSING] == [LOSING];
    LastRun(c, Created([PAGE], []), [LOSING], PRESERVING);
  }

  lemma {:induction false} NothingYet(c: Config)
    ensures After(c, Created([PAGE], []), []) == Created([PAGE], [])
  {
  }

  /** A fallback lost: the first run is cut between saving it and the commit, the second one saves it again
      and completes, and validation counts one message too many. */
  lemma {:induction false} LostFallbackFails(c: Config, view: PstView)
    requires c.batchSize > 1 && c.runId != ""
    requires Shows(view, After(c, Created([PAGE], []), [LOSING] + [PRESERVING]).pst)
    ensures NewJob([PAGE], []) && HistoryFits(ReadableFolders, c, [PAGE], [], [LOSING] + [PRESERVING])
    ensures !NoFallbackLost(c.runId, [PAGE], After(c, Created([PAGE], []), [LOSING]))
    ensures EndsCompleted(c, [PAGE], [], [LOSING], PRESERVING)
    ensures exists issue :: IsIssue(After(c, Created([PAGE], []), [LOSING] + [PRESERVING]).db, view, c.runId, issue)
  {
    hide IsExpected, NoFallbackLost, After, NoClashAtStart, HistoryFits, EndsCompleted, Shows, IsIssue;
    LosingJob(c);
    OneNoteIsLost(c, After(c, Created([PAGE], []), [LOSING]));
    PreservedIsExpected();
    OpenRunsFit(c, [LOSING] + [PRESERVING]);
    assert !NoneLostAtStart(c, [PAGE], [], [LOSING]) by { assert [LOSING][..1] == [LOSING]; }
    CompletedJobValidates(c, [PAGE], [], [LOSING], PRESERVING, view);
  }

  lemma OneNoteIsLost(c: Config, d: Durable)
    requires d == Durable(NoteDisk([Note(c)]), Tables([PAGE], []))
    ensures !NoFallbackLost(c.runId, [PAGE], d)
  {
    assert [Note(c)][1..] == [];
    assert HitsIn(d.pst, CONVERSION_ERRORS, c.runId, PAGE.path) == [Note(c)] + Hits([], c.runId, PAGE.path);
    hide Hits;
    assert !OrphanFree(c.runId, [PAGE], d.pst, d.db.files) by { assert [PAGE][0].target != CONVERSION_ERRORS; }
  }

  lemma PreservedIsExpected()
    ensures IsExpected(Tables([KEPT], []), CONVERSION_ERRORS)
  {
    assert [KEPT][..0] == [] && PreservedRows([KEPT]) == PreservedRows([]) + [KEPT];
  }

  // ---- A digest left behind ----

  const OLD: FileRow := PAGE.(attempts := 1, sha := "d1")

  /** Hashes the file, then cannot open its target folder. */
  const STUCK: Attempt :=
    Attempt(k => Ready(true, 1).(digest := Digest("d1"), target := FolderAnswer(false, {})), true, None)

  /** Hashes it again, differently, saves the message and is cut. */
  const SAVING: Attempt := Attempt(k => Ready(true, 1), true, Some(5))

  /** Adopts the message. */
  const ADOPTING: Attempt := Attempt(k => Ready(true, 1), true, None)

  lemma StuckRunKeepsDigest(c: Config)
    requires !c.resume && c.batchSize > 1
    ensures Survivor(c, Created([PAGE], []), STUCK) == Durable(map[], Tables([OLD], []))
  {
    var d := Created([PAGE], []);
    var r := BeginBatch(Start(d.pst, d.db));
    var h := SetSha(MarkStarted(r, 0), 0, "d1");
    assert h.working == Tables([OLD], []);
    assert Ensured(map[], {}) == map[];
    var b := EnsureFolder(h, PAGE.target, FolderAnswer(false, {})).0;
    assert b == Saw(h);
    assert ProcessRow(c, r, 0, PAGE, STUCK.env(0)) == (b, Some(OutputWriteFailure));
    hide Execute;
    OneRowRun(c, d, STUCK);
  }

  lemma SavingRunIsCut(c: Config)
    requires c.resume && c.batchSize > 1
    ensures Survivor(c, Durable(map[], Tables([OLD], [])), SAVING)
         == Durable(map[PAGE.target := [Copy(c, 1)]], Tables([OLD], []))
  {
    hide TryAdopt, Execute;
    var d := Durable(map[], Tables([OLD], []));
    var a := Ready(true, 1);
    var r := BeginBatch(Start(d.pst, d.db));
    var m := MarkStarted(r, 0);
    assert Hits([], c.runId, PAGE.path) == [];
    PageIsSought(c, m, OLD, a);
    var t := TryAdopt(c, m, 0, OLD, a).0;
    assert t.pst == map[PAGE.target := []];
    var h := SetSha(t, 0, "d");
    var s := Deliver(h, PAGE.target, Copy(c, 1));
    assert [] + [Copy(c, 1)] == [Copy(c, 1)];
    assert s.pst == map[PAGE.target := [Copy(c, 1)]] && |s.seen| == 6;
    assert s.seen[5] == Snapshot(s.pst, d.db, h.working);
    assert EnsureFolder(h, PAGE.target, a.target) == (h, true);
    var b := MarkImported(s, 0, 1).(imported := s.imported + 1, systemic := 0);
    assert ProcessRow(c, r, 0, OLD, a) == (b, None);
    OneRowRun(c, d, SAVING);
  }

  lemma AdoptingRunCompletes(c: Config)
    requires c.resume && c.batchSize > 1
    ensures var d := Durable(map[PAGE.target := [Copy(c, 1)]], Tables([OLD], []));
      var (r, ending) := Attempted(c, d, ADOPTING);
      && ending == Completed && r.pst == d.pst
      && r.committed == Tables([OLD.(attempts := 2, status := Imported, entryId := Some(1))], [])
  {
    hide Execute;
    var d := Durable(map[PAGE.target := [Copy(c, 1)]], Tables([OLD], []));
    var a := Ready(true, 1);
    var r := BeginBatch(Start(d.pst, d.db));
    var m := MarkStarted(r, 0);
    FolderOpened(m, PAGE.target);
    assert Ensured(d.pst, {PAGE.target}) == d.pst;
    OneHit(c);
    var o := EnsureFolder(m, PAGE.target, a.lookup).0;
    hide Hits, EnsureFolder;
    var b := MarkImported(Indexed(o, PAGE.target), 0, 1).(imported := 1);
    assert TryAdopt(c, m, 0, OLD, a) == (b, Adopted);
    assert ProcessRow(c, r, 0, OLD, a) == (b, None);
    OneRowRun(c, d, ADOPTING);
  }

  lemma OneHit(c: Config)
    ensures Hits([Copy(c, 1)], c.runId, PAGE.path) == [Copy(c, 1)]
  {
    assert [Copy(c, 1)][1..] == [];
  }

  lemma {:induction false} AgingJob(c: Config)
    requires c.batchSize > 1
    ensures After(c, Created([PAGE], []), [STUCK, SAVING])
         == Durable(map[PAGE.target := [Copy(c, 1)]], Tables([OLD], []))
    ensures EndsCompleted(c, [PAGE], [], [STUCK, SAVING], ADOPTING)
    ensures var d := After(c, Created([PAGE], []), [STUCK, SAVING] + [ADOPTING]);
      && d.pst == map[PAGE.target := [Copy(c, 1)]]
      && d.db == Tables([OLD.(attempts := 2, status := Imported, entryId := Some(1))], [])
  {
    hide Survivor, Execute, After;
    StuckRunKeepsDigest(RunConfig(c, 0));
    SavingRunIsCut(RunConfig(c, 1));
    AdoptingRunCompletes(RunConfig(c, 2));
    NothingYet(c);
    AfterNext(c, Created([PAGE], []), [], STUCK);
    AfterNext(c, Created([PAGE], []), [STUCK], SAVING);
    assert [] + [STUCK] == [STUCK] && [STUCK] + [SAVING] == [STUCK, SAVING];
    LastRun(c, Created([PAGE], []), [STUCK, SAVING], ADOPTING);
  }

  /** A digest left behind: the first run stores one before it fails, the second saves a message with another
      and is cut, the third adopts the message, which never touches the digest, and completes. No fallback is
      lost and every folder could be read, but validation reports the row. */
  lemma {:induction false} OldDigestFails(c: Config, view: PstView)
    requires c.batchSize > 1 && c.runId != ""
    requires Shows(view, After(c, Created([PAGE], []), [STUCK, SAVING] + [ADOPTING]).pst)
    ensures NewJob([PAGE], []) && HistoryFits(ReadableFolders, c, [PAGE], [], [STUCK, SAVING] + [ADOPTING])
    ensures EndsCompleted(c, [PAGE], [], [STUCK, SAVING], ADOPTING)
    ensures NoFallbackLost(c.runId, [PAGE], After(c, Created([PAGE], []), [STUCK, SAVING] + [ADOPTING]))
    ensures PendingClash(c.runId, After(c, Created([PAGE], []), [STUCK, SAVING]))
    ensures exists issue ::
      IsIssue(After(c, Created([PAGE], []), [STUCK, SAVING] + [ADOPTING]).db, view, c.runId, issue)
  {
    hide NoFallbackLost, NoneLostAtStart, PendingClash, After, HistoryFits, EndsCompleted, Shows, IsIssue;
    AgingJob(c);
    CopyClashes(c, After(c, Created([PAGE], []), [STUCK, SAVING]));
    NoneInErrors(c, After(c, Created([PAGE], []), [STUCK, SAVING] + [ADOPTING]));
    OpenRunsFit(c, [STUCK, SAVING] + [ADOPTING]);
    assert !NoClashAtStart(c, [PAGE], [], [STUCK, SAVING]) by { assert [STUCK, SAVING][..2] == [STUCK, SAVING]; }
    CompletedJobValidates(c, [PAGE], [], [STUCK, SAVING], ADOPTING, view);
  }

  lemma CopyClashes(c: Config, d: Durable)
    requires d == Durable(map[PAGE.target := [Copy(c, 1)]], Tables([OLD], []))
    ensures PendingClash(c.runId, d)
  {
    OneHit(c);
    hide Hits;
    assert Copy(c, 1) in HitsIn(d.pst, OLD.target, c.runId, OLD.path) && ShaDiffers(OLD, Copy(c, 1));
    assert RowClashes(c.runId, d, 0);
  }

  lemma NoneInErrors(c: Config, d: Durable)
    requires |d.db.files| == 1 && !d.db.files[0].status.PreservedAsAttachment? && CONVERSION_ERRORS !in d.pst
    ensures NoFallbackLost(c.runId, [PAGE], d)
  {
  }
}
