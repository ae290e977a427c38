/** What every step of an import run keeps, whatever the environment answers: how many messages of a row may
    stand in its target folder and in the errors folder for each status, in the PST, in the committed tables
    and in the working ones. */
module ProtocolSafety {
  import opened Wrappers
  import opened Store
  import opened ImportProtocol

  /** What is trusted of the environment: nothing; that a resumed run can open and read the target folder
      of a pending row whose message is there; or besides that a path never gets another digest. */
  datatype Trust = Unreliable | ReadableFolders | StableSource(digest: string -> string)

  /** `surplus` is a lower bound on the messages a path has in the errors folder beyond the recorded one;
      `clashing`, if a run is followed, tells the paths whose row and message differed when it started. */
  datatype Source = Source(trust: Trust, surplus: string -> int, clashing: Option<string -> bool>)

  ghost predicate DistinctPaths(plan: seq<FileRow>) {
    forall i, j :: 0 <= i < j < |plan| ==> plan[i].path != plan[j].path
  }

  ghost predicate ShaFits(src: Source, path: string, sha: string) {
    src.trust.StableSource? ==> sha == src.trust.digest(path)
  }

  ghost predicate AllAttached(messages: seq<TrackedMessage>) {
    forall m :: m in messages ==> m.hasAttachments
  }

  /** A message of the row in its target folder has another digest than the one stored for the row. */
  ghost predicate Clashes(runId: string, pst: Pst, row: FileRow) {
    exists m :: m in HitsIn(pst, row.target, runId, row.path) && ShaDiffers(row, m)
  }

  /** A clash stays until the row is adopted and after that, and no row that is IMPORTED gets one. */
  ghost predicate ClashFits(src: Source, runId: string, pst: Pst, row: FileRow) {
    src.clashing.Some? ==>
      if src.clashing.value(row.path)
      then (row.status.Pending? || row.status.Imported?) && Clashes(runId, pst, row)
      else row.status.Imported? ==> !Clashes(runId, pst, row)
  }

  /** How many messages a row's status allows in its target folder and in the errors folder, and what is
      known of their digests. */
  ghost predicate RowSafe(src: Source, runId: string, pst: Pst, row: FileRow) {
    var here := HitsIn(pst, row.target, runId, row.path);
    var errors := HitsIn(pst, CONVERSION_ERRORS, runId, row.path);
    && (row.target != CONVERSION_ERRORS ==>
          |errors| >= src.surplus(row.path) + if row.status.PreservedAsAttachment? then 1 else 0)
    && (src.trust.Unreliable? || (
    && (row.sha == "" || ShaFits(src, row.path, row.sha))
    && (row.target != CONVERSION_ERRORS || row.status.PreservedAsAttachment? ==> AllAttached(errors))
    && (row.status.PreservedAsAttachment? ==> exists m :: m in errors && m.sha == row.sha)
    && ClashFits(src, runId, pst, row)
    && match row.status
       case Pending => |here| <= 1
       case Imported => |here| == 1
       case PreservedAsAttachment => |errors| >= 1 && |here| == if row.target == CONVERSION_ERRORS then 1 else 0
       case FailedSourceRead => |here| == 0
       case FailedMapi => |here| == 0))
  }

  ghost predicate SamePlan(plan: seq<FileRow>, files: seq<FileRow>) {
    && |files| == |plan|
    && forall i :: 0 <= i < |plan| ==> files[i].path == plan[i].path && files[i].target == plan[i].target
  }

  ghost predicate TablesSafe(src: Source, runId: string, plan: seq<FileRow>, pst: Pst, t: Tables) {
    && SamePlan(plan, t.files)
    && (forall i :: 0 <= i < |t.files| ==> RowSafe(src, runId, pst, t.files[i]))
    && (forall i :: 0 <= i < |t.folders| && t.folders[i].entryId.Some? ==> t.folders[i].target in pst)
  }

  ghost predicate OwnedBy(plan: seq<FileRow>, folder: string, path: string, i: nat) {
    i < |plan| && plan[i].path == path && (folder == plan[i].target || folder == CONVERSION_ERRORS)
  }

  /** No message that this job did not save. */
  ghost predicate OnlyOurs(src: Source, runId: string, plan: seq<FileRow>, pst: Pst) {
    forall f, m :: f in pst && m in pst[f] ==>
      m.runId == runId && ShaFits(src, m.path, m.sha) && exists i :: OwnedBy(plan, f, m.path, i)
  }

  /** A settled row that is committed is what the open batch has too. */
  ghost predicate Settling(committed: Tables, working: Tables) {
    && |committed.files| == |working.files|
    && forall i :: 0 <= i < |committed.files| && committed.files[i].status != Pending ==>
         working.files[i] == committed.files[i]
  }

  ghost predicate SnapSafe(src: Source, runId: string, plan: seq<FileRow>, s: Snapshot) {
    && TablesSafe(src, runId, plan, s.pst, s.committed)
    && TablesSafe(src, runId, plan, s.pst, s.working)
    && OnlyOurs(src, runId, plan, s.pst)
    && Settling(s.committed, s.working)
  }

  ghost predicate RunSafe(src: Source, runId: string, plan: seq<FileRow>, r: Run) {
    && SnapSafe(src, runId, plan, Current(r))
    && (forall s :: s in r.seen ==> SnapSafe(src, runId, plan, s))
    && r.folderIds <= r.pst.Keys
  }

  lemma DeliveredHits(pst: Pst, folder: string, m: TrackedMessage, g: string, runId: string, path: string)
    ensures HitsIn(Delivered(pst, folder, m), g, runId, path)
         == HitsIn(pst, g, runId, path)
            + if g == folder && m.runId == runId && m.path == path then [m] else []
  {
    HitsConcat(Contents(pst, folder), [m], runId, path);
  }

  lemma SameContentsSafe(src: Source, runId: string, a: Pst, b: Pst, row: FileRow)
    requires RowSafe(src, runId, a, row) && forall f :: Contents(a, f) == Contents(b, f)
    ensures RowSafe(src, runId, b, row)
  {
    hide Hits;
  }

  lemma EnsureIsSafe(src: Source, runId: string, plan: seq<FileRow>, s: Snapshot, folders: set<string>)
    requires SnapSafe(src, runId, plan, s)
    ensures SnapSafe(src, runId, plan, s.(pst := Ensured(s.pst, folders)))
  {
    hide RowSafe, ShaFits, OwnedBy;
    var pst := Ensured(s.pst, folders);
    assert forall f :: Contents(pst, f) == Contents(s.pst, f);
    forall t | t == s.committed || t == s.working
      ensures TablesSafe(src, runId, plan, pst, t)
    {
      forall i | 0 <= i < |t.files| ensures RowSafe(src, runId, pst, t.files[i]) {
        SameContentsSafe(src, runId, s.pst, pst, t.files[i]);
      }
    }
    forall f: string, m: TrackedMessage | f in pst && m in pst[f]
      ensures m.runId == runId && ShaFits(src, m.path, m.sha) && exists i :: OwnedBy(plan, f, m.path, i)
    {
      assert m in Contents(s.pst, f);
    }
  }

  /** Rewriting one still uncommitted row, to a status its messages allow. */
  lemma UpdateIsSafe(src: Source, runId: string, plan: seq<FileRow>, s: Snapshot, i: nat, row: FileRow)
    requires SnapSafe(src, runId, plan, s)
    requires i < |plan| && s.committed.files[i].status == Pending
    requires row.path == plan[i].path && row.target == plan[i].target
    requires RowSafe(src, runId, s.pst, row)
    ensures SnapSafe(src, runId, plan, s.(working := WithFile(s.working, i, row)))
  {
    var t := WithFile(s.working, i, row);
    forall j | 0 <= j < |t.files| ensures RowSafe(src, runId, s.pst, t.files[j]) {
      if j != i { assert RowSafe(src, runId, s.pst, s.working.files[j]); }
    }
  }

  /** Saving a message of another path leaves a row as it was. */
  lemma DeliverKeepsOtherRow(src: Source, runId: string, pst: Pst, row: FileRow, folder: string, m: TrackedMessage)
    requires RowSafe(src, runId, pst, row) && m.path != row.path
    ensures RowSafe(src, runId, Delivered(pst, folder, m), row)
  {
    DeliveredHits(pst, folder, m, row.target, runId, row.path);
    DeliveredHits(pst, folder, m, CONVERSION_ERRORS, runId, row.path);
  }

  /** A pending row without a message may be given one. */
  lemma DeliverToPendingRow(src: Source, runId: string, pst: Pst, row: FileRow, folder: string, m: TrackedMessage)
    requires RowSafe(src, runId, pst, row) && row.status == Pending
    requires src.trust.Unreliable? || |HitsIn(pst, row.target, runId, row.path)| == 0
    requires folder == row.target || (folder == CONVERSION_ERRORS && m.hasAttachments)
    ensures RowSafe(src, runId, Delivered(pst, folder, m), row)
  {
    DeliveredHits(pst, folder, m, row.target, runId, row.path);
    DeliveredHits(pst, folder, m, CONVERSION_ERRORS, runId, row.path);
  }

  lemma DeliverKeepsTables(src: Source, runId: string, plan: seq<FileRow>, pst: Pst, t: Tables, i: nat,
                           folder: string, m: TrackedMessage)
    requires TablesSafe(src, runId, plan, pst, t) && DistinctPaths(plan) && i < |plan|
    requires m.path == plan[i].path && t.files[i].status == Pending
    requires src.trust.Unreliable? || |HitsIn(pst, plan[i].target, runId, m.path)| == 0
    requires folder == plan[i].target || (folder == CONVERSION_ERRORS && m.hasAttachments)
    ensures TablesSafe(src, runId, plan, Delivered(pst, folder, m), t)
  {
    forall j | 0 <= j < |t.files|
      ensures RowSafe(src, runId, Delivered(pst, folder, m), t.files[j])
    {
      if j == i {
        DeliverToPendingRow(src, runId, pst, t.files[j], folder, m);
      } else {
        DeliverKeepsOtherRow(src, runId, pst, t.files[j], folder, m);
      }
    }
  }

  lemma DeliverKeepsOwnership(src: Source, runId: string, plan: seq<FileRow>, pst: Pst, i: nat, folder: string,
                              m: TrackedMessage)
    requires OnlyOurs(src, runId, plan, pst)
    requires m.runId == runId && ShaFits(src, m.path, m.sha) && OwnedBy(plan, folder, m.path, i)
    ensures OnlyOurs(src, runId, plan, Delivered(pst, folder, m))
  {
    var after := Delivered(pst, folder, m);
    forall f: string, x: TrackedMessage | f in after && x in after[f]
      ensures x.runId == runId && ShaFits(src, x.path, x.sha) && exists k :: OwnedBy(plan, f, x.path, k)
    {
      if f == folder && x == m {
      } else {
        assert x in Contents(pst, f);
      }
    }
  }

  /** Saving one message of a row that neither table has settled. */
  lemma DeliverIsSafe(src: Source, runId: string, plan: seq<FileRow>, s: Snapshot, i: nat, folder: string, m: TrackedMessage)
    requires SnapSafe(src, runId, plan, s) && DistinctPaths(plan) && i < |plan|
    requires m.path == plan[i].path && m.runId == runId && ShaFits(src, m.path, m.sha)
    requires s.committed.files[i].status == Pending && s.working.files[i].status == Pending
    requires src.trust.Unreliable? || |HitsIn(s.pst, plan[i].target, runId, m.path)| == 0
    requires folder == plan[i].target || (folder == CONVERSION_ERRORS && m.hasAttachments)
    ensures SnapSafe(src, runId, plan, s.(pst := Delivered(s.pst, folder, m)))
  {
    DeliverKeepsTables(src, runId, plan, s.pst, s.committed, i, folder, m);
    DeliverKeepsTables(src, runId, plan, s.pst, s.working, i, folder, m);
    DeliverKeepsOwnership(src, runId, plan, s.pst, i, folder, m);
  }

  /** Processing row i touches nothing but row i and messages of its path, and commits nothing. */
  ghost predicate RowEffect(runId: string, plan: seq<FileRow>, i: nat, a: Run, b: Run)
    requires i < |plan|
  {
    && b.committed == a.committed && b.batchOpen == a.batchOpen && b.batchRows == a.batchRows
    && b.processed == a.processed && b.updates == a.updates
    && SameButRow(a.working.files, b.working.files, i)
    && a.seen <= b.seen
    && (forall s :: s in b.seen[|a.seen|..] ==> s.committed == a.committed && SameButRow(a.working.files, s.working.files, i))
    && (forall f, p :: p != plan[i].path ==> HitsIn(b.pst, f, runId, p) == HitsIn(a.pst, f, runId, p))
  }

  ghost predicate SameButRow(a: seq<FileRow>, b: seq<FileRow>, i: nat) {
    |a| == |b| && forall j :: 0 <= j < |a| && j != i ==> a[j] == b[j]
  }

  lemma RowEffectTransitive(runId: string, plan: seq<FileRow>, i: nat, a: Run, b: Run, c: Run)
    requires i < |plan| && RowEffect(runId, plan, i, a, b) && RowEffect(runId, plan, i, b, c)
    ensures RowEffect(runId, plan, i, a, c)
  {
    assert c.seen[|a.seen|..] == b.seen[|a.seen|..] + c.seen[|b.seen|..];
  }

  function Outcomes(r: Run): nat {
    r.imported + r.preserved + r.failedRead + r.failedMapi
  }

  function ErrorHits(runId: string, plan: seq<FileRow>, i: nat, r: Run): nat
    requires i < |plan|
  {
    |HitsIn(r.pst, CONVERSION_ERRORS, runId, plan[i].path)|
  }

  /** The row to be processed is pending in both tables and is the planned one. */
  ghost predicate AtRow(src: Source, runId: string, plan: seq<FileRow>, r: Run, i: nat, row: FileRow) {
    && DistinctPaths(plan) && RunSafe(src, runId, plan, r)
    && i < |plan| == |r.working.files| == |r.committed.files|
    && row.path == plan[i].path && row.target == plan[i].target
    && r.committed.files[i].status == Pending && r.working.files[i].status == Pending
    && ClashKnown(src, runId, r.pst, r.working.files[i])
  }

  /** A pending row that is yet to be processed clashes only if it did when the run started. */
  ghost predicate ClashKnown(src: Source, runId: string, pst: Pst, row: FileRow) {
    !src.trust.Unreliable? && src.clashing.Some? && Clashes(runId, pst, row) ==> src.clashing.value(row.path)
  }

  ghost predicate NotYetSaved(src: Source, runId: string, plan: seq<FileRow>, r: Run, i: nat)
    requires i < |plan|
  {
    src.trust.Unreliable? || HitsIn(r.pst, plan[i].target, runId, plan[i].path) == []
  }

  /** What processing row i has done when it returns. */
  ghost predicate RowOutcome(src: Source, runId: string, plan: seq<FileRow>, i: nat, a: Run, b: Run, fatal: Option<ExitCode>)
    requires i < |plan|
  {
    && RunSafe(src, runId, plan, b)
    && RowEffect(runId, plan, i, a, b)
    && (fatal == Some(ResumeIntegrityError) ==> src.trust.Unreliable?)
    && (fatal.None? ==> b.working.files[i].status != Pending && Outcomes(b) == Outcomes(a) + 1)
    && (plan[i].target != CONVERSION_ERRORS ==>
          ErrorHits(runId, plan, i, b) == ErrorHits(runId, plan, i, a)
            + if b.working.files[i].status.PreservedAsAttachment? then 1 else 0)
  }

  lemma UpdateFileSafe(src: Source, runId: string, plan: seq<FileRow>, r: Run, i: nat, row: FileRow)
    requires RunSafe(src, runId, plan, r) && i < |plan| && r.committed.files[i].status == Pending
    requires row.path == plan[i].path && row.target == plan[i].target
    requires RowSafe(src, runId, r.pst, row)
    ensures RunSafe(src, runId, plan, UpdateFile(r, i, row))
    ensures RowEffect(runId, plan, i, r, UpdateFile(r, i, row))
  {
    UpdateIsSafe(src, runId, plan, Current(r), i, row);
  }

  lemma FolderEntryIsSafe(src: Source, runId: string, plan: seq<FileRow>, s: Snapshot, folder: string)
    requires SnapSafe(src, runId, plan, s) && folder in s.pst
    ensures SnapSafe(src, runId, plan,
      s.(working := s.working.(folders := WithFolderEntry(s.working.folders, folder))))
  {
    var t := s.working.(folders := WithFolderEntry(s.working.folders, folder));
    hide RowSafe;
    assert TablesSafe(src, runId, plan, s.pst, s.working);
    assert TablesSafe(src, runId, plan, s.pst, t);
  }

  lemma EnsureFolderSafe(src: Source, runId: string, plan: seq<FileRow>, r: Run, folder: string, a: FolderAnswer)
    requires RunSafe(src, runId, plan, r)
    ensures RunSafe(src, runId, plan, EnsureFolder(r, folder, a).0)
  {
    if folder !in r.folderIds {
      var chain := a.created + if a.ok then {folder} else {};
      var r1 := Saw(r.(pst := Ensured(r.pst, chain)));
      EnsureIsSafe(src, runId, plan, Current(r), chain);
      hide SnapSafe;
      assert RunSafe(src, runId, plan, r1);
      if a.ok {
        FolderEntryIsSafe(src, runId, plan, Current(r1), folder);
      }
    }
  }

  /** A state logged without touching a file row or a message. */
  lemma SawEffect(runId: string, plan: seq<FileRow>, a: Run, i: nat, pst: Pst, folderIds: set<string>,
                  folders: seq<FolderRow>)
    requires i < |plan| && forall f :: Contents(pst, f) == Contents(a.pst, f)
    ensures var b := Saw(a.(pst := pst, folderIds := folderIds, working := a.working.(folders := folders)));
      RowEffect(runId, plan, i, a, b)
  {
    hide Hits, Contents;
    var b := Saw(a.(pst := pst, folderIds := folderIds, working := a.working.(folders := folders)));
    assert b.seen[|a.seen|..] == [Snapshot(pst, a.committed, a.working.(folders := folders))];
  }

  lemma EnsureFolderEffect(runId: string, plan: seq<FileRow>, r: Run, i: nat, folder: string, a: FolderAnswer)
    requires i < |plan|
    ensures var (r1, ok) := EnsureFolder(r, folder, a);
      && RowEffect(runId, plan, i, r, r1)
      && r1.working.files == r.working.files && Outcomes(r1) == Outcomes(r) && r1.index == r.index
      && (forall f :: Contents(r1.pst, f) == Contents(r.pst, f))
      && (a.ok ==> ok)
  {
    hide RowEffect, WithFolderEntry;
    if folder !in r.folderIds {
      var pst := Ensured(r.pst, a.created + if a.ok then {folder} else {});
      SawEffect(runId, plan, r, i, pst, r.folderIds, r.working.folders);
      var r1 := Saw(r.(pst := pst));
      assert r1 == Saw(r.(pst := pst, folderIds := r.folderIds, working := r.working.(folders := r.working.folders)));
      if a.ok {
        SawEffect(runId, plan, r1, i, pst, r.folderIds + {folder}, WithFolderEntry(r.working.folders, folder));
        var r2 := EnsureFolder(r, folder, a).0;
        assert r2 == Saw(r1.(pst := pst, folderIds := r.folderIds + {folder},
          working := r.working.(folders := WithFolderEntry(r.working.folders, folder))));
        RowEffectTransitive(runId, plan, i, r, r1, r2);
      }
    } else {
      NoEffect(runId, plan, i, r);
    }
  }

  lemma NoEffect(runId: string, plan: seq<FileRow>, i: nat, r: Run)
    requires i < |plan|
    ensures RowEffect(runId, plan, i, r, r)
  {
  }

  lemma DeliverSafe(src: Source, runId: string, plan: seq<FileRow>, r: Run, i: nat, row: FileRow, folder: string,
                    m: TrackedMessage)
    requires AtRow(src, runId, plan, r, i, row) && NotYetSaved(src, runId, plan, r, i)
    requires m.path == row.path && m.runId == runId && ShaFits(src, m.path, m.sha)
    requires folder == row.target || (folder == CONVERSION_ERRORS && m.hasAttachments)
    ensures var r1 := Deliver(r, folder, m);
      RunSafe(src, runId, plan, r1) && RowEffect(runId, plan, i, r, r1)
  {
    hide RowSafe, OnlyOurs, Hits, OwnedBy, TablesSafe;
    DeliverIsSafe(src, runId, plan, Current(r), i, folder, m);
    forall f, p | p != plan[i].path
      ensures HitsIn(Delivered(r.pst, folder, m), f, runId, p) == HitsIn(r.pst, f, runId, p)
    {
      DeliveredHits(r.pst, folder, m, f, runId, p);
    }
  }

  /** Settling a row to a status that its messages allow. */
  lemma SettleSafe(src: Source, runId: string, plan: seq<FileRow>, a: Run, i: nat, row: FileRow)
    requires RunSafe(src, runId, plan, a) && i < |plan| && a.committed.files[i].status == Pending
    requires row == a.working.files[i].(status := row.status, entryId := row.entryId, hresult := row.hresult)
    requires RowSafe(src, runId, a.pst, row)
    ensures RunSafe(src, runId, plan, UpdateFile(a, i, row)) && RowEffect(runId, plan, i, a, UpdateFile(a, i, row))
  {
    UpdateFileSafe(src, runId, plan, a, i, row);
  }

  predicate SameButTally(a: Run, b: Run) {
    b == a.(imported := b.imported, preserved := b.preserved, failedRead := b.failedRead,
            failedMapi := b.failedMapi, systemic := b.systemic)
  }

  /** Only counters moved, or folders were opened, before the rest of the row was processed. */
  lemma OutcomeAfter(src: Source, runId: string, plan: seq<FileRow>, i: nat, a: Run, b: Run, c: Run, fatal: Option<ExitCode>)
    requires i < |plan| && RowEffect(runId, plan, i, a, b) && Outcomes(a) == Outcomes(b)
    requires ErrorHits(runId, plan, i, a) == ErrorHits(runId, plan, i, b)
    requires RowOutcome(src, runId, plan, i, b, c, fatal)
    ensures RowOutcome(src, runId, plan, i, a, c, fatal)
  {
    RowEffectTransitive(runId, plan, i, a, b, c);
  }

  /** A row given up on, with any of its counters moved. */
  lemma FailedRowOutcome(src: Source, runId: string, plan: seq<FileRow>, r: Run, i: nat, row: FileRow,
                         status: Status, hresult: int, b: Run, fatal: Option<ExitCode>)
    requires AtRow(src, runId, plan, r, i, row) && NotYetSaved(src, runId, plan, r, i)
    requires status.FailedMapi? || status.FailedSourceRead?
    requires SameButTally(MarkStatus(r, i, status, hresult), b) && Outcomes(b) == Outcomes(r) + 1
    requires fatal != Some(ResumeIntegrityError)
    ensures RowOutcome(src, runId, plan, i, r, b, fatal)
  {
    assert RowSafe(src, runId, r.pst, r.working.files[i]);
    SettleSafe(src, runId, plan, r, i, r.working.files[i].(status := status, hresult := hresult));
  }

  /** A message just saved in the target or the errors folder allows its row to be marked so. */
  lemma SavedRowSafe(src: Source, runId: string, plan: seq<FileRow>, r: Run, i: nat, row: FileRow,
                     folder: string, m: TrackedMessage, settled: FileRow)
    requires AtRow(src, runId, plan, r, i, row) && NotYetSaved(src, runId, plan, r, i)
    requires m.path == row.path && m.runId == runId && m.sha == r.working.files[i].sha
    requires settled == r.working.files[i].(status := settled.status, entryId := settled.entryId, hresult := settled.hresult)
    requires (folder == row.target && settled.status.Imported?)
          || (folder == CONVERSION_ERRORS && m.hasAttachments && settled.status.PreservedAsAttachment?)
    ensures RowSafe(src, runId, Delivered(r.pst, folder, m), settled)
  {
    DeliveredHits(r.pst, folder, m, CONVERSION_ERRORS, runId, row.path);
    DeliveredHits(r.pst, folder, m, row.target, runId, row.path);
    assert RowSafe(src, runId, r.pst, r.working.files[i]);
  }

  lemma SavedRowOutcome(src: Source, runId: string, plan: seq<FileRow>, r: Run, i: nat, row: FileRow,
                        folder: string, m: TrackedMessage, settled: FileRow, b: Run)
    requires AtRow(src, runId, plan, r, i, row) && NotYetSaved(src, runId, plan, r, i)
    requires m.path == row.path && m.runId == runId && ShaFits(src, m.path, m.sha) && m.sha == r.working.files[i].sha
    requires settled == r.working.files[i].(status := settled.status, entryId := settled.entryId, hresult := settled.hresult)
    requires (folder == row.target && settled.status.Imported?)
          || (folder == CONVERSION_ERRORS && m.hasAttachments && settled.status.PreservedAsAttachment?)
    requires SameButTally(UpdateFile(Deliver(r, folder, m), i, settled), b) && Outcomes(b) == Outcomes(r) + 1
    ensures RowOutcome(src, runId, plan, i, r, b, None)
  {
    hide RunSafe, RowEffect, HitsIn, RowSafe;
    var r1 := Deliver(r, folder, m);
    var r2 := UpdateFile(r1, i, settled);
    DeliverSafe(src, runId, plan, r, i, row, folder, m);
    SavedRowSafe(src, runId, plan, r, i, row, folder, m, settled);
    SettleSafe(src, runId, plan, r1, i, settled);
    RowEffectTransitive(runId, plan, i, r, r1, r2);
    TallyDoesNotMatter(src, runId, plan, i, r, r2, b);
    DeliveredHits(r.pst, folder, m, CONVERSION_ERRORS, runId, row.path);
  }

  lemma TallyDoesNotMatter(src: Source, runId: string, plan: seq<FileRow>, i: nat, a: Run, b: Run, d: Run)
    requires SameButTally(b, d) && i < |plan| && RowEffect(runId, plan, i, a, b) && RunSafe(src, runId, plan, b)
    ensures RowEffect(runId, plan, i, a, d) && RunSafe(src, runId, plan, d)
  {
    hide SnapSafe, HitsIn;
    assert Current(d) == Current(b);
  }

  lemma AtRowAfter(src: Source, runId: string, plan: seq<FileRow>, r: Run, i: nat, row: FileRow, folder: string,
                   a: FolderAnswer)
    requires AtRow(src, runId, plan, r, i, row) && NotYetSaved(src, runId, plan, r, i)
    ensures var (r1, ok) := EnsureFolder(r, folder, a);
      && AtRow(src, runId, plan, r1, i, row) && NotYetSaved(src, runId, plan, r1, i)
      && r1.working.files == r.working.files
      && RowEffect(runId, plan, i, r, r1) && Outcomes(r) == Outcomes(r1)
      && ErrorHits(runId, plan, i, r) == ErrorHits(runId, plan, i, r1)
  {
    EnsureFolderSafe(src, runId, plan, r, folder, a);
    EnsureFolderEffect(runId, plan, r, i, folder, a);
    hide SnapSafe;
  }

  lemma RecordFallbackSafe(src: Source, c: Config, plan: seq<FileRow>, r: Run, i: nat, row: FileRow, sha: string,
                           first: int, answer: FallbackAnswer)
    requires AtRow(src, c.runId, plan, r, i, row) && NotYetSaved(src, c.runId, plan, r, i)
    requires ShaFits(src, row.path, sha) && r.working.files[i].sha == sha
    ensures var (b, fatal) := RecordFallback(c, r, i, row, sha, first, answer);
      RowOutcome(src, c.runId, plan, i, r, b, fatal)
  {
    hide RunSafe, RowEffect, RowOutcome;
    var (b, fatal) := RecordFallback(c, r, i, row, sha, first, answer);
    match answer
    case FallbackOk(id) =>
      var m := TrackedMessage(id, row.path, sha, c.runId, true);
      SavedRowOutcome(src, c.runId, plan, r, i, row, CONVERSION_ERRORS, m,
        r.working.files[i].(status := PreservedAsAttachment, hresult := first), b);
    case FallbackFailed(op, hresult) =>
      FailedRowOutcome(src, c.runId, plan, r, i, row, FailedMapi, hresult, b, fatal);
  }

  lemma PreserveRowSafe(src: Source, c: Config, plan: seq<FileRow>, r: Run, i: nat, row: FileRow, sha: string,
                        first: int, a: Answers)
    requires AtRow(src, c.runId, plan, r, i, row) && NotYetSaved(src, c.runId, plan, r, i)
    requires ShaFits(src, row.path, sha) && r.working.files[i].sha == sha
    ensures var (r1, fatal) := PreserveRow(c, r, i, row, sha, first, a);
      RowOutcome(src, c.runId, plan, i, r, r1, fatal)
  {
    hide RunSafe, RowEffect, RowOutcome, EnsureFolder, RecordFallback;
    var (r1, ok) := EnsureFolder(r, CONVERSION_ERRORS, a.errors);
    AtRowAfter(src, c.runId, plan, r, i, row, CONVERSION_ERRORS, a.errors);
    var (b, fatal) := PreserveRow(c, r, i, row, sha, first, a);
    if !ok {
      CounterOutcome(src, c.runId, plan, i, r1, b, fatal);
    } else {
      RecordFallbackSafe(src, c, plan, r1, i, row, sha, first, a.fallback);
    }
    OutcomeAfter(src, c.runId, plan, i, r, r1, b, fatal);
  }

  lemma CounterOutcome(src: Source, runId: string, plan: seq<FileRow>, i: nat, a: Run, b: Run, fatal: Option<ExitCode>)
    requires i < |plan| && RunSafe(src, runId, plan, a) && SameButTally(a, b) && Outcomes(a) == Outcomes(b)
    requires fatal == Some(OutputWriteFailure) && a.working.files[i].status == Pending
    ensures RowOutcome(src, runId, plan, i, a, b, fatal)
  {
  }

  lemma ImportFailureSafe(src: Source, c: Config, plan: seq<FileRow>, r: Run, i: nat, row: FileRow, sha: string,
                          op: Operation, hresult: int, first: int, a: Answers)
    requires AtRow(src, c.runId, plan, r, i, row) && NotYetSaved(src, c.runId, plan, r, i)
    requires ShaFits(src, row.path, sha) && r.working.files[i].sha == sha
    ensures var (b, fatal) := ImportFailure(c, r, i, row, sha, op, hresult, first, a);
      RowOutcome(src, c.runId, plan, i, r, b, fatal)
  {
    hide PreserveRow, RowEffect, SnapSafe, RowOutcome;
    var (b, fatal) := ImportFailure(c, r, i, row, sha, op, hresult, first, a);
    if op.CreateStreamOnFile? {
      FailedRowOutcome(src, c.runId, plan, r, i, row, FailedSourceRead, hresult, b, fatal);
    } else {
      var r1 := if IsSystemic(op) then r.(systemic := r.systemic + 1) else r;
      if IsSystemic(op) && r1.systemic >= c.threshold {
        CounterOutcome(src, c.runId, plan, i, r, b, fatal);
      } else {
        PreserveRowSafe(src, c, plan, r1, i, row, sha, first, a);
        SameButTallyEffect(src, c.runId, plan, i, r, r1);
        OutcomeAfter(src, c.runId, plan, i, r, r1, b, fatal);
      }
    }
  }

  lemma ConvertRowSafe(src: Source, c: Config, plan: seq<FileRow>, r: Run, i: nat, row: FileRow, sha: string, a: Answers)
    requires AtRow(src, c.runId, plan, r, i, row) && NotYetSaved(src, c.runId, plan, r, i)
    requires ShaFits(src, row.path, sha) && r.working.files[i].sha == sha
    ensures var (b, fatal) := ConvertRow(c, r, i, row, sha, a);
      RowOutcome(src, c.runId, plan, i, r, b, fatal)
  {
    hide RowEffect, RunSafe, ImportFailure, RowOutcome;
    var (r1, ok) := EnsureFolder(r, row.target, a.target);
    AtRowAfter(src, c.runId, plan, r, i, row, row.target, a.target);
    var (b, fatal) := ConvertRow(c, r, i, row, sha, a);
    hide EnsureFolder;
    if !ok {
      CounterOutcome(src, c.runId, plan, i, r1, b, fatal);
    } else {
      match a.importing {
        case ImportOk(id, attachments) =>
          SavedRowOutcome(src, c.runId, plan, r1, i, row, row.target,
            TrackedMessage(id, row.path, sha, c.runId, attachments),
            r1.working.files[i].(status := Imported, entryId := Some(id), hresult := 0), b);
        case ImportFailed(op, hresult, first) =>
          ImportFailureSafe(src, c, plan, r1, i, row, sha, op, hresult, first, a);
      }
    }
    OutcomeAfter(src, c.runId, plan, i, r, r1, b, fatal);
  }

  lemma SameButTallyEffect(src: Source, runId: string, plan: seq<FileRow>, i: nat, a: Run, b: Run)
    requires i < |plan| && SameButTally(a, b)
    ensures RowEffect(runId, plan, i, a, b)
  {
  }

  /** Bookkeeping on a row that stays pending. */
  lemma StillAtRow(src: Source, runId: string, plan: seq<FileRow>, r: Run, i: nat, row: FileRow, rewritten: FileRow)
    requires AtRow(src, runId, plan, r, i, row)
    requires rewritten == r.working.files[i].(attempts := rewritten.attempts, sha := rewritten.sha)
    requires rewritten.sha == r.working.files[i].sha
      || (ShaFits(src, row.path, rewritten.sha) && NotYetSaved(src, runId, plan, r, i))
    ensures var r1 := UpdateFile(r, i, rewritten);
      && AtRow(src, runId, plan, r1, i, row) && RowEffect(runId, plan, i, r, r1)
      && r1.pst == r.pst && Outcomes(r1) == Outcomes(r)
  {
    assert RowSafe(src, runId, r.pst, r.working.files[i]);
    UpdateFileSafe(src, runId, plan, r, i, rewritten);
  }

  /** The digest of a readable file is the one assumed of the source. */
  ghost predicate AnswerFits(src: Source, path: string, a: Answers) {
    a.digest.Digest? ==> ShaFits(src, path, a.digest.sha)
  }

  lemma ReadAndConvertSafe(src: Source, c: Config, plan: seq<FileRow>, r: Run, i: nat, row: FileRow, a: Answers)
    requires AtRow(src, c.runId, plan, r, i, row) && NotYetSaved(src, c.runId, plan, r, i) && AnswerFits(src, row.path, a)
    ensures var (b, fatal) := ReadAndConvert(c, r, i, row, a);
      RowOutcome(src, c.runId, plan, i, r, b, fatal)
  {
    hide RunSafe, RowEffect, ConvertRow, RowOutcome;
    var (b, fatal) := ReadAndConvert(c, r, i, row, a);
    match a.digest
    case Unreadable(hresult) =>
      FailedRowOutcome(src, c.runId, plan, r, i, row, FailedSourceRead, hresult, b, fatal);
    case Digest(sha) =>
      var r1 := SetSha(r, i, sha);
      StillAtRow(src, c.runId, plan, r, i, row, r.working.files[i].(sha := sha));
      if !a.prefixOk {
        FailedRowOutcome(src, c.runId, plan, r1, i, row, FailedSourceRead, 0, b, fatal);
      } else {
        ConvertRowSafe(src, c, plan, r1, i, row, sha, a);
      }
      OutcomeAfter(src, c.runId, plan, i, r, r1, b, fatal);
  }

  /** The index of a folder, though read earlier, still finds what a fresh scan would for rows from k on. */
  ghost predicate IndexCurrent(runId: string, plan: seq<FileRow>, k: nat, r: Run) {
    forall f, j :: f in r.index && k <= j < |plan| && plan[j].target == f ==>
      Hits(r.index[f], runId, plan[j].path) == HitsIn(r.pst, f, runId, plan[j].path)
  }

  ghost predicate Adoptable(src: Source, c: Config, plan: seq<FileRow>, i: nat, r: Run, b: Run, adoption: Adoption,
                            scanned: bool)
    requires i < |plan|
  {
    && IndexCurrent(c.runId, plan, i, b)
    && (adoption.Ambiguous? ==> src.trust.Unreliable? && RowOutcome(src, c.runId, plan, i, r, b, Some(ResumeIntegrityError)))
    && (adoption.Adopted? ==>
          HitsIn(r.pst, plan[i].target, c.runId, plan[i].path) != [] && RowOutcome(src, c.runId, plan, i, r, b, None))
    && (adoption.NotFound? ==>
          && AtRow(src, c.runId, plan, b, i, plan[i]) && RowEffect(c.runId, plan, i, r, b)
          && Outcomes(b) == Outcomes(r) && ErrorHits(c.runId, plan, i, b) == ErrorHits(c.runId, plan, i, r)
          && HitsIn(b.pst, plan[i].target, c.runId, plan[i].path) == HitsIn(r.pst, plan[i].target, c.runId, plan[i].path)
          && (scanned ==> NotYetSaved(src, c.runId, plan, b, i)))
  }

  lemma AdoptIndexedSafe(src: Source, c: Config, plan: seq<FileRow>, r: Run, i: nat, row: FileRow)
    requires AtRow(src, c.runId, plan, r, i, row) && IndexCurrent(c.runId, plan, i, r) && row.target in r.index
    ensures var (b, adoption) := AdoptIndexed(c, r, i, row);
      Adoptable(src, c, plan, i, r, b, adoption, true)
  {
    var (b, adoption) := AdoptIndexed(c, r, i, row);
    var matches := Hits(r.index[row.target], c.runId, row.path);
    assert matches == HitsIn(r.pst, row.target, c.runId, row.path);
    if !src.trust.Unreliable? { AtMostOneHere(src, c.runId, plan, r, i); }
    SameButTallyEffect(src, c.runId, plan, i, r, r);
    hide SnapSafe, RowEffect;
    if |matches| == 1 {
      AdoptedOutcome(src, c.runId, plan, r, i, row, matches[0].entryId, b);
    }
  }

  lemma AtRowOpened(src: Source, runId: string, plan: seq<FileRow>, r: Run, i: nat, row: FileRow, folder: string,
                    a: FolderAnswer)
    requires AtRow(src, runId, plan, r, i, row) && IndexCurrent(runId, plan, i, r)
    ensures var (r1, ok) := EnsureFolder(r, folder, a);
      && AtRow(src, runId, plan, r1, i, row) && IndexCurrent(runId, plan, i, r1)
      && RowEffect(runId, plan, i, r, r1) && Outcomes(r) == Outcomes(r1) && (a.ok ==> ok)
      && ErrorHits(runId, plan, i, r) == ErrorHits(runId, plan, i, r1)
      && HitsIn(r1.pst, plan[i].target, runId, plan[i].path) == HitsIn(r.pst, plan[i].target, runId, plan[i].path)
  {
    EnsureFolderSafe(src, runId, plan, r, folder, a);
    EnsureFolderEffect(runId, plan, r, i, folder, a);
    hide SnapSafe, RowEffect;
  }

  /** Adoption marks a row exactly when its message is already there, never finds two, and otherwise
      leaves the row to be imported. */
  lemma TryAdoptSafe(src: Source, c: Config, plan: seq<FileRow>, r: Run, i: nat, row: FileRow, a: Answers)
    requires AtRow(src, c.runId, plan, r, i, row) && IndexCurrent(c.runId, plan, i, r)
    ensures var (b, adoption) := TryAdopt(c, r, i, row, a);
      Adoptable(src, c, plan, i, r, b, adoption, a.lookup.ok && a.readOk)
  {
    hide RunSafe, RowEffect, EnsureFolder, AdoptIndexed, RowOutcome, Hits;
    var (r1, ok) := EnsureFolder(r, row.target, a.lookup);
    AtRowOpened(src, c.runId, plan, r, i, row, row.target, a.lookup);
    var (b, adoption) := TryAdopt(c, r, i, row, a);
    if ok && (row.target in r1.index || a.readOk) {
      var r2 := Indexed(r1, row.target);
      IndexedSafe(src, c.runId, plan, i, r, r1, row.target);
      hide Indexed, IndexCurrent, SnapSafe;
      AdoptIndexedSafe(src, c, plan, r2, i, row);
      if adoption.Adopted? {
        OutcomeAfter(src, c.runId, plan, i, r, r2, b, None);
      } else if adoption.Ambiguous? {
        OutcomeAfter(src, c.runId, plan, i, r, r2, b, Some(ResumeIntegrityError));
      } else {
        RowEffectTransitive(c.runId, plan, i, r, r2, b);
      }
    }
  }

  lemma IndexedSafe(src: Source, runId: string, plan: seq<FileRow>, i: nat, a: Run, b: Run, folder: string)
    requires i < |plan| && AtRow(src, runId, plan, b, i, plan[i]) && RowEffect(runId, plan, i, a, b)
    requires IndexCurrent(runId, plan, i, b)
    ensures var r := Indexed(b, folder);
      && AtRow(src, runId, plan, r, i, plan[i]) && RowEffect(runId, plan, i, a, r) && IndexCurrent(runId, plan, i, r)
      && folder in r.index && r.pst == b.pst && Outcomes(r) == Outcomes(b)
  {
    hide SnapSafe;
  }

  lemma AtMostOneHere(src: Source, runId: string, plan: seq<FileRow>, r: Run, i: nat)
    requires RunSafe(src, runId, plan, r) && i < |plan| && !src.trust.Unreliable?
    ensures |HitsIn(r.pst, plan[i].target, runId, plan[i].path)| <= 1
  {
    assert RowSafe(src, runId, r.pst, r.working.files[i]);
  }

  lemma AdoptedOutcome(src: Source, runId: string, plan: seq<FileRow>, r: Run, i: nat, row: FileRow, id: nat, b: Run)
    requires AtRow(src, runId, plan, r, i, row) && |HitsIn(r.pst, plan[i].target, runId, plan[i].path)| == 1
    requires SameButTally(MarkImported(r, i, id), b) && Outcomes(b) == Outcomes(r) + 1
    ensures RowOutcome(src, runId, plan, i, r, b, None) && b.pst == r.pst && b.index == r.index
  {
    assert RowSafe(src, runId, r.pst, r.working.files[i]);
    SettleSafe(src, runId, plan, r, i, r.working.files[i].(status := Imported, entryId := Some(id), hresult := 0));
  }
}
