/** What it takes for a PST to pass validation, told row by row and message by message. */
module ValidationExact {
  import opened Wrappers
  import opened Store
  import opened Validation

  /** The rows whose message belongs in a folder. */
  predicate BelongsIn(row: FileRow, folder: string) {
    || (row.status == Imported && row.target == folder)
    || (row.status == PreservedAsAttachment && folder == CONVERSION_ERRORS)
  }

  function RowsIn(files: seq<FileRow>, folder: string): set<int> {
    set i | 0 <= i < |files| && BelongsIn(files[i], folder)
  }

  predicate IsOf(m: TrackedMessage, runId: string, path: string) {
    m.runId == runId && m.path == path
  }

  /** There is one message of this run and path, and only one. */
  ghost predicate OnlyOne(messages: seq<TrackedMessage>, j: int, runId: string, path: string) {
    0 <= j < |messages| && forall i :: 0 <= i < |messages| ==> (IsOf(messages[i], runId, path) <==> i == j)
  }

  ghost predicate RowIsThere(messages: seq<TrackedMessage>, runId: string, row: FileRow) {
    exists j :: OnlyOne(messages, j, runId, row.path) && RowIsGood(row, messages[j])
  }

  /** The digests agree, if both are known, and a preserved message has its attachment. */
  predicate RowIsGood(row: FileRow, m: TrackedMessage) {
    && (row.sha == "" || m.sha == "" || row.sha == m.sha)
    && (row.status == PreservedAsAttachment ==> m.hasAttachments)
  }

  ghost predicate FirstListed(folders: seq<FolderInfo>, k: int, path: string) {
    0 <= k < |folders| && folders[k].path == path && forall i :: 0 <= i < k ==> folders[i].path != path
  }

  ghost predicate WasOpened(folders: seq<FolderRow>, folder: string) {
    exists i :: 0 <= i < |folders| && folders[i].target == folder && folders[i].entryId.Some?
  }

  /** A folder that rows belong in, or that was opened, is listed with as many messages as rows. */
  ghost predicate CountIsRight(db: Tables, view: PstView, folder: string) {
    RowsIn(db.files, folder) != {} || WasOpened(db.folders, folder) ==>
      exists k :: FirstListed(view.folders, k, folder) && view.folders[k].messageCount == |RowsIn(db.files, folder)|
  }

  /** The count is right, there is no message without a run, and the message of every
      row is there, once and good. */
  ghost predicate FolderIsGood(db: Tables, view: PstView, runId: string, folder: string) {
    && CountIsRight(db, view, folder)
    && (RowsIn(db.files, folder) != {} ==>
          && runId != "" && view.read(folder).Readable?
          && (forall m :: m in view.read(folder).messages ==> m.runId != "")
          && forall i :: i in RowsIn(db.files, folder) ==> RowIsThere(view.read(folder).messages, runId, db.files[i]))
  }

  // ---- Rows ----

  function ImportedAt(files: seq<FileRow>, folder: string): set<int> {
    set i | 0 <= i < |files| && files[i].status == Imported && files[i].target == folder
  }

  function PreservedAt(files: seq<FileRow>): set<int> {
    set i | 0 <= i < |files| && files[i].status == PreservedAsAttachment
  }

  lemma {:induction false} ImportedIntoAre(files: seq<FileRow>, folder: string)
    ensures forall r :: r in ImportedInto(files, folder) <==> r in files && r.status == Imported && r.target == folder
    ensures |ImportedInto(files, folder)| == |ImportedAt(files, folder)|
  {
    if files != [] {
      var n := |files| - 1;
      ImportedIntoAre(files[..n], folder);
      OneMoreImported(files, folder);
      hide ImportedAt;
      assert files == files[..n] + [files[n]];
    }
  }

  lemma {:induction false} PreservedRowsAre(files: seq<FileRow>)
    ensures forall r :: r in PreservedRows(files) <==> r in files && r.status == PreservedAsAttachment
    ensures |PreservedRows(files)| == |PreservedAt(files)|
  {
    if files != [] {
      var n := |files| - 1;
      PreservedRowsAre(files[..n]);
      OneMorePreserved(files);
      hide PreservedAt;
      assert files == files[..n] + [files[n]];
    }
  }

  lemma OneMoreImported(files: seq<FileRow>, folder: string)
    requires files != []
    ensures var n := |files| - 1;
      |ImportedAt(files, folder)|
      == |ImportedAt(files[..n], folder)| + (if files[n].status == Imported && files[n].target == folder then 1 else 0)
  {
    var n := |files| - 1;
    var init := files[..n];
    var before, after := ImportedAt(init, folder), ImportedAt(files, folder);
    assert forall i :: 0 <= i < n ==> init[i] == files[i];
    assert forall i :: i in after && i != n ==> i in before;
    assert forall i :: i in before ==> i in after;
    hide ImportedAt;
    assert n !in before;
    assert after == before + if n in after then {n} else {};
  }

  lemma OneMorePreserved(files: seq<FileRow>)
    requires files != []
    ensures var n := |files| - 1;
      |PreservedAt(files)| == |PreservedAt(files[..n])| + (if files[n].status == PreservedAsAttachment then 1 else 0)
  {
    var n := |files| - 1;
    var init := files[..n];
    var before, after := PreservedAt(init), PreservedAt(files);
    assert forall i :: 0 <= i < n ==> init[i] == files[i];
    assert forall i :: i in after && i != n ==> i in before;
    assert forall i :: i in before ==> i in after;
    hide PreservedAt;
    assert n !in before;
    assert after == before + if n in after then {n} else {};
  }

  lemma RowsAreCounted(files: seq<FileRow>, folder: string)
    ensures |RowsOf(files, folder)| == |RowsIn(files, folder)|
    ensures RowsOf(files, folder) == [] <==> RowsIn(files, folder) == {}
  {
    ImportedIntoAre(files, folder);
    PreservedRowsAre(files);
    hide ImportedInto, PreservedRows;
    var a, b := ImportedAt(files, folder), PreservedAt(files);
    assert RowsIn(files, folder) == a + if folder == CONVERSION_ERRORS then b else {};
    assert a !! b;
    assert |RowsOf(files, folder)| == 0 <==> RowsOf(files, folder) == [];
    assert |RowsIn(files, folder)| == 0 <==> RowsIn(files, folder) == {};
  }

  // ---- Messages ----

  lemma {:induction false} NoHit(messages: seq<TrackedMessage>, runId: string, path: string)
    ensures Hits(messages, runId, path) == [] <==> forall i :: 0 <= i < |messages| ==> !IsOf(messages[i], runId, path)
  {
    if messages != [] {
      var rest := messages[1..];
      NoHit(rest, runId, path);
      assert forall i :: 0 < i < |messages| ==> messages[i] == rest[i - 1];
    }
  }

  lemma {:induction false} HitAt(messages: seq<TrackedMessage>, j: int, runId: string, path: string)
    requires OnlyOne(messages, j, runId, path)
    ensures Hits(messages, runId, path) == [messages[j]]
  {
    var rest := messages[1..];
    assert forall i :: 0 < i < |messages| ==> messages[i] == rest[i - 1];
    if j == 0 {
      NoHit(rest, runId, path);
    } else {
      HitAt(rest, j - 1, runId, path);
    }
  }

  lemma {:induction false} HitBack(messages: seq<TrackedMessage>, runId: string, path: string) returns (j: int)
    requires |Hits(messages, runId, path)| == 1
    ensures OnlyOne(messages, j, runId, path)
  {
    var rest := messages[1..];
    assert forall i :: 0 < i < |messages| ==> messages[i] == rest[i - 1];
    if IsOf(messages[0], runId, path) {
      NoHit(rest, runId, path);
      j := 0;
    } else {
      var k := HitBack(rest, runId, path);
      j := k + 1;
    }
  }

  /** Nothing is reported of the row and its matches. */
  ghost predicate Spotless(found: seq<TrackedMessage>, row: FileRow, preserved: bool) {
    |found| == 1 && !ShaDiffers(row, found[0]) && (preserved ==> found[0].hasAttachments)
  }

  lemma {:induction false} SpotlessIsThere(messages: seq<TrackedMessage>, runId: string, row: FileRow)
    ensures Spotless(Hits(messages, runId, row.path), row, row.status == PreservedAsAttachment) <==> RowIsThere(messages, runId, row)
  {
    hide Hits;
    if |Hits(messages, runId, row.path)| == 1 {
      var j := HitBack(messages, runId, row.path);
      HitAt(messages, j, runId, row.path);
    }
    if RowIsThere(messages, runId, row) {
      var j :| OnlyOne(messages, j, runId, row.path) && RowIsGood(row, messages[j]);
      HitAt(messages, j, runId, row.path);
    }
  }

  lemma {:induction false} ListedAt(folders: seq<FolderInfo>, path: string) returns (k: int)
    requires Listed(folders, path).Some?
    ensures FirstListed(folders, k, path) && Listed(folders, path) == Some(folders[k])
  {
    var n := |folders| - 1;
    if Listed(folders[..n], path).Some? {
      k := ListedAt(folders[..n], path);
    } else {
      NotListed(folders[..n], path);
      k := n;
    }
  }

  lemma {:induction false} FirstIsListed(folders: seq<FolderInfo>, k: int, path: string)
    requires FirstListed(folders, k, path)
    ensures Listed(folders, path) == Some(folders[k])
  {
    var n := |folders| - 1;
    if k < n {
      FirstIsListed(folders[..n], k, path);
    } else {
      NotListed(folders[..n], path);
    }
  }

  lemma {:induction false} NotListed(folders: seq<FolderInfo>, path: string)
    ensures Listed(folders, path).None? <==> forall i :: 0 <= i < |folders| ==> folders[i].path != path
  {
    if folders != [] { NotListed(folders[..|folders| - 1], path); }
  }

  // ---- One folder ----

  ghost predicate NoIssueIn(db: Tables, view: PstView, runId: string, folder: string) {
    forall issue :: IsIssue(db, view, runId, issue) ==> issue.folder != folder
  }

  lemma CountIsRightExactly(db: Tables, view: PstView, folder: string)
    ensures CountIsRight(db, view, folder) <==> forall issue :: !ExpectationIssue(db, view, folder, issue)
  {
    RowsAreCounted(db.files, folder);
    hide RowsOf, RowsIn;
    assert IsExpected(db, folder) <==> RowsIn(db.files, folder) != {} || WasOpened(db.folders, folder);
    if Listed(view.folders, folder).Some? {
      var k := ListedAt(view.folders, folder);
      hide IsExpected, WasOpened;
      if j :| FirstListed(view.folders, j, folder) { FirstIsListed(view.folders, j, folder); }
      assert IsExpected(db, folder) && view.folders[k].messageCount != |RowsIn(db.files, folder)| ==>
        ExpectationIssue(db, view, folder, CountMismatch(folder, |RowsIn(db.files, folder)|, view.folders[k].messageCount));
    } else {
      hide IsExpected, WasOpened;
      if j :| FirstListed(view.folders, j, folder) { FirstIsListed(view.folders, j, folder); }
      assert IsExpected(db, folder) ==> ExpectationIssue(db, view, folder, FolderMissing(folder));
    }
  }

  /** What is checked message by message of some rows of a folder. */
  ghost predicate RowsAreGood(answer: ReadAnswer, runId: string, rows: seq<FileRow>) {
    rows != [] ==>
      && answer.Readable? && (forall m :: m in answer.messages ==> m.runId != "")
      && forall r :: r in rows ==> Spotless(Found(answer.messages, runId, r.path), r, r.status == PreservedAsAttachment)
  }

  lemma RowIsSpotlessExactly(found: seq<TrackedMessage>, folder: string, row: FileRow, preserved: bool)
    ensures Spotless(found, row, preserved) <==> forall issue :: !RowIssue(found, folder, row, preserved, issue)
  {
    if found == [] {
      assert RowIssue(found, folder, row, preserved, NoMatch(folder, row.path));
    } else if |found| > 1 {
      assert RowIssue(found, folder, row, preserved, Duplicates(folder, row.path, |found|));
    } else {
      assert ShaDiffers(row, found[0]) ==> RowIssue(found, folder, row, preserved, ShaMismatch(folder, row.path));
      assert preserved && !found[0].hasAttachments ==> RowIssue(found, folder, row, preserved, AttachmentMissing(folder, row.path));
    }
  }

  lemma RowsAreGoodExactly(answer: ReadAnswer, runId: string, folder: string, rows: seq<FileRow>, preserved: bool)
    requires forall r :: r in rows ==> (preserved <==> r.status == PreservedAsAttachment)
    ensures RowsAreGood(answer, runId, rows) <==> rows == [] || forall issue :: !ReadIssue(answer, runId, folder, rows, preserved, issue)
  {
    hide Found, Spotless, RowIssue, FolderIssue;
    if rows != [] {
      if answer.NotReadable? {
        assert ReadIssue(answer, runId, folder, rows, preserved, TrackedUnreadable(folder));
      } else {
        var messages := answer.messages;
        forall issue ensures ReadIssue(answer, runId, folder, rows, preserved, issue) <==>
          || (issue.Untracked? && issue.folder == folder && exists m :: m in messages && m.runId == "" && m.path == issue.path)
          || exists r :: r in rows && RowIssue(Found(messages, runId, r.path), folder, r, preserved, issue)
        {
          FolderIssueByRows(messages, runId, folder, rows, preserved, issue);
        }
        forall r | r in rows ensures Spotless(Found(messages, runId, r.path), r, preserved) <==>
          forall issue :: !RowIssue(Found(messages, runId, r.path), folder, r, preserved, issue)
        {
          RowIsSpotlessExactly(Found(messages, runId, r.path), folder, r, preserved);
        }
        if forall issue :: !ReadIssue(answer, runId, folder, rows, preserved, issue) {
          forall m | m in messages ensures m.runId != "" {
            assert !ReadIssue(answer, runId, folder, rows, preserved, Untracked(folder, m.path));
          }
          forall r, issue | r in rows ensures !RowIssue(Found(messages, runId, r.path), folder, r, preserved, issue) {
            assert !ReadIssue(answer, runId, folder, rows, preserved, issue);
          }
        }
      }
    }
  }

  lemma CheckedRows(db: Tables, folder: string)
    ensures forall r :: r in Checked(db, folder, false) ==> r.status == Imported
    ensures forall r :: r in Checked(db, folder, true) ==> r.status == PreservedAsAttachment
    ensures forall r :: (r in Checked(db, folder, false) || r in Checked(db, folder, true)) <==> r in db.files && BelongsIn(r, folder)
    ensures RowsIn(db.files, folder) == {} <==> Checked(db, folder, false) == [] && Checked(db, folder, true) == []
  {
    ImportedIntoAre(db.files, folder);
    PreservedRowsAre(db.files);
    RowsAreCounted(db.files, folder);
    hide ImportedInto, PreservedRows, RowsIn;
  }

  ghost predicate ChecksAreGood(db: Tables, view: PstView, runId: string, folder: string) {
    RowsAreGood(view.read(folder), runId, Checked(db, folder, false)) && RowsAreGood(view.read(folder), runId, Checked(db, folder, true))
  }

  lemma {:induction false} NoIssueExactly(db: Tables, view: PstView, runId: string, folder: string)
    ensures NoIssueIn(db, view, runId, folder) <==>
      CountIsRight(db, view, folder) && (Listed(view.folders, folder).Some? ==> ChecksAreGood(db, view, runId, folder))
  {
    CheckedRows(db, folder);
    CountIsRightExactly(db, view, folder);
    RowsAreGoodExactly(view.read(folder), runId, folder, Checked(db, folder, false), false);
    RowsAreGoodExactly(view.read(folder), runId, folder, Checked(db, folder, true), true);
    hide RowsAreGood, ReadIssue, Checked, CountIsRight, Listed;
    forall issue | ExpectationIssue(db, view, folder, issue) ensures issue.folder == folder {
    }
    forall issue, preserved: bool | CheckIssue(db, view, runId, folder, preserved, issue) ensures issue.folder == folder {
      IssueFolder(view.read(folder), runId, folder, Checked(db, folder, preserved), preserved, issue);
    }
    hide ExpectationIssue;
    if NoIssueIn(db, view, runId, folder) {
      forall issue ensures !ExpectationIssue(db, view, folder, issue) {
        assert ExpectationIssue(db, view, folder, issue) ==> IsIssue(db, view, runId, issue);
      }
      forall issue, preserved: bool ensures !CheckIssue(db, view, runId, folder, preserved, issue) {
        assert CheckIssue(db, view, runId, folder, preserved, issue) ==> IsIssue(db, view, runId, issue);
      }
      if Listed(view.folders, folder).Some? {
        forall issue, preserved: bool | Checked(db, folder, preserved) != []
          ensures !ReadIssue(view.read(folder), runId, folder, Checked(db, folder, preserved), preserved, issue)
        {
          assert !CheckIssue(db, view, runId, folder, preserved, issue);
        }
      }
    }
  }

  lemma ChecksExactly(db: Tables, view: PstView, runId: string, folder: string)
    ensures ChecksAreGood(db, view, runId, folder) <==>
      (RowsIn(db.files, folder) != {} ==>
        && runId != "" && view.read(folder).Readable?
        && (forall m :: m in view.read(folder).messages ==> m.runId != "")
        && forall i :: i in RowsIn(db.files, folder) ==> RowIsThere(view.read(folder).messages, runId, db.files[i]))
  {
    CheckedRows(db, folder);
    hide Checked, Spotless, RowIsThere, Hits;
    var answer := view.read(folder);
    assert forall i :: i in RowsIn(db.files, folder) ==> db.files[i] in db.files && BelongsIn(db.files[i], folder);
    if answer.Readable? {
      forall r: FileRow ensures Spotless(Hits(answer.messages, runId, r.path), r, r.status == PreservedAsAttachment) <==>
                                RowIsThere(answer.messages, runId, r)
      {
        SpotlessIsThere(answer.messages, runId, r);
      }
      forall r: FileRow ensures runId == "" ==> !Spotless(Found(answer.messages, runId, r.path), r, r.status == PreservedAsAttachment) {
        NothingFound(r);
      }
      forall r | r in db.files && BelongsIn(r, folder) ensures exists i :: i in RowsIn(db.files, folder) && db.files[i] == r {
        var i :| 0 <= i < |db.files| && db.files[i] == r;
        assert i in RowsIn(db.files, folder);
      }
    }
  }

  lemma NothingFound(row: FileRow)
    ensures !Spotless([], row, row.status == PreservedAsAttachment)
  {
  }

  /** Validation reports nothing if and only if every folder that rows belong in, or that was opened, is good. */
  lemma PassesExactly(db: Tables, view: PstView, runId: string)
    ensures (forall issue :: !IsIssue(db, view, runId, issue)) <==> forall f :: FolderIsGood(db, view, runId, f)
  {
    hide IsIssue, ChecksAreGood, Listed, RowsIn, WasOpened, FirstListed, RowIsThere;
    forall f ensures NoIssueIn(db, view, runId, f) <==> FolderIsGood(db, view, runId, f) {
      NoIssueExactly(db, view, runId, f);
      ChecksExactly(db, view, runId, f);
      if k :| FirstListed(view.folders, k, f) { FirstIsListed(view.folders, k, f); }
    }
    hide FolderIsGood;
    assert forall issue :: IsIssue(db, view, runId, issue) ==> !NoIssueIn(db, view, runId, issue.folder);
  }
}
