/** Validation of a finished PST against the state database. */
module Validation {
  import opened Wrappers
  import opened Store

  datatype ValidationStatus = Validated | ValidatedWithFallbacks | ValidationFailed

  /** One entry of list_tool_folders. */
  datatype FolderInfo = FolderInfo(path: string, messageCount: nat)

  datatype ReadAnswer = Readable(messages: seq<TrackedMessage>) | NotReadable

  /** What a fresh session shows of the PST. */
  datatype PstView = PstView(folders: seq<FolderInfo>, read: string -> ReadAnswer)

  datatype Issue =
    | FolderMissing(folder: string)
    | CountMismatch(folder: string, expected: nat, found: nat)
    | TrackedUnreadable(folder: string)
    | Untracked(folder: string, path: string)
    | NoMatch(folder: string, path: string)
    | Duplicates(folder: string, path: string, copies: nat)
    | ShaMismatch(folder: string, path: string)
    | AttachmentMissing(folder: string, path: string)

  datatype Outcome = Outcome(status: ValidationStatus, issues: seq<Issue>, foldersChecked: nat)

  /** The rows recorded as imported into a folder. */
  function ImportedInto(files: seq<FileRow>, folder: string): seq<FileRow> {
    if files == [] then []
    else
      var n := |files| - 1;
      ImportedInto(files[..n], folder) + IfInto(files[n], folder)
  }

  function PreservedRows(files: seq<FileRow>): seq<FileRow> {
    if files == [] then []
    else
      var n := |files| - 1;
      PreservedRows(files[..n]) + if files[n].status == PreservedAsAttachment then [files[n]] else []
  }

  /** The rows whose message must be in a folder. */
  function RowsOf(files: seq<FileRow>, folder: string): seq<FileRow> {
    ImportedInto(files, folder) + if folder == CONVERSION_ERRORS then PreservedRows(files) else []
  }

  ghost predicate Materialized(folders: seq<FolderRow>, folder: string) {
    exists i :: 0 <= i < |folders| && folders[i].entryId.Some? && folders[i].target == folder
  }

  ghost predicate IsExpected(db: Tables, folder: string) {
    RowsOf(db.files, folder) != [] || Materialized(db.folders, folder)
  }

  /** The first listed folder with a path. */
  function Listed(folders: seq<FolderInfo>, path: string): Option<FolderInfo> {
    if folders == [] then None
    else
      var n := |folders| - 1;
      var earlier := Listed(folders[..n], path);
      if earlier.None? && folders[n].path == path then Some(folders[n]) else earlier
  }

  /** The messages of this run with a source path; a message without a run id is never one. */
  function Found(messages: seq<TrackedMessage>, runId: string, path: string): seq<TrackedMessage> {
    if runId == "" then [] else Hits(messages, runId, path)
  }

  /** The rows checked message by message in a folder. */
  function Checked(db: Tables, folder: string, preserved: bool): seq<FileRow> {
    if preserved then (if folder == CONVERSION_ERRORS then PreservedRows(db.files) else [])
    else ImportedInto(db.files, folder)
  }

  /** What is wrong with one folder whose rows are checked message by message. */
  ghost predicate FolderIssue(messages: seq<TrackedMessage>, runId: string, folder: string,
                              rows: seq<FileRow>, preserved: bool, issue: Issue) {
    match issue
    case Untracked(f, p) => f == folder && exists m :: m in messages && m.runId == "" && m.path == p
    case NoMatch(f, p) => f == folder && exists r :: r in rows && r.path == p && Found(messages, runId, p) == []
    case Duplicates(f, p, n) =>
      f == folder && n > 1 && exists r :: r in rows && r.path == p && |Found(messages, runId, p)| == n
    case ShaMismatch(f, p) =>
      f == folder && |Found(messages, runId, p)| == 1
      && exists r :: r in rows && r.path == p && ShaDiffers(r, Found(messages, runId, p)[0])
    case AttachmentMissing(f, p) =>
      f == folder && preserved && |Found(messages, runId, p)| == 1 && !Found(messages, runId, p)[0].hasAttachments
      && exists r :: r in rows && r.path == p
    case _ => false
  }

  ghost predicate ReadIssue(answer: ReadAnswer, runId: string, folder: string, rows: seq<FileRow>, preserved: bool,
                            issue: Issue) {
    match answer
    case NotReadable => issue == TrackedUnreadable(folder)
    case Readable(messages) => FolderIssue(messages, runId, folder, rows, preserved, issue)
  }

  ghost predicate CheckIssue(db: Tables, view: PstView, runId: string, folder: string, preserved: bool, issue: Issue) {
    && Checked(db, folder, preserved) != [] && Listed(view.folders, folder).Some?
    && ReadIssue(view.read(folder), runId, folder, Checked(db, folder, preserved), preserved, issue)
  }

  /** The wrong expectation of a folder: it is missing, or holds another number of messages. */
  ghost predicate ExpectationIssue(db: Tables, view: PstView, folder: string, issue: Issue) {
    && IsExpected(db, folder)
    && match Listed(view.folders, folder)
       case None => issue == FolderMissing(folder)
       case Some(info) =>
         info.messageCount != |RowsOf(db.files, folder)|
         && issue == CountMismatch(folder, |RowsOf(db.files, folder)|, info.messageCount)
  }

  /** Everything validation must report, and nothing else. */
  ghost predicate IsIssue(db: Tables, view: PstView, runId: string, issue: Issue) {
    || ExpectationIssue(db, view, issue.folder, issue)
    || CheckIssue(db, view, runId, issue.folder, false, issue)
    || CheckIssue(db, view, runId, issue.folder, true, issue)
  }

  method FindMessages(messages: seq<TrackedMessage>, runId: string) returns (byPath: map<string, seq<TrackedMessage>>,
                      untracked: seq<string>)
    ensures forall p :: Found(messages, runId, p) == if p in byPath then byPath[p] else []
    ensures forall p :: p in byPath ==> byPath[p] != []
    ensures forall p :: p in untracked <==> exists m :: m in messages && m.runId == "" && m.path == p
  {
    byPath, untracked := map[], [];
    for k := 0 to |messages|
      invariant forall p :: Found(messages[..k], runId, p) == if p in byPath then byPath[p] else []
      invariant forall p :: p in byPath ==> byPath[p] != []
      invariant forall p :: p in untracked <==> exists m :: m in messages[..k] && m.runId == "" && m.path == p
    {
      var m := messages[k];
      assert messages[..k + 1] == messages[..k] + [m];
      FoundSnoc(messages[..k], m, runId);
      if m.runId == "" {
        untracked := untracked + [m.path];
      } else if m.runId == runId {
        byPath := byPath[m.path := (if m.path in byPath then byPath[m.path] else []) + [m]];
      }
    }
    assert messages[..|messages|] == messages;
  }

  lemma FoundSnoc(messages: seq<TrackedMessage>, m: TrackedMessage, runId: string)
    ensures forall p :: (
      Found(messages + [m], runId, p)
        == Found(messages, runId, p) + if runId != "" && m.runId == runId && m.path == p then [m] else [])
  {
    forall p ensures (
      Found(messages + [m], runId, p)
        == Found(messages, runId, p) + if runId != "" && m.runId == runId && m.path == p then [m] else [])
    {
      HitsConcat(messages, [m], runId, p);
    }
  }

  /** The issue of one row, if there is one; the last two may both apply. */
  ghost predicate RowIssue(found: seq<TrackedMessage>, folder: string, row: FileRow, preserved: bool, issue: Issue) {
    if found == [] then issue == NoMatch(folder, row.path)
    else if |found| > 1 then issue == Duplicates(folder, row.path, |found|)
    else
      || (ShaDiffers(row, found[0]) && issue == ShaMismatch(folder, row.path))
      || (preserved && !found[0].hasAttachments && issue == AttachmentMissing(folder, row.path))
  }

  method CheckRow(found: seq<TrackedMessage>, folder: string, row: FileRow, preserved: bool) returns (issues: seq<Issue>)
    ensures forall issue :: issue in issues <==> RowIssue(found, folder, row, preserved, issue)
  {
    if found == [] {
      return [NoMatch(folder, row.path)];
    }
    if |found| > 1 {
      return [Duplicates(folder, row.path, |found|)];
    }
    issues := [];
    if row.sha != "" && found[0].sha != "" && row.sha != found[0].sha {
      issues := issues + [ShaMismatch(folder, row.path)];
    }
    if preserved && !found[0].hasAttachments {
      issues := issues + [AttachmentMissing(folder, row.path)];
    }
  }

  /** The issues of a folder are its untracked messages and those of its rows. */
  lemma FolderIssueByRows(messages: seq<TrackedMessage>, runId: string, folder: string, rows: seq<FileRow>,
                          preserved: bool, issue: Issue)
    ensures FolderIssue(messages, runId, folder, rows, preserved, issue) <==>
      || (issue.Untracked? && issue.folder == folder && exists m :: m in messages && m.runId == "" && m.path == issue.path)
      || exists r :: r in rows && RowIssue(Found(messages, runId, r.path), folder, r, preserved, issue)
  {
    hide Found, ShaDiffers;
  }

  method VerifyFolder(answer: ReadAnswer, runId: string, folder: string, rows: seq<FileRow>,
                      preserved: bool) returns (issues: seq<Issue>)
    ensures forall issue :: issue in issues <==> ReadIssue(answer, runId, folder, rows, preserved, issue)
  {
    if answer.NotReadable? {
      return [TrackedUnreadable(folder)];
    }
    var messages := answer.messages;
    var byPath, untracked := FindMessages(messages, runId);
    issues := [];
    for k := 0 to |untracked|
      invariant forall issue :: issue in issues <==> issue.Untracked? && issue.folder == folder && issue.path in untracked[..k]
    {
      issues := issues + [Untracked(folder, untracked[k])];
    }
    ghost var strays := issues;
    for k := 0 to |rows|
      invariant forall issue :: issue in issues <==>
        issue in strays || exists r :: r in rows[..k] && RowIssue(Found(messages, runId, r.path), folder, r, preserved, issue)
    {
      var found := if rows[k].path in byPath then byPath[rows[k].path] else [];
      var more := CheckRow(found, folder, rows[k], preserved);
      assert rows[..k + 1] == rows[..k] + [rows[k]];
      issues := issues + more;
    }
    assert rows[..|rows|] == rows && untracked[..|untracked|] == untracked;
    forall issue ensures issue in issues <==> FolderIssue(messages, runId, folder, rows, preserved, issue) {
      FolderIssueByRows(messages, runId, folder, rows, preserved, issue);
    }
  }

  /** The map from folder to rows holds exactly the folders with imported rows. */
  ghost predicate GroupsImported(groups: map<string, seq<FileRow>>, files: seq<FileRow>) {
    && (forall f :: f in groups ==> groups[f] == ImportedInto(files, f) != [])
    && (forall f :: ImportedInto(files, f) != [] ==> f in groups)
  }

  function IfInto(row: FileRow, folder: string): seq<FileRow> {
    if row.status == Imported && row.target == folder then [row] else []
  }

  lemma RowsSnoc(files: seq<FileRow>, k: nat)
    requires k < |files|
    ensures PreservedRows(files[..k + 1])
      == PreservedRows(files[..k]) + if files[k].status == PreservedAsAttachment then [files[k]] else []
    ensures forall f :: ImportedInto(files[..k + 1], f) == ImportedInto(files[..k], f) + IfInto(files[k], f)
  {
    assert files[..k + 1][..k] == files[..k];
  }

  function Grouped(groups: map<string, seq<FileRow>>, row: FileRow): map<string, seq<FileRow>> {
    if row.status != Imported then groups
    else groups[row.target := (if row.target in groups then groups[row.target] else []) + [row]]
  }

  lemma GroupedSnoc(groups: map<string, seq<FileRow>>, files: seq<FileRow>, k: nat)
    requires k < |files| && GroupsImported(groups, files[..k])
    ensures GroupsImported(Grouped(groups, files[k]), files[..k + 1])
  {
    hide ImportedInto, PreservedRows;
    RowsSnoc(files, k);
    var after := Grouped(groups, files[k]);
    forall f | f in after ensures after[f] == ImportedInto(files[..k + 1], f) != [] {
      if f !in groups { assert ImportedInto(files[..k], f) == []; }
    }
  }

  method GroupRows(files: seq<FileRow>) returns (groups: map<string, seq<FileRow>>, preserved: seq<FileRow>)
    ensures GroupsImported(groups, files) && preserved == PreservedRows(files)
  {
    groups, preserved := map[], [];
    for k := 0 to |files|
      invariant GroupsImported(groups, files[..k]) && preserved == PreservedRows(files[..k])
    {
      GroupedSnoc(groups, files, k);
      RowsSnoc(files, k);
      hide GroupsImported, ImportedInto, PreservedRows;
      var f := files[k].target;
      if files[k].status == Imported {
        groups := groups[f := (if f in groups then groups[f] else []) + [files[k]]];
      } else if files[k].status == PreservedAsAttachment {
        preserved := preserved + [files[k]];
      }
    }
    assert files[..|files|] == files;
  }

  method CountImported(files: seq<FileRow>) returns (expected: map<string, nat>, preserved: nat)
    ensures preserved == |PreservedRows(files)|
    ensures forall f :: f in expected <==> ImportedInto(files, f) != []
    ensures forall f :: f in expected ==> expected[f] == |ImportedInto(files, f)|
  {
    expected, preserved := map[], 0;
    for k := 0 to |files|
      invariant preserved == |PreservedRows(files[..k])|
      invariant forall f :: f in expected <==> ImportedInto(files[..k], f) != []
      invariant forall f :: f in expected ==> expected[f] == |ImportedInto(files[..k], f)|
    {
      RowsSnoc(files, k);
      hide ImportedInto, PreservedRows;
      var f := files[k].target;
      if files[k].status == Imported {
        expected := expected[f := (if f in expected then expected[f] else 0) + 1];
      } else if files[k].status == PreservedAsAttachment {
        preserved := preserved + 1;
      }
    }
    assert files[..|files|] == files;
  }

  method ExpectedCounts(db: Tables) returns (expected: map<string, nat>)
    ensures forall f :: f in expected <==> IsExpected(db, f)
    ensures forall f :: f in expected ==> expected[f] == |RowsOf(db.files, f)|
  {
    var preserved;
    expected, preserved := CountImported(db.files);
    hide ImportedInto, PreservedRows, Materialized;
    if preserved > 0 {
      expected := expected[CONVERSION_ERRORS :=
        (if CONVERSION_ERRORS in expected then expected[CONVERSION_ERRORS] else 0) + preserved];
    }
    assert forall f :: f in expected <==> RowsOf(db.files, f) != [];
    assert forall f :: f in expected ==> expected[f] == |RowsOf(db.files, f)|;
    hide RowsOf;
    NothingMaterialized(db.folders);
    for k := 0 to |db.folders|
      invariant forall f :: f in expected <==> RowsOf(db.files, f) != [] || Materialized(db.folders[..k], f)
      invariant forall f :: f in expected ==> expected[f] == |RowsOf(db.files, f)|
    {
      MaterializedSnoc(db.folders, k);
      var folder := db.folders[k];
      if folder.entryId.Some? && folder.target !in expected {
        expected := expected[folder.target := 0];
      }
    }
    assert db.folders[..|db.folders|] == db.folders;
  }

  lemma NothingMaterialized(folders: seq<FolderRow>)
    ensures forall f :: !Materialized(folders[..0], f)
  {
  }

  lemma MaterializedSnoc(folders: seq<FolderRow>, k: nat)
    requires k < |folders|
    ensures forall f :: Materialized(folders[..k + 1], f) <==>
      Materialized(folders[..k], f) || (folders[k].entryId.Some? && folders[k].target == f)
  {
    forall f ensures Materialized(folders[..k + 1], f) <==>
      Materialized(folders[..k], f) || (folders[k].entryId.Some? && folders[k].target == f)
    {
      if Materialized(folders[..k], f) {
        var i :| 0 <= i < k && folders[..k][i].entryId.Some? && folders[..k][i].target == f;
        assert folders[..k + 1][i] == folders[i];
      }
      if folders[k].entryId.Some? && folders[k].target == f {
        assert folders[..k + 1][k] == folders[k];
      }
    }
  }

  method IndexFolders(folders: seq<FolderInfo>) returns (actual: map<string, FolderInfo>)
    ensures forall f :: Listed(folders, f) == if f in actual then Some(actual[f]) else None
    ensures actual.Keys == set i | 0 <= i < |folders| :: folders[i].path
  {
    actual := map[];
    for k := 0 to |folders|
      invariant forall f :: Listed(folders[..k], f) == if f in actual then Some(actual[f]) else None
      invariant actual.Keys == set i | 0 <= i < k :: folders[i].path
    {
      assert folders[..k + 1][..k] == folders[..k];
      if folders[k].path !in actual {
        actual := actual[folders[k].path := folders[k]];
      }
    }
    assert folders[..|folders|] == folders;
  }

  method CheckExpectations(db: Tables, view: PstView, expected: map<string, nat>,
                           actual: map<string, FolderInfo>) returns (issues: seq<Issue>)
    requires forall f :: f in expected <==> IsExpected(db, f)
    requires forall f :: f in expected ==> expected[f] == |RowsOf(db.files, f)|
    requires forall f :: Listed(view.folders, f) == if f in actual then Some(actual[f]) else None
    ensures forall issue :: issue in issues <==> ExpectationIssue(db, view, issue.folder, issue)
  {
    hide IsExpected, RowsOf, Listed;
    issues := [];
    var todo := expected.Keys;
    while todo != {}
      invariant todo <= expected.Keys
      invariant forall issue :: issue in issues <==> issue.folder !in todo && ExpectationIssue(db, view, issue.folder, issue)
    {
      var f :| f in todo;
      if f !in actual {
        issues := issues + [FolderMissing(f)];
      } else if actual[f].messageCount != expected[f] {
        issues := issues + [CountMismatch(f, expected[f], actual[f].messageCount)];
      }
      todo := todo - {f};
    }
  }

  method CheckGroups(db: Tables, view: PstView, runId: string, groups: map<string, seq<FileRow>>,
                     actual: map<string, FolderInfo>) returns (issues: seq<Issue>)
    requires GroupsImported(groups, db.files)
    requires forall f :: Listed(view.folders, f) == if f in actual then Some(actual[f]) else None
    ensures forall issue :: issue in issues <==> CheckIssue(db, view, runId, issue.folder, false, issue)
  {
    hide ReadIssue, Listed, ImportedInto;
    issues := [];
    var todo := groups.Keys;
    while todo != {}
      invariant todo <= groups.Keys
      invariant forall issue :: issue in issues <==> issue.folder !in todo && CheckIssue(db, view, runId, issue.folder, false, issue)
    {
      var f :| f in todo;
      if f in actual {
        var more := VerifyFolder(view.read(f), runId, f, groups[f], false);
        assert forall issue :: issue in more ==> issue.folder == f by {
          forall issue | issue in more ensures issue.folder == f {
            IssueFolder(view.read(f), runId, f, groups[f], false, issue);
          }
        }
        issues := issues + more;
      }
      todo := todo - {f};
    }
  }

  lemma IssueFolder(answer: ReadAnswer, runId: string, folder: string, rows: seq<FileRow>, preserved: bool, issue: Issue)
    requires ReadIssue(answer, runId, folder, rows, preserved, issue)
    ensures issue.folder == folder
  {
  }

  /** Reports exactly the issues of the PST, in some order of the folders. */
  method ValidatePst(db: Tables, view: PstView, runId: string) returns (outcome: Outcome)
    ensures forall issue :: issue in outcome.issues <==> IsIssue(db, view, runId, issue)
    ensures outcome.status ==
      if exists issue :: IsIssue(db, view, runId, issue) then ValidationFailed
      else if exists i :: 0 <= i < |db.files| && db.files[i].status == PreservedAsAttachment then ValidatedWithFallbacks
      else Validated
    ensures outcome.foldersChecked == |set i | 0 <= i < |view.folders| :: view.folders[i].path|
  {
    hide ExpectationIssue, Listed, ReadIssue, ImportedInto, IsExpected, GroupsImported, PreservedRows, RowsOf;
    var expected := ExpectedCounts(db);
    var actual := IndexFolders(view.folders);
    var issues := CheckExpectations(db, view, expected, actual);
    var groups, preserved := GroupRows(db.files);
    var imports := CheckGroups(db, view, runId, groups, actual);
    issues := issues + imports;
    if preserved != [] && CONVERSION_ERRORS in actual {
      var fallbacks := VerifyFolder(view.read(CONVERSION_ERRORS), runId, CONVERSION_ERRORS, preserved, true);
      forall issue | issue in fallbacks ensures issue.folder == CONVERSION_ERRORS {
        IssueFolder(view.read(CONVERSION_ERRORS), runId, CONVERSION_ERRORS, preserved, true, issue);
      }
      issues := issues + fallbacks;
    }
    assert forall issue :: issue in issues <==> IsIssue(db, view, runId, issue);
    SomePreserved(db.files);
    var status := if issues != [] then ValidationFailed
                  else if preserved != [] then ValidatedWithFallbacks
                  else Validated;
    assert issues != [] ==> issues[0] in issues;
    outcome := Outcome(status, issues, |actual|);
  }

  lemma {:induction false} SomePreserved(files: seq<FileRow>)
    ensures PreservedRows(files) != [] <==> exists i :: 0 <= i < |files| && files[i].status == PreservedAsAttachment
  {
    if files != [] {
      SomePreserved(files[..|files| - 1]);
    }
  }
}
