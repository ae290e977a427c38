/** What a passed validation proves of any PST. */
module ValidationProofs {
  import opened Store
  import opened ProtocolSafety
  import opened Validation

  function MessagePaths(messages: seq<TrackedMessage>): (paths: seq<string>)
    ensures |paths| == |messages|
  {
    seq(|messages|, i requires 0 <= i < |messages| => messages[i].path)
  }

  function RowPaths(rows: seq<FileRow>): (paths: seq<string>)
    ensures |paths| == |rows|
  {
    seq(|rows|, i requires 0 <= i < |rows| => rows[i].path)
  }

  lemma {:induction false} FirstHit(messages: seq<TrackedMessage>, runId: string, path: string) returns (j: nat)
    requires |Hits(messages, runId, path)| == 1
    ensures j < |messages| && messages[j].runId == runId && messages[j].path == path
  {
    if messages[0].runId == runId && messages[0].path == path {
      j := 0;
    } else {
      j := FirstHit(messages[1..], runId, path);
      j := j + 1;
    }
  }

  lemma {:induction false} WithoutOne(messages: seq<TrackedMessage>, j: nat, runId: string, path: string)
    requires j < |messages| && messages[j].path != path
    ensures Hits(messages[..j] + messages[j + 1..], runId, path) == Hits(messages, runId, path)
  {
    assert messages == messages[..j] + ([messages[j]] + messages[j + 1..]);
    HitsConcat(messages[..j], [messages[j]] + messages[j + 1..], runId, path);
    HitsConcat([messages[j]], messages[j + 1..], runId, path);
    HitsConcat(messages[..j], messages[j + 1..], runId, path);
  }

  lemma PathsWithoutOne(messages: seq<TrackedMessage>, j: nat)
    requires j < |messages|
    ensures multiset(MessagePaths(messages))
      == multiset(MessagePaths(messages[..j] + messages[j + 1..])) + multiset{messages[j].path}
  {
    var paths := MessagePaths(messages);
    assert paths == paths[..j] + [paths[j]] + paths[j + 1..];
    assert MessagePaths(messages[..j] + messages[j + 1..]) == paths[..j] + paths[j + 1..];
  }

  lemma RowPathsFirst(rows: seq<FileRow>)
    requires rows != []
    ensures multiset(RowPaths(rows)) == multiset{rows[0].path} + multiset(RowPaths(rows[1..]))
  {
    assert RowPaths(rows) == [rows[0].path] + RowPaths(rows[1..]);
  }

  /** As many messages as rows, and one match for every row, leaves no room for anything else. */
  lemma {:induction false} CountingLeavesNoRoom(rows: seq<FileRow>, messages: seq<TrackedMessage>, runId: string)
    requires DistinctPaths(rows) && |rows| == |messages|
    requires forall r :: r in rows ==> |Hits(messages, runId, r.path)| == 1
    ensures multiset(MessagePaths(messages)) == multiset(RowPaths(rows))
    ensures forall m :: m in messages ==> m.runId == runId
    decreases |rows|
  {
    if rows != [] {
      var j := FirstHit(messages, runId, rows[0].path);
      var others := messages[..j] + messages[j + 1..];
      forall r | r in rows[1..] ensures |Hits(others, runId, r.path)| == 1 {
        WithoutOne(messages, j, runId, r.path);
      }
      hide Hits, MessagePaths, RowPaths;
      CountingLeavesNoRoom(rows[1..], others, runId);
      PathsWithoutOne(messages, j);
      RowPathsFirst(rows);
      forall m | m in messages ensures m.runId == runId {
        assert m in others || m == messages[j];
      }
    }
  }

  lemma {:induction false} ImportedAreRows(files: seq<FileRow>, folder: string)
    requires DistinctPaths(files)
    ensures DistinctPaths(ImportedInto(files, folder))
    ensures forall r :: r in ImportedInto(files, folder) ==> r in files && r.status == Imported
  {
    if files != [] {
      ImportedAreRows(files[..|files| - 1], folder);
    }
  }

  lemma {:induction false} PreservedAreRows(files: seq<FileRow>)
    requires DistinctPaths(files)
    ensures DistinctPaths(PreservedRows(files))
    ensures forall r :: r in PreservedRows(files) ==> r in files && r.status == PreservedAsAttachment
  {
    if files != [] {
      PreservedAreRows(files[..|files| - 1]);
    }
  }

  lemma RowsOfAreDistinct(files: seq<FileRow>, folder: string)
    requires DistinctPaths(files)
    ensures DistinctPaths(RowsOf(files, folder))
  {
    ImportedAreRows(files, folder);
    PreservedAreRows(files);
    forall a, b | a in files && b in files && a.path == b.path ensures a == b {
      var i :| 0 <= i < |files| && files[i] == a;
      var j :| 0 <= j < |files| && files[j] == b;
      assert !(i < j) && !(j < i);
    }
    hide ImportedInto, PreservedRows;
  }

  /** If validation finds nothing wrong, then in every folder that has imported or preserved rows the
      messages and those rows correspond one to one by source path, and every message is of this run;
      although no check looks at messages of other runs. */
  lemma PassedMeansExact(db: Tables, view: PstView, runId: string, folder: string)
    requires DistinctPaths(db.files) && RowsOf(db.files, folder) != []
    requires forall issue :: !IsIssue(db, view, runId, issue)
    requires forall info :: info in view.folders && view.read(info.path).Readable? ==>
      info.messageCount == |view.read(info.path).messages|
    ensures view.read(folder).Readable? && exists info :: info in view.folders && info.path == folder
    ensures multiset(MessagePaths(view.read(folder).messages)) == multiset(RowPaths(RowsOf(db.files, folder)))
    ensures forall m :: m in view.read(folder).messages ==> m.runId == runId
  {
    var rows := RowsOf(db.files, folder);
    assert IsExpected(db, folder);
    hide ImportedInto, PreservedRows;
    ListedIsListed(view.folders, folder);
    assert !IsIssue(db, view, runId, FolderMissing(folder));
    var info := Listed(view.folders, folder).value;
    assert !IsIssue(db, view, runId, CountMismatch(folder, |rows|, info.messageCount));
    assert !IsIssue(db, view, runId, TrackedUnreadable(folder));
    var messages := view.read(folder).messages;
    forall r | r in rows ensures |Hits(messages, runId, r.path)| == 1 {
      assert !IsIssue(db, view, runId, NoMatch(folder, r.path));
      assert !IsIssue(db, view, runId, Duplicates(folder, r.path, |Found(messages, runId, r.path)|));
      OneMatch(db, view, runId, folder, r);
    }
    RowsOfAreDistinct(db.files, folder);
    CountingLeavesNoRoom(rows, messages, runId);
  }

  lemma {:induction false} ListedIsListed(folders: seq<FolderInfo>, path: string)
    ensures Listed(folders, path).Some? ==> Listed(folders, path).value in folders && Listed(folders, path).value.path == path
  {
    if folders != [] {
      ListedIsListed(folders[..|folders| - 1], path);
    }
  }

  lemma {:induction false} OneMatch(db: Tables, view: PstView, runId: string, folder: string, r: FileRow)
    requires r in RowsOf(db.files, folder) && Listed(view.folders, folder).Some? && view.read(folder).Readable?
    requires var found := Found(view.read(folder).messages, runId, r.path);
      && !IsIssue(db, view, runId, NoMatch(folder, r.path)) && !IsIssue(db, view, runId, Duplicates(folder, r.path, |found|))
    ensures runId != "" && |Found(view.read(folder).messages, runId, r.path)| == 1
  {
    hide ImportedInto, PreservedRows, Hits;
    var messages := view.read(folder).messages;
    var found := Found(messages, runId, r.path);
    var preserved := r !in ImportedInto(db.files, folder);
    assert r in Checked(db, folder, preserved);
    assert !CheckIssue(db, view, runId, folder, preserved, NoMatch(folder, r.path));
    assert !CheckIssue(db, view, runId, folder, preserved, Duplicates(folder, r.path, |found|));
  }
}
