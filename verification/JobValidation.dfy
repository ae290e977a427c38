/** When the PST of a completed job passes validation, over every history of cut and resumed runs. */
module JobValidation {
  import opened Wrappers
  import opened Store
  import opened ImportProtocol
  import opened ProtocolSafety
  import opened History
  import opened DigestClashes
  import opened Validation

  /** One for a row whose message is expected in the folder, zero for another. */
  function Weight(row: FileRow, folder: string): nat {
    if row.status == Imported && row.target == folder then 1
    else if row.status == PreservedAsAttachment && folder == CONVERSION_ERRORS then 1
    else 0
  }

  function WeightSum(rows: seq<FileRow>, folder: string): nat {
    if rows == [] then 0 else WeightSum(rows[..|rows| - 1], folder) + Weight(rows[|rows| - 1], folder)
  }

  function HitSum(rows: seq<FileRow>, messages: seq<TrackedMessage>, runId: string): nat {
    if rows == [] then 0
    else HitSum(rows[..|rows| - 1], messages, runId) + |Hits(messages, runId, rows[|rows| - 1].path)|
  }

  lemma {:induction false} RowsOfAreCounted(files: seq<FileRow>, folder: string)
    ensures |RowsOf(files, folder)| == WeightSum(files, folder)
  {
    if files != [] {
      RowsOfAreCounted(files[..|files| - 1], folder);
    }
  }

  lemma {:induction false} HitSumConcat(rows: seq<FileRow>, a: seq<TrackedMessage>, b: seq<TrackedMessage>, runId: string)
    ensures HitSum(rows, a + b, runId) == HitSum(rows, a, runId) + HitSum(rows, b, runId)
  {
    if rows != [] {
      HitSumConcat(rows[..|rows| - 1], a, b, runId);
      HitsConcat(a, b, runId, rows[|rows| - 1].path);
    }
  }

  lemma {:induction false} HitSumOfOne(rows: seq<FileRow>, m: TrackedMessage)
    requires DistinctPaths(rows)
    ensures HitSum(rows, [m], m.runId) == if exists i :: 0 <= i < |rows| && rows[i].path == m.path then 1 else 0
  {
    if rows != [] {
      var n := |rows| - 1;
      HitSumOfOne(rows[..n], m);
      assert [m][1..] == [];
      assert Hits([m], m.runId, rows[n].path) == if rows[n].path == m.path then [m] else [];
      assert forall i :: 0 <= i < n ==> rows[..n][i] == rows[i];
    }
  }

  /** Messages of the run that belong to rows are counted once, by their row. */
  lemma {:induction false} EveryMessageCounts(rows: seq<FileRow>, messages: seq<TrackedMessage>, runId: string)
    requires DistinctPaths(rows)
    requires forall m :: m in messages ==> m.runId == runId && exists i :: 0 <= i < |rows| && rows[i].path == m.path
    ensures |messages| == HitSum(rows, messages, runId)
  {
    if messages == [] {
      NothingCounts(rows, runId);
    } else {
      EveryMessageCounts(rows, messages[1..], runId);
      assert messages == [messages[0]] + messages[1..];
      HitSumConcat(rows, [messages[0]], messages[1..], runId);
      HitSumOfOne(rows, messages[0]);
    }
  }

  lemma {:induction false} NothingCounts(rows: seq<FileRow>, runId: string)
    ensures HitSum(rows, [], runId) == 0
  {
    if rows != [] { NothingCounts(rows[..|rows| - 1], runId); }
  }

  /** Sums of terms that are nowhere smaller are equal only if the terms are. */
  lemma {:induction false} EqualSums(rows: seq<FileRow>, messages: seq<TrackedMessage>, runId: string, folder: string)
    requires forall r :: r in rows ==> |Hits(messages, runId, r.path)| >= Weight(r, folder)
    ensures HitSum(rows, messages, runId) >= WeightSum(rows, folder)
    ensures HitSum(rows, messages, runId) == WeightSum(rows, folder)
      <==> forall r :: r in rows ==> |Hits(messages, runId, r.path)| == Weight(r, folder)
  {
    if rows != [] {
      var n := |rows| - 1;
      EqualSums(rows[..n], messages, runId, folder);
      assert rows == rows[..n] + [rows[n]];
      hide Hits, Weight;
    }
  }

  /** The finished PST of a job: nothing pending, and the disk safe. */
  ghost predicate Finished(runId: string, plan: seq<FileRow>, d: Durable) {
    && runId != ""
    && SafeDisk(NoSurplus(ReadableFolders), runId, plan, d)
    && forall i :: 0 <= i < |d.db.files| ==> d.db.files[i].status != Pending
  }

  lemma FinishedRow(runId: string, plan: seq<FileRow>, d: Durable, r: FileRow)
    requires Finished(runId, plan, d) && r in d.db.files
    ensures RowSafe(NoSurplus(ReadableFolders), runId, d.pst, r) && r.status != Pending
    ensures DistinctPaths(d.db.files)
  {
  }

  /** No message of a row lies outside its target and the errors folder. */
  lemma NoStrays(runId: string, plan: seq<FileRow>, d: Durable, folder: string, r: FileRow)
    requires Finished(runId, plan, d) && r in d.db.files && folder != r.target && folder != CONVERSION_ERRORS
    ensures HitsIn(d.pst, folder, runId, r.path) == []
  {
    var k :| 0 <= k < |plan| && d.db.files[k] == r;
    forall m | m in Contents(d.pst, folder) ensures m.path != r.path {
      var i: nat :| OwnedBy(plan, folder, m.path, i);
      assert m.path == r.path ==> i == k;
    }
    NoHitsOfAnotherPath(Contents(d.pst, folder), runId, r.path);
  }

  /** In every folder but the errors folder a row has exactly the messages validation expects; in the
      errors folder at least those. */
  lemma HitsFitWeights(runId: string, plan: seq<FileRow>, d: Durable, folder: string, r: FileRow)
    requires Finished(runId, plan, d) && r in d.db.files
    ensures |HitsIn(d.pst, folder, runId, r.path)| >= Weight(r, folder)
    ensures folder != CONVERSION_ERRORS || r.target == CONVERSION_ERRORS ==>
      |HitsIn(d.pst, folder, runId, r.path)| == Weight(r, folder)
  {
    FinishedRow(runId, plan, d, r);
    if folder != CONVERSION_ERRORS && folder != r.target {
      NoStrays(runId, plan, d, folder, r);
    }
    hide SafeDisk, HitsIn;
  }

  lemma ErrorsFitWeights(runId: string, plan: seq<FileRow>, d: Durable)
    requires Finished(runId, plan, d)
    ensures NoFallbackLost(runId, plan, d) <==>
      forall r :: r in d.db.files ==> |HitsIn(d.pst, CONVERSION_ERRORS, runId, r.path)| == Weight(r, CONVERSION_ERRORS)
  {
    forall r | r in d.db.files
      ensures r.target == CONVERSION_ERRORS ==>
        |HitsIn(d.pst, CONVERSION_ERRORS, runId, r.path)| == Weight(r, CONVERSION_ERRORS)
    {
      HitsFitWeights(runId, plan, d, CONVERSION_ERRORS, r);
    }
    hide HitsIn, RowSafe, OnlyOurs;
    assert forall i :: 0 <= i < |plan| ==> d.db.files[i] in d.db.files;
  }

  /** The count of a folder is the expected one exactly when, in the errors folder, no fallback is lost. */
  lemma CountsAgree(runId: string, plan: seq<FileRow>, d: Durable, folder: string)
    requires Finished(runId, plan, d)
    ensures |Contents(d.pst, folder)| == |RowsOf(d.db.files, folder)|
      <==> folder != CONVERSION_ERRORS || NoFallbackLost(runId, plan, d)
  {
    var files := d.db.files;
    var messages := Contents(d.pst, folder);
    RowsOfAreCounted(files, folder);
    OwnMessages(runId, plan, d, folder);
    EveryMessageCounts(files, messages, runId);
    forall r | r in files
      ensures |Hits(messages, runId, r.path)| >= Weight(r, folder)
      ensures folder != CONVERSION_ERRORS ==> |Hits(messages, runId, r.path)| == Weight(r, folder)
    {
      HitsFitWeights(runId, plan, d, folder, r);
    }
    EqualSums(files, messages, runId, folder);
    ErrorsFitWeights(runId, plan, d);
    hide Finished, Weight, NoFallbackLost, RowsOf, Hits;
  }

  lemma OwnMessages(runId: string, plan: seq<FileRow>, d: Durable, folder: string)
    requires Finished(runId, plan, d)
    ensures DistinctPaths(d.db.files)
    ensures forall m :: m in Contents(d.pst, folder) ==>
      m.runId == runId && exists i :: 0 <= i < |d.db.files| && d.db.files[i].path == m.path
  {
    forall m | m in Contents(d.pst, folder)
      ensures m.runId == runId && exists i :: 0 <= i < |d.db.files| && d.db.files[i].path == m.path
    {
      var i: nat :| OwnedBy(plan, folder, m.path, i);
      assert d.db.files[i].path == m.path;
    }
    hide RowSafe;
  }

  /** A fresh session lists every folder of the PST once with its count and reads it completely. */
  ghost predicate Shows(view: PstView, pst: Pst) {
    forall f :: f in pst ==>
      Listed(view.folders, f) == Some(FolderInfo(f, |pst[f]|)) && view.read(f) == Readable(pst[f])
  }

  lemma ExpectedExists(runId: string, plan: seq<FileRow>, d: Durable, folder: string)
    requires Finished(runId, plan, d) && IsExpected(d.db, folder)
    ensures folder in d.pst
  {
    if RowsOf(d.db.files, folder) != [] {
      RowsOfMembers(d.db.files, folder);
      var r := RowsOf(d.db.files, folder)[0];
      assert r in RowsOf(d.db.files, folder);
      HitsFitWeights(runId, plan, d, folder, r);
    }
  }

  lemma {:induction false} RowsOfMembers(files: seq<FileRow>, folder: string)
    ensures forall r :: r in ImportedInto(files, folder) ==> r in files && r.status == Imported && r.target == folder
    ensures forall r :: r in PreservedRows(files) ==> r in files && r.status == PreservedAsAttachment
  {
    if files != [] {
      RowsOfMembers(files[..|files| - 1], folder);
    }
  }

  /** Where the counts agree every row has one message, and only an adopted one can have another digest. */
  lemma RowPasses(runId: string, plan: seq<FileRow>, d: Durable, folder: string, preserved: bool, r: FileRow)
    requires Finished(runId, plan, d) && folder in d.pst && r in Checked(d.db, folder, preserved)
    requires folder == CONVERSION_ERRORS ==> NoFallbackLost(runId, plan, d)
    ensures var found := Found(d.pst[folder], runId, r.path);
      && |found| == 1 && (preserved ==> found[0].hasAttachments)
      && (ShaDiffers(r, found[0]) <==> !preserved && Clashes(runId, d.pst, r))
  {
    RowsOfMembers(d.db.files, folder);
    FinishedRow(runId, plan, d, r);
    HitsFitWeights(runId, plan, d, folder, r);
    ErrorsFitWeights(runId, plan, d);
    var found := Found(d.pst[folder], runId, r.path);
    assert |found| == 1;
    assert found == [found[0]] && found == HitsIn(d.pst, folder, runId, r.path);
    hide Hits, NoFallbackLost, ImportedInto, PreservedRows;
  }

  lemma ChecksPass(runId: string, plan: seq<FileRow>, d: Durable, view: PstView, folder: string, preserved: bool,
                   issue: Issue)
    requires Finished(runId, plan, d) && Shows(view, d.pst) && !ImportedClash(runId, d)
    requires folder == CONVERSION_ERRORS ==> NoFallbackLost(runId, plan, d)
    ensures !CheckIssue(d.db, view, runId, folder, preserved, issue)
  {
    hide ImportedInto, PreservedRows, Hits, RowSafe, NoFallbackLost, ImportedClash, Clashes, Materialized;
    var rows := Checked(d.db, folder, preserved);
    if rows != [] {
      RowsOfMembers(d.db.files, folder);
      assert rows[0] in rows && IsExpected(d.db, folder);
      ExpectedExists(runId, plan, d, folder);
      var messages := d.pst[folder];
      assert forall m :: m in messages ==> m.runId == runId;
      forall r | r in rows
        ensures |Found(messages, runId, r.path)| == 1
        ensures !ShaDiffers(r, Found(messages, runId, r.path)[0])
        ensures preserved ==> Found(messages, runId, r.path)[0].hasAttachments
      {
        RowPasses(runId, plan, d, folder, preserved, r);
        if !preserved { ImportedRowAgrees(runId, d, r); }
      }
      hide Finished, Found, ShaDiffers, Checked, IsExpected;
    }
  }

  lemma ImportedRowAgrees(runId: string, d: Durable, r: FileRow)
    requires !ImportedClash(runId, d) && r in d.db.files && r.status == Imported
    ensures !Clashes(runId, d.pst, r)
  {
    hide Clashes;
    var i: nat :| i < |d.db.files| && d.db.files[i] == r;
    assert !RowClashes(runId, d, i);
  }

  /** What makes validation pass. */
  ghost predicate Passable(runId: string, plan: seq<FileRow>, d: Durable) {
    !ImportedClash(runId, d) && (NoFallbackLost(runId, plan, d) || !IsExpected(d.db, CONVERSION_ERRORS))
  }

  /** The finished PST passes validation exactly when no IMPORTED row has another digest than its message,
      and no fallback message is lost in it or nothing makes validation look at the errors folder. */
  lemma PassesExactlyWhenNothingLost(runId: string, plan: seq<FileRow>, d: Durable, view: PstView)
    requires Finished(runId, plan, d) && Shows(view, d.pst)
    ensures (forall issue :: !IsIssue(d.db, view, runId, issue))
      <==> !ImportedClash(runId, d) && (NoFallbackLost(runId, plan, d) || !IsExpected(d.db, CONVERSION_ERRORS))
  {
    hide Finished, Shows, NoFallbackLost, IsExpected, ImportedClash, IsIssue;
    if Passable(runId, plan, d) {
      forall issue ensures !IsIssue(d.db, view, runId, issue) {
        NoIssueHere(runId, plan, d, view, issue);
      }
    } else if ImportedClash(runId, d) {
      ClashIsReported(runId, plan, d, view);
    } else {
      LossIsReported(runId, plan, d, view);
    }
  }

  lemma LossIsReported(runId: string, plan: seq<FileRow>, d: Durable, view: PstView)
    requires Finished(runId, plan, d) && Shows(view, d.pst)
    requires !NoFallbackLost(runId, plan, d) && IsExpected(d.db, CONVERSION_ERRORS)
    ensures exists issue :: IsIssue(d.db, view, runId, issue)
  {
    var expected := |RowsOf(d.db.files, CONVERSION_ERRORS)|;
    ExpectedExists(runId, plan, d, CONVERSION_ERRORS);
    CountsAgree(runId, plan, d, CONVERSION_ERRORS);
    hide RowsOf, NoFallbackLost, IsExpected, Finished, Listed;
    assert IsIssue(d.db, view, runId, CountMismatch(CONVERSION_ERRORS, expected, |d.pst[CONVERSION_ERRORS]|));
  }

  lemma ClashIsFound(runId: string, plan: seq<FileRow>, d: Durable, r: FileRow)
    requires Finished(runId, plan, d) && r in d.db.files && r.status == Imported && Clashes(runId, d.pst, r)
    ensures var found := Found(Contents(d.pst, r.target), runId, r.path); |found| == 1 && ShaDiffers(r, found[0])
  {
    FinishedRow(runId, plan, d, r);
    hide Hits, ShaDiffers, SafeDisk;
    var found := HitsIn(d.pst, r.target, runId, r.path);
    assert found == [found[0]];
  }

  /** A clash is found in the target folder, which validation reads since the row is IMPORTED. */
  lemma ClashIsReported(runId: string, plan: seq<FileRow>, d: Durable, view: PstView)
    requires Finished(runId, plan, d) && Shows(view, d.pst) && ImportedClash(runId, d)
    ensures exists issue :: IsIssue(d.db, view, runId, issue)
  {
    hide Finished, Clashes, Listed, Found, ShaDiffers, ImportedInto;
    var i: nat :| i < |d.db.files| && RowClashes(runId, d, i) && d.db.files[i].status == Imported;
    var r := d.db.files[i];
    var folder := r.target;
    InItsFolder(d.db.files, i);
    assert r in ImportedInto(d.db.files, folder);
    ClashIsFound(runId, plan, d, r);
    ExpectedExists(runId, plan, d, folder);
    assert CheckIssue(d.db, view, runId, folder, false, ShaMismatch(folder, r.path));
    assert IsIssue(d.db, view, runId, ShaMismatch(folder, r.path));
  }

  lemma {:induction false} InItsFolder(files: seq<FileRow>, i: nat)
    requires i < |files| && files[i].status == Imported
    ensures files[i] in ImportedInto(files, files[i].target)
  {
    var n := |files| - 1;
    if i < n {
      InItsFolder(files[..n], i);
    }
  }

  lemma NoIssueHere(runId: string, plan: seq<FileRow>, d: Durable, view: PstView, issue: Issue)
    requires Finished(runId, plan, d) && Shows(view, d.pst) && Passable(runId, plan, d)
    ensures !IsIssue(d.db, view, runId, issue)
  {
    var f := issue.folder;
    if IsExpected(d.db, f) {
      ExpectedExists(runId, plan, d, f);
      CountsAgree(runId, plan, d, f);
      ChecksPass(runId, plan, d, view, f, false, issue);
      ChecksPass(runId, plan, d, view, f, true, issue);
    }
    hide Finished, NoFallbackLost, ImportedInto, PreservedRows, Listed, ReadIssue, ImportedClash;
  }

  lemma {:induction false} LostBeforeIsLost(c: Config, plan: seq<FileRow>, folders: seq<FolderRow>,
                                            attempts: seq<Attempt>, k: nat)
    requires NewJob(plan, folders) && k <= |attempts|
    requires NoFallbackLost(c.runId, plan, After(c, Created(plan, folders), attempts))
    ensures NoFallbackLost(c.runId, plan, After(c, Created(plan, folders), attempts[..k]))
    decreases |attempts|
  {
    if k == |attempts| {
      assert attempts[..k] == attempts;
    } else {
      var n := |attempts| - 1;
      assert attempts == attempts[..n] + [attempts[n]];
      assert attempts[..n][..k] == attempts[..k];
      if !NoFallbackLost(c.runId, plan, After(c, Created(plan, folders), attempts[..n])) {
        LostStaysLost(c, plan, folders, attempts[..n], attempts[n]);
      }
      LostBeforeIsLost(c, plan, folders, attempts[..n], k);
    }
  }

  ghost predicate EndsCompleted(c: Config, plan: seq<FileRow>, folders: seq<FolderRow>, attempts: seq<Attempt>,
                                last: Attempt) {
    && last.cut.None?
    && Attempted(RunConfig(c, |attempts|), After(c, Created(plan, folders), attempts), last).1.Completed?
  }

  /** At the start of each run no fallback message is lost. */
  ghost predicate NoneLostAtStart(c: Config, plan: seq<FileRow>, folders: seq<FolderRow>, attempts: seq<Attempt>) {
    forall k :: 0 <= k <= |attempts| ==> NoFallbackLost(c.runId, plan, After(c, Created(plan, folders), attempts[..k]))
  }

  /** A completed job lost no fallback exactly when none of its runs found one lost. */
  lemma {:induction false} LostOnlyByCuts(c: Config, plan: seq<FileRow>, folders: seq<FolderRow>,
                                          attempts: seq<Attempt>, last: Attempt)
    requires NewJob(plan, folders) && EndsCompleted(c, plan, folders, attempts, last)
    ensures NoFallbackLost(c.runId, plan, After(c, Created(plan, folders), attempts + [last]))
      <==> NoneLostAtStart(c, plan, folders, attempts)
  {
    var d0 := Created(plan, folders);
    LastRun(c, d0, attempts, last);
    hide NoFallbackLost;
    assert attempts[..|attempts|] == attempts;
    if NoFallbackLost(c.runId, plan, After(c, d0, attempts)) {
      UncutRunLosesNothing(c, plan, folders, attempts, last);
      hide Attempted, NewJob;
      forall k | 0 <= k <= |attempts| ensures NoFallbackLost(c.runId, plan, After(c, d0, attempts[..k])) {
        LostBeforeIsLost(c, plan, folders, attempts, k);
      }
    } else {
      LostStaysLost(c, plan, folders, attempts, last);
    }
  }

  lemma {:induction false} LastRun(c: Config, d: Durable, attempts: seq<Attempt>, last: Attempt)
    requires last.cut.None?
    ensures var r := Attempted(RunConfig(c, |attempts|), After(c, d, attempts), last).0;
      After(c, d, attempts + [last]) == Durable(r.pst, r.committed)
  {
    assert (attempts + [last])[..|attempts|] == attempts;
    hide Execute;
  }

  lemma {:induction false} CompletedIsFinished(c: Config, plan: seq<FileRow>, folders: seq<FolderRow>,
                                               attempts: seq<Attempt>, last: Attempt)
    requires NewJob(plan, folders) && c.runId != "" && EndsCompleted(c, plan, folders, attempts, last)
    requires HistoryFits(ReadableFolders, c, plan, folders, attempts + [last])
    ensures Finished(c.runId, plan, After(c, Created(plan, folders), attempts + [last]))
  {
    HistorySafe(ReadableFolders, c, plan, folders, attempts + [last]);
    LastRun(c, Created(plan, folders), attempts, last);
    hide SafeDisk, HistoryFits, Attempted;
    RunAccounts(c, plan, folders, attempts, last);
  }

  /** After any history of cut and resumed runs, when the last run completes: validation finds nothing wrong
      exactly when no run started with a PENDING row whose own message has another digest than the row, and
      none with a lost fallback, or nothing expects the errors folder. */
  lemma {:induction false} CompletedJobValidates(c: Config, plan: seq<FileRow>, folders: seq<FolderRow>,
                                                 attempts: seq<Attempt>, last: Attempt, view: PstView)
    requires NewJob(plan, folders) && c.runId != "" && EndsCompleted(c, plan, folders, attempts, last)
    requires HistoryFits(ReadableFolders, c, plan, folders, attempts + [last])
    requires Shows(view, After(c, Created(plan, folders), attempts + [last]).pst)
    ensures var d := After(c, Created(plan, folders), attempts + [last]);
      (forall issue :: !IsIssue(d.db, view, c.runId, issue))
      <==> NoClashAtStart(c, plan, folders, attempts)
           && (NoneLostAtStart(c, plan, folders, attempts) || !IsExpected(d.db, CONVERSION_ERRORS))
  {
    hide *;
    var d := After(c, Created(plan, folders), attempts + [last]);
    CompletedIsFinished(c, plan, folders, attempts, last);
    PassesExactlyWhenNothingLost(c.runId, plan, d, view);
    LostOnlyByCuts(c, plan, folders, attempts, last);
    ClashesOnlyByCuts(c, plan, folders, attempts + [last]);
    NonePending(c.runId, plan, d);
    LastStartIsNew(c, plan, folders, attempts, last);
  }

  lemma NonePending(runId: string, plan: seq<FileRow>, d: Durable)
    requires Finished(runId, plan, d)
    ensures (forall i :: 0 <= i < |d.db.files| ==> d.db.files[i].status != Pending) && !PendingClash(runId, d)
  {
  }

  /** The disk that the completed run leaves has nothing pending: no clash starts there. */
  lemma {:induction false} LastStartIsNew(c: Config, plan: seq<FileRow>, folders: seq<FolderRow>,
                                          attempts: seq<Attempt>, last: Attempt)
    requires !PendingClash(c.runId, After(c, Created(plan, folders), attempts + [last]))
    ensures NoClashAtStart(c, plan, folders, attempts + [last]) <==> NoClashAtStart(c, plan, folders, attempts)
  {
    hide PendingClash, After;
    var all := attempts + [last];
    assert all[..|all|] == all;
    assert forall k :: 0 <= k <= |attempts| ==> all[..k] == attempts[..k];
  }

  /** With a source that never changes only the errors folder can be wrong. */
  lemma {:induction false} StableJobValidates(digest: string -> string, c: Config, plan: seq<FileRow>,
                                              folders: seq<FolderRow>, attempts: seq<Attempt>, last: Attempt, view: PstView)
    requires NewJob(plan, folders) && c.runId != "" && EndsCompleted(c, plan, folders, attempts, last)
    requires HistoryFits(StableSource(digest), c, plan, folders, attempts + [last])
    requires Shows(view, After(c, Created(plan, folders), attempts + [last]).pst)
    ensures var d := After(c, Created(plan, folders), attempts + [last]);
      (forall issue :: !IsIssue(d.db, view, c.runId, issue))
      <==> NoneLostAtStart(c, plan, folders, attempts) || !IsExpected(d.db, CONVERSION_ERRORS)
  {
    hide *;
    StableNeverClashes(digest, c, plan, folders, attempts + [last]);
    CompletedJobValidates(c, plan, folders, attempts, last, view);
    FewerStarts(c, plan, folders, attempts, last);
  }

  lemma {:induction false} FewerStarts(c: Config, plan: seq<FileRow>, folders: seq<FolderRow>,
                                       attempts: seq<Attempt>, last: Attempt)
    requires NoClashAtStart(c, plan, folders, attempts + [last])
    ensures NoClashAtStart(c, plan, folders, attempts)
  {
    hide PendingClash, After;
    assert forall k :: 0 <= k <= |attempts| ==> (attempts + [last])[..k] == attempts[..k];
  }
}
