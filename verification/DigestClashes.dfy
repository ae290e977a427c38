/** Rows whose message has another digest than the row: where they come from. */
module DigestClashes {
  import opened Wrappers
  import opened Store
  import opened ImportProtocol
  import opened ProtocolSafety
  import opened History

  /** A row that is to be adopted, or was, with a message of another digest. */
  ghost predicate RowClashes(runId: string, d: Durable, i: nat) {
    && i < |d.db.files| && (d.db.files[i].status.Pending? || d.db.files[i].status.Imported?)
    && Clashes(runId, d.pst, d.db.files[i])
  }

  /** Can be checked before a run: a PENDING row has a stored digest, and its message another one. */
  ghost predicate PendingClash(runId: string, d: Durable) {
    exists i: nat :: RowClashes(runId, d, i) && d.db.files[i].status == Pending
  }

  ghost predicate ImportedClash(runId: string, d: Durable) {
    exists i: nat :: RowClashes(runId, d, i) && d.db.files[i].status == Imported
  }

  ghost predicate PathClashes(runId: string, d: Durable, path: string) {
    exists i: nat :: RowClashes(runId, d, i) && d.db.files[i].path == path
  }

  /** The run that starts from d, followed. */
  ghost function From(runId: string, d: Durable): Source {
    Source(ReadableFolders, path => 0, Some(path => PathClashes(runId, d, path)))
  }

  lemma FromIsSafe(runId: string, plan: seq<FileRow>, d: Durable)
    requires SafeDisk(NoSurplus(ReadableFolders), runId, plan, d)
    ensures SafeDisk(From(runId, d), runId, plan, d) && StartsFrom(From(runId, d), runId, d)
  {
    hide HitsIn, Clashes;
    var src := From(runId, d);
    forall i | 0 <= i < |plan|
      ensures RowSafe(src, runId, d.pst, d.db.files[i])
      ensures d.db.files[i].status == Pending ==> ClashKnown(src, runId, d.pst, d.db.files[i])
    {
      assert RowSafe(NoSurplus(ReadableFolders), runId, d.pst, d.db.files[i]);
      assert PathClashes(runId, d, plan[i].path) <==> RowClashes(runId, d, i);
    }
    assert OnlyOurs(src, runId, plan, d.pst);
  }

  /** A run keeps every clash it starts with, and adopting a message makes no other: a row that it leaves
      IMPORTED clashes exactly if it did when the run started. */
  lemma RunKeepsClashes(c: Config, plan: seq<FileRow>, d: Durable, a: Attempt, i: nat)
    requires SafeDisk(NoSurplus(ReadableFolders), c.runId, plan, d) && Startable(c, d) && i < |plan|
    requires AttemptFits(NoSurplus(ReadableFolders), c, d, a)
    ensures var e := Survivor(c, d, a);
      && |e.db.files| == |plan|
      && (RowClashes(c.runId, d, i) ==> RowClashes(c.runId, e, i))
      && (e.db.files[i].status == Imported && RowClashes(c.runId, e, i) ==> RowClashes(c.runId, d, i))
  {
    hide HitsIn, Clashes, Survivor, OnlyOurs;
    var src := From(c.runId, d);
    FromIsSafe(c.runId, plan, d);
    assert AttemptFits(src, c, d, a);
    SurvivorIsSafe(src, c, plan, d, a);
    var e := Survivor(c, d, a);
    assert RowSafe(src, c.runId, e.pst, e.db.files[i]);
    assert PathClashes(c.runId, d, plan[i].path) <==> RowClashes(c.runId, d, i);
  }

  /** How a row that is IMPORTED in the end came to clash: it was PENDING and clashing when some run started. */
  lemma {:induction false} ImportedClashStarts(c: Config, plan: seq<FileRow>, folders: seq<FolderRow>,
                                               attempts: seq<Attempt>, i: nat) returns (k: nat)
    requires NewJob(plan, folders) && HistoryFits(ReadableFolders, c, plan, folders, attempts) && i < |plan|
    requires RowClashes(c.runId, After(c, Created(plan, folders), attempts), i)
    requires After(c, Created(plan, folders), attempts).db.files[i].status == Imported
    ensures k < |attempts| && PendingClash(c.runId, After(c, Created(plan, folders), attempts[..k]))
    decreases |attempts|
  {
    hide RowClashes, SafeDisk, AttemptFits, Survivor, HistoryFits;
    assert attempts != [];
    k := |attempts| - 1;
    var init, last := attempts[..k], attempts[k];
    assert attempts == init + [last];
    NextRunFits(ReadableFolders, c, plan, folders, init, last);
    HistorySafe(ReadableFolders, c, plan, folders, init);
    var d := After(c, Created(plan, folders), init);
    RunKeepsClashes(RunConfig(c, k), plan, d, last, i);
    ClashingStatus(c.runId, d, i);
    if d.db.files[i].status == Imported {
      k := ImportedClashStarts(c, plan, folders, init, i);
      assert init[..k] == attempts[..k];
    }
  }

  lemma ClashingStatus(runId: string, d: Durable, i: nat)
    requires RowClashes(runId, d, i)
    ensures i < |d.db.files| && (d.db.files[i].status == Pending || d.db.files[i].status == Imported)
  {
  }

  /** And a clash that some run starts with stays to the end. */
  lemma {:induction false} ClashStays(c: Config, plan: seq<FileRow>, folders: seq<FolderRow>, attempts: seq<Attempt>,
                                      k: nat, i: nat)
    requires NewJob(plan, folders) && HistoryFits(ReadableFolders, c, plan, folders, attempts) && k <= |attempts|
    requires i < |plan| && RowClashes(c.runId, After(c, Created(plan, folders), attempts[..k]), i)
    ensures RowClashes(c.runId, After(c, Created(plan, folders), attempts), i)
    decreases |attempts|
  {
    hide RowClashes, SafeDisk, AttemptFits, Survivor, HistoryFits, NewJob;
    if k == |attempts| {
      assert attempts[..k] == attempts;
    } else {
      var n := |attempts| - 1;
      var init, last := attempts[..n], attempts[n];
      assert attempts == init + [last] && init[..k] == attempts[..k];
      NextRunFits(ReadableFolders, c, plan, folders, init, last);
      ClashStays(c, plan, folders, init, k, i);
      HistorySafe(ReadableFolders, c, plan, folders, init);
      RunKeepsClashes(RunConfig(c, n), plan, After(c, Created(plan, folders), init), last, i);
    }
  }

  /** None of the runs finds a clash of a pending row when it starts. */
  ghost predicate NoClashAtStart(c: Config, plan: seq<FileRow>, folders: seq<FolderRow>, attempts: seq<Attempt>) {
    forall k :: 0 <= k <= |attempts| ==> !PendingClash(c.runId, After(c, Created(plan, folders), attempts[..k]))
  }

  /** When no row is pending any more, one has another digest than its message exactly if some run started
      with such a row still pending. */
  lemma {:induction false} ClashesOnlyByCuts(c: Config, plan: seq<FileRow>, folders: seq<FolderRow>,
                                             attempts: seq<Attempt>)
    requires NewJob(plan, folders) && HistoryFits(ReadableFolders, c, plan, folders, attempts)
    ensures var d := After(c, Created(plan, folders), attempts);
      (forall i :: 0 <= i < |d.db.files| ==> d.db.files[i].status != Pending)
        ==> (ImportedClash(c.runId, d) <==> !NoClashAtStart(c, plan, folders, attempts))
  {
    var d := After(c, Created(plan, folders), attempts);
    hide Clashes, HistoryFits, NewJob, After;
    HistorySafe(ReadableFolders, c, plan, folders, attempts);
    assert |d.db.files| == |plan|;
    hide SafeDisk;
    if ImportedClash(c.runId, d) {
      var i: nat :| RowClashes(c.runId, d, i) && d.db.files[i].status == Imported;
      ClashingStatus(c.runId, d, i);
      var k := ImportedClashStarts(c, plan, folders, attempts, i);
    }
    if !NoClashAtStart(c, plan, folders, attempts) {
      var k :| 0 <= k <= |attempts| && PendingClash(c.runId, After(c, Created(plan, folders), attempts[..k]));
      var before := After(c, Created(plan, folders), attempts[..k]);
      var i: nat :| RowClashes(c.runId, before, i) && before.db.files[i].status == Pending;
      InPlan(c, plan, folders, attempts, k, i);
      ClashStays(c, plan, folders, attempts, k, i);
      ClashingStatus(c.runId, d, i);
    }
  }

  lemma {:induction false} InPlan(c: Config, plan: seq<FileRow>, folders: seq<FolderRow>, attempts: seq<Attempt>,
                                  k: nat, i: nat)
    requires NewJob(plan, folders) && k <= |attempts|
    requires RowClashes(c.runId, After(c, Created(plan, folders), attempts[..k]), i)
    ensures i < |plan|
  {
    UnreliableFits(c, plan, folders, attempts[..k]);
    HistorySafe(Unreliable, c, plan, folders, attempts[..k]);
  }

  /** A source that never changes makes none. */
  lemma {:induction false} StableNeverClashes(digest: string -> string, c: Config, plan: seq<FileRow>,
                                              folders: seq<FolderRow>, attempts: seq<Attempt>)
    requires NewJob(plan, folders) && HistoryFits(StableSource(digest), c, plan, folders, attempts)
    ensures NoClashAtStart(c, plan, folders, attempts) && HistoryFits(ReadableFolders, c, plan, folders, attempts)
  {
    hide PendingClash, After, NewJob;
    assert HistoryFits(ReadableFolders, c, plan, folders, attempts);
    forall k | 0 <= k <= |attempts| ensures !PendingClash(c.runId, After(c, Created(plan, folders), attempts[..k])) {
      var early := attempts[..k];
      assert forall j :: 0 <= j < k ==> early[..j] == attempts[..j] && early[j] == attempts[j];
      HistorySafe(StableSource(digest), c, plan, folders, early);
      StableDiskAgrees(digest, c.runId, plan, After(c, Created(plan, folders), early));
    }
  }

  lemma StableDiskAgrees(digest: string -> string, runId: string, plan: seq<FileRow>, d: Durable)
    requires SafeDisk(NoSurplus(StableSource(digest)), runId, plan, d)
    ensures !PendingClash(runId, d)
  {
    forall i: nat ensures !RowClashes(runId, d, i) {
      if i < |d.db.files| {
        var row := d.db.files[i];
        assert RowSafe(NoSurplus(StableSource(digest)), runId, d.pst, row);
        forall m | m in HitsIn(d.pst, row.target, runId, row.path) ensures !ShaDiffers(row, m) {
          HitsAreTheMatches(Contents(d.pst, row.target), runId, row.path, m);
        }
      }
    }
  }
}
