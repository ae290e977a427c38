/** Jobs: runs cut at any step and resumed. */
module History {
  import opened Wrappers
  import opened Store
  import opened ImportProtocol
  import opened ProtocolSafety
  import opened RunSafety

  /** What survives a crash: the PST and the committed tables. */
  datatype Durable = Durable(pst: Pst, db: Tables)

  /** One run: the answers it gets, and the step it is cut at, if it is cut. */
  datatype Attempt = Attempt(env: nat -> Answers, lastCommitOk: bool, cut: Option<nat>)

  function Attempted(c: Config, d: Durable, a: Attempt): (Run, Ending) {
    Execute(c, d.pst, d.db, a.env, a.lastCommitOk)
  }

  function Survivor(c: Config, d: Durable, a: Attempt): Durable {
    var r := Attempted(c, d, a).0;
    match a.cut
    case Some(k) => if k < |r.seen| then Durable(r.seen[k].pst, r.seen[k].committed) else Durable(r.pst, r.committed)
    case None => Durable(r.pst, r.committed)
  }

  /** The first run of a job starts it, every later one resumes it. */
  function RunConfig(c: Config, earlier: nat): Config {
    c.(resume := earlier > 0)
  }

  function After(c: Config, d: Durable, attempts: seq<Attempt>): Durable
    decreases |attempts|
  {
    if attempts == [] then d
    else
      var n := |attempts| - 1;
      Survivor(RunConfig(c, n), After(c, d, attempts[..n]), attempts[n])
  }

  lemma {:induction false} AfterNext(c: Config, d: Durable, attempts: seq<Attempt>, next: Attempt)
    ensures After(c, d, attempts + [next]) == Survivor(RunConfig(c, |attempts|), After(c, d, attempts), next)
  {
    assert (attempts + [next])[..|attempts|] == attempts;
  }

  /** A job as create_new leaves it: every row pending, nothing hashed, no folder opened, and no PST yet. */
  ghost predicate NewJob(plan: seq<FileRow>, folders: seq<FolderRow>) {
    && DistinctPaths(plan)
    && (forall i :: 0 <= i < |plan| ==> plan[i].status == Pending && plan[i].sha == "")
    && (forall i :: 0 <= i < |folders| ==> folders[i].entryId == None)
  }

  function Created(plan: seq<FileRow>, folders: seq<FolderRow>): Durable {
    Durable(map[], Tables(plan, folders))
  }

  ghost predicate SafeDisk(src: Source, runId: string, plan: seq<FileRow>, d: Durable) {
    && DistinctPaths(plan)
    && TablesSafe(src, runId, plan, d.pst, d.db)
    && OnlyOurs(src, runId, plan, d.pst)
  }

  /** A first run needs an empty PST; a resumed run needs nothing. */
  ghost predicate Startable(c: Config, d: Durable) {
    !c.resume ==> d.pst == map[]
  }

  function NoSurplus(trust: Trust): Source {
    Source(trust, path => 0, None)
  }

  /** If a run is followed, it is from this disk. */
  ghost predicate StartsFrom(src: Source, runId: string, d: Durable) {
    forall j :: 0 <= j < |d.db.files| && d.db.files[j].status == Pending ==>
      ClashKnown(src, runId, d.pst, d.db.files[j])
  }

  lemma StartIsSafe(src: Source, c: Config, plan: seq<FileRow>, d: Durable)
    requires SafeDisk(src, c.runId, plan, d) && Startable(c, d) && StartsFrom(src, c.runId, d)
    ensures AtLoop(src, c, plan, d.db.files, 0, Start(d.pst, d.db))
  {
    var r := Start(d.pst, d.db);
    NothingUnsaved(Current(r));
    assert RunSafe(src, c.runId, plan, r) by {
      assert SnapSafe(src, c.runId, plan, Current(r));
    }
    assert KnowsTheRest(src, c, plan, 0, r);
    hide SnapSafe, KnowsTheRest, Unsaved;
  }

  /** What is assumed of the answers a run gets. */
  ghost predicate AttemptFits(src: Source, c: Config, d: Durable, a: Attempt) {
    StartsFrom(src, c.runId, d) && EnvFits(src, c, d.pst, d.db.files, 0, a.env)
  }

  /** Everything a run keeps holds at its end, and nothing is left uncommitted. */
  lemma ExecuteSafe(src: Source, c: Config, plan: seq<FileRow>, d: Durable, a: Attempt)
    requires SafeDisk(src, c.runId, plan, d) && Startable(c, d) && AttemptFits(src, c, d, a)
    ensures var (b, ending) := Attempted(c, d, a);
      && RunEnded(src, c, plan, d.db.files, Start(d.pst, d.db), b, ending)
      && b.working == b.committed && !b.batchOpen
  {
    var start := Start(d.pst, d.db);
    StartIsSafe(src, c, plan, d);
    RowsSafe(src, c, plan, d.db.files, 0, start, a.env);
    var (r, ending) := Rows(c, start, d.db.files, 0, a.env);
    if !ending.DatabaseError? && r.batchOpen {
      CommitKeeps(src, c, plan, r);
      RollbackKeeps(src, c, plan, r);
    }
    hide RunSafe, LogMonotone, LossBounded, Rows, UpdatesAddUp;
  }

  /** Everything a run logged is safe and keeps what was committed when it started. */
  lemma LogIsSafe(src: Source, c: Config, plan: seq<FileRow>, d: Durable, a: Attempt, s: Snapshot)
    requires SafeDisk(src, c.runId, plan, d) && Startable(c, d) && AttemptFits(src, c, d, a)
    requires var r := Attempted(c, d, a).0; s in r.seen || s == Current(r)
    ensures SafeDisk(src, c.runId, plan, Durable(s.pst, s.committed)) && Settling(d.db, s.committed)
  {
    hide Attempted, TablesSafe, OnlyOurs, AttemptFits, LossBounded, UpdatesAddUp, Settling;
    ExecuteSafe(src, c, plan, d, a);
    var r := Attempted(c, d, a).0;
    assert r.seen[0] in r.seen && r.seen[0].committed == d.db;
    assert SnapSafe(src, c.runId, plan, s);
    if s in r.seen {
      var k :| 0 <= k < |r.seen| && r.seen[k] == s;
      if k == 0 { assert Settling(d.db, d.db) by { SettlingReflexive(d.db); } }
    }
  }

  lemma SettlingReflexive(t: Tables)
    ensures Settling(t, t)
  {
  }

  /** A cut leaves a logged state and an uncut run its last one; what was committed stays committed. */
  lemma SurvivorIsSafe(src: Source, c: Config, plan: seq<FileRow>, d: Durable, a: Attempt)
    requires SafeDisk(src, c.runId, plan, d) && Startable(c, d) && AttemptFits(src, c, d, a)
    ensures SafeDisk(src, c.runId, plan, Survivor(c, d, a))
    ensures Settling(d.db, Survivor(c, d, a).db)
  {
    hide Attempted, SafeDisk, AttemptFits, Settling;
    var r := Attempted(c, d, a).0;
    if a.cut.Some? && a.cut.value < |r.seen| {
      LogIsSafe(src, c, plan, d, a, r.seen[a.cut.value]);
    } else {
      LogIsSafe(src, c, plan, d, a, Current(r));
    }
  }

  ghost predicate HistoryFits(trust: Trust, c: Config, plan: seq<FileRow>, folders: seq<FolderRow>,
                              attempts: seq<Attempt>) {
    forall k :: 0 <= k < |attempts| ==>
      AttemptFits(NoSurplus(trust), RunConfig(c, k), After(c, Created(plan, folders), attempts[..k]), attempts[k])
  }

  lemma CreatedIsSafe(trust: Trust, runId: string, plan: seq<FileRow>, folders: seq<FolderRow>)
    requires NewJob(plan, folders)
    ensures SafeDisk(NoSurplus(trust), runId, plan, Created(plan, folders))
  {
  }

  lemma {:induction false} HistorySafe(trust: Trust, c: Config, plan: seq<FileRow>, folders: seq<FolderRow>,
                                       attempts: seq<Attempt>)
    requires NewJob(plan, folders) && HistoryFits(trust, c, plan, folders, attempts)
    ensures var d := After(c, Created(plan, folders), attempts);
      && SafeDisk(NoSurplus(trust), c.runId, plan, d) && Startable(RunConfig(c, |attempts|), d)
    decreases |attempts|
  {
    hide SafeDisk, AttemptFits, Survivor, HistoryFits, NewJob;
    if attempts == [] {
      CreatedIsSafe(trust, c.runId, plan, folders);
    } else {
      var n := |attempts| - 1;
      var init, last := attempts[..n], attempts[n];
      assert attempts == init + [last];
      NextRunFits(trust, c, plan, folders, init, last);
      HistorySafe(trust, c, plan, folders, init);
      SurvivorIsSafe(NoSurplus(trust), RunConfig(c, n), plan, After(c, Created(plan, folders), init), last);
    }
  }

  lemma SafeRow(trust: Trust, runId: string, plan: seq<FileRow>, d: Durable, i: nat)
    requires SafeDisk(NoSurplus(trust), runId, plan, d) && !trust.Unreliable? && i < |plan|
    ensures |HitsIn(d.pst, plan[i].target, runId, plan[i].path)| <= 1
    ensures d.db.files[i].status == Imported ==> |HitsIn(d.pst, plan[i].target, runId, plan[i].path)| == 1
  {
    hide HitsIn, OnlyOurs;
    assert RowSafe(NoSurplus(trust), runId, d.pst, d.db.files[i]);
  }

  /** However its runs are cut, a job never has two messages for a row in the row's target folder,
      has exactly one for each committed IMPORTED row, and has no message of anything but its rows. */
  lemma {:induction false} ExactlyOnce(trust: Trust, c: Config, plan: seq<FileRow>, folders: seq<FolderRow>,
                                       attempts: seq<Attempt>)
    requires NewJob(plan, folders) && HistoryFits(trust, c, plan, folders, attempts) && !trust.Unreliable?
    ensures var d := After(c, Created(plan, folders), attempts);
      && |d.db.files| == |plan|
      && (forall i :: 0 <= i < |plan| ==>
            && |HitsIn(d.pst, plan[i].target, c.runId, plan[i].path)| <= 1
            && (d.db.files[i].status == Imported ==> |HitsIn(d.pst, plan[i].target, c.runId, plan[i].path)| == 1))
      && (forall f, m :: f in d.pst && m in d.pst[f] ==> m.runId == c.runId && exists i :: OwnedBy(plan, f, m.path, i))
  {
    hide HitsIn, RowSafe;
    var d := After(c, Created(plan, folders), attempts);
    HistorySafe(trust, c, plan, folders, attempts);
    forall i | 0 <= i < |plan|
      ensures |HitsIn(d.pst, plan[i].target, c.runId, plan[i].path)| <= 1
      ensures d.db.files[i].status == Imported ==> |HitsIn(d.pst, plan[i].target, c.runId, plan[i].path)| == 1
    {
      SafeRow(trust, c.runId, plan, d, i);
    }
  }

  /** The stop for two matching messages is never reached. */
  lemma {:induction false} DuplicateStopUnreachable(trust: Trust, c: Config, plan: seq<FileRow>,
                                                    folders: seq<FolderRow>, attempts: seq<Attempt>, next: Attempt)
    requires NewJob(plan, folders) && HistoryFits(trust, c, plan, folders, attempts + [next]) && !trust.Unreliable?
    ensures var d := After(c, Created(plan, folders), attempts);
      Attempted(RunConfig(c, |attempts|), d, next).1 != WasFatal(ResumeIntegrityError)
  {
    NextRunFits(trust, c, plan, folders, attempts, next);
    HistorySafe(trust, c, plan, folders, attempts);
    var d := After(c, Created(plan, folders), attempts);
    hide SafeDisk, AttemptFits;
    ExecuteSafe(NoSurplus(trust), RunConfig(c, |attempts|), plan, d, next);
  }

  lemma {:induction false} NextRunFits(trust: Trust, c: Config, plan: seq<FileRow>, folders: seq<FolderRow>,
                                       attempts: seq<Attempt>, next: Attempt)
    requires HistoryFits(trust, c, plan, folders, attempts + [next])
    ensures HistoryFits(trust, c, plan, folders, attempts)
    ensures AttemptFits(NoSurplus(trust), RunConfig(c, |attempts|), After(c, Created(plan, folders), attempts), next)
  {
    hide AttemptFits, After;
    var all := attempts + [next];
    forall k | 0 <= k < |attempts|
      ensures AttemptFits(NoSurplus(trust), RunConfig(c, k), After(c, Created(plan, folders), attempts[..k]), attempts[k])
    {
      assert all[..k] == attempts[..k] && all[k] == attempts[k];
    }
    assert all[..|attempts|] == attempts && all[|attempts|] == next;
  }

  lemma UnreliableFits(c: Config, plan: seq<FileRow>, folders: seq<FolderRow>, attempts: seq<Attempt>)
    ensures HistoryFits(Unreliable, c, plan, folders, attempts)
  {
  }

  lemma SettlingTransitive(a: Tables, b: Tables, d: Tables)
    requires Settling(a, b) && Settling(b, d)
    ensures Settling(a, d)
  {
  }

  /** Whatever the environment does, a settled row that was ever committed is never changed again. */
  lemma {:induction false} SettledForever(c: Config, plan: seq<FileRow>, folders: seq<FolderRow>,
                                          attempts: seq<Attempt>, k: nat)
    requires NewJob(plan, folders) && k <= |attempts|
    ensures Settling(After(c, Created(plan, folders), attempts[..k]).db, After(c, Created(plan, folders), attempts).db)
    decreases |attempts|
  {
    var d0 := Created(plan, folders);
    if k == |attempts| {
      assert attempts[..k] == attempts;
      SettlingReflexive(After(c, d0, attempts).db);
    } else {
      var n := |attempts| - 1;
      var init := attempts[..n];
      assert init[..k] == attempts[..k];
      SettledForever(c, plan, folders, init, k);
      UnreliableFits(c, plan, folders, attempts);
      HistorySafe(Unreliable, c, plan, folders, init);
      hide SafeDisk, Settling, Survivor;
      SurvivorIsSafe(NoSurplus(Unreliable), RunConfig(c, n), plan, After(c, d0, init), attempts[n]);
      SettlingTransitive(After(c, d0, attempts[..k]).db, After(c, d0, init).db, After(c, d0, attempts).db);
    }
  }

  /** So the committed PENDING rows only become fewer. */
  lemma {:induction false} SettlingShrinksPending(a: seq<FileRow>, b: seq<FileRow>)
    requires |a| == |b|
    requires forall i :: 0 <= i < |a| && a[i].status != Pending ==> b[i] == a[i]
    ensures CountStatus(b, Pending) <= CountStatus(a, Pending)
  {
    if a != [] {
      SettlingShrinksPending(a[1..], b[1..]);
    }
  }

  lemma {:induction false} PendingNeverGrows(c: Config, plan: seq<FileRow>, folders: seq<FolderRow>,
                                             attempts: seq<Attempt>, k: nat)
    requires NewJob(plan, folders) && k <= |attempts|
    ensures CountStatus(After(c, Created(plan, folders), attempts).db.files, Pending)
         <= CountStatus(After(c, Created(plan, folders), attempts[..k]).db.files, Pending)
  {
    SettledForever(c, plan, folders, attempts, k);
    SettlingShrinksPending(After(c, Created(plan, folders), attempts[..k]).db.files,
                           After(c, Created(plan, folders), attempts).db.files);
  }

  /** At every step of every run, a crash would forget the outcome of at most a batch of rows. */
  lemma {:induction false} LossIsBounded(c: Config, plan: seq<FileRow>, folders: seq<FolderRow>,
                                         attempts: seq<Attempt>, next: Attempt, k: nat)
    requires NewJob(plan, folders)
    requires k < |Attempted(RunConfig(c, |attempts|), After(c, Created(plan, folders), attempts), next).0.seen|
    ensures var r := Attempted(RunConfig(c, |attempts|), After(c, Created(plan, folders), attempts), next).0;
      |Unsaved(r.seen[k])| <= if c.batchSize == 0 then 1 else c.batchSize
  {
    var c1 := RunConfig(c, |attempts|);
    var d := After(c, Created(plan, folders), attempts);
    UnreliableFits(c, plan, folders, attempts);
    HistorySafe(Unreliable, c, plan, folders, attempts);
    ExecuteSafe(NoSurplus(Unreliable), c1, plan, d, next);
    assert LossBounded(c1, Attempted(c1, d, next).0);
    hide Execute, Unsaved;
  }

  /** Every progress line of a run adds up, and a run that ends neither cut, cancelled nor fatal, nor
      with a database error, leaves no row pending. */
  lemma {:induction false} RunAccounts(c: Config, plan: seq<FileRow>, folders: seq<FolderRow>, attempts: seq<Attempt>,
                                       next: Attempt)
    requires NewJob(plan, folders)
    ensures var d := After(c, Created(plan, folders), attempts);
      var (r, ending) := Attempted(RunConfig(c, |attempts|), d, next);
      && (forall u :: u in r.updates ==> u.processed == Settled(d.db.files) + u.imported + u.fallback + u.failed)
      && (ending.Completed? ==> forall i :: 0 <= i < |r.committed.files| ==> r.committed.files[i].status != Pending)
  {
    var c1 := RunConfig(c, |attempts|);
    var d := After(c, Created(plan, folders), attempts);
    UnreliableFits(c, plan, folders, attempts);
    HistorySafe(Unreliable, c, plan, folders, attempts);
    ExecuteSafe(NoSurplus(Unreliable), c1, plan, d, next);
    assert UpdatesAddUp(Settled(d.db.files), Attempted(c1, d, next).0.updates);
    hide Execute, RunSafe, LogMonotone, LossBounded;
  }

  /** A fallback message saved but not recorded in the tables. */
  ghost predicate NoFallbackLost(runId: string, plan: seq<FileRow>, d: Durable) {
    |d.db.files| == |plan| && OrphanFree(runId, plan, d.pst, d.db.files)
  }

  /** A run that ends by itself loses no fallback message. */
  lemma {:induction false} UncutRunLosesNothing(c: Config, plan: seq<FileRow>, folders: seq<FolderRow>,
                                                attempts: seq<Attempt>, next: Attempt)
    requires NewJob(plan, folders) && NoFallbackLost(c.runId, plan, After(c, Created(plan, folders), attempts))
    ensures var (r, ending) := Attempted(RunConfig(c, |attempts|), After(c, Created(plan, folders), attempts), next);
      !ending.DatabaseError? ==> NoFallbackLost(c.runId, plan, Durable(r.pst, r.committed))
  {
    UnreliableFits(c, plan, folders, attempts);
    HistorySafe(Unreliable, c, plan, folders, attempts);
    hide SafeDisk, Kept, OrphanFree;
    ExecuteSafe(NoSurplus(Unreliable), RunConfig(c, |attempts|), plan, After(c, Created(plan, folders), attempts), next);
    hide Execute;
  }

  /** The messages a path has in the errors folder beyond the one its row accounts for. */
  ghost function Surplus(runId: string, plan: seq<FileRow>, d: Durable, path: string): int
    requires |d.db.files| == |plan|
  {
    |HitsIn(d.pst, CONVERSION_ERRORS, runId, path)|
      - if exists j :: 0 <= j < |plan| && plan[j].path == path && d.db.files[j].status.PreservedAsAttachment? then 1 else 0
  }

  ghost function WithSurplus(trust: Trust, runId: string, plan: seq<FileRow>, d: Durable): Source
    requires |d.db.files| == |plan|
  {
    Source(trust, path => Surplus(runId, plan, d, path), None)
  }

  lemma SurplusIsSafe(trust: Trust, runId: string, plan: seq<FileRow>, d: Durable)
    requires SafeDisk(NoSurplus(trust), runId, plan, d)
    ensures SafeDisk(WithSurplus(trust, runId, plan, d), runId, plan, d)
  {
    var src := WithSurplus(trust, runId, plan, d);
    forall i | 0 <= i < |plan| ensures RowSafe(src, runId, d.pst, d.db.files[i]) {
      assert RowSafe(NoSurplus(trust), runId, d.pst, d.db.files[i]);
    }
  }

  lemma LostInBoth(trust: Trust, runId: string, plan: seq<FileRow>, d: Durable, e: Durable)
    requires SafeDisk(NoSurplus(trust), runId, plan, d) && !NoFallbackLost(runId, plan, d)
    requires SafeDisk(WithSurplus(trust, runId, plan, d), runId, plan, e)
    ensures !NoFallbackLost(runId, plan, e)
  {
    hide HitsIn, OnlyOurs;
    var src := WithSurplus(trust, runId, plan, d);
    var j :| 0 <= j < |plan| && plan[j].target != CONVERSION_ERRORS
      && |HitsIn(d.pst, CONVERSION_ERRORS, runId, plan[j].path)|
        != if d.db.files[j].status.PreservedAsAttachment? then 1 else 0;
    assert RowSafe(NoSurplus(trust), runId, d.pst, d.db.files[j]);
    assert Surplus(runId, plan, d, plan[j].path) >= 1;
    assert RowSafe(src, runId, e.pst, e.db.files[j]);
  }

  /** Once a fallback message is lost it stays lost: no later run repairs it, however it ends or is cut. */
  lemma {:induction false} LostStaysLost(c: Config, plan: seq<FileRow>, folders: seq<FolderRow>,
                                         attempts: seq<Attempt>, next: Attempt)
    requires NewJob(plan, folders) && !NoFallbackLost(c.runId, plan, After(c, Created(plan, folders), attempts))
    ensures !NoFallbackLost(c.runId, plan, After(c, Created(plan, folders), attempts + [next]))
  {
    var c1 := RunConfig(c, |attempts|);
    var d := After(c, Created(plan, folders), attempts);
    assert (attempts + [next])[..|attempts|] == attempts;
    UnreliableFits(c, plan, folders, attempts);
    HistorySafe(Unreliable, c, plan, folders, attempts);
    SurplusIsSafe(Unreliable, c.runId, plan, d);
    hide SafeDisk, Survivor, NoFallbackLost;
    SurvivorIsSafe(WithSurplus(Unreliable, c.runId, plan, d), c1, plan, d, next);
    LostInBoth(Unreliable, c.runId, plan, d, Survivor(c1, d, next));
  }
}
