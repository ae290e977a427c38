/** Every run told from the disk it starts on and the answers it gets. */
module RunOutcomes {
  import opened Wrappers
  import opened Store
  import opened ImportProtocol
  import opened ProtocolSafety
  import opened RunSafety
  import opened History
  import opened RowTrace
  import opened RowOutcomes

  // ---- What is told ----

  /** The folders known when the run comes to row k. */
  function FoldersBefore(c: Config, d: Durable, k: nat, env: nat -> Answers): Folders
    requires k <= |d.db.files|
  {
    if k == 0 then Folders({}, {})
    else
      var f, row, a := FoldersBefore(c, d, k - 1, env), d.db.files[k - 1], env(k - 1);
      if row.status != Pending then f else FoldersAfter(c, f, row, Matches(c, d.pst, f, row, a), a)
  }

  /** The messages of row k on the disk that the run gets to see. */
  function MatchesAt(c: Config, d: Durable, k: nat, env: nat -> Answers): seq<TrackedMessage>
    requires k < |d.db.files|
  {
    Matches(c, d.pst, FoldersBefore(c, d, k, env), d.db.files[k], env(k))
  }

  function ToldAt(c: Config, d: Durable, k: nat, env: nat -> Answers): FileRow
    requires k < |d.db.files|
  {
    Told(d.db.files[k], MatchesAt(c, d, k, env), env(k))
  }

  /** The mail of the rows before k. */
  function Mail(c: Config, d: Durable, k: nat, env: nat -> Answers): seq<Delivery>
    requires k <= |d.db.files|
  {
    if k == 0 then []
    else
      Mail(c, d, k - 1, env)
      + (if d.db.files[k - 1].status != Pending then []
         else MailOf(c, d.db.files[k - 1], MatchesAt(c, d, k - 1, env), env(k - 1)))
  }

  /** How many rows before k this run brings to a status. */
  function Tally(c: Config, d: Durable, k: nat, env: nat -> Answers, status: Status): nat
    requires k <= |d.db.files|
  {
    if k == 0 then 0
    else
      Tally(c, d, k - 1, env, status)
      + One(d.db.files[k - 1].status == Pending && ToldAt(c, d, k - 1, env).status == status)
  }

  function PendingBefore(files: seq<FileRow>, k: nat): nat
    requires k <= |files|
  {
    if k == 0 then 0 else PendingBefore(files, k - 1) + One(files[k - 1].status == Pending)
  }

  /** The progress line behind the first k rows. */
  function Line(c: Config, d: Durable, k: nat, env: nat -> Answers): Progress
    requires k <= |d.db.files|
  {
    Progress(Settled(d.db.files) + PendingBefore(d.db.files, k), |d.db.files|,
             Tally(c, d, k, env, Imported), Tally(c, d, k, env, PreservedAsAttachment),
             Tally(c, d, k, env, FailedSourceRead) + Tally(c, d, k, env, FailedMapi))
  }

  function Lines(c: Config, d: Durable, k: nat, env: nat -> Answers): seq<Progress>
    requires k <= |d.db.files|
  {
    if k == 0 then []
    else Lines(c, d, k - 1, env) + if d.db.files[k - 1].status != Pending then [] else [Line(c, d, k, env)]
  }

  /** The failures counted since the last message saved, when the run comes to row k. */
  function CountBefore(c: Config, d: Durable, k: nat, env: nat -> Answers): int
    requires k <= |d.db.files|
  {
    if k == 0 then 0
    else if d.db.files[k - 1].status != Pending then CountBefore(c, d, k - 1, env)
    else CountAfter(MatchesAt(c, d, k - 1, env), env(k - 1), CountBefore(c, d, k - 1, env))
  }

  function StopAt(c: Config, d: Durable, k: nat, env: nat -> Answers): Option<ExitCode>
    requires k < |d.db.files|
  {
    StopOf(c, FoldersBefore(c, d, k, env), d.db.files[k], MatchesAt(c, d, k, env), env(k), CountBefore(c, d, k, env))
  }

  /** Whether a batch is open behind the first k rows: a batch is as many rows as configured, or one. */
  predicate InBatch(c: Config, d: Durable, k: nat)
    requires k <= |d.db.files|
  {
    PendingBefore(d.db.files, k) % BatchBound(c) != 0
  }

  /** How the row loop ends, and the row it ends at. */
  datatype End = End(ending: Ending, row: nat)

  /** From row k on, the first thing that ends the loop: a cancellation, a batch that cannot begin, a row that
      stops the run, a full batch that cannot be committed, or the last row. */
  function EndFrom(c: Config, d: Durable, k: nat, env: nat -> Answers): (e: End)
    requires k <= |d.db.files|
    ensures k <= e.row <= |d.db.files| && (e.ending.Completed? ==> e.row == |d.db.files|)
    decreases |d.db.files| - k
  {
    if k == |d.db.files| then End(Completed, k)
    else if d.db.files[k].status != Pending then EndFrom(c, d, k + 1, env)
    else if env(k).cancelled then End(WasCancelled, k)
    else if !InBatch(c, d, k) && !env(k).beginOk then End(DatabaseError, k)
    else if StopAt(c, d, k, env).Some? then End(WasFatal(StopAt(c, d, k, env).value), k)
    else if !InBatch(c, d, k + 1) && !env(k).commitOk then End(DatabaseError, k)
    else EndFrom(c, d, k + 1, env)
  }

  /** A batch that is open at the end is committed once more. */
  function EndingOf(c: Config, d: Durable, a: Attempt): Ending {
    var e := EndFrom(c, d, 0, a.env);
    var stillOpen := e.ending.WasFatal? || InBatch(c, d, e.row);
    if stillOpen && !a.lastCommitOk then DatabaseError else e.ending
  }

  // ---- What a run is held against ----

  /** A settled row is as it was; a pending one went through its stages. */
  ghost predicate RecordsTold(c: Config, d: Durable, env: nat -> Answers, files: seq<FileRow>) {
    && |files| == |d.db.files|
    && forall j :: 0 <= j < |files| ==> RecordTold(c, d, env, j, files[j])
  }

  ghost predicate RecordTold(c: Config, d: Durable, env: nat -> Answers, j: nat, x: FileRow)
    requires j < |d.db.files|
  {
    if d.db.files[j].status != Pending then x == d.db.files[j]
    else IsStage(d.db.files[j], MatchesAt(c, d, j, env), env(j), x)
  }

  /** The PST holds what it held and the mail of the first rows, up to some row. */
  ghost predicate MailTold(c: Config, d: Durable, env: nat -> Answers, pst: Pst) {
    exists k :: 0 <= k <= |d.db.files| && Holds(d.pst, Mail(c, d, k, env), pst)
  }

  ghost predicate StateTold(c: Config, d: Durable, env: nat -> Answers, s: Snapshot) {
    RecordsTold(c, d, env, s.working.files) && RecordsTold(c, d, env, s.committed.files) && MailTold(c, d, env, s.pst)
  }

  ghost predicate LogTold(c: Config, d: Durable, env: nat -> Answers, r: Run) {
    StateTold(c, d, env, Current(r)) && forall x :: 0 <= x < |r.seen| ==> StateTold(c, d, env, r.seen[x])
  }

  ghost predicate RunTold(c: Config, d: Durable, env: nat -> Answers, r: Run) {
    LogTold(c, d, env, r) && r.updates <= Lines(c, d, |d.db.files|, env)
  }

  // ---- Along a run ----

  /** The run has come to row k, as told. */
  ghost predicate Telling(c: Config, d: Durable, k: nat, r: Run, env: nat -> Answers) {
    && k <= |d.db.files| == |r.working.files| && LogTold(c, d, env, r)
    && Knows(FoldersBefore(c, d, k, env), r) && Holds(d.pst, Mail(c, d, k, env), r.pst)
    && r.imported == Tally(c, d, k, env, Imported) && r.preserved == Tally(c, d, k, env, PreservedAsAttachment)
    && r.failedRead == Tally(c, d, k, env, FailedSourceRead) && r.failedMapi == Tally(c, d, k, env, FailedMapi)
    && r.processed == Settled(d.db.files) + PendingBefore(d.db.files, k) && r.updates == Lines(c, d, k, env)
    && (forall j :: 0 <= j < k && d.db.files[j].status == Pending ==> r.working.files[j] == ToldAt(c, d, j, env))
    && (forall j :: k <= j < |d.db.files| ==> r.working.files[j] == d.db.files[j])
    && (forall j :: k <= j < |d.db.files| ==> SameHits(c, d, j, r.pst))
  }

  /** The breaker, the batch and the table of folders stand as told. */
  ghost predicate Paced(c: Config, d: Durable, k: nat, r: Run, env: nat -> Answers) {
    && k <= |d.db.files| && r.systemic == CountBefore(c, d, k, env) && r.batchOpen == InBatch(c, d, k)
    && (r.batchOpen ==> r.batchRows == PendingBefore(d.db.files, k) % BatchBound(c))
    && Recording(d.db.folders, r)
  }

  lemma NextInBatch(c: Config, d: Durable, k: nat, rows: nat)
    requires k < |d.db.files| && d.db.files[k].status == Pending && rows == PendingBefore(d.db.files, k) % BatchBound(c)
    ensures InBatch(c, d, k + 1) <==> rows + 1 < c.batchSize
    ensures InBatch(c, d, k + 1) ==> PendingBefore(d.db.files, k + 1) % BatchBound(c) == rows + 1
  {
    OneMore(PendingBefore(d.db.files, k), BatchBound(c));
  }

  lemma OneMore(n: nat, size: nat)
    requires size > 0
    ensures (n + 1) % size == if n % size + 1 == size then 0 else n % size + 1
  {
    var q := n / size;
    assert n == q * size + n % size;
    if n % size + 1 == size {
      assert n + 1 == (q + 1) * size;
      RemainderIs(n + 1, q + 1, 0, size);
    } else {
      RemainderIs(n + 1, q, n % size + 1, size);
    }
  }

  lemma RemainderIs(n: nat, q: nat, rest: nat, size: nat)
    requires size > 0 && n == q * size + rest && rest < size
    ensures n % size == rest
  {
    var k := n / size;
    assert n == k * size + n % size;
    if k < q {
      LessTimes(k, q, size);
    } else if k > q {
      LessTimes(q, k, size);
    }
  }

  lemma LessTimes(a: nat, b: nat, size: nat)
    requires a < b
    ensures (a + 1) * size <= b * size
  {
    assert b * size == (a + 1) * size + (b - a - 1) * size;
  }

  lemma RowIsPaced(c: Config, plan: seq<FileRow>, d: Durable, k: nat, r: Run, env: nat -> Answers)
    requires AtLoop(NoSurplus(Unreliable), c, plan, d.db.files, k, r) && SamePlan(plan, d.db.files)
    requires k < |d.db.files| && d.db.files[k].status == Pending && Telling(c, d, k, r, env) && Paced(c, d, k, r, env)
    ensures var (b, fatal) := ProcessRow(c, BeginBatch(r), k, d.db.files[k], env(k));
      var e := Counted(b);
      && fatal == StopAt(c, d, k, env) && b.batchOpen && (e.batchRows < c.batchSize <==> InBatch(c, d, k + 1))
      && (fatal.None? && InBatch(c, d, k + 1) ==> Paced(c, d, k + 1, Report(e, |d.db.files|), env))
      && (fatal.None? && !InBatch(c, d, k + 1) ==> Paced(c, d, k + 1, Report(Commit(e), |d.db.files|), env))
  {
    hide AtLoop, ProcessRow, RowBehind, StopOf, CountAfter, Matches, FoldersBefore, PendingBefore, Recorded;
    var r0 := BeginBatch(r);
    AnyRowInLoop(NoSurplus(Unreliable), c, plan, d.db.files, k, r, env(k));
    InLoop(NoSurplus(Unreliable), c, plan, d.db.files, k, r);
    FreshAt(c, plan, d.db.files, k, r0);
    TellingBegins(c, d, k, r, env);
    SameMatches(c, d, k, r0, env);
    AtRowK(c, d, k, r0, env);
    hide Telling, RowEffect, FreshFor;
    RowStops(c, k, env(k), r0, FoldersBefore(c, d, k, env));
    EffectOnBatch(c, plan, k, r0, ProcessRow(c, r0, k, d.db.files[k], env(k)).0);
    RowRecords(d.db.folders, c, r0, k, d.db.files[k], env(k));
    NextInBatch(c, d, k, r0.batchRows);
  }

  lemma EffectOnBatch(c: Config, plan: seq<FileRow>, k: nat, a: Run, b: Run)
    requires k < |plan| && RowEffect(c.runId, plan, k, a, b)
    ensures b.batchOpen == a.batchOpen && b.batchRows == a.batchRows
  {
  }

  /** The messages of a row in its target folder are those on the disk when the run started. */
  ghost predicate SameHits(c: Config, d: Durable, j: nat, pst: Pst)
    requires j < |d.db.files|
  {
    var row := d.db.files[j];
    HitsIn(pst, row.target, c.runId, row.path) == HitsIn(d.pst, row.target, c.runId, row.path)
  }

  lemma {:induction false} IntoConcat(a: seq<Delivery>, b: seq<Delivery>, folder: string)
    ensures Into(a + b, folder) == Into(a, folder) + Into(b, folder)
  {
    if a == [] {
      assert a + b == b;
    } else {
      assert (a + b)[1..] == a[1..] + b;
      IntoConcat(a[1..], b, folder);
    }
  }

  lemma HoldsMore(p: Pst, first: seq<Delivery>, q: Pst, second: seq<Delivery>, s: Pst)
    requires Holds(p, first, q) && Holds(q, second, s)
    ensures Holds(p, first + second, s)
  {
    hide Contents, Into;
    forall f ensures Contents(s, f) == Contents(p, f) + Into(first + second, f) {
      IntoConcat(first, second, f);
    }
  }

  lemma {:induction false} LinesGrow(c: Config, d: Durable, k: nat, n: nat, env: nat -> Answers)
    requires k <= n <= |d.db.files|
    ensures Lines(c, d, k, env) <= Lines(c, d, n, env)
  {
    hide Line;
    if k < n { LinesGrow(c, d, k, n - 1, env); }
  }

  lemma TellingIsTold(c: Config, d: Durable, k: nat, r: Run, env: nat -> Answers)
    requires Telling(c, d, k, r, env)
    ensures RunTold(c, d, env, r)
  {
    hide LogTold, Lines;
    LinesGrow(c, d, k, |d.db.files|, env);
  }

  /** A state of the row that is being processed. */
  lemma StageIsTold(c: Config, d: Durable, k: nat, r: Run, env: nat -> Answers, s: Snapshot)
    requires Telling(c, d, k, r, env) && k < |d.db.files| && d.db.files[k].status == Pending
    requires InStages(c, Current(r), k, MatchesAt(c, d, k, env), env(k), s)
    ensures StateTold(c, d, env, s)
  {
    hide IsStage, Holds, MatchesAt, MailOf, Lines, Tally;
    var row, matches := d.db.files[k], MatchesAt(c, d, k, env);
    assert StateTold(c, d, env, Current(r));
    forall j | 0 <= j < |d.db.files| ensures RecordTold(c, d, env, j, s.working.files[j]) {
      assert RecordTold(c, d, env, j, r.working.files[j]);
    }
    var before := Mail(c, d, k, env);
    if Holds(r.pst, [], s.pst) {
      HoldsMore(d.pst, before, r.pst, [], s.pst);
      assert before + [] == before;
    } else {
      HoldsMore(d.pst, before, r.pst, MailOf(c, row, matches, env(k)), s.pst);
      assert Mail(c, d, k + 1, env) == before + MailOf(c, row, matches, env(k));
    }
  }

  lemma {:induction false} SameMatches(c: Config, d: Durable, k: nat, r: Run, env: nat -> Answers)
    requires Telling(c, d, k, r, env) && k < |d.db.files|
    ensures Matches(c, r.pst, FoldersBefore(c, d, k, env), d.db.files[k], env(k)) == MatchesAt(c, d, k, env)
  {
    hide LogTold, Lines, Tally, Mail;
    assert SameHits(c, d, k, r.pst);
  }

  lemma TellingBegins(c: Config, d: Durable, k: nat, r: Run, env: nat -> Answers)
    requires Telling(c, d, k, r, env)
    ensures Telling(c, d, k, BeginBatch(r), env)
  {
    hide StateTold, Lines, Tally, Mail, Holds;
    assert Current(BeginBatch(r)) == Current(r);
  }

  /** What is known once row k has been processed. */
  ghost predicate RowBehindTold(c: Config, d: Durable, k: nat, r: Run, b: Run, env: nat -> Answers, fatal: Option<ExitCode>) {
    && LogTold(c, d, env, b) && b.updates == r.updates
    && (fatal.None? ==> Telling(c, d, k + 1, Report(Counted(b), |d.db.files|), env))
  }

  lemma RowIsTold(c: Config, plan: seq<FileRow>, d: Durable, k: nat, r: Run, env: nat -> Answers)
    requires AtLoop(NoSurplus(Unreliable), c, plan, d.db.files, k, r) && SamePlan(plan, d.db.files)
    requires k < |d.db.files| && d.db.files[k].status == Pending && Telling(c, d, k, r, env)
    ensures var (b, fatal) := ProcessRow(c, BeginBatch(r), k, d.db.files[k], env(k));
      && RowBehindTold(c, d, k, r, b, env, fatal)
      && (fatal.None? ==> RowBehind(NoSurplus(Unreliable), c, plan, d.db.files, k, Counted(b)))
  {
    hide AtLoop, ProcessRow, RowEffect, RowBehind, RowBehindTold, RowDone;
    var r0 := BeginBatch(r);
    var rows := d.db.files;
    AnyRowInLoop(NoSurplus(Unreliable), c, plan, rows, k, r, env(k));
    InLoop(NoSurplus(Unreliable), c, plan, rows, k, r);
    FreshAt(c, plan, rows, k, r0);
    TellingBegins(c, d, k, r, env);
    SameMatches(c, d, k, r0, env);
    hide Telling;
    AtRowK(c, d, k, r0, env);
    RowTold(c, k, env(k), r0, FoldersBefore(c, d, k, env));
    var (b, fatal) := ProcessRow(c, r0, k, rows[k], env(k));
    DoneIsTold(c, plan, d, k, r0, b, env, fatal);
    hide *;
    SameUpdates(c, d, k, r, b, env, fatal);
  }

  lemma SameUpdates(c: Config, d: Durable, k: nat, r: Run, b: Run, env: nat -> Answers, fatal: Option<ExitCode>)
    requires RowBehindTold(c, d, k, BeginBatch(r), b, env, fatal)
    ensures RowBehindTold(c, d, k, r, b, env, fatal)
  {
    hide LogTold, Telling;
  }

  lemma {:induction false} AtRowK(c: Config, d: Durable, k: nat, r: Run, env: nat -> Answers)
    requires Telling(c, d, k, r, env) && k < |d.db.files|
    ensures k < |r.working.files| && r.working.files[k] == d.db.files[k] && Knows(FoldersBefore(c, d, k, env), r)
  {
    hide LogTold, Lines, Tally, Mail, Holds;
  }

  lemma LogIsTold(c: Config, d: Durable, k: nat, r: Run, b: Run, env: nat -> Answers, fatal: Option<ExitCode>)
    requires Telling(c, d, k, r, env) && k < |d.db.files| && d.db.files[k].status == Pending && r.seen <= b.seen
    requires RowDone(c, Current(r), k, MatchesAt(c, d, k, env), env(k), |r.seen|, r, b, fatal)
    ensures LogTold(c, d, env, b)
  {
    hide InStages, StateTold, Lines, Tally, Mail, Holds, MatchesAt;
    var matches := MatchesAt(c, d, k, env);
    assert InStages(c, Current(r), k, matches, env(k), Current(b));
    assert LogTold(c, d, env, r);
    StageIsTold(c, d, k, r, env, Current(b));
    forall x | 0 <= x < |b.seen| ensures StateTold(c, d, env, b.seen[x]) {
      if x >= |r.seen| { StageIsTold(c, d, k, r, env, b.seen[x]); }
    }
  }

  lemma {:induction false} DoneIsTold(c: Config, plan: seq<FileRow>, d: Durable, k: nat, r: Run, b: Run, env: nat -> Answers, fatal: Option<ExitCode>)
    requires Telling(c, d, k, r, env) && k < |d.db.files| == |plan| && d.db.files[k].status == Pending
    requires SamePlan(plan, d.db.files) && DistinctPaths(plan) && RowEffect(c.runId, plan, k, r, b)
    requires RowDone(c, Current(r), k, MatchesAt(c, d, k, env), env(k), |r.seen|, r, b, fatal)
    requires fatal.None? ==> Knows(FoldersAfter(c, FoldersBefore(c, d, k, env), d.db.files[k], MatchesAt(c, d, k, env), env(k)), b)
    ensures RowBehindTold(c, d, k, r, b, env, fatal)
  {
    LogIsTold(c, d, k, r, b, env, fatal);
    if fatal.None? {
      NextIsTold(c, plan, d, k, r, b, env);
    }
  }

  lemma {:induction false} NextIsTold(c: Config, plan: seq<FileRow>, d: Durable, k: nat, r: Run, b: Run, env: nat -> Answers)
    requires Telling(c, d, k, r, env) && k < |d.db.files| == |plan| && d.db.files[k].status == Pending
    requires SamePlan(plan, d.db.files) && DistinctPaths(plan) && RowEffect(c.runId, plan, k, r, b) && LogTold(c, d, env, b)
    requires RowDone(c, Current(r), k, MatchesAt(c, d, k, env), env(k), |r.seen|, r, b, None)
    requires Knows(FoldersAfter(c, FoldersBefore(c, d, k, env), d.db.files[k], MatchesAt(c, d, k, env), env(k)), b)
    ensures Telling(c, d, k + 1, Report(Counted(b), |d.db.files|), env)
  {
    hide StateTold, Holds, FoldersAfter, Matches, Told, MailOf, HitsIn, LogInStages;
    var m := Report(Counted(b), |d.db.files|);
    var matches := MatchesAt(c, d, k, env);
    assert Current(m) == Current(b);
    assert r.working.files[k] == d.db.files[k];
    HoldsMore(d.pst, Mail(c, d, k, env), r.pst, MailOf(c, d.db.files[k], matches, env(k)), b.pst);
    assert b.working.files[k] == ToldAt(c, d, k, env);
    forall j | k + 1 <= j < |d.db.files| ensures SameHits(c, d, j, m.pst) {
      assert d.db.files[j].path == plan[j].path != plan[k].path;
      assert SameHits(c, d, j, r.pst);
    }
  }

  lemma SkipIsTold(c: Config, d: Durable, k: nat, r: Run, env: nat -> Answers)
    requires Telling(c, d, k, r, env) && k < |d.db.files| && d.db.files[k].status != Pending
    ensures Telling(c, d, k + 1, r, env)
  {
    hide StateTold, Holds, MatchesAt, SameHits;
    assert Mail(c, d, k, env) + [] == Mail(c, d, k, env);
    assert Lines(c, d, k, env) + [] == Lines(c, d, k, env);
  }

  /** Publishing the working tables, or returning to the committed ones. */
  lemma PublishedIsTold(c: Config, d: Durable, r: Run, env: nat -> Answers)
    requires LogTold(c, d, env, r)
    ensures LogTold(c, d, env, Commit(r)) && LogTold(c, d, env, Rollback(r))
  {
    hide RecordsTold, MailTold;
    assert StateTold(c, d, env, Current(r));
  }

  lemma CommittedIsTold(c: Config, d: Durable, k: nat, b: Run, env: nat -> Answers, total: nat)
    requires Telling(c, d, k, Report(b, total), env)
    ensures Telling(c, d, k, Report(Commit(b), total), env)
  {
    assert LogTold(c, d, env, Report(b, total));
    assert LogTold(c, d, env, b) by {
      assert Current(Report(b, total)) == Current(b);
      hide StateTold;
    }
    PublishedIsTold(c, d, b, env);
    assert Current(Report(Commit(b), total)) == Current(Commit(b));
    hide StateTold, Holds, SameHits, FoldersBefore, Mail, Tally, PendingBefore, Lines, ToldAt;
  }

  lemma EndIsTold(c: Config, d: Durable, r: Run, b: Run, k: nat, env: nat -> Answers)
    requires Telling(c, d, k, r, env) && LogTold(c, d, env, b) && b.updates == r.updates
    ensures RunTold(c, d, env, b)
  {
    hide LogTold;
    TellingIsTold(c, d, k, r, env);
  }

  lemma SkipIsPaced(c: Config, d: Durable, k: nat, r: Run, env: nat -> Answers)
    requires Paced(c, d, k, r, env) && k < |d.db.files| && d.db.files[k].status != Pending
    ensures Paced(c, d, k + 1, r, env)
  {
  }

  /** The row loop ends as told, and unless a row or the database ends it, in the state told for that row. */
  ghost predicate LoopTold(c: Config, d: Durable, env: nat -> Answers, e: End, b: Run, ending: Ending) {
    && e.row <= |d.db.files| && RunTold(c, d, env, b) && ending == e.ending
    && (!ending.DatabaseError? ==> (b.batchOpen <==> e.ending.WasFatal? || InBatch(c, d, e.row)))
    && (ending.DatabaseError? ==> !b.batchOpen)
    && (ending.Completed? || ending.WasCancelled? ==> Telling(c, d, e.row, b, env) && Recording(d.db.folders, b))
  }

  lemma {:induction false} LoopIsTold(c: Config, plan: seq<FileRow>, d: Durable, k: nat, r: Run, env: nat -> Answers)
    requires AtLoop(NoSurplus(Unreliable), c, plan, d.db.files, k, r) && SamePlan(plan, d.db.files)
    requires k <= |d.db.files| && Telling(c, d, k, r, env) && Paced(c, d, k, r, env)
    ensures var (b, ending) := Rows(c, r, d.db.files, k, env); LoopTold(c, d, env, EndFrom(c, d, k, env), b, ending)
    decreases |d.db.files| - k
  {
    hide AtLoop, RowBehind, ProcessRow, Telling, RunTold, LogTold, InBatch, StopAt, CountBefore, BatchBound, Recorded;
    var src, rows := NoSurplus(Unreliable), d.db.files;
    InLoop(src, c, plan, rows, k, r);
    TellingIsTold(c, d, k, r, env);
    if k == |rows| {
    } else if rows[k].status != Pending {
      SkippedPosition(src, c, plan, rows, k, r);
      SkipIsTold(c, d, k, r, env);
      SkipIsPaced(c, d, k, r, env);
      LoopIsTold(c, plan, d, k + 1, r, env);
    } else if !env(k).cancelled && (r.batchOpen || env(k).beginOk) {
      RowIsTold(c, plan, d, k, r, env);
      RowIsPaced(c, plan, d, k, r, env);
      var (b, fatal) := ProcessRow(c, BeginBatch(r), k, rows[k], env(k));
      hide Paced;
      if fatal.Some? {
        EndIsTold(c, d, r, b, k, env);
      } else {
        var e := Counted(b);
        if e.batchRows < c.batchSize {
          OpenPosition(src, c, plan, rows, k, e);
          LoopIsTold(c, plan, d, k + 1, Report(e, |rows|), env);
        } else if env(k).commitOk {
          CommittedPosition(src, c, plan, rows, k, e);
          CommittedIsTold(c, d, k + 1, e, env, |rows|);
          LoopIsTold(c, plan, d, k + 1, Report(Commit(e), |rows|), env);
        } else {
          CountedIsTold(c, d, b, env);
          PublishedIsTold(c, d, e, env);
          EndIsTold(c, d, r, Rollback(e), k, env);
        }
      }
    }
  }

  lemma CountedIsTold(c: Config, d: Durable, b: Run, env: nat -> Answers)
    requires LogTold(c, d, env, b)
    ensures LogTold(c, d, env, Counted(b))
  {
    hide StateTold;
    assert Current(Counted(b)) == Current(b);
  }

  lemma StartIsTold(c: Config, d: Durable, env: nat -> Answers)
    ensures Telling(c, d, 0, Start(d.pst, d.db), env)
  {
    HoldsNothing(d.pst, d.pst);
    hide MatchesAt, Holds, HitsIn, Settled;
    assert Mail(c, d, 0, env) == [];
    assert forall j :: 0 <= j < |d.db.files| ==> RecordTold(c, d, env, j, d.db.files[j]);
    var r := Start(d.pst, d.db);
    assert r.seen == [Snapshot(d.pst, d.db, d.db)];
    assert StateTold(c, d, env, Current(r));
  }

  /** What a run that ends by itself leaves: every row before the end settled as told and none behind it
      touched, the folders it ensured recorded, all the mail of those rows, and a line for each. */
  ghost predicate LeavesTold(c: Config, d: Durable, n: nat, r: Run, env: nat -> Answers) {
    && n <= |d.db.files| == |r.committed.files|
    && (forall j :: 0 <= j < n && d.db.files[j].status == Pending ==> r.committed.files[j] == ToldAt(c, d, j, env))
    && (forall j :: n <= j < |d.db.files| ==> r.committed.files[j] == d.db.files[j])
    && r.committed.folders == Recorded(d.db.folders, FoldersBefore(c, d, n, env).ensured)
    && Holds(d.pst, Mail(c, d, n, env), r.pst) && r.updates == Lines(c, d, n, env)
  }

  lemma LeftAsTold(c: Config, d: Durable, n: nat, r: Run, env: nat -> Answers)
    requires Telling(c, d, n, r, env) && Recording(d.db.folders, r)
    ensures LeavesTold(c, d, n, Commit(r), env) && (r.working == r.committed ==> LeavesTold(c, d, n, r, env))
  {
    hide LogTold, Holds, Mail, Lines, ToldAt, Recorded;
  }

  lemma PacedAtStart(c: Config, d: Durable, env: nat -> Answers)
    ensures Paced(c, d, 0, Start(d.pst, d.db), env)
  {
  }

  lemma {:induction false} AttemptIsTold(c: Config, plan: seq<FileRow>, d: Durable, next: Attempt)
    requires SafeDisk(NoSurplus(Unreliable), c.runId, plan, d) && Startable(c, d)
    ensures var (r, ending) := Attempted(c, d, next);
      && RunTold(c, d, next.env, r) && ending == EndingOf(c, d, next)
      && (ending.Completed? || ending.WasCancelled? ==> LeavesTold(c, d, EndFrom(c, d, 0, next.env).row, r, next.env))
  {
    hide Rows, AtLoop, RowSafe, OnlyOurs, RecordsTold, MailTold, Lines, LeavesTold, EndFrom, Telling, InBatch, RunEnded;
    var start := Start(d.pst, d.db);
    var e := EndFrom(c, d, 0, next.env);
    StartIsSafe(NoSurplus(Unreliable), c, plan, d);
    StartIsTold(c, d, next.env);
    PacedAtStart(c, d, next.env);
    LoopIsTold(c, plan, d, 0, start, next.env);
    RowsSafe(NoSurplus(Unreliable), c, plan, d.db.files, 0, start, next.env);
    var (r, ending) := Rows(c, start, d.db.files, 0, next.env);
    EndedOpen(NoSurplus(Unreliable), c, plan, d.db.files, start, r, ending);
    PublishedIsTold(c, d, r, next.env);
    if ending.Completed? || ending.WasCancelled? { LeftAsTold(c, d, e.row, r, next.env); }
  }

  lemma EndedOpen(src: Source, c: Config, plan: seq<FileRow>, rows: seq<FileRow>, r: Run, b: Run, ending: Ending)
    requires RunEnded(src, c, plan, rows, r, b, ending)
    ensures !b.batchOpen ==> b.working == b.committed
  {
  }

  // ---- Jobs ----

  /** After any history, in every state of the next run: each row that was settled is as it was, and each that was
      pending has been through the stages told, in the working and in the committed tables; the PST holds what it
      held and the mail of the first rows; the progress lines are the first of those told. The run ends as told; if
      it completes or is cancelled it leaves just what is told of the rows before its end. */
  lemma {:induction false} EveryRunIsTold(c: Config, plan: seq<FileRow>, folders: seq<FolderRow>,
                                          attempts: seq<Attempt>, next: Attempt)
    requires NewJob(plan, folders)
    ensures var d := After(c, Created(plan, folders), attempts); var c1 := RunConfig(c, |attempts|);
      var (r, ending) := Attempted(c1, d, next);
      && RunTold(c1, d, next.env, r) && ending == EndingOf(c1, d, next)
      && (ending.Completed? || ending.WasCancelled? ==> LeavesTold(c1, d, EndFrom(c1, d, 0, next.env).row, r, next.env))
  {
    var d := After(c, Created(plan, folders), attempts);
    UnreliableFits(c, plan, folders, attempts);
    HistorySafe(Unreliable, c, plan, folders, attempts);
    hide SafeDisk, RunTold, LeavesTold, Attempted, EndingOf;
    AttemptIsTold(RunConfig(c, |attempts|), plan, d, next);
  }

  lemma SettledStage(row: FileRow, matches: seq<TrackedMessage>, a: Answers, x: FileRow)
    requires IsStage(row, matches, a, x) && row.status == Pending && x.status != Pending
    ensures |matches| <= 1 && x == Told(row, matches, a)
  {
  }

  /** Whatever step the run is cut at, a row that it leaves settled has the record that was told. */
  lemma {:induction false} SettledAsTold(c: Config, plan: seq<FileRow>, folders: seq<FolderRow>,
                                         attempts: seq<Attempt>, next: Attempt, i: nat)
    requires NewJob(plan, folders)
    requires var d := After(c, Created(plan, folders), attempts); i < |d.db.files| && d.db.files[i].status == Pending
    ensures var d := After(c, Created(plan, folders), attempts); var c1 := RunConfig(c, |attempts|);
      var files := Survivor(c1, d, next).db.files;
      i < |files| && (files[i].status != Pending ==>
        |MatchesAt(c1, d, i, next.env)| <= 1 && files[i] == ToldAt(c1, d, i, next.env))
  {
    var d, c1 := After(c, Created(plan, folders), attempts), RunConfig(c, |attempts|);
    EveryRunIsTold(c, plan, folders, attempts, next);
    SurvivorIsTold(c1, d, next);
    hide Survivor, MatchesAt, After, Told;
    var x := Survivor(c1, d, next).db.files[i];
    assert RecordTold(c1, d, next.env, i, x);
    if x.status != Pending { SettledStage(d.db.files[i], MatchesAt(c1, d, i, next.env), next.env(i), x); }
  }

  lemma SurvivorIsTold(c: Config, d: Durable, next: Attempt)
    requires LogTold(c, d, next.env, Attempted(c, d, next).0)
    ensures RecordsTold(c, d, next.env, Survivor(c, d, next).db.files) && MailTold(c, d, next.env, Survivor(c, d, next).pst)
  {
    hide Attempted, RecordsTold, MailTold;
    var r := Attempted(c, d, next).0;
    assert StateTold(c, d, next.env, Current(r));
  }
}
