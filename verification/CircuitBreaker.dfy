/** When the circuit breaker stops a run. */
module CircuitBreaker {
  import opened Wrappers
  import opened Store
  import opened ImportProtocol
  import opened ProtocolSafety
  import opened RunSafety
  import opened History
  import opened RowTrace

  /** Folders can be opened, and whatever cannot be converted can be attached to a note. */
  predicate FallbackWorks(a: Answers) {
    a.lookup.ok && a.target.ok && a.errors.ok && a.fallback.FallbackOk?
  }

  lemma OpeningCountsNothing(r: Run, folder: string, a: FolderAnswer)
    requires a.ok
    ensures EnsureFolder(r, folder, a).0.systemic == r.systemic && EnsureFolder(r, folder, a).1
  {
  }

  lemma SavedConversionResets(c: Config, r: Run, i: nat, row: FileRow, a: Answers)
    requires i < |r.working.files| && r.systemic == 0 && c.threshold > 1 && FallbackWorks(a)
    ensures var (r1, fatal) := ReadAndConvert(c, r, i, row, a); r1.systemic == 0 && fatal == None
  {
    hide EnsureFolder, Delivered;
    if a.digest.Digest? {
      var r1 := SetSha(r, i, a.digest.sha);
      OpeningCountsNothing(r1, row.target, a.target);
      var r2 := EnsureFolder(r1, row.target, a.target).0;
      OpeningCountsNothing(r2, CONVERSION_ERRORS, a.errors);
      OpeningCountsNothing(r2.(systemic := 1), CONVERSION_ERRORS, a.errors);
    }
  }

  lemma SavedRowResets(c: Config, r: Run, i: nat, row: FileRow, a: Answers)
    requires i < |r.working.files| && r.systemic == 0 && c.threshold > 1 && FallbackWorks(a)
    ensures var (r1, fatal) := ProcessRow(c, r, i, row, a);
      r1.systemic == 0 && fatal != Some(OutputWriteFailure)
  {
    hide EnsureFolder, ReadAndConvert, Hits, Contents;
    var r1 := MarkStarted(r, i);
    if !c.resume {
      SavedConversionResets(c, r1, i, row, a);
    } else {
      OpeningCountsNothing(r1, row.target, a.lookup);
      var (r2, adoption) := TryAdopt(c, r1, i, row, a);
      if adoption.NotFound? {
        SavedConversionResets(c, r2, i, row, a);
      }
    }
  }

  /** Failed conversions alone never stop a run, however many there are in a row: as long as each message
      can be kept as an attachment, the breaker starts over. */
  lemma {:induction false} ConversionFailuresNeverTrip(c: Config, r: Run, rows: seq<FileRow>, k: nat, env: nat -> Answers)
    requires k <= |rows| == |r.working.files| && r.systemic == 0 && c.threshold > 1
    requires forall j :: k <= j < |rows| ==> FallbackWorks(env(j))
    ensures Rows(c, r, rows, k, env).1 != WasFatal(OutputWriteFailure)
    decreases |rows| - k
  {
    hide ProcessRow, FallbackWorks;
    if k == |rows| {
    } else if rows[k].status != Pending {
      ConversionFailuresNeverTrip(c, r, rows, k + 1, env);
    } else if !env(k).cancelled && (r.batchOpen || env(k).beginOk) {
      SavedRowResets(c, BeginBatch(r), k, rows[k], env(k));
      var (r1, fatal) := ProcessRow(c, BeginBatch(r), k, rows[k], env(k));
      if fatal.None? {
        var r2 := Counted(r1);
        if r2.batchRows < c.batchSize {
          ConversionFailuresNeverTrip(c, Report(r2, |rows|), rows, k + 1, env);
        } else if env(k).commitOk {
          ConversionFailuresNeverTrip(c, Report(Commit(r2), |rows|), rows, k + 1, env);
        }
      }
    }
  }

  // ---- Exactly when it trips ----

  /** Nothing but the breaker can stop the run here: no cancellation, no database error, and folders open. */
  predicate Smooth(a: Answers) {
    !a.cancelled && a.beginOk && a.commitOk && a.lookup.ok && a.target.ok && a.errors.ok
  }

  /** Whether a run that comes to row k has read the row's target folder by then. */
  ghost predicate HasRead(c: Config, rows: seq<FileRow>, k: int, env: nat -> Answers)
    requires 0 <= k < |rows|
  {
    c.resume && exists j :: 0 <= j <= k && ReadsAt(rows, j, rows[k].target, env)
  }

  ghost predicate ReadsAt(rows: seq<FileRow>, j: nat, folder: string, env: nat -> Answers)
    requires j < |rows|
  {
    rows[j].status == Pending && rows[j].target == folder && env(j).readOk
  }

  /** The messages of row k when the run starts, if the run gets to see them. */
  ghost function Shown(c: Config, d: Durable, k: nat, env: nat -> Answers): seq<TrackedMessage>
    requires k < |d.db.files|
  {
    if HasRead(c, d.db.files, k, env) then HitsIn(d.pst, d.db.files[k].target, c.runId, d.db.files[k].path) else []
  }

  /** What the breaker gets to see of a run from row k on, told from the disk at its start and the answers:
      a settled or an adopted row counts nothing, and two messages of one row end the run. */
  ghost function Events(c: Config, d: Durable, k: nat, env: nat -> Answers): seq<Event>
    requires k <= |d.db.files|
    decreases |d.db.files| - k
  {
    if k == |d.db.files| then []
    else if d.db.files[k].status != Pending || |Shown(c, d, k, env)| == 1 then Events(c, d, k + 1, env)
    else if |Shown(c, d, k, env)| > 1 then []
    else RowEvents(env(k)) + Events(c, d, k + 1, env)
  }

  /** n store-level failures with no message saved between them. */
  ghost predicate FailuresFrom(events: seq<Event>, i: nat, n: int) {
    i + n <= |events| && forall k :: i <= k < i + n ==> events[k].StoreFailure?
  }

  function AtLeastOne(threshold: int): (t: int)
    ensures t >= 1
  {
    if threshold < 1 then 1 else threshold
  }

  lemma ShiftFailures(events: seq<Event>, i: nat, n: nat)
    requires events != []
    ensures FailuresFrom(events, i + 1, n) <==> FailuresFrom(events[1..], i, n)
    ensures n > 0 ==> (FailuresFrom(events, 0, n) <==> events[0].StoreFailure? && FailuresFrom(events[1..], 0, n - 1))
  {
    var rest := events[1..];
    assert forall k :: 0 <= k < |rest| ==> rest[k] == events[k + 1];
    assert forall k :: 1 <= k < |events| ==> events[k] == rest[k - 1];
  }

  lemma FailuresInRest(events: seq<Event>, n: nat)
    requires events != []
    ensures (exists i: nat :: FailuresFrom(events, i, n))
      <==> FailuresFrom(events, 0, n) || exists i: nat :: FailuresFrom(events[1..], i, n)
  {
    if i: nat :| FailuresFrom(events, i, n) {
      if i > 0 { ShiftFailures(events, i - 1, n); }
    }
    if i: nat :| FailuresFrom(events[1..], i, n) {
      ShiftFailures(events, i, n);
    }
  }

  /** The breaker, with n failures counted before, trips exactly if the rest of a full count comes at once
      or a full count somewhere; even a threshold below one takes one failure. */
  lemma {:induction false} TripsExactly(events: seq<Event>, n: nat, threshold: int)
    requires n < AtLeastOne(threshold)
    ensures var t := AtLeastOne(threshold);
      Trips(events, n, threshold) <==> FailuresFrom(events, 0, t - n) || exists i: nat :: FailuresFrom(events, i, t)
  {
    var t := AtLeastOne(threshold);
    if events != [] {
      ShiftFailures(events, 0, t - n);
      ShiftFailures(events, 0, t);
      FailuresInRest(events, t);
      if events[0].Saved? {
        TripsExactly(events[1..], 0, threshold);
      } else if n + 1 < t {
        TripsExactly(events[1..], n + 1, threshold);
      }
    }
  }

  lemma {:induction false} TripsInTwo(a: seq<Event>, b: seq<Event>, n: int, threshold: int)
    ensures Trips(a + b, n, threshold) <==> Trips(a, n, threshold) || Trips(b, Count(a, n), threshold)
  {
    if a == [] {
      assert a + b == b;
    } else {
      assert (a + b)[1..] == a[1..] + b;
      TripsInTwo(a[1..], b, if a[0].Saved? then 0 else n + 1, threshold);
    }
  }

  // ---- Along a run ----

  /** The run has read the folders it should have, and later rows' messages are where they were. */
  ghost predicate OnTrack(c: Config, d: Durable, k: nat, r: Run, env: nat -> Answers) {
    && k <= |d.db.files|
    && (forall j :: k <= j < |d.db.files| ==>
          var row := d.db.files[j]; HitsIn(r.pst, row.target, c.runId, row.path) == HitsIn(d.pst, row.target, c.runId, row.path))
    && (c.resume ==> forall f :: f in r.index <==> exists j :: 0 <= j < k && ReadsAt(d.db.files, j, f, env))
  }

  /** What the breaker does at one row. */
  lemma RowCounts(c: Config, r: Run, i: nat, row: FileRow, a: Answers)
    requires i < |r.working.files| && Smooth(a) && (c.resume ==> FreshFor(c, r, row))
    ensures var (b, fatal) := ProcessRow(c, r, i, row, a);
      var here := if Sees(c, r, row, a) then HitsIn(r.pst, row.target, c.runId, row.path) else [];
      && (if |here| > 1 then fatal == Some(ResumeIntegrityError)
          else BreakerFits(c, if |here| == 1 then [] else RowEvents(a), r, b, fatal))
      && (c.resume ==> b.index.Keys == r.index.Keys + if Sees(c, r, row, a) then {row.target} else {})
  {
    hide Hits, TryAdopt, ReadAndConvert, Trips, Count, RowEvents;
    var m := MarkStarted(r, i);
    NoEvents(r.systemic, c.threshold);
    if c.resume {
      AdoptionTrace(c, m, i, row, a);
      var (t, adoption) := TryAdopt(c, m, i, row, a);
      ConversionCounts(c, t, i, row, a);
    } else {
      ConversionCounts(c, m, i, row, a);
    }
  }

  lemma RowOnTrack(c: Config, plan: seq<FileRow>, d: Durable, k: nat, r: Run, b: Run, env: nat -> Answers)
    requires OnTrack(c, d, k, r, env) && k < |d.db.files| == |plan| && SamePlan(plan, d.db.files) && DistinctPaths(plan)
    requires d.db.files[k].status == Pending && RowEffect(c.runId, plan, k, r, b) && env(k).lookup.ok
    requires c.resume ==>
      b.index.Keys == r.index.Keys + if Sees(c, r, d.db.files[k], env(k)) then {d.db.files[k].target} else {}
    ensures OnTrack(c, d, k + 1, b, env)
    ensures HasRead(c, d.db.files, k, env) <==> Sees(c, r, d.db.files[k], env(k))
  {
    hide HitsIn;
    var rows := d.db.files;
    forall j | k < j < |rows|
      ensures HitsIn(b.pst, rows[j].target, c.runId, rows[j].path) == HitsIn(d.pst, rows[j].target, c.runId, rows[j].path)
    {
      assert rows[j].path == plan[j].path != plan[k].path;
    }
    assert ReadsAt(rows, k, rows[k].target, env) == env(k).readOk;
    assert forall f :: ReadsAt(rows, k, f, env) ==> f == rows[k].target;
  }

  lemma SkipOnTrack(c: Config, d: Durable, k: nat, r: Run, env: nat -> Answers)
    requires OnTrack(c, d, k, r, env) && k < |d.db.files| && d.db.files[k].status != Pending
    ensures OnTrack(c, d, k + 1, r, env)
  {
    assert forall f :: !ReadsAt(d.db.files, k, f, env);
  }

  /** One row of the loop, with the breaker's events told from the disk and the answers. */
  lemma RowTrips(c: Config, plan: seq<FileRow>, d: Durable, k: nat, r: Run, env: nat -> Answers)
    requires AtLoop(NoSurplus(Unreliable), c, plan, d.db.files, k, r) && SamePlan(plan, d.db.files)
    requires k < |d.db.files| && d.db.files[k].status == Pending && Smooth(env(k)) && OnTrack(c, d, k, r, env)
    ensures var (b, fatal) := ProcessRow(c, BeginBatch(r), k, d.db.files[k], env(k));
      var shown := Shown(c, d, k, env);
      && (if |shown| > 1 then fatal == Some(ResumeIntegrityError)
          else BreakerFits(c, if |shown| == 1 then [] else RowEvents(env(k)), r, b, fatal))
      && OnTrack(c, d, k + 1, b, env)
      && (fatal.None? ==> RowBehind(NoSurplus(Unreliable), c, plan, d.db.files, k, Counted(b)))
  {
    hide AtLoop, ProcessRow, Hits, RowEffect, RowBehind, Trips, Count, RowEvents, HasRead, OnTrack;
    var r0 := BeginBatch(r);
    var rows := d.db.files;
    AnyRowInLoop(NoSurplus(Unreliable), c, plan, rows, k, r, env(k));
    InLoop(NoSurplus(Unreliable), c, plan, rows, k, r);
    FreshAt(c, plan, rows, k, r0);
    RowCounts(c, r0, k, rows[k], env(k));
    var (b, fatal) := ProcessRow(c, r0, k, rows[k], env(k));
    TrackBegins(c, d, k, r, env);
    RowOnTrack(c, plan, d, k, r0, b, env);
  }

  lemma TrackBegins(c: Config, d: Durable, k: nat, r: Run, env: nat -> Answers)
    requires OnTrack(c, d, k, r, env) && k < |d.db.files|
    ensures OnTrack(c, d, k, BeginBatch(r), env)
    ensures HitsIn(r.pst, d.db.files[k].target, c.runId, d.db.files[k].path)
         == HitsIn(d.pst, d.db.files[k].target, c.runId, d.db.files[k].path)
  {
    hide HitsIn;
  }

  function NextLoop(c: Config, b: Run, total: nat): (m: Run)
    ensures m.systemic == b.systemic && m.working == b.working
  {
    Report(if Counted(b).batchRows >= c.batchSize then Commit(Counted(b)) else Counted(b), total)
  }

  lemma {:induction false} RowsStep(c: Config, r: Run, rows: seq<FileRow>, k: nat, env: nat -> Answers)
    requires k < |rows| == |r.working.files| && rows[k].status == Pending && Smooth(env(k))
    ensures var (b, fatal) := ProcessRow(c, BeginBatch(r), k, rows[k], env(k));
      Rows(c, r, rows, k, env) ==
        if fatal.Some? then (b, WasFatal(fatal.value)) else Rows(c, NextLoop(c, b, |rows|), rows, k + 1, env)
  {
    hide ProcessRow;
  }

  lemma LoopGoesOn(c: Config, plan: seq<FileRow>, d: Durable, k: nat, b: Run, env: nat -> Answers)
    requires RowBehind(NoSurplus(Unreliable), c, plan, d.db.files, k, Counted(b)) && OnTrack(c, d, k + 1, b, env)
    ensures var m := NextLoop(c, b, |d.db.files|);
      AtLoop(NoSurplus(Unreliable), c, plan, d.db.files, k + 1, m) && OnTrack(c, d, k + 1, m, env)
  {
    hide RowBehind, AtLoop, HitsIn;
    if Counted(b).batchRows >= c.batchSize {
      CommittedPosition(NoSurplus(Unreliable), c, plan, d.db.files, k, Counted(b));
    } else {
      OpenPosition(NoSurplus(Unreliable), c, plan, d.db.files, k, Counted(b));
    }
  }

  lemma {:induction false} EventsStep(c: Config, d: Durable, k: nat, env: nat -> Answers, n: int)
    requires k < |d.db.files| && d.db.files[k].status == Pending
    ensures var shown := Shown(c, d, k, env);
      var events := if |shown| == 1 then [] else RowEvents(env(k));
      Trips(Events(c, d, k, env), n, c.threshold) ==
        (|shown| <= 1 && (Trips(events, n, c.threshold) || Trips(Events(c, d, k + 1, env), Count(events, n), c.threshold)))
  {
    hide Shown, RowEvents, Trips, Count;
    NoEvents(n, c.threshold);
    TripsInTwo(RowEvents(env(k)), Events(c, d, k + 1, env), n, c.threshold);
  }

  lemma {:induction false} LoopTrips(c: Config, plan: seq<FileRow>, d: Durable, k: nat, r: Run, env: nat -> Answers)
    requires AtLoop(NoSurplus(Unreliable), c, plan, d.db.files, k, r) && SamePlan(plan, d.db.files)
    requires k <= |d.db.files| && OnTrack(c, d, k, r, env)
    requires forall j :: k <= j < |d.db.files| && d.db.files[j].status == Pending ==> Smooth(env(j))
    ensures var ending := Rows(c, r, d.db.files, k, env).1;
      && (ending == WasFatal(OutputWriteFailure) <==> Trips(Events(c, d, k, env), r.systemic, c.threshold))
      && !ending.DatabaseError?
    decreases |d.db.files| - k
  {
    hide Kept, KnowsTheRest, OnTrack, RowBehind, ProcessRow, RowEvents, Trips, Count, NextLoop, Shown;
    var src, rows := NoSurplus(Unreliable), d.db.files;
    NoEvents(r.systemic, c.threshold);
    if k == |rows| {
    } else if rows[k].status != Pending {
      SkippedPosition(src, c, plan, rows, k, r);
      SkipOnTrack(c, d, k, r, env);
      LoopTrips(c, plan, d, k + 1, r, env);
    } else {
      RowTrips(c, plan, d, k, r, env);
      var (b, fatal) := ProcessRow(c, BeginBatch(r), k, rows[k], env(k));
      RowsStep(c, r, rows, k, env);
      EventsStep(c, d, k, env, r.systemic);
      if fatal.None? {
        var m := NextLoop(c, b, |rows|);
        LoopGoesOn(c, plan, d, k, b, env);
        LoopTrips(c, plan, d, k + 1, m, env);
      }
    }
  }

  /** Nothing else can stop the next run of a job. */
  ghost predicate SmoothRun(d: Durable, next: Attempt) {
    && next.lastCommitOk
    && forall j :: 0 <= j < |d.db.files| && d.db.files[j].status == Pending ==> Smooth(next.env(j))
  }

  /** After any history, a run that nothing else stops ends with an output failure exactly if, without a message
      saved in between, as many store-level failures follow each other as the threshold says. Imports and
      fallbacks count separately; settled, unreadable and adopted rows neither count nor start over. */
  lemma {:induction false} BreakerTripsExactly(c: Config, plan: seq<FileRow>, folders: seq<FolderRow>,
                                               attempts: seq<Attempt>, next: Attempt)
    requires NewJob(plan, folders) && SmoothRun(After(c, Created(plan, folders), attempts), next)
    ensures var d := After(c, Created(plan, folders), attempts);
      var c1 := RunConfig(c, |attempts|);
      Attempted(c1, d, next).1 == WasFatal(OutputWriteFailure) <==>
        exists i: nat :: FailuresFrom(Events(c1, d, 0, next.env), i, AtLeastOne(c.threshold))
  {
    var d := After(c, Created(plan, folders), attempts);
    var c1 := RunConfig(c, |attempts|);
    UnreliableFits(c, plan, folders, attempts);
    HistorySafe(Unreliable, c, plan, folders, attempts);
    SmoothRunTrips(c1, plan, d, next);
  }

  lemma {:induction false} SmoothRunTrips(c: Config, plan: seq<FileRow>, d: Durable, next: Attempt)
    requires SafeDisk(NoSurplus(Unreliable), c.runId, plan, d) && Startable(c, d) && SmoothRun(d, next)
    ensures Attempted(c, d, next).1 == WasFatal(OutputWriteFailure)
      <==> exists i: nat :: FailuresFrom(Events(c, d, 0, next.env), i, AtLeastOne(c.threshold))
  {
    hide Rows, AtLoop, HitsIn, RowSafe, OnlyOurs, Events, Trips;
    var start := Start(d.pst, d.db);
    StartIsSafe(NoSurplus(Unreliable), c, plan, d);
    assert OnTrack(c, d, 0, start, next.env);
    LoopTrips(c, plan, d, 0, start, next.env);
    TripsExactly(Events(c, d, 0, next.env), 0, c.threshold);
    assert FailuresFrom(Events(c, d, 0, next.env), 0, AtLeastOne(c.threshold)) ==>
      exists i: nat :: FailuresFrom(Events(c, d, 0, next.env), i, AtLeastOne(c.threshold));
  }

  // ---- A store that saves nothing ----

  /** Both the import and the fallback of a readable file fail in the store. */
  predicate StoreIsBroken(a: Answers) {
    && a.digest.Digest? && a.prefixOk
    && a.importing.ImportFailed? && IsSystemic(a.importing.op)
    && a.fallback.FallbackFailed? && IsSystemic(a.fallback.op)
  }

  /** The rows from k on that a run would convert: pending and not adopted, up to one with two messages. */
  ghost function ToConvert(c: Config, d: Durable, k: nat, env: nat -> Answers): nat
    requires k <= |d.db.files|
    decreases |d.db.files| - k
  {
    if k == |d.db.files| then 0
    else if d.db.files[k].status != Pending || |Shown(c, d, k, env)| == 1 then ToConvert(c, d, k + 1, env)
    else if |Shown(c, d, k, env)| > 1 then 0
    else 1 + ToConvert(c, d, k + 1, env)
  }

  ghost predicate BrokenThroughout(d: Durable, env: nat -> Answers) {
    forall j :: 0 <= j < |d.db.files| && d.db.files[j].status == Pending ==> StoreIsBroken(env(j))
  }

  lemma {:induction false} BrokenEvents(c: Config, d: Durable, k: nat, env: nat -> Answers)
    requires k <= |d.db.files| && BrokenThroughout(d, env)
    ensures var events := Events(c, d, k, env);
      |events| == 2 * ToConvert(c, d, k, env) && forall e :: e in events ==> e.StoreFailure?
    decreases |d.db.files| - k
  {
    hide Shown;
    if k < |d.db.files| {
      BrokenEvents(c, d, k + 1, env);
      if d.db.files[k].status == Pending {
        assert RowEvents(env(k)) == [StoreFailure, StoreFailure];
      }
    }
  }

  lemma {:induction false} FreshConverts(c: Config, d: Durable, k: nat, env: nat -> Answers)
    requires k <= |d.db.files| && !c.resume
    ensures ToConvert(c, d, k, env) == CountStatus(d.db.files[k..], Pending)
    decreases |d.db.files| - k
  {
    if k < |d.db.files| {
      assert d.db.files[k..] == [d.db.files[k]] + d.db.files[k + 1..];
      FreshConverts(c, d, k + 1, env);
    }
  }

  /** A broken store stops a run exactly if it would convert half as many rows as the threshold, rounded up;
      the first run of a job would convert them all. */
  lemma {:induction false} BrokenStoreTrips(c: Config, plan: seq<FileRow>, folders: seq<FolderRow>,
                                            attempts: seq<Attempt>, next: Attempt)
    requires NewJob(plan, folders)
    requires var d := After(c, Created(plan, folders), attempts); SmoothRun(d, next) && BrokenThroughout(d, next.env)
    ensures var d := After(c, Created(plan, folders), attempts);
      var c1 := RunConfig(c, |attempts|);
      && (Attempted(c1, d, next).1 == WasFatal(OutputWriteFailure) <==>
            c.threshold <= 2 * ToConvert(c1, d, 0, next.env) && ToConvert(c1, d, 0, next.env) > 0)
      && (attempts == [] ==> ToConvert(c1, d, 0, next.env) == CountStatus(plan, Pending))
  {
    hide SmoothRun, BrokenThroughout, Execute;
    var d := After(c, Created(plan, folders), attempts);
    var c1 := RunConfig(c, |attempts|);
    var events := Events(c1, d, 0, next.env);
    var t := AtLeastOne(c.threshold);
    BreakerTripsExactly(c, plan, folders, attempts, next);
    BrokenEvents(c1, d, 0, next.env);
    assert t <= |events| ==> FailuresFrom(events, 0, t);
    assert (exists i: nat :: FailuresFrom(events, i, t)) <==> t <= |events|;
    if attempts == [] {
      FreshConverts(c1, d, 0, next.env);
      assert d.db.files[0..] == plan;
    }
  }
}
