/** Setting up a new job. */
module JobSetup {
  import opened Wrappers
  import opened Text
  import opened PathOrder
  import opened FolderCollapse
  import opened FolderPlan
  import opened FolderPlanner
  import opened WorkerPlan
  import opened Store
  import opened History
  import opened ImportPipeline

  datatype ManifestEntry = ManifestEntry(path: string, size: nat, lastWrite: int)

  // ---- A new job ----

  /** The directory of a file: everything before the last separator. */
  function ParentDir(path: string): string {
    if path == "" then ""
    else if path[|path| - 1] == SEP then path[..|path| - 1]
    else if SEP in path then ParentDir(path[..|path| - 1])
    else ""
  }

  method ParentDirOf(path: string) returns (dir: string)
    ensures dir == ParentDir(path)
  {
    var k := |path|;
    assert path[..|path|] == path;
    while k > 0 && path[k - 1] != SEP
      invariant 0 <= k <= |path| && SEP !in path[k..]
      invariant SEP in path[..k] ==> ParentDir(path) == ParentDir(path[..k])
    {
      assert path[..k][..k - 1] == path[..k - 1];
      assert path[k - 1..] == [path[k - 1]] + path[k..];
      assert path == path[..k] + path[k..];
      k := k - 1;
    }
    NoParent(path);
    assert path == path[..k] + path[k..];
    dir := if k == 0 then "" else path[..k - 1];
    assert k > 0 ==> path[..k][..k - 1] == path[..k - 1];
  }

  lemma {:induction false} NoParent(path: string)
    ensures SEP !in path ==> ParentDir(path) == ""
  {
  }

  /** The directory and the name, put together with a separator, are the path; the name has none. */
  lemma {:induction false} ParentDirExactly(path: string)
    ensures if SEP in path then exists name :: SEP !in name && path == ParentDir(path) + [SEP] + name else ParentDir(path) == ""
  {
    if path != "" && SEP in path {
      var n := |path| - 1;
      var last := path[n];
      assert path == path[..n] + [last];
      if last == SEP {
        assert path == ParentDir(path) + [SEP] + "";
      } else {
        ParentDirExactly(path[..n]);
        var name :| SEP !in name && path[..n] == ParentDir(path[..n]) + [SEP] + name;
        assert path == ParentDir(path) + [SEP] + (name + [last]);
      }
    } else {
      NoParent(path);
    }
  }

  function NewRow(e: ManifestEntry, target: string): FileRow {
    FileRow(e.path, e.size, e.lastWrite, "", target, None, Pending, 0, 0)
  }

  ghost predicate DistinctEntries(entries: seq<ManifestEntry>) {
    forall i, j :: 0 <= i < j < |entries| ==> entries[i].path != entries[j].path
  }

  /** All rows or, when a path repeats or the lists differ in length, none. */
  method CreateNew(entries: seq<ManifestEntry>, targets: seq<string>) returns (tables: Result<Tables, string>)
    ensures tables.Ok? <==> |entries| == |targets| && DistinctEntries(entries)
    ensures tables.Ok? ==> tables.value.folders == [] && |tables.value.files| == |entries|
    ensures tables.Ok? ==> forall i :: 0 <= i < |entries| ==> tables.value.files[i] == NewRow(entries[i], targets[i])
  {
    if |entries| != |targets| {
      return Err("manifest and file_target_folders must be the same size");
    }
    var files: seq<FileRow> := [];
    var paths: set<string> := {};
    for k := 0 to |entries|
      invariant |files| == k && forall i :: 0 <= i < k ==> files[i] == NewRow(entries[i], targets[i])
      invariant paths == set i | 0 <= i < k :: entries[i].path
      invariant DistinctEntries(entries[..k])
    {
      if entries[k].path in paths {
        var i :| 0 <= i < k && entries[i].path == entries[k].path;
        return Err("UNIQUE constraint failed: files.relative_source_path");
      }
      assert entries[..k + 1] == entries[..k] + [entries[k]];
      files := files + [NewRow(entries[k], targets[k])];
      paths := paths + {entries[k].path};
    }
    assert entries[..|entries|] == entries;
    tables := Ok(Tables(files, []));
  }

  /** Inserts a row of the folder map, or replaces the one with the same source. */
  function Upserted(rows: seq<FolderRow>, row: FolderRow): seq<FolderRow> {
    if rows == [] then [row]
    else if rows[0].source == row.source then [row.(entryId := rows[0].entryId)] + rows[1..]
    else [rows[0]] + Upserted(rows[1..], row)
  }

  lemma {:induction false} UpsertOfNewAppends(rows: seq<FolderRow>, row: FolderRow)
    requires forall i :: 0 <= i < |rows| ==> rows[i].source != row.source
    ensures Upserted(rows, row) == rows + [row]
  {
    if rows != [] {
      UpsertOfNewAppends(rows[1..], row);
    }
  }

  ghost predicate FoldersRecorded(rows: seq<FolderRow>, folders: seq<MappedFolder>, k: nat)
    requires k <= |folders|
  {
    && |rows| == k
    && forall i :: 0 <= i < k ==> rows[i] == FolderRow(folders[i].source, Join(folders[i].target), None)
  }

  lemma {:induction false} RecordOne(placed: seq<Placed>, rows: seq<FolderRow>, k: nat)
    requires SourcesFit(placed) && k < |placed| && FoldersRecorded(rows, FoldersOf(placed), k)
    ensures var folder := FoldersOf(placed)[k];
      FoldersRecorded(Upserted(rows, FolderRow(folder.source, Join(folder.target), None)), FoldersOf(placed), k + 1)
  {
    var folders := FoldersOf(placed);
    forall i | 0 <= i < k ensures rows[i].source != folders[k].source {
      SourcesDiffer(placed, i, k);
    }
    UpsertOfNewAppends(rows, FolderRow(folders[k].source, Join(folders[k].target), None));
    hide Join, SourcesFit;
  }

  /** Records the folder map; folders not yet opened have no entry id. No two folders have one source,
      so every upsert inserts. */
  method RecordFolders(folders: seq<MappedFolder>, tables: Tables, ghost placed: seq<Placed>) returns (recorded: Tables)
    requires folders == FoldersOf(placed) && Embeds(placed) && SourcesFit(placed) && tables.folders == []
    ensures recorded.files == tables.files && FoldersRecorded(recorded.folders, folders, |folders|)
  {
    assert FoldersRecorded([], folders, 0);
    hide Embeds, SourcesFit, FoldersRecorded, Join, AllClean;
    var rows: seq<FolderRow> := [];
    for k := 0 to |folders|
      invariant FoldersRecorded(rows, folders, k)
    {
      TargetsAreClean(placed, k);
      var target := JoinSegments(folders[k].target);
      RecordOne(placed, rows, k);
      rows := Upserted(rows, FolderRow(folders[k].source, target, None));
    }
    recorded := tables.(folders := rows);
  }

  /** The plan of a job: every file's row is pending, and its target is the planned folder of its directory. */
  ghost predicate JobFits(tables: Tables, entries: seq<ManifestEntry>, options: CollapseOptions, sorted: seq<string>,
                          placed: seq<Placed>) {
    && NewJob(tables.files, tables.folders) && |tables.files| == |entries| && Embeds(placed)
    && (forall i :: 0 <= i < |entries| ==>
          && tables.files[i] == NewRow(entries[i], tables.files[i].target)
          && Canonical(tables.files[i].target)
          && PlacedAs(placed, PlanPath(LogicalParts(sorted, options, ParentDir(entries[i].path))), tables.files[i].target))
  }

  /** The directories that hold mail. */
  method CollectDirs(entries: seq<ManifestEntry>) returns (dirs: seq<string>)
    ensures forall d :: d in dirs <==> exists i :: 0 <= i < |entries| && ParentDir(entries[i].path) == d
  {
    var dirSet: set<string> := {};
    for k := 0 to |entries|
      invariant forall d :: d in dirSet <==> exists i :: 0 <= i < k && ParentDir(entries[i].path) == d
    {
      hide ParentDir;
      var dir := ParentDirOf(entries[k].path);
      dirSet := dirSet + {dir};
    }
    dirs := ElementsOf(dirSet);
  }

  method FileTargets(entries: seq<ManifestEntry>, targets: map<string, string>) returns (fileTargets: seq<string>)
    requires forall i :: 0 <= i < |entries| ==> ParentDir(entries[i].path) in targets
    ensures |fileTargets| == |entries|
    ensures forall i :: 0 <= i < |entries| ==> fileTargets[i] == targets[ParentDir(entries[i].path)]
  {
    fileTargets := [];
    for k := 0 to |entries|
      invariant |fileTargets| == k
      invariant forall i :: 0 <= i < k ==> fileTargets[i] == targets[ParentDir(entries[i].path)]
    {
      hide ParentDir;
      var dir := ParentDirOf(entries[k].path);
      fileTargets := fileTargets + [targets[dir]];
    }
  }

  lemma TargetsFit(entries: seq<ManifestEntry>, fileTargets: seq<string>, targets: map<string, string>, dirs: seq<string>,
                   options: CollapseOptions, sorted: seq<string>, placed: seq<Placed>, tables: Tables)
    requires Mapped(targets, dirs, sorted, options, placed) && Embeds(placed) && SameElements(sorted, dirs)
    requires forall i :: 0 <= i < |entries| ==> ParentDir(entries[i].path) in dirs
    requires |fileTargets| == |entries| == |tables.files| && DistinctEntries(entries)
    requires forall i :: 0 <= i < |entries| ==> fileTargets[i] == targets[ParentDir(entries[i].path)]
    requires forall i :: 0 <= i < |entries| ==> tables.files[i] == NewRow(entries[i], fileTargets[i])
    requires forall i :: 0 <= i < |tables.folders| ==> tables.folders[i].entryId == None
    ensures JobFits(tables, entries, options, sorted, placed)
  {
    hide ParentDir, LogicalParts, Embeds, SameElements, Stripped, FoldEach, PlacedAs, Join, Split;
    forall i | 0 <= i < |entries| ensures Canonical(fileTargets[i]) {
      var d := ParentDir(entries[i].path);
      SharedExactly(targets, dirs, sorted, options, placed, d, d);
    }
  }

  lemma RecordedAreUnopened(rows: seq<FolderRow>, folders: seq<MappedFolder>)
    requires FoldersRecorded(rows, folders, |folders|)
    ensures forall i :: 0 <= i < |rows| ==> rows[i].entryId == None
  {
    hide Join;
  }

  lemma DirsAreAll(entries: seq<ManifestEntry>, dirs: seq<string>, sorted: seq<string>, options: CollapseOptions)
    requires forall d :: d in dirs <==> exists i :: 0 <= i < |entries| && ParentDir(entries[i].path) == d
    ensures (exists d :: d in dirs && |LogicalParts(sorted, options, d)| > MAX_DEPTH_SEGMENTS)
      <==> exists i :: 0 <= i < |entries| && |LogicalParts(sorted, options, ParentDir(entries[i].path))| > MAX_DEPTH_SEGMENTS
  {
    hide ParentDir, LogicalParts;
  }

  /** Sets up the tables of a new job. It fails only for a path that is too deep or listed twice. */
  method StartJob(entries: seq<ManifestEntry>, options: CollapseOptions)
    returns (tables: Result<Tables, string>, ghost sorted: seq<string>, ghost placed: seq<Placed>)
    ensures IsSorted(sorted)
    ensures forall d :: d in sorted <==> exists i :: 0 <= i < |entries| && ParentDir(entries[i].path) == d
    ensures tables.Err? <==> (!DistinctEntries(entries)
      || exists i :: 0 <= i < |entries| && |LogicalParts(sorted, options, ParentDir(entries[i].path))| > MAX_DEPTH_SEGMENTS)
    ensures tables.Ok? ==> JobFits(tables.value, entries, options, sorted, placed)
    ensures tables.Ok? ==> DistinctEntries(entries) && NewJob(tables.value.files, tables.value.folders)
    ensures tables.Ok? ==> |tables.value.files| == |entries|
    ensures tables.Ok? ==> forall i :: 0 <= i < |entries| ==> tables.value.files[i] == NewRow(entries[i], tables.value.files[i].target)
  {
    var dirs := CollectDirs(entries);
    hide ParentDir, LogicalParts, IsSorted, Embeds, FoldersOf, DistinctEntries, SourcesFit, FoldersRecorded, Join, PlacedAs, Canonical, PlanPath, NewJob;
    var targets, folders;
    targets, folders, sorted, placed := PlanTargets(dirs, options);
    DirsAreAll(entries, dirs, sorted, options);
    if targets.Err? {
      return Err(targets.error), sorted, placed;
    }
    var fileTargets := FileTargets(entries, targets.value);
    var created := CreateNew(entries, fileTargets);
    if created.Err? {
      return Err(created.error), sorted, placed;
    }
    var recorded := RecordFolders(folders, created.value, placed);
    RecordedAreUnopened(recorded.folders, folders);
    TargetsFit(entries, fileTargets, targets.value, dirs, options, sorted, placed, recorded);
    tables := Ok(recorded);
  }
}
