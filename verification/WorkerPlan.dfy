/** Collapsing and planning the directories of a manifest. */
module WorkerPlan {
  import opened Wrappers
  import opened Text
  import opened PathOrder
  import opened FolderCollapse
  import opened FolderPlan
  import opened FolderPlanner

  const UNPLANNED: string := "folder mapping failed: unplanned folder"

  /** Where a directory's logical path stands in the plan. */
  function PlanPath(parts: seq<string>): seq<string> {
    if parts == [] then [""] else parts
  }

  ghost predicate PlacedAs(placed: seq<Placed>, path: seq<string>, target: string) {
    exists i :: 0 <= i < |placed| && placed[i].path == path && target == Join(placed[i].target)
  }

  method ElementsOf(s: set<string>) returns (elements: seq<string>)
    ensures forall x :: x in elements <==> x in s
  {
    elements := [];
    var todo := s;
    while todo != {}
      invariant todo <= s && forall x :: x in elements <==> x in s - todo
    {
      var x :| x in todo;
      elements, todo := elements + [x], todo - {x};
    }
  }

  /** The map from planned sources to joined targets. */
  ghost predicate TargetMapFits(targets: map<string, string>, placed: seq<Placed>, k: nat)
    requires k <= |placed|
  {
    && (forall s :: s in targets <==> exists i :: 0 <= i < k && Join(placed[i].path) == s)
    && (forall i :: 0 <= i < k ==> targets[Join(placed[i].path)] == Join(placed[i].target))
  }

  /** Sources of the plan are joins of clean paths, or empty for "Root Messages"; no two coincide. */
  ghost predicate SourcesFit(placed: seq<Placed>) {
    && (forall i :: 0 <= i < |placed| ==> placed[i].path == [""] || (placed[i].path != [] && AllClean(placed[i].path)))
    && (forall i, j :: 0 <= i < j < |placed| ==> placed[i].path != placed[j].path)
  }

  lemma SourcesDiffer(placed: seq<Placed>, i: nat, j: nat)
    requires SourcesFit(placed) && i < j < |placed|
    ensures Join(placed[i].path) != Join(placed[j].path)
  {
    var a, b := placed[i].path, placed[j].path;
    if a != [""] && b != [""] {
      JoinInjective(a, b);
    } else if a == [""] {
      JoinIsEmpty(b);
    } else {
      JoinIsEmpty(a);
    }
  }

  lemma NeededAreSources(dirs: seq<string>, placed: seq<Placed>)
    requires Embeds(placed) && forall p :: HasPlaced(placed, p) <==> Needed(dirs, p)
    ensures SourcesFit(placed)
  {
    EmbedsAreApart(placed);
    forall i | 0 <= i < |placed| ensures placed[i].path == [""] || (placed[i].path != [] && AllClean(placed[i].path)) {
      assert HasPlaced(placed, placed[i].path);
      assert Needed(dirs, placed[i].path);
      if placed[i].path != [""] {
        var d :| d in dirs && placed[i].path != [] && placed[i].path <= Split(d);
        SplitIsClean(d);
      }
    }
    hide Embeds;
    forall i, j | 0 <= i < j < |placed| ensures placed[i].path != placed[j].path {
      assert Apart(placed[i], placed[j]);
    }
  }

  lemma TargetMapGrows(targets: map<string, string>, placed: seq<Placed>, k: nat)
    requires k < |placed| && SourcesFit(placed) && TargetMapFits(targets, placed, k)
    ensures TargetMapFits(targets[Join(placed[k].path) := Join(placed[k].target)], placed, k + 1)
  {
    forall i | 0 <= i < k ensures Join(placed[i].path) != Join(placed[k].path) {
      SourcesDiffer(placed, i, k);
    }
    hide Join, SourcesFit;
  }

  method IndexTargets(folders: seq<MappedFolder>, ghost placed: seq<Placed>) returns (targets: map<string, string>)
    requires folders == FoldersOf(placed) && SourcesFit(placed) && Embeds(placed)
    ensures TargetMapFits(targets, placed, |placed|)
  {
    targets := map[];
    for k := 0 to |folders|
      invariant TargetMapFits(targets, placed, k)
    {
      hide Join, SourcesFit, Embeds, TargetMapFits, AllClean;
      TargetsAreClean(placed, k);
      var joined := JoinSegments(folders[k].target);
      TargetMapGrows(targets, placed, k);
      targets := targets[folders[k].source := joined];
    }
  }

  /** A logical path whose input is planned has a target. */
  lemma {:induction false} LogicalIsPlanned(logicals: seq<string>, placed: seq<Placed>, targets: map<string, string>,
                                            parts: seq<string>)
    requires AllClean(parts) && Join(parts) in logicals
    requires forall p :: HasPlaced(placed, p) <==> Needed(logicals, p)
    requires TargetMapFits(targets, placed, |placed|)
    ensures Join(parts) in targets && PlacedAs(placed, PlanPath(parts), targets[Join(parts)])
  {
    var path := PlanPath(parts);
    JoinIsEmpty(parts);
    assert Needed(logicals, path) by {
      if parts != [] {
        SplitJoin(parts);
      }
    }
    assert HasPlaced(placed, path);
    var i :| 0 <= i < |placed| && placed[i].path == path;
    assert Join(path) == Join(parts);
  }

  ghost predicate Mapped(targets: map<string, string>, dirs: seq<string>, sorted: seq<string>,
                         options: CollapseOptions, placed: seq<Placed>) {
    && (forall d :: d in targets <==> d in dirs)
    && forall d :: d in dirs ==> PlacedAs(placed, PlanPath(LogicalParts(sorted, options, d)), targets[d])
  }

  method LogicalPaths(collapsed: map<string, string>) returns (logicals: seq<string>)
    ensures forall x :: x in logicals <==> exists d :: d in collapsed && collapsed[d] == x
  {
    var all: set<string> := {};
    var todo := collapsed.Keys;
    while todo != {}
      invariant todo <= collapsed.Keys
      invariant forall x :: x in all <==> exists d :: d in collapsed && d !in todo && collapsed[d] == x
    {
      var d :| d in todo;
      all, todo := all + {collapsed[d]}, todo - {d};
    }
    logicals := ElementsOf(all);
  }

  /** Looks up the target of every directory's logical path; each is found. */
  method MapSources(collapsed: map<string, string>, byLogical: map<string, string>, ghost logicals: seq<string>,
                    ghost sorted: seq<string>, options: CollapseOptions, ghost placed: seq<Placed>)
    returns (bySource: Result<map<string, string>, string>)
    requires forall d :: d in collapsed ==> collapsed[d] == Logical(sorted, options, d) && collapsed[d] in logicals
    requires TargetMapFits(byLogical, placed, |placed|)
    requires forall p :: HasPlaced(placed, p) <==> Needed(logicals, p)
    ensures bySource.Ok? && forall d :: d in bySource.value <==> d in collapsed
    ensures forall d :: d in collapsed ==> PlacedAs(placed, PlanPath(LogicalParts(sorted, options, d)), bySource.value[d])
  {
    hide *;
    var found: map<string, string> := map[];
    var todo := collapsed.Keys;
    while todo != {}
      invariant todo <= collapsed.Keys
      invariant forall d :: d in found <==> d in collapsed && d !in todo
      invariant forall d :: d in found ==> PlacedAs(placed, PlanPath(LogicalParts(sorted, options, d)), found[d])
    {
      var d :| d in todo;
      LogicalPartsAreClean(sorted, options, d);
      LogicalIsJoin(sorted, options, d);
      LogicalIsPlanned(logicals, placed, byLogical, LogicalParts(sorted, options, d));
      if collapsed[d] !in byLogical {
        return Err(UNPLANNED);
      }
      found := found[d := byLogical[collapsed[d]]];
      todo := todo - {d};
    }
    bySource := Ok(found);
  }

  /** Maps every directory with mail to the target path of its PST folder. The only error is a logical
      path that is too deep: no directory is ever found to be unplanned. */
  method PlanTargets(dirs: seq<string>, options: CollapseOptions)
    returns (targets: Result<map<string, string>, string>, folders: seq<MappedFolder>, ghost sorted: seq<string>, ghost placed: seq<Placed>)
    ensures IsSorted(sorted) && SameElements(sorted, dirs)
    ensures targets.Err? <==> exists d :: d in dirs && |LogicalParts(sorted, options, d)| > MAX_DEPTH_SEGMENTS
    ensures targets.Err? ==> targets.error == TOO_DEEP
    ensures targets.Ok? ==> Mapped(targets.value, dirs, sorted, options, placed) && Embeds(placed) && SourcesFit(placed)
    ensures targets.Ok? ==> folders == FoldersOf(placed) && InTurn(placed)
  {
    hide InTurn, IsSorted, Logical, LogicalParts, Embeds, Split, OutputSorted, Needed, Join, PlacedAs, HasPlaced, FoldersOf, TooDeep;
    var collapsed;
    collapsed, sorted := BuildCollapseMap(dirs, options);
    var logicals := LogicalPaths(collapsed);
    var plan;
    plan, placed := BuildFolderPlan(logicals);
    LogicalDepths(dirs, sorted, options, collapsed, logicals);
    if plan.Err? {
      return Err(TOO_DEEP), [], sorted, placed;
    }
    folders := plan.value;
    NeededAreSources(logicals, placed);
    var byLogical := IndexTargets(plan.value, placed);
    hide SourcesFit, TargetMapFits;
    targets := MapSources(collapsed, byLogical, logicals, sorted, options, placed);
  }

  lemma LogicalIsJoin(sorted: seq<string>, options: CollapseOptions, d: string)
    ensures Logical(sorted, options, d) == Join(LogicalParts(sorted, options, d))
  {
  }

  lemma LogicalDepths(dirs: seq<string>, sorted: seq<string>, options: CollapseOptions,
                      collapsed: map<string, string>, logicals: seq<string>)
    requires forall d :: d in collapsed <==> d in dirs
    requires forall d :: d in dirs ==> collapsed[d] == Logical(sorted, options, d)
    requires forall x :: x in logicals <==> exists d :: d in collapsed && collapsed[d] == x
    ensures (exists x :: x in logicals && TooDeep(x)) <==> exists d :: d in dirs && |LogicalParts(sorted, options, d)| > MAX_DEPTH_SEGMENTS
  {
    forall d | d in dirs ensures TooDeep(collapsed[d]) <==> |LogicalParts(sorted, options, d)| > MAX_DEPTH_SEGMENTS {
      LogicalPartsAreClean(sorted, options, d);
      SplitJoin(LogicalParts(sorted, options, d));
    }
    hide LogicalParts, TooDeep, Logical;
    if exists d :: d in dirs && |LogicalParts(sorted, options, d)| > MAX_DEPTH_SEGMENTS {
      var d :| d in dirs && |LogicalParts(sorted, options, d)| > MAX_DEPTH_SEGMENTS;
      assert collapsed[d] in logicals;
    }
  }

  /** Two directories share a PST folder exactly when they are equal without their containers, up to
      case if case variants are merged; and every target can be split into its planned segments again. */
  lemma SharedExactly(targets: map<string, string>, dirs: seq<string>, sorted: seq<string>, options: CollapseOptions,
                      placed: seq<Placed>, a: string, b: string)
    requires Mapped(targets, dirs, sorted, options, placed) && Embeds(placed) && SameElements(sorted, dirs)
    requires a in dirs && b in dirs
    ensures targets[a] == targets[b] <==>
      if options.mergeCase then FoldEach(Stripped(a, options)) == FoldEach(Stripped(b, options))
      else Stripped(a, options) == Stripped(b, options)
    ensures Join(Split(targets[a])) == targets[a] && targets[a] != ""
  {
    var pa, pb := LogicalParts(sorted, options, a), LogicalParts(sorted, options, b);
    var i :| 0 <= i < |placed| && placed[i].path == PlanPath(pa) && targets[a] == Join(placed[i].target);
    var j :| 0 <= j < |placed| && placed[j].path == PlanPath(pb) && targets[b] == Join(placed[j].target);
    TargetsAreClean(placed, i);
    SplitJoin(placed[i].target);
    JoinIsEmpty(placed[i].target);
    TargetsAreInjective(placed, i, j);
    CollapseKernel(sorted, options, a, b);
    LogicalPartsAreClean(sorted, options, a);
    LogicalPartsAreClean(sorted, options, b);
    JoinInjective(pa, pb);
    PlanPathInjective(pa, pb);
    EmbedsAreApart(placed);
    hide Embeds, Join, Stripped, LogicalParts, FoldEach;
    assert PlanPath(pa) == PlanPath(pb) <==> i == j by {
      if i < j { assert Apart(placed[i], placed[j]); }
      if j < i { assert Apart(placed[j], placed[i]); }
    }
    LogicalIsJoin(sorted, options, a);
    LogicalIsJoin(sorted, options, b);
  }

  lemma PlanPathInjective(a: seq<string>, b: seq<string>)
    requires AllClean(a) && AllClean(b)
    ensures PlanPath(a) == PlanPath(b) <==> a == b
  {
    assert "" in [""] && "" !in a && "" !in b;
  }
}
