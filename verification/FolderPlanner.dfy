/** build_folder_plan: ancestor closure, trie, placement, and the order of the output. */
module FolderPlanner {
  import opened Wrappers
  import opened Text
  import opened PathOrder
  import opened FolderTrie
  import opened FolderPlan

  const TOO_DEEP: string := "source folder path exceeds maximum supported depth"

  /** A path the plan must have: a nonempty prefix of an input directory, or the empty component
      standing for "Root Messages" when the source root has mail. */
  ghost predicate Needed(dirs: seq<string>, path: seq<string>) {
    || (path == [""] && "" in dirs)
    || exists d :: d in dirs && path != [] && path <= Split(d)
  }

  predicate TooDeep(dir: string) {
    |Split(dir)| > MAX_DEPTH_SEGMENTS
  }

  /** The ancestor closure: which directory strings are needed. */
  ghost predicate Closes(needed: set<string>, dirs: seq<string>) {
    && (forall s :: s in needed ==> exists d, k :: d in dirs && IsPrefix(d, k, s))
    && (forall d, k: nat :: d in dirs && 0 < k <= |Split(d)| ==> Join(Split(d)[..k]) in needed)
  }

  ghost predicate IsPrefix(dir: string, k: nat, s: string) {
    0 < k <= |Split(dir)| && s == Join(Split(dir)[..k])
  }

  method CloseOne(dir: string, needed: set<string>) returns (grown: set<string>)
    ensures forall s :: s in grown <==> s in needed || exists k :: IsPrefix(dir, k, s)
  {
    hide Join, Split, AllClean, Clean;
    var comps := SplitSegments(dir);
    SplitIsClean(dir);
    JoinIsEmpty(comps[..0]);
    grown := needed;
    var running := "";
    for k := 0 to |comps|
      invariant running == Join(comps[..k])
      invariant forall s :: s in grown <==> s in needed || exists j: nat :: j <= k && IsPrefix(dir, j, s)
    {
      assert comps[..k + 1] == comps[..k] + [comps[k]];
      JoinSnoc(comps[..k], comps[k]);
      JoinIsEmpty(comps[..k]);
      running := if running == "" then comps[k] else running + [SEP] + comps[k];
      assert IsPrefix(dir, k + 1, running);
      grown := grown + {running};
    }
  }

  method CloseAncestors(dirs: seq<string>) returns (needed: Result<set<string>, string>, hasRoot: bool)
    ensures needed.Err? <==> exists d :: d in dirs && TooDeep(d)
    ensures needed.Ok? ==> hasRoot == ("" in dirs) && Closes(needed.value, dirs)
  {
    var all: set<string> := {};
    hasRoot := false;
    for i := 0 to |dirs|
      invariant forall d :: d in dirs[..i] ==> !TooDeep(d)
      invariant hasRoot == ("" in dirs[..i])
      invariant forall s :: s in all <==> exists d, k :: d in dirs[..i] && IsPrefix(d, k, s)
    {
      assert dirs[..i + 1] == dirs[..i] + [dirs[i]];
      if dirs[i] == "" {
        hasRoot := true;
      } else {
        var comps := SplitSegments(dirs[i]);
        if |comps| > MAX_DEPTH_SEGMENTS {
          assert dirs[i] in dirs && TooDeep(dirs[i]);
          return Err(TOO_DEEP), hasRoot;
        }
        all := CloseOne(dirs[i], all);
      }
    }
    assert dirs[..|dirs|] == dirs;
    forall d, k: nat | d in dirs && 0 < k <= |Split(d)| ensures Join(Split(d)[..k]) in all {
      assert IsPrefix(d, k, Join(Split(d)[..k]));
    }
    needed := Ok(all);
  }

  ghost predicate StartsSome(dirs: set<string>, path: seq<string>) {
    exists s :: s in dirs && path != [] && path <= Split(s)
  }

  lemma ClosedPaths(needed: set<string>, dirs: seq<string>, path: seq<string>)
    requires Closes(needed, dirs)
    ensures StartsSome(needed, path) <==> exists d :: d in dirs && path != [] && path <= Split(d)
  {
    forall s | s in needed && path != [] && path <= Split(s) ensures exists d :: d in dirs && path != [] && path <= Split(d) {
      var d, k: nat :| d in dirs && IsPrefix(d, k, s);
      SplitIsClean(d);
      SplitJoin(Split(d)[..k]);
    }
    forall d | d in dirs && path != [] && path <= Split(d) ensures exists s :: s in needed && path != [] && path <= Split(s) {
      SplitIsClean(d);
      SplitJoin(Split(d)[..|path|]);
      assert Join(Split(d)[..|path|]) in needed;
    }
  }

  lemma {:induction false} StartsOneMore(dirs: set<string>, dir: string, path: seq<string>)
    ensures StartsSome(dirs + {dir}, path) <==> StartsSome(dirs, path) || (path != [] && path <= Split(dir))
  {
  }

  /** The trie over a set of directories, in whatever order they are inserted. */
  method BuildTrie(needed: set<string>) returns (trie: seq<Node>)
    ensures WellFormed(trie) && NoRootMessages(trie)
    ensures forall p :: HasPath(trie, p) <==> StartsSome(needed, p)
  {
    trie := [];
    var todo := needed;
    forall p ensures !HasPath([], p) { NothingBelowNothing(p); }
    while todo != {}
      invariant todo <= needed && WellFormed(trie) && NoRootMessages(trie)
      invariant forall p :: HasPath(trie, p) <==> StartsSome(needed - todo, p)
    {
      hide WellFormed, NoRootMessages, HasPath, Split, StartsSome;
      var dir :| dir in todo;
      var comps := SplitSegments(dir);
      SplitIsClean(dir);
      InsertKeepsForm(trie, comps);
      forall p ensures HasPath(Insert(trie, comps), p) <==> HasPath(trie, p) || (p != [] && p <= comps) {
        InsertAddsPrefixes(trie, comps, p);
      }
      forall p ensures StartsSome(needed - todo + {dir}, p) <==> StartsSome(needed - todo, p) || (p != [] && p <= comps) {
        StartsOneMore(needed - todo, dir, p);
      }
      assert needed - (todo - {dir}) == needed - todo + {dir};
      trie := Insert(trie, comps);
      todo := todo - {dir};
    }
  }

  const ROOT_NODE: Node := Node(ROOT_MESSAGES, true, [])

  lemma {:induction false} WithRootNode(trie: seq<Node>)
    requires WellFormed(trie) && NoRootMessages(trie)
    ensures WellFormed(trie + [ROOT_NODE])
    ensures forall p :: HasPath(trie + [ROOT_NODE], p) <==> HasPath(trie, p) || p == [""]
  {
    forall p ensures HasPath(trie + [ROOT_NODE], p) <==> HasPath(trie, p) || p == [""] {
      if p != [] {
        var k := FindChild(trie, p[0]);
        var all := trie + [ROOT_NODE];
        if k < |trie| {
          assert trie[k] in trie;
          FoundAt(all, p[0], k);
        } else if p[0] == "" {
          FoundAt(all, p[0], |trie|);
          if |p| == 1 { assert p == [""]; } else { NothingBelowNothing(p[1..]); }
        }
      }
    }
  }

  // ---- The order of the output ----

  predicate TargetLessEq(a: seq<string>, b: seq<string>) {
    LessEq(Join(a), Join(b))
  }

  ghost predicate OutputSorted(folders: seq<MappedFolder>) {
    forall i, j :: 0 <= i < j < |folders| ==> TargetLessEq(folders[i].target, folders[j].target)
  }

  ghost predicate Apart(a: Placed, b: Placed) {
    a.path != b.path && FoldEach(a.target) != FoldEach(b.target)
  }

  ghost predicate AllApart(placed: seq<Placed>) {
    forall i, j :: 0 <= i < j < |placed| ==> Apart(placed[i], placed[j])
  }

  lemma InsertFolderOrder(sorted: seq<MappedFolder>, i: nat, f: MappedFolder)
    requires OutputSorted(sorted) && i <= |sorted|
    requires i > 0 ==> TargetLessEq(sorted[i - 1].target, f.target)
    requires i < |sorted| ==> TargetLessEq(f.target, sorted[i].target)
    ensures OutputSorted(sorted[..i] + [f] + sorted[i..])
  {
    var r := sorted[..i] + [f] + sorted[i..];
    hide LessEq, Join;
    forall x, y | 0 <= x < y < |r| ensures TargetLessEq(r[x].target, r[y].target) {
      if y == i && x < i - 1 { LessEqTransitive(Join(r[x].target), Join(sorted[i - 1].target), Join(f.target)); }
      if x == i && y > i + 1 { LessEqTransitive(Join(f.target), Join(sorted[i].target), Join(r[y].target)); }
    }
  }

  lemma InsertApart(placed: seq<Placed>, i: nat, p: Placed)
    requires AllApart(placed) && i <= |placed| && forall x :: x in placed ==> Apart(x, p)
    ensures AllApart(placed[..i] + [p] + placed[i..])
    ensures forall x :: x in placed[..i] + [p] + placed[i..] <==> x in placed || x == p
  {
    hide Apart;
    var r := placed[..i] + [p] + placed[i..];
    assert placed == placed[..i] + placed[i..];
    ApartIsSymmetric();
    forall x, y | 0 <= x < y < |r| ensures Apart(r[x], r[y]) {
      var a, b := if x < i then x else x - 1, if y < i then y else y - 1;
      if x == i {
        assert r[y] == placed[b] && placed[b] in placed;
      } else if y == i {
        assert r[x] == placed[a] && placed[a] in placed;
      } else {
        assert r[x] == placed[a] && r[y] == placed[b];
      }
    }
  }

  lemma ApartIsSymmetric()
    ensures forall a, b :: Apart(a, b) ==> Apart(b, a)
  {
  }

  method SortOutput(folders: seq<MappedFolder>, ghost placed: seq<Placed>) returns (sorted: seq<MappedFolder>,
                    ghost ordered: seq<Placed>)
    requires folders == FoldersOf(placed) && AllApart(placed)
    ensures sorted == FoldersOf(ordered) && OutputSorted(sorted) && AllApart(ordered)
    ensures forall x :: x in ordered <==> x in placed
  {
    sorted, ordered := [], [];
    for k := 0 to |folders|
      invariant sorted == FoldersOf(ordered) && OutputSorted(sorted) && AllApart(ordered)
      invariant forall x :: x in ordered <==> x in placed[..k]
    {
      hide TargetLessEq, Apart;
      assert placed[..k + 1] == placed[..k] + [placed[k]];
      var i := |sorted|;
      while i > 0 && !TargetLessEq(sorted[i - 1].target, folders[k].target)
        invariant 0 <= i <= |sorted| && (i < |sorted| ==> TargetLessEq(folders[k].target, sorted[i].target))
      {
        TargetsCompare(sorted[i - 1].target, folders[k].target);
        i := i - 1;
      }
      InsertFolderOrder(sorted, i, folders[k]);
      ApartFromEarlier(placed, k);
      InsertApart(ordered, i, placed[k]);
      ghost var grown := ordered[..i] + [placed[k]] + ordered[i..];
      assert sorted[..i] + [folders[k]] + sorted[i..] == FoldersOf(grown);
      sorted, ordered := sorted[..i] + [folders[k]] + sorted[i..], grown;
    }
    assert placed[..|placed|] == placed;
  }

  lemma TargetsCompare(a: seq<string>, b: seq<string>)
    ensures TargetLessEq(a, b) || TargetLessEq(b, a)
  {
    LessEqTotal(Join(a), Join(b));
  }

  lemma ApartFromEarlier(placed: seq<Placed>, k: nat)
    requires AllApart(placed) && k < |placed|
    ensures forall x :: x in placed[..k] ==> Apart(x, placed[k])
  {
    hide Apart;
  }

  lemma EmbedsAreApart(placed: seq<Placed>)
    requires Embeds(placed)
    ensures AllApart(placed)
  {
    hide Fits;
  }

  lemma ReorderedEmbeds(placed: seq<Placed>, ordered: seq<Placed>)
    requires Embeds(placed) && AllApart(ordered) && forall x :: x in ordered <==> x in placed
    ensures Embeds(ordered)
    ensures forall p :: HasPlaced(ordered, p) <==> HasPlaced(placed, p)
  {
    assert forall i :: 0 <= i < |placed| ==> placed[i] in ordered;
    assert forall i :: 0 <= i < |ordered| ==> ordered[i] in placed;
    forall i | 0 <= i < |ordered| ensures Fits(ordered[i]) {
      assert ordered[i] in placed;
    }
    hide Fits, FoldEach;
    forall i | 0 <= i < |ordered| && |ordered[i].path| > 1 ensures IsPlaced(ordered, Init(ordered[i].path), Init(ordered[i].target)) {
      var k :| 0 <= k < |placed| && placed[k] == ordered[i];
      var x :| 0 <= x < |placed| && placed[x].path == Init(placed[k].path) && placed[x].target == Init(placed[k].target);
      assert placed[x] in ordered;
    }
  }

  lemma ReorderedInTurn(placed: seq<Placed>, ordered: seq<Placed>)
    requires InTurn(placed) && forall x :: x in ordered <==> x in placed
    ensures InTurn(ordered)
  {
    hide NamedInTurn;
    forall p | p in ordered ensures NamedInTurn(ordered, p) {
      InTurnStays(placed, ordered, p);
    }
  }

  /** The folder plan of a set of directories; its entries by components are `placed`. */
  method BuildFolderPlan(dirs: seq<string>) returns (plan: Result<seq<MappedFolder>, string>, ghost placed: seq<Placed>)
    ensures plan.Err? <==> exists d :: d in dirs && TooDeep(d)
    ensures plan.Ok? ==>
      && plan.value == FoldersOf(placed) && Embeds(placed) && InTurn(placed) && OutputSorted(plan.value)
      && forall p :: HasPlaced(placed, p) <==> Needed(dirs, p)
  {
    placed := [];
    var needed, hasRoot := CloseAncestors(dirs);
    hide InTurn, TooDeep, Closes, HasPath, WellFormed, NoRootMessages, Embeds, FoldersOf, OutputSorted, Split, StartsSome, HasPlaced;
    if needed.Err? {
      return Err(needed.error), [];
    }
    var trie := BuildTrie(needed.value);
    forall p ensures HasPath(trie, p) <==> exists d :: d in dirs && p != [] && p <= Split(d) {
      ClosedPaths(needed.value, dirs, p);
    }
    if hasRoot {
      WithRootNode(trie);
      trie := trie + [ROOT_NODE];
    }
    var folders;
    ghost var unordered;
    folders, unordered := PlaceTrie(trie);
    EmbedsAreApart(unordered);
    var sorted;
    sorted, placed := SortOutput(folders, unordered);
    ReorderedEmbeds(unordered, placed);
    ReorderedInTurn(unordered, placed);
    plan := Ok(sorted);
  }

  // ---- What the plan promises its callers ----

  lemma {:induction false} PrefixIsLess(a: string, b: string)
    requires a <= b
    ensures LessEq(a, b)
  {
    if a != "" { PrefixIsLess(a[1..], b[1..]); }
  }

  lemma ParentTarget(placed: seq<Placed>, i: nat, j: nat)
    requires Embeds(placed) && i < |placed| && j < |placed| && |placed[i].path| > 1
    requires placed[j].path == Init(placed[i].path)
    ensures placed[i].target != [] && placed[j].target == Init(placed[i].target)
  {
    hide Fits, FoldEach;
    FitsHasTarget(placed[i]);
    assert IsPlaced(placed, Init(placed[i].path), Init(placed[i].target));
    var x :| 0 <= x < |placed| && placed[x].path == Init(placed[i].path) && placed[x].target == Init(placed[i].target);
    assert x == j;
  }

  /** A joined path is strictly before its extensions. */
  lemma ExtensionIsAfter(parent: seq<string>, name: string)
    requires AllClean(parent) && parent != [] && Clean(name)
    ensures TargetLessEq(parent, parent + [name]) && !TargetLessEq(parent + [name], parent)
  {
    var child := parent + [name];
    JoinSnoc(parent, name);
    assert AllClean(child);
    hide Join, LessEq, AllClean;
    assert Join(parent) <= Join(child) && |Join(parent)| < |Join(child)|;
    PrefixIsLess(Join(parent), Join(child));
    if LessEq(Join(child), Join(parent)) {
      LessEqAntisymmetric(Join(child), Join(parent));
    }
  }

  lemma BeforeInOutput(placed: seq<Placed>, i: nat, j: nat)
    requires OutputSorted(FoldersOf(placed)) && i < |placed| && j < |placed| && i != j
    requires !TargetLessEq(placed[i].target, placed[j].target)
    ensures j < i
  {
    assert FoldersOf(placed)[i].target == placed[i].target && FoldersOf(placed)[j].target == placed[j].target;
    hide TargetLessEq;
  }

  /** A folder's parent comes before it in the plan, and its target extends its parent's by one name. */
  lemma ParentsComeFirst(placed: seq<Placed>, i: nat, j: nat)
    requires Embeds(placed) && OutputSorted(FoldersOf(placed))
    requires i < |placed| && j < |placed| && |placed[i].path| > 1 && placed[j].path == Init(placed[i].path)
    ensures placed[i].target != [] && placed[i].target == placed[j].target + [Last(placed[i].target)]
    ensures j < i
  {
    hide *;
    ParentTarget(placed, i, j);
    TargetsAreClean(placed, i);
    TargetsAreClean(placed, j);
    InitAndLast(placed[i].target);
    InitAndLast(placed[i].path);
    ExtensionIsAfter(placed[j].target, Last(placed[i].target));
    BeforeInOutput(placed, i, j);
  }

  lemma InitAndLast(parts: seq<string>)
    requires parts != []
    ensures parts == Init(parts) + [Last(parts)] && Init(parts) != parts
    ensures AllClean(parts) ==> Clean(Last(parts))
  {
  }

  lemma TargetsAreClean(placed: seq<Placed>, i: nat)
    requires Embeds(placed) && i < |placed|
    ensures AllClean(placed[i].target) && placed[i].target != []
  {
    assert Fits(placed[i]);
    hide AllClean;
  }

  /** Different sources never share a PST folder, even if folder names ignore ASCII case. */
  lemma TargetsAreInjective(placed: seq<Placed>, i: nat, j: nat)
    requires Embeds(placed) && i < |placed| && j < |placed|
    ensures Fold(Join(placed[i].target)) == Fold(Join(placed[j].target)) <==> i == j
  {
    if i != j {
      EmbedsAreApart(placed);
      assert FoldEach(placed[i].target) != FoldEach(placed[j].target) by {
        if i < j { assert Apart(placed[i], placed[j]); } else { assert Apart(placed[j], placed[i]); }
      }
      TargetsAreClean(placed, i);
      TargetsAreClean(placed, j);
      hide Embeds;
      FoldEachKeepsClean(placed[i].target);
      FoldEachKeepsClean(placed[j].target);
      FoldJoin(placed[i].target);
      FoldJoin(placed[j].target);
      JoinInjective(FoldEach(placed[i].target), FoldEach(placed[j].target));
    }
  }
}
