/** Which name each planned folder gets. */
module FolderNaming {
  import opened Text
  import opened PathOrder
  import opened FolderNames
  import opened FolderTrie
  import opened FolderPlan
  import opened FolderPlanner

  // ---- The name of a folder among its siblings ----

  lemma SameTargets(p: seq<string>, q: seq<string>)
    requires p != [] && q != [] && Init(p) == Init(q) && Fold(Last(p)) == Fold(Last(q))
    ensures FoldEach(p) == FoldEach(q)
  {
    assert p == Init(p) + [Last(p)] && q == Init(q) + [Last(q)];
    hide Fold;
  }

  lemma SiblingTargets(placed: seq<Placed>, p: Placed, q: Placed)
    requires Embeds(placed) && p in placed && q in placed && Earlier(q, p)
    ensures p.target != [] && q.target != [] && Init(p.target) == Init(q.target)
  {
    hide NoLater, FoldEach, Fits, DisplayName;
    var i :| 0 <= i < |placed| && placed[i] == p;
    var j :| 0 <= j < |placed| && placed[j] == q;
    FitsHasTarget(p);
    FitsHasTarget(q);
    if |p.path| > 1 {
      assert IsPlaced(placed, Init(p.path), Init(p.target));
      assert IsPlaced(placed, Init(q.path), Init(q.target)) by { assert |placed[j].path| > 1; }
    }
  }

  lemma DifferentTargets(placed: seq<Placed>, p: Placed, q: Placed)
    requires Embeds(placed) && p in placed && q in placed && p.path != q.path
    ensures FoldEach(p.target) != FoldEach(q.target)
  {
    hide Fits, FoldEach;
    var i :| 0 <= i < |placed| && placed[i] == p;
    var j :| 0 <= j < |placed| && placed[j] == q;
    assert i < j || j < i;
  }

  lemma NameIsFree(placed: seq<Placed>, p: Placed)
    requires Embeds(placed) && p in placed && p.target != []
    ensures !TakenBefore(placed, p, Last(p.target))
  {
    hide NoLater, DisplayName, Fits, FoldEach, Fold;
    if TakenBefore(placed, p, Last(p.target)) {
      var q :| q in placed && Earlier(q, p) && Fold(Last(q.target)) == Fold(Last(p.target));
      SiblingTargets(placed, p, q);
      SameTargets(p.target, q.target);
      DifferentTargets(placed, p, q);
    }
  }

  /** The name of every folder is the first of the names tried for its source that, up to case, no earlier
      sibling has. */
  lemma NameIsFirstFree(placed: seq<Placed>, p: Placed, k: nat)
    requires Embeds(placed) && InTurn(placed) && p in placed
    ensures var base := BaseName(Last(p.path));
      Last(p.target) == Candidate(base, k) <==>
      !TakenBefore(placed, p, Candidate(base, k)) && forall j: nat :: j < k ==> TakenBefore(placed, p, Candidate(base, j))
  {
    hide Embeds, TakenBefore, BaseName;
    assert NamedInTurn(placed, p);
    var m: nat :| NamedAt(placed, p, m);
    var base := BaseName(Last(p.path));
    NameIsFree(placed, p);
    if k < m { CandidatesDiffer(base, k, m); }
    if m < k { CandidatesDiffer(base, m, k); }
    hide Candidate, Fold;
  }

  /** A folder keeps the name of its source, normalized, unless an earlier sibling has that name. */
  lemma KeepsBaseExactly(placed: seq<Placed>, p: Placed)
    requires Embeds(placed) && InTurn(placed) && p in placed
    ensures var base := BaseName(Last(p.path)); Last(p.target) == base <==> !TakenBefore(placed, p, base)
  {
    NameIsFirstFree(placed, p, 0);
  }

  predicate Suffixed(name: string) {
    name != "" && name[|name| - 1] == ')'
  }

  ghost predicate HasRival(placed: seq<Placed>, p: Placed) {
    exists q :: q in placed && Earlier(q, p) && Fold(BaseName(Last(q.path))) == Fold(BaseName(Last(p.path)))
  }

  lemma EarlierIsTransitive(r: Placed, q: Placed, p: Placed)
    requires Earlier(r, q) && Earlier(q, p) && r.path != p.path
    ensures Earlier(r, p)
  {
    NoLaterIsTransitive(DisplayName(Last(r.path)), DisplayName(Last(q.path)), DisplayName(Last(p.path)));
    hide NoLater, DisplayName;
  }

  lemma EarlierByPath(r: Placed, q: Placed, p: Placed)
    requires Earlier(r, q) && p.path == r.path && p.target != []
    ensures Earlier(p, q)
  {
    hide NoLater, DisplayName;
  }

  lemma NoLaterIsTransitive(a: string, b: string, c: string)
    requires NoLater(a, b) && NoLater(b, c)
    ensures NoLater(a, c)
  {
    var x, y, z := Node(a, false, []), Node(b, false, []), Node(c, false, []);
    NodeLessEqExactly(x, y);
    NodeLessEqExactly(y, z);
    NodeLessEqExactly(x, z);
    hide NoLater;
    NodeLessEqTransitive(x, y, z);
  }

  /** Where an earlier sibling has the same base name, someone earlier has it as its name: that sibling, or
      the one that kept it from it. */
  lemma RivalTakes(placed: seq<Placed>, p: Placed, q: Placed)
    requires Embeds(placed) && InTurn(placed) && p in placed && q in placed
    requires Earlier(q, p) && !Earlier(p, q) && Fold(BaseName(Last(q.path))) == Fold(BaseName(Last(p.path)))
    ensures TakenBefore(placed, p, BaseName(Last(p.path)))
  {
    hide Embeds, BaseName, Fold, Earlier;
    KeepsBaseExactly(placed, q);
    if TakenBefore(placed, q, BaseName(Last(q.path))) {
      var r :| r in placed && Earlier(r, q) && Fold(Last(r.target)) == Fold(BaseName(Last(q.path)));
      assert NamedInTurn(placed, p);
      if r.path == p.path {
        EarlierByPath(r, q, p);
      } else {
        EarlierIsTransitive(r, q, p);
      }
    }
  }

  lemma SuffixShows(other: string, k: nat, name: string)
    requires k > 0 && Fold(Candidate(other, k)) == Fold(name)
    ensures Suffixed(name)
  {
    FoldedCandidate(other, k);
    assert Fold(name)[|name| - 1] == FoldChar(name[|name| - 1]) == ')';
  }

  lemma OnlyRivalsTake(placed: seq<Placed>, p: Placed)
    requires InTurn(placed) && p.path != [] && TakenBefore(placed, p, BaseName(Last(p.path))) && !Suffixed(BaseName(Last(p.path)))
    ensures HasRival(placed, p)
  {
    var base := BaseName(Last(p.path));
    hide BaseName, Earlier, TakenBefore;
    assert exists q :: q in placed && Earlier(q, p) && Fold(Last(q.target)) == Fold(base) by { assert TakenBefore(placed, p, base); }
    var q :| q in placed && Earlier(q, p) && Fold(Last(q.target)) == Fold(base);
    assert NamedInTurn(placed, q);
    var k: nat :| NamedAt(placed, q, k);
    var other := BaseName(Last(q.path));
    if k > 0 {
      SuffixShows(other, k, base);
    }
  }

  /** Told from the sources alone: a folder whose base name does not end in a parenthesis keeps it if and
      only if no earlier sibling has the same base name up to case. */
  lemma PlainNameKeptExactly(placed: seq<Placed>, p: Placed)
    requires Embeds(placed) && InTurn(placed) && p in placed && p.path != [] && !Suffixed(BaseName(Last(p.path)))
    requires forall q :: q in placed && Earlier(q, p) ==> !Earlier(p, q)
    ensures Last(p.target) == BaseName(Last(p.path)) <==> !HasRival(placed, p)
  {
    KeepsBaseExactly(placed, p);
    hide Embeds, InTurn, BaseName, Fold, Earlier, TakenBefore, Suffixed;
    if HasRival(placed, p) {
      var q :| q in placed && Earlier(q, p) && Fold(BaseName(Last(q.path))) == Fold(BaseName(Last(p.path)));
      RivalTakes(placed, p, q);
    } else if TakenBefore(placed, p, BaseName(Last(p.path))) {
      OnlyRivalsTake(placed, p);
    }
  }

  // ---- A name taken by a suffix ----

  const DIRS: seq<string> := ["A", "a", "a (2)"]

  lemma PathsOfDirs(path: seq<string>)
    ensures Needed(DIRS, path) <==> path == ["A"] || path == ["a"] || path == ["a (2)"]
  {
    SplitOfOne("A");
    SplitOfOne("a");
    SplitOfOne("a (2)");
    hide Split;
    assert DIRS[0] in DIRS && DIRS[1] in DIRS && DIRS[2] in DIRS;
    forall d: string | path != [] && path <= [d] ensures path == [d] {
      assert path[0] == [d][0];
    }
  }

  lemma NormalNames()
    ensures BaseName("A") == "A" && BaseName("a") == "a" && BaseName("a (2)") == "a (2)"
  {
    NormalizeFixesNormal("A");
    NormalizeFixesNormal("a");
    NormalizeFixesNormal("a (2)");
    hide NormalizeSegment;
  }

  lemma FoldedNames()
    ensures Fold("A") == "a" && Fold("a") == "a" && Fold("a (2)") == "a (2)" && Fold("a (2) (2)") == "a (2) (2)"
    ensures Candidate("a", 1) == "a (2)" && Candidate("a (2)", 1) == "a (2) (2)"
  {
    assert Decimal(2) == "2";
  }

  lemma OrderOfNames()
    ensures NoLater("A", "a") && !NoLater("a", "A") && NoLater("a", "a (2)") && !NoLater("a (2)", "a")
    ensures NoLater("A", "a (2)") && !NoLater("a (2)", "A")
  {
    FoldedNames();
    assert AheadAt("A", "a", 0) && AheadAt("a", "a (2)", 1);
    assert !Ahead("a", "a");
    assert !Ahead("a", "A");
    assert !Ahead("a (2)", "a");
  }

  ghost predicate Three(placed: seq<Placed>, x: Placed, y: Placed, z: Placed) {
    && x.path == ["A"] && y.path == ["a"] && z.path == ["a (2)"] && x in placed && y in placed && z in placed
    && |x.target| == |y.target| == |z.target| == 1
    && forall q :: q in placed ==> q == x || q == y || q == z
  }

  lemma FolderOf(placed: seq<Placed>, dir: string) returns (p: Placed)
    requires Embeds(placed) && Needed(DIRS, [dir]) && forall p :: HasPlaced(placed, p) <==> Needed(DIRS, p)
    ensures p in placed && p.path == [dir] && |p.target| == 1
  {
    hide Needed;
    assert HasPlaced(placed, [dir]);
    var i :| 0 <= i < |placed| && placed[i].path == [dir];
    p := placed[i];
    FitsHasTarget(p);
  }

  lemma OneForEachPath(placed: seq<Placed>, p: Placed, q: Placed)
    requires Embeds(placed) && p in placed && q in placed && p.path == q.path
    ensures p == q
  {
    hide Fits, FoldEach;
    var i :| 0 <= i < |placed| && placed[i] == p;
    var j :| 0 <= j < |placed| && placed[j] == q;
    assert !(i < j) && !(j < i);
  }

  lemma ThreeFolders(placed: seq<Placed>) returns (x: Placed, y: Placed, z: Placed)
    requires Embeds(placed) && forall p :: HasPlaced(placed, p) <==> Needed(DIRS, p)
    ensures Three(placed, x, y, z)
  {
    hide Embeds, Needed;
    PathsOfDirs(["A"]);
    PathsOfDirs(["a"]);
    PathsOfDirs(["a (2)"]);
    x := FolderOf(placed, "A");
    y := FolderOf(placed, "a");
    z := FolderOf(placed, "a (2)");
    forall q | q in placed ensures q == x || q == y || q == z {
      PathsOfDirs(q.path);
      assert HasPlaced(placed, q.path);
      if q.path == ["A"] {
        OneForEachPath(placed, q, x);
      } else if q.path == ["a"] {
        OneForEachPath(placed, q, y);
      } else {
        OneForEachPath(placed, q, z);
      }
    }
  }

  lemma EarlierOnes(placed: seq<Placed>, x: Placed, y: Placed, z: Placed)
    requires Three(placed, x, y, z)
    ensures forall q :: q in placed ==> !Earlier(q, x) && (Earlier(q, y) <==> q == x) && (Earlier(q, z) <==> q == x || q == y)
  {
    OrderOfNames();
    hide NoLater;
    assert Init(x.path) == [] && Init(y.path) == [] && Init(z.path) == [];
    assert x.path[0] != y.path[0] && y.path[0] != z.path[0] && x.path[0] != z.path[0];
  }

  lemma NamesOfThree(placed: seq<Placed>, x: Placed, y: Placed, z: Placed)
    requires Three(placed, x, y, z) && Embeds(placed) && InTurn(placed)
    ensures Last(x.target) == "A" && Last(y.target) == "a (2)" && Last(z.target) == "a (2) (2)"
  {
    hide Embeds, InTurn, Earlier, Fold, Candidate, BaseName;
    EarlierOnes(placed, x, y, z);
    NormalNames();
    FoldedNames();
    assert Last(x.path) == "A" && Last(y.path) == "a" && Last(z.path) == "a (2)";
    KeepsBaseExactly(placed, x);
    assert Last(x.target) == "A";
    CandidateZero("a");
    NameIsFirstFree(placed, y, 1);
    assert Last(y.target) == "a (2)";
    CandidateZero("a (2)");
    NameIsFirstFree(placed, z, 1);
  }

  lemma CandidateZero(base: string)
    ensures Candidate(base, 0) == base
  {
  }

  /** No base name folds to "a (2)" but that of "a (2)" itself, and yet it is not kept: the folder of "a" has
      it already. */
  lemma SuffixedNameIsTaken(placed: seq<Placed>)
    requires Embeds(placed) && InTurn(placed) && forall p :: HasPlaced(placed, p) <==> Needed(["A", "a", "a (2)"], p)
    ensures IsPlaced(placed, ["A"], ["A"]) && IsPlaced(placed, ["a"], ["a (2)"])
    ensures IsPlaced(placed, ["a (2)"], ["a (2) (2)"])
  {
    hide Embeds, InTurn, Needed;
    var x, y, z := ThreeFolders(placed);
    NamesOfThree(placed, x, y, z);
    assert x.target == ["A"] && y.target == ["a (2)"] && z.target == ["a (2) (2)"];
    var i, j, k :| 0 <= i < |placed| && 0 <= j < |placed| && 0 <= k < |placed| && placed[i] == x && placed[j] == y && placed[k] == z;
  }
}
