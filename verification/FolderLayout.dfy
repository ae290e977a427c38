/** The text of the collapse options that a resumed job must repeat. */
module FolderLayout {
  import opened Text
  import opened PathOrder
  import opened FolderCollapse

  const EXTRA: string := ";extra="

  function ExtrasText(extras: seq<string>): string {
    if extras == [] then "" else EXTRA + extras[0] + ExtrasText(extras[1..])
  }

  /** The layout of sorted, lowered extra patterns. */
  function LayoutText(options: CollapseOptions, extras: seq<string>): string {
    (if options.builtin then "builtin=1" else "builtin=0") + (if options.mergeCase then ";case=1" else ";case=0")
      + ExtrasText(extras)
  }

  ghost predicate AreExtras(extras: seq<string>, options: CollapseOptions) {
    IsSorted(extras) && multiset(extras) == multiset(FoldEach(options.extraPatterns))
  }

  lemma ExtrasStep(extras: seq<string>, k: nat)
    requires k < |extras|
    ensures ExtrasText(extras[k..]) == EXTRA + extras[k] + ExtrasText(extras[k + 1..])
  {
    assert extras[k..][1..] == extras[k + 1..];
  }

  method DescribeCollapseOptions(options: CollapseOptions) returns (out: string)
    ensures exists extras :: AreExtras(extras, options) && out == LayoutText(options, extras)
  {
    hide Fold;
    var flags := if options.builtin then "builtin=1" else "builtin=0";
    flags := flags + if options.mergeCase then ";case=1" else ";case=0";
    var lowered: seq<string> := [];
    for k := 0 to |options.extraPatterns|
      invariant lowered == FoldEach(options.extraPatterns)[..k]
    {
      lowered := lowered + [Fold(options.extraPatterns[k])];
    }
    assert lowered == FoldEach(options.extraPatterns);
    var sorted := SortPaths(lowered);
    out := flags;
    assert sorted[0..] == sorted;
    for k := 0 to |sorted|
      invariant out + ExtrasText(sorted[k..]) == flags + ExtrasText(sorted)
    {
      ExtrasStep(sorted, k);
      assert out + (EXTRA + sorted[k] + ExtrasText(sorted[k + 1..])) == out + (EXTRA + sorted[k]) + ExtrasText(sorted[k + 1..]);
      out := out + (EXTRA + sorted[k]);
    }
    assert out + ExtrasText(sorted[|sorted|..]) == out;
    assert AreExtras(sorted, options) && out == LayoutText(options, sorted);
  }

  lemma LayoutSpelled(x: string, y: string)
    ensures LayoutText(CollapseOptions(true, [], false), [x, y]) == "builtin=1;case=0;extra=" + x + ";extra=" + y
    ensures LayoutText(CollapseOptions(false, [], true), []) == "builtin=0;case=1"
  {
    assert [x, y][1..] == [y] && [y][1..] == [];
    assert ExtrasText([y]) == EXTRA + y + "";
    assert ExtrasText([x, y]) == EXTRA + x + ExtrasText([y]);
  }

  // ---- What the text decides ----

  lemma FirstsAgree(a: seq<string>, b: seq<string>)
    requires IsSorted(a) && IsSorted(b) && multiset(a) == multiset(b) && a != [] && b != []
    ensures a[0] == b[0]
  {
    hide LessEq;
    assert a[0] in multiset(b) && b[0] in multiset(a);
    var i :| 0 <= i < |b| && b[i] == a[0];
    var j :| 0 <= j < |a| && a[j] == b[0];
    assert LessEq(b[0], b[i]) && LessEq(a[0], a[j]);
    LessEqAntisymmetric(a[0], b[0]);
  }

  lemma {:induction false} SortedIsUnique(a: seq<string>, b: seq<string>)
    requires IsSorted(a) && IsSorted(b) && multiset(a) == multiset(b)
    ensures a == b
    decreases |a|
  {
    hide LessEq;
    assert |multiset(a)| == |a| && |multiset(b)| == |b|;
    if a != [] {
      FirstsAgree(a, b);
      assert a == [a[0]] + a[1..] && b == [b[0]] + b[1..];
      assert multiset(a[1..]) == multiset(a) - multiset{a[0]} && multiset(b[1..]) == multiset(b) - multiset{b[0]};
      SortedIsUnique(a[1..], b[1..]);
    }
  }

  /** The mark that starts an extra pattern in the text, found inside a text. */
  predicate MarkAt(p: string, i: nat) {
    i + 7 <= |p| && p[i..i + 7] == EXTRA
  }

  ghost predicate MarkFree(p: string) {
    forall i: nat :: !MarkAt(p, i)
  }

  ghost predicate AllMarkFree(patterns: seq<string>) {
    forall i :: 0 <= i < |patterns| ==> MarkFree(patterns[i])
  }

  /** Without marks inside the patterns their list can be read back. */
  lemma {:induction false} ExtrasInjective(a: seq<string>, b: seq<string>)
    requires AllMarkFree(a) && AllMarkFree(b) && ExtrasText(a) == ExtrasText(b)
    ensures a == b
    decreases |a|
  {
    hide MarkFree;
    if a != [] && b != [] {
      var x, y := ExtrasText(a[1..]), ExtrasText(b[1..]);
      assert a[0] + x == ExtrasText(a)[7..] && b[0] + y == ExtrasText(b)[7..];
      NextExtra(a[1..]);
      NextExtra(b[1..]);
      if |a[0]| < |b[0]| {
        MarkInside(a[0], x, b[0], y);
      } else if |b[0]| < |a[0]| {
        MarkInside(b[0], y, a[0], x);
      } else {
        assert (a[0] + x)[..|a[0]|] == a[0] && (b[0] + y)[..|b[0]|] == b[0];
        assert (a[0] + x)[|a[0]|..] == x && (b[0] + y)[|b[0]|..] == y;
      }
      ExtrasInjective(a[1..], b[1..]);
      assert a == [a[0]] + a[1..] && b == [b[0]] + b[1..];
    }
  }

  lemma {:induction false} NextExtra(extras: seq<string>)
    ensures ExtrasText(extras) != "" ==> MarkAt(ExtrasText(extras), 0)
  {
  }

  /** Where the shorter of two patterns ends, the longer one has a mark: a mark cannot overlap itself. */
  lemma MarkInside(p: string, x: string, q: string, y: string)
    requires p + x == q + y && |p| < |q| && MarkAt(x, 0) && (y != "" ==> MarkAt(y, 0))
    ensures !MarkFree(q)
  {
    var t := p + x;
    assert t[|p|..|p| + 7] == x[..7];
    assert forall k :: 0 < k < 7 ==> x[..7][k] != ';' && t[|p| + k] == x[k];
    assert y != "" ==> y[..7][0] == ';' && t[|q|] == y[0];
    assert |q| >= |p| + 7;
    assert q[|p|..|p| + 7] == t[|p|..|p| + 7];
    assert MarkAt(q, |p|);
  }

  lemma ExtrasAreFree(extras: seq<string>, options: CollapseOptions)
    requires AreExtras(extras, options)
    ensures AllMarkFree(extras) <==> AllMarkFree(FoldEach(options.extraPatterns))
  {
    hide FoldEach, IsSorted, MarkFree;
    FreeByMembers(extras);
    FreeByMembers(FoldEach(options.extraPatterns));
    assert forall x :: x in multiset(extras) <==> x in multiset(FoldEach(options.extraPatterns));
  }

  lemma FreeByMembers(patterns: seq<string>)
    ensures AllMarkFree(patterns) <==> forall p :: p in multiset(patterns) ==> MarkFree(p)
  {
    hide MarkFree;
    assert forall i :: 0 <= i < |patterns| ==> patterns[i] in multiset(patterns);
  }

  ghost predicate SameOptions(a: CollapseOptions, b: CollapseOptions) {
    && a.builtin == b.builtin && a.mergeCase == b.mergeCase
    && multiset(FoldEach(a.extraPatterns)) == multiset(FoldEach(b.extraPatterns))
  }

  lemma {:induction false} LayoutParts(a: CollapseOptions, x: seq<string>, b: CollapseOptions, y: seq<string>)
    ensures LayoutText(a, x) == LayoutText(b, y)
      <==> a.builtin == b.builtin && a.mergeCase == b.mergeCase && ExtrasText(x) == ExtrasText(y)
  {
    hide ExtrasText;
    var s, t := LayoutText(a, x), LayoutText(b, y);
    assert s[8] == (if a.builtin then '1' else '0') && s[15] == (if a.mergeCase then '1' else '0');
    assert t[8] == (if b.builtin then '1' else '0') && t[15] == (if b.mergeCase then '1' else '0');
    assert ExtrasText(x) == s[16..] && ExtrasText(y) == t[16..];
  }

  /** Options whose patterns contain no mark have one layout text exactly when they are the same up to
      the order and the case of the patterns. */
  lemma LayoutDecides(a: CollapseOptions, x: seq<string>, b: CollapseOptions, y: seq<string>)
    requires AreExtras(x, a) && AreExtras(y, b) && AllMarkFree(FoldEach(b.extraPatterns))
    ensures LayoutText(a, x) == LayoutText(b, y) && AllMarkFree(FoldEach(a.extraPatterns)) <==> SameOptions(a, b)
  {
    hide ExtrasText, FoldEach, AllMarkFree, IsSorted;
    ExtrasAreFree(x, a);
    ExtrasAreFree(y, b);
    LayoutParts(a, x, b, y);
    if LayoutText(a, x) == LayoutText(b, y) && AllMarkFree(FoldEach(a.extraPatterns)) {
      ExtrasInjective(x, y);
    }
    if SameOptions(a, b) {
      SortedIsUnique(x, y);
      FoldedAlikeIsFree(a, b);
    }
  }

  lemma FoldedAlikeIsFree(a: CollapseOptions, b: CollapseOptions)
    requires SameOptions(a, b)
    ensures AllMarkFree(FoldEach(a.extraPatterns)) <==> AllMarkFree(FoldEach(b.extraPatterns))
  {
    hide FoldEach, AllMarkFree;
    FreeByMembers(FoldEach(a.extraPatterns));
    FreeByMembers(FoldEach(b.extraPatterns));
  }

  /** Some other options have the same layout text. */
  ghost predicate SharesLayout(a: CollapseOptions, x: seq<string>) {
    exists b, y :: AreExtras(y, b) && LayoutText(a, x) == LayoutText(b, y) && !SameOptions(a, b)
  }

  /** A text that can be cut at a mark into two patterns in order. */
  ghost predicate CutsInOrder(p: string) {
    exists i: nat :: MarkAt(p, i) && LessEq(p[..i], p[i + 7..])
  }

  predicate Lowered(p: string) {
    Fold(p) == p
  }

  lemma ExtrasAreLowered(extras: seq<string>, options: CollapseOptions)
    requires AreExtras(extras, options)
    ensures forall p :: p in extras ==> Lowered(p)
  {
    hide IsSorted;
    var folded := FoldEach(options.extraPatterns);
    forall p | p in extras ensures Lowered(p) {
      assert p in multiset(folded);
      var i :| 0 <= i < |folded| && folded[i] == p;
      assert p == Fold(options.extraPatterns[i]);
      assert Fold(p) == p;
    }
  }

  lemma {:induction false} TextIsLowered(extras: seq<string>)
    requires forall p :: p in extras ==> Lowered(p)
    ensures Lowered(ExtrasText(extras))
  {
    if extras != [] {
      assert extras[0] in extras && forall p :: p in extras[1..] ==> p in extras;
      TextIsLowered(extras[1..]);
      assert Fold(EXTRA) == EXTRA;
      FoldConcat(EXTRA, extras[0]);
      FoldConcat(EXTRA + extras[0], ExtrasText(extras[1..]));
    }
  }

  lemma PartIsLowered(p: string, i: nat, j: nat)
    requires Lowered(p) && i <= j <= |p|
    ensures Lowered(p[i..j])
  {
    forall k | i <= k < j ensures FoldChar(p[k]) == p[k] {
      assert Fold(p)[k] == p[k];
    }
  }

  lemma OneText(p: string)
    ensures ExtrasText([p]) == EXTRA + p
  {
    assert [p][1..] == [] && ExtrasText([]) == "";
  }

  lemma TwoTexts(p: string, q: string)
    ensures ExtrasText([p, q]) == EXTRA + p + (EXTRA + q)
  {
    assert [p, q][1..] == [q];
    OneText(q);
  }

  /** Lowered, sorted patterns with the text of others belong to other options. */
  lemma {:induction false} SharesWith(a: CollapseOptions, x: seq<string>, y: seq<string>)
    requires AreExtras(x, a) && IsSorted(y) && |y| != |x| && ExtrasText(y) == ExtrasText(x)
    requires forall p :: p in y ==> Lowered(p)
    ensures SharesLayout(a, x)
  {
    hide IsSorted, Fold, ExtrasText;
    var b := a.(extraPatterns := y);
    forall i | 0 <= i < |y| ensures FoldEach(y)[i] == y[i] {
      assert Lowered(y[i]);
    }
    assert FoldEach(y) == y;
    assert |multiset(FoldEach(a.extraPatterns))| == |x| && |multiset(y)| == |y|;
    LayoutParts(a, x, b, y);
    assert AreExtras(y, b) && !SameOptions(a, b);
  }

  lemma ManyCanBeOne(a: CollapseOptions, x: seq<string>)
    requires AreExtras(x, a) && |x| >= 2
    ensures SharesLayout(a, x)
  {
    hide AreExtras, Lowered;
    var t := ExtrasText(x);
    var joined := t[7..];
    assert t == EXTRA + joined;
    OneText(joined);
    ExtrasAreLowered(x, a);
    TextIsLowered(x);
    PartIsLowered(t, 7, |t|);
    assert t[7..|t|] == joined;
    LessEqTotal(joined, joined);
    SharesWith(a, x, [joined]);
  }

  lemma OneCanBeTwo(a: CollapseOptions, x: seq<string>, i: nat)
    requires AreExtras(x, a) && |x| == 1 && MarkAt(x[0], i) && LessEq(x[0][..i], x[0][i + 7..])
    ensures SharesLayout(a, x)
  {
    hide AreExtras, Lowered, LessEq;
    var p := x[0];
    assert x == [p] && p in x;
    var u, v := p[..i], p[i + 7..];
    assert p == u + EXTRA + v;
    OneText(p);
    TwoTexts(u, v);
    assert EXTRA + p == EXTRA + u + (EXTRA + v);
    ExtrasAreLowered(x, a);
    PartIsLowered(p, 0, i);
    PartIsLowered(p, i + 7, |p|);
    assert p[0..i] == u && p[i + 7..|p|] == v;
    LessEqTotal(u, u);
    LessEqTotal(v, v);
    SharesWith(a, x, [u, v]);
  }

  lemma {:induction false} PrefixIsLess(p: string, q: string)
    ensures LessEq(p, p + q)
  {
    if p != "" {
      assert (p + q)[1..] == p[1..] + q;
      PrefixIsLess(p[1..], q);
    }
  }

  lemma SharedIsCut(a: CollapseOptions, x: seq<string>, b: CollapseOptions, y: seq<string>)
    requires AreExtras(x, a) && AreExtras(y, b) && LayoutText(a, x) == LayoutText(b, y) && !SameOptions(a, b)
    ensures |x| >= 2 || (|x| == 1 && CutsInOrder(x[0]))
  {
    hide LessEq, FoldEach;
    LayoutParts(a, x, b, y);
    assert x != y;
    assert x == [] ==> ExtrasText(y) == "";
    if |x| == 1 {
      assert x == [x[0]];
      var p := x[0];
      OneText(p);
      assert y != [];
      var u, rest := y[0], ExtrasText(y[1..]);
      assert p == ExtrasText(x)[7..] == u + rest;
      assert [u][1..] == [] && ExtrasText([]) == "" && u + "" == u;
      assert y == [u] ==> p == u;
      assert |y| == 1 ==> y == [u];
      assert |y| >= 2;
      var v, more := y[1], ExtrasText(y[1..][1..]);
      assert rest == EXTRA + v + more;
      assert p == u + EXTRA + (v + more);
      assert p[..|u|] == u && p[|u|..|u| + 7] == EXTRA && p[|u| + 7..] == v + more;
      assert LessEq(u, v);
      PrefixIsLess(v, more);
      LessEqTransitive(u, v, v + more);
      assert MarkAt(p, |u|);
    }
  }

  /** Exactly when a layout text does not tell its options: two or more patterns could be a single one
      with marks inside, and a single one could be several if at some mark in it the sides are in order. */
  lemma LayoutIsSharedExactly(a: CollapseOptions, x: seq<string>)
    requires AreExtras(x, a)
    ensures SharesLayout(a, x) <==> |x| >= 2 || (|x| == 1 && CutsInOrder(x[0]))
  {
    hide AreExtras, SameOptions, LayoutText, LessEq;
    if SharesLayout(a, x) {
      var b, y :| AreExtras(y, b) && LayoutText(a, x) == LayoutText(b, y) && !SameOptions(a, b);
      SharedIsCut(a, x, b, y);
    }
    if |x| >= 2 {
      ManyCanBeOne(a, x);
    } else if |x| == 1 && CutsInOrder(x[0]) {
      var i: nat :| MarkAt(x[0], i) && LessEq(x[0][..i], x[0][i + 7..]);
      OneCanBeTwo(a, x, i);
    }
  }

  /** The same options have the same containers. */
  lemma SameOptionsCollapseAlike(a: CollapseOptions, b: CollapseOptions, segment: string)
    requires SameOptions(a, b)
    ensures IsContainerSegment(segment, a) == IsContainerSegment(segment, b)
  {
    var lower := Fold(WithoutDupSuffix(segment));
    SomePattern(a, b, lower);
    SomePattern(b, a, lower);
    hide Fold, FoldEach, MatchesPattern, WithoutDupSuffix;
  }

  lemma SomePattern(a: CollapseOptions, b: CollapseOptions, lower: string)
    requires multiset(FoldEach(a.extraPatterns)) == multiset(FoldEach(b.extraPatterns))
    ensures (exists i :: 0 <= i < |a.extraPatterns| && MatchesPattern(lower, Fold(a.extraPatterns[i])))
      ==> exists i :: 0 <= i < |b.extraPatterns| && MatchesPattern(lower, Fold(b.extraPatterns[i]))
  {
    hide Fold, MatchesPattern;
    var x, y := FoldEach(a.extraPatterns), FoldEach(b.extraPatterns);
    if exists i :: 0 <= i < |a.extraPatterns| && MatchesPattern(lower, Fold(a.extraPatterns[i])) {
      var i :| 0 <= i < |a.extraPatterns| && MatchesPattern(lower, Fold(a.extraPatterns[i]));
      assert x[i] == Fold(a.extraPatterns[i]) && x[i] in multiset(x);
      assert x[i] in multiset(y);
      var j :| 0 <= j < |y| && y[j] == x[i];
      assert y[j] == Fold(b.extraPatterns[j]);
    }
  }

  lemma {:induction false} SameOptionsStripAlike(a: CollapseOptions, b: CollapseOptions, segments: seq<string>)
    requires SameOptions(a, b)
    ensures Strip(segments, a) == Strip(segments, b)
  {
    hide IsContainerSegment, SameOptions;
    if segments != [] {
      SameOptionsCollapseAlike(a, b, segments[0]);
      SameOptionsStripAlike(a, b, segments[1..]);
    }
  }

  /** So equal layouts mean equal plans: every directory has the same logical path. */
  lemma SameOptionsPlanAlike(a: CollapseOptions, b: CollapseOptions, sorted: seq<string>, dir: string)
    requires SameOptions(a, b)
    ensures Logical(sorted, a, dir) == Logical(sorted, b, dir)
  {
    hide Strip, Merged, FoldEach, IsContainerSegment;
    SameOptionsStripAlike(a, b, Split(dir));
    forall i | 0 <= i < |sorted| ensures Stripped(sorted[i], a) == Stripped(sorted[i], b) {
      SameOptionsStripAlike(a, b, Split(sorted[i]));
    }
    assert StrippedAll(sorted, a) == StrippedAll(sorted, b);
  }

  /** With the mark in a pattern, different options can have one layout: a resumed job would accept
      other containers than it was created with. */
  lemma MarkIsAmbiguous()
    ensures exists a, x, b, y, segment ::
      && AreExtras(x, a) && AreExtras(y, b) && LayoutText(a, x) == LayoutText(b, y)
      && IsContainerSegment(segment, a) != IsContainerSegment(segment, b)
  {
    var a, b := CollapseOptions(false, [JOINT], false), CollapseOptions(false, ["a", "b"], false);
    hide LessEq, Fold, FoldEach, IsContainerSegment, ExtrasText;
    SmallExtras(a, b);
    assert ExtrasText([JOINT]) == ExtrasText(["a", "b"]) by { SmallTexts(); }
    SmallContainers(a, b);
    assert LayoutText(a, [JOINT]) == LayoutText(b, ["a", "b"]);
  }

  const JOINT: string := "a;extra=b"

  lemma SmallFolds()
    ensures Fold(JOINT) == JOINT && Fold("a") == "a" && Fold("b") == "b"
  {
  }

  lemma SmallExtras(a: CollapseOptions, b: CollapseOptions)
    requires a.extraPatterns == [JOINT] && b.extraPatterns == ["a", "b"]
    ensures AreExtras([JOINT], a) && AreExtras(["a", "b"], b)
  {
    SmallFolds();
    LessEqTotal(JOINT, JOINT);
    assert LessEq("a", "b") && LessEq("a", "a") && LessEq("b", "b");
    hide Fold, LessEq;
    assert FoldEach([JOINT]) == [JOINT] && FoldEach(["a", "b"]) == ["a", "b"];
  }

  lemma SmallTexts()
    ensures ExtrasText([JOINT]) == ExtrasText(["a", "b"])
  {
    assert [JOINT][1..] == [] && ["a", "b"][1..] == ["b"] && ["b"][1..] == [];
    assert ExtrasText(["b"]) == EXTRA + "b" + "";
    assert ExtrasText(["a", "b"]) == EXTRA + "a" + (EXTRA + "b" + "");
    assert ExtrasText([JOINT]) == EXTRA + JOINT + "";
    assert "a" + (EXTRA + "b" + "") == JOINT + "";
  }

  lemma SmallContainers(a: CollapseOptions, b: CollapseOptions)
    requires a.extraPatterns == [JOINT] && b.extraPatterns == ["a", "b"] && !a.builtin
    ensures !IsContainerSegment("a", a) && IsContainerSegment("a", b)
  {
    SmallFolds();
    hide Fold;
    assert WithoutDupSuffix("a") == "a";
    assert MatchesPattern("a", Fold(b.extraPatterns[0]));
  }
}
