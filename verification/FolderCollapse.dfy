/** Collapsing Windows Live Mail's container folders and case variants into logical paths: components that
    are containers are dropped, and merged ones take the spelling of the first directory in sorted order. */
module FolderCollapse {
  import opened Wrappers
  import opened Text
  import opened PathOrder

  datatype CollapseOptions = CollapseOptions(builtin: bool, extraPatterns: seq<string>, mergeCase: bool)

  predicate IsDigit(c: char) {
    '0' <= c <= '9'
  }

  predicate IsAlnum(c: char) {
    IsDigit(c) || 'a' <= c <= 'z' || 'A' <= c <= 'Z'
  }

  /** The position after the last '(' of a name, zero when there is none. */
  function AfterLastOpen(s: string): (k: nat)
    ensures k <= |s| && (k > 0 ==> s[k - 1] == '(')
  {
    if s == "" then 0
    else if s[|s| - 1] == '(' then |s|
    else AfterLastOpen(s[..|s| - 1])
  }

  function TrimSpaces(s: string): (t: string)
    ensures t <= s
  {
    if s != "" && s[|s| - 1] == ' ' then TrimSpaces(s[..|s| - 1]) else s
  }

  /** "Inbox (1)" stands for "Inbox". */
  function WithoutDupSuffix(s: string): string {
    if |s| < 4 || s[|s| - 1] != ')' then s
    else
      var k := AfterLastOpen(s);
      if k <= 1 || exists i :: k <= i < |s| - 1 && !IsDigit(s[i]) then s
      else
        var base := TrimSpaces(s[..k - 1]);
        if base == "" then s else base
  }

  const BUILTIN_CONTAINERS: seq<string> := [
    "storage folders",
    "imported folder",
    "recovered items",
    "\U{05E4}\U{05E8}\U{05D9}\U{05D8}\U{05D9}\U{05DD} \U{05DE}\U{05E9}\U{05D5}\U{05D7}\U{05D6}\U{05E8}\U{05D9}\U{05DD}",
    "\U{05EA}\U{05D9}\U{05E7}\U{05D9}\U{05D5}\U{05EA} \U{05D0}\U{05D7}\U{05E1}\U{05D5}\U{05DF}",
    "\U{05EA}\U{05D9}\U{05E7}\U{05D9}\U{05D5}\U{05EA} \U{05DE}\U{05E7}\U{05D5}\U{05DE}\U{05D9}\U{05D5}\U{05EA}"]

  function CountDigits(s: string): nat {
    if s == "" then 0 else (if IsDigit(s[0]) then 1 else 0) + CountDigits(s[1..])
  }

  function CountDashes(s: string): nat {
    if s == "" then 0 else (if s[0] == '-' then 1 else 0) + CountDashes(s[1..])
  }

  predicate IsRecoveryTimestamp(s: string) {
    && (forall i :: 0 <= i < |s| ==> s[i] == '-' || s[i] == ' ' || IsAlnum(s[i]))
    && CountDashes(s) >= 2 && CountDigits(s) >= 6
  }

  predicate MatchesPattern(name: string, pattern: string) {
    if pattern != "" && pattern[|pattern| - 1] == '*' then pattern[..|pattern| - 1] <= name
    else name == pattern
  }

  predicate IsContainerSegment(segment: string, options: CollapseOptions) {
    var lower := Fold(WithoutDupSuffix(segment));
    || (options.builtin && (lower in BUILTIN_CONTAINERS || IsRecoveryTimestamp(segment)))
    || exists i :: 0 <= i < |options.extraPatterns| && MatchesPattern(lower, Fold(options.extraPatterns[i]))
  }

  /** The components of a directory that are not containers. */
  function Strip(segments: seq<string>, options: CollapseOptions): seq<string> {
    if segments == [] then []
    else (if IsContainerSegment(segments[0], options) then [] else [segments[0]]) + Strip(segments[1..], options)
  }

  function Stripped(dir: string, options: CollapseOptions): seq<string> {
    Strip(Split(dir), options)
  }

  /** Does this list of components start, up to case, with the folded components of prefix? */
  predicate StartsFolded(parts: seq<string>, prefix: seq<string>) {
    |prefix| <= |parts| && FoldEach(parts)[..|prefix|] == prefix
  }

  /** The spelling of the last component of a folded prefix: that of the first list that starts with it. */
  function Spelling(lists: seq<seq<string>>, prefix: seq<string>): Option<string>
    requires prefix != []
  {
    if lists == [] then None
    else if StartsFolded(lists[0], prefix) then Some(lists[0][|prefix| - 1])
    else Spelling(lists[1..], prefix)
  }

  /** The merged spelling of a list of components. */
  function Merged(lists: seq<seq<string>>, parts: seq<string>): (kept: seq<string>)
    ensures |kept| == |parts|
  {
    seq(|parts|, j requires 0 <= j < |parts| =>
      var s := Spelling(lists, FoldEach(parts)[..j + 1]);
      if s.Some? then s.value else parts[j])
  }

  function StrippedAll(dirs: seq<string>, options: CollapseOptions): (lists: seq<seq<string>>)
    ensures |lists| == |dirs|
  {
    seq(|dirs|, i requires 0 <= i < |dirs| => Stripped(dirs[i], options))
  }

  /** The components of the logical path of a directory, given all directories in sorted order. */
  function LogicalParts(sorted: seq<string>, options: CollapseOptions, dir: string): seq<string> {
    var parts := Stripped(dir, options);
    if options.mergeCase then Merged(StrippedAll(sorted, options), parts) else parts
  }

  function Logical(sorted: seq<string>, options: CollapseOptions, dir: string): string {
    Join(LogicalParts(sorted, options, dir))
  }

  // ---- What merging identifies ----

  lemma {:induction false} StripIsClean(segments: seq<string>, options: CollapseOptions)
    requires AllClean(segments)
    ensures AllClean(Strip(segments, options))
    ensures forall x :: x in Strip(segments, options) ==> !IsContainerSegment(x, options)
  {
    if segments != [] {
      StripIsClean(segments[1..], options);
      hide IsContainerSegment;
    }
  }

  lemma StrippedIsClean(dir: string, options: CollapseOptions)
    ensures AllClean(Stripped(dir, options))
    ensures forall x :: x in Stripped(dir, options) ==> !IsContainerSegment(x, options)
  {
    SplitIsClean(dir);
    StripIsClean(Split(dir), options);
  }

  /** A spelling, when there is one, is a component of some list and folds like the prefix it is for. */
  lemma {:induction false} SpellingFits(lists: seq<seq<string>>, prefix: seq<string>)
    requires prefix != []
    ensures var s := Spelling(lists, prefix);
      if s.None? then forall l :: l in lists ==> !StartsFolded(l, prefix)
      else Fold(s.value) == prefix[|prefix| - 1] && exists l :: l in lists && s.value in l
  {
    if lists != [] {
      if StartsFolded(lists[0], prefix) {
        assert FoldEach(lists[0])[|prefix| - 1] == prefix[|prefix| - 1];
        assert lists[0] in lists && lists[0][|prefix| - 1] in lists[0];
      } else {
        SpellingFits(lists[1..], prefix);
        assert lists == [lists[0]] + lists[1..];
      }
    }
  }

  lemma MergedFolds(lists: seq<seq<string>>, parts: seq<string>)
    ensures FoldEach(Merged(lists, parts)) == FoldEach(parts)
  {
    forall j | 0 <= j < |parts| ensures Fold(Merged(lists, parts)[j]) == Fold(parts[j]) {
      SpellingFits(lists, FoldEach(parts)[..j + 1]);
    }
  }

  /** Merging sends two of the given lists to the same list exactly when they fold alike. */
  lemma MergedKernel(lists: seq<seq<string>>, a: seq<string>, b: seq<string>)
    requires a in lists && b in lists
    ensures Merged(lists, a) == Merged(lists, b) <==> FoldEach(a) == FoldEach(b)
  {
    MergedFolds(lists, a);
    MergedFolds(lists, b);
    if FoldEach(a) == FoldEach(b) {
      forall j | 0 <= j < |a| ensures Merged(lists, a)[j] == Merged(lists, b)[j] {
        SpellingFits(lists, FoldEach(a)[..j + 1]);
        assert StartsFolded(a, FoldEach(a)[..j + 1]);
      }
    }
  }

  lemma MergedIsClean(lists: seq<seq<string>>, parts: seq<string>)
    requires AllClean(parts)
    ensures AllClean(Merged(lists, parts))
  {
    MergedFolds(lists, parts);
    FoldEachKeepsClean(parts);
    FoldEachKeepsClean(Merged(lists, parts));
  }

  lemma LogicalPartsAreClean(sorted: seq<string>, options: CollapseOptions, dir: string)
    ensures AllClean(LogicalParts(sorted, options, dir))
  {
    StrippedIsClean(dir, options);
    MergedIsClean(StrippedAll(sorted, options), Stripped(dir, options));
  }

  lemma StrippedIn(dirs: seq<string>, options: CollapseOptions, dir: string)
    requires dir in dirs
    ensures Stripped(dir, options) in StrippedAll(dirs, options)
  {
    var i :| 0 <= i < |dirs| && dirs[i] == dir;
    assert StrippedAll(dirs, options)[i] == Stripped(dir, options);
  }

  /** Two directories get the same logical path exactly when their components without the containers
      are equal: up to case when case variants are merged, exactly when they are not. */
  lemma CollapseKernel(sorted: seq<string>, options: CollapseOptions, a: string, b: string)
    requires a in sorted && b in sorted
    ensures Logical(sorted, options, a) == Logical(sorted, options, b) <==>
      if options.mergeCase then FoldEach(Stripped(a, options)) == FoldEach(Stripped(b, options))
      else Stripped(a, options) == Stripped(b, options)
  {
    LogicalPartsAreClean(sorted, options, a);
    LogicalPartsAreClean(sorted, options, b);
    JoinInjective(LogicalParts(sorted, options, a), LogicalParts(sorted, options, b));
    StrippedIn(sorted, options, a);
    StrippedIn(sorted, options, b);
    MergedKernel(StrippedAll(sorted, options), Stripped(a, options), Stripped(b, options));
  }

  /** The first directory, in sorted order, that starts with a folded prefix. */
  lemma {:induction false} SpellingFrom(sorted: seq<string>, options: CollapseOptions, prefix: seq<string>) returns (i: nat)
    requires prefix != [] && Spelling(StrippedAll(sorted, options), prefix).Some?
    ensures i < |sorted| && StartsFolded(Stripped(sorted[i], options), prefix)
    ensures Spelling(StrippedAll(sorted, options), prefix).value == Stripped(sorted[i], options)[|prefix| - 1]
    ensures forall k :: 0 <= k < i ==> !StartsFolded(Stripped(sorted[k], options), prefix)
  {
    if StartsFolded(Stripped(sorted[0], options), prefix) {
      i := 0;
    } else {
      assert StrippedAll(sorted, options)[1..] == StrippedAll(sorted[1..], options);
      i := SpellingFrom(sorted[1..], options, prefix);
      i := i + 1;
    }
  }

  lemma {:induction false} SpellingExists(s: seq<string>, t: seq<string>, options: CollapseOptions, prefix: seq<string>)
    requires SameElements(s, t) && prefix != [] && Spelling(StrippedAll(s, options), prefix).Some?
    ensures Spelling(StrippedAll(t, options), prefix).Some?
  {
    hide StartsFolded, Stripped;
    var i := SpellingFrom(s, options, prefix);
    StrippedIn(t, options, s[i]);
    SpellingFits(StrippedAll(t, options), prefix);
  }

  /** The spelling depends on which directories there are, not on their order or number. */
  lemma {:induction false} SpellingIgnoresOrder(s: seq<string>, t: seq<string>, options: CollapseOptions,
                                                prefix: seq<string>)
    requires IsSorted(s) && IsSorted(t) && SameElements(s, t) && prefix != []
    ensures Spelling(StrippedAll(s, options), prefix) == Spelling(StrippedAll(t, options), prefix)
  {
    hide StartsFolded, Stripped, LessEq, Spelling, StrippedAll;
    if Spelling(StrippedAll(s, options), prefix).Some? {
      SpellingExists(s, t, options, prefix);
      var i := SpellingFrom(s, options, prefix);
      var j := SpellingFrom(t, options, prefix);
      assert s[i] in t && t[j] in s;
      var i' :| 0 <= i' < |s| && s[i'] == t[j];
      var j' :| 0 <= j' < |t| && t[j'] == s[i];
      LessEqAntisymmetric(s[i], t[j]);
    } else if Spelling(StrippedAll(t, options), prefix).Some? {
      SpellingExists(t, s, options, prefix);
    }
  }

  /** The logical path of a directory does not depend on the order of the input. */
  lemma CollapseIgnoresOrder(s: seq<string>, t: seq<string>, options: CollapseOptions, dir: string)
    requires IsSorted(s) && IsSorted(t) && SameElements(s, t)
    ensures Logical(s, options, dir) == Logical(t, options, dir)
  {
    hide Stripped, StrippedAll, Spelling, FoldEach, IsSorted;
    var parts := Stripped(dir, options);
    forall j | 0 <= j < |parts|
      ensures Merged(StrippedAll(s, options), parts)[j] == Merged(StrippedAll(t, options), parts)[j]
    {
      SpellingIgnoresOrder(s, t, options, FoldEach(parts)[..j + 1]);
    }
    assert Merged(StrippedAll(s, options), parts) == Merged(StrippedAll(t, options), parts);
  }

  lemma {:induction false} StripKeepsAll(segments: seq<string>, options: CollapseOptions)
    requires forall x :: x in segments ==> !IsContainerSegment(x, options)
    ensures Strip(segments, options) == segments
  {
    if segments != [] {
      StripKeepsAll(segments[1..], options);
      hide IsContainerSegment;
    }
  }

  lemma MergedHasNoContainer(sorted: seq<string>, options: CollapseOptions, dir: string)
    ensures forall x :: x in LogicalParts(sorted, options, dir) ==> !IsContainerSegment(x, options)
  {
    hide IsContainerSegment, Stripped, StrippedAll, Spelling;
    StrippedIsClean(dir, options);
    AllStrippedAreClean(sorted, options);
    var parts := LogicalParts(sorted, options, dir);
    if options.mergeCase {
      forall x | x in parts ensures !IsContainerSegment(x, options) {
        var j :| 0 <= j < |parts| && parts[j] == x;
        SpellingFits(StrippedAll(sorted, options), FoldEach(Stripped(dir, options))[..j + 1]);
      }
    }
  }

  /** A logical path is its own stripped list. */
  lemma LogicalIsStripped(sorted: seq<string>, options: CollapseOptions, dir: string)
    ensures Stripped(Logical(sorted, options, dir), options) == LogicalParts(sorted, options, dir)
  {
    hide IsContainerSegment, LogicalParts;
    var parts := LogicalParts(sorted, options, dir);
    LogicalPartsAreClean(sorted, options, dir);
    SplitJoin(parts);
    MergedHasNoContainer(sorted, options, dir);
    StripKeepsAll(parts, options);
  }

  lemma AllStrippedAreClean(dirs: seq<string>, options: CollapseOptions)
    ensures forall l, x :: l in StrippedAll(dirs, options) && x in l ==> !IsContainerSegment(x, options)
  {
    forall i | 0 <= i < |dirs|
      ensures forall x :: x in Stripped(dirs[i], options) ==> !IsContainerSegment(x, options)
    {
      StrippedIsClean(dirs[i], options);
    }
  }

  lemma OwnPrefix(parts: seq<string>, j: nat)
    requires j < |parts|
    ensures StartsFolded(parts, FoldEach(parts)[..j + 1])
  {
  }

  /** The outputs of a collapse, in any order. */
  ghost predicate AreOutputs(outputs: seq<string>, sorted: seq<string>, options: CollapseOptions) {
    forall x :: x in outputs <==> exists d :: d in sorted && Logical(sorted, options, d) == x
  }

  /** Collapsing the collapsed paths again changes nothing. */
  lemma CollapseIsIdempotent(sorted: seq<string>, outputs: seq<string>, options: CollapseOptions, dir: string)
    requires dir in sorted && AreOutputs(outputs, sorted, options)
    ensures Logical(outputs, options, Logical(sorted, options, dir)) == Logical(sorted, options, dir)
  {
    hide Stripped, FoldEach, StartsFolded, Spelling, StrippedAll;
    var out := Logical(sorted, options, dir);
    LogicalIsStripped(sorted, options, dir);
    if options.mergeCase {
      var parts := LogicalParts(sorted, options, dir);
      var lists := StrippedAll(outputs, options);
      assert out in outputs;
      StrippedIn(outputs, options, out);
      forall j | 0 <= j < |parts| ensures Merged(lists, parts)[j] == parts[j] {
        MergedFolds(StrippedAll(sorted, options), Stripped(dir, options));
        OwnPrefix(parts, j);
        SpellingFits(lists, FoldEach(parts)[..j + 1]);
        SpellingStable(sorted, outputs, options, dir, j);
      }
      assert Merged(lists, parts) == parts;
    }
  }

  lemma SpellingStable(sorted: seq<string>, outputs: seq<string>, options: CollapseOptions, dir: string, j: nat)
    requires dir in sorted && AreOutputs(outputs, sorted, options) && options.mergeCase
    requires var parts := LogicalParts(sorted, options, dir);
      j < |parts| && Spelling(StrippedAll(outputs, options), FoldEach(parts)[..j + 1]).Some?
    ensures var parts := LogicalParts(sorted, options, dir);
      Spelling(StrippedAll(outputs, options), FoldEach(parts)[..j + 1]).value == parts[j]
  {
    hide Stripped, StrippedAll, Spelling, FoldEach, LogicalParts;
    var parts := LogicalParts(sorted, options, dir);
    var prefix := FoldEach(parts)[..j + 1];
    var i := SpellingFrom(outputs, options, prefix);
    assert outputs[i] in outputs;
    var d :| d in sorted && Logical(sorted, options, d) == outputs[i];
    hide Logical, AreOutputs;
    LogicalIsStripped(sorted, options, d);
    PartAt(sorted, options, d, prefix);
    PartAt(sorted, options, dir, prefix);
  }

  /** The merged component at a prefix is the spelling of that prefix. */
  lemma {:induction false} PartAt(sorted: seq<string>, options: CollapseOptions, dir: string, prefix: seq<string>)
    requires dir in sorted && options.mergeCase && prefix != []
    requires StartsFolded(LogicalParts(sorted, options, dir), prefix)
    ensures Spelling(StrippedAll(sorted, options), prefix) == Some(LogicalParts(sorted, options, dir)[|prefix| - 1])
  {
    hide Stripped, StrippedAll, Spelling, FoldEach;
    var parts := Stripped(dir, options);
    MergedFolds(StrippedAll(sorted, options), parts);
    StrippedIn(sorted, options, dir);
    SpellingFits(StrippedAll(sorted, options), prefix);
  }

  // ---- The loop over the sorted directories ----

  lemma {:induction false} SpellingConcat(a: seq<seq<string>>, b: seq<seq<string>>, prefix: seq<string>)
    requires prefix != []
    ensures Spelling(a + b, prefix) == if Spelling(a, prefix).Some? then Spelling(a, prefix) else Spelling(b, prefix)
  {
    if a == [] {
      assert a + b == b;
    } else {
      assert (a + b)[1..] == a[1..] + b;
      SpellingConcat(a[1..], b, prefix);
    }
  }

  /** The map from folded logical paths to chosen spellings, after some lists. */
  ghost predicate CanonFits(canon: map<string, string>, lists: seq<seq<string>>) {
    forall p: seq<string> {:trigger Spelling(lists, p)} :: p != [] && AllClean(p) ==>
      Spelling(lists, p) == if Join(p) in canon then Some(canon[Join(p)]) else None
  }

  lemma {:induction false} SpellingOfOne(l: seq<string>, p: seq<string>)
    requires p != []
    ensures Spelling([l], p) == if StartsFolded(l, p) then Some(l[|p| - 1]) else None
  {
    assert [l][1..] == [];
  }

  lemma StartsFoldedLonger(l: seq<string>, j: nat, p: seq<string>)
    requires j < |l| && p != []
    ensures StartsFolded(l[..j + 1], p) <==> StartsFolded(l[..j], p) || p == FoldEach(l)[..j + 1]
    ensures StartsFolded(l[..j], p) ==> |p| <= j
  {
    assert FoldEach(l[..j + 1]) == FoldEach(l)[..j + 1];
    assert FoldEach(l[..j]) == FoldEach(l)[..j];
    if |p| <= j {
      assert FoldEach(l[..j + 1])[..|p|] == FoldEach(l[..j])[..|p|];
    }
  }

  /** One more component of a list adds one prefix, unless it is already spelled. */
  lemma CanonStep(canon: map<string, string>, lists: seq<seq<string>>, l: seq<string>, j: nat)
    requires AllClean(l) && j < |l| && CanonFits(canon, lists + [l[..j]])
    ensures var key := Join(FoldEach(l)[..j + 1]);
      CanonFits(if key in canon then canon else canon[key := l[j]], lists + [l[..j + 1]])
  {
    var prefix := FoldEach(l)[..j + 1];
    var key := Join(prefix);
    FoldEachKeepsClean(l);
    var after := if key in canon then canon else canon[key := l[j]];
    forall p: seq<string> | p != [] && AllClean(p)
      ensures Spelling(lists + [l[..j + 1]], p) == if Join(p) in after then Some(after[Join(p)]) else None
    {
      assert Spelling(lists + [l[..j]], p) == if Join(p) in canon then Some(canon[Join(p)]) else None;
      SpellingConcat(lists, [l[..j]], p);
      SpellingConcat(lists, [l[..j + 1]], p);
      SpellingOfOne(l[..j], p);
      SpellingOfOne(l[..j + 1], p);
      StartsFoldedLonger(l, j, p);
      JoinInjective(p, prefix);
    }
  }

  /** Spellings once chosen are kept. */
  lemma MergedGrows(lists: seq<seq<string>>, more: seq<seq<string>>, l: seq<string>)
    requires l in lists
    ensures Merged(lists + more, l) == Merged(lists, l)
  {
    forall j | 0 <= j < |l| ensures Merged(lists + more, l)[j] == Merged(lists, l)[j] {
      SpellingConcat(lists, more, FoldEach(l)[..j + 1]);
      assert StartsFolded(l, FoldEach(l)[..j + 1]);
      SpellingFits(lists, FoldEach(l)[..j + 1]);
    }
  }

  lemma MergedStep(lists: seq<seq<string>>, l: seq<string>, j: nat)
    requires j < |l|
    ensures Merged(lists + [l[..j + 1]], l[..j + 1])[..j] == Merged(lists + [l[..j]], l[..j])
  {
    forall i | 0 <= i < j
      ensures Merged(lists + [l[..j + 1]], l[..j + 1])[i] == Merged(lists + [l[..j]], l[..j])[i]
    {
      assert FoldEach(l[..j + 1])[..i + 1] == FoldEach(l[..j])[..i + 1];
      var p := FoldEach(l[..j])[..i + 1];
      SpellingConcat(lists, [l[..j]], p);
      SpellingConcat(lists, [l[..j + 1]], p);
      SpellingOfOne(l[..j], p);
      SpellingOfOne(l[..j + 1], p);
      StartsFoldedLonger(l, j, p);
    }
  }

  /** The key the loop looks up is the join of the folded prefix. */
  lemma KeyOfPrefix(lists: seq<seq<string>>, l: seq<string>, j: nat)
    requires j < |l|
    ensures Fold(Join(Merged(lists + [l[..j]], l[..j]) + [l[j]])) == Join(FoldEach(l)[..j + 1])
  {
    var kept := Merged(lists + [l[..j]], l[..j]);
    MergedFolds(lists + [l[..j]], l[..j]);
    FoldJoin(kept + [l[j]]);
    assert FoldEach(kept + [l[j]]) == FoldEach(kept) + [Fold(l[j])];
    assert FoldEach(l)[..j + 1] == FoldEach(l[..j]) + [Fold(l[j])];
  }

  /** Spells one directory, remembering the spellings it is the first to use. */
  method SpellParts(parts: seq<string>, canon: map<string, string>, ghost lists: seq<seq<string>>)
    returns (kept: seq<string>, grown: map<string, string>)
    requires AllClean(parts) && CanonFits(canon, lists)
    ensures kept == Merged(lists + [parts], parts) && CanonFits(grown, lists + [parts])
  {
    kept, grown := [], canon;
    EmptyListSpellsNothing(lists, canon);
    var j := 0;
    while j < |parts|
      invariant 0 <= j <= |parts| && kept == Merged(lists + [parts[..j]], parts[..j])
      invariant CanonFits(grown, lists + [parts[..j]])
    {
      hide CanonFits, Merged, FoldEach, AllClean;
      KeyOfPrefix(lists, parts, j);
      CanonStep(grown, lists, parts, j);
      ghost var after := lists + [parts[..j + 1]];
      var key := Fold(Join(kept + [parts[j]]));
      var name := parts[j];
      if key in grown {
        name := grown[key];
      } else {
        grown := grown[key := name];
      }
      NextPart(grown, lists, parts, j);
      kept := kept + [name];
      j := j + 1;
    }
    assert parts[..|parts|] == parts;
  }

  lemma EmptyListSpellsNothing(lists: seq<seq<string>>, canon: map<string, string>)
    requires CanonFits(canon, lists)
    ensures CanonFits(canon, lists + [[]])
  {
    forall p: seq<string> | p != [] && AllClean(p)
      ensures Spelling(lists + [[]], p) == if Join(p) in canon then Some(canon[Join(p)]) else None
    {
      SpellingConcat(lists, [[]], p);
      SpellingOfOne([], p);
      assert Spelling(lists, p) == if Join(p) in canon then Some(canon[Join(p)]) else None;
    }
  }

  lemma NextPart(canon: map<string, string>, lists: seq<seq<string>>, l: seq<string>, j: nat)
    requires AllClean(l) && j < |l| && CanonFits(canon, lists + [l[..j + 1]])
    ensures var key := Join(FoldEach(l)[..j + 1]);
      key in canon
      && Merged(lists + [l[..j + 1]], l[..j + 1]) == Merged(lists + [l[..j]], l[..j]) + [canon[key]]
  {
    var prefix := FoldEach(l)[..j + 1];
    var after := lists + [l[..j + 1]];
    FoldEachKeepsClean(l);
    MergedStep(lists, l, j);
    StartsFoldedLonger(l, j, prefix);
    SpellingConcat(lists, [l[..j + 1]], prefix);
    SpellingOfOne(l[..j + 1], prefix);
    assert Spelling(after, prefix) == if Join(prefix) in canon then Some(canon[Join(prefix)]) else None;
    assert FoldEach(l[..j + 1])[..j + 1] == prefix;
  }

  lemma {:induction false} StripStep(segments: seq<string>, i: nat, options: CollapseOptions)
    requires i < |segments|
    ensures Strip(segments[i..], options)
      == (if IsContainerSegment(segments[i], options) then [] else [segments[i]]) + Strip(segments[i + 1..], options)
  {
    assert segments[i..][1..] == segments[i + 1..];
    hide IsContainerSegment;
  }

  /** The components of a directory that are not containers, in a loop over its segments. */
  method StripDir(dir: string, options: CollapseOptions) returns (parts: seq<string>)
    ensures parts == Stripped(dir, options) && AllClean(parts)
  {
    var segments := SplitSegments(dir);
    StrippedIsClean(dir, options);
    hide IsContainerSegment, Strip, Split, AllClean;
    parts := [];
    assert segments[0..] == segments;
    for i := 0 to |segments|
      invariant parts + Strip(segments[i..], options) == Strip(segments, options)
    {
      StripStep(segments, i, options);
      if !IsContainerSegment(segments[i], options) {
        parts := parts + [segments[i]];
      }
    }
    StripOfNothing(options);
    assert segments[|segments|..] == [];
  }

  lemma {:induction false} StripOfNothing(options: CollapseOptions)
    ensures Strip([], options) == []
  {
  }

  /** The result for the directories processed so far. */
  ghost predicate ResultFits(result: map<string, string>, sorted: seq<string>, k: nat, options: CollapseOptions)
    requires k <= |sorted|
  {
    && (forall d :: d in result <==> d in sorted[..k])
    && forall d :: d in result ==> result[d] == Logical(sorted[..k], options, d)
  }

  lemma LogicalGrows(sorted: seq<string>, k: nat, options: CollapseOptions, d: string)
    requires k < |sorted| && d in sorted[..k]
    ensures Logical(sorted[..k + 1], options, d) == Logical(sorted[..k], options, d)
  {
    assert sorted[..k + 1] == sorted[..k] + [sorted[k]];
    assert StrippedAll(sorted[..k + 1], options) == StrippedAll(sorted[..k], options) + [Stripped(sorted[k], options)];
    StrippedIn(sorted[..k], options, d);
    MergedGrows(StrippedAll(sorted[..k], options), [Stripped(sorted[k], options)], Stripped(d, options));
  }

  lemma ResultGrows(result: map<string, string>, sorted: seq<string>, k: nat, options: CollapseOptions)
    requires k < |sorted| && ResultFits(result, sorted, k, options)
    ensures var value := Logical(sorted[..k + 1], options, sorted[k]);
      ResultFits(if sorted[k] in result then result else result[sorted[k] := value], sorted, k + 1, options)
  {
    hide Logical;
    assert sorted[..k + 1] == sorted[..k] + [sorted[k]];
    var value := Logical(sorted[..k + 1], options, sorted[k]);
    var after := if sorted[k] in result then result else result[sorted[k] := value];
    forall d | d in after ensures after[d] == Logical(sorted[..k + 1], options, d) {
      if d in result { LogicalGrows(sorted, k, options, d); }
    }
  }

  /** Maps every directory to its logical path. The paths depend on the directories only, as a set. */
  method BuildCollapseMap(dirs: seq<string>, options: CollapseOptions) returns (result: map<string, string>,
                          ghost sorted: seq<string>)
    ensures IsSorted(sorted) && SameElements(sorted, dirs)
    ensures forall d :: d in result <==> d in dirs
    ensures forall d :: d in dirs ==> result[d] == Logical(sorted, options, d)
  {
    var order := SortPaths(dirs);
    sorted := order;
    SameMultisetSameElements(order, dirs);
    var canonical: map<string, string> := map[];
    result := map[];
    EmptyCanonFits(options);
    for k := 0 to |order|
      invariant ResultFits(result, order, k, options)
      invariant options.mergeCase ==> CanonFits(canonical, StrippedAll(order[..k], options))
    {
      hide CanonFits, Stripped, Merged, ResultFits, IsSorted;
      var parts := StripDir(order[k], options);
      var kept := parts;
      ghost var lists := StrippedAll(order[..k], options);
      assert StrippedAll(order[..k + 1], options) == lists + [parts];
      if options.mergeCase {
        kept, canonical := SpellParts(parts, canonical, lists);
      }
      assert kept == LogicalParts(order[..k + 1], options, order[k]);
      LogicalPartsAreClean(order[..k + 1], options, order[k]);
      var logical := JoinSegments(kept);
      ResultGrows(result, order, k, options);
      if order[k] !in result {
        result := result[order[k] := logical];
      }
    }
    assert order[..|order|] == order;
  }

  lemma EmptyCanonFits(options: CollapseOptions)
    ensures CanonFits(map[], StrippedAll([], options))
  {
  }
}
