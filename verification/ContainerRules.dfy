/** Which folders are containers, and whose spelling they get. */
module ContainerRules {
  import opened Wrappers
  import opened Text
  import opened FolderCollapse
  import opened ContainerNames

  /** A name with a duplicate marker stands for its base, any other for itself. */
  ghost predicate StandsFor(s: string, base: string) {
    if exists b, n: nat, d :: IsMarked(s, b, n, d) then exists n: nat, d :: IsMarked(s, base, n, d) else base == s
  }

  lemma StandsForExactly(s: string, base: string)
    ensures StandsFor(s, base) <==> base == WithoutDupSuffix(s)
  {
    if WithoutDupSuffix(s) != s {
      var n, d := OnlyMarksAreDropped(s);
      assert IsMarked(s, WithoutDupSuffix(s), n, d);
    }
    forall b, n: nat, d | IsMarked(s, b, n, d) ensures WithoutDupSuffix(s) == b {
      MarkIsDropped(s, b, n, d);
    }
    hide WithoutDupSuffix, IsMarked;
  }

  function Places(s: string, p: char -> bool): set<int> {
    set i | 0 <= i < |s| && p(s[i])
  }

  lemma PlacesSnoc(s: string, p: char -> bool)
    requires s != ""
    ensures var n := |s| - 1; |Places(s, p)| == |Places(s[..n], p)| + if p(s[n]) then 1 else 0
  {
    var n := |s| - 1;
    var before, after := Places(s[..n], p), Places(s, p);
    assert forall i :: i in before ==> i in after;
    assert forall i :: i in after && i != n ==> i in before;
    assert n in after <==> p(s[n]);
    assert n !in before;
    hide Places;
    assert after == before + if n in after then {n} else {};
  }

  lemma {:induction false} CountsSnoc(s: string)
    requires s != ""
    ensures var n := |s| - 1;
      && CountDigits(s) == CountDigits(s[..n]) + (if IsDigit(s[n]) then 1 else 0)
      && CountDashes(s) == CountDashes(s[..n]) + (if s[n] == '-' then 1 else 0)
  {
    if |s| > 1 {
      CountsSnoc(s[1..]);
      assert s[..|s| - 1][1..] == s[1..][..|s| - 2];
    }
  }

  lemma {:induction false} CountsArePlaces(s: string)
    ensures CountDigits(s) == |Places(s, c => '0' <= c <= '9')| && CountDashes(s) == |Places(s, c => c == '-')|
  {
    if s == "" {
      assert Places(s, c => '0' <= c <= '9') == {} && Places(s, c => c == '-') == {};
    } else {
      CountsSnoc(s);
      CountsArePlaces(s[..|s| - 1]);
      PlacesSnoc(s, c => '0' <= c <= '9');
      PlacesSnoc(s, c => c == '-');
    }
  }

  /** At least two dashes and six digits, and else only letters and blanks. */
  predicate NamesARecovery(s: string) {
    && (forall c :: c in s ==> c == '-' || c == ' ' || '0' <= c <= '9' || 'a' <= c <= 'z' || 'A' <= c <= 'Z')
    && |Places(s, c => c == '-')| >= 2 && |Places(s, c => '0' <= c <= '9')| >= 6
  }

  lemma RecoveryExactly(s: string)
    ensures IsRecoveryTimestamp(s) <==> NamesARecovery(s)
  {
    CountsArePlaces(s);
    hide CountDigits, CountDashes, Places;
    assert forall i :: 0 <= i < |s| ==> s[i] in s;
  }

  /** A star at the end stands for anything, also for nothing; case does not matter. */
  predicate FitsPattern(name: string, pattern: string) {
    if pattern != "" && pattern[|pattern| - 1] == '*' then Fold(pattern[..|pattern| - 1]) <= Fold(name)
    else Fold(name) == Fold(pattern)
  }

  lemma PatternExactly(name: string, pattern: string)
    ensures MatchesPattern(Fold(name), Fold(pattern)) <==> FitsPattern(name, pattern)
  {
    if pattern != "" {
      var n := |pattern| - 1;
      assert Fold(pattern)[n] == FoldChar(pattern[n]) && Fold(pattern)[..n] == Fold(pattern[..n]);
    }
  }

  const CONTAINERS: set<string> := {
    "storage folders", "imported folder", "recovered items",
    "\U{05E4}\U{05E8}\U{05D9}\U{05D8}\U{05D9}\U{05DD} \U{05DE}\U{05E9}\U{05D5}\U{05D7}\U{05D6}\U{05E8}\U{05D9}\U{05DD}",
    "\U{05EA}\U{05D9}\U{05E7}\U{05D9}\U{05D5}\U{05EA} \U{05D0}\U{05D7}\U{05E1}\U{05D5}\U{05DF}",
    "\U{05EA}\U{05D9}\U{05E7}\U{05D9}\U{05D5}\U{05EA} \U{05DE}\U{05E7}\U{05D5}\U{05DE}\U{05D9}\U{05D5}\U{05EA}"}

  lemma BuiltinExactly(name: string)
    ensures name in BUILTIN_CONTAINERS <==> name in CONTAINERS
  {
  }

  /** A folder is a container if and only if the name it stands for is one of six, up to case, or it names a
      recovery itself, where the built-in rules are on; or the name it stands for fits an extra pattern. */
  lemma ContainersExactly(segment: string, base: string, options: CollapseOptions)
    requires StandsFor(segment, base)
    ensures IsContainerSegment(segment, options) <==>
      || (options.builtin && (Fold(base) in CONTAINERS || NamesARecovery(segment)))
      || exists pattern :: pattern in options.extraPatterns && FitsPattern(base, pattern)
  {
    StandsForExactly(segment, base);
    BuiltinExactly(Fold(base));
    RecoveryExactly(segment);
    hide StandsFor, WithoutDupSuffix, IsRecoveryTimestamp, NamesARecovery, Fold, MatchesPattern, FitsPattern;
    forall i | 0 <= i < |options.extraPatterns|
      ensures MatchesPattern(Fold(base), Fold(options.extraPatterns[i])) <==> FitsPattern(base, options.extraPatterns[i])
    {
      PatternExactly(base, options.extraPatterns[i]);
    }
  }

  // ---- Spelling ----

  ghost predicate Leads(sorted: seq<string>, options: CollapseOptions, i: int, prefix: seq<string>) {
    && 0 <= i < |sorted| && StartsFolded(Stripped(sorted[i], options), prefix)
    && forall k :: 0 <= k < i ==> !StartsFolded(Stripped(sorted[k], options), prefix)
  }

  lemma {:induction false} SpellingIsFirst(lists: seq<seq<string>>, prefix: seq<string>, i: int)
    requires prefix != [] && 0 <= i < |lists| && StartsFolded(lists[i], prefix)
    requires forall k :: 0 <= k < i ==> !StartsFolded(lists[k], prefix)
    ensures Spelling(lists, prefix) == Some(lists[i][|prefix| - 1])
  {
    if i > 0 { SpellingIsFirst(lists[1..], prefix, i - 1); }
  }

  lemma {:induction false} FirstOf(sorted: seq<string>, options: CollapseOptions, prefix: seq<string>, n: nat) returns (i: int)
    requires n < |sorted| && StartsFolded(Stripped(sorted[n], options), prefix)
    ensures Leads(sorted, options, i, prefix)
    decreases n
  {
    if k :| 0 <= k < n && StartsFolded(Stripped(sorted[k], options), prefix) {
      i := FirstOf(sorted, options, prefix, k);
    } else {
      i := n;
    }
  }

  lemma MergedComponent(lists: seq<seq<string>>, parts: seq<string>, j: nat, i: int)
    requires j < |parts| && 0 <= i < |lists| && StartsFolded(lists[i], FoldEach(parts)[..j + 1])
    requires forall k :: 0 <= k < i ==> !StartsFolded(lists[k], FoldEach(parts)[..j + 1])
    ensures Merged(lists, parts)[j] == lists[i][j]
  {
    hide StartsFolded, FoldEach, Spelling;
    SpellingIsFirst(lists, FoldEach(parts)[..j + 1], i);
  }

  /** A component of a merged path is spelled as in the first directory, in sorted order, that starts alike up
      to case once its containers are gone; without merging it is the directory's own. */
  lemma SpelledByFirst(sorted: seq<string>, options: CollapseOptions, dir: string, j: nat)
    requires dir in sorted && j < |Stripped(dir, options)|
    ensures |LogicalParts(sorted, options, dir)| == |Stripped(dir, options)|
    ensures var part := LogicalParts(sorted, options, dir)[j];
      if !options.mergeCase then part == Stripped(dir, options)[j]
      else exists i :: Leads(sorted, options, i, FoldEach(Stripped(dir, options))[..j + 1]) && part == Stripped(sorted[i], options)[j]
  {
    hide Stripped, FoldEach, Merged, StartsFolded;
    if options.mergeCase {
      var parts := Stripped(dir, options);
      var n :| 0 <= n < |sorted| && sorted[n] == dir;
      OwnPrefix(parts, j);
      var i := FirstOf(sorted, options, FoldEach(parts)[..j + 1], n);
      MergedComponent(StrippedAll(sorted, options), parts, j, i);
    }
  }
}
