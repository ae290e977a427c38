/** What counts as a container folder: duplicate markers, and indifference to case. */
module ContainerNames {
  import opened Text
  import opened FolderCollapse

  // ---- Duplicate markers ----

  function Blanks(n: nat): (s: string)
    ensures |s| == n && forall i :: 0 <= i < n ==> s[i] == ' '
  {
    seq(n, i => ' ')
  }

  /** `s` is a name with a duplicate marker: a base, blanks, and digits in parentheses. */
  ghost predicate IsMarked(s: string, base: string, blanks: nat, digits: string) {
    && s == base + Blanks(blanks) + "(" + digits + ")"
    && base != "" && base[|base| - 1] != ' ' && |s| >= 4
    && forall i :: 0 <= i < |digits| ==> IsDigit(digits[i])
  }

  lemma {:induction false} LastOpenAt(s: string, k: nat)
    requires 0 < k <= |s| && s[k - 1] == '(' && forall i :: k <= i < |s| ==> s[i] != '('
    ensures AfterLastOpen(s) == k
    decreases |s|
  {
    if k < |s| {
      LastOpenAt(s[..|s| - 1], k);
    }
  }

  lemma {:induction false} LastOpenIsLast(s: string)
    ensures forall i :: AfterLastOpen(s) <= i < |s| ==> s[i] != '('
  {
    if s != "" && s[|s| - 1] != '(' {
      LastOpenIsLast(s[..|s| - 1]);
    }
  }

  lemma {:induction false} TrimmedBlanks(base: string, n: nat)
    requires base != "" ==> base[|base| - 1] != ' '
    ensures TrimSpaces(base + Blanks(n)) == base
  {
    var s := base + Blanks(n);
    if n == 0 {
      assert s == base;
    } else {
      assert s[|s| - 1] == ' ' && s[..|s| - 1] == base + Blanks(n - 1);
      TrimmedBlanks(base, n - 1);
    }
  }

  lemma {:induction false} TrimLeavesBlanks(s: string) returns (n: nat)
    ensures s == TrimSpaces(s) + Blanks(n)
    ensures TrimSpaces(s) != "" ==> TrimSpaces(s)[|TrimSpaces(s)| - 1] != ' '
  {
    if s != "" && s[|s| - 1] == ' ' {
      n := TrimLeavesBlanks(s[..|s| - 1]);
      assert s == s[..|s| - 1] + " ";
      assert Blanks(n + 1) == Blanks(n) + " ";
      n := n + 1;
    } else {
      n := 0;
      assert s == s + Blanks(0);
    }
  }

  /** A marked name stands for its base. */
  lemma MarkIsDropped(s: string, base: string, blanks: nat, digits: string)
    requires IsMarked(s, base, blanks, digits)
    ensures WithoutDupSuffix(s) == base
  {
    var k := |base| + blanks + 1;
    assert s[k - 1] == '(' && s[|s| - 1] == ')' && |s| == k + |digits| + 1;
    assert forall i :: k <= i < |s| - 1 ==> s[i] == digits[i - k];
    LastOpenAt(s, k);
    assert s[..k - 1] == base + Blanks(blanks);
    TrimmedBlanks(base, blanks);
  }

  /** And only marked names are changed. */
  lemma OnlyMarksAreDropped(s: string) returns (blanks: nat, digits: string)
    requires WithoutDupSuffix(s) != s
    ensures IsMarked(s, WithoutDupSuffix(s), blanks, digits)
  {
    var k := AfterLastOpen(s);
    blanks := TrimLeavesBlanks(s[..k - 1]);
    digits := s[k..|s| - 1];
    assert s == s[..k - 1] + [s[k - 1]] + s[k..|s| - 1] + [s[|s| - 1]];
  }

  // ---- Case ----

  lemma {:induction false} LastOpenIgnoresCase(a: string, b: string)
    requires Fold(a) == Fold(b)
    ensures AfterLastOpen(a) == AfterLastOpen(b)
  {
    if a != "" {
      var n := |a| - 1;
      SameCharacter(a, b, n);
      FoldPrefix(a, b, n);
      LastOpenIgnoresCase(a[..n], b[..n]);
    }
  }

  /** Characters that are no letters do not change with case. */
  lemma SameCharacter(a: string, b: string, i: nat)
    requires Fold(a) == Fold(b) && i < |a|
    ensures |a| == |b| && (a[i] == b[i] || (IsLetter(a[i]) && IsLetter(b[i])))
  {
    assert Fold(a)[i] == FoldChar(a[i]) && Fold(b)[i] == FoldChar(b[i]) && |Fold(b)| == |b|;
  }

  predicate IsLetter(c: char) { 'a' <= c <= 'z' || 'A' <= c <= 'Z' }

  lemma FoldPrefix(a: string, b: string, n: nat)
    requires Fold(a) == Fold(b) && n <= |a|
    ensures |a| == |b| && Fold(a[..n]) == Fold(b[..n]) && Fold(a[n..]) == Fold(b[n..])
  {
    assert |Fold(b)| == |b|;
    assert Fold(a[..n]) == Fold(a)[..n] && Fold(b[..n]) == Fold(b)[..n];
    assert Fold(a[n..]) == Fold(a)[n..] && Fold(b[n..]) == Fold(b)[n..];
  }

  lemma {:induction false} TrimIgnoresCase(a: string, b: string)
    requires Fold(a) == Fold(b)
    ensures Fold(TrimSpaces(a)) == Fold(TrimSpaces(b)) && |TrimSpaces(a)| == |TrimSpaces(b)|
  {
    assert |Fold(b)| == |b|;
    if a != "" {
      var n := |a| - 1;
      SameCharacter(a, b, n);
      FoldPrefix(a, b, n);
      TrimIgnoresCase(a[..n], b[..n]);
    }
  }

  lemma SuffixIgnoresCase(a: string, b: string)
    requires Fold(a) == Fold(b)
    ensures Fold(WithoutDupSuffix(a)) == Fold(WithoutDupSuffix(b))
  {
    assert |Fold(b)| == |b|;
    LastOpenIgnoresCase(a, b);
    forall i | 0 <= i < |a| ensures a[i] == b[i] || (IsLetter(a[i]) && IsLetter(b[i])) {
      SameCharacter(a, b, i);
    }
    var k := AfterLastOpen(a);
    if k > 0 {
      FoldPrefix(a, b, k - 1);
      TrimIgnoresCase(a[..k - 1], b[..k - 1]);
    }
    hide Fold, TrimSpaces, AfterLastOpen;
  }

  lemma {:induction false} CountsIgnoreCase(a: string, b: string)
    requires Fold(a) == Fold(b)
    ensures CountDigits(a) == CountDigits(b) && CountDashes(a) == CountDashes(b)
  {
    assert |Fold(b)| == |b|;
    if a != "" {
      SameCharacter(a, b, 0);
      FoldPrefix(a, b, 1);
      CountsIgnoreCase(a[1..], b[1..]);
    }
  }

  /** Whether a folder is a container does not depend on case. */
  lemma ContainersIgnoreCase(a: string, b: string, options: CollapseOptions)
    requires Fold(a) == Fold(b)
    ensures IsContainerSegment(a, options) == IsContainerSegment(b, options)
  {
    assert |Fold(b)| == |b|;
    SuffixIgnoresCase(a, b);
    CountsIgnoreCase(a, b);
    forall i | 0 <= i < |a| ensures a[i] == b[i] || (IsLetter(a[i]) && IsLetter(b[i])) {
      SameCharacter(a, b, i);
    }
    hide Fold, WithoutDupSuffix, CountDigits, CountDashes, MatchesPattern;
  }

  lemma FoldEachCons(first: string, rest: seq<string>)
    ensures FoldEach([first] + rest) == [Fold(first)] + FoldEach(rest)
  {
    hide Fold;
  }

  lemma {:induction false} StripIgnoresCase(x: seq<string>, y: seq<string>, options: CollapseOptions)
    requires FoldEach(x) == FoldEach(y)
    ensures FoldEach(Strip(x, options)) == FoldEach(Strip(y, options))
  {
    hide Fold, FoldEach, IsContainerSegment;
    assert |FoldEach(x)| == |x| && |FoldEach(y)| == |y|;
    if x != [] {
      assert x == [x[0]] + x[1..] && y == [y[0]] + y[1..];
      FoldEachCons(x[0], x[1..]);
      FoldEachCons(y[0], y[1..]);
      assert FoldEach(x)[0] == FoldEach(y)[0] && FoldEach(x)[1..] == FoldEach(y)[1..];
      ContainersIgnoreCase(x[0], y[0], options);
      StripIgnoresCase(x[1..], y[1..], options);
      FoldEachCons(x[0], Strip(x[1..], options));
      FoldEachCons(y[0], Strip(y[1..], options));
      assert [] + Strip(x[1..], options) == Strip(x[1..], options);
      assert [] + Strip(y[1..], options) == Strip(y[1..], options);
    }
  }

  /** With case merging, directories whose components differ only in case always share a logical path,
      also where the components include containers. */
  lemma {:induction false} CaseVariantsMerge(sorted: seq<string>, options: CollapseOptions, a: string, b: string)
    requires a in sorted && b in sorted && options.mergeCase && FoldEach(Split(a)) == FoldEach(Split(b))
    ensures Logical(sorted, options, a) == Logical(sorted, options, b)
  {
    StripIgnoresCase(Split(a), Split(b), options);
    CollapseKernel(sorted, options, a, b);
    hide Logical, Strip, FoldEach;
  }
}
