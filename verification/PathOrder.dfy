/** The order of paths by code units, and sorting in it. */
module PathOrder {

  predicate LessEq(a: string, b: string) {
    a == "" || (b != "" && (a[0] < b[0] || (a[0] == b[0] && LessEq(a[1..], b[1..]))))
  }

  lemma {:induction false} LessEqAntisymmetric(a: string, b: string)
    requires LessEq(a, b) && LessEq(b, a)
    ensures a == b
  {
    if a != "" {
      LessEqAntisymmetric(a[1..], b[1..]);
      assert a == [a[0]] + a[1..] && b == [b[0]] + b[1..];
    }
  }

  lemma {:induction false} LessEqTransitive(a: string, b: string, c: string)
    requires LessEq(a, b) && LessEq(b, c)
    ensures LessEq(a, c)
  {
    if a != "" && a[0] == b[0] == c[0] {
      LessEqTransitive(a[1..], b[1..], c[1..]);
    }
  }

  lemma {:induction false} LessEqTotal(a: string, b: string)
    ensures LessEq(a, b) || LessEq(b, a)
  {
    if a != "" && b != "" && a[0] == b[0] {
      LessEqTotal(a[1..], b[1..]);
    }
  }

  /** They agree up to k, where `a` ends or has the smaller character. */
  ghost predicate AheadAt(a: string, b: string, k: nat) {
    k < |b| && k <= |a| && (forall i :: 0 <= i < k ==> a[i] == b[i]) && (k == |a| || a[k] < b[k])
  }

  ghost predicate Ahead(a: string, b: string) {
    exists k: nat :: AheadAt(a, b, k)
  }

  lemma AheadCons(a: string, b: string)
    requires a != "" && b != ""
    ensures Ahead(a, b) <==> a[0] < b[0] || (a[0] == b[0] && Ahead(a[1..], b[1..]))
  {
    if k: nat :| AheadAt(a, b, k) {
      if k > 0 { assert AheadAt(a[1..], b[1..], k - 1); }
    }
    if a[0] < b[0] { assert AheadAt(a, b, 0); }
    if a[0] == b[0] && Ahead(a[1..], b[1..]) {
      var k: nat :| AheadAt(a[1..], b[1..], k);
      assert forall i :: 0 <= i < k ==> a[1..][i] == a[i + 1] && b[1..][i] == b[i + 1];
      assert AheadAt(a, b, k + 1);
    }
  }

  lemma {:induction false} LessEqExactly(a: string, b: string)
    ensures LessEq(a, b) <==> a == b || Ahead(a, b)
  {
    if a == "" || b == "" {
      assert a == "" && b != "" ==> AheadAt(a, b, 0);
    } else {
      hide Ahead;
      AheadCons(a, b);
      LessEqExactly(a[1..], b[1..]);
      assert a == [a[0]] + a[1..] && b == [b[0]] + b[1..];
    }
  }

  ghost predicate IsSorted(s: seq<string>) {
    forall i, j :: 0 <= i <= j < |s| ==> LessEq(s[i], s[j])
  }

  ghost predicate SameElements(a: seq<string>, b: seq<string>) {
    forall x :: x in a <==> x in b
  }

  method SortPaths(paths: seq<string>) returns (sorted: seq<string>)
    ensures IsSorted(sorted) && multiset(sorted) == multiset(paths)
  {
    sorted := [];
    for k := 0 to |paths|
      invariant IsSorted(sorted) && multiset(sorted) == multiset(paths[..k])
    {
      assert paths[..k + 1] == paths[..k] + [paths[k]];
      sorted := InsertSorted(sorted, paths[k]);
    }
    assert paths[..|paths|] == paths;
  }

  method InsertSorted(sorted: seq<string>, path: string) returns (r: seq<string>)
    requires IsSorted(sorted)
    ensures IsSorted(r) && multiset(r) == multiset(sorted) + multiset{path}
  {
    var i := |sorted|;
    while i > 0 && !LessEq(sorted[i - 1], path)
      invariant 0 <= i <= |sorted|
      invariant i < |sorted| ==> LessEq(path, sorted[i])
    {
      LessEqTotal(sorted[i - 1], path);
      i := i - 1;
    }
    assert sorted == sorted[..i] + sorted[i..];
    r := sorted[..i] + [path] + sorted[i..];
    InsertKeepsOrder(sorted, i, path);
  }

  lemma {:induction false} InsertKeepsOrder(s: seq<string>, i: nat, path: string)
    requires IsSorted(s) && i <= |s|
    requires i > 0 ==> LessEq(s[i - 1], path)
    requires i < |s| ==> LessEq(path, s[i])
    ensures IsSorted(s[..i] + [path] + s[i..])
  {
    var r := s[..i] + [path] + s[i..];
    forall a, b | 0 <= a <= b < |r| ensures LessEq(r[a], r[b]) {
      if a < i && b == i { LessEqTransitive(r[a], s[i - 1], path); }
      if a == i && b > i { LessEqTransitive(path, s[i], r[b]); }
      if a == i && b == i { LessEqTotal(path, path); }
    }
  }

  lemma SameMultisetSameElements(a: seq<string>, b: seq<string>)
    requires multiset(a) == multiset(b)
    ensures SameElements(a, b)
  {
    forall x ensures x in a <==> x in b {
      assert x in a <==> x in multiset(a);
      assert x in b <==> x in multiset(b);
    }
  }
}
