/** Backslash-separated paths and ASCII case folding. */
module Text {

  const SEP: char := '\\'

  predicate Clean(name: string) {
    name != "" && SEP !in name
  }

  predicate AllClean(parts: seq<string>) {
    forall i :: 0 <= i < |parts| ==> Clean(parts[i])
  }

  /** The position of the first separator, or the length when there is none. */
  function Find(s: string): (e: nat)
    ensures e <= |s| && SEP !in s[..e] && (e < |s| ==> s[e] == SEP)
  {
    if s == "" || s[0] == SEP then 0
    else
      assert s[..1 + Find(s[1..])] == [s[0]] + s[1..][..Find(s[1..])];
      1 + Find(s[1..])
  }

  /** The nonempty components of a path. */
  function Split(s: string): seq<string> {
    var e := Find(s);
    (if e > 0 then [s[..e]] else []) + (if e < |s| then Split(s[e + 1..]) else [])
  }

  function Join(parts: seq<string>): string {
    if parts == [] then ""
    else if |parts| == 1 then parts[0]
    else parts[0] + [SEP] + Join(parts[1..])
  }

  function FoldChar(c: char): (f: char)
    ensures f == SEP <==> c == SEP
  {
    if 'A' <= c <= 'Z' then ((c as int) + 32) as char else c
  }

  function Fold(s: string): (f: string)
    ensures |f| == |s|
  {
    seq(|s|, i requires 0 <= i < |s| => FoldChar(s[i]))
  }

  function FoldEach(parts: seq<string>): (f: seq<string>)
    ensures |f| == |parts|
  {
    seq(|parts|, i requires 0 <= i < |parts| => Fold(parts[i]))
  }

  lemma {:induction false} FindIn(s: string, e: nat)
    requires e <= |s| && SEP !in s[..e] && (e < |s| ==> s[e] == SEP)
    ensures Find(s) == e
  {
    var f := Find(s);
    assert forall i :: 0 <= i < e ==> s[..e][i] != SEP;
    assert forall i :: 0 <= i < f ==> s[..f][i] != SEP;
  }

  lemma {:induction false} SplitIsClean(s: string)
    ensures AllClean(Split(s))
    decreases |s|
  {
    var e := Find(s);
    if e < |s| { SplitIsClean(s[e + 1..]); }
  }

  lemma {:induction false} SplitJoin(parts: seq<string>)
    requires AllClean(parts)
    ensures Split(Join(parts)) == parts
  {
    if parts == [] {
    } else if |parts| == 1 {
      assert parts[0][..|parts[0]|] == parts[0];
      FindIn(parts[0], |parts[0]|);
    } else {
      var s := Join(parts);
      var e := |parts[0]|;
      assert s[..e] == parts[0] && s[e] == SEP && s[e + 1..] == Join(parts[1..]);
      FindIn(s, e);
      SplitJoin(parts[1..]);
      assert parts == [parts[0]] + parts[1..];
    }
  }

  /** The component before the first separator, and what is behind it. */
  lemma {:induction false} SplitFirst(front: string, rest: string)
    requires SEP !in front
    ensures Split(front + [SEP] + rest) == (if front == "" then [] else [front]) + Split(rest)
  {
    var s := front + [SEP] + rest;
    assert s[..|front|] == front && s[|front|] == SEP && s[|front| + 1..] == rest;
    FindIn(s, |front|);
  }

  /** A separator splits a path in two. */
  lemma {:induction false} SplitAtSeparator(a: string, b: string)
    ensures Split(a + [SEP] + b) == Split(a) + Split(b)
    decreases |a|
  {
    hide Split;
    var e := Find(a);
    var front := a[..e];
    if e < |a| {
      var rest := a[e + 1..];
      assert a == front + [SEP] + rest;
      assert a + [SEP] + b == front + [SEP] + (rest + [SEP] + b);
      SplitFirst(front, rest);
      SplitFirst(front, rest + [SEP] + b);
      SplitAtSeparator(rest, b);
    } else {
      assert front == a;
      SplitFirst(a, b);
      SplitOfOne(a);
    }
  }

  /** A path without a separator is its only component; an empty one has none. */
  lemma {:induction false} SplitOfOne(name: string)
    requires SEP !in name
    ensures Split(name) == if name == "" then [] else [name]
  {
    FindIn(name, |name|);
    assert name[..|name|] == name;
  }

  lemma {:induction false} JoinInjective(a: seq<string>, b: seq<string>)
    requires AllClean(a) && AllClean(b)
    ensures Join(a) == Join(b) <==> a == b
  {
    SplitJoin(a);
    SplitJoin(b);
  }

  lemma {:induction false} JoinSnoc(parts: seq<string>, last: string)
    ensures Join(parts + [last]) == if parts == [] then last else Join(parts) + [SEP] + last
  {
    if parts == [] {
      assert parts + [last] == [last];
    } else if |parts| == 1 {
      assert (parts + [last])[1..] == [last];
    } else {
      assert (parts + [last])[1..] == parts[1..] + [last];
      JoinSnoc(parts[1..], last);
    }
  }

  lemma {:induction false} JoinIsEmpty(parts: seq<string>)
    requires AllClean(parts)
    ensures Join(parts) == "" <==> parts == []
  {
  }

  lemma FoldConcat(a: string, b: string)
    ensures Fold(a + b) == Fold(a) + Fold(b)
  {
  }

  lemma FoldKeepsClean(s: string)
    ensures Clean(Fold(s)) <==> Clean(s)
  {
    if SEP in s {
      var i :| 0 <= i < |s| && s[i] == SEP;
      assert Fold(s)[i] == SEP;
    }
  }

  lemma FoldEachKeepsClean(parts: seq<string>)
    ensures AllClean(FoldEach(parts)) <==> AllClean(parts)
  {
    forall i | 0 <= i < |parts| ensures Clean(FoldEach(parts)[i]) <==> Clean(parts[i]) {
      FoldKeepsClean(parts[i]);
    }
    assert forall i :: 0 <= i < |parts| ==> FoldEach(parts)[i] == Fold(parts[i]);
  }

  lemma {:induction false} FoldJoin(parts: seq<string>)
    ensures Fold(Join(parts)) == Join(FoldEach(parts))
  {
    if |parts| > 1 {
      FoldJoin(parts[1..]);
      FoldConcat(parts[0] + [SEP], Join(parts[1..]));
      FoldConcat(parts[0], [SEP]);
      assert Fold([SEP]) == [SEP];
      assert FoldEach(parts)[1..] == FoldEach(parts[1..]);
    }
  }

  /** What is left to split from a position that may be one past the end. */
  function SplitRest(path: string, start: nat): seq<string> {
    if start <= |path| then Split(path[start..]) else []
  }

  lemma SplitStep(path: string, start: nat, end: nat)
    requires start <= end <= |path| && SEP !in path[start..end] && (end < |path| ==> path[end] == SEP)
    ensures SplitRest(path, start) == (if end > start then [path[start..end]] else [])
                                  + SplitRest(path, end + 1)
  {
    var t := path[start..];
    assert t[..end - start] == path[start..end];
    FindIn(t, end - start);
    if end < |path| { assert t[end - start + 1..] == path[end + 1..]; }
    hide Find;
  }

  /** std::wstring::find of the separator, with "not found" read as the end of the path. */
  method FindFrom(path: string, start: nat) returns (end: nat)
    requires start <= |path|
    ensures start <= end <= |path| && SEP !in path[start..end] && (end < |path| ==> path[end] == SEP)
  {
    end := start;
    while end < |path| && path[end] != SEP
      invariant start <= end <= |path| && SEP !in path[start..end]
    {
      end := end + 1;
    }
  }

  lemma {:induction false} SplitRestEnds(path: string)
    ensures SplitRest(path, 0) == Split(path) && SplitRest(path, |path| + 1) == []
  {
    assert path[0..] == path;
  }

  /** The splitting loop shared by the pipeline, the planner and the collapser. */
  method SplitSegments(path: string) returns (segments: seq<string>)
    ensures segments == Split(path)
  {
    hide Split, SplitRest;
    segments := [];
    var start := 0;
    SplitRestEnds(path);
    while start <= |path|
      invariant 0 <= start <= |path| + 1
      invariant segments + SplitRest(path, start) == Split(path)
    {
      var end := FindFrom(path, start);
      SplitStep(path, start, end);
      if end > start {
        segments := segments + [path[start..end]];
      }
      start := end + 1;
    }
  }

  /** The joining loop: a separator goes before a component unless nothing has been joined yet. */
  method JoinSegments(parts: seq<string>) returns (joined: string)
    requires AllClean(parts)
    ensures joined == Join(parts)
  {
    joined := "";
    for i := 0 to |parts|
      invariant joined == Join(parts[..i])
    {
      assert parts[..i + 1] == parts[..i] + [parts[i]];
      JoinSnoc(parts[..i], parts[i]);
      JoinIsEmpty(parts[..i]);
      if joined != "" {
        joined := joined + [SEP];
      }
      joined := joined + parts[i];
    }
    assert parts[..|parts|] == parts;
  }
}
