/** Names of PST folders: normalization of one segment, and the collision suffix search. */
module FolderNames {
  import opened Text

  const LONG_NAME_THRESHOLD := 120
  const TRUNCATED_NAME_LENGTH := 100

  // ---- Normalization ----

  predicate IsControl(c: char) {
    c as int <= 0x1F
  }

  function ReplaceControls(s: string): (t: string)
    ensures |t| == |s|
  {
    seq(|s|, i requires 0 <= i < |s| => if IsControl(s[i]) then '_' else s[i])
  }

  predicate IsTrimmed(c: char) {
    c == ' ' || c == '.'
  }

  function TrimEnd(s: string): (t: string)
    ensures t <= s && (t != "" ==> !IsTrimmed(t[|t| - 1]))
  {
    if s != "" && IsTrimmed(s[|s| - 1]) then TrimEnd(s[..|s| - 1]) else s
  }

  /** One byte of 32-bit FNV-1a. */
  function FnvByte(h: bv32, b: bv32): bv32 {
    (h ^ (b & 0xFF)) * 16777619
  }

  /** 32-bit FNV-1a over the code units, each as four little-endian bytes. */
  function Fnv1a(s: string, h: bv32): bv32 {
    if s == "" then h
    else
      var v := (s[0] as int) as bv32;
      Fnv1a(s[1..], FnvByte(FnvByte(FnvByte(FnvByte(h, v), v >> 8), v >> 16), v >> 24))
  }

  const HEX_DIGITS: string := "0123456789abcdef"

  function HexDigit(v: bv32): (c: char)
    ensures c in HEX_DIGITS
  {
    HEX_DIGITS[(v & 0xF) as int]
  }

  function Hex8(v: bv32): (s: string)
    ensures |s| == 8 && forall i :: 0 <= i < 8 ==> s[i] in HEX_DIGITS
  {
    [HexDigit(v >> 28), HexDigit(v >> 24), HexDigit(v >> 20), HexDigit(v >> 16),
     HexDigit(v >> 12), HexDigit(v >> 8), HexDigit(v >> 4), HexDigit(v)]
  }

  function NormalizeSegment(original: string): string {
    var trimmed := TrimEnd(ReplaceControls(original));
    var s := if trimmed == "" then "_" else trimmed;
    if |s| > LONG_NAME_THRESHOLD
    then Shortened(s, Fnv1a(original, 2166136261))
    else s
  }

  /** A name that normalization leaves alone. */
  predicate IsNormal(s: string) {
    && 0 < |s| <= LONG_NAME_THRESHOLD
    && (forall i :: 0 <= i < |s| ==> !IsControl(s[i]))
    && !IsTrimmed(s[|s| - 1])
  }

  predicate IsPlain(c: char) {
    !IsControl(c) && !IsTrimmed(c) && c != SEP
  }

  lemma HexIsPlain(v: bv32)
    ensures forall i :: 0 <= i < 8 ==> IsPlain(Hex8(v)[i])
  {
    var hex := Hex8(v);
    hide Hex8;
    forall i | 0 <= i < 8 ensures IsPlain(hex[i]) {
      var d :| 0 <= d < |HEX_DIGITS| && HEX_DIGITS[d] == hex[i];
    }
  }

  function Shortened(s: string, hash: bv32): (t: string)
    requires |s| > LONG_NAME_THRESHOLD
    ensures |t| == TRUNCATED_NAME_LENGTH + 9
  {
    s[..TRUNCATED_NAME_LENGTH] + "~" + Hex8(hash)
  }

  lemma ShortenedIsNormal(s: string, hash: bv32)
    requires |s| > LONG_NAME_THRESHOLD && forall i :: 0 <= i < |s| ==> !IsControl(s[i])
    ensures IsNormal(Shortened(s, hash))
    ensures Clean(s) ==> Clean(Shortened(s, hash))
  {
    HexIsPlain(hash);
    hide Hex8;
  }

  lemma NormalizedIsNormal(original: string)
    ensures IsNormal(NormalizeSegment(original))
    ensures Clean(original) ==> Clean(NormalizeSegment(original))
  {
    hide Fnv1a;
    var trimmed := TrimEnd(ReplaceControls(original));
    var s := if trimmed == "" then "_" else trimmed;
    if |s| > LONG_NAME_THRESHOLD {
      ShortenedIsNormal(s, Fnv1a(original, 2166136261));
    }
    hide Shortened;
  }

  /** Exactly the normal names are kept, so normalizing twice changes nothing more. */
  lemma NormalizeFixesNormal(s: string)
    ensures NormalizeSegment(s) == s <==> IsNormal(s)
  {
    if IsNormal(s) {
      assert ReplaceControls(s) == s;
      assert TrimEnd(s) == s;
    } else if NormalizeSegment(s) == s {
      NormalizedIsNormal(s);
    }
  }

  /** Each control character replaced, told character by character. */
  predicate ShownAs(original: string, shown: string) {
    |shown| == |original| && forall i :: 0 <= i < |original| ==> shown[i] == if original[i] as int < 32 then '_' else original[i]
  }

  lemma {:induction false} TrimEndIs(s: string, m: nat)
    requires m <= |s| && (forall i :: m <= i < |s| ==> s[i] == ' ' || s[i] == '.')
    requires m > 0 ==> s[m - 1] != ' ' && s[m - 1] != '.'
    ensures TrimEnd(s) == s[..m]
  {
    if m < |s| {
      TrimEndIs(s[..|s| - 1], m);
    }
  }

  /** Everything normalization does: what is left without the blanks and periods at the end has its control
      characters replaced; nothing left becomes an underscore, and more than 120 characters become the first
      100 with the hash of the original. */
  lemma {:induction false} NormalizedExactly(original: string, m: nat)
    requires m <= |original| && (forall i :: m <= i < |original| ==> original[i] == ' ' || original[i] == '.')
    requires m > 0 ==> original[m - 1] != ' ' && original[m - 1] != '.'
    ensures var name := NormalizeSegment(original);
      if m == 0 then name == "_"
      else if m <= 120 then ShownAs(original[..m], name)
      else |name| == 109 && ShownAs(original[..100], name[..100]) && name[100] == '~'
           && name[101..] == Hex8(Fnv1a(original, 2166136261))
  {
    hide Fnv1a, Hex8;
    var shown := ReplaceControls(original);
    TrimEndIs(shown, m);
    hide TrimEnd;
    if m > 120 {
      var short := Shortened(shown[..m], Fnv1a(original, 2166136261));
      assert short[..100] == shown[..100] && short[101..] == Hex8(Fnv1a(original, 2166136261));
    }
  }

  lemma FnvSteps()
    ensures FnvByte(2166136261, 0x61) == 0xE40C292C && FnvByte(0xE40C292C, 0) == 0x2B24D044
    ensures FnvByte(0x2B24D044, 0) == 0x2EF3DB0C && FnvByte(0x2EF3DB0C, 0) == 0xF5E1D3E4
  {
  }

  lemma BytesOfA()
    ensures var v := ('a' as int) as bv32; v == 0x61 && v >> 8 == 0 && v >> 16 == 0 && v >> 24 == 0
  {
  }

  /** The hash of the name `a`, which is four bytes; after the first it is the published hash of that byte. */
  lemma HashOfA()
    ensures FnvByte(2166136261, 0x61) == 0xE40C292C && Fnv1a("a", 2166136261) == 0xF5E1D3E4
  {
    hide FnvByte;
    FnvSteps();
    BytesOfA();
    assert "a"[1..] == "";
  }

  lemma HexOf()
    ensures Hex8(0xE40C292C) == "e40c292c"
  {
  }

  // ---- Collision suffixes ----

  function Decimal(n: nat): (s: string)
    ensures s != "" && forall i :: 0 <= i < |s| ==> '0' <= s[i] <= '9'
  {
    if n < 10 then [DigitChar(n)] else Decimal(n / 10) + [DigitChar(n % 10)]
  }

  function DigitChar(d: nat): (c: char)
    requires d < 10
    ensures '0' <= c <= '9'
  {
    ('0' as int + d) as char
  }

  function DecimalValue(s: string): nat
    requires forall i :: 0 <= i < |s| ==> '0' <= s[i] <= '9'
  {
    if s == "" then 0 else DecimalValue(s[..|s| - 1]) * 10 + (s[|s| - 1] as int - '0' as int)
  }

  lemma {:induction false} DecimalRoundTrip(n: nat)
    ensures DecimalValue(Decimal(n)) == n
  {
    if n >= 10 {
      DecimalRoundTrip(n / 10);
      assert Decimal(n)[..|Decimal(n)| - 1] == Decimal(n / 10);
    } else {
      assert Decimal(n)[..0] == "";
    }
  }

  /** The k-th name tried for a base name. */
  function Candidate(base: string, k: nat): string {
    if k == 0 then base else base + " (" + Decimal(k + 1) + ")"
  }

  lemma {:induction false} FoldedDigits(s: string)
    requires forall i :: 0 <= i < |s| ==> '0' <= s[i] <= '9'
    ensures Fold(s) == s
  {
  }

  /** The candidates differ even up to case. */
  lemma CandidatesDiffer(base: string, j: nat, k: nat)
    requires j < k
    ensures Fold(Candidate(base, j)) != Fold(Candidate(base, k))
  {
    if j > 0 {
      FoldedCandidate(base, j);
      FoldedCandidate(base, k);
      var n := |base| + 2;
      assert Fold(Candidate(base, j))[n..|Candidate(base, j)| - 1] == Decimal(j + 1);
      assert Fold(Candidate(base, k))[n..|Candidate(base, k)| - 1] == Decimal(k + 1);
      DecimalRoundTrip(j + 1);
      DecimalRoundTrip(k + 1);
    }
  }

  lemma {:induction false} FoldedCandidate(base: string, k: nat)
    requires k > 0
    ensures Fold(Candidate(base, k)) == Fold(base) + " (" + Decimal(k + 1) + ")"
  {
    FoldedDigits(Decimal(k + 1));
  }

  predicate IsUsed(used: seq<string>, name: string) {
    exists i :: 0 <= i < |used| && Fold(used[i]) == Fold(name)
  }

  /** As many used names as candidates that collide: no more than there are used names. */
  lemma {:induction false} CollisionsAreBounded(used: seq<string>, base: string, tried: nat)
    requires forall k :: 0 <= k < tried ==> IsUsed(used, Candidate(base, k))
    ensures tried <= |used|
  {
    var folded := set i | 0 <= i < |used| :: Fold(used[i]);
    FoldedAreFew(used);
    CandidatesAreMany(folded, base, tried);
  }

  lemma {:induction false} FoldedAreFew(used: seq<string>)
    ensures |set i | 0 <= i < |used| :: Fold(used[i])| <= |used|
  {
    if used != [] {
      var n := |used| - 1;
      FoldedAreFew(used[..n]);
      assert (set i | 0 <= i < |used| :: Fold(used[i])) == (set i | 0 <= i < n :: Fold(used[..n][i])) + {Fold(used[n])};
    }
  }

  lemma {:induction false} CandidatesAreMany(names: set<string>, base: string, tried: nat)
    requires forall k :: 0 <= k < tried ==> Fold(Candidate(base, k)) in names
    ensures tried <= |names|
  {
    if tried > 0 {
      var last := Fold(Candidate(base, tried - 1));
      forall k | 0 <= k < tried - 1 ensures Fold(Candidate(base, k)) in names - {last} {
        CandidatesDiffer(base, k, tried - 1);
      }
      CandidatesAreMany(names - {last}, base, tried - 1);
    }
  }

  /** The first candidate that is free, after at most one more try than there are names in use. */
  method ResolveCollision(used: seq<string>, base: string) returns (name: string, ghost k: nat)
    ensures k <= |used| && name == Candidate(base, k) && !IsUsed(used, name)
    ensures forall j :: 0 <= j < k ==> IsUsed(used, Candidate(base, j))
  {
    name := base;
    var suffix := 2;
    k := 0;
    while IsUsed(used, name)
      invariant name == Candidate(base, k) && suffix == k + 2
      invariant forall j :: 0 <= j < k ==> IsUsed(used, Candidate(base, j))
      invariant k <= |used|
      decreases |used| - k
    {
      CollisionsAreBounded(used, base, k + 1);
      name := base + " (" + Decimal(suffix) + ")";
      suffix := suffix + 1;
      k := k + 1;
    }
  }
}
