/** The canonical text of a manifest, whose hash decides whether a job may be resumed. */
module Manifest {
  import opened Utf
  import opened Sha256

  const BAR: Byte := 0x7C
  const NEWLINE: Byte := 0x0A
  const MINUS: Byte := 0x2D
  const ZERO: Byte := 0x30

  /** Sizes and times are 64 bits wide. */
  type Size = n: int | 0 <= n < 0x1_0000_0000_0000_0000
  type Ticks = t: int | -0x8000_0000_0000_0000 <= t < 0x8000_0000_0000_0000

  datatype WideEntry = WideEntry(path: seq<Unit>, size: Size, lastWrite: Ticks)

  /** The code points of a wide string; an unpaired surrogate stands for itself. */
  ghost function CodePointsOf(w: seq<Unit>): seq<CodePoint> {
    if w == [] then []
    else if StartsWithPair(w) then [Pair(w[0], w[1])] + CodePointsOf(w[2..])
    else [w[0]] + CodePointsOf(w[1..])
  }

  function Decimal(n: nat): seq<Byte> {
    if n < 10 then [ZERO + n] else Decimal(n / 10) + [ZERO + n % 10]
  }

  function Number(n: int): seq<Byte> {
    if n < 0 then [MINUS] + Decimal(-n) else Decimal(n)
  }

  /** What follows the path on the line of an entry. */
  function Record(size: Size, time: Ticks): seq<Byte> {
    [BAR] + Decimal(size) + [BAR] + Number(time) + [NEWLINE]
  }

  ghost function Line(e: WideEntry): seq<Byte> {
    Utf8(CodePointsOf(e.path)) + Record(e.size, e.lastWrite)
  }

  ghost function ManifestText(entries: seq<WideEntry>): seq<Byte> {
    if entries == [] then [] else Line(entries[0]) + ManifestText(entries[1..])
  }

  method WstringToUtf8(s: seq<Unit>) returns (out: seq<Byte>)
    ensures out == Utf8(CodePointsOf(s))
  {
    hide Utf8One, Pair;
    out := [];
    var i := 0;
    while i < |s|
      invariant 0 <= i <= |s|
      invariant out + Utf8(CodePointsOf(s[i..])) == Utf8(CodePointsOf(s))
    {
      ghost var was := out;
      ghost var step := if StartsWithPair(s[i..]) then 2 else 1;
      ghost var c := CodePointsOf(s[i..])[0];
      assert s[i..][step..] == s[i + step..];
      var cp: CodePoint := s[i];
      if IsHigh(cp) && i + 1 < |s| {
        var low := s[i + 1];
        if IsLow(low) {
          cp := Pair(s[i], low);
          i := i + 1;
        }
      }
      out := AppendUtf8(out, cp);
      assert was + (Utf8One(c) + Utf8(CodePointsOf(s[i + 1..]))) == out + Utf8(CodePointsOf(s[i + 1..]));
      i := i + 1;
    }
  }

  lemma NextLine(entries: seq<WideEntry>, k: nat)
    requires k < |entries|
    ensures ManifestText(entries[k..]) == Line(entries[k]) + ManifestText(entries[k + 1..])
  {
    hide Line;
    assert entries[k..][1..] == entries[k + 1..];
  }

  /** Hands the sink one line for every entry, in order. */
  method SerializeManifest(entries: seq<WideEntry>) returns (sink: seq<seq<Byte>>)
    ensures |sink| == |entries| && Joined(sink) == ManifestText(entries)
  {
    hide CodePointsOf, Utf8, Decimal, Number, ManifestText;
    sink := [];
    assert entries[0..] == entries;
    for k := 0 to |entries|
      invariant |sink| == k && Joined(sink) + ManifestText(entries[k..]) == ManifestText(entries)
    {
      var line := WstringToUtf8(entries[k].path);
      line := line + [BAR];
      line := line + Decimal(entries[k].size);
      line := line + [BAR];
      line := line + Number(entries[k].lastWrite);
      line := line + [NEWLINE];
      NextLine(entries, k);
      assert line == Line(entries[k]);
      hide Line, Record;
      assert (sink + [line])[..k] == sink;
      assert Joined(sink) + (line + ManifestText(entries[k + 1..])) == Joined(sink) + line + ManifestText(entries[k + 1..]);
      sink := sink + [line];
    }
    NoText(entries[|entries|..]);
  }

  // ---- The text is unambiguous ----

  lemma {:induction false} UnitsReadBack(w: seq<Unit>)
    ensures Utf16(CodePointsOf(w)) == w
  {
    if w != [] {
      if StartsWithPair(w) {
        UnitsReadBack(w[2..]);
        assert w == [w[0], w[1]] + w[2..];
      } else {
        UnitsReadBack(w[1..]);
        assert w == [w[0]] + w[1..];
      }
    }
  }

  /** How many bytes a code point takes is told by its first byte. */
  lemma LengthByLead(c: CodePoint)
    ensures |Utf8One(c)| == 1 + Extra(Utf8One(c)[0]) && (|Utf8One(c)| == 1 <==> Utf8One(c)[0] < 0x80)
  {
  }

  lemma OneInjective(c: CodePoint, r: seq<Byte>, d: CodePoint, q: seq<Byte>)
    requires Utf8One(c) + r == Utf8One(d) + q
    ensures c == d && r == q
  {
    LengthByLead(c);
    LengthByLead(d);
    var n := |Utf8One(c)|;
    assert (Utf8One(c) + r)[0] == Utf8One(c)[0] && (Utf8One(d) + q)[0] == Utf8One(d)[0];
    assert Utf8One(c) == (Utf8One(c) + r)[..n] && Utf8One(d) == (Utf8One(d) + q)[..n];
    assert r == (Utf8One(c) + r)[n..] && q == (Utf8One(d) + q)[n..];
    if n > 1 {
      ValueOf(c);
      ValueOf(d);
    }
  }

  lemma {:induction false} Utf8Injective(s: seq<CodePoint>, t: seq<CodePoint>)
    requires Utf8(s) == Utf8(t)
    ensures s == t
  {
    if s != [] && t != [] {
      OneInjective(s[0], Utf8(s[1..]), t[0], Utf8(t[1..]));
      Utf8Injective(s[1..], t[1..]);
      assert s == [s[0]] + s[1..] && t == [t[0]] + t[1..];
    }
  }

  ghost predicate AllDigits(d: seq<Byte>) {
    forall b :: b in d ==> ZERO <= b <= ZERO + 9
  }

  lemma {:induction false} DecimalDigits(n: nat)
    ensures AllDigits(Decimal(n)) && Decimal(n) != []
  {
    if n >= 10 { DecimalDigits(n / 10); }
  }

  function DigitsValue(digits: seq<Byte>): nat
    requires AllDigits(digits)
  {
    if digits == [] then 0
    else
      var n := |digits| - 1;
      assert digits[n] in digits && forall b :: b in digits[..n] ==> b in digits;
      DigitsValue(digits[..n]) * 10 + (digits[n] as int - ZERO as int)
  }

  /** The digits have the value of the number, the most significant first, and none is a leading zero. */
  lemma {:induction false} DecimalReads(n: nat)
    ensures AllDigits(Decimal(n)) && DigitsValue(Decimal(n)) == n && (n > 0 ==> Decimal(n)[0] != ZERO)
  {
    DecimalDigits(n);
    if n >= 10 {
      DecimalReads(n / 10);
      assert Decimal(n)[..|Decimal(n)| - 1] == Decimal(n / 10);
    } else {
      assert Decimal(n)[..0] == [];
    }
  }

  /** The line of a file `a` of ten bytes, written one tick before the year 1601. */
  lemma LineOfA()
    ensures Line(WideEntry([0x61], 10, -1)) == [0x61, 0x7C, 0x31, 0x30, 0x7C, 0x2D, 0x31, 0x0A]
  {
    var w: seq<Unit> := [0x61];
    assert w[1..] == [];
    assert CodePointsOf(w) == [0x61] + CodePointsOf([]);
    assert Utf8([0x61]) == Utf8One(0x61) + Utf8([]) by { assert [0x61 as CodePoint][1..] == []; }
    assert Decimal(10) == Decimal(1) + [0x30];
  }

  lemma {:induction false} DecimalInjective(n: nat, m: nat)
    requires Decimal(n) == Decimal(m)
    ensures n == m
  {
    var a, b := Decimal(n), Decimal(m);
    DecimalDigits(n / 10);
    DecimalDigits(m / 10);
    assert a[|a| - 1] == b[|b| - 1];
    if n >= 10 && m >= 10 {
      assert Decimal(n / 10) == a[..|a| - 1] && Decimal(m / 10) == b[..|b| - 1];
      DecimalInjective(n / 10, m / 10);
    }
  }

  lemma NumberInjective(n: int, m: int)
    requires Number(n) == Number(m)
    ensures n == m
  {
    if n < 0 { DecimalDigits(-n); } else { DecimalDigits(n); }
    if m < 0 { DecimalDigits(-m); } else { DecimalDigits(m); }
    hide Decimal;
    assert (n < 0) == (m < 0) by {
      assert Number(n)[0] == Number(m)[0];
      assert n >= 0 ==> Number(n)[0] in Decimal(n);
      assert m >= 0 ==> Number(m)[0] in Decimal(m);
    }
    if n < 0 {
      assert Decimal(-n) == Number(n)[1..] && Decimal(-m) == Number(m)[1..];
      DecimalInjective(-n, -m);
    } else {
      DecimalInjective(n, m);
    }
  }

  lemma {:induction false} NumbersHaveNoMarks(n: int)
    ensures BAR !in Number(n) && NEWLINE !in Number(n) && (n >= 0 ==> Number(n) == Decimal(n))
  {
    DecimalDigits(if n < 0 then -n else n);
  }

  /** Around the last mark a text splits in one way. */
  lemma SplitAtLast(x: seq<Byte>, s: seq<Byte>, y: seq<Byte>, t: seq<Byte>, mark: Byte)
    requires x + [mark] + s == y + [mark] + t && mark !in s && mark !in t
    ensures x == y && s == t
  {
    var z := x + [mark] + s;
    assert z[|x|] == mark && z[|y|] == mark;
    assert forall k :: |x| < k < |z| ==> z[k] == s[k - |x| - 1] && z[k] != mark;
    assert forall k :: |y| < k < |z| ==> z[k] == t[k - |y| - 1] && z[k] != mark;
    assert x == z[..|x|] && s == z[|x| + 1..];
  }

  /** A line without its newline. */
  ghost function Fields(e: WideEntry): seq<Byte> {
    Utf8(CodePointsOf(e.path)) + [BAR] + Decimal(e.size) + [BAR] + Number(e.lastWrite)
  }

  /** The separator may occur in a path: the last two separate the numbers. */
  lemma FieldsInjective(a: WideEntry, b: WideEntry)
    requires Fields(a) == Fields(b)
    ensures a == b
  {
    hide Utf8, CodePointsOf, Decimal, Number;
    var p, q := Utf8(CodePointsOf(a.path)), Utf8(CodePointsOf(b.path));
    NumbersHaveNoMarks(a.lastWrite);
    NumbersHaveNoMarks(b.lastWrite);
    SplitAtLast(p + [BAR] + Decimal(a.size), Number(a.lastWrite), q + [BAR] + Decimal(b.size), Number(b.lastWrite), BAR);
    NumbersHaveNoMarks(a.size);
    NumbersHaveNoMarks(b.size);
    SplitAtLast(p, Decimal(a.size), q, Decimal(b.size), BAR);
    NumberInjective(a.lastWrite, b.lastWrite);
    DecimalInjective(a.size, b.size);
    Utf8Injective(CodePointsOf(a.path), CodePointsOf(b.path));
    UnitsReadBack(a.path);
    UnitsReadBack(b.path);
  }

  /** Some newline in the path ends what could be the record of a shorter path. */
  ghost predicate EmbedsRecord(path: seq<Unit>) {
    exists p: seq<Unit>, size: Size, time: Ticks, q: seq<Unit> :: path == p + Record(size, time) + q
  }

  ghost predicate RecordFree(entries: seq<WideEntry>) {
    forall e :: e in entries ==> !EmbedsRecord(e.path)
  }

  /** The only newline of a record is its end, and all of it is ASCII. */
  lemma RecordEnds(size: Size, time: Ticks)
    ensures var r := Record(size, time);
      && |r| >= 2 && r[|r| - 1] == NEWLINE && NEWLINE !in r[..|r| - 1] && forall b :: b in r ==> b < 0x80
  {
    NumbersHaveNoMarks(size);
    NumbersHaveNoMarks(time);
    DecimalDigits(size);
    var t: int := time;
    DecimalDigits(if t < 0 then -t else t);
    hide Decimal;
    var r := Record(size, time);
    assert r[..|r| - 1] == [BAR] + Decimal(size) + [BAR] + Number(time);
  }

  lemma {:induction false} Utf8Concat(s: seq<CodePoint>, t: seq<CodePoint>)
    ensures Utf8(s + t) == Utf8(s) + Utf8(t)
  {
    hide Utf8One;
    if s == [] {
      assert s + t == t;
    } else {
      assert (s + t)[1..] == s[1..] + t;
      Utf8Concat(s[1..], t);
    }
  }

  lemma {:induction false} Utf16Concat(s: seq<CodePoint>, t: seq<CodePoint>)
    ensures Utf16(s + t) == Utf16(s) + Utf16(t)
  {
    hide Utf16One;
    if s == [] {
      assert s + t == t;
    } else {
      assert (s + t)[1..] == s[1..] + t;
      Utf16Concat(s[1..], t);
    }
  }

  lemma {:induction false} AsciiIsItself(s: seq<CodePoint>)
    requires forall c :: c in s ==> c < 0x80
    ensures Utf8(s) == s && Utf16(s) == s
  {
    if s != [] {
      assert s[0] in s && forall c :: c in s[1..] ==> c in s;
      AsciiIsItself(s[1..]);
      assert s == [s[0]] + s[1..];
    }
  }

  /** No pair of surrogates crosses an ASCII unit. */
  lemma {:induction false} SplitsAtAscii(p: seq<Unit>, z: seq<Unit>)
    requires z != [] && z[0] < 0x80
    ensures CodePointsOf(p + z) == CodePointsOf(p) + CodePointsOf(z)
  {
    if p == [] {
      assert p + z == z;
    } else {
      var w := p + z;
      assert StartsWithPair(w) <==> StartsWithPair(p);
      var n := if StartsWithPair(p) then 2 else 1;
      assert w[n..] == p[n..] + z;
      SplitsAtAscii(p[n..], z);
    }
  }

  lemma {:induction false} AsciiFront(r: seq<Unit>, q: seq<Unit>)
    requires forall u :: u in r ==> u < 0x80
    ensures CodePointsOf(r + q) == r + CodePointsOf(q)
  {
    if r == [] {
      assert r + q == q;
    } else {
      var w := r + q;
      assert r[0] in r && forall u :: u in r[1..] ==> u in r;
      assert w[1..] == r[1..] + q && !StartsWithPair(w);
      AsciiFront(r[1..], q);
    }
  }

  /** A path that embeds a record has the text of a line and a rest. */
  lemma {:induction false} EmbeddedText(p: seq<Unit>, size: Size, time: Ticks, q: seq<Unit>)
    ensures Utf8(CodePointsOf(p + Record(size, time) + q))
         == Utf8(CodePointsOf(p)) + Record(size, time) + Utf8(CodePointsOf(q))
  {
    hide Record, Utf8, CodePointsOf;
    RecordEnds(size, time);
    var r: seq<Byte> := Record(size, time);
    assert p + r + q == p + (r + q) && (r + q)[0] == r[0] && r[0] in r;
    SplitsAtAscii(p, r + q);
    AsciiFront(r, q);
    Utf8Concat(CodePointsOf(p), r + CodePointsOf(q));
    Utf8Concat(r, CodePointsOf(q));
    AsciiIsItself(r);
  }

  /** So two entries have the text of one whose path embeds the record of the first. */
  lemma TwoLinesAreOne(x: WideEntry, y: WideEntry, z: WideEntry)
    requires z == y.(path := x.path + Record(x.size, x.lastWrite) + y.path)
    ensures Line(x) + Line(y) == Line(z)
  {
    hide Utf8, CodePointsOf, Record;
    EmbeddedText(x.path, x.size, x.lastWrite, y.path);
  }

  lemma {:induction false} FrontCodes(s: seq<CodePoint>, r: seq<Byte>, t: seq<CodePoint>)
    requires Utf8(s) + r == Utf8(t)
    ensures |s| <= |t| && t[..|s|] == s
  {
    if s != [] {
      assert t != [];
      hide Utf8One;
      assert Utf8One(s[0]) + (Utf8(s[1..]) + r) == Utf8One(t[0]) + Utf8(t[1..]);
      OneInjective(s[0], Utf8(s[1..]) + r, t[0], Utf8(t[1..]));
      FrontCodes(s[1..], r, t[1..]);
      assert s == [s[0]] + s[1..] && t == [t[0]] + t[1..];
    }
  }

  /** A front of the text of a path that ends in a record is a front of the path. */
  lemma {:induction false} FrontOfPath(x: WideEntry, r: seq<Byte>, path: seq<Unit>)
    requires Line(x) + r == Utf8(CodePointsOf(path))
    ensures EmbedsRecord(path)
  {
    hide Record, Utf8, CodePointsOf, Utf16;
    var rec: seq<Byte> := Record(x.size, x.lastWrite);
    RecordEnds(x.size, x.lastWrite);
    var s: seq<CodePoint> := CodePointsOf(x.path) + rec;
    var t := CodePointsOf(path);
    Utf8Concat(CodePointsOf(x.path), rec);
    AsciiIsItself(rec);
    FrontCodes(s, r, t);
    assert t == CodePointsOf(x.path) + (rec + t[|s|..]);
    Utf16Concat(CodePointsOf(x.path), rec + t[|s|..]);
    Utf16Concat(rec, t[|s|..]);
    UnitsReadBack(x.path);
    UnitsReadBack(path);
    assert path == x.path + rec + Utf16(t[|s|..]);
  }

  /** A line that goes on as a longer line: the newline that ends it stands in the longer path. */
  lemma LongerLineEmbeds(x: WideEntry, y: WideEntry, u: seq<Byte>, v: seq<Byte>)
    requires Line(x) + u == Line(y) + v && |Line(x)| < |Line(y)|
    ensures EmbedsRecord(y.path)
  {
    hide Record, Utf8, CodePointsOf;
    var text, rec := Utf8(CodePointsOf(y.path)), Record(y.size, y.lastWrite);
    var line := Line(x);
    RecordEnds(x.size, x.lastWrite);
    RecordEnds(y.size, y.lastWrite);
    var n := |line|;
    var t := line + u;
    assert t[n - 1] == line[n - 1] == NEWLINE;
    assert forall k :: |text| <= k < |Line(y)| - 1 ==> t[k] == rec[..|rec| - 1][k - |text|];
    assert n <= |text|;
    assert line == t[..n] == text[..n];
    assert text == line + text[n..];
    FrontOfPath(x, text[n..], y.path);
  }

  lemma LineInjective(x: WideEntry, y: WideEntry)
    requires Line(x) == Line(y)
    ensures x == y
  {
    hide Utf8, CodePointsOf, Decimal, Number;
    assert Line(x) == Fields(x) + [NEWLINE] && Line(y) == Fields(y) + [NEWLINE];
    assert Fields(x) == Line(x)[..|Line(x)| - 1] && Fields(y) == Line(y)[..|Line(y)| - 1];
    FieldsInjective(x, y);
  }

  lemma FirstsAreEqual(x: WideEntry, u: seq<Byte>, y: WideEntry, v: seq<Byte>)
    requires Line(x) + u == Line(y) + v && !EmbedsRecord(x.path) && !EmbedsRecord(y.path)
    ensures x == y && u == v
  {
    hide Line, EmbedsRecord;
    if |Line(x)| < |Line(y)| {
      LongerLineEmbeds(x, y, u, v);
    } else if |Line(y)| < |Line(x)| {
      LongerLineEmbeds(y, x, v, u);
    } else {
      var t := Line(x) + u;
      assert Line(x) == t[..|Line(x)|] && Line(y) == t[..|Line(x)|] && u == t[|Line(x)|..] && v == t[|Line(x)|..];
      LineInjective(x, y);
    }
  }

  /** Two manifests of paths without embedded records have one text only if they are equal. */
  lemma {:induction false} TextIsUnambiguous(a: seq<WideEntry>, b: seq<WideEntry>)
    requires RecordFree(a) && RecordFree(b) && ManifestText(a) == ManifestText(b)
    ensures a == b
    decreases |a|
  {
    hide Line, EmbedsRecord;
    NoText(a);
    NoText(b);
    if a != [] && b != [] {
      assert a[0] in a && b[0] in b;
      FirstsAreEqual(a[0], ManifestText(a[1..]), b[0], ManifestText(b[1..]));
      assert forall e :: (e in a[1..] ==> e in a) && (e in b[1..] ==> e in b);
      TextIsUnambiguous(a[1..], b[1..]);
      assert a == [a[0]] + a[1..] && b == [b[0]] + b[1..];
    }
  }

  lemma {:induction false} NoText(a: seq<WideEntry>)
    ensures ManifestText(a) == [] <==> a == []
  {
    if a != [] { RecordEnds(a[0].size, a[0].lastWrite); }
  }

  lemma TextOfOne(x: WideEntry)
    ensures ManifestText([x]) == Line(x)
  {
    hide Line;
    assert [x][1..] == [];
    assert ManifestText([x]) == Line(x) + [];
  }

  lemma {:induction false} TextOfTwo(x: WideEntry, y: WideEntry, rest: seq<WideEntry>)
    ensures ManifestText([x, y] + rest) == Line(x) + Line(y) + ManifestText(rest)
  {
    hide Line;
    var a := [x, y] + rest;
    assert a[1..] == [y] + rest && a[1..][1..] == rest;
  }

  /** Some other manifest has the same text. */
  ghost predicate SharesText(a: seq<WideEntry>) {
    exists b :: b != a && ManifestText(b) == ManifestText(a)
  }

  /** Exactly when the text of a manifest does not tell its entries: two or more could be one whose path
      embeds the record of the first, and a single one could be two if its path embeds a record. */
  lemma TextIsSharedExactly(a: seq<WideEntry>)
    ensures SharesText(a) <==> |a| >= 2 || (|a| == 1 && EmbedsRecord(a[0].path))
  {
    hide ManifestText, EmbedsRecord;
    if SharesText(a) {
      var b :| b != a && ManifestText(b) == ManifestText(a);
      SharedIsEmbedded(a, b);
    }
    if |a| >= 2 {
      ManyShare(a);
    } else if |a| == 1 && EmbedsRecord(a[0].path) {
      OneShares(a[0]);
      assert a == [a[0]];
    }
  }

  lemma ManyShare(a: seq<WideEntry>)
    requires |a| >= 2
    ensures SharesText(a)
  {
    hide Line, Record, ManifestText;
    var x, y, rest := a[0], a[1], a[2..];
    var z := y.(path := x.path + Record(x.size, x.lastWrite) + y.path);
    TwoLinesAreOne(x, y, z);
    assert a == [x, y] + rest;
    TextOfTwo(x, y, rest);
    assert ManifestText([z] + rest) == Line(z) + ManifestText(rest) by { TextOfMore(z, rest); }
    assert |[z] + rest| != |a|;
  }

  lemma {:induction false} TextOfMore(z: WideEntry, rest: seq<WideEntry>)
    ensures ManifestText([z] + rest) == Line(z) + ManifestText(rest)
  {
    assert ([z] + rest)[1..] == rest;
  }

  lemma OneShares(z: WideEntry)
    requires EmbedsRecord(z.path)
    ensures SharesText([z])
  {
    hide Line, Record, ManifestText;
    var p: seq<Unit>, size: Size, time: Ticks, q: seq<Unit> :| z.path == p + Record(size, time) + q;
    var x, y := WideEntry(p, size, time), z.(path := q);
    TwoLinesAreOne(x, y, z);
    TextOfTwo(x, y, []);
    assert ManifestText([]) == [] by { NoText([]); }
    TextOfOne(z);
    assert [x, y] + [] == [x, y] && |[x, y]| != |[z]|;
  }

  lemma {:induction false} SharedIsEmbedded(a: seq<WideEntry>, b: seq<WideEntry>)
    requires b != a && ManifestText(b) == ManifestText(a)
    ensures |a| >= 2 || (|a| == 1 && EmbedsRecord(a[0].path))
  {
    hide Line, EmbedsRecord;
    NoText(a);
    NoText(b);
    if |a| == 1 {
      var x, y, rest := a[0], b[0], b[1..];
      assert a == [x] && b == [y] + rest;
      TextOfOne(x);
      assert Line(y) + ManifestText(rest) == Line(x) + [];
      if |Line(y)| == |Line(x)| {
        assert ManifestText(rest) == [] && Line(y) == Line(x);
        NoText(rest);
        LineInjective(x, y);
      } else {
        LongerLineEmbeds(y, x, ManifestText(rest), []);
      }
    }
  }

  ghost predicate NewlineFree(entries: seq<WideEntry>) {
    forall e :: e in entries ==> NEWLINE !in e.path
  }

  lemma NewlineFreeIsRecordFree(entries: seq<WideEntry>)
    requires NewlineFree(entries)
    ensures RecordFree(entries)
  {
    forall e | e in entries ensures !EmbedsRecord(e.path) {
      forall p: seq<Unit>, size: Size, time: Ticks, q: seq<Unit> ensures e.path != p + Record(size, time) + q {
        var r := Record(size, time);
        RecordEnds(size, time);
        assert (p + r + q)[|p| + |r| - 1] == NEWLINE;
      }
    }
  }

  /** A newline in a path can break this: two files without and one file with one have one text. */
  lemma NewlineIsAmbiguous()
    ensures exists a, b :: NewlineFree(a) && a != b && ManifestText(a) == ManifestText(b)
  {
    var x, y := WideEntry([0x61], 1, 2), WideEntry([0x62], 3, 4);
    var z := y.(path := x.path + Record(x.size, x.lastWrite) + y.path);
    hide Line, Record, ManifestText;
    TwoLinesAreOne(x, y, z);
    TextOfTwo(x, y, []);
    TextOfOne(z);
    assert ManifestText([]) == [] by { NoText([]); }
    assert [x, y] + [] == [x, y] && NewlineFree([x, y]) && |[x, y]| != |[z]|;
  }

  /** Not every newline does: the numbers must be there. */
  lemma NewlineAloneIsHarmless()
    ensures !SharesText([WideEntry([0x61, NEWLINE, 0x62], 1, 2)])
  {
    var path: seq<Unit> := [0x61, NEWLINE, 0x62];
    TextIsSharedExactly([WideEntry(path, 1, 2)]);
    forall p: seq<Unit>, size: Size, time: Ticks, q: seq<Unit> ensures path != p + Record(size, time) + q {
      RecordEnds(size, time);
      assert BAR in Record(size, time);
      assert BAR in p + Record(size, time) + q && BAR !in path;
    }
  }
}
