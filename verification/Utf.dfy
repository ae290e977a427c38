/** Conversions between UTF-8 bytes and wide strings of 16-bit units, in both directions and for malformed
    input. */
module Utf {
  type Byte = b: int | 0 <= b < 0x100
  type Unit = u: int | 0 <= u < 0x1_0000
  /** A Unicode code point; a scalar value is one that is no surrogate. */
  type CodePoint = c: int | 0 <= c <= 0x10FFFF

  const REPLACEMENT: CodePoint := 0xFFFD

  predicate IsHigh(u: int) { 0xD800 <= u <= 0xDBFF }
  predicate IsLow(u: int) { 0xDC00 <= u <= 0xDFFF }
  predicate IsSurrogate(u: int) { 0xD800 <= u <= 0xDFFF }

  ghost predicate AllScalar(s: seq<CodePoint>) {
    forall c :: c in s ==> !IsSurrogate(c)
  }

  /** One code point in the bit layout of section 3 of RFC 3629. */
  function Utf8One(c: CodePoint): (bytes: seq<Byte>)
    ensures 1 <= |bytes| <= 4
  {
    if c <= 0x7F then [c]
    else if c <= 0x7FF then [0xC0 + c / 0x40, 0x80 + c % 0x40]
    else if c <= 0xFFFF then [0xE0 + c / 0x1000, 0x80 + c / 0x40 % 0x40, 0x80 + c % 0x40]
    else [0xF0 + c / 0x4_0000, 0x80 + c / 0x1000 % 0x40, 0x80 + c / 0x40 % 0x40, 0x80 + c % 0x40]
  }

  function Utf16One(c: CodePoint): (units: seq<Unit>)
    ensures 1 <= |units| <= 2
  {
    if c <= 0xFFFF then [c]
    else [0xD800 + (c - 0x1_0000) / 0x400, 0xDC00 + (c - 0x1_0000) % 0x400]
  }

  ghost function Utf8(s: seq<CodePoint>): seq<Byte> {
    if s == [] then [] else Utf8One(s[0]) + Utf8(s[1..])
  }

  ghost function Utf16(s: seq<CodePoint>): seq<Unit> {
    if s == [] then [] else Utf16One(s[0]) + Utf16(s[1..])
  }

  ghost predicate IsUtf8(bytes: seq<Byte>) {
    exists s :: AllScalar(s) && Utf8(s) == bytes
  }

  ghost predicate IsUtf16(units: seq<Unit>) {
    exists s :: AllScalar(s) && Utf16(s) == units
  }

  // ---- Encoding ----

  /** Whether a wide string starts with a surrogate pair. */
  predicate StartsWithPair(w: seq<Unit>) {
    |w| >= 2 && IsHigh(w[0]) && IsLow(w[1])
  }

  function Pair(high: Unit, low: Unit): (c: CodePoint)
    requires IsHigh(high) && IsLow(low)
    ensures Utf16One(c) == [high, low]
  {
    0x1_0000 + (high - 0xD800) * 0x400 + (low - 0xDC00)
  }

  /** The scalar values of a wide string; an unpaired surrogate is read as the replacement character. */
  ghost function ScalarsOfWide(w: seq<Unit>): (s: seq<CodePoint>)
    ensures AllScalar(s)
  {
    if w == [] then []
    else if StartsWithPair(w) then [Pair(w[0], w[1])] + ScalarsOfWide(w[2..])
    else [if IsSurrogate(w[0]) then REPLACEMENT else w[0]] + ScalarsOfWide(w[1..])
  }

  method AppendUtf8(out: seq<Byte>, c: CodePoint) returns (r: seq<Byte>)
    ensures r == out + Utf8One(c)
  {
    if c <= 0x7F {
      r := out + [c];
    } else if c <= 0x7FF {
      r := out + [0xC0 + c / 0x40];
      r := r + [0x80 + c % 0x40];
    } else if c <= 0xFFFF {
      r := out + [0xE0 + c / 0x1000];
      r := r + [0x80 + c / 0x40 % 0x40];
      r := r + [0x80 + c % 0x40];
    } else {
      r := out + [0xF0 + c / 0x4_0000];
      r := r + [0x80 + c / 0x1000 % 0x40];
      r := r + [0x80 + c / 0x40 % 0x40];
      r := r + [0x80 + c % 0x40];
    }
  }

  /** The first scalar value of a wide string and the units it takes. */
  lemma {:induction false} FirstOfWide(w: seq<Unit>)
    requires w != []
    ensures var pair := StartsWithPair(w);
      Utf8(ScalarsOfWide(w)) ==
        Utf8One(if pair then Pair(w[0], w[1]) else if IsSurrogate(w[0]) then REPLACEMENT else w[0])
        + Utf8(ScalarsOfWide(w[if pair then 2 else 1..]))
  {
    hide Utf8One, Pair;
    var s := ScalarsOfWide(w);
    assert s[1..] == ScalarsOfWide(w[if StartsWithPair(w) then 2 else 1..]);
  }

  method Utf8FromWide(wide: seq<Unit>) returns (out: seq<Byte>)
    ensures out == Utf8(ScalarsOfWide(wide)) && IsUtf8(out)
  {
    hide Utf8One, Pair, ScalarsOfWide, Utf8;
    out := [];
    var i := 0;
    assert wide[0..] == wide;
    while i < |wide|
      invariant 0 <= i <= |wide|
      invariant out + Utf8(ScalarsOfWide(wide[i..])) == Utf8(ScalarsOfWide(wide))
    {
      ghost var was, w := out, wide[i..];
      FirstOfWide(w);
      assert w[1..] == wide[i + 1..] && (|w| > 1 ==> w[2..] == wide[i + 2..]);
      var unit := wide[i];
      if IsHigh(unit) && i + 1 < |wide| && IsLow(wide[i + 1]) {
        out := AppendUtf8(out, Pair(unit, wide[i + 1]));
        i := i + 1;
      } else if IsHigh(unit) || IsLow(unit) {
        out := AppendUtf8(out, REPLACEMENT);
      } else {
        out := AppendUtf8(out, unit);
      }
      i := i + 1;
    }
    NothingToEncode();
    assert wide[i..] == [];
  }

  lemma NothingToEncode()
    ensures Utf8(ScalarsOfWide([])) == []
  {
  }

  // ---- Decoding ----

  predicate IsTrail(b: Byte) { 0x80 <= b < 0xC0 }

  /** How many bytes should follow a leading byte; none for one that cannot lead. */
  function Extra(b: Byte): nat {
    if 0xC0 <= b < 0xE0 then 1 else if 0xE0 <= b < 0xF0 then 2 else if 0xF0 <= b < 0xF8 then 3 else 0
  }

  function LeadValue(b: Byte): nat {
    if Extra(b) == 1 then b - 0xC0 else if Extra(b) == 2 then b - 0xE0 else if Extra(b) == 3 then b - 0xF0 else 0
  }

  function MinimumOf(extra: nat): nat {
    if extra == 1 then 0x80 else if extra == 2 then 0x800 else 0x1_0000
  }

  /** How many trail bytes stand at the front, counting at most `limit`. */
  function Trails(bytes: seq<Byte>, limit: nat): (n: nat)
    ensures n <= limit && n <= |bytes|
  {
    if limit == 0 || bytes == [] || !IsTrail(bytes[0]) then 0 else 1 + Trails(bytes[1..], limit - 1)
  }

  function Value(lead: nat, trail: seq<Byte>): (v: int)
    requires forall b :: b in trail ==> IsTrail(b)
    ensures v >= 0
  {
    if trail == [] then lead
    else
      var b := trail[|trail| - 1];
      assert IsTrail(b);
      Value(lead, trail[..|trail| - 1]) * 0x40 + (b as int - 0x80)
  }

  lemma {:induction false} TrailsAreTrails(bytes: seq<Byte>, limit: nat)
    ensures forall b :: b in bytes[..Trails(bytes, limit)] ==> IsTrail(b)
  {
    if limit > 0 && bytes != [] && IsTrail(bytes[0]) {
      TrailsAreTrails(bytes[1..], limit - 1);
      var n := Trails(bytes, limit);
      assert bytes[..n] == [bytes[0]] + bytes[1..][..n - 1];
    }
  }

  /** What the front of a byte string is read as, and how many bytes that takes: one scalar value, or one
      replacement for a maximal malformed run. */
  ghost function First(bytes: seq<Byte>): (r: (CodePoint, nat))
    requires bytes != []
    ensures 1 <= r.1 <= |bytes| && !IsSurrogate(r.0)
  {
    if bytes[0] < 0x80 then (bytes[0], 1)
    else
      var extra := Extra(bytes[0]);
      if extra == 0 then (REPLACEMENT, 1)
      else
        var n := Trails(bytes[1..], extra);
        TrailsAreTrails(bytes[1..], extra);
        var v := Value(LeadValue(bytes[0]), bytes[1..][..n]);
        if n < extra || v < MinimumOf(extra) || v > 0x10FFFF || IsSurrogate(v) then (REPLACEMENT, 1 + n) else (v, 1 + n)
  }

  ghost function ScalarsOfUtf8(bytes: seq<Byte>): (s: seq<CodePoint>)
    ensures AllScalar(s)
  {
    if bytes == [] then []
    else
      var (c, n) := First(bytes);
      [c] + ScalarsOfUtf8(bytes[n..])
  }

  method AppendWide(out: seq<Unit>, c: int) returns (r: seq<Unit>)
    requires c >= 0
    ensures r == out + Utf16One(if c > 0x10FFFF || IsSurrogate(c) then REPLACEMENT else c)
  {
    var cp := if c > 0x10FFFF || IsSurrogate(c) then REPLACEMENT else c;
    if cp <= 0xFFFF {
      r := out + [cp];
    } else {
      var v := cp - 0x1_0000;
      r := out + [0xD800 + v / 0x400];
      r := r + [0xDC00 + v % 0x400];
    }
  }

  /** Reads up to `extra` trail bytes behind position i. */
  method ReadTrails(bytes: seq<Byte>, i: nat, lead: nat, extra: nat) returns (consumed: nat, value: int, ok: bool)
    requires i < |bytes|
    ensures var n := Trails(bytes[i + 1..], extra);
      && consumed == 1 + n && ok == (n == extra)
      && (forall b :: b in bytes[i + 1..][..n] ==> IsTrail(b)) && value == Value(lead, bytes[i + 1..][..n])
  {
    consumed, value, ok := 1, lead, true;
    ghost var rest := bytes[i + 1..];
    var k := 1;
    while k <= extra
      invariant 1 <= k <= extra + 1 && k - 1 <= |rest| && consumed == k && ok
      invariant Trails(rest, extra) == k - 1 + Trails(rest[k - 1..], extra - (k - 1))
      invariant forall b :: b in rest[..k - 1] ==> IsTrail(b)
      invariant value == Value(lead, rest[..k - 1])
    {
      if i + k >= |bytes| {
        ok := false;
        break;
      }
      var b := bytes[i + k];
      assert b == rest[k - 1] && rest[k - 1..][0] == b;
      if !IsTrail(b) {
        ok := false;
        break;
      }
      assert rest[k - 1..][1..] == rest[k..];
      assert rest[..k] == rest[..k - 1] + [b];
      value := value * 0x40 + (b as int - 0x80);
      consumed := consumed + 1;
      k := k + 1;
    }
  }

  /** One step of decoding: the next unit, well-formed or not, and the bytes it takes. */
  method DecodeOne(bytes: seq<Byte>, i: nat, out: seq<Unit>) returns (r: seq<Unit>, next: nat)
    requires i < |bytes|
    ensures var (c, n) := First(bytes[i..]); r == out + Utf16One(c) && next == i + n
  {
    hide Utf16One, AllScalar, Trails, Value;
    var b0 := bytes[i];
    assert bytes[i..][1..] == bytes[i + 1..];
    if b0 < 0x80 {
      r := AppendWide(out, b0);
      return r, i + 1;
    }
    var extra := Extra(b0);
    if extra == 0 {
      r := AppendWide(out, REPLACEMENT);
      return r, i + 1;
    }
    var consumed, value, ok := ReadTrails(bytes, i, LeadValue(b0), extra);
    next := i + consumed;
    if !ok {
      r := AppendWide(out, REPLACEMENT);
      return r, next;
    }
    if value < MinimumOf(extra) || value > 0x10FFFF || IsSurrogate(value) {
      r := AppendWide(out, REPLACEMENT);
      return r, next;
    }
    r := AppendWide(out, value);
  }

  method WideFromUtf8(bytes: seq<Byte>) returns (out: seq<Unit>)
    ensures out == Utf16(ScalarsOfUtf8(bytes)) && IsUtf16(out)
  {
    hide First, Utf16One;
    out := [];
    var i := 0;
    while i < |bytes|
      invariant 0 <= i <= |bytes|
      invariant out + Utf16(ScalarsOfUtf8(bytes[i..])) == Utf16(ScalarsOfUtf8(bytes))
    {
      ghost var (c, n) := First(bytes[i..]);
      assert bytes[i..][n..] == bytes[i + n..];
      ghost var rest := ScalarsOfUtf8(bytes[i + n..]);
      assert ScalarsOfUtf8(bytes[i..]) == [c] + rest && ([c] + rest)[1..] == rest;
      assert out + (Utf16One(c) + Utf16(rest)) == out + Utf16One(c) + Utf16(rest);
      out, i := DecodeOne(bytes, i, out);
    }
  }

  // ---- Round trips ----

  lemma {:induction false} WideOfOne(c: CodePoint, rest: seq<Unit>)
    requires !IsSurrogate(c)
    ensures ScalarsOfWide(Utf16One(c) + rest) == [c] + ScalarsOfWide(rest)
  {
    var one := Utf16One(c);
    if |one| == 1 {
      assert !StartsWithPair(one + rest);
      assert (one + rest)[1..] == rest;
    } else {
      assert (one + rest)[0] == one[0] && (one + rest)[1] == one[1];
      PairReadsBack(c);
      assert (one + rest)[2..] == rest;
    }
  }

  lemma PairReadsBack(c: CodePoint)
    requires c > 0xFFFF
    ensures var one := Utf16One(c); IsHigh(one[0]) && IsLow(one[1]) && Pair(one[0], one[1]) == c
  {
  }

  lemma {:induction false} WideReadsBack(s: seq<CodePoint>)
    requires AllScalar(s)
    ensures ScalarsOfWide(Utf16(s)) == s
  {
    if s != [] {
      WideReadsBack(s[1..]);
      hide ScalarsOfWide;
      assert s[0] in s;
      WideOfOne(s[0], Utf16(s[1..]));
      assert s == [s[0]] + s[1..];
    } else {
      assert ScalarsOfWide([]) == [];
    }
  }

  /** One code point reads back whatever follows it. */
  lemma FirstOfOne(c: CodePoint, rest: seq<Byte>)
    requires !IsSurrogate(c)
    ensures First(Utf8One(c) + rest) == (c, |Utf8One(c)|)
  {
    var one := Utf8One(c);
    var bytes := one + rest;
    if |one| > 1 {
      var extra := Extra(one[0]);
      assert extra == |one| - 1;
      assert bytes[1..] == one[1..] + rest;
      TrailsOf(one[1..], rest);
      assert bytes[1..][..extra] == one[1..];
      ValueOf(c);
    }
  }

  lemma {:induction false} TrailsOf(trail: seq<Byte>, rest: seq<Byte>)
    requires forall b :: b in trail ==> IsTrail(b)
    ensures Trails(trail + rest, |trail|) == |trail|
  {
    if trail != [] {
      assert (trail + rest)[1..] == trail[1..] + rest;
      TrailsOf(trail[1..], rest);
    }
  }

  lemma {:induction false} ValueSnoc(lead: nat, trail: seq<Byte>, b: Byte)
    requires (forall x :: x in trail ==> IsTrail(x)) && IsTrail(b)
    ensures Value(lead, trail + [b]) == Value(lead, trail) * 0x40 + (b as int - 0x80)
  {
    assert (trail + [b])[..|trail|] == trail;
  }

  lemma SixBits(c: nat)
    ensures c / 0x40 * 0x40 + c % 0x40 == c
    ensures c / 0x1000 * 0x40 + c / 0x40 % 0x40 == c / 0x40
    ensures c / 0x4_0000 * 0x40 + c / 0x1000 % 0x40 == c / 0x1000
  {
    assert c / 0x40 / 0x40 == c / 0x1000;
    assert c / 0x1000 / 0x40 == c / 0x4_0000;
  }

  lemma ValueOf(c: CodePoint)
    requires c > 0x7F
    ensures forall b :: b in Utf8One(c)[1..] ==> IsTrail(b)
    ensures Value(LeadValue(Utf8One(c)[0]), Utf8One(c)[1..]) == c
  {
    var one := Utf8One(c);
    var lead := LeadValue(one[0]);
    SixBits(c);
    hide Value;
    LeadOnly(lead);
    ValueSnoc(lead, [], one[1]);
    if |one| == 2 {
      assert one[1..] == [] + [one[1]];
    } else if |one| == 3 {
      ValueSnoc(lead, [] + [one[1]], one[2]);
      assert one[1..] == [] + [one[1]] + [one[2]];
    } else {
      ValueSnoc(lead, [] + [one[1]], one[2]);
      ValueSnoc(lead, [] + [one[1]] + [one[2]], one[3]);
      assert one[1..] == [] + [one[1]] + [one[2]] + [one[3]];
    }
  }

  lemma {:induction false} LeadOnly(lead: nat)
    ensures Value(lead, []) == lead
  {
  }

  lemma {:induction false} ScalarsOfOne(c: CodePoint, rest: seq<Byte>)
    requires !IsSurrogate(c)
    ensures ScalarsOfUtf8(Utf8One(c) + rest) == [c] + ScalarsOfUtf8(rest)
  {
    hide First, Utf8One;
    FirstOfOne(c, rest);
    assert (Utf8One(c) + rest)[|Utf8One(c)|..] == rest;
  }

  /** A valid front is read as it is, whatever follows it. */
  lemma {:induction false} Utf8ReadsBack(s: seq<CodePoint>, rest: seq<Byte>)
    requires AllScalar(s)
    ensures ScalarsOfUtf8(Utf8(s) + rest) == s + ScalarsOfUtf8(rest)
  {
    hide ScalarsOfUtf8, Utf8One;
    if s == [] {
      assert Utf8(s) + rest == rest;
      assert s + ScalarsOfUtf8(rest) == ScalarsOfUtf8(rest);
    } else {
      Utf8ReadsBack(s[1..], rest);
      assert s[0] in s;
      ScalarsOfOne(s[0], Utf8(s[1..]) + rest);
      assert Utf8(s) + rest == Utf8One(s[0]) + (Utf8(s[1..]) + rest);
      hide Utf8;
      assert s + ScalarsOfUtf8(rest) == [s[0]] + (s[1..] + ScalarsOfUtf8(rest));
    }
  }

  lemma {:induction false} Utf8ReadsAllBack(s: seq<CodePoint>)
    requires AllScalar(s)
    ensures ScalarsOfUtf8(Utf8(s)) == s
  {
    Utf8ReadsBack(s, []);
    assert Utf8(s) + [] == Utf8(s) && s + [] == s;
  }

  /** A wide string survives encoding and decoding exactly when it is well-formed. */
  lemma {:induction false} WideRoundTrip(wide: seq<Unit>)
    ensures Utf16(ScalarsOfUtf8(Utf8(ScalarsOfWide(wide)))) == wide <==> IsUtf16(wide)
  {
    hide Utf16, ScalarsOfWide, ScalarsOfUtf8, Utf8;
    Utf8ReadsAllBack(ScalarsOfWide(wide));
    if IsUtf16(wide) {
      var s :| AllScalar(s) && Utf16(s) == wide;
      WideReadsBack(s);
    }
  }

  /** Bytes survive decoding and encoding exactly when they are valid UTF-8. */
  lemma {:induction false} ByteRoundTrip(bytes: seq<Byte>)
    ensures Utf8(ScalarsOfWide(Utf16(ScalarsOfUtf8(bytes)))) == bytes <==> IsUtf8(bytes)
  {
    hide Utf16, ScalarsOfWide, ScalarsOfUtf8, Utf8;
    WideReadsBack(ScalarsOfUtf8(bytes));
    if IsUtf8(bytes) {
      var s :| AllScalar(s) && Utf8(s) == bytes;
      Utf8ReadsAllBack(s);
    }
  }
}
