/** The encodings against the layouts and examples of their standards. */
module UtfLayout {
  import opened Utf

  predicate Between(b: Byte, low: int, high: int) {
    low <= b <= high
  }

  predicate IsTwo(b: seq<Byte>, c: int) {
    |b| == 2 && Between(b[0], 0xC2, 0xDF) && Between(b[1], 0x80, 0xBF) && c == (b[0] as int - 0xC0) * 64 + (b[1] as int - 0x80)
  }

  predicate IsThree(b: seq<Byte>, c: int) {
    && |b| == 3 && Between(b[0], 0xE0, 0xEF) && Between(b[1], 0x80, 0xBF) && Between(b[2], 0x80, 0xBF)
    && c == (b[0] as int - 0xE0) * 4096 + (b[1] as int - 0x80) * 64 + (b[2] as int - 0x80)
  }

  predicate IsFour(b: seq<Byte>, c: int) {
    && |b| == 4 && Between(b[0], 0xF0, 0xF4) && Between(b[1], 0x80, 0xBF) && Between(b[2], 0x80, 0xBF)
    && Between(b[3], 0x80, 0xBF)
    && c == (b[0] as int - 0xF0) * 262144 + (b[1] as int - 0x80) * 4096 + (b[2] as int - 0x80) * 64 + (b[3] as int - 0x80)
  }

  lemma TwoBytes(c: CodePoint)
    requires 0x80 <= c <= 0x7FF
    ensures IsTwo(Utf8One(c), c)
  {
  }

  lemma ThreeBytes(c: CodePoint)
    requires 0x800 <= c <= 0xFFFF
    ensures IsThree(Utf8One(c), c)
  {
    assert c / 0x1000 == c / 0x40 / 0x40;
  }

  lemma FourBytes(c: CodePoint)
    requires 0x1_0000 <= c
    ensures IsFour(Utf8One(c), c)
  {
    assert c / 0x1000 == c / 0x40 / 0x40 && c / 0x4_0000 == c / 0x1000 / 0x40;
  }

  /** Section 3 of RFC 3629: the number of bytes by the size of the code point, the ranges of the bytes, and the
      code point from their free bits. */
  lemma LayoutOfUtf8(c: CodePoint)
    ensures var b := Utf8One(c);
      if c <= 0x7F then b == [c] else if c <= 0x7FF then IsTwo(b, c) else if c <= 0xFFFF then IsThree(b, c) else IsFour(b, c)
  {
    hide IsTwo, IsThree, IsFour;
    if 0x80 <= c {
      if c <= 0x7FF {
        TwoBytes(c);
      } else if c <= 0xFFFF {
        ThreeBytes(c);
      } else {
        FourBytes(c);
      }
    }
  }

  /** Section 2 of RFC 2781: a surrogate pair for a code point beyond 16 bits. */
  lemma LayoutOfUtf16(c: CodePoint)
    ensures var u := Utf16One(c);
      if c <= 0xFFFF then u == [c]
      else |u| == 2 && IsHigh(u[0]) && IsLow(u[1]) && c == 0x10000 + (u[0] as int - 0xD800) * 1024 + (u[1] as int - 0xDC00)
  {
  }

  lemma EncodesThree(a: CodePoint, b: CodePoint, c: CodePoint)
    ensures Utf8([a, b, c]) == Utf8One(a) + Utf8One(b) + Utf8One(c)
  {
    hide Utf8One;
    assert [a, b, c][1..] == [b, c] && [b, c][1..] == [c] && [c][1..] == [];
    assert Utf8([c]) == Utf8One(c) + [] == Utf8One(c);
    assert Utf8([b, c]) == Utf8One(b) + Utf8([c]);
    assert Utf8One(a) + (Utf8One(b) + Utf8One(c)) == Utf8One(a) + Utf8One(b) + Utf8One(c);
  }

  lemma Hangul()
    ensures Utf8One(0xD55C) == [0xED, 0x95, 0x9C] && Utf8One(0xAD6D) == [0xEA, 0xB5, 0xAD] && Utf8One(0xC5B4) == [0xEC, 0x96, 0xB4]
  {
  }

  lemma Han()
    ensures Utf8One(0x65E5) == [0xE6, 0x97, 0xA5] && Utf8One(0x672C) == [0xE6, 0x9C, 0xAC] && Utf8One(0x8A9E) == [0xE8, 0xAA, 0x9E]
  {
  }

  lemma BeyondSixteenBits()
    ensures Utf8One(0x233B4) == [0xF0, 0xA3, 0x8E, 0xB4] && Utf16One(0x12345) == [0xD808, 0xDF45]
  {
  }

  /** The examples of section 7 of RFC 3629: three Hangul syllables, three Han characters, one beyond 16 bits;
      and that of section 5 of RFC 2781. */
  lemma PublishedExamples()
    ensures Utf8([0xD55C, 0xAD6D, 0xC5B4]) == [0xED, 0x95, 0x9C, 0xEA, 0xB5, 0xAD, 0xEC, 0x96, 0xB4]
    ensures Utf8([0x65E5, 0x672C, 0x8A9E]) == [0xE6, 0x97, 0xA5, 0xE6, 0x9C, 0xAC, 0xE8, 0xAA, 0x9E]
    ensures Utf8One(0x233B4) == [0xF0, 0xA3, 0x8E, 0xB4] && Utf16One(0x12345) == [0xD808, 0xDF45]
  {
    hide Utf8, Utf8One;
    EncodesThree(0xD55C, 0xAD6D, 0xC5B4);
    EncodesThree(0x65E5, 0x672C, 0x8A9E);
    Hangul();
    Han();
    BeyondSixteenBits();
  }
}
