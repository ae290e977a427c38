/** The lines of a header section, as both header scanners cut them. */
module HeaderLines {
  import opened Utf

  const CR: Byte := 0x0D
  const LF: Byte := 0x0A
  const NUL: Byte := 0x00
  const TAB: Byte := 0x09
  const SPACE: Byte := 0x20
  const COLON: Byte := 0x3A
  const BOM: seq<Byte> := [0xEF, 0xBB, 0xBF]
  const CRLF: seq<Byte> := [CR, LF]

  type Text = seq<Byte>

  /** Only the first `cap` bytes are ever looked at. */
  function Window(prefix: Text, cap: nat): Text {
    if |prefix| <= cap then prefix else prefix[..cap]
  }

  predicate IsBreak(b: Byte) { b == CR || b == LF }
  predicate IsBlank(b: Byte) { b == SPACE || b == TAB }

  /** The bytes before the first line break. */
  function LineLength(t: Text): (n: nat)
    ensures n <= |t| && (forall k :: 0 <= k < n ==> !IsBreak(t[k])) && (n < |t| ==> IsBreak(t[n]))
  {
    if t == [] || IsBreak(t[0]) then 0 else 1 + LineLength(t[1..])
  }

  /** CR, LF or CRLF; nothing at the end of the text. */
  function BreakLength(t: Text): (n: nat)
    ensures LineLength(t) + n <= |t| && n <= 2 && (LineLength(t) < |t| ==> n > 0)
  {
    var e := LineLength(t);
    if e == |t| then 0
    else if t[e] == CR && e + 1 < |t| && t[e + 1] == LF then 2
    else 1
  }

  function FirstLine(t: Text): Text { t[..LineLength(t)] }
  function LineBreak(t: Text): Text { t[LineLength(t)..LineLength(t) + BreakLength(t)] }
  function AfterLine(t: Text): (rest: Text)
    ensures t != [] ==> |rest| < |t|
  {
    t[LineLength(t) + BreakLength(t)..]
  }

  lemma {:induction false} LineIs(t: Text, n: nat)
    requires n <= |t| && (forall k :: 0 <= k < n ==> !IsBreak(t[k])) && (n < |t| ==> IsBreak(t[n]))
    ensures LineLength(t) == n
  {
  }

  /** A line of a window, by positions. */
  lemma CutsAt(window: Text, pos: nat)
    requires pos <= |window|
    ensures var t := window[pos..]; var e := pos + LineLength(t); var next := e + BreakLength(t);
      && FirstLine(t) == window[pos..e] && LineBreak(t) == window[e..next] && AfterLine(t) == window[next..]
  {
  }

  predicate OneLine(line: Text) {
    forall b :: b in line ==> !IsBreak(b)
  }

  /** The line without its NUL bytes. */
  function Scrubbed(line: Text): Text {
    if line == [] then [] else (if line[0] == NUL then [] else [line[0]]) + Scrubbed(line[1..])
  }

  lemma {:induction false} ScrubbedIsClean(line: Text)
    ensures NUL !in Scrubbed(line) && (OneLine(line) ==> OneLine(Scrubbed(line)))
    ensures NUL !in line ==> Scrubbed(line) == line
  {
    if line != [] {
      ScrubbedIsClean(line[1..]);
      assert line == [line[0]] + line[1..];
    }
  }

  lemma {:induction false} ScrubbedSnoc(line: Text, b: Byte)
    ensures Scrubbed(line + [b]) == Scrubbed(line) + if b == NUL then [] else [b]
  {
    if line == [] {
      assert [b][1..] == [];
    } else {
      assert (line + [b])[1..] == line[1..] + [b];
      ScrubbedSnoc(line[1..], b);
    }
  }

  method Scrub(line: Text) returns (out: Text, hadNul: bool)
    ensures out == Scrubbed(line) && (hadNul <==> NUL in line)
  {
    out, hadNul := [], false;
    for k := 0 to |line|
      invariant out == Scrubbed(line[..k]) && (hadNul <==> NUL in line[..k])
    {
      assert line[..k + 1] == line[..k] + [line[k]];
      ScrubbedSnoc(line[..k], line[k]);
      if line[k] == NUL {
        hadNul := true;
      } else {
        out := out + [line[k]];
      }
    }
    assert line[..|line|] == line;
  }

  function IndexOf(t: Text, b: Byte): (k: nat)
    ensures k <= |t| && (k < |t| ==> t[k] == b) && b !in t[..k] && (k == |t| <==> b !in t)
  {
    if t == [] || t[0] == b then 0
    else
      var k := 1 + IndexOf(t[1..], b);
      assert t[..k] == [t[0]] + t[1..][..k - 1];
      assert t == [t[0]] + t[1..];
      k
  }

  /** Lines ended by CRLF. */
  function Rendered(lines: seq<Text>): Text {
    if lines == [] then [] else lines[0] + CRLF + Rendered(lines[1..])
  }

  lemma {:induction false} RenderedSnoc(lines: seq<Text>, line: Text)
    ensures Rendered(lines + [line]) == Rendered(lines) + line + CRLF
  {
    if lines == [] {
      assert Rendered([line]) == line + CRLF + [] && [line][1..] == [];
    } else {
      RenderedSnoc(lines[1..], line);
      assert (lines + [line])[1..] == lines[1..] + [line];
      assert lines[0] + CRLF + (Rendered(lines[1..]) + line + CRLF) == (lines[0] + CRLF + Rendered(lines[1..])) + line + CRLF;
    }
  }

  /** A rendered text starts with its first line, which ends in CRLF. */
  lemma RenderedFirst(line: Text, more: Text)
    requires OneLine(line)
    ensures var t := line + CRLF + more; FirstLine(t) == line && LineBreak(t) == CRLF && AfterLine(t) == more
  {
    var t := line + CRLF + more;
    assert forall k :: 0 <= k < |line| ==> t[k] in line;
    assert t[|line|] == CR && t[|line| + 1] == LF;
    LineIs(t, |line|);
  }
}
