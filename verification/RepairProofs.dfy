/** Repairing a header against reading it: what repair keeps, and when it changes what is read. */
module RepairProofs {
  import opened HeaderLines
  import opened EmlNormalizer

  // ---- Content ----

  /** The bytes that are neither line breaks nor NUL. */
  function Content(t: Text): Text {
    if t == [] then [] else (if IsBreak(t[0]) || t[0] == NUL then [] else [t[0]]) + Content(t[1..])
  }

  lemma {:induction false} ContentConcat(a: Text, b: Text)
    ensures Content(a + b) == Content(a) + Content(b)
  {
    if a == [] {
      assert a + b == b;
    } else {
      assert (a + b)[1..] == a[1..] + b;
      ContentConcat(a[1..], b);
    }
  }

  lemma {:induction false} ScrubKeepsContent(line: Text)
    ensures Content(Scrubbed(line)) == Content(line)
  {
    if line != [] {
      ScrubKeepsContent(line[1..]);
      ContentConcat(if line[0] == NUL then [] else [line[0]], Scrubbed(line[1..]));
      assert [line[0]][1..] == [];
    }
  }

  lemma {:induction false} OnlyBreaks(t: Text)
    requires forall b :: b in t ==> IsBreak(b)
    ensures Content(t) == []
  {
    if t != [] {
      assert t[0] in t;
      OnlyBreaks(t[1..]);
    }
  }

  lemma BreaksHaveNoContent(t: Text)
    ensures Content(LineBreak(t)) == [] && Content(CRLF) == []
  {
    OnlyBreaks(LineBreak(t));
    OnlyBreaks(CRLF);
  }

  lemma CutAsConcat(t: Text)
    ensures t == FirstLine(t) + LineBreak(t) + AfterLine(t)
  {
  }

  /** Nothing but breaks and NUL bytes is lost or added while walking. */
  lemma {:induction false} WalkKeepsContent(t: Text)
    ensures Content(t) == Content(HeaderOf(Walk(t).lines)) + Content(Walk(t).rest)
    decreases |t|
  {
    hide IsHeaderLike, Content, Scrubbed, IsBad, Walk, HeaderOf, FirstLine, LineBreak, AfterLine;
    var w := Walk(t);
    WalkCases(t);
    NoContent();
    HeaderOfCons([], []);
    if w.lines == [] {
      if w.stop == Separator {
        ContentOfCut(t);
      }
    } else {
      var line, v := FirstLine(t), Walk(AfterLine(t));
      ContentOfCut(t);
      WalkKeepsContent(AfterLine(t));
      HeaderOfCons(line, v.lines);
      LineContent(Scrubbed(line), HeaderOf(v.lines));
      ScrubKeepsContent(line);
      assert Content(line) + (Content(HeaderOf(v.lines)) + Content(v.rest)) == Content(line) + Content(HeaderOf(v.lines)) + Content(v.rest);
    }
  }

  lemma NoContent()
    ensures Content([]) == []
  {
  }

  lemma {:induction false} ContentOfCut(t: Text)
    ensures Content(t) == Content(FirstLine(t)) + Content(AfterLine(t))
  {
    CutAsConcat(t);
    BreaksHaveNoContent(t);
    ContentConcat(FirstLine(t) + LineBreak(t), AfterLine(t));
    ContentConcat(FirstLine(t), LineBreak(t));
    hide Content, FirstLine, LineBreak, AfterLine;
    assert Content(FirstLine(t)) + [] == Content(FirstLine(t));
  }

  lemma {:induction false} LineContent(line: Text, more: Text)
    ensures Content(line + CRLF + more) == Content(line) + Content(more)
  {
    BreaksHaveNoContent([]);
    ContentConcat(line + CRLF, more);
    ContentConcat(line, CRLF);
    hide Content;
    assert Content(line) + [] == Content(line);
  }

  lemma {:induction false} RestIsSuffix(t: Text)
    ensures Walk(t).rest == t[|t| - |Walk(t).rest|..]
    decreases |t|
  {
    hide IsHeaderLike, IsBad;
    if t != [] && Walk(t).lines != [] {
      RestIsSuffix(AfterLine(t));
    }
  }

  /** Repair conserves content: the consumed header, after a BOM, and the rewritten one agree byte for
      byte but for line breaks and NUL bytes. */
  lemma RepairConservesContent(prefix: Text, cap: nat)
    ensures var n := Normalized(prefix, cap); var bom := BomLength(Window(prefix, cap));
      && bom <= n.originalBytes <= |prefix|
      && Content(n.header) == Content(prefix[bom..n.originalBytes])
  {
    hide Content, Walk, HeaderOf;
    var window := Window(prefix, cap);
    var bom := BomLength(window);
    var t := window[bom..];
    var w := Walk(t);
    WalkKeepsContent(t);
    RestIsSuffix(t);
    var used := t[..|t| - |w.rest|];
    assert t == used + w.rest;
    assert used == prefix[bom..|window| - |w.rest|];
    ContentConcat(used, w.rest);
    ContentConcat(HeaderOf(w.lines), CRLF);
    BreaksHaveNoContent([]);
    assert Content(HeaderOf(w.lines)) + [] == Content(HeaderOf(w.lines));
    assert Content(used) == Content(HeaderOf(w.lines)) by {
      SameFront(Content(used), Content(HeaderOf(w.lines)), Content(w.rest));
    }
  }

  lemma SameFront(a: Text, b: Text, c: Text)
    requires a + c == b + c
    ensures a == b
  {
    assert a == (a + c)[..|a|] && b == (b + c)[..|b|];
  }

  /** If nothing is reported changed, the header is byte-identical. */
  lemma UnchangedIsIdentical(prefix: Text, cap: nat)
    requires !Normalized(prefix, cap).changed
    ensures var n := Normalized(prefix, cap); n.originalBytes <= |prefix| && n.header == prefix[..n.originalBytes]
  {
    hide Walk, HeaderOf;
    var window := Window(prefix, cap);
    assert window[0..] == window;
    var w := Walk(window);
    WalkOfIntact(window);
    var header := HeaderOf(w.lines) + CRLF;
    assert window == header + w.rest;
    assert header == window[..|header|] == prefix[..|header|];
  }

  lemma {:induction false} WalkOfIntact(t: Text)
    requires var w := Walk(t); w.stop == Separator && !AnyNul(w.lines) && !w.badBreak
    ensures var w := Walk(t); t == HeaderOf(w.lines) + CRLF + w.rest
    decreases |t|
  {
    hide IsHeaderLike, Scrubbed, Walk, HeaderOf, FirstLine, LineBreak, AfterLine, AnyNul;
    CutAsConcat(t);
    WalkCases(t);
    BreakIsThere(t);
    HeaderOfCons([], []);
    var w := Walk(t);
    if w.lines != [] {
      var line, v := FirstLine(t), Walk(AfterLine(t));
      FirstNul(line, v.lines);
      WalkOfIntact(AfterLine(t));
      HeaderOfCons(line, v.lines);
      ScrubbedIsClean(line);
      assert line + CRLF + (HeaderOf(v.lines) + CRLF + v.rest) == line + CRLF + HeaderOf(v.lines) + CRLF + v.rest;
    }
  }

  /** Before another line there is a line break. */
  lemma BreakIsThere(t: Text)
    ensures AfterLine(t) != [] ==> LineBreak(t) != []
    ensures t != [] && FirstLine(t) == [] ==> LineBreak(t) != []
    ensures Walk([]).stop == Exhausted
  {
  }

  lemma FirstNul(line: Text, lines: seq<Text>)
    ensures AnyNul([line] + lines) <==> NUL in line || AnyNul(lines)
  {
    if NUL in line { assert ([line] + lines)[0] == line; }
    if AnyNul(lines) {
      var k :| 0 <= k < |lines| && NUL in lines[k];
      assert ([line] + lines)[k + 1] == lines[k];
    }
  }
}
