/** When repair is a fixed point, and when it leaves what is read from a header as it was. */
module RepairReading {
  import opened HeaderLines
  import opened EmlNormalizer
  import opened HeaderInspector

  ghost predicate OneLineEach(lines: seq<Text>) {
    forall l :: l in lines ==> OneLine(l)
  }

  lemma {:induction false} WalkedLines(t: Text)
    ensures OneLineEach(Walk(t).lines)
    decreases |t|
  {
    hide Walk, IsHeaderLike, AfterLine;
    WalkCases(t);
    if Walk(t).lines != [] {
      WalkedLines(AfterLine(t));
    }
  }

  lemma {:induction false} NulsShow(t: Text)
    ensures |Walk(t).rest| <= |t| && (AnyNul(Walk(t).lines) ==> NUL in t[..|t| - |Walk(t).rest|])
    decreases |t|
  {
    hide Walk, IsHeaderLike;
    WalkCases(t);
    if Walk(t).lines != [] {
      var line, after := FirstLine(t), AfterLine(t);
      var rest := Walk(after).rest;
      NulsShow(after);
      assert Walk(t).lines == [line] + Walk(after).lines;
      var used := t[..|t| - |rest|];
      assert used == t[..|t| - |after|] + after[..|after| - |rest|];
      assert forall b :: b in line ==> b in t[..|t| - |after|];
    }
  }

  // ---- Repairing twice ----

  ghost predicate AllHeaderLike(lines: seq<Text>) {
    forall l :: l in lines ==> IsHeaderLike(Scrubbed(l))
  }

  lemma {:induction false} StepOf(line: Text, more: Text)
    requires OneLine(line)
    ensures var t := Scrubbed(line) + CRLF + more;
      && t != [] && FirstLine(t) == Scrubbed(line) && LineBreak(t) == CRLF && AfterLine(t) == more
      && NUL !in Scrubbed(line) && Scrubbed(Scrubbed(line)) == Scrubbed(line)
  {
    ScrubbedIsClean(line);
    ScrubbedIsClean(Scrubbed(line));
    RenderedFirst(Scrubbed(line), more);
  }

  lemma HeaderSplits(lines: seq<Text>, rest: Text)
    requires lines != []
    ensures HeaderOf(lines) + CRLF + rest == Scrubbed(lines[0]) + CRLF + (HeaderOf(lines[1..]) + CRLF + rest)
  {
    hide HeaderOf, Scrubbed;
    HeaderOfCons(lines[0], lines[1..]);
    assert lines == [lines[0]] + lines[1..];
  }

  /** Walking rewritten lines again finds them again, up to the first that is no header line. */
  lemma {:induction false} WalkRewritten(lines: seq<Text>, rest: Text)
    requires OneLineEach(lines)
    ensures var w := Walk(HeaderOf(lines) + CRLF + rest);
      if AllHeaderLike(lines)
      then w.stop == Separator && w.rest == rest && !w.badBreak && HeaderOf(w.lines) == HeaderOf(lines) && !AnyNul(w.lines)
      else w.stop == Boundary || (w.stop == Separator && |w.rest| > |rest|)
    decreases |lines|
  {
    hide IsHeaderLike, Scrubbed, HeaderOf, FirstLine, LineBreak, AfterLine, OneLine;
    if lines == [] {
      NoLines(rest);
    } else {
      var line, more := lines[0], HeaderOf(lines[1..]) + CRLF + rest;
      HeaderSplits(lines, rest);
      StepOf(line, more);
      if IsHeaderLike(Scrubbed(line)) {
        WalkRewritten(lines[1..], rest);
        var v := Walk(more);
        HeaderOfCons(Scrubbed(line), v.lines);
        HeaderOfCons(line, lines[1..]);
        assert lines == [line] + lines[1..];
        ScrubbedNul(line, v.lines);
        HeaderLikeIsNonempty(Scrubbed(line));
        hide AnyNul;
        assert AllHeaderLike(lines) <==> AllHeaderLike(lines[1..]);
      }
    }
  }

  lemma HeaderLikeIsNonempty(line: Text)
    requires IsHeaderLike(line)
    ensures line != []
  {
  }

  lemma {:induction false} ScrubbedNul(line: Text, lines: seq<Text>)
    ensures AnyNul([Scrubbed(line)] + lines) <==> AnyNul(lines)
  {
    ScrubbedIsClean(line);
    hide Scrubbed;
    if AnyNul(lines) {
      var k :| 0 <= k < |lines| && NUL in lines[k];
      assert ([Scrubbed(line)] + lines)[k + 1] == lines[k];
    }
  }

  lemma {:induction false} NoLines(rest: Text)
    ensures HeaderOf([]) == [] && Walk(HeaderOf([]) + CRLF + rest) == Walked([], Separator, rest, false)
  {
    RenderedFirst([], rest);
    assert HeaderOf([]) + CRLF + rest == [] + CRLF + rest;
    hide IsHeaderLike;
  }

  ghost predicate StartsWithBom(lines: seq<Text>) {
    lines != [] && BOM <= Scrubbed(lines[0])
  }

  lemma BomInFront(lines: seq<Text>, rest: Text)
    requires OneLineEach(lines)
    ensures BOM <= HeaderOf(lines) + CRLF + rest <==> StartsWithBom(lines)
  {
    if lines == [] {
      NoLines(rest);
    } else {
      HeaderSplits(lines, rest);
      StepOf(lines[0], HeaderOf(lines[1..]) + CRLF + rest);
      hide Scrubbed, HeaderOf;
      var s := Scrubbed(lines[0]);
      var t := s + CRLF + (HeaderOf(lines[1..]) + CRLF + rest);
      if |s| < 3 {
        assert t[|s|] == CR;
      } else {
        assert t[..3] == s[..3];
      }
    }
  }

  lemma HeaderLikeIsNoBom(line: Text)
    requires IsHeaderLike(line)
    ensures !(BOM <= line)
  {
    assert line[0] <= 126;
    assert BOM[0] > 126;
  }

  lemma WindowOfRepaired(header: Text, more: Text, cap: nat)
    requires |header| <= cap
    ensures exists kept :: Window(header + more, cap) == header + kept
  {
    if |header + more| <= cap {
      assert Window(header + more, cap) == header + more;
    } else {
      assert Window(header + more, cap) == header + more[..cap - |header|];
    }
  }

  /** Repairing a repaired message changes nothing and consumes exactly the rewritten header, if and
      only if every kept line is a header line once its NUL bytes are gone. */
  lemma RepairIsFixedExactly(prefix: Text, cap: nat, more: Text, cap2: nat)
    requires |Normalized(prefix, cap).header| <= cap2
    ensures var n := Normalized(prefix, cap); var m := Normalized(n.header + more, cap2);
      m.header == n.header && m.originalBytes == |n.header| && !m.changed <==> AllHeaderLike(HeaderWalk(prefix, cap).lines)
  {
    hide Walk, HeaderOf, IsHeaderLike, Scrubbed, AnyNul;
    var w := HeaderWalk(prefix, cap);
    var header := HeaderOf(w.lines) + CRLF;
    WalkedLines(Window(prefix, cap)[BomLength(Window(prefix, cap))..]);
    WindowOfRepaired(header, more, cap2);
    var kept :| Window(header + more, cap2) == header + kept;
    BomInFront(w.lines, kept);
    WalkRewritten(w.lines, kept);
    if StartsWithBom(w.lines) && AllHeaderLike(w.lines) {
      HeaderLikeIsNoBom(Scrubbed(w.lines[0]));
    }
    assert (header + kept)[0..] == header + kept;
  }

  // ---- Reading before and after ----

  predicate IsReadable(line: Text) {
    line != [] && (IsBlank(line[0]) || COLON in line)
  }

  ghost predicate AllReadable(lines: seq<Text>) {
    forall l :: l in lines ==> IsReadable(Scrubbed(l))
  }

  function CursorAfter(c: Cursor, lines: seq<Text>): (d: Cursor)
    requires IsCursor(c)
    ensures IsCursor(d)
    decreases |lines|
  {
    if lines == [] then c else CursorAfter(TakeLine(c, Scrubbed(lines[0])), lines[1..])
  }

  lemma {:induction false} ReasonsStay(t: Text, c: Cursor, reasons: seq<Reason>)
    requires IsCursor(c) && reasons != []
    ensures ReadLines(t, c, reasons).reasons != []
    decreases |t|
  {
    hide TakeLine, Scrubbed, LacksColon;
    if t != [] && LineBreak(t) != [] && FirstLine(t) != [] {
      var r := if LineBreak(t) == [CR] then WithReason(reasons, BareCr) else reasons;
      ReasonsStay(AfterLine(t), TakeLine(c, Scrubbed(FirstLine(t))), LineReasons(r, FirstLine(t)));
    }
  }

  lemma {:induction false} ReadFirst(line: Text, more: Text, c: Cursor, reasons: seq<Reason>)
    requires IsCursor(c) && OneLine(line)
    ensures var t := Scrubbed(line) + CRLF + more; var s := Scrubbed(line);
      ReadLines(t, c, reasons) ==
        if s == [] then Reading(c, reasons, true, more)
        else ReadLines(more, TakeLine(c, s), if IsReadable(s) then reasons else WithReason(reasons, LineWithoutColon))
  {
    StepOf(line, more);
    hide TakeLine, Scrubbed, FirstLine, LineBreak, AfterLine, WithReason;
  }

  /** Reading rewritten lines finds their fields, a separator right behind them and nothing wrong;
      unless one of them cannot be read. */
  lemma {:induction false} ReadRewritten(lines: seq<Text>, rest: Text, c: Cursor, reasons: seq<Reason>)
    requires OneLineEach(lines) && IsCursor(c)
    ensures var r := ReadLines(HeaderOf(lines) + CRLF + rest, c, reasons);
      if AllReadable(lines) then r == Reading(CursorAfter(c, lines), reasons, true, rest)
      else r.reasons != [] || |r.rest| > |rest|
    decreases |lines|
  {
    hide Scrubbed, HeaderOf, TakeLine, IsReadable, ReadLines, OneLine, IsCursor;
    if lines == [] {
      NoLinesRead(rest, c, reasons);
    } else {
      var line, more := lines[0], HeaderOf(lines[1..]) + CRLF + rest;
      HeaderSplits(lines, rest);
      ReadFirst(line, more, c, reasons);
      if IsReadable(Scrubbed(line)) {
        ReadableIsNonempty(Scrubbed(line));
        ReadRewritten(lines[1..], rest, TakeLine(c, Scrubbed(line)), reasons);
        assert AllReadable(lines) <==> AllReadable(lines[1..]);
      } else if Scrubbed(line) != [] {
        ReasonsStay(more, TakeLine(c, Scrubbed(line)), WithReason(reasons, LineWithoutColon));
      }
    }
  }

  lemma ReadableIsNonempty(line: Text)
    requires IsReadable(line)
    ensures line != []
  {
  }

  lemma {:induction false} NoLinesRead(rest: Text, c: Cursor, reasons: seq<Reason>)
    requires IsCursor(c)
    ensures ReadLines(HeaderOf([]) + CRLF + rest, c, reasons) == Reading(c, reasons, true, rest)
  {
    RenderedFirst([], rest);
    assert HeaderOf([]) + CRLF + rest == [] + CRLF + rest;
    hide TakeLine, LineReasons;
  }

  /** A cursor that can no longer change its first fields. */
  ghost predicate Keeps(c: Cursor, fields: seq<Field>) {
    fields <= c.fields && (c.open ==> |fields| < |c.fields|)
  }

  lemma {:induction false} FieldsStay(t: Text, c: Cursor, reasons: seq<Reason>, fields: seq<Field>)
    requires IsCursor(c) && Keeps(c, fields)
    ensures fields <= ReadLines(t, c, reasons).cursor.fields
    decreases |t|
  {
    hide LineReasons, WithReason, Scrubbed;
    if t != [] && LineBreak(t) != [] && FirstLine(t) != [] {
      TakeKeeps(c, Scrubbed(FirstLine(t)), fields);
      var r := if LineBreak(t) == [CR] then WithReason(reasons, BareCr) else reasons;
      FieldsStay(AfterLine(t), TakeLine(c, Scrubbed(FirstLine(t))), LineReasons(r, FirstLine(t)), fields);
    } else if t != [] && LineBreak(t) == [] {
      TakeKeeps(c, Scrubbed(FirstLine(t)), fields);
    }
  }

  lemma TakeKeeps(c: Cursor, line: Text, fields: seq<Field>)
    requires IsCursor(c) && Keeps(c, fields)
    ensures Keeps(TakeLine(c, line), fields)
  {
  }

  /** A line that starts no continuation leaves the fields before it alone. */
  lemma {:induction false} BoundaryKeeps(t: Text, c: Cursor, reasons: seq<Reason>)
    requires IsCursor(c) && t != [] && FirstLine(t) != [] && !IsBlank(FirstLine(t)[0]) && NUL !in FirstLine(t)
    ensures c.fields <= ReadLines(t, c, reasons).cursor.fields
  {
    var line := FirstLine(t);
    ScrubbedIsClean(line);
    var d := TakeLine(c, line);
    assert Keeps(d, c.fields);
    hide LineReasons, WithReason, Scrubbed, TakeLine;
    if LineBreak(t) != [] {
      var r := if LineBreak(t) == [CR] then WithReason(reasons, BareCr) else reasons;
      FieldsStay(AfterLine(t), d, LineReasons(r, line), c.fields);
    }
  }

  /** What is read from a message starts with the fields of the lines that repair keeps; if repair did
      not guess a boundary it is exactly those. */
  lemma {:induction false} ReadOriginal(t: Text, c: Cursor, reasons: seq<Reason>)
    requires IsCursor(c)
    ensures var w := Walk(t); var r := ReadLines(t, c, reasons);
      if w.stop != Boundary then r.cursor == CursorAfter(c, w.lines)
      else CursorAfter(c, w.lines).fields <= r.cursor.fields
    decreases |t|
  {
    hide Walk, TakeLine, LineReasons, WithReason, Scrubbed;
    var w := Walk(t);
    WalkCases(t);
    if w.lines == [] {
      if w.stop == Boundary {
        BoundaryKeeps(t, c, reasons);
      }
    } else {
      hide IsHeaderLike;
      var line, v := FirstLine(t), Walk(AfterLine(t));
      assert w.lines[1..] == v.lines;
      var d := TakeLine(c, Scrubbed(line));
      if LineBreak(t) == [] {
        assert AfterLine(t) == [];
        WalkCases([]);
      } else {
        var r := if LineBreak(t) == [CR] then WithReason(reasons, BareCr) else reasons;
        ReadOriginal(AfterLine(t), d, LineReasons(r, line));
      }
    }
  }

  /** The boundary was guessed: a separator was inserted before the end of what was examined. */
  predicate BoundaryGuessed(prefix: Text, cap: nat) {
    Normalized(prefix, cap).separatorInserted && Normalized(prefix, cap).originalBytes < |Window(prefix, cap)|
  }

  lemma GuessedIsBoundary(prefix: Text, cap: nat)
    ensures BoundaryGuessed(prefix, cap) <==> HeaderWalk(prefix, cap).stop == Boundary
  {
    hide IsHeaderLike, HeaderOf;
    var t := Window(prefix, cap)[BomLength(Window(prefix, cap))..];
    StopAndRest(t);
    hide Walk;
  }

  lemma {:induction false} StopAndRest(t: Text)
    ensures var w := Walk(t);
      (w.stop == Boundary ==> w.rest != []) && (w.stop == Exhausted ==> w.rest == []) && |w.rest| <= |t|
    decreases |t|
  {
    hide Walk, IsHeaderLike;
    WalkCases(t);
    if Walk(t).lines != [] {
      StopAndRest(AfterLine(t));
    }
  }

  ghost predicate SameReading(prefix: Text, cap: nat, before: Inspection, after: Inspection) {
    && after.separatorFound && after.headerBytes == |Normalized(prefix, cap).header| && after.reasons == []
    && after.fields <= before.fields
    && (!BoundaryGuessed(prefix, cap) ==> after.fields == before.fields)
  }

  /** Repair leaves what is read as it was - the same fields, or the first of them where a boundary was
      guessed, the separator right behind the rewritten header, and nothing malformed - if and only if
      every kept line can be read once its NUL bytes are gone and none uncovers a BOM at the front. */
  lemma RepairKeepsReadingExactly(prefix: Text, cap: nat, more: Text, cap2: nat)
    requires |Normalized(prefix, cap).header| <= cap2
    ensures var lines := HeaderWalk(prefix, cap).lines;
      SameReading(prefix, cap, Inspected(prefix, cap), Inspected(Normalized(prefix, cap).header + more, cap2))
      <==> AllReadable(lines) && !StartsWithBom(lines)
  {
    hide Walk, HeaderOf, IsReadable, Scrubbed, ReadLines, CursorAfter, BoundaryGuessed;
    var window := Window(prefix, cap);
    var t := window[BomLength(window)..];
    var w := Walk(t);
    var header := HeaderOf(w.lines) + CRLF;
    WalkedLines(t);
    GuessedIsBoundary(prefix, cap);
    ReadOriginal(t, NO_FIELDS, if BOM <= window then [Utf8BomAtStart] else []);
    assert window[0..] == window;
    WindowOfRepaired(header, more, cap2);
    var kept :| Window(header + more, cap2) == header + kept;
    BomInFront(w.lines, kept);
    ReadRewritten(w.lines, kept, NO_FIELDS, []);
    if StartsWithBom(w.lines) {
      ReasonsStay((header + kept)[3..], NO_FIELDS, [Utf8BomAtStart]);
    }
  }

  lemma HeaderLikeIsReadable(line: Text)
    requires IsHeaderLike(line)
    ensures IsReadable(line)
  {
  }

  /** A header without NUL bytes is always repaired to a fixed point and read as before. */
  lemma NulFreeIsSafe(prefix: Text, cap: nat)
    requires var n := Normalized(prefix, cap); n.originalBytes <= |prefix| && NUL !in prefix[..n.originalBytes]
    ensures var lines := HeaderWalk(prefix, cap).lines; AllHeaderLike(lines) && AllReadable(lines) && !StartsWithBom(lines)
  {
    hide Walk, IsHeaderLike, Scrubbed, HeaderOf, IsReadable, AnyNul;
    var window := Window(prefix, cap);
    var t := window[BomLength(window)..];
    var w := Walk(t);
    NulsShow(t);
    var used := t[..|t| - |w.rest|];
    assert used == prefix[..|window| - |w.rest|][BomLength(window)..];
    assert !AnyNul(w.lines);
    KeptWithoutNul(t);
    forall l | l in w.lines ensures IsReadable(Scrubbed(l)) && !(BOM <= Scrubbed(l)) {
      HeaderLikeIsReadable(Scrubbed(l));
      HeaderLikeIsNoBom(Scrubbed(l));
    }
  }

  lemma {:induction false} KeptWithoutNul(t: Text)
    requires !AnyNul(Walk(t).lines)
    ensures AllHeaderLike(Walk(t).lines)
    decreases |t|
  {
    hide Walk, IsHeaderLike, Scrubbed;
    var w := Walk(t);
    WalkCases(t);
    if w.lines != [] {
      var line, v := FirstLine(t), Walk(AfterLine(t));
      assert w.lines == [line] + v.lines;
      assert w.lines[0] == line;
      assert forall k :: 0 <= k < |v.lines| ==> v.lines[k] == w.lines[k + 1];
      KeptWithoutNul(AfterLine(t));
      ScrubbedIsClean(line);
    }
  }

  /** A line of NUL bytes only, before a field: repair makes it the blank line that ends the header. */
  lemma NulLineEndsTheHeader(more: Text)
    ensures var prefix := [NUL, CR, LF, 0x41, COLON, 0x62, CR, LF, CR, LF];
      var n := Normalized(prefix, 10);
      && !SameReading(prefix, 10, Inspected(prefix, 10), Inspected(n.header + more, |n.header|))
      && !AllHeaderLike(HeaderWalk(prefix, 10).lines)
  {
    hide IsHeaderLike, HeaderOf, ReadLines, IsReadable, Scrubbed;
    var prefix: Text := [NUL, CR, LF, 0x41, COLON, 0x62, CR, LF, CR, LF];
    var lines := HeaderWalk(prefix, 10).lines;
    NulLineIsKept(prefix);
    assert [NUL] in lines;
    NulLineIsEmpty();
    RepairKeepsReadingExactly(prefix, 10, more, |Normalized(prefix, 10).header|);
  }

  lemma NulLineIsEmpty()
    ensures Scrubbed([NUL]) == [] && !IsHeaderLike([]) && !IsReadable([])
  {
    assert [NUL][1..] == [];
  }

  lemma NulLineIsKept(prefix: Text)
    requires |prefix| == 10 && prefix[0] == NUL && prefix[1] == CR && prefix[2] == LF
    ensures HeaderWalk(prefix, 10).lines != [] && HeaderWalk(prefix, 10).lines[0] == [NUL]
  {
    hide IsHeaderLike;
    assert prefix[0..] == prefix;
    LineIs(prefix, 1);
    assert FirstLine(prefix) == [NUL];
  }
}
