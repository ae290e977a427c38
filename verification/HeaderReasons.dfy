/** What the reader reports of any message besides its fields, told from its bytes. */
module HeaderReasons {
  import opened HeaderLines
  import opened HeaderInspector
  import opened RepairGrammar

  /** Nonempty lines up to a blank one, or up to the end of the text. */
  ghost predicate Scans(t: Text, cuts: seq<Cut>, e: Ending) {
    if cuts == [] then
      t == EndText(e)
      && (match e
          case Blank(lineBreak, body) => EndsALine(lineBreak) && KeepsApart(lineBreak, body)
          case CutOff(line) => IsLine(line)
          case Intruder(_, _, _) => false)
    else
      var c := cuts[0];
      && IsLine(c.line) && c.line != [] && EndsALine(c.lineBreak)
      && c.line + c.lineBreak <= t && KeepsApart(c.lineBreak, t[|c.line + c.lineBreak|..])
      && Scans(t[|c.line + c.lineBreak|..], cuts[1..], e)
  }

  lemma {:induction false} EveryTextScans(t: Text) returns (cuts: seq<Cut>, e: Ending)
    ensures Scans(t, cuts, e)
    decreases |t|
  {
    hide FirstLine, LineBreak, AfterLine;
    if t == [] {
      cuts, e := [], CutOff([]);
    } else {
      CutBack(t);
      var line, lineBreak, after := FirstLine(t), LineBreak(t), AfterLine(t);
      if lineBreak == [] {
        cuts, e := [], CutOff(line);
      } else if line == [] {
        cuts, e := [], Blank(lineBreak, after);
      } else {
        var more, end := EveryTextScans(after);
        cuts, e := [Cut(line, lineBreak)] + more, end;
        assert cuts[1..] == more && t[|line + lineBreak|..] == after;
      }
    }
  }

  /** No continuation and, but for NUL bytes, no colon. */
  predicate HasNoColon(line: Text) {
    var kept := WithoutNul(line);
    (kept == [] || (kept[0] != 32 && kept[0] != 9)) && 58 !in kept
  }

  ghost predicate Told(x: Reason, cuts: seq<Cut>, e: Ending) {
    match x
    case Utf8BomAtStart => false
    case BareCr => (exists c :: c in cuts && c.lineBreak == [13]) || (e.Blank? && e.lineBreak == [13])
    case NulInHeader => (exists c :: c in cuts && 0 in c.line) || (e.CutOff? && 0 in e.line)
    case LineWithoutColon =>
      (exists c :: c in cuts && HasNoColon(c.line)) || (e.CutOff? && e.line != [] && HasNoColon(e.line))
  }

  predicate Distinct(reasons: seq<Reason>) {
    forall i, j :: 0 <= i < j < |reasons| ==> reasons[i] != reasons[j]
  }

  lemma {:induction false} NoColonIsLacking(line: Text)
    ensures HasNoColon(line) <==> LacksColon(Scrubbed(line))
  {
    WithoutNulIsScrubbed(line);
    hide WithoutNul, Scrubbed;
  }

  lemma ReasonsOfLine(reasons: seq<Reason>, line: Text, x: Reason)
    requires Distinct(reasons)
    ensures var r := LineReasons(reasons, line);
      Distinct(r) && (x in r <==> x in reasons || (x == NulInHeader && 0 in line) || (x == LineWithoutColon && HasNoColon(line)))
  {
    NoColonIsLacking(line);
    hide HasNoColon, LacksColon, Scrubbed;
  }

  lemma ToldCons(x: Reason, c: Cut, cuts: seq<Cut>, e: Ending)
    ensures Told(x, [c] + cuts, e) <==>
            Told(x, cuts, e) || (x == BareCr && c.lineBreak == [13]) || (x == NulInHeader && 0 in c.line)
            || (x == LineWithoutColon && HasNoColon(c.line))
  {
    hide HasNoColon;
    assert c in [c] + cuts && forall d :: d in cuts ==> d in [c] + cuts;
  }

  ghost predicate ReadingTold(r: Reading, reasons: seq<Reason>, t: Text, cuts: seq<Cut>, e: Ending, x: Reason) {
    && r.found == e.Blank? && |t| == LengthOf(cuts) + EndLength(e) + |r.rest|
    && Distinct(r.reasons) && (x in r.reasons <==> x in reasons || Told(x, cuts, e))
  }

  lemma {:induction false} EndTold(e: Ending, c: Cursor, reasons: seq<Reason>, x: Reason)
    requires Scans(EndText(e), [], e) && IsCursor(c) && Distinct(reasons)
    ensures ReadingTold(ReadLines(EndText(e), c, reasons), reasons, EndText(e), [], e, x)
  {
    hide TakeLine, Scrubbed, FirstLine, LineBreak, AfterLine, LineReasons, HasNoColon;
    match e
    case Blank(lineBreak, body) =>
      CutInFront([], lineBreak, body);
      assert [] + lineBreak + body == lineBreak + body;
    case CutOff(line) =>
      LineAlone(line);
      ReasonsOfLine(reasons, line, x);
  }

  lemma {:induction false} ReadingIsTold(t: Text, cuts: seq<Cut>, e: Ending, c: Cursor, reasons: seq<Reason>, x: Reason)
    requires Scans(t, cuts, e) && IsCursor(c) && Distinct(reasons)
    ensures ReadingTold(ReadLines(t, c, reasons), reasons, t, cuts, e, x)
    decreases |cuts|
  {
    hide TakeLine, Scrubbed, FirstLine, LineBreak, AfterLine, LineReasons, Told;
    if cuts == [] {
      EndTold(e, c, reasons, x);
    } else {
      var k := cuts[0];
      var after := t[|k.line + k.lineBreak|..];
      assert t == k.line + k.lineBreak + after;
      CutInFront(k.line, k.lineBreak, after);
      var r := if k.lineBreak == [13] then WithReason(reasons, BareCr) else reasons;
      ReasonsOfLine(r, k.line, x);
      ReadingIsTold(after, cuts[1..], e, TakeLine(c, Scrubbed(k.line)), LineReasons(r, k.line), x);
      assert [k] + cuts[1..] == cuts;
      ToldCons(x, k, cuts[1..], e);
    }
  }

  /** For every message: whether the separator is found and where, and each reason reported, once, exactly if
      the bytes before it give it; a BOM alone makes nothing malformed. */
  lemma {:induction false} InspectionIsTold(prefix: Text, cap: nat, cuts: seq<Cut>, e: Ending, x: Reason)
    requires Scans(AfterBom(Window(prefix, cap)), cuts, e)
    ensures var i := Inspected(prefix, cap); var bom := BomOf(Window(prefix, cap));
      && i.separatorFound == e.Blank? && i.headerBytes == bom + LengthOf(cuts) + EndLength(e) && Distinct(i.reasons)
      && (x in i.reasons <==> Told(x, cuts, e) || (x == Utf8BomAtStart && bom == 3))
      && (i.malformed <==> exists y :: y != Utf8BomAtStart && Told(y, cuts, e))
  {
    hide ReadLines, Scans, Told, LengthOf;
    var window := Window(prefix, cap);
    var reasons: seq<Reason> := if BOM <= window then [Utf8BomAtStart] else [];
    assert NO_FIELDS == Cursor([], false);
    forall y: Reason ensures ReadingTold(ReadingOf(window), reasons, AfterBom(window), cuts, e, y) {
      assert window[0..] == window;
      ReadingIsTold(AfterBom(window), cuts, e, NO_FIELDS, reasons, y);
    }
    assert ReadingTold(ReadingOf(window), reasons, AfterBom(window), cuts, e, x);
    var r := ReadingOf(window).reasons;
    assert forall y :: y != Utf8BomAtStart ==> (y in r <==> Told(y, cuts, e)) by {
      forall y: Reason | y != Utf8BomAtStart ensures y in r <==> Told(y, cuts, e) {
        assert ReadingTold(ReadingOf(window), reasons, AfterBom(window), cuts, e, y);
      }
    }
    NoBomTold(cuts, e);
  }

  lemma NoBomTold(cuts: seq<Cut>, e: Ending)
    ensures !Told(Utf8BomAtStart, cuts, e)
  {
  }
}
