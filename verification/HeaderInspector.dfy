/** The reader of header fields, which never rejects a header. */
module HeaderInspector {
  import opened HeaderLines

  datatype Field = Field(name: Text, value: Text)

  datatype Reason = Utf8BomAtStart | NulInHeader | LineWithoutColon | BareCr

  datatype Inspection = Inspection(
    separatorFound: bool, headerBytes: nat, malformed: bool, reasons: seq<Reason>, fields: seq<Field>)

  function TrimFront(t: Text): Text {
    if t != [] && IsBlank(t[0]) then TrimFront(t[1..]) else t
  }

  function TrimBack(t: Text): Text {
    if t != [] && IsBlank(t[|t| - 1]) then TrimBack(t[..|t| - 1]) else t
  }

  function Trimmed(t: Text): Text { TrimBack(TrimFront(t)) }

  lemma TrimSteps(s: Text, begin: nat, end: nat)
    requires begin < end <= |s|
    ensures TrimFront(s[begin..]) == if IsBlank(s[begin]) then TrimFront(s[begin + 1..]) else s[begin..]
    ensures TrimBack(s[begin..end]) == if IsBlank(s[end - 1]) then TrimBack(s[begin..end - 1]) else s[begin..end]
  {
    assert s[begin..][1..] == s[begin + 1..];
    assert s[begin..end][..end - begin - 1] == s[begin..end - 1];
  }

  lemma NothingToTrim()
    ensures TrimFront([]) == [] && TrimBack([]) == []
  {
  }

  method Trim(s: Text) returns (out: Text)
    ensures out == Trimmed(s)
  {
    hide TrimFront, TrimBack;
    NothingToTrim();
    var begin, end := 0, |s|;
    assert s[0..] == s;
    while begin < end && IsBlank(s[begin])
      invariant 0 <= begin <= end == |s| && TrimFront(s[begin..]) == TrimFront(s)
    {
      TrimSteps(s, begin, end);
      begin := begin + 1;
    }
    if begin < end { TrimSteps(s, begin, end); }
    ghost var front := s[begin..];
    assert s[begin..end] == front;
    while end > begin && IsBlank(s[end - 1])
      invariant begin <= end <= |s| && TrimBack(s[begin..end]) == TrimBack(front)
    {
      TrimSteps(s, begin, end);
      end := end - 1;
    }
    if begin < end { TrimSteps(s, begin, end); }
    out := s[begin..end];
  }

  function WithReason(reasons: seq<Reason>, r: Reason): seq<Reason> {
    if r in reasons then reasons else reasons + [r]
  }

  /** The fields so far, and whether a continuation line still belongs to the last one. */
  datatype Cursor = Cursor(fields: seq<Field>, open: bool)

  ghost predicate IsCursor(c: Cursor) {
    c.open ==> c.fields != []
  }

  function Unfolded(f: Field, more: Text): Field {
    f.(value := f.value + (if f.value != [] && more != [] then [SPACE] else []) + more)
  }

  /** One line without its NUL bytes: a continuation, a field, or neither. */
  function TakeLine(c: Cursor, line: Text): (d: Cursor)
    requires IsCursor(c)
    ensures IsCursor(d)
  {
    if line != [] && IsBlank(line[0]) then
      if !c.open then c
      else
        var n := |c.fields| - 1;
        c.(fields := c.fields[n := Unfolded(c.fields[n], Trimmed(line))])
    else
      var colon := IndexOf(line, COLON);
      if colon == |line| then c.(open := false)
      else Cursor(c.fields + [Field(Trimmed(line[..colon]), Trimmed(line[colon + 1..]))], true)
  }

  predicate LacksColon(line: Text) {
    !(line != [] && IsBlank(line[0])) && COLON !in line
  }

  function LineReasons(reasons: seq<Reason>, raw: Text): seq<Reason> {
    var r := if NUL in raw then WithReason(reasons, NulInHeader) else reasons;
    if LacksColon(Scrubbed(raw)) then WithReason(r, LineWithoutColon) else r
  }

  datatype Reading = Reading(cursor: Cursor, reasons: seq<Reason>, found: bool, rest: Text)

  /** Reads lines up to a blank one or to the end of the text. */
  function ReadLines(t: Text, c: Cursor, reasons: seq<Reason>): (r: Reading)
    requires IsCursor(c)
    ensures |r.rest| <= |t|
    decreases |t|
  {
    if t == [] then Reading(c, reasons, false, [])
    else
      var line, lineBreak := FirstLine(t), LineBreak(t);
      if lineBreak == [] then Reading(TakeLine(c, Scrubbed(line)), LineReasons(reasons, line), false, [])
      else
        var r := if lineBreak == [CR] then WithReason(reasons, BareCr) else reasons;
        if line == [] then Reading(c, r, true, AfterLine(t))
        else ReadLines(AfterLine(t), TakeLine(c, Scrubbed(line)), LineReasons(r, line))
  }

  const NO_FIELDS: Cursor := Cursor([], false)

  function ReadingOf(window: Text): Reading {
    if BOM <= window then ReadLines(window[3..], NO_FIELDS, [Utf8BomAtStart]) else ReadLines(window, NO_FIELDS, [])
  }

  function Inspected(prefix: Text, cap: nat): Inspection {
    var window := Window(prefix, cap);
    var r := ReadingOf(window);
    Inspection(r.found, |window| - |r.rest|, exists x :: x in r.reasons && x != Utf8BomAtStart, r.reasons, r.cursor.fields)
  }

  // ---- The scanner ----

  method TakeRawLine(c: Cursor, reasons: seq<Reason>, raw: Text) returns (d: Cursor, r: seq<Reason>)
    requires IsCursor(c)
    ensures IsCursor(d) && d == TakeLine(c, Scrubbed(raw)) && r == LineReasons(reasons, raw)
  {
    var cleaned, hadNul := Scrub(raw);
    d, r := c, if hadNul then WithReason(reasons, NulInHeader) else reasons;
    if cleaned != [] && IsBlank(cleaned[0]) {
      if c.open {
        var cont := Trim(cleaned);
        var n := |c.fields| - 1;
        var value := c.fields[n].value;
        if value != [] && cont != [] {
          value := value + [SPACE];
        }
        value := value + cont;
        d := c.(fields := c.fields[n := Field(c.fields[n].name, value)]);
        assert value == Unfolded(c.fields[n], cont).value;
      }
      return;
    }
    var colon := IndexOf(cleaned, COLON);
    if colon == |cleaned| {
      return c.(open := false), WithReason(r, LineWithoutColon);
    }
    var name := Trim(cleaned[..colon]);
    var value := Trim(cleaned[colon + 1..]);
    d := Cursor(c.fields + [Field(name, value)], true);
  }

  /** The end of the line at pos and the start of the next one. */
  method ScanLine(window: Text, pos: nat) returns (lineEnd: nat, next: nat, bareCr: bool)
    requires pos < |window|
    ensures var t := window[pos..];
      && lineEnd == pos + LineLength(t) && next == lineEnd + BreakLength(t) && bareCr == (LineBreak(t) == [CR])
  {
    lineEnd := pos;
    while lineEnd < |window| && window[lineEnd] != CR && window[lineEnd] != LF
      invariant pos <= lineEnd <= |window|
      invariant forall k :: pos <= k < lineEnd ==> !IsBreak(window[k])
    {
      lineEnd := lineEnd + 1;
    }
    LineIs(window[pos..], lineEnd - pos);
    CutsAt(window, pos);
    if lineEnd >= |window| {
      return lineEnd, lineEnd, false;
    }
    next, bareCr := lineEnd + 1, false;
    if window[lineEnd] == CR {
      if lineEnd + 1 < |window| && window[lineEnd + 1] == LF {
        next := lineEnd + 2;
      } else {
        bareCr := true;
      }
    }
    assert |LineBreak(window[pos..])| == next - lineEnd && LineBreak(window[pos..])[0] == window[lineEnd];
  }

  method ReadHeader(window: Text, start: nat, initial: seq<Reason>)
    returns (fields: seq<Field>, reasons: seq<Reason>, found: bool, headerBytes: nat)
    requires start <= |window|
    ensures var r := ReadLines(window[start..], NO_FIELDS, initial);
      && fields == r.cursor.fields && reasons == r.reasons && found == r.found && headerBytes == |window| - |r.rest|
  {
    hide TakeLine, LineReasons, Scrubbed, WithReason, FirstLine, LineBreak, AfterLine, LineLength, BreakLength;
    var pos := start;
    var c := NO_FIELDS;
    reasons := initial;
    while pos < |window|
      invariant start <= pos <= |window| && IsCursor(c)
      invariant ReadLines(window[pos..], c, reasons) == ReadLines(window[start..], NO_FIELDS, initial)
    {
      ghost var t := window[pos..];
      var lineEnd, next, bareCr := ScanLine(window, pos);
      var raw := window[pos..lineEnd];
      CutsAt(window, pos);
      if lineEnd >= |window| {
        c, reasons := TakeRawLine(c, reasons, raw);
        return c.fields, reasons, false, |window|;
      }
      if bareCr {
        reasons := WithReason(reasons, BareCr);
      }
      if raw == [] {
        return c.fields, reasons, true, next;
      }
      c, reasons := TakeRawLine(c, reasons, raw);
      pos := next;
    }
    fields, found, headerBytes := c.fields, false, |window|;
  }

  method InspectHeaders(prefix: Text, cap: nat) returns (result: Inspection)
    ensures result == Inspected(prefix, cap)
  {
    hide ReadLines;
    var window := prefix[..if cap < |prefix| then cap else |prefix|];
    assert window == Window(prefix, cap);
    var start, reasons := 0, [];
    if |window| >= 3 && window[..3] == BOM {
      start, reasons := 3, [Utf8BomAtStart];
    }
    assert window[0..] == window;
    var fields, found, headerBytes;
    fields, reasons, found, headerBytes := ReadHeader(window, start, reasons);
    var malformed := false;
    for k := 0 to |reasons|
      invariant malformed <==> exists j :: 0 <= j < k && reasons[j] != Utf8BomAtStart
    {
      if reasons[k] != Utf8BomAtStart {
        malformed := true;
      }
    }
    assert malformed <==> exists x :: x in reasons && x != Utf8BomAtStart by {
      assert forall j :: 0 <= j < |reasons| ==> reasons[j] in reasons;
    }
    result := Inspection(found, headerBytes, malformed, reasons, fields);
  }
}
