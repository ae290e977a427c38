/** The conservative repair of a damaged header section. */
module EmlNormalizer {
  import opened HeaderLines

  datatype Repair = Utf8Bom | SeparatorInserted | NulBytes | LineEndings

  /** `header` replaces the first `originalBytes` bytes of the message. */
  datatype Normalization = Normalization(
    header: Text, originalBytes: nat, changed: bool, separatorInserted: bool, repairs: seq<Repair>)

  /** A continuation line, or one that starts with a field name and a colon. */
  predicate IsHeaderLike(line: Text) {
    && line != []
    && (IsBlank(line[0])
        || (var colon := IndexOf(line, COLON);
            0 < colon < |line| && forall k :: 0 <= k < colon ==> 33 <= line[k] <= 126))
  }

  method IsHeaderLikeLine(line: Text) returns (yes: bool)
    ensures yes == IsHeaderLike(line)
  {
    if line == [] {
      return false;
    }
    if IsBlank(line[0]) {
      return true;
    }
    var colon := IndexOf(line, COLON);
    if colon == 0 || colon == |line| {
      return false;
    }
    for k := 0 to colon
      invariant forall j :: 0 <= j < k ==> 33 <= line[j] <= 126
    {
      if line[k] < 33 || line[k] > 126 || line[k] == COLON {
        return false;
      }
    }
    yes := true;
  }

  datatype Stop = Separator | Boundary | Exhausted

  /** The header lines of a text, why they end, and the text behind them. */
  datatype Walked = Walked(lines: seq<Text>, stop: Stop, rest: Text, badBreak: bool)

  predicate IsBad(lineBreak: Text) { lineBreak != [] && lineBreak != CRLF }

  /** Lines up to a blank one, or up to one that cannot belong to a header and has no NUL bytes. */
  function Walk(t: Text): (w: Walked)
    ensures |w.rest| <= |t|
    decreases |t|
  {
    if t == [] then Walked([], Exhausted, [], false)
    else
      var line, bad := FirstLine(t), IsBad(LineBreak(t));
      if line == [] then Walked([], Separator, AfterLine(t), bad)
      else if !IsHeaderLike(line) && NUL !in line then Walked([], Boundary, t, bad)
      else
        var w := Walk(AfterLine(t));
        Walked([line] + w.lines, w.stop, w.rest, bad || w.badBreak)
  }

  function ScrubbedAll(lines: seq<Text>): (scrubbed: seq<Text>)
    ensures |scrubbed| == |lines| && forall k :: 0 <= k < |lines| ==> scrubbed[k] == Scrubbed(lines[k])
  {
    seq(|lines|, k requires 0 <= k < |lines| => Scrubbed(lines[k]))
  }

  /** The rewritten lines of a header. */
  function HeaderOf(lines: seq<Text>): Text {
    Rendered(ScrubbedAll(lines))
  }

  predicate AnyNul(lines: seq<Text>) {
    exists k :: 0 <= k < |lines| && NUL in lines[k]
  }

  function BomLength(window: Text): nat {
    if BOM <= window then 3 else 0
  }

  function HeaderWalk(prefix: Text, cap: nat): Walked {
    Walk(Window(prefix, cap)[BomLength(Window(prefix, cap))..])
  }

  function RepairsOf(bom: bool, w: Walked): seq<Repair> {
    (if bom then [Utf8Bom] else [])
    + (if w.stop != Separator then [SeparatorInserted] else [])
    + (if AnyNul(w.lines) then [NulBytes] else [])
    + (if w.badBreak then [LineEndings] else [])
  }

  function Normalized(prefix: Text, cap: nat): Normalization {
    var w := HeaderWalk(prefix, cap);
    var repairs := RepairsOf(BOM <= Window(prefix, cap), w);
    Normalization(HeaderOf(w.lines) + CRLF, |Window(prefix, cap)| - |w.rest|,
                  repairs != [], w.stop != Separator, repairs)
  }

  // ---- The scanner ----

  /** The end of the line at pos, the start of the next one, and whether its break needs repair. */
  method ScanLine(window: Text, pos: nat) returns (lineEnd: nat, next: nat, bad: bool)
    requires pos < |window|
    ensures var t := window[pos..];
      && lineEnd == pos + LineLength(t) && next == lineEnd + BreakLength(t) && bad == IsBad(LineBreak(t))
  {
    lineEnd, next, bad := pos, pos, false;
    while lineEnd < |window|
      invariant pos <= lineEnd <= |window| && !bad
      invariant forall k :: pos <= k < lineEnd ==> !IsBreak(window[k])
    {
      var c := window[lineEnd];
      if IsBreak(c) {
        LineIs(window[pos..], lineEnd - pos);
      }
      if c == LF {
        return lineEnd, lineEnd + 1, true;
      }
      if c == CR {
        if lineEnd + 1 < |window| && window[lineEnd + 1] == LF {
          assert LineBreak(window[pos..]) == CRLF;
          return lineEnd, lineEnd + 2, false;
        }
        return lineEnd, lineEnd + 1, true;
      }
      lineEnd := lineEnd + 1;
    }
    LineIs(window[pos..], lineEnd - pos);
    next := |window|;
  }

  /** A walk whose first lines have been collected. */
  ghost function Resumed(lines: seq<Text>, badBreak: bool, w: Walked): Walked {
    Walked(lines + w.lines, w.stop, w.rest, badBreak || w.badBreak)
  }

  /** How the walk of a text starts. */
  lemma {:induction false} WalkCases(t: Text)
    ensures var w := Walk(t);
      if w.lines != [] then
        && t != [] && FirstLine(t) != [] && (IsHeaderLike(FirstLine(t)) || NUL in FirstLine(t))
        && w == Resumed([FirstLine(t)], IsBad(LineBreak(t)), Walk(AfterLine(t)))
      else match w.stop
        case Separator => t != [] && FirstLine(t) == [] && w.rest == AfterLine(t) && w.badBreak == IsBad(LineBreak(t))
        case Boundary => t != [] && FirstLine(t) != [] && w.rest == t && !IsHeaderLike(FirstLine(t)) && NUL !in FirstLine(t)
        case Exhausted => t == [] && w.rest == [] && !w.badBreak
  {
    hide IsHeaderLike, IsBad;
  }

  lemma {:induction false} HeaderOfCons(line: Text, lines: seq<Text>)
    ensures HeaderOf([line] + lines) == Scrubbed(line) + CRLF + HeaderOf(lines) && HeaderOf([]) == []
  {
    hide Scrubbed;
    assert ScrubbedAll([line] + lines) == [Scrubbed(line)] + ScrubbedAll(lines);
    assert ([Scrubbed(line)] + ScrubbedAll(lines))[1..] == ScrubbedAll(lines);
  }

  lemma {:induction false} WalkStep(t: Text, lines: seq<Text>, badBreak: bool)
    requires t != [] && FirstLine(t) != [] && (IsHeaderLike(FirstLine(t)) || NUL in FirstLine(t))
    ensures Resumed(lines, badBreak, Walk(t))
      == Resumed(lines + [FirstLine(t)], badBreak || IsBad(LineBreak(t)), Walk(AfterLine(t)))
  {
    hide IsHeaderLike;
    var w := Walk(AfterLine(t));
    assert lines + ([FirstLine(t)] + w.lines) == lines + [FirstLine(t)] + w.lines;
  }

  lemma {:induction false} ScrubbedAllSnoc(lines: seq<Text>, line: Text)
    ensures HeaderOf(lines + [line]) == HeaderOf(lines) + Scrubbed(line) + CRLF
    ensures AnyNul(lines + [line]) <==> AnyNul(lines) || NUL in line
  {
    assert ScrubbedAll(lines + [line]) == ScrubbedAll(lines) + [Scrubbed(line)];
    RenderedSnoc(ScrubbedAll(lines), Scrubbed(line));
    if NUL in line {
      assert (lines + [line])[|lines|] == line;
    }
    if AnyNul(lines) {
      var k :| 0 <= k < |lines| && NUL in lines[k];
      assert (lines + [line])[k] == lines[k];
    }
  }

  /** Walks the header from `start`, rebuilding it line by line. */
  method WalkHeader(window: Text, start: nat)
    returns (header: Text, end: nat, stop: Stop, sawNul: bool, sawBad: bool, ghost lines: seq<Text>)
    requires start <= |window|
    ensures end <= |window| && Walk(window[start..]) == Walked(lines, stop, window[end..], sawBad)
    ensures header == HeaderOf(lines) && sawNul == AnyNul(lines)
  {
    hide IsHeaderLike, Scrubbed, IsBad, AnyNul, HeaderOf;
    header, end, stop, sawNul, sawBad, lines := [], start, Exhausted, false, false, [];
    NothingWalked();
    while end < |window|
      invariant start <= end <= |window|
      invariant Walk(window[start..]) == Resumed(lines, sawBad, Walk(window[end..]))
      invariant header == HeaderOf(lines) && sawNul == AnyNul(lines)
    {
      ghost var t := window[end..];
      var lineEnd, next, bad := ScanLine(window, end);
      var line := window[end..lineEnd];
      assert line == FirstLine(t) && window[next..] == AfterLine(t);
      if line == [] {
        return header, next, Separator, sawNul, sawBad || bad, lines;
      }
      var headerLike := IsHeaderLikeLine(line);
      if !headerLike {
        var hasNul := HasNul(line);
        if !hasNul {
          return header, end, Boundary, sawNul, sawBad || bad, lines;
        }
      }
      var scrubbed, lineHadNul := Scrub(line);
      WalkStep(t, lines, sawBad);
      ScrubbedAllSnoc(lines, line);
      header := header + scrubbed + CRLF;
      sawNul, sawBad := sawNul || lineHadNul, sawBad || bad;
      lines := lines + [line];
      end := next;
    }
  }

  lemma NothingWalked()
    ensures HeaderOf([]) == [] && !AnyNul([])
  {
  }

  method HasNul(line: Text) returns (yes: bool)
    ensures yes == (NUL in line)
  {
    var k := IndexOf(line, NUL);
    yes := k < |line|;
  }

  lemma NormalizedFrom(prefix: Text, cap: nat, w: Walked, end: nat)
    requires var window := Window(prefix, cap); end <= |window| && w.rest == window[end..] && w == HeaderWalk(prefix, cap)
    ensures var repairs := RepairsOf(BOM <= Window(prefix, cap), w);
      Normalized(prefix, cap) == Normalization(HeaderOf(w.lines) + CRLF, end, repairs != [], w.stop != Separator, repairs)
  {
    hide Walk, HeaderOf, RepairsOf;
  }

  method NormalizeEmlHeader(prefix: Text, cap: nat) returns (out: Normalization)
    ensures out == Normalized(prefix, cap)
  {
    hide Walk, HeaderOf, AnyNul, IsBad, Normalized;
    var window := prefix[..if |prefix| < cap then |prefix| else cap];
    assert window == Window(prefix, cap);
    var pos := 0;
    var repairs: seq<Repair> := [];
    if |window| >= 3 && window[0] == 0xEF && window[1] == 0xBB && window[2] == 0xBF {
      pos := 3;
      repairs := repairs + [Utf8Bom];
    }
    assert pos == BomLength(window);
    var header, end, stop, sawNul, sawBad, lines := WalkHeader(window, pos);
    NormalizedFrom(prefix, cap, Walked(lines, stop, window[end..], sawBad), end);
    header := header + CRLF;
    var inserted := stop != Separator;
    if inserted {
      repairs := repairs + [SeparatorInserted];
    }
    if sawNul {
      repairs := repairs + [NulBytes];
    }
    if sawBad {
      repairs := repairs + [LineEndings];
    }
    assert repairs == RepairsOf(BOM <= window, Walked(lines, stop, window[end..], sawBad));
    out := Normalization(header, end, repairs != [], inserted, repairs);
  }
}
