/** What repair does to any message, told from its bytes. */
module RepairGrammar {
  import opened HeaderLines
  import opened EmlNormalizer
  import opened RepairReading

  // ---- The parts of a header section ----

  predicate IsLine(line: Text) {
    forall b :: b in line ==> b != 13 && b != 10
  }

  predicate EndsALine(lineBreak: Text) {
    lineBreak == [13, 10] || lineBreak == [13] || lineBreak == [10]
  }

  /** A carriage return in front of a line feed is one break with it. */
  predicate KeepsApart(lineBreak: Text, next: Text) {
    lineBreak == [13] ==> next == [] || next[0] != 10
  }

  /** A name of visible US-ASCII characters and a colon behind it. */
  ghost predicate NamesField(line: Text) {
    exists k :: 0 < k < |line| && line[k] == 58 && forall j :: 0 <= j < k ==> 33 <= line[j] <= 126 && line[j] != 58
  }

  /** The lines of a header: a continuation, a field, or damage that NUL bytes give away. */
  ghost predicate Belongs(line: Text) {
    line != [] && (line[0] == 32 || line[0] == 9 || NamesField(line) || 0 in line)
  }

  datatype Cut = Cut(line: Text, lineBreak: Text)

  /** A blank line; a line that does not belong; or nothing more, perhaps behind a line without break. */
  datatype Ending =
    | Blank(lineBreak: Text, body: Text)
    | Intruder(line: Text, lineBreak: Text, body: Text)
    | CutOff(line: Text)

  function EndText(e: Ending): Text {
    match e
    case Blank(lineBreak, body) => lineBreak + body
    case Intruder(line, lineBreak, body) => line + lineBreak + body
    case CutOff(line) => line
  }

  ghost predicate IsEnding(e: Ending) {
    match e
    case Blank(lineBreak, body) => EndsALine(lineBreak) && KeepsApart(lineBreak, body)
    case Intruder(line, lineBreak, body) =>
      && IsLine(line) && line != [] && !Belongs(line)
      && (if lineBreak == [] then body == [] else EndsALine(lineBreak) && KeepsApart(lineBreak, body))
    case CutOff(line) => IsLine(line) && (line == [] || Belongs(line))
  }

  ghost predicate Parses(t: Text, cuts: seq<Cut>, e: Ending) {
    if cuts == [] then t == EndText(e) && IsEnding(e)
    else
      var c := cuts[0];
      && IsLine(c.line) && Belongs(c.line) && EndsALine(c.lineBreak)
      && c.line + c.lineBreak <= t && KeepsApart(c.lineBreak, t[|c.line + c.lineBreak|..])
      && Parses(t[|c.line + c.lineBreak|..], cuts[1..], e)
  }

  function BomOf(window: Text): nat {
    if [0xEF, 0xBB, 0xBF] <= window then 3 else 0
  }

  function AfterBom(window: Text): Text {
    window[BomOf(window)..]
  }

  function Mark(bom: bool): Text {
    if bom then [0xEF, 0xBB, 0xBF] else []
  }

  // ---- What becomes of them ----

  function WithoutNul(line: Text): Text {
    if line == [] then [] else if line[0] == 0 then WithoutNul(line[1..]) else [line[0]] + WithoutNul(line[1..])
  }

  function Rewritten(cuts: seq<Cut>): Text {
    if cuts == [] then [] else WithoutNul(cuts[0].line) + [13, 10] + Rewritten(cuts[1..])
  }

  function LastRewritten(e: Ending): Text {
    if e.CutOff? && e.line != [] then WithoutNul(e.line) + [13, 10] else []
  }

  function LengthOf(cuts: seq<Cut>): nat {
    if cuts == [] then 0 else |cuts[0].line + cuts[0].lineBreak| + LengthOf(cuts[1..])
  }

  function EndLength(e: Ending): nat {
    match e
    case Blank(lineBreak, _) => |lineBreak|
    case Intruder(_, _, _) => 0
    case CutOff(line) => |line|
  }

  ghost predicate HasNulLine(cuts: seq<Cut>, e: Ending) {
    (exists c :: c in cuts && 0 in c.line) || (e.CutOff? && 0 in e.line)
  }

  /** A break other than CRLF, of the header, of the blank line, or of the intruder. */
  ghost predicate HasBadBreak(cuts: seq<Cut>, e: Ending) {
    (exists c :: c in cuts && c.lineBreak != [13, 10]) || (!e.CutOff? && e.lineBreak != [] && e.lineBreak != [13, 10])
  }

  // ---- Lines ----

  lemma HeaderLikeExactly(line: Text)
    ensures IsHeaderLike(line) <==> line != [] && (line[0] == 32 || line[0] == 9 || NamesField(line))
  {
    var colon := IndexOf(line, COLON);
    if NamesField(line) {
      var k :| 0 < k < |line| && line[k] == 58 && forall j :: 0 <= j < k ==> 33 <= line[j] <= 126 && line[j] != 58;
      assert forall j :: 0 <= j < colon ==> line[..colon][j] == line[j];
      assert k >= colon;
      assert k == colon;
    }
    if 0 < colon < |line| && forall k :: 0 <= k < colon ==> 33 <= line[k] <= 126 {
      assert forall j :: 0 <= j < colon ==> line[..colon][j] != COLON;
      assert line[colon] == 58;
    }
  }

  lemma BelongsExactly(line: Text)
    ensures Belongs(line) <==> line != [] && (IsHeaderLike(line) || NUL in line)
  {
    HeaderLikeExactly(line);
  }

  lemma {:induction false} WithoutNulIsScrubbed(line: Text)
    ensures WithoutNul(line) == Scrubbed(line)
  {
    if line != [] { WithoutNulIsScrubbed(line[1..]); }
  }

  /** A line and its break in front of a text. */
  lemma CutInFront(line: Text, lineBreak: Text, more: Text)
    requires IsLine(line) && EndsALine(lineBreak) && KeepsApart(lineBreak, more)
    ensures var t := line + lineBreak + more;
      t != [] && FirstLine(t) == line && LineBreak(t) == lineBreak && AfterLine(t) == more
  {
    var t := line + lineBreak + more;
    assert forall k :: 0 <= k < |line| ==> t[k] == line[k] && line[k] in line;
    assert t[|line|] == lineBreak[0];
    LineIs(t, |line|);
    assert t[|line|..] == lineBreak + more;
    assert BreakLength(t) == |lineBreak| by {
      if lineBreak == [13] && more != [] { assert t[|line| + 1] == more[0]; }
      if lineBreak == [13, 10] { assert t[|line| + 1] == 10; }
    }
    assert t[|line|..|line| + |lineBreak|] == lineBreak && t[|line| + |lineBreak|..] == more;
  }

  lemma LineAlone(line: Text)
    requires IsLine(line)
    ensures FirstLine(line) == line && LineBreak(line) == [] && AfterLine(line) == []
  {
    assert forall k :: 0 <= k < |line| ==> line[k] in line;
    LineIs(line, |line|);
  }

  lemma CutBack(t: Text)
    requires t != []
    ensures t == FirstLine(t) + LineBreak(t) + AfterLine(t) && IsLine(FirstLine(t))
    ensures if LineBreak(t) == [] then AfterLine(t) == [] && FirstLine(t) == t
            else EndsALine(LineBreak(t)) && KeepsApart(LineBreak(t), AfterLine(t))
  {
    var e := LineLength(t);
    assert forall k :: 0 <= k < e ==> FirstLine(t)[k] == t[k] && !IsBreak(t[k]);
    if e < |t| {
      assert t[e] == CR || t[e] == LF;
      if BreakLength(t) == 2 {
        assert LineBreak(t) == [13, 10];
      } else {
        assert LineBreak(t) == [t[e]];
        if e + 1 < |t| { assert AfterLine(t)[0] == t[e + 1]; }
      }
    }
  }

  // ---- Every text parses, and how it parses decides ----

  lemma {:induction false} EveryTextParses(t: Text) returns (cuts: seq<Cut>, e: Ending)
    ensures Parses(t, cuts, e)
    decreases |t|
  {
    hide IsHeaderLike, Belongs, FirstLine, LineBreak, AfterLine;
    if t == [] {
      cuts, e := [], CutOff([]);
    } else {
      CutBack(t);
      var line, lineBreak, after := FirstLine(t), LineBreak(t), AfterLine(t);
      if line == [] {
        cuts, e := [], Blank(lineBreak, after);
        assert EndText(e) == t;
      } else if !Belongs(line) {
        cuts, e := [], Intruder(line, lineBreak, after);
      } else if lineBreak == [] {
        cuts, e := [], CutOff(line);
      } else {
        var more, end := EveryTextParses(after);
        cuts, e := [Cut(line, lineBreak)] + more, end;
        assert cuts[1..] == more && t[|line + lineBreak|..] == after;
      }
    }
  }

  ghost predicate WalkTells(w: Walked, cuts: seq<Cut>, e: Ending) {
    && HeaderOf(w.lines) == Rewritten(cuts) + LastRewritten(e)
    && (AnyNul(w.lines) <==> HasNulLine(cuts, e))
    && (w.badBreak <==> HasBadBreak(cuts, e))
    && w.stop == (match e case Blank(_, _) => Separator case Intruder(_, _, _) => Boundary case CutOff(_) => Exhausted)
  }

  lemma {:induction false} EndingDecides(e: Ending)
    requires IsEnding(e)
    ensures var t := EndText(e); WalkTells(Walk(t), [], e) && |t| == EndLength(e) + |Walk(t).rest|
  {
    hide IsHeaderLike, Belongs, FirstLine, LineBreak, AfterLine, HeaderOf, Scrubbed, AnyNul;
    NothingWalked();
    match e
    case Blank(lineBreak, body) =>
      CutInFront([], lineBreak, body);
      assert [] + lineBreak + body == lineBreak + body;
    case Intruder(line, lineBreak, body) =>
      BelongsExactly(line);
      if lineBreak == [] {
        LineAlone(line);
        assert line + [] + [] == line;
      } else {
        CutInFront(line, lineBreak, body);
      }
    case CutOff(line) =>
      if line != [] {
        BelongsExactly(line);
        LineAlone(line);
        WithoutNulIsScrubbed(line);
        HeaderOfCons(line, []);
        OneNul(line);
        assert Walk([]) == Walked([], Exhausted, [], false);
        assert [line] + [] == [line];
        assert WithoutNul(line) + [13, 10] + [] == WithoutNul(line) + [13, 10];
      }
  }

  lemma OneNul(line: Text)
    ensures AnyNul([line]) <==> 0 in line
  {
    if 0 in line { assert [line][0] == line; }
  }

  lemma NulLineCons(c: Cut, cuts: seq<Cut>, e: Ending)
    ensures HasNulLine([c] + cuts, e) <==> 0 in c.line || HasNulLine(cuts, e)
    ensures HasBadBreak([c] + cuts, e) <==> c.lineBreak != [13, 10] || HasBadBreak(cuts, e)
  {
    assert c in [c] + cuts;
    assert forall d :: d in cuts ==> d in [c] + cuts;
  }

  lemma AnyNulCons(line: Text, lines: seq<Text>)
    ensures AnyNul([line] + lines) <==> 0 in line || AnyNul(lines)
  {
    if 0 in line { assert ([line] + lines)[0] == line; }
    if AnyNul(lines) {
      var k :| 0 <= k < |lines| && NUL in lines[k];
      assert ([line] + lines)[k + 1] == lines[k];
    }
  }

  lemma {:induction false} WalkOfCut(c: Cut, after: Text)
    requires IsLine(c.line) && Belongs(c.line) && EndsALine(c.lineBreak) && KeepsApart(c.lineBreak, after)
    ensures var v := Walk(after);
      Walk(c.line + c.lineBreak + after)
      == Walked([c.line] + v.lines, v.stop, v.rest, c.lineBreak != [13, 10] || v.badBreak)
  {
    CutInFront(c.line, c.lineBreak, after);
    BelongsExactly(c.line);
    hide IsHeaderLike, Belongs, FirstLine, LineBreak, AfterLine;
  }

  lemma {:induction false} TellsOneMore(c: Cut, v: Walked, w: Walked, cuts: seq<Cut>, e: Ending)
    requires WalkTells(v, cuts, e)
    requires w == Walked([c.line] + v.lines, v.stop, v.rest, c.lineBreak != [13, 10] || v.badBreak)
    ensures WalkTells(w, [c] + cuts, e)
  {
    hide HeaderOf, Scrubbed, AnyNul, HasNulLine, HasBadBreak, LastRewritten;
    WithoutNulIsScrubbed(c.line);
    HeaderOfCons(c.line, v.lines);
    AnyNulCons(c.line, v.lines);
    NulLineCons(c, cuts, e);
    assert ([c] + cuts)[1..] == cuts;
    var front := WithoutNul(c.line) + [13, 10];
    assert front + (Rewritten(cuts) + LastRewritten(e)) == front + Rewritten(cuts) + LastRewritten(e);
  }

  lemma {:induction false} PartsDecide(t: Text, cuts: seq<Cut>, e: Ending)
    requires Parses(t, cuts, e)
    ensures WalkTells(Walk(t), cuts, e) && |t| == LengthOf(cuts) + EndLength(e) + |Walk(t).rest|
    decreases |cuts|
  {
    hide Walk, WalkTells, Belongs;
    if cuts == [] {
      EndingDecides(e);
    } else {
      var c := cuts[0];
      var after := t[|c.line + c.lineBreak|..];
      assert t == c.line + c.lineBreak + after;
      WalkOfCut(c, after);
      PartsDecide(after, cuts[1..], e);
      TellsOneMore(c, Walk(after), Walk(t), cuts[1..], e);
      assert [c] + cuts[1..] == cuts;
    }
  }

  /** How the message splits into a BOM, lines and an ending decides everything that repair does. */
  lemma {:induction false} PartsDecideRepair(prefix: Text, cap: nat, cuts: seq<Cut>, e: Ending)
    requires Parses(AfterBom(Window(prefix, cap)), cuts, e)
    ensures var n := Normalized(prefix, cap); var bom := BomOf(Window(prefix, cap));
      && n.header == Rewritten(cuts) + LastRewritten(e) + [13, 10]
      && n.originalBytes == bom + LengthOf(cuts) + EndLength(e)
      && n.separatorInserted == !e.Blank?
      && n.changed == (bom == 3 || !e.Blank? || HasNulLine(cuts, e) || HasBadBreak(cuts, e))
      && n.repairs == (if bom == 3 then [Utf8Bom] else []) + (if e.Blank? then [] else [SeparatorInserted])
         + (if HasNulLine(cuts, e) then [NulBytes] else []) + (if HasBadBreak(cuts, e) then [LineEndings] else [])
  {
    hide Walk, HeaderOf, AnyNul, HasNulLine, HasBadBreak, Rewritten, LengthOf, Parses;
    PartsDecide(AfterBom(Window(prefix, cap)), cuts, e);
  }

  /** A boundary is guessed if and only if, behind lines that belong to the header, there is a nonempty line
      that starts with no blank, has no NUL byte, and names no field before a colon. */
  lemma BoundaryGuessedExactly(prefix: Text, cap: nat)
    ensures BoundaryGuessed(prefix, cap) <==>
            exists cuts, e :: Parses(AfterBom(Window(prefix, cap)), cuts, e) && e.Intruder?
  {
    hide Walk, Normalized, Parses, BoundaryGuessed;
    var t := AfterBom(Window(prefix, cap));
    GuessedIsBoundary(prefix, cap);
    assert HeaderWalk(prefix, cap) == Walk(t);
    var cuts, e := EveryTextParses(t);
    PartsDecide(t, cuts, e);
    forall ds: seq<Cut>, f | Parses(t, ds, f) && f.Intruder? ensures Walk(t).stop == Boundary {
      PartsDecide(t, ds, f);
    }
  }

  // ---- Well-formed headers ----

  /** A field as it is written: the rest of its first line and its continuation lines. */
  datatype RawField = RawField(name: Text, body: Text, folds: seq<Text>)

  predicate IsName(name: Text) {
    name != [] && forall b :: b in name ==> 33 <= b <= 126 && b != 58
  }

  predicate IsClean(line: Text) {
    forall b :: b in line ==> b != 13 && b != 10 && b != 0
  }

  predicate IsFold(line: Text) {
    line != [] && (line[0] == 32 || line[0] == 9) && IsClean(line)
  }

  predicate IsField(f: RawField) {
    IsName(f.name) && IsClean(f.body) && forall l :: l in f.folds ==> IsFold(l)
  }

  function FoldText(folds: seq<Text>): Text {
    if folds == [] then [] else folds[0] + [13, 10] + FoldText(folds[1..])
  }

  function FieldText(f: RawField): Text {
    f.name + [58] + f.body + [13, 10] + FoldText(f.folds)
  }

  function HeaderText(fields: seq<RawField>): Text {
    if fields == [] then [] else FieldText(fields[0]) + HeaderText(fields[1..])
  }

  function Ended(line: Text): Cut { Cut(line, [13, 10]) }

  function FoldCuts(folds: seq<Text>): seq<Cut> {
    if folds == [] then [] else [Ended(folds[0])] + FoldCuts(folds[1..])
  }

  function FieldCuts(f: RawField): seq<Cut> {
    [Ended(f.name + [58] + f.body)] + FoldCuts(f.folds)
  }

  function HeaderCuts(fields: seq<RawField>): seq<Cut> {
    if fields == [] then [] else FieldCuts(fields[0]) + HeaderCuts(fields[1..])
  }

  /** A line in front of a text that parses; it is kept as it is. */
  ghost predicate Intact(t: Text, cuts: seq<Cut>, e: Ending, header: Text) {
    Parses(t, cuts, e) && Rewritten(cuts) == header && LengthOf(cuts) == |header|
    && forall c :: c in cuts ==> c.lineBreak == [13, 10] && 0 !in c.line
  }

  lemma {:induction false} NothingToDrop(line: Text)
    requires 0 !in line
    ensures WithoutNul(line) == line
  {
    if line != [] {
      assert line[0] in line;
      NothingToDrop(line[1..]);
    }
  }

  lemma {:induction false} LineInFront(line: Text, t: Text, cuts: seq<Cut>, e: Ending, header: Text)
    requires IsClean(line) && Belongs(line) && Intact(t, cuts, e, header)
    ensures Intact(line + [13, 10] + t, [Ended(line)] + cuts, e, line + [13, 10] + header)
  {
    hide Belongs;
    var u, all := line + [13, 10] + t, [Ended(line)] + cuts;
    assert all[1..] == cuts && u[|line + [13, 10]|..] == t && line + [13, 10] <= u;
    NothingToDrop(line);
  }

  lemma FoldBelongs(line: Text)
    requires IsFold(line)
    ensures IsClean(line) && Belongs(line)
  {
  }

  lemma {:induction false} FoldsInFront(folds: seq<Text>, t: Text, cuts: seq<Cut>, e: Ending, header: Text)
    requires (forall l :: l in folds ==> IsFold(l)) && Intact(t, cuts, e, header)
    ensures Intact(FoldText(folds) + t, FoldCuts(folds) + cuts, e, FoldText(folds) + header)
    decreases |folds|
  {
    hide Intact, IsFold;
    if folds == [] {
      assert [] + t == t && [] + cuts == cuts && [] + header == header;
    } else {
      var line, more := folds[0], folds[1..];
      assert line in folds;
      FoldBelongs(line);
      FoldsInFront(more, t, cuts, e, header);
      LineInFront(line, FoldText(more) + t, FoldCuts(more) + cuts, e, FoldText(more) + header);
      assert line + [13, 10] + (FoldText(more) + t) == FoldText(folds) + t;
      assert line + [13, 10] + (FoldText(more) + header) == FoldText(folds) + header;
      assert [Ended(line)] + (FoldCuts(more) + cuts) == FoldCuts(folds) + cuts;
    }
  }

  lemma FieldLineBelongs(name: Text, body: Text)
    requires IsName(name) && IsClean(body)
    ensures var line := name + [58] + body; IsClean(line) && Belongs(line)
  {
    var line := name + [58] + body;
    assert line[|name|] == 58;
    assert forall j :: 0 <= j < |name| ==> line[j] == name[j] && name[j] in name;
    assert NamesField(line);
  }

  lemma {:induction false} FieldInFront(f: RawField, t: Text, cuts: seq<Cut>, e: Ending, header: Text)
    requires IsField(f) && Intact(t, cuts, e, header)
    ensures Intact(FieldText(f) + t, FieldCuts(f) + cuts, e, FieldText(f) + header)
  {
    hide Intact, IsClean, IsName, IsFold, Belongs, FoldText, FoldCuts;
    FoldsInFront(f.folds, t, cuts, e, header);
    FieldLineBelongs(f.name, f.body);
    var line := f.name + [58] + f.body;
    LineInFront(line, FoldText(f.folds) + t, FoldCuts(f.folds) + cuts, e, FoldText(f.folds) + header);
    assert line + [13, 10] + (FoldText(f.folds) + t) == FieldText(f) + t;
    assert line + [13, 10] + (FoldText(f.folds) + header) == FieldText(f) + header;
    assert [Ended(line)] + (FoldCuts(f.folds) + cuts) == FieldCuts(f) + cuts;
  }

  lemma {:induction false} FieldsInFront(fields: seq<RawField>, t: Text, cuts: seq<Cut>, e: Ending, header: Text)
    requires (forall f :: f in fields ==> IsField(f)) && Intact(t, cuts, e, header)
    ensures Intact(HeaderText(fields) + t, HeaderCuts(fields) + cuts, e, HeaderText(fields) + header)
    decreases |fields|
  {
    hide Intact, IsField, FieldText, FieldCuts;
    if fields == [] {
      assert [] + t == t && [] + cuts == cuts && [] + header == header;
    } else {
      var f, more := fields[0], fields[1..];
      assert f in fields;
      FieldsInFront(more, t, cuts, e, header);
      FieldInFront(f, HeaderText(more) + t, HeaderCuts(more) + cuts, e, HeaderText(more) + header);
      assert FieldText(f) + (HeaderText(more) + t) == HeaderText(fields) + t;
      assert FieldText(f) + (HeaderText(more) + header) == HeaderText(fields) + header;
      assert FieldCuts(f) + (HeaderCuts(more) + cuts) == HeaderCuts(fields) + cuts;
    }
  }

  lemma {:induction false} StartsWithAName(fields: seq<RawField>, more: Text)
    requires forall f :: f in fields ==> IsField(f)
    ensures !([0xEF, 0xBB, 0xBF] <= HeaderText(fields) + [13, 10] + more)
  {
    var t := HeaderText(fields) + [13, 10] + more;
    if fields == [] {
      assert t[0] == 13;
    } else {
      var f := fields[0];
      assert f in fields && f.name[0] in f.name;
      assert t[0] == f.name[0];
    }
  }

  lemma {:induction false} RepairOfKept(prefix: Text, cap: nat, cuts: seq<Cut>, body: Text, header: Text)
    requires Parses(AfterBom(Window(prefix, cap)), cuts, Blank([13, 10], body))
    requires !HasNulLine(cuts, Blank([13, 10], body)) && !HasBadBreak(cuts, Blank([13, 10], body))
    requires header == Rewritten(cuts) + [13, 10] && LengthOf(cuts) == |Rewritten(cuts)|
    ensures var bom := BomOf(Window(prefix, cap));
      Normalized(prefix, cap) == Normalization(header, bom + |header|, bom == 3, false, if bom == 3 then [Utf8Bom] else [])
  {
    hide Normalized, Parses, HasNulLine, HasBadBreak, Rewritten, LengthOf;
    PartsDecideRepair(prefix, cap, cuts, Blank([13, 10], body));
    assert Rewritten(cuts) + [] == Rewritten(cuts);
  }

  lemma MarkInFront(bom: bool, t: Text)
    requires bom || !([0xEF, 0xBB, 0xBF] <= t)
    ensures AfterBom(Mark(bom) + t) == t && BomOf(Mark(bom) + t) == |Mark(bom)| == if bom then 3 else 0
  {
    assert [] + t == t;
    if bom { assert ([0xEF, 0xBB, 0xBF] + t)[..3] == [0xEF, 0xBB, 0xBF]; }
  }

  lemma HeaderParses(fields: seq<RawField>, body: Text) returns (cuts: seq<Cut>)
    requires forall f :: f in fields ==> IsField(f)
    ensures var e := Blank([13, 10], body); var header := HeaderText(fields);
      && Parses(header + [13, 10] + body, cuts, e) && Rewritten(cuts) == header && LengthOf(cuts) == |header|
      && !HasNulLine(cuts, e) && !HasBadBreak(cuts, e)
  {
    hide IsField, HeaderText, HeaderCuts;
    var e := Blank([13, 10], body);
    assert Intact(EndText(e), [], e, []);
    FieldsInFront(fields, EndText(e), [], e, []);
    cuts := HeaderCuts(fields) + [];
    hide Parses, Rewritten, LengthOf;
    assert HeaderText(fields) + [] == HeaderText(fields);
    assert HeaderText(fields) + EndText(e) == HeaderText(fields) + [13, 10] + body;
  }

  /** A well-formed header, whatever follows its blank line, is left alone: byte for byte, with no separator
      inserted, and as long as it is. A BOM before it is taken away and nothing else. */
  lemma {:induction false} WellFormedIsKept(fields: seq<RawField>, more: Text, bom: bool, cap: nat)
    requires forall f :: f in fields ==> IsField(f)
    requires |Mark(bom)| + |HeaderText(fields) + [13, 10]| <= cap
    ensures var header := HeaderText(fields) + [13, 10];
      Normalized(Mark(bom) + header + more, cap)
      == Normalization(header, |Mark(bom)| + |header|, bom, false, if bom then [Utf8Bom] else [])
  {
    hide *;
    var header := HeaderText(fields) + [13, 10];
    WindowOfRepaired(Mark(bom) + header, more, cap);
    var kept :| Window(Mark(bom) + header + more, cap) == Mark(bom) + header + kept;
    var cuts := HeaderParses(fields, kept);
    StartsWithAName(fields, kept);
    MarkInFront(bom, header + kept);
    assert Mark(bom) + (header + kept) == Mark(bom) + header + kept;
    RepairOfKept(Mark(bom) + header + more, cap, cuts, kept, header);
  }
}
