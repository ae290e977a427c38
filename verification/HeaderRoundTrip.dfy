/** Header sections written out, and read back. */
module HeaderRoundTrip {
  import opened HeaderLines
  import opened HeaderInspector
  import RepairReading
  import opened RepairGrammar

  // ---- What is written ----

  /** A line's text between blanks. */
  datatype Piece = Piece(lead: Text, text: Text, trail: Text)

  /** A field with its continuation lines, or a line without a colon with the ones behind it. */
  datatype Item =
    | Named(name: Text, gap: Text, body: Piece, folds: seq<Piece>)
    | Stray(line: Text, folds: seq<Piece>)

  predicate Blanks(t: Text) {
    forall b :: b in t ==> b == 32 || b == 9
  }

  /** Nothing that ends a line, no NUL byte, and no blank at either end. */
  predicate IsText(t: Text) {
    IsClean(t) && (t != [] ==> t[0] != 32 && t[0] != 9 && t[|t| - 1] != 32 && t[|t| - 1] != 9)
  }

  predicate IsPiece(p: Piece) {
    Blanks(p.lead) && IsText(p.text) && Blanks(p.trail)
  }

  predicate IsFolded(folds: seq<Piece>) {
    forall p :: p in folds ==> IsPiece(p) && p.lead != []
  }

  predicate IsItem(i: Item) {
    && IsFolded(i.folds)
    && (match i
        case Named(name, gap, body, _) => name != [] && IsText(name) && 58 !in name && Blanks(gap) && IsPiece(body)
        case Stray(line, _) => line != [] && IsClean(line) && line[0] != 32 && line[0] != 9 && 58 !in line)
  }

  function PieceText(p: Piece): Text { p.lead + p.text + p.trail }

  function FoldedText(folds: seq<Piece>): Text {
    if folds == [] then [] else PieceText(folds[0]) + [13, 10] + FoldedText(folds[1..])
  }

  function ItemLine(i: Item): Text {
    match i
    case Named(name, gap, body, _) => name + gap + [58] + PieceText(body)
    case Stray(line, _) => line
  }

  function SectionText(items: seq<Item>): Text {
    if items == [] then []
    else ItemLine(items[0]) + [13, 10] + FoldedText(items[0].folds) + SectionText(items[1..])
  }

  // ---- What is to be read ----

  function NonEmpty(texts: seq<Text>): seq<Text> {
    if texts == [] then [] else (if texts[0] == [] then [] else [texts[0]]) + NonEmpty(texts[1..])
  }

  function Spaced(texts: seq<Text>): Text {
    if texts == [] then [] else if |texts| == 1 then texts[0] else texts[0] + [32] + Spaced(texts[1..])
  }

  function TextsOf(folds: seq<Piece>): seq<Text> {
    if folds == [] then [] else [folds[0].text] + TextsOf(folds[1..])
  }

  /** Each field in its place: the name, and the texts of its lines with single spaces between them. */
  function FieldsOf(items: seq<Item>): seq<Field> {
    if items == [] then []
    else
      (match items[0]
       case Named(name, _, body, folds) => [Field(name, Spaced(NonEmpty([body.text] + TextsOf(folds))))]
       case Stray(_, _) => [])
      + FieldsOf(items[1..])
  }

  predicate HasStray(items: seq<Item>) {
    exists i :: i in items && i.Stray?
  }

  // ---- Trimming ----

  lemma {:induction false} BlanksInFront(lead: Text, t: Text)
    requires Blanks(lead)
    ensures TrimFront(lead + t) == TrimFront(t)
  {
    if lead == [] {
      assert [] + t == t;
    } else {
      assert lead[0] in lead && (lead + t)[0] == lead[0];
      assert (lead + t)[1..] == lead[1..] + t;
      assert forall b :: b in lead[1..] ==> b in lead;
      BlanksInFront(lead[1..], t);
    }
  }

  lemma {:induction false} BlanksBehind(t: Text, trail: Text)
    requires Blanks(trail)
    ensures TrimBack(t + trail) == TrimBack(t)
  {
    if trail == [] {
      assert t + [] == t;
    } else {
      var n := |trail| - 1;
      assert trail[n] in trail && (t + trail)[|t| + n] == trail[n];
      assert (t + trail)[..|t + trail| - 1] == t + trail[..n];
      assert forall b :: b in trail[..n] ==> b in trail;
      BlanksBehind(t, trail[..n]);
    }
  }

  lemma TrimmedPiece(lead: Text, text: Text, trail: Text)
    requires Blanks(lead) && IsText(text) && Blanks(trail)
    ensures Trimmed(lead + text + trail) == text
  {
    assert lead + text + trail == lead + (text + trail);
    BlanksInFront(lead, text + trail);
    if text == [] {
      assert text + trail == trail == trail + [];
      BlanksInFront(trail, []);
    } else {
      assert (text + trail)[0] == text[0];
      BlanksBehind(text, trail);
    }
  }

  // ---- One line ----

  lemma {:induction false} ReadOne(line: Text, more: Text, c: Cursor, reasons: seq<Reason>)
    requires IsCursor(c) && line != [] && IsClean(line)
    ensures ReadLines(line + [13, 10] + more, c, reasons)
      == ReadLines(more, TakeLine(c, line), if LacksColon(line) then WithReason(reasons, LineWithoutColon) else reasons)
  {
    ScrubbedIsClean(line);
    hide ReadLines, TakeLine, Scrubbed;
    RepairReading.ReadFirst(line, more, c, reasons);
  }

  lemma BlanksAreClean(t: Text)
    requires Blanks(t)
    ensures IsClean(t)
  {
  }

  lemma PieceIsClean(p: Piece)
    requires IsPiece(p)
    ensures IsClean(PieceText(p))
  {
    BlanksAreClean(p.lead);
    BlanksAreClean(p.trail);
  }

  lemma CleanConcat(a: Text, b: Text)
    requires IsClean(a) && IsClean(b)
    ensures IsClean(a + b)
  {
  }

  lemma NameLineIsClean(i: Item)
    requires i.Named? && IsItem(i)
    ensures IsClean(ItemLine(i)) && forall b :: b in i.name + i.gap ==> b != 58
  {
    PieceIsClean(i.body);
    BlanksAreClean(i.gap);
    hide PieceText, IsPiece, IsClean;
    CleanConcat(i.name, i.gap);
    ColonIsClean();
    CleanConcat(i.name + i.gap, [58]);
    CleanConcat(i.name + i.gap + [58], PieceText(i.body));
  }

  lemma ColonIsClean()
    ensures IsClean([58])
  {
  }

  lemma NameLine(i: Item)
    requires i.Named? && IsItem(i)
    ensures var line, n := ItemLine(i), |i.name + i.gap|;
      && IsClean(line) && line != [] && !IsBlank(line[0]) && n < |line| && IndexOf(line, COLON) == n && COLON in line
      && line[..n] == [] + i.name + i.gap && line[n + 1..] == PieceText(i.body)
  {
    NameLineIsClean(i);
    hide PieceText, IsPiece, IsClean;
    var line, front := ItemLine(i), i.name + i.gap;
    var n := |front|;
    assert line == front + [58] + PieceText(i.body);
    assert line[0] == i.name[0];
    assert line[..n] == front == [] + i.name + i.gap;
    assert forall k :: 0 <= k < n ==> line[k] == front[k] && front[k] in front;
    assert line[n + 1..] == PieceText(i.body);
    ColonAt(line, n);
  }

  lemma TakesName(c: Cursor, i: Item)
    requires IsCursor(c) && i.Named? && IsItem(i)
    ensures var line := ItemLine(i);
      && line != [] && IsClean(line) && !LacksColon(line)
      && TakeLine(c, line) == Cursor(c.fields + [Field(i.name, i.body.text)], true)
  {
    NameLine(i);
    assert Blanks([]);
    TrimmedPiece([], i.name, i.gap);
    TrimmedPiece(i.body.lead, i.body.text, i.body.trail);
    hide ItemLine, IsClean, IsText, Trimmed, IndexOf;
  }

  lemma {:induction false} ColonAt(line: Text, n: nat)
    requires n < |line| && line[n] == 58 && forall k :: 0 <= k < n ==> line[k] != 58
    ensures IndexOf(line, COLON) == n && COLON in line
  {
    var k := IndexOf(line, COLON);
    assert forall j :: 0 <= j < k ==> line[..k][j] == line[j];
    assert k <= n;
  }

  lemma TakesStray(c: Cursor, i: Item)
    requires IsCursor(c) && i.Stray? && IsItem(i)
    ensures LacksColon(i.line) && TakeLine(c, i.line) == c.(open := false)
  {
  }

  lemma FoldLine(p: Piece)
    requires IsPiece(p) && p.lead != []
    ensures var line := PieceText(p); line != [] && IsClean(line) && IsBlank(line[0]) && !LacksColon(line) && Trimmed(line) == p.text
  {
    var line := PieceText(p);
    PieceIsClean(p);
    assert line[0] == p.lead[0] && p.lead[0] in p.lead;
    TrimmedPiece(p.lead, p.text, p.trail);
  }

  // ---- Continuation lines ----

  lemma {:induction false} FoldedStep(folds: seq<Piece>, more: Text)
    requires folds != []
    ensures FoldedText(folds) + more == PieceText(folds[0]) + [13, 10] + (FoldedText(folds[1..]) + more)
  {
    hide PieceText;
  }

  /** Behind no field they are ignored. */
  lemma NoFolds(more: Text)
    ensures FoldedText([]) + more == more
  {
    assert [] + more == more;
  }

  lemma {:induction false} FoldsIgnored(folds: seq<Piece>, more: Text, c: Cursor, reasons: seq<Reason>)
    requires IsFolded(folds) && !c.open
    ensures ReadLines(FoldedText(folds) + more, c, reasons) == ReadLines(more, c, reasons)
    decreases |folds|
  {
    hide IsPiece, ReadLines, PieceText, LacksColon, Trimmed, FoldedText;
    if folds == [] {
      NoFolds(more);
    } else {
      var p, rest := folds[0], FoldedText(folds[1..]) + more;
      assert p in folds;
      FoldLine(p);
      ReadOne(PieceText(p), rest, c, reasons);
      FoldedStep(folds, more);
      FoldsIgnored(folds[1..], more, c, reasons);
    }
  }

  lemma {:induction false} NonEmptySnoc(texts: seq<Text>, t: Text)
    ensures NonEmpty(texts + [t]) == NonEmpty(texts) + if t == [] then [] else [t]
  {
    if texts == [] {
      assert [t][1..] == [];
    } else {
      assert (texts + [t])[1..] == texts[1..] + [t];
      NonEmptySnoc(texts[1..], t);
    }
  }

  lemma {:induction false} SpacedSnoc(texts: seq<Text>, t: Text)
    requires t != [] && forall u :: u in texts ==> u != []
    ensures Spaced(texts + [t]) == Spaced(texts) + (if texts == [] then [] else [32]) + t
    ensures texts != [] ==> Spaced(texts) != []
  {
    if |texts| > 1 {
      var more := texts[1..];
      assert (texts + [t])[1..] == more + [t];
      assert forall u :: u in more ==> u in texts;
      SpacedSnoc(more, t);
      assert texts[0] + [32] + (Spaced(more) + [32] + t) == texts[0] + [32] + Spaced(more) + [32] + t;
    } else if |texts| == 1 {
      assert (texts + [t])[1..] == [t] && texts[0] in texts;
    }
  }

  lemma {:induction false} NoneIsEmpty(texts: seq<Text>)
    ensures forall u :: u in NonEmpty(texts) ==> u != []
  {
    if texts != [] { NoneIsEmpty(texts[1..]); }
  }

  lemma {:induction false} ValueGrows(texts: seq<Text>, t: Text)
    ensures var v := Spaced(NonEmpty(texts));
      Spaced(NonEmpty(texts + [t])) == v + (if v != [] && t != [] then [32] else []) + t
  {
    NonEmptySnoc(texts, t);
    NoneIsEmpty(texts);
    hide NonEmpty;
    if t != [] {
      SpacedSnoc(NonEmpty(texts), t);
    } else {
      assert NonEmpty(texts) + [] == NonEmpty(texts);
    }
  }

  function OpenField(before: seq<Field>, name: Text, texts: seq<Text>): Cursor {
    Cursor(before + [Field(name, Spaced(NonEmpty(texts)))], true)
  }

  lemma IsOpenField(before: seq<Field>, name: Text, texts: seq<Text>)
    ensures IsCursor(OpenField(before, name, texts))
  {
  }

  lemma TakesFold(before: seq<Field>, name: Text, texts: seq<Text>, p: Piece)
    requires IsPiece(p) && p.lead != []
    ensures TakeLine(OpenField(before, name, texts), PieceText(p)) == OpenField(before, name, texts + [p.text])
  {
    hide NonEmpty, Spaced, PieceText, Trimmed, IsPiece;
    FoldLine(p);
    ValueGrows(texts, p.text);
    var c := OpenField(before, name, texts);
    var n := |c.fields| - 1;
    assert c.fields[n := Unfolded(c.fields[n], p.text)] == OpenField(before, name, texts + [p.text]).fields;
  }

  /** Behind a field they extend its value. */
  lemma {:induction false} FoldsUnfold(
    folds: seq<Piece>, more: Text, before: seq<Field>, name: Text, texts: seq<Text>, reasons: seq<Reason>)
    requires IsFolded(folds)
    ensures ReadLines(FoldedText(folds) + more, OpenField(before, name, texts), reasons)
      == ReadLines(more, OpenField(before, name, texts + TextsOf(folds)), reasons)
    decreases |folds|
  {
    hide IsPiece, ReadLines, PieceText, LacksColon, Trimmed, TakeLine, OpenField, FoldedText;
    if folds == [] {
      NoFolds(more);
      assert texts + [] == texts;
    } else {
      var p, rest := folds[0], FoldedText(folds[1..]) + more;
      assert p in folds;
      FoldLine(p);
      IsOpenField(before, name, texts);
      ReadOne(PieceText(p), rest, OpenField(before, name, texts), reasons);
      TakesFold(before, name, texts, p);
      FoldedStep(folds, more);
      FoldsUnfold(folds[1..], more, before, name, texts + [p.text], reasons);
      assert texts + [p.text] + TextsOf(folds[1..]) == texts + TextsOf(folds);
    }
  }

  // ---- The whole section ----

  lemma {:induction false} ReadItem(i: Item, more: Text, c: Cursor, reasons: seq<Reason>) returns (d: Cursor)
    requires IsItem(i) && IsCursor(c)
    ensures IsCursor(d) && d.fields == c.fields + FieldsOf([i])
    ensures ReadLines(ItemLine(i) + [13, 10] + FoldedText(i.folds) + more, c, reasons)
      == ReadLines(more, d, if i.Stray? then WithReason(reasons, LineWithoutColon) else reasons)
  {
    hide ReadLines, TakeLine, Spaced, NonEmpty, LacksColon, IsClean, IsText, FoldedText;
    var line, folds := ItemLine(i), FoldedText(i.folds);
    assert line + [13, 10] + folds + more == line + [13, 10] + (folds + more);
    assert FieldsOf([]) == [] && [i][1..] == [];
    if i.Named? {
      TakesName(c, i);
      ReadOne(line, folds + more, c, reasons);
      OneText(i.body.text);
      FoldsUnfold(i.folds, more, c.fields, i.name, [i.body.text], reasons);
      d := OpenField(c.fields, i.name, [i.body.text] + TextsOf(i.folds));
    } else {
      TakesStray(c, i);
      ReadOne(line, folds + more, c, reasons);
      d := c.(open := false);
      FoldsIgnored(i.folds, more, d, WithReason(reasons, LineWithoutColon));
    }
  }

  lemma OneText(t: Text)
    ensures Spaced(NonEmpty([t])) == t
  {
    assert [t][1..] == [];
    assert NonEmpty([t]) == if t == [] then [] else [t];
  }

  function StrayReasons(items: seq<Item>, reasons: seq<Reason>): seq<Reason> {
    if HasStray(items) then WithReason(reasons, LineWithoutColon) else reasons
  }

  lemma StrayCons(i: Item, items: seq<Item>, reasons: seq<Reason>)
    ensures StrayReasons([i] + items, reasons)
      == StrayReasons(items, if i.Stray? then WithReason(reasons, LineWithoutColon) else reasons)
  {
    if i.Stray? {
      assert i in [i] + items && HasStray([i] + items);
    }
    if HasStray(items) {
      var j :| j in items && j.Stray?;
      assert j in [i] + items;
    }
  }

  lemma {:induction false} SectionStep(items: seq<Item>, more: Text)
    requires items != []
    ensures var i := items[0];
      SectionText(items) + [13, 10] + more
      == ItemLine(i) + [13, 10] + FoldedText(i.folds) + (SectionText(items[1..]) + [13, 10] + more)
  {
    hide ItemLine, FoldedText;
  }

  lemma NoItems(more: Text)
    ensures SectionText([]) + [13, 10] + more == [13, 10] + more && FieldsOf([]) == []
  {
    assert [] + [13, 10] + more == [13, 10] + more;
  }

  lemma {:induction false} ReadSection(items: seq<Item>, more: Text, c: Cursor, reasons: seq<Reason>) returns (d: Cursor)
    requires (forall i :: i in items ==> IsItem(i)) && IsCursor(c)
    ensures IsCursor(d) && d.fields == c.fields + FieldsOf(items)
    ensures ReadLines(SectionText(items) + [13, 10] + more, c, reasons)
      == Reading(d, StrayReasons(items, reasons), true, more)
    decreases |items|
  {
    hide IsItem, ReadLines, ItemLine, FoldedText, StrayReasons, SectionText, FieldsOf, IsCursor;
    if items == [] {
      NothingRead(more, c, reasons);
      NoItems(more);
      d := c;
      assert c.fields + [] == c.fields;
    } else {
      var i, rest := items[0], SectionText(items[1..]) + [13, 10] + more;
      assert i in items && [i] + items[1..] == items;
      var e := ReadItem(i, rest, c, reasons);
      SectionStep(items, more);
      StrayCons(i, items[1..], reasons);
      d := ReadSection(items[1..], more, e, if i.Stray? then WithReason(reasons, LineWithoutColon) else reasons);
      FieldsOfCons(i, items[1..]);
      assert c.fields + FieldsOf([i]) + FieldsOf(items[1..]) == c.fields + (FieldsOf([i]) + FieldsOf(items[1..]));
    }
  }

  lemma {:induction false} FieldsOfCons(i: Item, items: seq<Item>)
    ensures FieldsOf([i] + items) == FieldsOf([i]) + FieldsOf(items)
  {
    hide Spaced, NonEmpty;
    assert ([i] + items)[1..] == items && [i][1..] == [] && FieldsOf([]) == [];
  }

  lemma {:induction false} NothingRead(more: Text, c: Cursor, reasons: seq<Reason>)
    requires IsCursor(c)
    ensures ReadLines([13, 10] + more, c, reasons) == Reading(c, StrayReasons([], reasons), true, more)
  {
    RenderedFirst([], more);
    assert [] + CRLF + more == [13, 10] + more;
    hide TakeLine, LineReasons;
  }

  lemma NoFieldsYet()
    ensures NO_FIELDS == Cursor([], false) && IsCursor(NO_FIELDS)
  {
  }

  function MarkReasons(bom: bool): seq<Reason> {
    if bom then [Utf8BomAtStart] else []
  }

  lemma {:induction false} ReadingOfMarked(bom: bool, t: Text)
    requires bom || !([0xEF, 0xBB, 0xBF] <= t)
    ensures ReadingOf(Mark(bom) + t) == ReadLines(t, NO_FIELDS, MarkReasons(bom))
  {
    MarkInFront(bom, t);
    hide ReadLines;
    if bom { assert (Mark(bom) + t)[..3] == BOM; } else { assert [] + t == t; }
  }

  lemma InspectionIs(prefix: Text, cap: nat, bom: bool, stray: bool, d: Cursor, more: Text)
    requires IsCursor(d) && |more| <= |Window(prefix, cap)|
    requires ReadingOf(Window(prefix, cap))
      == Reading(d, if stray then WithReason(MarkReasons(bom), LineWithoutColon) else MarkReasons(bom), true, more)
    ensures Inspected(prefix, cap) == Inspection(
      true, |Window(prefix, cap)| - |more|, stray,
      MarkReasons(bom) + (if stray then [LineWithoutColon] else []), d.fields)
  {
    hide ReadingOf, Window;
    var r := ReadingOf(Window(prefix, cap));
    if stray {
      assert LineWithoutColon in r.reasons;
    }
    assert MarkReasons(bom) + [] == MarkReasons(bom);
  }

  /** A header section is read as it was written, whatever follows its blank line: the fields in order with
      their names and unfolded values, the separator, the length, and as malformed exactly if a line without
      a colon is in it. Continuation lines before the first field are ignored. A BOM is reported and skipped;
      it cannot be told from a text that starts with its bytes. */
  lemma {:induction false} ReadBack(orphans: seq<Piece>, items: seq<Item>, more: Text, bom: bool, cap: nat)
    requires IsFolded(orphans) && forall i :: i in items ==> IsItem(i)
    requires var header := FoldedText(orphans) + SectionText(items) + [13, 10];
      |Mark(bom)| + |header| <= cap && (bom || !([0xEF, 0xBB, 0xBF] <= header))
    ensures var header := FoldedText(orphans) + SectionText(items) + [13, 10];
      Inspected(Mark(bom) + header + more, cap) == Inspection(
        true, |Mark(bom)| + |header|, HasStray(items),
        MarkReasons(bom) + (if HasStray(items) then [LineWithoutColon] else []), FieldsOf(items))
  {
    hide *;
    var header := FoldedText(orphans) + SectionText(items) + [13, 10];
    RepairReading.WindowOfRepaired(Mark(bom) + header, more, cap);
    var kept :| Window(Mark(bom) + header + more, cap) == Mark(bom) + header + kept;
    assert Mark(bom) + (header + kept) == Mark(bom) + header + kept;
    NoBomInFront(bom, header, kept);
    ReadingOfMarked(bom, header + kept);
    NoFieldsYet();
    var rest := SectionText(items) + [13, 10] + kept;
    FoldsIgnored(orphans, rest, NO_FIELDS, MarkReasons(bom));
    assert FoldedText(orphans) + rest == header + kept;
    var d := ReadSection(items, kept, NO_FIELDS, MarkReasons(bom));
    StrayReasonsAre(items, MarkReasons(bom));
    assert d.fields == FieldsOf(items);
    InspectionIs(Mark(bom) + header + more, cap, bom, HasStray(items), d, kept);
  }

  lemma StrayReasonsAre(items: seq<Item>, reasons: seq<Reason>)
    ensures StrayReasons(items, reasons) == if HasStray(items) then WithReason(reasons, LineWithoutColon) else reasons
  {
  }

  lemma NoBomInFront(bom: bool, header: Text, more: Text)
    requires |header| >= 2 && header[|header| - 2..] == [13, 10] && (bom || !([0xEF, 0xBB, 0xBF] <= header))
    ensures bom || !([0xEF, 0xBB, 0xBF] <= header + more)
  {
    if |header| >= 3 {
      assert (header + more)[..3] == header[..3];
    } else {
      assert (header + more)[0] == header[|header| - 2..][0];
    }
  }
}
