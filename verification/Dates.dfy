/** Reading RFC 5322 dates and printing ISO 8601 ones. Both work on FILETIME ticks, of which ten million make
    a second, counted from the year 1601; the calendar in between is that of two other routines. */
module Dates {
  import opened Wrappers
  import opened Calendar

  const TICKS: int := 10_000_000
  /** 1970-01-01 in FILETIME ticks. */
  const EPOCH: int := 116444736000000000

  function FileTimeOf(unixSeconds: int): int {
    unixSeconds * TICKS + EPOCH
  }

  function UnixSecondsOf(fileTime: int): int {
    TruncDiv(fileTime - EPOCH, TICKS)
  }

  // ---- Characters and tokens ----

  predicate IsSpace(c: char) {
    c == ' ' || c == '\t' || c == '\r' || c == '\n' || c == 11 as char || c == 12 as char
  }

  predicate IsDigit(c: char) { '0' <= c <= '9' }
  predicate IsLetter(c: char) { 'a' <= c <= 'z' || 'A' <= c <= 'Z' }

  function Upper(c: char): char {
    if 'a' <= c <= 'z' then (c as int - 32) as char else c
  }

  function UpperAll(s: string): (u: string)
    ensures |u| == |s|
  {
    if s == "" then "" else [Upper(s[0])] + UpperAll(s[1..])
  }

  /** The text outside parenthesized comments, starting inside `depth` of them. */
  function Uncommented(text: string, depth: nat): string
    decreases |text|
  {
    if text == "" then ""
    else if depth == 0 then
      if text[0] == '(' then Uncommented(text[1..], 1) else [text[0]] + Uncommented(text[1..], 0)
    else if text[0] == '\\' && |text| > 1 then Uncommented(text[2..], depth)
    else if text[0] == '(' then Uncommented(text[1..], depth + 1)
    else if text[0] == ')' then Uncommented(text[1..], depth - 1)
    else Uncommented(text[1..], depth)
  }

  method StripComments(text: string) returns (out: string)
    ensures out == Uncommented(text, 0)
  {
    out := "";
    var depth: nat := 0;
    var i := 0;
    while i < |text|
      invariant 0 <= i <= |text|
      invariant out + Uncommented(text[i..], depth) == Uncommented(text, 0)
    {
      var c := text[i];
      assert text[i..][1..] == text[i + 1..];
      ghost var was := out;
      if depth == 0 {
        if c == '(' {
          depth := depth + 1;
        } else {
          out := out + [c];
          assert was + ([c] + Uncommented(text[i + 1..], 0)) == out + Uncommented(text[i + 1..], 0);
        }
      } else {
        if c == '\\' && i + 1 < |text| {
          assert text[i..][2..] == text[i + 2..];
          i := i + 1;
        } else if c == '(' {
          depth := depth + 1;
        } else if c == ')' {
          depth := depth - 1;
        }
      }
      i := i + 1;
    }
    assert text[i..] == "" && out + "" == out;
  }

  function WordLength(s: string): (n: nat)
    ensures n <= |s| && (forall k :: 0 <= k < n ==> !IsSpace(s[k])) && (n < |s| ==> IsSpace(s[n]))
  {
    if s == "" || IsSpace(s[0]) then 0 else 1 + WordLength(s[1..])
  }

  function Tokens(s: string): seq<string>
    decreases |s|
  {
    if s == "" then []
    else if IsSpace(s[0]) then Tokens(s[1..])
    else [s[..WordLength(s)]] + Tokens(s[WordLength(s)..])
  }

  lemma {:induction false} WordEnds(s: string, n: nat)
    requires n <= |s| && (forall k :: 0 <= k < n ==> !IsSpace(s[k])) && (n < |s| ==> IsSpace(s[n]))
    ensures WordLength(s) == n
  {
  }

  lemma SpaceIsSkipped(s: string, i: nat)
    requires i < |s| && IsSpace(s[i])
    ensures Tokens(s[i..]) == Tokens(s[i + 1..])
  {
    assert s[i..][1..] == s[i + 1..];
  }

  lemma WordIsTaken(s: string, start: nat, end: nat)
    requires start < end <= |s| && (forall k :: start <= k < end ==> !IsSpace(s[k])) && (end < |s| ==> IsSpace(s[end]))
    ensures Tokens(s[start..]) == [s[start..end]] + Tokens(s[end..])
  {
    WordEnds(s[start..], end - start);
    assert s[start..][..end - start] == s[start..end] && s[start..][end - start..] == s[end..];
  }

  method Tokenize(s: string) returns (tokens: seq<string>)
    ensures tokens == Tokens(s)
  {
    hide Tokens;
    tokens := [];
    var i := 0;
    assert s[0..] == s;
    while i < |s|
      invariant 0 <= i <= |s| && tokens + Tokens(s[i..]) == Tokens(s)
    {
      while i < |s| && IsSpace(s[i])
        invariant 0 <= i <= |s| && tokens + Tokens(s[i..]) == Tokens(s)
      {
        SpaceIsSkipped(s, i);
        i := i + 1;
      }
      var start := i;
      while i < |s| && !IsSpace(s[i])
        invariant start <= i <= |s| && forall k :: start <= k < i ==> !IsSpace(s[k])
      {
        i := i + 1;
      }
      if i > start {
        WordIsTaken(s, start, i);
        assert tokens + ([s[start..i]] + Tokens(s[i..])) == tokens + [s[start..i]] + Tokens(s[i..]);
        tokens := tokens + [s[start..i]];
      }
    }
    NoTokens();
    assert s[i..] == "" && tokens + [] == tokens;
  }

  lemma NoTokens()
    ensures Tokens("") == []
  {
  }

  // ---- Numbers and names ----

  function NumberOf(digits: string): nat
    requires forall c :: c in digits ==> IsDigit(c)
  {
    if digits == "" then 0
    else
      var n := |digits| - 1;
      var d := digits[n];
      assert IsDigit(d);
      NumberOf(digits[..n]) * 10 + (d as int - '0' as int)
  }

  function DigitsIn(tok: string, least: nat, most: nat): Option<nat> {
    if least <= |tok| <= most && forall c :: c in tok ==> IsDigit(c) then Some(NumberOf(tok)) else None
  }

  method ParseDigits(tok: string, least: nat, most: nat) returns (value: Option<nat>)
    ensures value == DigitsIn(tok, least, most)
  {
    if |tok| < least || |tok| > most {
      return None;
    }
    var v: nat := 0;
    for k := 0 to |tok|
      invariant forall c :: c in tok[..k] ==> IsDigit(c)
      invariant v == NumberOf(tok[..k])
    {
      if !IsDigit(tok[k]) {
        assert tok[k] in tok;
        return None;
      }
      assert tok[..k + 1] == tok[..k] + [tok[k]];
      assert tok[..k + 1][..k] == tok[..k];
      v := v * 10 + (tok[k] as int - '0' as int);
    }
    assert tok[..|tok|] == tok;
    value := Some(v);
  }

  const DAY_NAMES: seq<string> := ["MON", "TUE", "WED", "THU", "FRI", "SAT", "SUN"]
  const MONTH_NAMES: seq<string> := ["JAN", "FEB", "MAR", "APR", "MAY", "JUN", "JUL", "AUG", "SEP", "OCT", "NOV", "DEC"]

  predicate IsDayName(core: string) {
    |core| == 3 && UpperAll(core) in DAY_NAMES
  }

  function IndexIn(names: seq<string>, name: string): (k: nat)
    ensures k <= |names| && (k < |names| ==> names[k] == name) && (k == |names| ==> name !in names)
  {
    if names == [] || names[0] == name then 0 else 1 + IndexIn(names[1..], name)
  }

  /** 1 to 12, or 0 for no month; only the first three letters count. */
  function MonthOf(tok: string): nat {
    if |tok| < 3 then 0
    else
      var k := IndexIn(MONTH_NAMES, UpperAll(tok[..3]));
      if k < 12 then k + 1 else 0
  }

  /** Two-digit years up to 49 are of this century, three-digit years count from 1900. */
  function YearOf(tok: string): Option<nat> {
    match DigitsIn(tok, 2, 4)
    case None => None
    case Some(v) =>
      if |tok| == 2 then Some(if v <= 49 then 2000 + v else 1900 + v)
      else if |tok| == 3 then Some(1900 + v)
      else Some(v)
  }

  function FirstColon(s: string): (k: nat)
    ensures k <= |s| && (k < |s| ==> s[k] == ':') && ':' !in s[..k]
  {
    if s == "" || s[0] == ':' then 0
    else
      var k := 1 + FirstColon(s[1..]);
      assert s[..k] == [s[0]] + s[1..][..k - 1];
      k
  }

  datatype TimeOfDay = TimeOfDay(hour: nat, minute: nat, second: nat)

  function AtMost(value: Option<nat>, limit: nat): Option<nat> {
    if value.Some? && value.value <= limit then value else None
  }

  function TimeOf(tok: string): Option<TimeOfDay> {
    var c1 := FirstColon(tok);
    if c1 == |tok| then None
    else
      var rest := tok[c1 + 1..];
      var c2 := FirstColon(rest);
      var hour := AtMost(DigitsIn(tok[..c1], 1, 2), 23);
      var minute := AtMost(DigitsIn(rest[..c2], 1, 2), 59);
      var second := if c2 < |rest| then AtMost(DigitsIn(rest[c2 + 1..], 1, 2), 60) else Some(0);
      if hour.None? || minute.None? || second.None? then None
      else Some(TimeOfDay(hour.value, minute.value, second.value))
  }

  const ZONES: map<string, int> := map["UT" := 0, "GMT" := 0, "Z" := 0, "EST" := -300, "EDT" := -240, "CST" := -360,
                                       "CDT" := -300, "MST" := -420, "MDT" := -360, "PST" := -480, "PDT" := -420]

  /** Minutes east of UTC. A single letter that names no zone means UTC. */
  function ZoneOf(tok: string): Option<int> {
    if |tok| == 5 && (tok[0] == '+' || tok[0] == '-') then
      var hh, mm := DigitsIn(tok[1..3], 2, 2), DigitsIn(tok[3..], 2, 2);
      if hh.None? || mm.None? || mm.value >= 60 || hh.value > 14 then None
      else Some((if tok[0] == '-' then -1 else 1) * (hh.value * 60 + mm.value))
    else if UpperAll(tok) in ZONES then Some(ZONES[UpperAll(tok)])
    else if |tok| == 1 && IsLetter(tok[0]) then Some(0)
    else None
  }

  function SecondsOf(date: CivilDate, time: TimeOfDay, offsetMinutes: int): int {
    DaysFromCivil(date) * 86400 + time.hour * 3600 + time.minute * 60
      + (if time.second > 59 then 59 else time.second) - offsetMinutes * 60
  }

  function DateFields(tokens: seq<string>): Option<int>
    requires 4 <= |tokens| <= 5
  {
    var day := DigitsIn(tokens[0], 1, 2);
    var month := MonthOf(tokens[1]);
    var year := YearOf(tokens[2]);
    var time := TimeOf(tokens[3]);
    var zone := if |tokens| == 5 then ZoneOf(tokens[4]) else Some(0);
    if day.None? || month == 0 || year.None? || !IsDate(CivilDate(year.value, month, day.value)) || time.None? || zone.None? then None
    else Some(FileTimeOf(SecondsOf(CivilDate(year.value, month, day.value), time.value, zone.value)))
  }

  predicate StartsWithDay(tokens: seq<string>)
    requires tokens != []
  {
    var t := tokens[0];
    IsDayName(if t != "" && t[|t| - 1] == ',' then t[..|t| - 1] else t)
  }

  function DateOfTokens(tokens: seq<string>): Option<int> {
    if tokens == [] then None
    else
      var fields := if StartsWithDay(tokens) then tokens[1..] else tokens;
      if 4 <= |fields| <= 5 then DateFields(fields) else None
  }

  method ParseRfc5322Date(text: string) returns (fileTime: Option<int>)
    ensures fileTime == DateOfTokens(Tokens(Uncommented(text, 0)))
  {
    var stripped := StripComments(text);
    var tokens := Tokenize(stripped);
    fileTime := DateOfTokens(tokens);
  }

  // ---- Printing ----

  function DecimalText(n: nat): string {
    if n < 10 then [('0' as int + n) as char] else DecimalText(n / 10) + [('0' as int + n % 10) as char]
  }

  function Padded(digits: string, width: nat): string
    decreases width - |digits|
  {
    if |digits| >= width then digits else Padded("0" + digits, width)
  }

  /** Decimal with leading zeros; a minus sign counts for the width. */
  function Fixed(n: int, width: nat): string {
    if n >= 0 then Padded(DecimalText(n), width)
    else "-" + Padded(DecimalText(-n), if width == 0 then 0 else width - 1)
  }

  function IsoText(date: CivilDate, time: TimeOfDay): string {
    Fixed(date.year, 4) + "-" + Fixed(date.month, 2) + "-" + Fixed(date.day, 2) + "T"
      + Fixed(time.hour, 2) + ":" + Fixed(time.minute, 2) + ":" + Fixed(time.second, 2) + "Z"
  }

  function DayOf(unixSeconds: int): int { unixSeconds / 86400 }

  function ClockOf(unixSeconds: int): (t: TimeOfDay)
    ensures t.hour < 24 && t.minute < 60 && t.second < 60
    ensures unixSeconds == DayOf(unixSeconds) * 86400 + t.hour * 3600 + t.minute * 60 + t.second
  {
    var s := unixSeconds % 86400;
    TimeOfDay(s / 3600, s % 3600 / 60, s % 60)
  }

  function IsoOfSeconds(unixSeconds: int): string {
    IsoText(CivilFromDays(DayOf(unixSeconds)), ClockOf(unixSeconds))
  }

  lemma Truncated(a: int, b: int)
    requires b > 0
    ensures TruncDiv(a, b) == if a >= 0 || a % b == 0 then a / b else a / b + 1
    ensures a == b * (a / b) + a % b
  {
    if a < 0 {
      var q, r := a / b, a % b;
      if r == 0 {
        Quotient(-a, b, -q, 0);
      } else {
        assert -a == b * (-q - 1) + (b - r);
        Quotient(-a, b, -q - 1, b - r);
      }
    }
  }

  /** Division rounding down, from a division that truncates. */
  function FloorDiv(a: int, b: int): (q: int)
    requires b > 0
    ensures q == a / b
  {
    var q := TruncDiv(a, b);
    var r := a - b * q;
    Truncated(a, b);
    if r != 0 && r < 0 then q - 1 else q
  }

  method Iso8601FromFileTime(time: int) returns (text: string)
    ensures text == IsoOfSeconds(UnixSecondsOf(time))
  {
    hide IsoText, CivilFromDays, UnixSecondsOf, TruncDiv;
    var unixSeconds := UnixSecondsOf(time);
    var days := FloorDiv(unixSeconds, 86400);
    var secsOfDay := unixSeconds - days * 86400;
    var date := CivilFromDays(days);
    text := IsoText(date, TimeOfDay(secsOfDay / 3600, secsOfDay % 3600 / 60, secsOfDay % 60));
  }

  // ---- A canonical date is read as what it says ----

  function Digit(n: nat): char
    requires n < 10
  {
    ('0' as int + n) as char
  }

  function Two(n: nat): (s: string)
    requires n < 100
    ensures |s| == 2
  {
    [Digit(n / 10), Digit(n % 10)]
  }

  function Four(n: nat): (s: string)
    requires n < 10000
    ensures |s| == 4
  {
    Two(n / 100) + Two(n % 100)
  }

  lemma TwoReads(n: nat, least: nat, most: nat)
    requires n < 100 && least <= 2 <= most
    ensures DigitsIn(Two(n), least, most) == Some(n)
  {
    var t := Two(n);
    assert t[..1][..0] == "" && t[..1][0] == t[0];
    assert NumberOf(t[..1]) == n / 10;
  }

  lemma FourReads(n: nat)
    requires n < 10000
    ensures DigitsIn(Four(n), 2, 4) == Some(n)
  {
    var t := Four(n);
    assert t[..1][..0] == "" && t[..2][..1] == t[..1] && t[..3][..2] == t[..2] && t[..4] == t && t[..4][..3] == t[..3];
    assert NumberOf(t[..1]) == n / 100 / 10;
    assert NumberOf(t[..2]) == n / 100;
    assert NumberOf(t[..3]) == n / 100 * 10 + n % 100 / 10;
  }

  /** The form of section 3.3 of RFC 5322, with its optional day name. */
  datatype Stamp = Stamp(dayName: Option<string>, date: CivilDate, time: TimeOfDay, east: bool, zoneHours: nat, zoneMinutes: nat)

  predicate IsStamp(t: Stamp) {
    && (t.dayName.Some? ==> IsDayName(t.dayName.value))
    && 0 <= t.date.year < 10000 && IsDate(t.date)
    && t.time.hour < 24 && t.time.minute < 60 && t.time.second <= 60
    && t.zoneHours <= 14 && t.zoneMinutes < 60
  }

  function ClockText(time: TimeOfDay): string
    requires time.hour < 100 && time.minute < 100 && time.second < 100
  {
    Two(time.hour) + ":" + Two(time.minute) + ":" + Two(time.second)
  }

  function ZoneText(t: Stamp): string
    requires IsStamp(t)
  {
    (if t.east then "+" else "-") + Two(t.zoneHours) + Two(t.zoneMinutes)
  }

  /** The words of the date, without the day name. */
  function Words(t: Stamp): (words: seq<string>)
    requires IsStamp(t)
    ensures |words| == 5
  {
    [Two(t.date.day), MONTH_NAMES[t.date.month - 1], Four(t.date.year), ClockText(t.time), ZoneText(t)]
  }

  function Spaced(words: seq<string>): string {
    if words == [] then "" else if |words| == 1 then words[0] else words[0] + " " + Spaced(words[1..])
  }

  function Canonical(t: Stamp): string
    requires IsStamp(t)
  {
    Spaced((if t.dayName.Some? then [t.dayName.value + ","] else []) + Words(t))
  }

  function OffsetOf(t: Stamp): int {
    (if t.east then 1 else -1) * (t.zoneHours * 60 + t.zoneMinutes)
  }

  predicate IsWord(w: string) {
    w != "" && forall c :: c in w ==> !IsSpace(c) && c != '('
  }

  /** Words joined by spaces are its tokens, and there is no comment in them. */
  lemma {:induction false} SpacedTokens(words: seq<string>)
    requires forall w :: w in words ==> IsWord(w)
    ensures Tokens(Spaced(words)) == words && forall c :: c in Spaced(words) ==> c != '('
  {
    if words != [] {
      var w := words[0];
      assert IsWord(w);
      if |words| == 1 {
        WordEnds(w, |w|);
        assert w[|w|..] == "" && w[..|w|] == w;
        assert words == [w];
      } else {
        var rest := Spaced(words[1..]);
        var text := w + " " + rest;
        SpacedTokens(words[1..]);
        WordEnds(text, |w|);
        assert text[..|w|] == w && text[|w|..] == " " + rest && (" " + rest)[1..] == rest;
        assert words == [w] + words[1..];
      }
    }
  }

  lemma {:induction false} NothingToStrip(text: string)
    requires forall c :: c in text ==> c != '('
    ensures Uncommented(text, 0) == text
  {
    if text != "" {
      assert text[0] in text && forall c :: c in text[1..] ==> c in text;
      NothingToStrip(text[1..]);
    }
  }

  lemma {:induction false} UpperOfDigits(tok: string)
    ensures tok != "" && IsDigit(tok[0]) ==> tok[0] == UpperAll(tok)[0] && !IsDayName(tok)
  {
    if tok != "" && IsDigit(tok[0]) && |tok| == 3 {
      assert forall n :: n in DAY_NAMES ==> !IsDigit(n[0]);
    }
  }

  lemma TwoIsWord(n: nat)
    requires n < 100
    ensures IsWord(Two(n))
  {
  }

  lemma WordsConcat(a: string, b: string)
    requires IsWord(a) && IsWord(b)
    ensures IsWord(a + b)
  {
  }

  lemma WordsAreWords(t: Stamp)
    requires IsStamp(t)
    ensures forall w :: w in Words(t) ==> IsWord(w)
  {
    hide IsWord, Two;
    TwoIsWord(t.date.day);
    TwoIsWord(t.date.year / 100);
    TwoIsWord(t.date.year % 100);
    WordsConcat(Two(t.date.year / 100), Two(t.date.year % 100));
    MonthIsWord(t.date.month);
    ClockIsWord(t.time);
    TwoIsWord(t.zoneHours);
    TwoIsWord(t.zoneMinutes);
    SignIsWord(t.east);
    WordsConcat(if t.east then "+" else "-", Two(t.zoneHours));
    WordsConcat((if t.east then "+" else "-") + Two(t.zoneHours), Two(t.zoneMinutes));
  }

  lemma SignIsWord(east: bool)
    ensures IsWord(if east then "+" else "-") && IsWord(":")
  {
  }

  lemma MonthIsWord(month: nat)
    requires 1 <= month <= 12
    ensures IsWord(MONTH_NAMES[month - 1])
  {
    hide IsWord;
    var name := MONTH_NAMES[month - 1];
    assert |name| == 3 && IsLetter(name[0]) && IsLetter(name[1]) && IsLetter(name[2]);
    ThreeLetters(name);
  }

  lemma ThreeLetters(name: string)
    requires |name| == 3 && IsLetter(name[0]) && IsLetter(name[1]) && IsLetter(name[2])
    ensures IsWord(name)
  {
  }

  lemma ClockIsWord(time: TimeOfDay)
    requires time.hour < 100 && time.minute < 100 && time.second < 100
    ensures IsWord(ClockText(time))
  {
    hide IsWord, Two;
    SignIsWord(true);
    TwoIsWord(time.hour);
    TwoIsWord(time.minute);
    TwoIsWord(time.second);
    WordsConcat(Two(time.hour), ":");
    WordsConcat(Two(time.hour) + ":", Two(time.minute));
    WordsConcat(Two(time.hour) + ":" + Two(time.minute), ":");
    WordsConcat(Two(time.hour) + ":" + Two(time.minute) + ":", Two(time.second));
  }

  lemma ClockReads(time: TimeOfDay)
    requires time.hour < 24 && time.minute < 60 && time.second <= 60
    ensures TimeOf(ClockText(time)) == Some(time)
  {
    hide Two, DigitsIn;
    var tok := ClockText(time);
    var h, m, s := Two(time.hour), Two(time.minute), Two(time.second);
    TwoReads(time.hour, 1, 2);
    TwoReads(time.minute, 1, 2);
    TwoReads(time.second, 1, 2);
    TwoHasNoColon(time.hour);
    TwoHasNoColon(time.minute);
    ColonAt(tok, 2);
    var rest := tok[3..];
    assert rest == m + ":" + s && tok[..2] == h;
    ColonAt(rest, 2);
    assert rest[..2] == m && rest[3..] == s;
  }

  lemma TwoHasNoColon(n: nat)
    requires n < 100
    ensures ':' !in Two(n)
  {
  }

  lemma {:induction false} ColonAt(s: string, k: nat)
    requires k < |s| && s[k] == ':' && ':' !in s[..k]
    ensures FirstColon(s) == k
  {
    if k > 0 {
      assert s[0] in s[..k];
      assert s[..k] == [s[0]] + s[1..][..k - 1];
      ColonAt(s[1..], k - 1);
    }
  }

  lemma ZoneReads(t: Stamp)
    requires IsStamp(t)
    ensures ZoneOf(ZoneText(t)) == Some(OffsetOf(t))
  {
    hide Two, DigitsIn;
    var tok := ZoneText(t);
    TwoReads(t.zoneHours, 2, 2);
    TwoReads(t.zoneMinutes, 2, 2);
    assert tok[1..3] == Two(t.zoneHours) && tok[3..] == Two(t.zoneMinutes);
  }

  lemma MonthReads(month: nat)
    requires 1 <= month <= 12
    ensures MonthOf(MONTH_NAMES[month - 1]) == month
  {
    var name := MONTH_NAMES[month - 1];
    assert name[..3] == name;
    UpperOfMonth(month);
    MonthsDistinct();
  }

  lemma UpperOfMonth(month: nat)
    requires 1 <= month <= 12
    ensures var name := MONTH_NAMES[month - 1]; |name| == 3 && UpperAll(name) == name
  {
    var name := MONTH_NAMES[month - 1];
    assert forall c :: c in name ==> Upper(c) == c;
    UpperUnchanged(name);
  }

  lemma {:induction false} UpperUnchanged(s: string)
    requires forall c :: c in s ==> Upper(c) == c
    ensures UpperAll(s) == s
  {
    if s != "" {
      assert s[0] in s;
      UpperUnchanged(s[1..]);
    }
  }

  lemma MonthsDistinct()
    ensures forall i, j :: 0 <= i < j < 12 ==> MONTH_NAMES[i] != MONTH_NAMES[j]
  {
  }

  lemma WordsRead(t: Stamp)
    requires IsStamp(t)
    ensures DateFields(Words(t)) == Some(FileTimeOf(SecondsOf(t.date, t.time, OffsetOf(t))))
  {
    hide DigitsIn, MonthOf, TimeOf, ZoneOf, Two, Four, SecondsOf, IsDayName;
    TwoReads(t.date.day, 1, 2);
    MonthReads(t.date.month);
    FourReads(t.date.year);
    ClockReads(t.time);
    ZoneReads(t);
    assert |Four(t.date.year)| == 4;
  }

  /** Parsing a canonical date gives the instant it names. */
  lemma CanonicalReads(t: Stamp)
    requires IsStamp(t)
    ensures DateOfTokens(Tokens(Uncommented(Canonical(t), 0))) == Some(FileTimeOf(SecondsOf(t.date, t.time, OffsetOf(t))))
  {
    hide DateFields, IsDayName, IsWord, IsDate, DaysFromCivil, Words, Tokens, Uncommented;
    var words := Words(t);
    var all := (if t.dayName.Some? then [t.dayName.value + ","] else []) + words;
    WordsAreWords(t);
    WordsRead(t);
    FirstWordIsNoDay(t);
    if t.dayName.Some? {
      DayNameIsWord(t.dayName.value);
      assert all[1..] == words;
    } else {
      assert all == words;
    }
    SpacedTokens(all);
    NothingToStrip(Canonical(t));
  }

  lemma FirstWordIsNoDay(t: Stamp)
    requires IsStamp(t)
    ensures !IsDayName(Words(t)[0]) && Words(t)[0] != "" && Words(t)[0][|Words(t)[0]| - 1] != ','
  {
    UpperOfDigits(Two(t.date.day));
  }

  lemma DayNameIsWord(name: string)
    requires IsDayName(name)
    ensures IsWord(name + ",") && (name + ",")[..|name|] == name
  {
    assert name[0] == name[0];
    forall c | c in name ensures !IsSpace(c) && c != '(' {
      var k :| 0 <= k < 3 && name[k] == c;
      UpperAt(name, k);
      assert IsLetter(UpperAll(name)[k]);
    }
  }

  lemma {:induction false} UpperAt(s: string, k: nat)
    requires k < |s|
    ensures UpperAll(s)[k] == Upper(s[k])
  {
    if k > 0 { UpperAt(s[1..], k - 1); }
  }

  // ---- Comments do not matter ----

  /** Text that stays inside `depth` comments: its own comments are closed, and none of those around it. */
  predicate IsEnclosed(c: string, depth: nat)
    decreases |c|
  {
    if c == "" then depth == 1
    else if c[0] == '\\' then |c| > 1 && IsEnclosed(c[2..], depth)
    else if c[0] == '(' then IsEnclosed(c[1..], depth + 1)
    else if c[0] == ')' then depth > 1 && IsEnclosed(c[1..], depth - 1)
    else IsEnclosed(c[1..], depth)
  }

  lemma {:induction false} EnclosedIsSkipped(c: string, depth: nat, after: string)
    requires depth > 0 && IsEnclosed(c, depth)
    ensures Uncommented(c + ")" + after, depth) == Uncommented(after, 0)
    decreases |c|
  {
    var t := c + ")" + after;
    if c == "" {
      assert t[1..] == after;
    } else if c[0] == '\\' {
      assert t[2..] == c[2..] + ")" + after;
      EnclosedIsSkipped(c[2..], depth, after);
    } else {
      assert t[1..] == c[1..] + ")" + after;
      EnclosedIsSkipped(c[1..], if c[0] == '(' then depth + 1 else if c[0] == ')' then depth - 1 else depth, after);
    }
  }

  /** A comment is skipped, with the comments and quoted pairs in it. */
  lemma {:induction false} CommentIsSkipped(before: string, c: string, after: string)
    requires '(' !in before && IsEnclosed(c, 1)
    ensures Uncommented(before + "(" + c + ")" + after, 0) == before + Uncommented(after, 0)
  {
    var t := before + "(" + c + ")" + after;
    if before == "" {
      assert t[1..] == c + ")" + after;
      EnclosedIsSkipped(c, 1, after);
    } else {
      assert t[0] == before[0] && t[1..] == before[1..] + "(" + c + ")" + after;
      assert before == [before[0]] + before[1..];
      CommentIsSkipped(before[1..], c, after);
    }
  }

  lemma {:induction false} WordBeforeSpace(s: string)
    ensures WordLength(s + " ") == WordLength(s)
  {
    var n := WordLength(s);
    assert forall k :: 0 <= k < n ==> (s + " ")[k] == s[k];
    WordEnds(s + " ", n);
  }

  lemma {:induction false} TrailingSpace(s: string)
    ensures Tokens(s + " ") == Tokens(s)
    decreases |s|
  {
    var t := s + " ";
    if s == "" {
      assert t[1..] == "";
    } else if IsSpace(s[0]) {
      assert t[1..] == s[1..] + " ";
      TrailingSpace(s[1..]);
    } else {
      var n := WordLength(s);
      WordBeforeSpace(s);
      assert t[..n] == s[..n] && t[n..] == s[n..] + " ";
      TrailingSpace(s[n..]);
    }
  }

  /** A canonical date followed by a comment, as in "-0700 (MST)", is read as the same instant. */
  lemma {:induction false} CommentedReads(t: Stamp, c: string)
    requires IsStamp(t) && IsEnclosed(c, 1)
    ensures DateOfTokens(Tokens(Uncommented(Canonical(t) + " (" + c + ")", 0)))
      == Some(FileTimeOf(SecondsOf(t.date, t.time, OffsetOf(t))))
  {
    hide DateOfTokens, Tokens, Canonical, IsEnclosed, IsStamp, IsDate, DaysFromCivil;
    CanonicalHasNoComment(t);
    var before := Canonical(t) + " ";
    CommentIsSkipped(before, c, "");
    assert before + "(" + c + ")" + "" == Canonical(t) + " (" + c + ")";
    assert before + Uncommented("", 0) == before;
    TrailingSpace(Canonical(t));
    NothingToStrip(Canonical(t));
    CanonicalReads(t);
  }

  lemma CanonicalHasNoComment(t: Stamp)
    requires IsStamp(t)
    ensures forall x :: x in Canonical(t) ==> x != '('
  {
    var all := (if t.dayName.Some? then [t.dayName.value + ","] else []) + Words(t);
    WordsAreWords(t);
    if t.dayName.Some? {
      DayNameIsWord(t.dayName.value);
    }
    hide IsWord, Words, IsDayName, IsStamp;
    SpacedTokens(all);
  }

  // ---- What the printed time says ----

  predicate FitsInt64(x: int) {
    -0x8000_0000_0000_0000 <= x < 0x8000_0000_0000_0000
  }

  /** Years of four digits lie within 26 eras. */
  lemma FourDigitYears(c: CivilDate)
    requires IsDate(c) && 0 <= c.year < 10000
    ensures -865565 <= DaysFromCivil(c) <= 2932956
  {
    hide DaysFromCivil, IsLeap, DayOfEra, YearOfEra, DayOfYear, IsDayOf;
    DaysUnwrapped(c);
    YearOfEraInverts(MarchYear(c) % 400, DayOfYear(c));
    assert -1 <= MarchYear(c) / 400 <= 24;
  }

  lemma TicksAreWhole(seconds: int)
    ensures UnixSecondsOf(FileTimeOf(seconds)) == seconds
  {
    Truncated(seconds * TICKS, TICKS);
    Quotient(seconds * TICKS, TICKS, seconds, 0);
  }

  /** The printed date and clock of any second name that second. */
  lemma PrintedFieldsAreExact(seconds: int)
    ensures var c := CivilFromDays(DayOf(seconds)); IsDate(c) && SecondsOf(c, ClockOf(seconds), 0) == seconds
  {
    hide CivilFromDays, DaysFromCivil, IsDate;
    DaysUndoCivil(DayOf(seconds));
  }

  /** A canonical date with a zone is parsed and printed as the same instant, in UTC; in between, no
      product or sum leaves 64 bits. */
  lemma ParsedPrintsTheSameInstant(t: Stamp)
    requires IsStamp(t)
    ensures var seconds := SecondsOf(t.date, t.time, OffsetOf(t));
      && DateOfTokens(Tokens(Uncommented(Canonical(t), 0))) == Some(FileTimeOf(seconds))
      && IsoOfSeconds(UnixSecondsOf(FileTimeOf(seconds))) == IsoOfSeconds(seconds)
      && FitsInt64(DaysFromCivil(t.date) * 86400) && FitsInt64(seconds * TICKS) && FitsInt64(FileTimeOf(seconds))
  {
    hide Canonical, Tokens, Uncommented, DateOfTokens, DaysFromCivil, IsoOfSeconds, IsDate;
    CanonicalReads(t);
    TicksAreWhole(SecondsOf(t.date, t.time, OffsetOf(t)));
    FourDigitYears(t.date);
  }

  lemma {:induction false} SmallNumber(digits: string)
    requires |digits| <= 4 && forall c :: c in digits ==> IsDigit(c)
    ensures NumberOf(digits) < [1, 10, 100, 1000, 10000][|digits|]
  {
    if digits != "" {
      var n := |digits| - 1;
      assert IsDigit(digits[n]);
      SmallNumber(digits[..n]);
    }
  }

  lemma YearIsSmall(tok: string)
    ensures YearOf(tok).Some? ==> YearOf(tok).value < 10000
  {
    if DigitsIn(tok, 2, 4).Some? { SmallNumber(tok); }
  }

  lemma ZoneIsSmall(tok: string)
    ensures ZoneOf(tok).Some? ==> -900 < ZoneOf(tok).value < 900
  {
    hide DigitsIn;
  }

  lemma FieldsFit(tokens: seq<string>)
    requires 4 <= |tokens| <= 5 && DateFields(tokens).Some?
    ensures var fileTime := DateFields(tokens).value; FitsInt64(fileTime) && (fileTime - EPOCH) % TICKS == 0
  {
    hide DigitsIn, MonthOf, YearOf, TimeOf, ZoneOf, DaysFromCivil, IsDate;
    YearIsSmall(tokens[2]);
    if |tokens| == 5 { ZoneIsSmall(tokens[4]); }
    TimeIsSmall(tokens[3]);
    var date := CivilDate(YearOf(tokens[2]).value, MonthOf(tokens[1]), DigitsIn(tokens[0], 1, 2).value);
    FourDigitYears(date);
    var seconds := SecondsOf(date, TimeOf(tokens[3]).value, if |tokens| == 5 then ZoneOf(tokens[4]).value else 0);
    WholeTicks(seconds);
  }

  lemma WholeTicks(seconds: int)
    ensures (FileTimeOf(seconds) - EPOCH) % TICKS == 0
  {
    Quotient(seconds * TICKS, TICKS, seconds, 0);
  }

  lemma TimeIsSmall(tok: string)
    ensures TimeOf(tok).Some? ==> var t := TimeOf(tok).value; t.hour < 24 && t.minute < 60 && t.second <= 60
  {
    hide DigitsIn, FirstColon;
  }

  /** Whatever text is accepted as a date: the time fits 64 bits and lies on a whole second, so that it is
      printed exactly, also before 1970. */
  lemma {:induction false} EveryParsedDateFits(text: string)
    requires DateOfTokens(Tokens(Uncommented(text, 0))).Some?
    ensures var fileTime := DateOfTokens(Tokens(Uncommented(text, 0))).value;
      FitsInt64(fileTime) && IsoOfSeconds(UnixSecondsOf(fileTime)) == IsoOfSeconds((fileTime - EPOCH) / TICKS)
  {
    hide DateFields, IsoOfSeconds, Tokens, Uncommented, StartsWithDay;
    var tokens := Tokens(Uncommented(text, 0));
    FieldsFit(if StartsWithDay(tokens) then tokens[1..] else tokens);
    IsoNamesTheSecond(DateOfTokens(tokens).value);
  }

  // ---- The text tells instants apart ----

  lemma {:induction false} DecimalReads(n: nat)
    ensures (forall c :: c in DecimalText(n) ==> IsDigit(c)) && NumberOf(DecimalText(n)) == n && DecimalText(n) != ""
  {
    var d := DecimalText(n);
    if n >= 10 {
      DecimalReads(n / 10);
      assert d[..|d| - 1] == DecimalText(n / 10);
    } else {
      assert d[..0] == "";
    }
  }

  lemma {:induction false} ZeroInFront(digits: string)
    requires forall c :: c in digits ==> IsDigit(c)
    ensures (forall c :: c in "0" + digits ==> IsDigit(c)) && NumberOf("0" + digits) == NumberOf(digits)
  {
    var n := |digits|;
    if n == 0 {
      assert ("0" + digits)[..0] == "";
    } else {
      ZeroInFront(digits[..n - 1]);
      assert ("0" + digits)[..n] == "0" + digits[..n - 1];
    }
  }

  lemma {:induction false} PaddedReads(digits: string, width: nat)
    requires digits != "" && forall c :: c in digits ==> IsDigit(c)
    ensures var p := Padded(digits, width);
      (forall c :: c in p ==> IsDigit(c)) && NumberOf(p) == NumberOf(digits) && p != ""
    decreases width - |digits|
  {
    if |digits| < width {
      ZeroInFront(digits);
      PaddedReads("0" + digits, width);
    }
  }

  lemma FixedInjective(a: int, b: int, width: nat)
    requires width > 0 && Fixed(a, width) == Fixed(b, width)
    ensures a == b
  {
    hide Padded, NumberOf, DecimalText;
    FixedReads(a, width);
    FixedReads(b, width);
  }

  /** A number is negative if its text starts with a minus, and its digits give its size. */
  lemma FixedReads(n: int, width: nat)
    requires width > 0
    ensures var f := Fixed(n, width); var digits := if n < 0 then f[1..] else f;
      && f != "" && (n < 0 <==> f[0] == '-')
      && (forall c :: c in digits ==> IsDigit(c)) && NumberOf(digits) == if n < 0 then -n else n
  {
    var m := if n < 0 then -n else n;
    var w := if n < 0 then width - 1 else width;
    DecimalReads(m);
    PaddedReads(DecimalText(m), w);
    var p := Padded(DecimalText(m), w);
    hide Padded, NumberOf, DecimalText;
    assert p[0] in p;
    if n < 0 { assert ("-" + p)[1..] == p; }
  }

  lemma FixedIsTwo(n: nat)
    requires n < 100
    ensures |Fixed(n, 2)| == 2
  {
    if n >= 10 {
      assert |DecimalText(n / 10)| == 1;
    } else {
      assert Padded("0" + DecimalText(n), 2) == "0" + DecimalText(n);
    }
  }

  lemma IsoTextInjective(a: CivilDate, s: TimeOfDay, b: CivilDate, t: TimeOfDay)
    requires a.month < 100 && a.day < 100 && s.hour < 100 && s.minute < 100 && s.second < 100
    requires b.month < 100 && b.day < 100 && t.hour < 100 && t.minute < 100 && t.second < 100
    requires IsoText(a, s) == IsoText(b, t)
    ensures a == b && s == t
  {
    hide Fixed;
    FixedIsTwo(a.month);
    FixedIsTwo(b.month);
    FixedIsTwo(a.day);
    FixedIsTwo(b.day);
    FixedIsTwo(s.hour);
    FixedIsTwo(t.hour);
    FixedIsTwo(s.minute);
    FixedIsTwo(t.minute);
    FixedIsTwo(s.second);
    FixedIsTwo(t.second);
    var x, y := IsoText(a, s), IsoText(b, t);
    var n := |x| - 16;
    assert Fixed(a.year, 4) == x[..n] && Fixed(b.year, 4) == y[..n];
    assert Fixed(a.month, 2) == x[n + 1..n + 3] && Fixed(b.month, 2) == y[n + 1..n + 3];
    assert Fixed(a.day, 2) == x[n + 4..n + 6] && Fixed(b.day, 2) == y[n + 4..n + 6];
    assert Fixed(s.hour, 2) == x[n + 7..n + 9] && Fixed(t.hour, 2) == y[n + 7..n + 9];
    assert Fixed(s.minute, 2) == x[n + 10..n + 12] && Fixed(t.minute, 2) == y[n + 10..n + 12];
    assert Fixed(s.second, 2) == x[n + 13..n + 15] && Fixed(t.second, 2) == y[n + 13..n + 15];
    FixedInjective(a.year, b.year, 4);
    FixedInjective(a.month, b.month, 2);
    FixedInjective(a.day, b.day, 2);
    FixedInjective(s.hour, t.hour, 2);
    FixedInjective(s.minute, t.minute, 2);
    FixedInjective(s.second, t.second, 2);
  }

  /** Different seconds are printed differently. */
  lemma IsoTellsSecondsApart(a: int, b: int)
    requires IsoOfSeconds(a) == IsoOfSeconds(b)
    ensures a == b
  {
    hide IsoText, CivilFromDays, DaysFromCivil, IsLeap;
    PrintedFieldsAreExact(a);
    PrintedFieldsAreExact(b);
    IsoTextInjective(CivilFromDays(DayOf(a)), ClockOf(a), CivilFromDays(DayOf(b)), ClockOf(b));
  }

  /** The second a tick lies in is printed exactly from 1970 on, or on a whole second. */
  lemma IsoNamesTheSecond(fileTime: int)
    ensures IsoOfSeconds(UnixSecondsOf(fileTime)) == IsoOfSeconds((fileTime - EPOCH) / TICKS)
      <==> fileTime >= EPOCH || (fileTime - EPOCH) % TICKS == 0
  {
    hide IsoOfSeconds;
    Truncated(fileTime - EPOCH, TICKS);
    if UnixSecondsOf(fileTime) != (fileTime - EPOCH) / TICKS && IsoOfSeconds(UnixSecondsOf(fileTime)) == IsoOfSeconds((fileTime - EPOCH) / TICKS) {
      IsoTellsSecondsApart(UnixSecondsOf(fileTime), (fileTime - EPOCH) / TICKS);
    }
  }

  /** One tick before 1970 is printed as 1970. */
  lemma LastTickOf1969()
    ensures IsoOfSeconds(UnixSecondsOf(EPOCH - 1)) == IsoOfSeconds(0) != IsoOfSeconds((EPOCH - 1 - EPOCH) / TICKS)
  {
    hide IsoOfSeconds;
    IsoNamesTheSecond(EPOCH - 1);
    Truncated(-1, TICKS);
  }
}
