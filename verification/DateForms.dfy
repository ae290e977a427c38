/** Dates as mail really writes them: the obsolete forms of section 4.3 of RFC 5322, any case, long month names. */
module DateForms {
  import opened Wrappers
  import opened Calendar
  import opened Dates

  datatype YearForm = FourDigits | ThreeDigits | TwoDigits

  datatype Zone = NoZone | Numeric(east: bool, hours: nat, minutes: nat) | Named(text: string, name: string) | Letter(letter: char)

  /** A date and how it is written: the month by any word whose first three letters name it. */
  datatype Form = Form(dayName: Option<string>, oneDigitDay: bool, date: CivilDate, month: string, year: YearForm,
                       time: TimeOfDay, withSeconds: bool, zone: Zone)

  /** Hours behind UTC of the zones of North America; UT, GMT and Z are UTC. */
  function HoursBehind(name: string): Option<int> {
    if name == "UT" || name == "GMT" || name == "Z" then Some(0)
    else if name == "EDT" then Some(4)
    else if name == "EST" || name == "CDT" then Some(5)
    else if name == "CST" || name == "MDT" then Some(6)
    else if name == "MST" || name == "PDT" then Some(7)
    else if name == "PST" then Some(8)
    else None
  }

  predicate IsZone(z: Zone) {
    match z
    case NoZone => true
    case Numeric(_, hours, minutes) => hours <= 14 && minutes < 60
    case Named(text, name) => HoursBehind(name).Some? && UpperAll(text) == name
    case Letter(letter) => IsLetter(letter)
  }

  function MinutesEast(z: Zone): int
    requires IsZone(z)
  {
    match z
    case NoZone => 0
    case Numeric(east, hours, minutes) => (if east then 1 else -1) * (hours * 60 + minutes)
    case Named(_, name) => -60 * HoursBehind(name).value
    case Letter(_) => 0
  }

  /** Years of two digits lie from 1950 to 2049, those of three count from 1900. */
  predicate YearCanBe(form: YearForm, year: int) {
    match form
    case FourDigits => 0 <= year <= 9999
    case ThreeDigits => 1900 <= year <= 2899
    case TwoDigits => 1950 <= year <= 2049
  }

  predicate IsForm(f: Form) {
    && (f.dayName.Some? ==> IsDayName(f.dayName.value))
    && IsDate(f.date) && YearCanBe(f.year, f.date.year) && (f.oneDigitDay ==> f.date.day < 10)
    && |f.month| >= 3 && (forall c :: c in f.month ==> IsLetter(c)) && UpperAll(f.month[..3]) == MONTH_NAMES[f.date.month - 1]
    && f.time.hour < 24 && f.time.minute < 60 && f.time.second <= 60 && (!f.withSeconds ==> f.time.second == 0)
    && IsZone(f.zone)
  }

  function YearWord(form: YearForm, year: int): string
    requires YearCanBe(form, year)
  {
    match form
    case FourDigits => Four(year)
    case ThreeDigits => [Digit((year - 1900) / 100)] + Two((year - 1900) % 100)
    case TwoDigits => Two(year % 100)
  }

  function ClockWord(time: TimeOfDay, withSeconds: bool): string
    requires time.hour < 100 && time.minute < 100 && time.second < 100
  {
    Two(time.hour) + ":" + Two(time.minute) + if withSeconds then ":" + Two(time.second) else ""
  }

  function ZoneWords(z: Zone): seq<string>
    requires IsZone(z)
  {
    match z
    case NoZone => []
    case Numeric(east, hours, minutes) => [(if east then "+" else "-") + Two(hours) + Two(minutes)]
    case Named(text, _) => [text]
    case Letter(letter) => [[letter]]
  }

  function FormWords(f: Form): (words: seq<string>)
    requires IsForm(f)
    ensures 4 <= |words| <= 5
  {
    [if f.oneDigitDay then [Digit(f.date.day)] else Two(f.date.day), f.month, YearWord(f.year, f.date.year),
     ClockWord(f.time, f.withSeconds)] + ZoneWords(f.zone)
  }

  function Written(f: Form): string
    requires IsForm(f)
  {
    Spaced((if f.dayName.Some? then [f.dayName.value + ","] else []) + FormWords(f))
  }

  // ---- Words ----

  predicate IsWordChar(c: char) {
    IsLetter(c) || IsDigit(c) || c == ':' || c == '+' || c == '-'
  }

  lemma CharsMakeAWord(w: string)
    requires w != "" && forall c :: c in w ==> IsWordChar(c)
    ensures IsWord(w)
  {
  }

  lemma {:induction false} UpperOfLetters(text: string)
    requires forall c :: c in UpperAll(text) ==> IsLetter(c)
    ensures forall c :: c in text ==> IsLetter(c)
  {
    if text != "" {
      UpperOfLetters(text[1..]);
      assert UpperAll(text)[0] == Upper(text[0]);
      assert UpperAll(text) == [Upper(text[0])] + UpperAll(text[1..]);
      assert text == [text[0]] + text[1..];
    }
  }

  lemma NameIsLetters(name: string)
    requires HoursBehind(name).Some?
    ensures name != "" && forall c :: c in name ==> IsLetter(c)
  {
  }

  lemma ZoneIsWord(z: Zone)
    requires IsZone(z)
    ensures forall w :: w in ZoneWords(z) ==> IsWord(w)
  {
    match z
    case NoZone =>
    case Numeric(east, hours, minutes) => CharsMakeAWord(ZoneWords(z)[0]);
    case Named(text, name) =>
      NameIsLetters(name);
      UpperOfLetters(text);
      assert text != "";
      CharsMakeAWord(text);
    case Letter(letter) => CharsMakeAWord([letter]);
  }

  lemma FormWordsAreWords(f: Form)
    requires IsForm(f)
    ensures forall w :: w in FormWords(f) ==> IsWord(w)
  {
    var words := FormWords(f);
    ZoneIsWord(f.zone);
    CharsMakeAWord(words[0]);
    CharsMakeAWord(f.month);
    CharsMakeAWord(words[2]);
    CharsMakeAWord(words[3]);
    hide IsWord, IsForm;
    assert forall w :: w in words <==> w == words[0] || w == words[1] || w == words[2] || w == words[3] || w in ZoneWords(f.zone);
  }

  // ---- What they are read as ----

  lemma OneReads(n: nat, least: nat, most: nat)
    requires n < 10 && least <= 1 <= most
    ensures DigitsIn([Digit(n)], least, most) == Some(n)
  {
    var t := [Digit(n)];
    assert t[..0] == "" && t[..1] == t;
    assert NumberOf(t) == n;
  }

  lemma ThreeReads(n: nat)
    requires n < 1000
    ensures DigitsIn([Digit(n / 100)] + Two(n % 100), 2, 4) == Some(n)
  {
    var t := [Digit(n / 100)] + Two(n % 100);
    assert t[..1][..0] == "" && t[..2][..1] == t[..1] && t[..3] == t && t[..3][..2] == t[..2];
    assert NumberOf(t[..1]) == n / 100;
    assert NumberOf(t[..2]) == n / 100 * 10 + n % 100 / 10;
  }

  lemma YearReads(form: YearForm, year: int)
    requires YearCanBe(form, year)
    ensures YearOf(YearWord(form, year)) == Some(year)
  {
    hide DigitsIn, Two;
    match form
    case FourDigits => FourReads(year);
    case ThreeDigits => ThreeReads(year - 1900);
    case TwoDigits => TwoReads(year % 100, 2, 4);
  }

  lemma ClockWordReads(time: TimeOfDay, withSeconds: bool)
    requires time.hour < 24 && time.minute < 60 && time.second <= 60 && (!withSeconds ==> time.second == 0)
    ensures TimeOf(ClockWord(time, withSeconds)) == Some(time)
  {
    if withSeconds {
      ClockReads(time);
      assert ClockWord(time, true) == ClockText(time);
    } else {
      ShortClockReads(time);
    }
  }

  lemma ShortClockReads(time: TimeOfDay)
    requires time.hour < 24 && time.minute < 60 && time.second == 0
    ensures TimeOf(ClockWord(time, false)) == Some(time)
  {
    hide Two, DigitsIn;
    var tok := ClockWord(time, false);
    var h, m := Two(time.hour), Two(time.minute);
    TwoReads(time.hour, 1, 2);
    TwoReads(time.minute, 1, 2);
    TwoHasNoColon(time.hour);
    TwoHasNoColon(time.minute);
    ColonAt(tok, 2);
    assert tok[..2] == h && tok[3..] == m;
    NoColon(m);
    assert m[..2] == m;
  }

  lemma {:induction false} NoColon(s: string)
    requires ':' !in s
    ensures FirstColon(s) == |s|
  {
    if s != "" { NoColon(s[1..]); }
  }

  lemma TableIs(name: string)
    ensures HoursBehind(name).Some? ==> name in ZONES && ZONES[name] == -60 * HoursBehind(name).value
    ensures name in ZONES && |name| == 1 ==> ZONES[name] == 0
  {
  }

  lemma {:induction false} NamedReads(text: string, name: string)
    requires HoursBehind(name).Some? && UpperAll(text) == name
    ensures ZoneOf(text) == Some(-60 * HoursBehind(name).value)
  {
    NameIsLetters(name);
    UpperOfLetters(text);
    TableIs(name);
    hide UpperAll, HoursBehind, DigitsIn;
    assert text != "" ==> text[0] in text;
  }

  lemma LetterReads(letter: char)
    requires IsLetter(letter)
    ensures ZoneOf([letter]) == Some(0)
  {
    TableIs(UpperAll([letter]));
    assert |UpperAll([letter])| == 1;
    hide HoursBehind, DigitsIn;
  }

  lemma ZoneWordReads(z: Zone)
    requires IsZone(z) && !z.NoZone?
    ensures ZoneOf(ZoneWords(z)[0]) == Some(MinutesEast(z))
  {
    hide Two, DigitsIn, UpperAll, HoursBehind;
    match z
    case Numeric(east, hours, minutes) =>
      var tok := ZoneWords(z)[0];
      TwoReads(hours, 2, 2);
      TwoReads(minutes, 2, 2);
      assert tok[1..3] == Two(hours) && tok[3..] == Two(minutes);
    case Named(text, name) =>
      NamedReads(text, name);
    case Letter(letter) =>
      LetterReads(letter);
  }

  lemma MonthWordReads(word: string, month: nat)
    requires |word| >= 3 && 1 <= month <= 12 && UpperAll(word[..3]) == MONTH_NAMES[month - 1]
    ensures MonthOf(word) == month
  {
    MonthsDistinct();
    hide UpperAll;
  }

  lemma FormWordsRead(f: Form)
    requires IsForm(f)
    ensures DateFields(FormWords(f)) == Some(FileTimeOf(SecondsOf(f.date, f.time, MinutesEast(f.zone))))
  {
    hide DigitsIn, MonthOf, TimeOf, ZoneOf, Two, Four, YearOf, SecondsOf, IsDayName, YearWord, ClockWord, UpperAll, FileTimeOf;
    if f.oneDigitDay { OneReads(f.date.day, 1, 2); } else { TwoReads(f.date.day, 1, 2); }
    MonthWordReads(f.month, f.date.month);
    YearReads(f.year, f.date.year);
    ClockWordReads(f.time, f.withSeconds);
    if !f.zone.NoZone? { ZoneWordReads(f.zone); }
    hide IsZone, MinutesEast;
  }

  lemma FirstIsNoDay(f: Form)
    requires IsForm(f)
    ensures var w := FormWords(f)[0]; !IsDayName(w) && w != "" && w[|w| - 1] != ','
  {
    UpperOfDigits(FormWords(f)[0]);
  }

  /** However such a date is written, it is parsed to the instant it names. */
  lemma WrittenReads(f: Form)
    requires IsForm(f)
    ensures DateOfTokens(Tokens(Uncommented(Written(f), 0))) == Some(FileTimeOf(SecondsOf(f.date, f.time, MinutesEast(f.zone))))
  {
    hide DateFields, IsDayName, IsWord, IsDate, DaysFromCivil, FormWords, Tokens, Uncommented;
    var words := FormWords(f);
    var all := (if f.dayName.Some? then [f.dayName.value + ","] else []) + words;
    FormWordsAreWords(f);
    FormWordsRead(f);
    FirstIsNoDay(f);
    if f.dayName.Some? {
      DayNameIsWord(f.dayName.value);
      assert all[1..] == words;
    } else {
      assert all == words;
    }
    SpacedTokens(all);
    NothingToStrip(Written(f));
  }

  lemma DaysOf1601()
    ensures DaysFromCivil(CivilDate(1601, 1, 1)) == -134774
  {
    hide DaysFromCivil, DaysBefore;
    DaysUnwrapped(CivilDate(1601, 1, 1));
    DaysBeforeTable(10);
  }

  /** FILETIME counts from the start of 1601, in ten-millionths of a second. */
  lemma EpochIsExact()
    ensures IsDate(CivilDate(1601, 1, 1)) && FileTimeOf(SecondsOf(CivilDate(1601, 1, 1), TimeOfDay(0, 0, 0), 0)) == 0
    ensures FileTimeOf(SecondsOf(CivilDate(1601, 1, 1), TimeOfDay(0, 0, 1), 0)) == 10_000_000
  {
    DaysOf1601();
    hide DaysFromCivil;
  }

  // ---- The printed text ----

  lemma {:induction false} DecimalOf(n: nat)
    ensures n < 10 ==> DecimalText(n) == [Digit(n)]
    ensures 10 <= n < 100 ==> DecimalText(n) == [Digit(n / 10), Digit(n % 10)]
  {
    if 10 <= n < 100 { assert DecimalText(n / 10) == [Digit(n / 10)]; }
  }

  lemma FixedTwo(n: nat)
    requires n < 100
    ensures Fixed(n, 2) == Two(n)
  {
    DecimalOf(n);
    hide DecimalText;
    if n < 10 { assert Padded("0" + [Digit(n)], 2) == "0" + [Digit(n)]; }
  }

  lemma {:induction false} LongDecimal(n: nat)
    requires 100 <= n < 10000
    ensures DecimalText(n) == (if n < 1000 then [Digit(n / 100)] else Two(n / 100)) + Two(n % 100)
  {
    DecimalOf(n / 100);
    var m := n / 10;
    assert m / 10 == n / 100 && m % 10 == n / 10 % 10;
    assert DecimalText(m) == DecimalText(n / 100) + [Digit(m % 10)];
    assert DecimalText(n) == DecimalText(m) + [Digit(n % 10)];
    assert Two(n % 100) == [Digit(m % 10), Digit(n % 10)];
  }

  lemma FixedFour(n: nat)
    requires n < 10000
    ensures Fixed(n, 4) == Four(n)
  {
    if n >= 100 {
      LongDecimal(n);
    } else {
      DecimalOf(n);
    }
    hide DecimalText;
    var d := DecimalText(n);
    assert Padded(d, 4) == (if |d| == 1 then "000" else if |d| == 2 then "00" else if |d| == 3 then "0" else "") + d by {
      PadBy(d);
    }
  }

  lemma {:induction false} PadBy(d: string)
    requires 1 <= |d| <= 4
    ensures Padded(d, 4) == (if |d| == 1 then "000" else if |d| == 2 then "00" else if |d| == 3 then "0" else "") + d
    decreases 4 - |d|
  {
    if |d| < 4 {
      PadBy("0" + d);
      var zeros := if |d| == 1 then "00" else if |d| == 2 then "0" else "";
      assert zeros + ("0" + d) == zeros + "0" + d;
    }
  }

  /** In the years of four digits the text is year, month, day and clock, in this order and at full width. */
  lemma IsoShows(c: CivilDate, t: TimeOfDay)
    requires IsDate(c) && 0 <= c.year < 10000 && t.hour < 24 && t.minute < 60 && t.second < 60
    ensures IsoText(c, t) == Four(c.year) + "-" + Two(c.month) + "-" + Two(c.day) + "T" + ClockText(t) + "Z"
  {
    hide Fixed, Four, Two, IsDate;
    assert c.month < 100 && c.day < 100 by { DateIsSmall(c); }
    FixedFour(c.year);
    FixedTwo(c.month);
    FixedTwo(c.day);
    FixedTwo(t.hour);
    FixedTwo(t.minute);
    FixedTwo(t.second);
  }

  lemma DateIsSmall(c: CivilDate)
    requires IsDate(c)
    ensures c.month <= 12 && c.day <= 31
  {
  }
}
