/** Two calendar routines from different files: days from a civil date, and back. Both count in eras of 400
    years that start on the first of March, so that the leap day ends a year, and both wrap around in unsigned
    arithmetic on the way. */
module Calendar {
  /** Unsigned 32-bit arithmetic wraps around. */
  function U32(x: int): (u: nat) {
    x % 0x1_0000_0000
  }

  /** Signed division truncates toward zero. */
  function TruncDiv(a: int, b: int): int
    requires b > 0
  {
    if a >= 0 then a / b else -((-a) / b)
  }

  datatype CivilDate = CivilDate(year: int, month: nat, day: nat)

  predicate IsLeap(year: int) {
    (year % 4 == 0 && year % 100 != 0) || year % 400 == 0
  }

  function DaysInMonth(year: int, month: nat): (days: nat)
    requires 1 <= month <= 12
  {
    if month == 2 && IsLeap(year) then 29
    else [31, 28, 31, 30, 31, 30, 31, 31, 30, 31, 30, 31][month - 1]
  }

  predicate IsDate(c: CivilDate) {
    1 <= c.month <= 12 && 1 <= c.day <= DaysInMonth(c.year, c.month)
  }

  /** The days of a year that starts in March before its month mp. */
  function DaysBefore(mp: nat): nat {
    U32(153 * mp + 2) / 5
  }

  function DayOfEra(yoe: nat, doy: nat): nat {
    yoe * 365 + yoe / 4 - yoe / 100 + doy
  }

  function YearOfEra(doe: nat): nat {
    U32(doe - doe / 1460 + doe / 36524 - doe / 146096) / 365
  }

  function MonthOfDay(doy: nat): nat {
    U32(5 * doy + 2) / 153
  }

  /** Days since 1970-01-01, over eras of 400 years that start on the first of March. */
  function DaysFromCivil(c: CivilDate): int {
    var y := c.year - if c.month <= 2 then 1 else 0;
    var era := TruncDiv(if y >= 0 then y else y - 399, 400);
    var yoe := U32(y - era * 400);
    var mp := U32(c.month + if c.month > 2 then U32(-3) else 9);
    var doy := U32(DaysBefore(mp) + c.day - 1);
    var doe := U32(DayOfEra(yoe, doy));
    era * 146097 + doe - 719468
  }

  function CivilFromDays(days: int): CivilDate {
    var z := days + 719468;
    var era := TruncDiv(if z >= 0 then z else z - 146096, 146097);
    var doe := U32(z - era * 146097);
    var yoe := YearOfEra(doe);
    var y := yoe + era * 400;
    var doy := U32(doe - U32(DayOfEra(yoe, 0)));
    var mp := MonthOfDay(doy);
    var d := U32(doy - DaysBefore(mp) + 1);
    var m := U32(mp + if mp < 10 then 3 else U32(-9));
    CivilDate(y + if m <= 2 then 1 else 0, m, d)
  }

  lemma NoWrap(x: int)
    requires 0 <= x < 0x1_0000_0000
    ensures U32(x) == x
  {
  }

  // ---- Eras, years of the era, days of the year ----

  /** Day of a year that starts in March; the last of these years' days is the 29th of February. */
  ghost predicate IsDayOf(yoe: nat, doy: nat) {
    yoe <= 399 && doy <= 365 && (doy == 365 ==> IsLeap(yoe + 1))
  }

  /** An era day as centuries, groups of four years, years and days. */
  lemma DayOfEraParts(yoe: nat, doy: nat)
    requires IsDayOf(yoe, doy)
    ensures var c, q, r := yoe / 100, yoe % 100 / 4, yoe % 4;
      && yoe == 100 * c + 4 * q + r && DayOfEra(yoe, doy) == 36524 * c + 1461 * q + 365 * r + doy
      && (doy == 365 ==> r == 3 && (q == 24 ==> c == 3))
  {
    var c, q, r := yoe / 100, yoe % 100 / 4, yoe % 4;
    assert yoe % 100 % 4 == r;
    assert yoe / 4 == 25 * c + q;
  }

  lemma YearOfEraInverts(yoe: nat, doy: nat)
    requires IsDayOf(yoe, doy)
    ensures DayOfEra(yoe, doy) <= 146096 && YearOfEra(DayOfEra(yoe, doy)) == yoe
  {
    hide U32, IsLeap;
    DayOfEraParts(yoe, doy);
    var doe := DayOfEra(yoe, doy);
    YearFromParts(yoe / 100, yoe % 100 / 4, yoe % 4, doy);
    NoWrap(doe - doe / 1460 + doe / 36524 - doe / 146096);
  }

  lemma YearFromParts(c: nat, q: nat, r: nat, doy: nat)
    requires c <= 3 && q <= 24 && r <= 3 && doy <= 365 && (doy == 365 ==> r == 3 && (q == 24 ==> c == 3))
    ensures var doe := 36524 * c + 1461 * q + 365 * r + doy;
      && doe <= 146096
      && doe - doe / 1460 + doe / 36524 - doe / 146096 >= 0
      && (doe - doe / 1460 + doe / 36524 - doe / 146096) / 365 == 100 * c + 4 * q + r
  {
    var rest := 1461 * q + 365 * r + doy;
    var doe := 36524 * c + rest;
    assert rest <= 36524 && (rest == 36524 ==> c == 3);
    assert doe / 36524 - doe / 146096 == c;
    assert 25 * c + q <= doe / 1460;
    assert doy == 365 ==> 25 * c + q + 1 <= doe / 1460;
    assert doe / 1460 <= 25 * c + q + doy;
  }

  /** Every day of an era is a day of one of its years. */
  lemma EraDayExists(doe: nat) returns (yoe: nat, doy: nat)
    requires doe <= 146096
    ensures IsDayOf(yoe, doy) && DayOfEra(yoe, doy) == doe
  {
    var c := if doe == 146096 then 3 else doe / 36524;
    var rest := doe - 36524 * c;
    var q := rest / 1461;
    var inGroup := rest - 1461 * q;
    var r := if inGroup == 1460 then 3 else inGroup / 365;
    doy := inGroup - 365 * r;
    yoe := 100 * c + 4 * q + r;
    assert c <= 3 && q <= 24 && r <= 3;
    assert yoe / 4 == 25 * c + q && yoe / 100 == c;
    assert doy == 365 ==> r == 3 && (q == 24 ==> c == 3);
  }

  // ---- Months ----

  /** Month of a year that starts in March, from 0. */
  function MonthFromMarch(month: nat): nat
    requires 1 <= month <= 12
  {
    if month > 2 then month - 3 else month + 9
  }

  /** The cumulative lengths of the months from March on. */
  const BEFORE: seq<nat> := [0, 31, 61, 92, 122, 153, 184, 214, 245, 275, 306, 337]

  lemma DaysBeforeTable(mp: nat)
    requires mp <= 11
    ensures DaysBefore(mp) == BEFORE[mp]
  {
    hide U32;
    NoWrap(153 * mp + 2);
  }

  lemma MonthOfDayTable(doy: nat, mp: nat)
    requires mp <= 11 && BEFORE[mp] <= doy < if mp == 11 then 366 else BEFORE[mp + 1]
    ensures MonthOfDay(doy) == mp
  {
    hide U32;
    NoWrap(5 * doy + 2);
  }

  lemma MonthInverts(c: CivilDate, doy: int)
    requires IsDate(c) && doy == DaysBefore(MonthFromMarch(c.month)) + c.day - 1
    ensures 0 <= doy <= 365 && MonthOfDay(doy) == MonthFromMarch(c.month)
    ensures doy == 365 <==> c.month == 2 && c.day == 29
  {
    hide DaysBefore, MonthOfDay, IsLeap;
    var mp := MonthFromMarch(c.month);
    DaysBeforeTable(mp);
    MonthOfDayTable(doy, mp);
  }

  /** The lengths of the months from March on. */
  function MarchMonthDays(mp: nat, leap: bool): nat
    requires mp <= 11
  {
    [31, 30, 31, 30, 31, 31, 30, 31, 30, 31, 31, if leap then 29 else 28][mp]
  }

  lemma MonthExists(doy: nat, leap: bool)
    requires doy <= 365 && (doy == 365 ==> leap)
    ensures var mp := MonthOfDay(doy); mp <= 11 && 1 <= doy - DaysBefore(mp) + 1 <= MarchMonthDays(mp, leap)
  {
    hide DaysBefore, MonthOfDay;
    var mp := MonthHolding(doy);
    MonthOfDayTable(doy, mp);
    DaysBeforeTable(mp);
  }

  lemma MonthHolding(doy: nat) returns (mp: nat)
    requires doy <= 365
    ensures mp <= 11 && BEFORE[mp] <= doy < if mp == 11 then 366 else BEFORE[mp + 1]
  {
    mp := 0;
    while mp < 11 && BEFORE[mp + 1] <= doy
      invariant mp <= 11 && BEFORE[mp] <= doy
    {
      mp := mp + 1;
    }
  }

  // ---- The two routines without wrap-around ----

  function MarchYear(c: CivilDate): int {
    c.year - if c.month <= 2 then 1 else 0
  }

  function DayOfYear(c: CivilDate): int
    requires IsDate(c)
  {
    DaysBefore(MonthFromMarch(c.month)) + c.day - 1
  }

  lemma LeapPeriod(year: int)
    ensures IsLeap(year % 400 + 1) == IsLeap(year + 1)
  {
  }

  lemma TruncIsFloor(a: int, b: int)
    requires b > 0
    ensures TruncDiv(if a >= 0 then a else a - (b - 1), b) == a / b
  {
    if a < 0 {
      var q, r := a / b, a % b;
      assert -(a - (b - 1)) == b * (-q) + (b - 1 - r);
      Quotient(-(a - (b - 1)), b, -q, b - 1 - r);
    }
  }

  lemma Quotient(a: int, b: int, q: int, r: int)
    requires b > 0 && a == b * q + r && 0 <= r < b
    ensures a / b == q && a % b == r
  {
    var k := a / b - q;
    assert b * k == r - a % b;
    assert k >= 1 ==> b * k >= b;
    assert k <= -1 ==> b * k <= -b;
  }

  /** The wrapping -3 and -9 land where they should. */
  lemma WrapsBack(month: nat, mp: nat)
    requires 1 <= month <= 12 && mp <= 11
    ensures U32(month + if month > 2 then U32(-3) else 9) == MonthFromMarch(month)
    ensures U32(mp + if mp < 10 then 3 else U32(-9)) == if mp < 10 then mp + 3 else mp - 9
  {
  }

  lemma DayOfYearFits(c: CivilDate)
    requires IsDate(c)
    ensures 0 <= DayOfYear(c) <= 365 && IsDayOf(MarchYear(c) % 400, DayOfYear(c))
  {
    hide DaysBefore, MonthOfDay, IsLeap;
    MonthInverts(c, DayOfYear(c));
    LeapPeriod(MarchYear(c));
  }

  lemma DayOfEraAdds(yoe: nat, doy: nat)
    ensures DayOfEra(yoe, doy) == DayOfEra(yoe, 0) + doy
  {
  }

  /** No intermediate value leaves the range its comment states, so nothing wraps around. */
  lemma DaysUnwrapped(c: CivilDate)
    requires IsDate(c)
    ensures var y := MarchYear(c); var doy := DayOfYear(c);
      && 0 <= doy <= 365 && IsDayOf(y % 400, doy) && DayOfEra(y % 400, doy) <= 146096
      && DaysFromCivil(c) == y / 400 * 146097 + DayOfEra(y % 400, doy) - 719468
  {
    hide IsLeap, TruncDiv, U32, DaysInMonth, YearOfEra, DayOfEra, DaysBefore, MonthOfDay, IsDayOf;
    var y, doy := MarchYear(c), DayOfYear(c);
    DayOfYearFits(c);
    TruncIsFloor(y, 400);
    YearOfEraInverts(y % 400, doy);
    WrapsBack(c.month, 0);
    NoWrap(y % 400);
    NoWrap(doy);
    NoWrap(DayOfEra(y % 400, doy));
    assert y - y / 400 * 400 == y % 400;
  }

  lemma DateUnwrapped(days: int, era: int, yoe: nat, doy: nat)
    requires IsDayOf(yoe, doy) && days + 719468 == era * 146097 + DayOfEra(yoe, doy)
    ensures CivilFromDays(days) == DateOf(era, yoe, doy)
    ensures var doe := DayOfEra(yoe, doy); var mp := MonthOfDay(doy);
      && doe <= 146096 && YearOfEra(doe) == yoe && doy == doe - DayOfEra(yoe, 0) && mp <= 11
      && 1 <= CivilFromDays(days).month <= 12 && 1 <= CivilFromDays(days).day <= 31
  {
    hide TruncDiv, IsLeap, U32, DayOfEra, YearOfEra, DaysBefore, MonthOfDay;
    var z, doe := days + 719468, DayOfEra(yoe, doy);
    YearOfEraInverts(yoe, doy);
    TruncIsFloor(z, 146097);
    Quotient(z, 146097, era, doe);
    MonthExists(doy, doy == 365);
    DayOfEraAdds(yoe, doy);
    var mp := MonthOfDay(doy);
    NoWrap(doe);
    NoWrap(DayOfEra(yoe, 0));
    NoWrap(doy);
    NoWrap(doy - DaysBefore(mp) + 1);
    WrapsBack(1, mp);
    assert z - era * 146097 == doe;
  }

  /** The date of a day of a year of an era. */
  function DateOf(era: int, yoe: nat, doy: nat): CivilDate
    requires doy <= 365
  {
    var mp := MonthOfDay(doy);
    MonthExists(doy, true);
    var m := if mp < 10 then mp + 3 else mp - 9;
    CivilDate(yoe + era * 400 + if m <= 2 then 1 else 0, m, doy - DaysBefore(mp) + 1)
  }

  /** civil_from_days undoes days_from_civil on every date. */
  lemma CivilUndoesDays(c: CivilDate)
    requires IsDate(c)
    ensures CivilFromDays(DaysFromCivil(c)) == c
  {
    var y, doy := MarchYear(c), DayOfYear(c);
    DaysUnwrapped(c);
    DateUnwrapped(DaysFromCivil(c), y / 400, y % 400, doy);
    MonthInverts(c, doy);
    hide CivilFromDays, DaysFromCivil, IsLeap, DayOfEra;
    assert DateOf(y / 400, y % 400, doy) == c;
  }

  /** And days_from_civil undoes civil_from_days on every day; what comes between is a date. */
  lemma DaysUndoCivil(days: int)
    ensures IsDate(CivilFromDays(days)) && DaysFromCivil(CivilFromDays(days)) == days
  {
    var z := days + 719468;
    var era := z / 146097;
    var yoe, doy := EraDayExists(z % 146097);
    DateUnwrapped(days, era, yoe, doy);
    var c := DateOf(era, yoe, doy);
    hide CivilFromDays;
    DateOfIsDate(era, yoe, doy);
    DaysUnwrapped(c);
    Quotient(MarchYear(c), 400, era, yoe);
    hide DaysFromCivil, DayOfEra, IsLeap;
  }

  lemma DateOfIsDate(era: int, yoe: nat, doy: nat)
    requires IsDayOf(yoe, doy)
    ensures var c := DateOf(era, yoe, doy); IsDate(c) && MarchYear(c) == yoe + era * 400 && DayOfYear(c) == doy
  {
    MonthExists(doy, IsLeap(yoe + 1));
    Quotient(yoe + era * 400, 400, era, yoe);
    LeapPeriod(yoe + era * 400);
    hide IsLeap;
  }

  // ---- Against the calendar itself ----

  function Tomorrow(c: CivilDate): CivilDate
    requires IsDate(c)
  {
    if c.day < DaysInMonth(c.year, c.month) then c.(day := c.day + 1)
    else if c.month < 12 then CivilDate(c.year, c.month + 1, 1)
    else CivilDate(c.year + 1, 1, 1)
  }

  /** The count starts at 1970-01-01 and grows by one from each date to the next: it is the number of
      days between them, with every month as long as days_in_month says. */
  lemma TomorrowIsOneMore(c: CivilDate)
    requires IsDate(c)
    ensures IsDate(Tomorrow(c)) && DaysFromCivil(Tomorrow(c)) == DaysFromCivil(c) + 1
    ensures DaysFromCivil(CivilDate(1970, 1, 1)) == 0
  {
    hide DaysFromCivil, IsLeap, Tomorrow, DaysInMonth, DaysBefore, IsDayOf, MonthFromMarch, DayOfYear, MarchYear;
    var t := Tomorrow(c);
    TomorrowIsDate(c);
    DaysUnwrapped(c);
    DaysUnwrapped(t);
    Epoch();
    var y := MarchYear(c);
    if MarchYear(t) != y {
      YearEnds(y, DayOfYear(c));
    }
  }

  lemma Epoch()
    ensures DaysFromCivil(CivilDate(1970, 1, 1)) == 0
  {
    hide DaysFromCivil, DaysBefore;
    DaysUnwrapped(CivilDate(1970, 1, 1));
    DaysBeforeTable(10);
  }

  /** Within a year that starts in March the day of the year advances by one. */
  lemma TomorrowIsDate(c: CivilDate)
    requires IsDate(c)
    ensures var t := Tomorrow(c);
      && IsDate(t)
      && (MarchYear(t) == MarchYear(c) ==> DayOfYear(t) == DayOfYear(c) + 1)
      && (MarchYear(t) != MarchYear(c) ==>
            MarchYear(t) == MarchYear(c) + 1 && DayOfYear(t) == 0 && DayOfYear(c) == if IsLeap(MarchYear(c) + 1) then 365 else 364)
  {
    hide IsLeap, DaysBefore;
    DaysBeforeTable(MonthFromMarch(c.month));
    DaysBeforeTable(MonthFromMarch(Tomorrow(c).month));
  }

  lemma YearEnds(y: int, doy: nat)
    requires doy == if IsLeap(y + 1) then 365 else 364
    ensures (y + 1) / 400 * 146097 + DayOfEra((y + 1) % 400, 0) == y / 400 * 146097 + DayOfEra(y % 400, doy) + 1
  {
    LeapPeriod(y);
    var yoe := y % 400;
    if yoe == 399 {
      Quotient(y + 1, 400, y / 400 + 1, 0);
    } else {
      Quotient(y + 1, 400, y / 400, yoe + 1);
    }
    assert (yoe + 1) / 4 - yoe / 4 == if (yoe + 1) % 4 == 0 then 1 else 0;
    assert (yoe + 1) / 100 - yoe / 100 == if (yoe + 1) % 100 == 0 then 1 else 0;
  }

  /** The first of the month that follows. */
  function NextMonth(year: int, month: nat): CivilDate {
    if month < 12 then CivilDate(year, month + 1, 1) else CivilDate(year + 1, 1, 1)
  }

  lemma LastDay(year: int, month: nat)
    requires 1 <= month <= 12
    ensures var a := CivilDate(year, month, DaysInMonth(year, month));
      && IsDate(a) && Tomorrow(a) == NextMonth(year, month) && IsDate(CivilDate(year, month, 1))
      && DayOfYear(a) == DayOfYear(CivilDate(year, month, 1)) + DaysInMonth(year, month) - 1
      && MarchYear(a) == MarchYear(CivilDate(year, month, 1))
  {
    hide IsLeap, DaysBefore;
  }

  /** Consecutive months, December and January too, differ by the length of the first. */
  lemma MonthsDiffer(year: int, month: nat)
    requires 1 <= month <= 12
    ensures DaysFromCivil(NextMonth(year, month)) - DaysFromCivil(CivilDate(year, month, 1)) == DaysInMonth(year, month)
  {
    hide DaysFromCivil, IsLeap, DaysInMonth, Tomorrow, NextMonth, IsDate, IsDayOf, DaysBefore, DayOfYear, MarchYear, DayOfEra;
    var a, b := CivilDate(year, month, DaysInMonth(year, month)), CivilDate(year, month, 1);
    LastDay(year, month);
    TomorrowIsOneMore(a);
    DaysUnwrapped(a);
    DaysUnwrapped(b);
    DayOfEraAdds(MarchYear(a) % 400, DayOfYear(a));
    DayOfEraAdds(MarchYear(b) % 400, DayOfYear(b));
  }
}
