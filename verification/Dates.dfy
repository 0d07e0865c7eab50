/**
 Civil dates as day numbers (src/types/Date.h).  Day 0 is 1970-01-01; `DaysOf` and `CivilOf` are the two
 arithmetic halves of Parse and Format, over March-based years grouped into 400-year eras of 146097 days.
 */
module Dates {
  import opened Wrappers
  import opened Arithmetic
  import Sequences

  datatype TimeUnit = YEAR | MONTH | DAY | HOUR | MINUTE | SECOND

  datatype Civil = Civil(year: int, month: int, day: int)

  // ----- what a date is -----

  predicate Leap(y: int) {
    y % 4 == 0 && (y % 100 != 0 || y % 400 == 0)
  }

  /** The day ranges of section 5.7 of RFC 3339. */
  function DaysInMonth(y: int, m: int): int {
    if m == 2 then (if Leap(y) then 29 else 28)
    else if m == 4 || m == 6 || m == 9 || m == 11 then 30
    else 31
  }

  predicate ValidDate(c: Civil) {
    1 <= c.month <= 12 && 1 <= c.day <= DaysInMonth(c.year, c.month)
  }

  /** The next calendar day. */
  function NextDay(c: Civil): Civil {
    if c.day < DaysInMonth(c.year, c.month) then c.(day := c.day + 1)
    else if c.month < 12 then Civil(c.year, c.month + 1, 1)
    else Civil(c.year + 1, 1, 1)
  }

  // ----- the source's arithmetic -----

  function DaysOf(c: Civil): int {
    var year := c.year - (if c.month <= 2 then 1 else 0);
    var era := TruncDiv(if year >= 0 then year else year - 399, 400);
    var yoe := year - era * 400;
    var doy := TruncDiv(153 * (c.month + (if c.month > 2 then -3 else 9)) + 2, 5) + c.day - 1;
    var doe := yoe * 365 + yoe / 4 - yoe / 100 + doy;
    era * 146097 + doe - 719468
  }

  function EraOf(total: int): int {
    var days := total + 719468;
    TruncDiv(if days >= 0 then days else days - 146096, 146097)
  }

  function YearOfEra(doe: int): int { (doe - doe / 1460 + doe / 36524 - doe / 146096) / 365 }

  function CivilOf(total: int): Civil {
    var era := EraOf(total);
    var doe := total + 719468 - era * 146097;
    var yoe := YearOfEra(doe);
    CivilInYear(yoe + era * 400, doe - YearStart(yoe))
  }

  function CivilInYear(y: int, doy: int): Civil {
    var mp := (5 * doy + 2) / 153;
    MarchDate(y, mp, doy - MonthStart(mp) + 1)
  }

  /** Day `d` of March-based month `mp` of March-based year `y`. */
  function MarchDate(y: int, mp: int, d: int): Civil {
    var m := mp + (if mp < 10 then 3 else -9);
    Civil(y + (if m <= 2 then 1 else 0), m, d)
  }

  function Truncate(total: int, unit: TimeUnit): int {
    match unit
    case DAY | HOUR | MINUTE | SECOND => total
    case MONTH => total - CivilOf(total).day + 1
    case YEAR =>
      var year := CivilOf(total).year;
      var e := TruncDiv(if year >= 0 then year else year - 399, 400);
      var ye := year - e * 400;
      e * 146097 + (ye * 365 + ye / 4 - ye / 100 + 306) - 719468
  }

  // ----- years and months inside an era -----

  /** Day of era on which March-based year `y` starts. */
  function YearStart(y: int): int { 365 * y + y / 4 - y / 100 }

  /** Number of days of March-based year `y` of an era; it ends with February of year y + 1. */
  function YearLength(y: int): int { if Leap(y + 1) then 366 else 365 }

  function MonthStart(mp: int): int { (153 * mp + 2) / 5 }

  /** The closed form on a day given as century c, four-year cycle k, year s of the cycle, day of year. */
  lemma YearFormula(c: int, k: int, s: int, doy: int)
    requires 0 <= c <= 3 && 0 <= k <= 24 && 0 <= s <= 3 && 0 <= doy <= 365
    requires doy == 365 ==> s == 3 && (k == 24 ==> c == 3)
    ensures var doe := 36524 * c + 1461 * k + 365 * s + doy;
            0 <= doe <= 146096 && YearOfEra(doe) == 100 * c + 4 * k + s
  {
    var doe := 36524 * c + 1461 * k + 365 * s + doy;
    var w := 24 * c + k + 365 * s + doy;
    var carry := if w >= 1460 then 1 else 0;
    DivUnique(doe, 1460, 25 * c + k + carry, w - 1460 * carry);
    if doe == 146096 {
    } else {
      DivUnique(doe, 36524, c, 1461 * k + 365 * s + doy);
    }
    DivUnique(365 * (100 * c + 4 * k + s) + doy - carry, 365, 100 * c + 4 * k + s, doy - carry);
  }

  lemma CenturySplit(y: int)
    requires 0 <= y < 400
    ensures var c, k, s := y / 100, y % 100 / 4, y % 4;
            && 0 <= c <= 3 && 0 <= k <= 24 && 0 <= s <= 3
            && y == 100 * c + 4 * k + s && y / 4 == 25 * c + k
            && (Leap(y + 1) <==> s == 3 && (k == 24 ==> c == 3))
  {
    var c, k, s := y / 100, y % 100 / 4, y % 4;
    DivUnique(y, 4, 25 * c + k, y % 100 % 4);
    if s == 3 {
      DivUnique(y + 1, 4, 25 * c + k + 1, 0);
      if k < 24 { DivUnique(y + 1, 100, c, 4 * k + 4); }
    } else {
      DivUnique(y + 1, 4, 25 * c + k, s + 1);
    }
  }

  /** The closed form recovers the year from any day of it. */
  lemma YearOfEraInverts(y: int, doy: int)
    requires 0 <= y < 400 && 0 <= doy < YearLength(y)
    ensures YearOfEra(YearStart(y) + doy) == y
    ensures 0 <= YearStart(y) + doy <= 146096
  {
    CenturySplit(y);
    YearFormula(y / 100, y % 100 / 4, y % 4, doy);
  }

  /** Every day of an era lies in the year the closed form names. */
  lemma YearOfEraCovers(doe: int)
    requires 0 <= doe <= 146096
    ensures var y := YearOfEra(doe); 0 <= y < 400 && 0 <= doe - YearStart(y) < YearLength(y)
  {
    var c := if doe == 146096 then 3 else doe / 36524;
    var r := doe - 36524 * c;
    var k := r / 1461;
    var r2 := r - 1461 * k;
    var s := if r2 == 1460 then 3 else r2 / 365;
    var doy := r2 - 365 * s;
    var y := 100 * c + 4 * k + s;
    YearFormula(c, k, s, doy);
    DivUnique(y, 100, c, 4 * k + s);
    DivUnique(y, 4, 25 * c + k, s);
    DivUnique(y % 100, 4, k, s);
    CenturySplit(y);
  }

  lemma MonthOfDayInverts(mp: int, d: int)
    requires 0 <= mp < 12 && 1 <= d <= (if mp < 11 then MonthStart(mp + 1) - MonthStart(mp) else 29)
    ensures (5 * (MonthStart(mp) + d - 1) + 2) / 153 == mp
    ensures 0 <= MonthStart(mp) + d - 1 <= 365
  {
  }

  lemma MonthOfDayCovers(doy: int)
    requires 0 <= doy <= 365
    ensures var mp := (5 * doy + 2) / 153;
            0 <= mp < 12 && MonthStart(mp) <= doy && (mp < 11 ==> doy < MonthStart(mp + 1))
  {
  }

  lemma FloorByTruncation(a: int, b: int)
    requires b > 0
    ensures TruncDiv(if a >= 0 then a else a - (b - 1), b) == a / b
  {
    if a < 0 {
      var x := a - (b - 1);
      var q := (-x) / b;
      var f := a / b;
      DivUnique(-x, b, -f, -x - b * (-f));
    }
  }

  lemma LeapShift(y: int, era: int)
    ensures Leap(y + 400 * era) == Leap(y)
  {
    DivUnique(y + 400 * era, 4, y / 4 + 100 * era, y % 4);
    DivUnique(y + 400 * era, 100, y / 100 + 4 * era, y % 100);
    DivUnique(y + 400 * era, 400, y / 400 + era, y % 400);
  }

  // ----- a date as era, year of era, March-based month and day -----

  /** Length of March-based month `mp` of year `yoe` of an era. */
  function MonthLength(yoe: int, mp: int): int {
    if mp < 11 then MonthStart(mp + 1) - MonthStart(mp) else YearLength(yoe) - 337
  }

  predicate InEra(yoe: int, mp: int, d: int) {
    0 <= yoe < 400 && 0 <= mp < 12 && 1 <= d <= MonthLength(yoe, mp)
  }

  function Assemble(era: int, yoe: int, mp: int, d: int): Civil {
    MarchDate(yoe + era * 400, mp, d)
  }

  function Number(era: int, yoe: int, mp: int, d: int): int {
    era * 146097 + YearStart(yoe) + MonthStart(mp) + d - 1 - 719468
  }

  lemma DaysOfAssembled(era: int, yoe: int, mp: int, d: int)
    requires 0 <= yoe < 400 && 0 <= mp < 12
    ensures DaysOf(Assemble(era, yoe, mp, d)) == Number(era, yoe, mp, d)
  {
    var year := yoe + era * 400;
    FloorByTruncation(year, 400);
    DivUnique(year, 400, era, yoe);
  }

  lemma CivilOfNumber(era: int, yoe: int, mp: int, d: int)
    requires InEra(yoe, mp, d)
    ensures CivilOf(Number(era, yoe, mp, d)) == Assemble(era, yoe, mp, d)
  {
    var doy := MonthStart(mp) + d - 1;
    InYear(yoe, mp, d);
    YearOfEraInverts(yoe, doy);
    MonthOfDayInverts(mp, d);
    SplitEra(Number(era, yoe, mp, d), era, YearStart(yoe) + doy);
  }

  lemma InYear(yoe: int, mp: int, d: int)
    requires InEra(yoe, mp, d)
    ensures 0 <= MonthStart(mp) + d - 1 < YearLength(yoe)
    ensures d <= (if mp < 11 then MonthStart(mp + 1) - MonthStart(mp) else 29)
  {
  }

  lemma SplitEra(total: int, era: int, doe: int)
    requires 0 <= doe <= 146096 && total + 719468 == era * 146097 + doe
    ensures EraOf(total) == era
  {
    var days := total + 719468;
    FloorByTruncation(days, 146097);
    DivUnique(days, 146097, era, doe);
  }

  /** Every day number has parts. */
  lemma PartsOfNumber(total: int) returns (era: int, yoe: int, mp: int, d: int)
    ensures InEra(yoe, mp, d) && total == Number(era, yoe, mp, d)
  {
    var days := total + 719468;
    var doe := days % 146097;
    era := days / 146097;
    YearOfEraCovers(doe);
    yoe := YearOfEra(doe);
    var doy := doe - YearStart(yoe);
    MonthOfDayCovers(doy);
    mp := (5 * doy + 2) / 153;
    d := doy - MonthStart(mp) + 1;
  }

  /** The 153-day rule lists the calendar's month lengths, March to February. */
  lemma MonthTable(era: int, yoe: int, mp: int)
    requires 0 <= mp < 12
    ensures var c := Assemble(era, yoe, mp, 1);
            1 <= c.month <= 12 && DaysInMonth(c.year, c.month) == MonthLength(yoe, mp)
  {
    LeapShift(yoe + 1, era);
  }

  /** Every valid date has parts. */
  lemma PartsOfDate(c: Civil) returns (era: int, yoe: int, mp: int, d: int)
    requires ValidDate(c)
    ensures InEra(yoe, mp, d) && c == Assemble(era, yoe, mp, d)
  {
    var year := c.year - (if c.month <= 2 then 1 else 0);
    era, yoe, d := year / 400, year % 400, c.day;
    mp := c.month + (if c.month > 2 then -3 else 9);
    MonthTable(era, yoe, mp);
    assert year == yoe + era * 400;
  }

  lemma AssembledIsValid(era: int, yoe: int, mp: int, d: int)
    requires InEra(yoe, mp, d)
    ensures ValidDate(Assemble(era, yoe, mp, d))
  {
    MonthTable(era, yoe, mp);
  }

  // ----- the two halves are inverse -----

  /** A date of any year is recovered from its day number. */
  lemma CivilOfDaysOf(c: Civil)
    requires ValidDate(c)
    ensures CivilOf(DaysOf(c)) == c
  {
    var era, yoe, mp, d := PartsOfDate(c);
    DaysOfAssembled(era, yoe, mp, d);
    CivilOfNumber(era, yoe, mp, d);
  }

  /** Every day number is the number of a valid date. */
  lemma DaysOfCivilOf(total: int)
    ensures ValidDate(CivilOf(total)) && DaysOf(CivilOf(total)) == total
  {
    var era, yoe, mp, d := PartsOfNumber(total);
    DaysOfAssembled(era, yoe, mp, d);
    CivilOfNumber(era, yoe, mp, d);
    AssembledIsValid(era, yoe, mp, d);
  }

  /** The calendar's next day, read on the parts. */
  lemma NextAssembled(era: int, yoe: int, mp: int, d: int)
    requires InEra(yoe, mp, d)
    ensures NextDay(Assemble(era, yoe, mp, d))
         == if d < MonthLength(yoe, mp) then Assemble(era, yoe, mp, d + 1)
            else if mp < 11 then Assemble(era, yoe, mp + 1, 1)
            else Assemble(era, yoe + 1, 0, 1)
  {
    MonthTable(era, yoe, mp);
    var c := Assemble(era, yoe, mp, d);
    assert DaysInMonth(c.year, c.month) == MonthLength(yoe, mp);
  }

  /** The parts of the following day. */
  lemma NextParts(era: int, yoe: int, mp: int, d: int) returns (e: int, y: int, m: int, d': int)
    requires InEra(yoe, mp, d)
    ensures InEra(y, m, d') && Number(e, y, m, d') == Number(era, yoe, mp, d) + 1
    ensures Assemble(e, y, m, d') == NextDay(Assemble(era, yoe, mp, d))
  {
    NextAssembled(era, yoe, mp, d);
    if d < MonthLength(yoe, mp) {
      return era, yoe, mp, d + 1;
    }
    if mp < 11 {
      LongMonths(yoe, mp + 1);
      return era, yoe, mp + 1, 1;
    }
    LongMonths(yoe + 1, 0);
    if yoe < 399 {
      YearRollsOver(era, yoe, d);
      return era, yoe + 1, 0, 1;
    }
    LongMonths(0, 0);
    return era + 1, 0, 0, 1;
  }

  lemma YearRollsOver(era: int, yoe: int, d: int)
    requires 0 <= yoe < 399 && d == MonthLength(yoe, 11)
    ensures Number(era, yoe + 1, 0, 1) == Number(era, yoe, 11, d) + 1
  {
    YearSteps(yoe);
  }

  lemma LongMonths(yoe: int, mp: int)
    requires 0 <= mp < 12
    ensures 1 <= MonthLength(yoe, mp)
  {
  }

  /** The calendar's successor is the next integer. */
  lemma NextDayIsNextNumber(c: Civil)
    requires ValidDate(c)
    ensures ValidDate(NextDay(c)) && DaysOf(NextDay(c)) == DaysOf(c) + 1
  {
    var era, yoe, mp, d := PartsOfDate(c);
    var e, y, m, d' := NextParts(era, yoe, mp, d);
    DaysOfAssembled(era, yoe, mp, d);
    DaysOfAssembled(e, y, m, d');
    AssembledIsValid(e, y, m, d');
  }

  /** The date of the next number is the next date. */
  lemma NextNumberIsNextDay(n: int)
    ensures CivilOf(n + 1) == NextDay(CivilOf(n))
  {
    DaysOfCivilOf(n);
    NextDayIsNextNumber(CivilOf(n));
    DateOfNumber(n + 1, NextDay(CivilOf(n)));
  }

  lemma DateOfNumber(n: int, c: Civil)
    requires ValidDate(c) && DaysOf(c) == n
    ensures CivilOf(n) == c
  {
    CivilOfDaysOf(c);
  }

  /** Month truncation changes from one day to the next exactly when a month begins. */
  lemma MonthChanges(n: int)
    ensures Truncate(n + 1, MONTH) == Truncate(n, MONTH) <==> CivilOf(n + 1).day != 1
  {
    NextNumberIsNextDay(n);
    DaysOfCivilOf(n);
    DayAfter(CivilOf(n));
    MonthDays(n);
    MonthDays(n + 1);
  }

  lemma DayAfter(c: Civil)
    requires ValidDate(c)
    ensures NextDay(c).day == 1 || NextDay(c).day == c.day + 1 > 1
  {
  }

  lemma MonthDays(n: int)
    ensures Truncate(n, MONTH) == n - CivilOf(n).day + 1
  {
  }

  lemma YearSteps(y: int)
    requires 0 <= y < 399
    ensures YearStart(y + 1) - YearStart(y) == YearLength(y)
  {
    var c, r := y / 100, y % 100;
    var k, s := r / 4, r % 4;
    assert y / 4 == 25 * c + k;
    if s == 3 {
      if k == 24 { assert y + 1 == 100 * (c + 1); assert (y + 1) / 4 == 25 * (c + 1); }
      else { assert (y + 1) / 4 == 25 * c + k + 1; assert (y + 1) % 100 == r + 1; }
    } else {
      assert y + 1 == 4 * (25 * c + k) + s + 1;
      assert (y + 1) % 4 == s + 1;
    }
  }

  /** Day numbers of dates of years 0-9999 are exactly [-719528, 2932896]. */
  lemma FourDigitYearRange(total: int)
    ensures 0 <= CivilOf(total).year <= 9999 <==> -719528 <= total <= 2932896
  {
    var era, yoe, mp, d := PartsOfNumber(total);
    CivilOfNumber(era, yoe, mp, d);
    NumberRange(era, yoe, mp, d);
  }

  lemma NumberRange(era: int, yoe: int, mp: int, d: int)
    requires InEra(yoe, mp, d)
    ensures 0 <= Assemble(era, yoe, mp, d).year <==> -719528 <= Number(era, yoe, mp, d)
    ensures Assemble(era, yoe, mp, d).year <= 9999 <==> Number(era, yoe, mp, d) <= 2932896
  {
    InYear(yoe, mp, d);
    EraBounds(yoe, MonthStart(mp) + d - 1);
    JanuaryStarts(mp, d);
    YearRange(era, yoe, mp, MonthStart(mp) + d - 1);
  }

  /** January is the eleventh month of a March-based year. */
  lemma JanuaryStarts(mp: int, d: int)
    requires 0 <= mp < 12 && 1 <= d <= (if mp < 11 then MonthStart(mp + 1) - MonthStart(mp) else 29)
    ensures mp >= 10 <==> MonthStart(mp) + d - 1 >= 306
  {
    assert MonthStart(10) == 306;
    if mp >= 10 { assert MonthStart(mp) >= 306; } else { assert MonthStart(mp + 1) <= 306; }
  }

  /** The years of the calendar, in era and day of era. */
  lemma YearRange(era: int, yoe: int, mp: int, doy: int)
    requires 0 <= yoe < 400 && (mp >= 10 <==> doy >= 306) && 0 <= YearStart(yoe) + doy <= 146096 && 0 <= doy
    requires yoe < 399 ==> YearStart(yoe) + doy < YearStart(399)
    requires YearStart(399) == 145731
    ensures 0 <= yoe + era * 400 + (if mp < 10 then 0 else 1) <==> -719528 <= era * 146097 + YearStart(yoe) + doy - 719468
    ensures yoe + era * 400 + (if mp < 10 then 0 else 1) <= 9999 <==> era * 146097 + YearStart(yoe) + doy - 719468 <= 2932896
  {
  }

  lemma EraBounds(yoe: int, doy: int)
    requires 0 <= yoe < 400 && 0 <= doy < YearLength(yoe)
    ensures 0 <= YearStart(yoe) + doy <= 146096
    ensures yoe < 399 ==> YearStart(yoe) + doy < YearStart(399)
    ensures YearStart(399) == 145731
  {
    YearOfEraInverts(yoe, doy);
    if yoe < 399 {
      YearSteps(yoe);
      YearStartMonotone(yoe + 1, 399);
    }
  }

  lemma YearStartMonotone(y: int, z: int)
    requires 0 <= y <= z <= 399
    ensures YearStart(y) <= YearStart(z)
    decreases z - y
  {
    if y < z {
      YearSteps(y);
      YearStartMonotone(y + 1, z);
    }
  }

  // ----- truncation -----

  /** MONTH truncation is day 1 of the same month; doing it again changes nothing. */
  lemma MonthTruncation(total: int)
    ensures CivilOf(Truncate(total, MONTH)) == CivilOf(total).(day := 1)
    ensures Truncate(total, MONTH) <= total < Truncate(total, MONTH) + 31
    ensures Truncate(Truncate(total, MONTH), MONTH) == Truncate(total, MONTH)
  {
    var era, yoe, mp, d := PartsOfNumber(total);
    CivilOfNumber(era, yoe, mp, d);
    CivilOfNumber(era, yoe, mp, 1);
    InYear(yoe, mp, d);
    assert d <= 31;
    assert Truncate(total, MONTH) == Number(era, yoe, mp, 1);
  }

  /** The YEAR branch lands on month 10 (January) of March-based year `year`. */
  lemma YearTruncationValue(total: int)
    ensures var year := CivilOf(total).year; Truncate(total, YEAR) == Number(year / 400, year % 400, 10, 1)
  {
    FloorByTruncation(CivilOf(total).year, 400);
    assert MonthStart(10) == 306;
  }

  /**
   YEAR truncation does not truncate: for every day it returns 1 January of the FOLLOWING year, so it never
   returns a day of the year asked for.
   */
  lemma YearTruncationIsNextNewYear(total: int)
    ensures CivilOf(Truncate(total, YEAR)) == Civil(CivilOf(total).year + 1, 1, 1)
    ensures Truncate(total, YEAR) > total
  {
    var c := CivilOf(total);
    YearTruncationValue(total);
    NewYearParts(c.year);
    DaysOfCivilOf(total);
    YearEnds(c);
  }

  /** The day number YEAR truncation gives. */
  lemma YearTruncationDay(total: int)
    ensures Truncate(total, YEAR) == DaysOf(Civil(CivilOf(total).year + 1, 1, 1))
  {
    YearTruncationValue(total);
    NewYearParts(CivilOf(total).year);
  }

  lemma NewYearParts(year: int)
    ensures Assemble(year / 400, year % 400, 10, 1) == Civil(year + 1, 1, 1)
    ensures CivilOf(Number(year / 400, year % 400, 10, 1)) == Civil(year + 1, 1, 1)
    ensures DaysOf(Civil(year + 1, 1, 1)) == Number(year / 400, year % 400, 10, 1)
  {
    LongMonths(year % 400, 10);
    CivilOfNumber(year / 400, year % 400, 10, 1);
    DaysOfAssembled(year / 400, year % 400, 10, 1);
  }

  /** Every day precedes the next new year's day. */
  lemma YearEnds(c: Civil)
    requires ValidDate(c)
    ensures DaysOf(c) < DaysOf(Civil(c.year + 1, 1, 1))
    decreases 12 - c.month, DaysInMonth(c.year, c.month) - c.day
  {
    var d := NextDay(c);
    NextDayIsNextNumber(c);
    DayGoesOn(c, d);
    if d.year == c.year {
      YearEnds(d);
    }
  }

  /** The next day is later in its year, or the first day of the next year. */
  lemma DayGoesOn(c: Civil, d: Civil)
    requires ValidDate(c) && d == NextDay(c)
    ensures d.year == c.year || d == Civil(c.year + 1, 1, 1)
    ensures d.year == c.year ==> d.month == c.month + 1 || (d.month == c.month && d.day == c.day + 1)
    ensures d.year == c.year ==> d.month <= 12 && (d.month == c.month ==> d.day <= DaysInMonth(c.year, c.month))
  {
  }

  // ----- text -----

  function Digit(ch: char): int { ch as int - '0' as int }

  function Parse(unit: string): Result<int> {
    if |unit| != 10 || unit[4] != '-' || unit[7] != '-' then Err("Invalid date format: " + unit)
    else
      var year := Digit(unit[0]) * 1000 + Digit(unit[1]) * 100 + Digit(unit[2]) * 10 + Digit(unit[3]);
      var month := Digit(unit[5]) * 10 + Digit(unit[6]);
      var day := Digit(unit[8]) * 10 + Digit(unit[9]);
      Ok(DaysOf(Civil(year, month, day)))
  }

  /** `(val % 10) + '0'`; a negative remainder lands just below '0'. */
  function DigitChar(val: int): char {
    ('0' as int + TruncMod(val, 10)) as char
  }

  /** The last `len` decimal digits of `val`, most significant first. */
  function Digits(val: int, len: nat): (s: string)
    ensures |s| == len
    decreases len
  {
    if len == 0 then [] else Digits(TruncDiv(val, 10), len - 1) + [DigitChar(val)]
  }

  /** After `i` steps of the loop below: the value left, and the digits already written. */
  lemma DigitStep(val0: int, len: nat, val: int, i: nat)
    requires i < len && Digits(val0, len) == Digits(val, len - i) + Digits(val0, len)[len - i..]
    ensures var rest := TruncDiv(val, 10);
            Digits(val0, len) == Digits(rest, len - i - 1) + Digits(val0, len)[len - i - 1..]
    ensures Digits(val0, len)[len - i - 1..] == [DigitChar(val)] + Digits(val0, len)[len - i..]
  {
    var all := Digits(val0, len);
    assert Digits(val, len - i) == Digits(TruncDiv(val, 10), len - i - 1) + [DigitChar(val)];
    assert all[len - i - 1] == DigitChar(val);
  }

  lemma OneDigitMore(front: string, digit: char, done: string, back: string)
    requires front != []
    ensures (front + done + back)[|front| - 1 := digit] == front[..|front| - 1] + ([digit] + done) + back
  {
  }

  /** Fills positions pos .. pos + len of the text with digits, the last one first. */
  method WriteDigits(res: array<char>, val0: int, pos: nat, len: nat)
    requires pos + len <= res.Length
    modifies res
    ensures res[..] == old(res[..pos]) + Digits(val0, len) + old(res[pos + len..])
  {
    var val, i := val0, 0;
    ghost var before := res[..];
    ghost var all := Digits(val0, len);
    while i < len
      invariant 0 <= i <= len
      invariant all == Digits(val, len - i) + all[len - i..]
      invariant res[..] == before[..pos + len - i] + all[len - i..] + before[pos + len..]
    {
      DigitStep(val0, len, val, i);
      ghost var now := res[..];
      res[pos + len - 1 - i] := DigitChar(val);
      assert res[..] == now[pos + len - 1 - i := DigitChar(val)];
      OneDigitMore(before[..pos + len - i], DigitChar(val), all[len - i..], before[pos + len..]);
      Sequences.TakeLess(before, pos + len - i - 1, pos + len - i);
      val := TruncDiv(val, 10);
      i := i + 1;
    }
    assert all[0..] == all;
  }

  function FormatSpec(days: int): (s: string)
    ensures |s| == 10
  {
    CivilText(CivilOf(days))
  }

  function CivilText(c: Civil): (s: string)
    ensures |s| == 10
  {
    Digits(c.year, 4) + "-" + Digits(c.month, 2) + "-" + Digits(c.day, 2)
  }

  /** Date::Format; the source adds 719468 in int32, so the caller stays that far below its maximum. */
  method Format(days: int) returns (s: string)
    requires -0x8000_0000 <= days < 0x8000_0000 - 719468
    ensures s == FormatSpec(days)
  {
    var c := CivilOf(days);
    s := Print(c);
  }

  /** The digits of year, month and day written over a template. */
  method Print(c: Civil) returns (s: string)
    ensures s == CivilText(c)
  {
    var template := "0000-00-00";
    var res := new char[10](i requires 0 <= i < 10 => template[i]);
    ghost var y, m, d := Digits(c.year, 4), Digits(c.month, 2), Digits(c.day, 2);
    ghost var s0 := res[..];
    assert s0 == template;
    WriteDigits(res, c.year, 0, 4);
    ghost var s1 := res[..];
    FilledYear(y, s0, s1);
    WriteDigits(res, c.month, 5, 2);
    ghost var s2 := res[..];
    FilledMonth(y, m, s1, s2);
    WriteDigits(res, c.day, 8, 2);
    s := res[..];
    FilledDay(y, m, d, s2, s);
  }

  lemma FilledYear(y: string, before: string, after: string)
    requires |y| == 4 && before == "0000-00-00" && after == before[..0] + y + before[4..]
    ensures after == y + "-00-00"
  {
    assert before[..0] == "" && before[4..] == "-00-00";
  }

  lemma FilledMonth(y: string, m: string, before: string, after: string)
    requires |y| == 4 && |m| == 2 && before == y + "-00-00"
    requires after == before[..5] + m + before[7..]
    ensures after == y + "-" + m + "-00"
  {
    assert before[..5] == y + "-" && before[7..] == "-00";
  }

  lemma FilledDay(y: string, m: string, d: string, before: string, after: string)
    requires |y| == 4 && |m| == 2 && |d| == 2 && before == y + "-" + m + "-00"
    requires after == before[..8] + d + before[10..]
    ensures after == y + "-" + m + "-" + d
  {
    assert before[..8] == y + "-" + m + "-" && before[10..] == "";
  }

  lemma DigitValue(v: int)
    requires v >= 0
    ensures Digit(DigitChar(v)) == v % 10 && '0' <= DigitChar(v) <= '9'
  {
    TruncModBounds(v, 10);
  }

  lemma LastDigit(v: int, len: nat)
    requires v >= 0 && len > 0
    ensures Digits(v, len) == Digits(v / 10, len - 1) + [DigitChar(v)]
  {
  }

  /** Value of a decimal text. */
  function NumberOf(s: string): int {
    if s == [] then 0 else NumberOf(s[..|s| - 1]) * 10 + Digit(s[|s| - 1])
  }

  function PowerOfTen(len: nat): int {
    if len == 0 then 1 else 10 * PowerOfTen(len - 1)
  }

  lemma {:induction false} NumberOfDigits(v: int, len: nat)
    requires 0 <= v < PowerOfTen(len)
    ensures NumberOf(Digits(v, len)) == v
    ensures forall k :: 0 <= k < len ==> '0' <= Digits(v, len)[k] <= '9'
  {
    if len > 0 {
      LastDigit(v, len);
      DigitValue(v);
      NumberOfDigits(v / 10, len - 1);
      assert Digits(v, len)[..len - 1] == Digits(v / 10, len - 1);
    }
  }

  lemma {:induction false} DigitsOfNumber(s: string)
    requires forall k :: 0 <= k < |s| ==> '0' <= s[k] <= '9'
    ensures 0 <= NumberOf(s) < PowerOfTen(|s|) && Digits(NumberOf(s), |s|) == s
  {
    if s != [] {
      var n := |s| - 1;
      DigitsOfNumber(s[..n]);
      var v := NumberOf(s);
      assert v / 10 == NumberOf(s[..n]) && v % 10 == Digit(s[n]);
      LastDigit(v, |s|);
      DigitValue(v);
      assert s == s[..n] + [s[n]];
    }
  }

  lemma NumberOfTwo(s: string)
    requires |s| == 2
    ensures NumberOf(s) == Digit(s[0]) * 10 + Digit(s[1])
  {
    assert NumberOf(s[..1]) == NumberOf(s[..1][..0]) * 10 + Digit(s[0]);
  }

  lemma NumberOfFour(s: string)
    requires |s| == 4
    ensures NumberOf(s) == Digit(s[0]) * 1000 + Digit(s[1]) * 100 + Digit(s[2]) * 10 + Digit(s[3])
  {
    var t := s[..3];
    assert t[..2] == s[..2];
    NumberOfTwo(s[..2]);
    assert NumberOf(t) == NumberOf(s[..2]) * 10 + Digit(s[2]);
  }

  lemma DashedText(y: string, m: string, d: string, s: string)
    requires |y| == 4 && |m| == 2 && |d| == 2 && s == y + "-" + m + "-" + d
    ensures |s| == 10 && s[0] == y[0] && s[1] == y[1] && s[2] == y[2] && s[3] == y[3] && s[4] == '-'
    ensures s[5] == m[0] && s[6] == m[1] && s[7] == '-' && s[8] == d[0] && s[9] == d[1]
  {
  }

  /** The date a ten-character text with dashes in place names, read part by part. */
  lemma ParseParts(y: string, m: string, d: string)
    requires |y| == 4 && |m| == 2 && |d| == 2
    ensures Parse(y + "-" + m + "-" + d) == Ok(DaysOf(Civil(NumberOf(y), NumberOf(m), NumberOf(d))))
  {
    NumberOfFour(y);
    NumberOfTwo(m);
    NumberOfTwo(d);
    DashedText(y, m, d, y + "-" + m + "-" + d);
  }

  /** Printing then parsing is the identity on exactly the days whose year has four digits. */
  lemma ParseFormat(days: int)
    requires -719528 <= days <= 2932896
    ensures Parse(FormatSpec(days)) == Ok(days)
  {
    var c := CivilOf(days);
    DaysOfCivilOf(days);
    FourDigitYearRange(days);
    assert PowerOfTen(2) == 100 && PowerOfTen(4) == 10000;
    NumberOfDigits(c.year, 4);
    NumberOfDigits(c.month, 2);
    NumberOfDigits(c.day, 2);
    ParseParts(Digits(c.year, 4), Digits(c.month, 2), Digits(c.day, 2));
  }

  /** The text of a date: four, two and two digits with dashes, naming a day of the calendar. */
  predicate DateText(s: string) {
    && |s| == 10 && s[4] == '-' && s[7] == '-'
    && (forall k :: 0 <= k < 10 && k != 4 && k != 7 ==> '0' <= s[k] <= '9')
    && ValidDate(Civil(NumberOf(s[..4]), NumberOf(s[5..7]), NumberOf(s[8..10])))
  }

  /** Parsing then printing gives back every valid date text. */
  lemma FormatParse(s: string)
    requires DateText(s)
    ensures Parse(s).Ok? && -719528 <= Parse(s).value <= 2932896
    ensures FormatSpec(Parse(s).value) == s
  {
    var c := DateOfText(s);
    CivilOfDaysOf(c);
    FourDigitYearRange(DaysOf(c));
  }

  /** The date that a text names. */
  lemma DateOfText(s: string) returns (c: Civil)
    requires DateText(s)
    ensures ValidDate(c) && 0 <= c.year <= 9999 && CivilText(c) == s && Parse(s) == Ok(DaysOf(c))
  {
    var y, m, d := s[..4], s[5..7], s[8..10];
    c := Civil(NumberOf(y), NumberOf(m), NumberOf(d));
    TextInParts(s);
    DateOfParts(s, y, m, d, c);
  }

  lemma DateOfParts(s: string, y: string, m: string, d: string, c: Civil)
    requires |y| == 4 && |m| == 2 && |d| == 2 && s == y + "-" + m + "-" + d
    requires forall k :: 0 <= k < 4 ==> '0' <= y[k] <= '9'
    requires forall k :: 0 <= k < 2 ==> '0' <= m[k] <= '9' && '0' <= d[k] <= '9'
    requires c == Civil(NumberOf(y), NumberOf(m), NumberOf(d))
    ensures 0 <= c.year <= 9999 && CivilText(c) == s && Parse(s) == Ok(DaysOf(c))
  {
    ParseText(s, y, m, d);
    TextOfParts(y, m, d);
  }

  lemma ParseText(s: string, y: string, m: string, d: string)
    requires |y| == 4 && |m| == 2 && |d| == 2 && s == y + "-" + m + "-" + d
    ensures Parse(s) == Ok(DaysOf(Civil(NumberOf(y), NumberOf(m), NumberOf(d))))
  {
    ParseParts(y, m, d);
  }

  lemma TextOfParts(y: string, m: string, d: string)
    requires |y| == 4 && |m| == 2 && |d| == 2
    requires forall k :: 0 <= k < 4 ==> '0' <= y[k] <= '9'
    requires forall k :: 0 <= k < 2 ==> '0' <= m[k] <= '9' && '0' <= d[k] <= '9'
    ensures 0 <= NumberOf(y) <= 9999
    ensures CivilText(Civil(NumberOf(y), NumberOf(m), NumberOf(d))) == y + "-" + m + "-" + d
  {
    assert PowerOfTen(4) == 10000;
    DigitsOfNumber(y);
    DigitsOfNumber(m);
    DigitsOfNumber(d);
  }

  lemma TextInParts(s: string)
    requires |s| == 10 && s[4] == '-' && s[7] == '-'
    requires forall k :: 0 <= k < 10 && k != 4 && k != 7 ==> '0' <= s[k] <= '9'
    ensures s == s[..4] + "-" + s[5..7] + "-" + s[8..10]
    ensures forall k :: 0 <= k < 4 ==> '0' <= s[..4][k] <= '9'
    ensures forall k :: 0 <= k < 2 ==> '0' <= s[5..7][k] <= '9' && '0' <= s[8..10][k] <= '9'
  {
  }

  lemma TensOf(v: int)
    requires 0 <= v <= 9999
    ensures v / 10 / 10 == v / 100 && v / 100 / 10 == v / 1000 && v / 1000 / 10 == 0 && v / 1000 % 10 == v / 1000
    ensures v <= 99 ==> v / 10 % 10 == v / 10
  {
  }

  /** Two digits of a month or a day. */
  lemma TwoDigitsAre(v: int)
    requires 0 <= v <= 9999
    ensures Digits(v, 2)[0] as int == 48 + v / 10 % 10 && Digits(v, 2)[1] as int == 48 + v % 10
  {
    LastDigit(v, 2);
    LastDigit(v / 10, 1);
    DigitValue(v);
    DigitValue(v / 10);
  }

  /** Four digits of a year. */
  lemma FourDigitsAre(v: int)
    requires 0 <= v <= 9999
    ensures var s := Digits(v, 4);
            s[0] as int == 48 + v / 1000 && s[1] as int == 48 + v / 100 % 10 && s[2] as int == 48 + v / 10 % 10 && s[3] as int == 48 + v % 10
  {
    var high := v / 100;
    TensOf(v);
    LastDigit(v, 4);
    LastDigit(v / 10, 3);
    DigitValue(v);
    DigitValue(v / 10);
    TwoDigitsAre(high);
    assert Digits(v, 4) == Digits(high, 2) + [DigitChar(v / 10)] + [DigitChar(v)];
  }

  /** What is printed, character by character: year, month and day of the calendar, with dashes between them. */
  lemma PrintedDate(days: int)
    requires -719528 <= days <= 2932896
    ensures var c, s := CivilOf(days), FormatSpec(days);
            && 0 <= c.year <= 9999 && 1 <= c.month <= 12 && 1 <= c.day <= 31 && s[4] == '-' && s[7] == '-'
            && s[0] as int == 48 + c.year / 1000 && s[1] as int == 48 + c.year / 100 % 10
            && s[2] as int == 48 + c.year / 10 % 10 && s[3] as int == 48 + c.year % 10
            && s[5] as int == 48 + c.month / 10 && s[6] as int == 48 + c.month % 10
            && s[8] as int == 48 + c.day / 10 && s[9] as int == 48 + c.day % 10
  {
    var c := CivilOf(days);
    DaysOfCivilOf(days);
    FourDigitYearRange(days);
    FourDigitsAre(c.year);
    TensOf(c.month);
    TwoDigitsAre(c.month);
    TensOf(c.day);
    TwoDigitsAre(c.day);
    DashedText(Digits(c.year, 4), Digits(c.month, 2), Digits(c.day, 2), FormatSpec(days));
  }

  /** 1970-01-01 is day 0. */
  lemma EpochIsZero()
    ensures DaysOf(Civil(1970, 1, 1)) == 0 && Parse("1970-01-01") == Ok(0)
  {
    var s := "1970-01-01";
    assert DaysOf(Civil(1970, 1, 1)) == 0;
    assert Digit(s[0]) == 1 && Digit(s[1]) == 9 && Digit(s[2]) == 7 && Digit(s[3]) == 0;
    assert Digit(s[5]) == 0 && Digit(s[6]) == 1 && Digit(s[8]) == 0 && Digit(s[9]) == 1;
  }
}
