/** Seconds since 1970-01-01 00:00:00 (src/types/Timestamp.h). */
module Timestamps {
  import opened Wrappers
  import opened Arithmetic
  import Dates
  import Sequences


  /** `total % 86400`, moved into [0, 86400) when the source's remainder is negative. */
  function SecondsInDay(total: int): int {
    var r := TruncMod(total, 86400);
    if r < 0 then r + 86400 else r
  }

  function DayNumber(total: int): int {
    var days := TruncDiv(total, 86400);
    if TruncMod(total, 86400) < 0 then days - 1 else days
  }

  function ExtractMinute(total: int): int {
    SecondsInDay(total) % 3600 / 60
  }

  function Truncate(total: int, part: Dates.TimeUnit): int {
    match part
    case MINUTE => total - SecondsInDay(total) % 60
    case HOUR => total - SecondsInDay(total) % 3600
    case DAY => total - SecondsInDay(total)
    case MONTH => Dates.Truncate(TruncDiv(total, 86400), Dates.MONTH) * 86400
    case YEAR => Dates.Truncate(TruncDiv(total, 86400), Dates.YEAR) * 86400
    case SECOND => total
  }

  /** The adjusted remainder and day are the floor division of the seconds, for either sign. */
  lemma DaySplit(total: int)
    ensures DayNumber(total) == total / 86400 && SecondsInDay(total) == total % 86400
    ensures total == DayNumber(total) * 86400 + SecondsInDay(total)
  {
    TruncModBounds(total, 86400);
    var days, r := DayNumber(total), SecondsInDay(total);
    assert total == 86400 * days + r;
    DivUnique(total, 86400, days, r);
  }

  /** Seconds of the units whose truncation is a plain rounding down. */
  function UnitSeconds(part: Dates.TimeUnit): int
    requires part.DAY? || part.HOUR? || part.MINUTE?
  {
    if part.DAY? then 86400 else if part.HOUR? then 3600 else 60
  }

  /** DAY, HOUR and MINUTE truncation is the greatest multiple of the unit not above the input. */
  lemma TruncateIsFloor(total: int, part: Dates.TimeUnit)
    requires part.DAY? || part.HOUR? || part.MINUTE?
    ensures var u, t := UnitSeconds(part), Truncate(total, part);
            t == total - total % u && t % u == 0 && t <= total < t + u && forall m :: m % u == 0 && m <= total ==> m <= t
  {
    var u, t := UnitSeconds(part), Truncate(total, part);
    DaySplit(total);
    var q := SecondsInDay(total) / u;
    var k := 86400 / u;
    assert 86400 == u * k;
    assert t == u * (DayNumber(total) * k + q) by {
      assert part.DAY? ==> q == 0;
    }
    DivUnique(t, u, DayNumber(total) * k + q, 0);
    DivUnique(total, u, DayNumber(total) * k + q, total - t);
    forall m | m % u == 0 && m <= total ensures m <= t {
      MultiplesApart(u, m / u, t / u);
    }
  }

  lemma MultiplesApart(u: int, a: int, b: int)
    requires u > 0
    ensures a > b ==> u * a >= u * b + u
  {
    MulBound(u, a - b);
    assert u * (a - b) == u * a - u * b;
  }

  /** Truncation is idempotent, monotone, and a coarser unit absorbs a finer one. */
  lemma TruncateNests(x: int, y: int, coarse: Dates.TimeUnit, fine: Dates.TimeUnit)
    requires coarse.DAY? || coarse.HOUR? || coarse.MINUTE?
    requires fine.DAY? || fine.HOUR? || fine.MINUTE?
    requires UnitSeconds(fine) <= UnitSeconds(coarse)
    ensures Truncate(Truncate(x, fine), coarse) == Truncate(x, coarse)
    ensures Truncate(Truncate(x, coarse), fine) == Truncate(x, coarse)
    ensures x <= y ==> Truncate(x, coarse) <= Truncate(y, coarse)
  {
    var u, v := UnitSeconds(coarse), UnitSeconds(fine);
    TruncateValue(x, coarse);
    TruncateValue(x, fine);
    TruncateValue(x - x % v, coarse);
    TruncateValue(x - x % u, fine);
    FloorNestsUnits(x, u, v);
    if x <= y { TruncateMonotone(x, y, coarse); }
  }

  lemma TruncateValue(x: int, part: Dates.TimeUnit)
    requires part.DAY? || part.HOUR? || part.MINUTE?
    ensures Truncate(x, part) == x - x % UnitSeconds(part)
  {
    TruncateIsFloor(x, part);
  }

  lemma TruncateMonotone(x: int, y: int, part: Dates.TimeUnit)
    requires part.DAY? || part.HOUR? || part.MINUTE?
    requires x <= y
    ensures Truncate(x, part) <= Truncate(y, part)
  {
    TruncateIsFloor(x, part);
    TruncateIsFloor(y, part);
  }

  lemma FloorNestsUnits(x: int, u: int, v: int)
    requires (u == 60 || u == 3600 || u == 86400) && (v == 60 || v == 3600 || v == 86400) && v <= u
    ensures (x - x % v) % u == x % u - x % v
    ensures (x - x % u) % v == 0
  {
    if u == v {
      FloorNests(x, v, 1);
    } else if u == 3600 {
      FloorNests(x, 60, 60);
    } else if v == 60 {
      FloorNests(x, 60, 1440);
    } else {
      FloorNests(x, 3600, 24);
    }
  }

  lemma FloorNests(x: int, v: int, k: int)
    requires v > 0 && k > 0
    ensures v * k > 0
    ensures (x - x % v) % (v * k) == x % (v * k) - x % v
    ensures (x - x % (v * k)) % v == 0
  {
    assert v * k > 0;
    var q, r := x / (v * k), x % (v * k);
    var a, b := r / v, r % v;
    assert x == v * (k * q + a) + b;
    DivUnique(x, v, k * q + a, b);
    assert 0 <= r - b < v * k;
    DivUnique(x - b, v * k, q, r - b);
    DivUnique(x - r, v, k * q, 0);
  }

  // ----- months of negative times -----

  /** Start of the month of the calendar day that contains the instant. */
  function MonthStartOf(total: int): int {
    Dates.Truncate(total / 86400, Dates.MONTH) * 86400
  }

  /** Before 1970, inside the last day of a month. */
  predicate BeforeNewMonth(total: int) {
    total < 0 && total % 86400 != 0 && Dates.CivilOf(total / 86400 + 1).day == 1
  }

  /** The day whose month is taken: the next one, before 1970 and inside a day. */
  lemma DayUsed(total: int)
    ensures TruncDiv(total, 86400) == if total < 0 && total % 86400 != 0 then total / 86400 + 1 else total / 86400
    ensures total / 86400 * 86400 <= total < (total / 86400 + 1) * 86400
  {
    DaySplit(total);
    TruncModBounds(total, 86400);
  }

  /** The first day of a month is its own month's start. */
  lemma FirstStays(day: int)
    requires Dates.CivilOf(day).day == 1
    ensures Dates.Truncate(day, Dates.MONTH) == day
  {
    Dates.MonthTruncation(day);
    Dates.DaysOfCivilOf(day);
    Dates.DaysOfCivilOf(Dates.Truncate(day, Dates.MONTH));
  }

  /**
   MONTH truncation divides toward zero, so before 1970 an instant inside a day is moved to the next day first.  The
   result is the start of the month except inside the last day of a month: there it is the start of the following
   month, which lies after the instant.
   */
  lemma MonthTruncationExact(total: int)
    ensures Truncate(total, Dates.MONTH) == if BeforeNewMonth(total) then (total / 86400 + 1) * 86400 else MonthStartOf(total)
    ensures BeforeNewMonth(total) <==> Truncate(total, Dates.MONTH) != MonthStartOf(total)
    ensures BeforeNewMonth(total) ==> MonthStartOf(total) <= total < Truncate(total, Dates.MONTH)
  {
    DayUsed(total);
    MonthOfUsed(total / 86400);
  }

  /** The month starts of a day and of the next. */
  lemma MonthOfUsed(day: int)
    ensures Dates.Truncate(day, Dates.MONTH) <= day
    ensures Dates.Truncate(day + 1, Dates.MONTH) == if Dates.CivilOf(day + 1).day == 1 then day + 1 else Dates.Truncate(day, Dates.MONTH)
  {
    Dates.MonthTruncation(day);
    Dates.MonthChanges(day);
    if Dates.CivilOf(day + 1).day == 1 {
      FirstStays(day + 1);
    }
  }

  /** One second before the epoch belongs to December 1969 but is truncated to 1 January 1970. */
  lemma MonthTruncationFails()
    ensures Truncate(-1, Dates.MONTH) == 0 && MonthStartOf(-1) == -31 * 86400
  {
    assert Dates.DaysOf(Dates.Civil(1969, 12, 31)) == -1;
    Dates.CivilOfDaysOf(Dates.Civil(1969, 12, 31));
    assert Dates.DaysOf(Dates.Civil(1970, 1, 1)) == 0;
    Dates.CivilOfDaysOf(Dates.Civil(1970, 1, 1));
    assert (-1) / 86400 == -1;
  }

  // ----- the other units -----

  /** MINUTE, HOUR and DAY take off what is over; SECOND changes nothing. */
  lemma TruncatesSeconds(total: int)
    ensures Truncate(total, Dates.SECOND) == total && Truncate(total, Dates.MINUTE) == total - total % 60
    ensures Truncate(total, Dates.HOUR) == total - total % 3600 && Truncate(total, Dates.DAY) == total - total % 86400
  {
    TruncateValue(total, Dates.MINUTE);
    TruncateValue(total, Dates.HOUR);
    TruncateValue(total, Dates.DAY);
  }

  /** Before 1970, inside the last day of a year. */
  predicate BeforeNewYear(total: int) {
    total < 0 && total % 86400 != 0 && Dates.CivilOf(total / 86400 + 1).month == 1 && Dates.CivilOf(total / 86400 + 1).day == 1
  }

  /**
   YEAR truncation gives the start of the following year, after the instant; before 1970 and inside the last day of a
   year, the start of the year after that.
   */
  lemma YearTruncationExact(total: int)
    ensures var year := Dates.CivilOf(total / 86400).year;
            Truncate(total, Dates.YEAR)
              == Dates.DaysOf(Dates.Civil(year + (if BeforeNewYear(total) then 2 else 1), 1, 1)) * 86400
    ensures Truncate(total, Dates.YEAR) > total
  {
    UsedYear(total);
    DayUsed(total);
    YearStartAfter(TruncDiv(total, 86400), total, Dates.CivilOf(total / 86400).year + if BeforeNewYear(total) then 2 else 1);
  }

  /** The year of the day whose year is taken. */
  lemma UsedYear(total: int)
    ensures Dates.CivilOf(TruncDiv(total, 86400)).year
         == Dates.CivilOf(total / 86400).year + if BeforeNewYear(total) then 1 else 0
  {
    DayUsed(total);
    YearOfUsed(total / 86400, total / 86400 + 1);
  }

  lemma YearOfUsed(day: int, next: int)
    requires next == day + 1
    ensures var c, d := Dates.CivilOf(day), Dates.CivilOf(next);
            d.year == if d.month == 1 && d.day == 1 then c.year + 1 else c.year
  {
    Dates.DaysOfCivilOf(day);
    Dates.NextNumberIsNextDay(day);
    YearOfNext(Dates.CivilOf(day), Dates.CivilOf(next));
  }

  lemma YearOfNext(c: Dates.Civil, d: Dates.Civil)
    requires Dates.ValidDate(c) && d == Dates.NextDay(c)
    ensures d.year == if d.month == 1 && d.day == 1 then c.year + 1 else c.year
  {
  }

  lemma YearStartAfter(used: int, total: int, next: int)
    requires used == TruncDiv(total, 86400) && total < (used + 1) * 86400 && next == Dates.CivilOf(used).year + 1
    ensures Truncate(total, Dates.YEAR) == Dates.DaysOf(Dates.Civil(next, 1, 1)) * 86400 > total
  {
    Dates.YearTruncationDay(used);
    Dates.YearTruncationIsNextNewYear(used);
    LaterDay(used, Dates.Truncate(used, Dates.YEAR), total);
  }

  lemma LaterDay(used: int, later: int, total: int)
    requires later > used && total < (used + 1) * 86400
    ensures later * 86400 > total
  {
  }

  // ----- text -----

  function Parse(unit: string): Result<int> {
    if |unit| != 19 || unit[4] != '-' || unit[7] != '-' || unit[10] != ' ' || unit[13] != ':' || unit[16] != ':' then
      Err("Invalid date format: " + unit)
    else
      var year := Dates.Digit(unit[0]) * 1000 + Dates.Digit(unit[1]) * 100
                + Dates.Digit(unit[2]) * 10 + Dates.Digit(unit[3]);
      var days := Dates.DaysOf(Dates.Civil(year, ToInt2(unit[5], unit[6]), ToInt2(unit[8], unit[9])));
      var seconds := ToInt2(unit[11], unit[12]) * 3600 + ToInt2(unit[14], unit[15]) * 60 + ToInt2(unit[17], unit[18]);
      Ok(days * 86400 + seconds)
  }

  function ToInt2(a: char, b: char): int { Dates.Digit(a) * 10 + Dates.Digit(b) }

  /** Two characters as the source writes them. */
  function Pair(v: int): (s: string)
    requires 0 <= v <= 99
    ensures |s| == 2
  {
    [(v / 10 + '0' as int) as char, (v % 10 + '0' as int) as char]
  }

  function PairValue(s: string): int
    requires |s| == 2
  {
    ToInt2(s[0], s[1])
  }

  lemma PairRoundTrip(v: int)
    requires 0 <= v <= 99
    ensures PairValue(Pair(v)) == v
  {
  }

  lemma PairOfText(s: string)
    requires |s| == 2 && '0' <= s[0] <= '9' && '0' <= s[1] <= '9'
    ensures 0 <= PairValue(s) <= 99 && Pair(PairValue(s)) == s
  {
    var v := PairValue(s);
    assert v / 10 == Dates.Digit(s[0]) && v % 10 == Dates.Digit(s[1]);
  }

  function TimeText(seconds: int): (s: string)
    requires 0 <= seconds < 86400
    ensures |s| == 9
  {
    " " + Pair(seconds / 3600) + ":" + Pair(seconds % 3600 / 60) + ":" + Pair(seconds % 60)
  }

  function FormatSpec(total: int): (s: string)
    ensures |s| == 19
  {
    DayText(total / 86400, total % 86400)
  }

  function DayText(day: int, seconds: int): (s: string)
    requires 0 <= seconds < 86400
    ensures |s| == 19
  {
    Dates.FormatSpec(day) + TimeText(seconds)
  }

  /** The source's two-character write. */
  method WriteTwo(res: array<char>, val: int, pos: nat)
    requires 0 <= val <= 99 && pos + 2 <= res.Length
    modifies res
    ensures res[..] == old(res[..pos]) + Pair(val) + old(res[pos + 2..])
  {
    res[pos] := (val / 10 + '0' as int) as char;
    res[pos + 1] := (val % 10 + '0' as int) as char;
    assert res[pos..pos + 2] == Pair(val);
  }

  /** Timestamp::Format. */
  method Format(total: int) returns (s: string)
    requires -0x8000_0000 * 86400 <= total < (0x8000_0000 - 719468) * 86400
    ensures s == FormatSpec(total)
  {
    DaySplit(total);
    var sec := SecondsInDay(total);
    var date := Dates.Format(DayNumber(total));
    s := PrintTime(date, sec);
  }

  /** Hours, minutes and seconds written over a template behind the date. */
  method PrintTime(date: string, sec: int) returns (s: string)
    requires |date| == 10 && 0 <= sec < 86400
    ensures s == date + TimeText(sec)
  {
    var template := date + " 00:00:00";
    var res := new char[19](i requires 0 <= i < 19 => template[i]);
    assert res[..] == template;
    WriteTwo(res, sec / 3600, 11);
    ghost var s1 := res[..];
    WriteTwo(res, sec % 3600 / 60, 14);
    ghost var s2 := res[..];
    WriteTwo(res, sec % 60, 17);
    s := res[..];
    Filled(date, Pair(sec / 3600), Pair(sec % 3600 / 60), Pair(sec % 60), s1, s2, s);
  }

  lemma Filled(date: string, h: string, m: string, sec: string, s1: string, s2: string, s3: string)
    requires |date| == 10 && |h| == 2 && |m| == 2 && |sec| == 2
    requires var t := date + " 00:00:00"; s1 == t[..11] + h + t[13..]
    requires s2 == s1[..14] + m + s1[16..] && s3 == s2[..17] + sec + s2[19..]
    ensures s3 == date + (" " + h + ":" + m + ":" + sec)
  {
    assert s1 == date + " " + h + ":00:00";
    assert s2 == date + " " + h + ":" + m + ":00";
  }

  lemma TimeTextLayout(h: string, m: string, sec: string, t: string)
    requires |h| == 2 && |m| == 2 && |sec| == 2 && t == " " + h + ":" + m + ":" + sec
    ensures |t| == 9 && t[0] == ' ' && t[1] == h[0] && t[2] == h[1] && t[3] == ':' && t[4] == m[0] && t[5] == m[1]
    ensures t[6] == ':' && t[7] == sec[0] && t[8] == sec[1]
    ensures t[1..3] == h && t[4..6] == m && t[7..9] == sec
  {
  }

  /** ExtractMinute is the minute Format prints. */
  lemma ExtractMinuteIsPrinted(total: int)
    ensures 0 <= ExtractMinute(total) < 60
    ensures FormatSpec(total)[14..16] == Pair(ExtractMinute(total))
    ensures ExtractMinute(total) * 60 == Truncate(total, Dates.MINUTE) - Truncate(total, Dates.HOUR)
  {
    DaySplit(total);
    var sec := total % 86400;
    TimeTextLayout(Pair(sec / 3600), Pair(sec % 3600 / 60), Pair(sec % 60), TimeText(sec));
    SliceOfSecond(Dates.FormatSpec(total / 86400), TimeText(sec));
    MinuteDifference(sec);
  }

  /** What is printed behind the date, character by character: hours, minutes and seconds of the day. */
  lemma PrintedTime(total: int)
    ensures var s, sec := FormatSpec(total), total % 86400;
            && s[..10] == Dates.FormatSpec(total / 86400) && s[10] == ' ' && s[13] == ':' && s[16] == ':'
            && s[11] as int == 48 + sec / 3600 / 10 && s[12] as int == 48 + sec / 3600 % 10
            && s[14] as int == 48 + sec % 3600 / 60 / 10 && s[15] as int == 48 + sec % 3600 / 60 % 10
            && s[17] as int == 48 + sec % 60 / 10 && s[18] as int == 48 + sec % 60 % 10
  {
    var date, sec := Dates.FormatSpec(total / 86400), total % 86400;
    var t := TimeText(sec);
    TimeTextLayout(Pair(sec / 3600), Pair(sec % 3600 / 60), Pair(sec % 60), t);
    assert FormatSpec(total) == date + t;
    assert forall k :: 0 <= k < 9 ==> (date + t)[10 + k] == t[k];
  }

  lemma SliceOfSecond(a: string, b: string)
    requires |a| == 10 && |b| == 9
    ensures (a + b)[14..16] == b[4..6]
  {
  }

  lemma MinuteDifference(sec: int)
    requires 0 <= sec < 86400
    ensures sec % 3600 / 60 * 60 == sec % 3600 - sec % 60 && 0 <= sec % 3600 / 60 < 60
  {
  }

  /** A timestamp text read part by part; the first ten characters are read as a date. */
  lemma ParseParts(date: string, day: int, h: string, m: string, sec: string, t: string)
    requires |date| == 10 && |h| == 2 && |m| == 2 && |sec| == 2 && Dates.Parse(date) == Ok(day)
    requires t == " " + h + ":" + m + ":" + sec
    ensures Parse(date + t) == Ok(day * 86400 + (PairValue(h) * 3600 + PairValue(m) * 60 + PairValue(sec)))
  {
    TimeTextLayout(h, m, sec, t);
    ParseJoined(date, day, t);
  }

  lemma ParseJoined(date: string, day: int, t: string)
    requires |date| == 10 && |t| == 9 && Dates.Parse(date) == Ok(day) && t[0] == ' ' && t[3] == ':' && t[6] == ':'
    ensures Parse(date + t)
         == Ok(day * 86400 + (ToInt2(t[1], t[2]) * 3600 + ToInt2(t[4], t[5]) * 60 + ToInt2(t[7], t[8])))
  {
    var s := date + t;
    assert s[0] == date[0] && s[1] == date[1] && s[2] == date[2] && s[3] == date[3] && s[4] == date[4];
    assert s[5] == date[5] && s[6] == date[6] && s[7] == date[7] && s[8] == date[8] && s[9] == date[9];
    assert s[10] == t[0] && s[11] == t[1] && s[12] == t[2] && s[13] == t[3] && s[14] == t[4] && s[15] == t[5];
    assert s[16] == t[6] && s[17] == t[7] && s[18] == t[8];
  }

  lemma ReadTimeText(sec: int)
    requires 0 <= sec < 86400
    ensures PairValue(Pair(sec / 3600)) * 3600 + PairValue(Pair(sec % 3600 / 60)) * 60 + PairValue(Pair(sec % 60)) == sec
  {
    PairRoundTrip(sec / 3600);
    PairRoundTrip(sec % 3600 / 60);
    PairRoundTrip(sec % 60);
  }

  lemma JoinedRoundTrip(date: string, day: int, sec: int)
    requires |date| == 10 && Dates.Parse(date) == Ok(day) && 0 <= sec < 86400
    ensures Parse(date + TimeText(sec)) == Ok(day * 86400 + sec)
  {
    ReadTimeText(sec);
    ParseParts(date, day, Pair(sec / 3600), Pair(sec % 3600 / 60), Pair(sec % 60), TimeText(sec));
  }

  /** Printing then parsing is the identity on years 0-9999. */
  lemma ParseFormat(total: int)
    requires -719528 * 86400 <= total < 2932897 * 86400
    ensures Parse(FormatSpec(total)) == Ok(total)
  {
    DayOfRange(total);
    ReadsBackAt(total, total / 86400, total % 86400);
  }

  lemma ReadsBackAt(total: int, day: int, sec: int)
    requires -719528 <= day <= 2932896 && 0 <= sec < 86400 && day == total / 86400 && sec == total % 86400
    requires day * 86400 + sec == total
    ensures Parse(FormatSpec(total)) == Ok(total)
  {
    PartsReadBack(day, sec, total);
  }

  lemma PartsReadBack(day: int, sec: int, total: int)
    requires -719528 <= day <= 2932896 && 0 <= sec < 86400 && day * 86400 + sec == total
    ensures Parse(DayText(day, sec)) == Ok(total)
  {
    ValueReadsBack(day, sec, total);
    IsOk(Parse(DayText(day, sec)), total);
  }

  lemma ValueReadsBack(day: int, sec: int, total: int)
    requires -719528 <= day <= 2932896 && 0 <= sec < 86400 && day * 86400 + sec == total
    ensures Parse(DayText(day, sec)).Ok? && Parse(DayText(day, sec)).value == total
  {
    DayTextReadsBack(day, sec);
  }

  lemma IsOk(r: Result<int>, v: int)
    requires r.Ok? && r.value == v
    ensures r == Ok(v)
  {
  }

  lemma DayOfRange(total: int)
    requires -719528 * 86400 <= total < 2932897 * 86400
    ensures -719528 <= total / 86400 <= 2932896 && total / 86400 * 86400 + total % 86400 == total && 0 <= total % 86400 < 86400
  {
  }

  lemma DayTextReadsBack(day: int, sec: int)
    requires -719528 <= day <= 2932896 && 0 <= sec < 86400
    ensures Parse(DayText(day, sec)) == Ok(day * 86400 + sec)
  {
    Dates.ParseFormat(day);
    JoinedRoundTrip(Dates.FormatSpec(day), day, sec);
  }

  /** A date text, a space, and a time of day. */
  predicate TimestampText(s: string) {
    && |s| == 19 && Dates.DateText(s[..10]) && s[10] == ' ' && s[13] == ':' && s[16] == ':'
    && (forall k :: 11 <= k < 19 && k != 13 && k != 16 ==> '0' <= s[k] <= '9')
    && PairValue(s[11..13]) < 24 && PairValue(s[14..16]) < 60 && PairValue(s[17..19]) < 60
  }

  /** Printing the time of day read from a text gives back the text. */
  lemma PrintTimeText(h: string, m: string, sec: string, text: string)
    requires |h| == 2 && |m| == 2 && |sec| == 2 && text == " " + h + ":" + m + ":" + sec
    requires forall k :: 0 <= k < 2 ==> '0' <= h[k] <= '9' && '0' <= m[k] <= '9' && '0' <= sec[k] <= '9'
    requires PairValue(h) < 24 && PairValue(m) < 60 && PairValue(sec) < 60
    ensures var t := PairValue(h) * 3600 + PairValue(m) * 60 + PairValue(sec); 0 <= t < 86400 && TimeText(t) == text
  {
    PairOfText(h);
    PairOfText(m);
    PairOfText(sec);
    TimeOfDay(PairValue(h), PairValue(m), PairValue(sec));
  }

  lemma FormatJoined(s: string, v: int, day: int, t: int)
    requires 0 <= t < 86400 && s == DayText(day, t) && v == day * 86400 + t
    ensures FormatSpec(v) == s
  {
    SplitSeconds(v, day, t);
  }

  /** The time half of a timestamp text is the printed form of the seconds it is read as. */
  lemma TimeHalf(s: string, day: int) returns (t: int)
    requires TimestampText(s) && Dates.Parse(s[..10]) == Ok(day)
    ensures 0 <= t < 86400 && s[10..] == TimeText(t) && Parse(s[..10] + s[10..]) == Ok(day * 86400 + t)
  {
    TimeInParts(s);
    t := TimeOfText(s[..10], day, s[11..13], s[14..16], s[17..19], s[10..]);
  }

  lemma TimeInParts(s: string)
    requires |s| == 19 && s[10] == ' ' && s[13] == ':' && s[16] == ':'
    ensures s[10..] == " " + s[11..13] + ":" + s[14..16] + ":" + s[17..19]
  {
  }

  lemma TimeOfText(date: string, day: int, h: string, m: string, sec: string, text: string) returns (t: int)
    requires |h| == 2 && |m| == 2 && |sec| == 2 && text == " " + h + ":" + m + ":" + sec
    requires forall k :: 0 <= k < 2 ==> '0' <= h[k] <= '9' && '0' <= m[k] <= '9' && '0' <= sec[k] <= '9'
    requires PairValue(h) < 24 && PairValue(m) < 60 && PairValue(sec) < 60 && |date| == 10 && Dates.Parse(date) == Ok(day)
    ensures 0 <= t < 86400 && text == TimeText(t) && Parse(date + text) == Ok(day * 86400 + t)
  {
    t := PairValue(h) * 3600 + PairValue(m) * 60 + PairValue(sec);
    PrintTimeText(h, m, sec, text);
    ParseParts(date, day, h, m, sec, text);
  }

  /** A valid text is the printed form of the day and time of day it is read as. */
  lemma TextParts(s: string) returns (day: int, t: int)
    requires TimestampText(s)
    ensures -719528 <= day <= 2932896 && 0 <= t < 86400
    ensures Parse(s) == Ok(day * 86400 + t) && s == DayText(day, t)
  {
    Dates.FormatParse(s[..10]);
    day := Dates.Parse(s[..10]).value;
    t := TimeHalf(s, day);
    Sequences.CutAndJoin(s, 10);
  }

  /** Parsing then printing gives back every valid timestamp text. */
  lemma FormatParse(s: string)
    requires TimestampText(s)
    ensures Parse(s).Ok? && -719528 * 86400 <= Parse(s).value < 2932897 * 86400
    ensures FormatSpec(Parse(s).value) == s
  {
    var day, t := TextParts(s);
    FormatJoined(s, day * 86400 + t, day, t);
  }

  lemma SplitSeconds(v: int, day: int, sec: int)
    requires 0 <= sec < 86400 && v == day * 86400 + sec
    ensures v / 86400 == day && v % 86400 == sec
  {
  }

  lemma TimeOfDay(h: int, m: int, sec: int)
    requires 0 <= h < 24 && 0 <= m < 60 && 0 <= sec < 60
    ensures var t := h * 3600 + m * 60 + sec; 0 <= t < 86400 && t / 3600 == h && t % 3600 / 60 == m && t % 60 == sec
  {
  }
}
