/** src/common/time64.c: conversion between seconds since the epoch and broken-down UTC
    dates, in both directions, with the 400-year shortcuts and the 2008 head start. */
module Time64 {
  import opened Wrappers
  import opened Calendar
  import C = CTruncation

  const INT_MIN: int := -0x8000_0000
  const INT_MAX: int := 0x7fff_ffff

  const CHEAT_DAYS := 13879   // 1199145600 / 24 / 60 / 60
  const CHEAT_YEARS := 108

  /** The first and the last second whose tm_year fits an int. */
  const GM_TIME_MIN: int := DaysBefore(INT_MIN + 1900) * 86400
  const GM_TIME_MAX: int := DaysBefore(INT_MAX + 1901) * 86400 - 1

  /** IS_LEAP works on years counted from 1900 and indexes the tables. */
  function IsLeapTm(n: int): nat {
    LeapIndex(n + 1900)
  }

  function LengthOfYear(n: int): int {
    YearLength(n + 1900)
  }

  /** timegm64: any day, hour, minute and second, normalised or not. */
  method TimeGm64(date: TM) returns (seconds: int)
    requires 0 <= date.mon < 12
    ensures seconds == EpochSeconds(date)
  {
    var days := 0;
    var origYear := date.year;
    var cycles := 0;
    if origYear > 100 || origYear < -300 {
      cycles := C.Div(origYear - 100, 400);
      origYear := origYear - cycles * 400;
      days := days + cycles * DAYS_IN_CYCLE;
    }
    NextCycle(origYear + 1900, cycles);
    assert date.year + 1900 == origYear + 1900 + 400 * cycles;
    days := YearsFromEpoch(days, origYear);
    days := days + JULIAN_DAYS[IsLeapTm(origYear)][date.mon];
    days := days + date.mday - 1;
    seconds := days * 60 * 60 * 24;
    seconds := seconds + date.hour * 60 * 60;
    seconds := seconds + date.min * 60;
    seconds := seconds + date.sec;
  }

  /** The two year loops of timegm64: up from 1970, or down from 1969. */
  method YearsFromEpoch(start: int, origYear: int) returns (days: int)
    ensures days == start + DaysBefore(origYear + 1900)
  {
    days := start;
    var year;
    if origYear > 70 {
      year := 70;
      while year < origYear
        invariant 70 <= year <= origYear
        invariant days == start + DaysBefore(year + 1900)
      {
        NextYear(year + 1900);
        days := days + LengthOfYear(year);
        year := year + 1;
      }
    } else if origYear < 70 {
      year := 69;
      while true
        invariant origYear <= year <= 69
        invariant days == start + DaysBefore(year + 1901)
        decreases year - origYear
      {
        NextYear(year + 1900);
        days := days - LengthOfYear(year);
        year := year - 1;
        if !(year >= origYear) {
          break;
        }
      }
    }
  }

  /** check_tm: the conjunction of its asserts, in their order. A month outside the table
      would make the day assert read past it, so the month is tested first. */
  predicate CheckTm(tm: TM) {
    && 0 <= tm.sec <= 60
    && 0 <= tm.min <= 59
    && 0 <= tm.hour <= 23
    && 0 <= tm.mon <= 11
    && 1 <= tm.mday <= DAYS_IN_MONTH[IsLeapTm(tm.year)][tm.mon]
    && 0 <= tm.wday <= 6
    && 0 <= tm.yday <= LengthOfYear(tm.year)
  }

  lemma ValidPassesCheckTm(tm: TM)
    requires ValidUtc(tm)
    ensures CheckTm(tm)
  {
    YdayRange(tm);
  }

  /** The clock part of gmtime64_r: truncating remainders, then WRAP_TIME64 three times. */
  method ClockFields(inTime: int) returns (sec: int, min: int, hour: int, day: int)
    ensures 0 <= sec < 60 && 0 <= min < 60 && 0 <= hour < 24
    ensures day * 86400 + hour * 3600 + min * 60 + sec == inTime
  {
    var time := inTime;
    sec := C.Mod(time, 60);
    time := C.Div(time, 60);
    min := C.Mod(time, 60);
    time := C.Div(time, 60);
    hour := C.Mod(time, 24);
    time := C.Div(time, 24);
    day := time;
    if sec < 0 {
      min := min - 1;
      sec := sec + 60;
    }
    if min < 0 {
      hour := hour - 1;
      min := min + 60;
    }
    if hour < 0 {
      day := day - 1;
      hour := hour + 24;
    }
  }

  /** The weekday computation of gmtime64_r. */
  method Weekday(day: int) returns (wday: int)
    ensures wday == (day + 4) % 7
  {
    wday := C.Mod(day + 4, 7);
    if wday < 0 {
      wday := wday + 7;
    }
  }

  /** The branch of gmtime64_r for days at or after the starting year. */
  method DateForward(startYear: int, day: int) returns (year: int, mon: int, m: int)
    requires day >= 0
    ensures 0 <= mon < 12
    ensures 0 <= m < DAYS_IN_MONTH[IsLeapTm(year)][mon]
    ensures DaysBefore(year + 1900) + JULIAN_DAYS[IsLeapTm(year)][mon] + m == DaysBefore(startYear + 1900) + day
  {
    year := startYear;
    m := day;
    var cycles := C.Div(m, DAYS_IN_CYCLE);
    NextCycle(startYear + 1900, cycles);
    assert startYear + 1900 + 400 * cycles == startYear + cycles * 400 + 1900;
    if cycles != 0 {
      m := m - cycles * DAYS_IN_CYCLE;
      year := year + cycles * 400;
    }
    ghost var target := DaysBefore(startYear + 1900) + day;
    while m >= LengthOfYear(year)
      invariant 0 <= m
      invariant DaysBefore(year + 1900) + m == target
    {
      NextYear(year + 1900);
      m := m - LengthOfYear(year);
      year := year + 1;
    }
    var leap := IsLeapTm(year);
    mon := 0;
    while m >= DAYS_IN_MONTH[leap][mon]
      invariant 0 <= mon < 12 && 0 <= m
      invariant JULIAN_DAYS[leap][mon] + m < 365 + leap
      invariant DaysBefore(year + 1900) + JULIAN_DAYS[leap][mon] + m == target
      decreases 12 - mon
    {
      MonthTable(leap, mon);
      m := m - DAYS_IN_MONTH[leap][mon];
      mon := mon + 1;
    }
  }

  /** The branch of gmtime64_r for days before 1970: m counts back from the end of the year. */
  method DateBackward(day: int) returns (year: int, mon: int, m: int)
    requires day < 0
    ensures 0 <= mon < 12
    ensures 0 <= m < DAYS_IN_MONTH[IsLeapTm(year)][mon]
    ensures DaysBefore(year + 1900) + JULIAN_DAYS[IsLeapTm(year)][mon] + m == day
  {
    year := 69;
    m := day;
    var cycles := C.Div(m, DAYS_IN_CYCLE) + 1;
    NextCycle(1970, cycles);
    assert 1970 + 400 * cycles == 69 + cycles * 400 + 1901;
    if cycles != 0 {
      m := m - cycles * DAYS_IN_CYCLE;
      year := year + cycles * 400;
    }
    while m < -LengthOfYear(year)
      invariant m < 0
      invariant DaysBefore(year + 1901) + m == day
      decreases -m
    {
      NextYear(year + 1900);
      m := m + LengthOfYear(year);
      year := year - 1;
    }
    NextYear(year + 1900);
    var leap := IsLeapTm(year);
    MonthTable(leap, 11);
    mon := 11;
    while m < -DAYS_IN_MONTH[leap][mon]
      invariant 0 <= mon < 12 && m < 0
      invariant JULIAN_DAYS[leap][mon] + DAYS_IN_MONTH[leap][mon] + m >= 0
      invariant DaysBefore(year + 1900) + JULIAN_DAYS[leap][mon] + DAYS_IN_MONTH[leap][mon] + m == day
      decreases mon
    {
      m := m + DAYS_IN_MONTH[leap][mon];
      mon := mon - 1;
      MonthTable(leap, mon);
    }
    m := m + DAYS_IN_MONTH[leap][mon];
  }

  lemma YearInRange(d: TM, t: int)
    requires IsUtcOf(d, t)
    ensures GM_TIME_MIN <= t <= GM_TIME_MAX <==> INT_MIN <= d.year <= INT_MAX
  {
    YdayRange(d);
    InstantInYear(d.year, EpochDay(d), TimeOfDay(d), INT_MIN);
    InstantInYear(d.year, EpochDay(d), TimeOfDay(d), INT_MAX + 1);
  }

  /** An instant of year n comes before the start of year limit exactly when n does. */
  lemma InstantInYear(n: int, day: int, time: int, limit: int)
    requires DaysBefore(n + 1900) <= day < DaysBefore(n + 1900) + LengthOfYear(n)
    requires 0 <= time < 86400
    ensures day * 86400 + time < DaysBefore(limit + 1900) * 86400 <==> n < limit
  {
    if n < limit {
      YearsOrdered(n + 1900, limit + 1900);
    } else if limit < n {
      YearsOrdered(limit + 1900, n + 1900);
    }
  }

  /** gmtime64_r. None stands for the NULL result. */
  method GmTime64(inTime: int) returns (r: Option<TM>)
    ensures r.Some? <==> GM_TIME_MIN <= inTime <= GM_TIME_MAX
    ensures r.Some? ==> IsUtcOf(r.value, inTime) && INT_MIN <= r.value.year <= INT_MAX
    ensures r.Some? ==> CheckTm(r.value)
    ensures forall d: TM | IsUtcOf(d, inTime) && INT_MIN <= d.year <= INT_MAX :: r == Some(d)
  {
    var sec, min, hour, tday := ClockFields(inTime);
    var wday := Weekday(tday);
    var m := tday;
    var year := 70;
    if m >= CHEAT_DAYS {
      year := CHEAT_YEARS;
      m := m - CHEAT_DAYS;
    }
    DaysBeforeIsPosix(2008);
    assert DaysBefore(year + 1900) + m == tday;
    var mon;
    if m >= 0 {
      year, mon, m := DateForward(year, m);
    } else {
      year, mon, m := DateBackward(m);
    }
    var p := TM(sec, min, hour, m + 1, mon, year, wday, JULIAN_DAYS[IsLeapTm(year)][mon] + m);
    assert EpochDay(p) == tday;
    assert EpochSeconds(p) == inTime;
    assert IsUtcOf(p, inTime);
    YearInRange(p, inTime);
    forall d: TM | IsUtcOf(d, inTime) ensures d == p {
      UtcUnique(d, p);
    }
    if !(INT_MIN <= year <= INT_MAX) {
      return None;
    }
    ValidPassesCheckTm(p);
    assert CheckTm(p);
    return Some(p);
  }
}
