/** The proleptic Gregorian calendar: the reference that the loops of time64.c are proved
    against. Days are counted year by year; that count is then shown to be the formula of
    POSIX.1-2017 ("Seconds Since the Epoch", section 4.16 of the Base Definitions), with the
    divisions read as floors so that it covers every integer year. */
module Calendar {

  /** struct tm. The year counts from 1900, the month from 0. */
  datatype TM = TM(sec: int, min: int, hour: int, mday: int, mon: int, year: int, wday: int, yday: int)

  const DAYS_IN_CYCLE := 365 * 400 + 100 - 4 + 1

  const DAYS_IN_MONTH: seq<seq<int>> := [
    [31, 28, 31, 30, 31, 30, 31, 31, 30, 31, 30, 31],
    [31, 29, 31, 30, 31, 30, 31, 31, 30, 31, 30, 31]
  ]

  const JULIAN_DAYS: seq<seq<int>> := [
    [0, 31, 59, 90, 120, 151, 181, 212, 243, 273, 304, 334],
    [0, 31, 60, 91, 121, 152, 182, 213, 244, 274, 305, 335]
  ]

  predicate IsLeap(y: int) {
    y % 400 == 0 || (y % 4 == 0 && y % 100 != 0)
  }

  function LeapIndex(y: int): nat {
    if IsLeap(y) then 1 else 0
  }

  function YearLength(y: int): int {
    if IsLeap(y) then 366 else 365
  }

  /** Days from 1 January 1970 to 1 January of year y, counted one year at a time. */
  function DaysBefore(y: int): int
    decreases if y < 1970 then 1970 - y else y - 1970
  {
    if y == 1970 then 0
    else if y > 1970 then DaysBefore(y - 1) + YearLength(y - 1)
    else DaysBefore(y + 1) - YearLength(y)
  }

  /** The weekday (0 is Sunday) on which year y starts. */
  function StartWeekday(y: int): int {
    (DaysBefore(y) + 4) % 7
  }

  function EpochDay(d: TM): int
    requires 0 <= d.mon < 12
  {
    DaysBefore(d.year + 1900) + JULIAN_DAYS[LeapIndex(d.year + 1900)][d.mon] + d.mday - 1
  }

  function TimeOfDay(d: TM): int {
    d.hour * 3600 + d.min * 60 + d.sec
  }

  function EpochSeconds(d: TM): int
    requires 0 <= d.mon < 12
  {
    EpochDay(d) * 86400 + TimeOfDay(d)
  }

  /** The fields name an existing second; the two derived fields may say anything. */
  predicate ValidDate(d: TM) {
    && 0 <= d.sec < 60 && 0 <= d.min < 60 && 0 <= d.hour < 24
    && 0 <= d.mon < 12
    && 1 <= d.mday <= DAYS_IN_MONTH[LeapIndex(d.year + 1900)][d.mon]
  }

  /** The derived fields agree with the others. */
  predicate ValidUtc(d: TM) {
    && ValidDate(d)
    && d.yday == JULIAN_DAYS[LeapIndex(d.year + 1900)][d.mon] + d.mday - 1
    && d.wday == (EpochDay(d) + 4) % 7
  }

  /** d is the broken-down form of the instant t. */
  predicate IsUtcOf(d: TM, t: int) {
    ValidUtc(d) && EpochSeconds(d) == t
  }

  lemma NextYear(y: int)
    ensures DaysBefore(y + 1) == DaysBefore(y) + YearLength(y)
  {
  }

  // The three floors of the POSIX formula.
  function Fours(y: int): int { (y - 1969) / 4 }
  function Hundreds(y: int): int { (y - 1901) / 100 }
  function FourHundreds(y: int): int { (y - 1601) / 400 }

  function PosixDays(y: int): int {
    365 * (y - 1970) + Fours(y) - Hundreds(y) + FourHundreds(y)
  }

  lemma FloorSteps(y: int)
    ensures Fours(y + 1) == Fours(y) + if y % 4 == 0 then 1 else 0
    ensures Hundreds(y + 1) == Hundreds(y) + if y % 100 == 0 then 1 else 0
    ensures FourHundreds(y + 1) == FourHundreds(y) + if y % 400 == 0 then 1 else 0
  {
  }

  lemma Divisibility(y: int)
    ensures y % 400 == 0 ==> y % 100 == 0
    ensures y % 100 == 0 ==> y % 4 == 0
  {
  }

  lemma PosixStep(y: int)
    ensures PosixDays(y + 1) == PosixDays(y) + YearLength(y)
  {
    FloorSteps(y);
    Divisibility(y);
  }

  /** Counting year by year gives the POSIX formula, before 1970 as well as after. */
  lemma {:induction false} DaysBeforeIsPosix(y: int)
    ensures DaysBefore(y) == PosixDays(y)
    decreases if y < 1970 then 1970 - y else y - 1970
  {
    if y > 1970 {
      DaysBeforeIsPosix(y - 1);
      PosixStep(y - 1);
    } else if y < 1970 {
      DaysBeforeIsPosix(y + 1);
      PosixStep(y);
    }
  }

  lemma LeapCycle(y: int, k: int)
    ensures IsLeap(y + 400 * k) == IsLeap(y)
  {
    CycleMod4(y, k);
    CycleMod100(y, k);
    CycleMod400(y, k);
  }

  lemma CycleMod4(y: int, k: int)
    ensures (y + 400 * k) % 4 == y % 4
  {
    assert (y + 400 * k) / 4 == y / 4 + 100 * k;
  }

  lemma CycleMod100(y: int, k: int)
    ensures (y + 400 * k) % 100 == y % 100
  {
    assert (y + 400 * k) / 100 == y / 100 + 4 * k;
  }

  lemma CycleMod400(y: int, k: int)
    ensures (y + 400 * k) % 400 == y % 400
  {
    assert (y + 400 * k) / 400 == y / 400 + k;
  }

  lemma FloorsOverCycle(y: int, k: int)
    ensures Fours(y + 400 * k) == Fours(y) + 100 * k
    ensures Hundreds(y + 400 * k) == Hundreds(y) + 4 * k
    ensures FourHundreds(y + 400 * k) == FourHundreds(y) + k
  {
  }

  /** The calendar repeats every 400 years. */
  lemma NextCycle(y: int, k: int)
    ensures DaysBefore(y + 400 * k) == DaysBefore(y) + DAYS_IN_CYCLE * k
    ensures IsLeap(y + 400 * k) == IsLeap(y)
  {
    DaysBeforeIsPosix(y);
    DaysBeforeIsPosix(y + 400 * k);
    FloorsOverCycle(y, k);
    LeapCycle(y, k);
  }

  /** Years do not overlap. */
  lemma {:induction false} YearsOrdered(a: int, b: int)
    requires a < b
    ensures DaysBefore(a) + YearLength(a) <= DaysBefore(b)
    decreases b - a
  {
    NextYear(b - 1);
    if a < b - 1 {
      YearsOrdered(a, b - 1);
    }
  }

  /** The cumulative table is the running sum of the month lengths. */
  lemma MonthTable(l: nat, m: nat)
    requires l < 2 && m < 12
    ensures JULIAN_DAYS[l][m] + DAYS_IN_MONTH[l][m] == if m == 11 then 365 + l else JULIAN_DAYS[l][m + 1]
    ensures 28 <= DAYS_IN_MONTH[l][m] <= 31
  {
  }

  /** Months do not overlap. */
  lemma {:induction false} MonthsOrdered(l: nat, a: nat, b: nat)
    requires l < 2 && a < b < 12
    ensures JULIAN_DAYS[l][a] + DAYS_IN_MONTH[l][a] <= JULIAN_DAYS[l][b]
    decreases b
  {
    MonthTable(l, b - 1);
    if a < b - 1 {
      MonthsOrdered(l, a, b - 1);
    }
  }

  lemma YdayRange(d: TM)
    requires ValidUtc(d)
    ensures 0 <= d.yday < YearLength(d.year + 1900)
  {
    var l := LeapIndex(d.year + 1900);
    MonthTable(l, d.mon);
    if d.mon < 11 {
      MonthsOrdered(l, d.mon, 11);
      MonthTable(l, 11);
    }
    if d.mon > 0 {
      MonthsOrdered(l, 0, d.mon);
    }
  }

  lemma TimeOfDayUnique(a: TM, b: TM)
    requires ValidUtc(a) && ValidUtc(b)
    requires TimeOfDay(a) == TimeOfDay(b)
    ensures a.hour == b.hour && a.min == b.min && a.sec == b.sec
  {
  }

  lemma MonthUnique(a: TM, b: TM)
    requires ValidUtc(a) && ValidUtc(b)
    requires a.year == b.year && a.yday == b.yday
    ensures a.mon == b.mon && a.mday == b.mday
  {
    var l := LeapIndex(a.year + 1900);
    if a.mon < b.mon {
      MonthsOrdered(l, a.mon, b.mon);
    } else if b.mon < a.mon {
      MonthsOrdered(l, b.mon, a.mon);
    }
  }

  /** A day number fixes the year and the day in the year. */
  lemma YearUnique(y: int, yday: int, y': int, yday': int)
    requires 0 <= yday < YearLength(y) && 0 <= yday' < YearLength(y')
    requires DaysBefore(y) + yday == DaysBefore(y') + yday'
    ensures y == y' && yday == yday'
  {
    if y < y' {
      YearsOrdered(y, y');
    } else if y' < y {
      YearsOrdered(y', y);
    }
  }

  lemma SecondsSplit(day: int, time: int, day': int, time': int)
    requires 0 <= time < 86400 && 0 <= time' < 86400
    requires day * 86400 + time == day' * 86400 + time'
    ensures day == day' && time == time'
  {
  }

  /** Two valid dates that name the same instant are the same date, field by field. */
  lemma UtcUnique(a: TM, b: TM)
    requires ValidUtc(a) && ValidUtc(b)
    requires EpochSeconds(a) == EpochSeconds(b)
    ensures a == b
  {
    SecondsSplit(EpochDay(a), TimeOfDay(a), EpochDay(b), TimeOfDay(b));
    YdayRange(a);
    YdayRange(b);
    YearUnique(a.year + 1900, a.yday, b.year + 1900, b.yday);
    TimeOfDayUnique(a, b);
    MonthUnique(a, b);
  }
}
