/** src/common/time64.c: the mapping of any year onto a year that a 32-bit time_t holds. */
module SafeYears {
  import opened Calendar
  import C = CTruncation

  const MAX_SAFE_YEAR := 2037
  const MIN_SAFE_YEAR := 1971
  const SOLAR_CYCLE_LENGTH := 28

  const SAFE_YEARS_HIGH: seq<int> := [
    2016, 2017, 2018, 2019,
    2020, 2021, 2022, 2023,
    2024, 2025, 2026, 2027,
    2028, 2029, 2030, 2031,
    2032, 2033, 2034, 2035,
    2036, 2037, 2010, 2011,
    2012, 2013, 2014, 2015
  ]

  const SAFE_YEARS_LOW: seq<int> := [
    1996, 1997, 1998, 1971,
    1972, 1973, 1974, 1975,
    1976, 1977, 1978, 1979,
    1980, 1981, 1982, 1983,
    1984, 1985, 1986, 1987,
    1988, 1989, 1990, 1991,
    1992, 1993, 1994, 1995
  ]

  predicate IsExceptionCentury(year: int) {
    C.Mod(year, 100) == 0 && C.Mod(year, 400) != 0
  }

  function CycleOffset(year: int): int {
    var diff := if year > 2000 then year - 2001 else year - 2000;
    (C.Div(diff, 100) - C.Div(diff, 400)) * 16
  }

  /** The position in the 28-year cycle before it is reduced. */
  function YearCycle(year: int): int {
    year + CycleOffset(year)
    + (if year < MIN_SAFE_YEAR then -8 else 0)
    + (if IsExceptionCentury(year) then 11 else 0)
    + (if IsExceptionCentury(year - 1) then 17 else 0)
  }

  function Reduce(cycle: int): (r: int)
    ensures 0 <= r < SOLAR_CYCLE_LENGTH
    ensures exists k :: cycle == r + SOLAR_CYCLE_LENGTH * k
  {
    var c := C.Mod(cycle, SOLAR_CYCLE_LENGTH);
    var r := if c < 0 then SOLAR_CYCLE_LENGTH + c else c;
    assert cycle == r + SOLAR_CYCLE_LENGTH * (if c < 0 then C.Div(cycle, 28) - 1 else C.Div(cycle, 28));
    r
  }

  function SafeYear(year: int): (r: int)
    ensures MIN_SAFE_YEAR <= r <= MAX_SAFE_YEAR
  {
    if MIN_SAFE_YEAR <= year <= MAX_SAFE_YEAR then year
    else if year < MIN_SAFE_YEAR then SAFE_YEARS_LOW[Reduce(YearCycle(year))]
    else SAFE_YEARS_HIGH[Reduce(YearCycle(year))]
  }

  /** What one year must share with another to stand in for it. */
  ghost predicate CalendarsMatch(y: int, s: int) {
    && StartWeekday(s) == StartWeekday(y)
    && IsLeap(s) == IsLeap(y)
    && IsLeap(s - 1) == IsLeap(y - 1)
    && StartWeekday(s + 1) == StartWeekday(y + 1)
  }

  /** The Julian count: no exception centuries. */
  function JulianDays(y: int): int {
    365 * (y - 1970) + Fours(y)
  }

  /** Century exceptions counted from 1970. */
  function Exceptions(y: int): int {
    Hundreds(y) - FourHundreds(y)
  }

  lemma CycleOffsetCountsExceptions(y: int)
    ensures CycleOffset(y) == 16 * Exceptions(y)
  {
    if y > 2000 {
      assert Hundreds(y) == (y - 2001) / 100 + 1;
      assert FourHundreds(y) == (y - 2001) / 400 + 1;
    } else {
      CeilingByFloor(2000 - y);
      assert Hundreds(y) == (-(2000 - y) + 99) / 100;
      assert FourHundreds(y) == (-(2000 - y) + 399) / 400;
    }
  }

  lemma CeilingByFloor(n: int)
    requires n >= 0
    ensures (-n + 99) / 100 == -(n / 100)
    ensures (-n + 399) / 400 == -(n / 400)
  {
  }

  lemma ExceptionCenturies(y: int)
    ensures IsExceptionCentury(y) <==> y % 4 == 0 && !IsLeap(y)
    ensures IsLeap(y) ==> y % 4 == 0
  {
    Divisibility(y);
    CenturyMod(y);
    CycleMod(y);
  }

  lemma CenturyMod(y: int)
    ensures C.Mod(y, 100) == 0 <==> y % 100 == 0
  {
  }

  lemma CycleMod(y: int)
    ensures C.Mod(y, 400) == 0 <==> y % 400 == 0
  {
  }

  /** What safe_year adds for an exception century and for the year after one. */
  function Correction(y: int): int {
    (if IsExceptionCentury(y) then 11 else 0) + (if IsExceptionCentury(y - 1) then 17 else 0)
  }

  /** The year of the Julian cycle that stands in for y. */
  function Shifted(y: int): int {
    y + 16 * Exceptions(y) + Correction(y)
  }

  lemma CorrectionCases(y: int)
    ensures Correction(y) in {0, 11, 17}
    ensures Correction(y) == 0 ==> (IsLeap(y) <==> y % 4 == 0) && (IsLeap(y - 1) <==> (y - 1) % 4 == 0)
    ensures Correction(y) == 11 ==> y % 4 == 0 && !IsLeap(y) && !IsLeap(y - 1)
    ensures Correction(y) == 17 ==> y % 4 == 1 && !IsLeap(y) && !IsLeap(y - 1)
  {
    hide IsLeap, IsExceptionCentury;
    ExceptionCenturies(y);
    ExceptionCenturies(y - 1);
  }

  /** Both tables undo their own offset: the safe year is the shifted year, modulo 28. */
  lemma SafeYearInCycle(y: int) returns (k: int)
    requires y < MIN_SAFE_YEAR || y > MAX_SAFE_YEAR
    ensures SafeYear(y) == Shifted(y) + 28 * k
  {
    CycleOffsetCountsExceptions(y);
    var r := Reduce(YearCycle(y));
    var q :| YearCycle(y) == r + 28 * q;
    if y < MIN_SAFE_YEAR {
      assert SAFE_YEARS_LOW[r] == (if r < 3 then 1996 + r else 1968 + r);
      k := if r < 3 then 71 - q else 70 - q;
    } else {
      assert SAFE_YEARS_HIGH[r] == (if r < 22 then 2016 + r else 1988 + r);
      k := if r < 22 then 72 - q else 71 - q;
    }
  }

  lemma JulianShift(y: int, k: int)
    ensures JulianDays(y + 4 * k) == JulianDays(y) + 1461 * k
  {
    assert (y + 4 * k - 1969) / 4 == (y - 1969) / 4 + k;
  }

  /** Shifting by the cycle offset and the two century corrections keeps the weekday. */
  lemma ShiftedWeekday(y: int) returns (k: int)
    ensures JulianDays(Shifted(y)) == DaysBefore(y) + 7 * k
  {
    var e := Exceptions(y);
    var c := Correction(y);
    CorrectionCases(y);
    JulianShift(y, 4 * e);
    CycleKeepsFour(y, e, 16);
    DaysBeforeIsPosix(y);
    JulianCorrection(y + 4 * (4 * e), c);
    assert Shifted(y) == y + 4 * (4 * e) + c;
    assert JulianDays(y) == DaysBefore(y) + e;
    k := 835 * e + (if c == 11 then 574 else if c == 17 then 887 else 0);
  }

  lemma JulianCorrection(z: int, c: int)
    requires c == 0 || (c == 11 && z % 4 == 0) || (c == 17 && z % 4 == 1)
    ensures JulianDays(z + c) == JulianDays(z) + (if c == 11 then 4018 else if c == 17 then 6209 else 0)
  {
  }

  /** Between 1970 and 2038 the Gregorian calendar is the Julian one. */
  lemma NoExceptionsInSafeRange(s: int)
    requires 1970 <= s <= 2038
    ensures DaysBefore(s) == JulianDays(s)
    ensures IsLeap(s) <==> s % 4 == 0
  {
    DaysBeforeIsPosix(s);
    CenturiesInSafeRange(s);
  }

  lemma CenturiesInSafeRange(s: int)
    requires 1970 <= s <= 2038
    ensures Hundreds(s) == FourHundreds(s)
    ensures s % 100 == 0 ==> s % 400 == 0
    ensures s % 400 == 0 ==> s % 4 == 0
  {
  }

  lemma ShiftedLeap(y: int)
    ensures Shifted(y) % 4 == 0 <==> IsLeap(y)
    ensures (Shifted(y) - 1) % 4 == 0 <==> IsLeap(y - 1)
  {
    CorrectionCases(y);
    CycleKeepsFour(y, Exceptions(y), 16);
    FourWithCorrection(y + 16 * Exceptions(y), Correction(y));
  }

  lemma FourWithCorrection(z: int, c: int)
    requires c == 0 || (c == 11 && z % 4 == 0) || (c == 17 && z % 4 == 1)
    ensures c != 0 ==> (z + c) % 4 != 0 && (z + c - 1) % 4 != 0
  {
  }

  lemma WeekdayOf(a: int, b: int, k: int)
    requires a == b + 7 * k
    ensures (a + 4) % 7 == (b + 4) % 7
  {
  }

  lemma NextStartWeekday(y: int, s: int)
    requires StartWeekday(s) == StartWeekday(y) && IsLeap(s) == IsLeap(y)
    ensures StartWeekday(s + 1) == StartWeekday(y + 1)
  {
    NextYear(y);
    NextYear(s);
    AddDays(DaysBefore(s) + 4, DaysBefore(y) + 4, YearLength(y));
  }

  lemma AddDays(a: int, b: int, n: int)
    requires a % 7 == b % 7
    ensures (a + n) % 7 == (b + n) % 7
  {
    assert a == 7 * (a / 7) + b % 7;
    assert b == 7 * (b / 7) + b % 7;
    assert a + n == b + n + 7 * (a / 7 - b / 7);
  }

  /** For every integer year the safe year starts on the same weekday, has the same leap
      status, follows a year of the same leap status, and its successor starts alike. */
  lemma SafeYearMatches(y: int)
    ensures CalendarsMatch(y, SafeYear(y))
  {
    var s := SafeYear(y);
    if y < MIN_SAFE_YEAR || y > MAX_SAFE_YEAR {
      var k := SafeYearInCycle(y);
      var j := ShiftedWeekday(y);
      JulianShift(Shifted(y), 7 * k);
      assert JulianDays(s) == DaysBefore(y) + 7 * (1461 * k + j);
      NoExceptionsInSafeRange(s);
      NoExceptionsInSafeRange(s - 1);
      WeekdayOf(DaysBefore(s), DaysBefore(y), 1461 * k + j);
      ShiftedLeap(y);
      CycleKeepsFour(Shifted(y), k, 28);
      NextStartWeekday(y, s);
    }
  }

  lemma CycleKeepsFour(z: int, k: int, n: int)
    requires n == 16 || n == 28
    ensures (z + n * k) % 4 == z % 4
    ensures (z + n * k - 1) % 4 == (z - 1) % 4
  {
    var j := if n == 16 then 4 * k else 7 * k;
    assert z + n * k == z + 4 * j;
  }
}
