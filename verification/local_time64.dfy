/** src/common/time64.c: local time beyond the range of the system functions. The system's
    localtime and mktime are taken to be exact for a zone at a fixed offset from UTC. */
module LocalTime64 {
  import opened Wrappers
  import opened Calendar
  import opened SafeYears
  import opened Time64
  import C = CTruncation

  const SYSTEM_LOCALTIME_MAX := 2147483647
  const SYSTEM_LOCALTIME_MIN := -2147483648

  const SYSTEM_MKTIME_MAX := TM(7, 14, 19, 18, 0, 138, 1, 17)
  const SYSTEM_MKTIME_MIN := TM(52, 45, 12, 13, 11, 1, 5, 346)

  const SECONDS_IN_CYCLE := DAYS_IN_CYCLE * 86400

  /** A zone is less than a day away from UTC. */
  type Offset = o: int | -86400 < o < 86400

  lemma SystemRangeInside()
    ensures GM_TIME_MIN <= SYSTEM_LOCALTIME_MIN - 86400
    ensures SYSTEM_LOCALTIME_MAX + 86400 <= GM_TIME_MAX
  {
    DaysBeforeIsPosix(INT_MIN + 1900);
    DaysBeforeIsPosix(INT_MAX + 1901);
  }

  /** The system's localtime: the UTC fields of the shifted instant. */
  method SystemLocalTime(t: int, offset: Offset) returns (d: TM)
    requires SYSTEM_LOCALTIME_MIN <= t <= SYSTEM_LOCALTIME_MAX
    ensures IsUtcOf(d, t + offset)
  {
    SystemRangeInside();
    var r := GmTime64(t + offset);
    d := r.value;
  }

  /** The system's mktime on an existing date; it does not read the weekday and the day of the
      year. */
  method SystemMkTime(d: TM, offset: Offset) returns (t: int)
    requires ValidDate(d)
    ensures t == EpochSeconds(d) - offset
  {
    t := TimeGm64(d);
    t := t - offset;
  }

  // ----- seconds_between_years and mktime64

  /** IS_LEAP_ABS: the source's third test for leap years has a sign condition of its own. */
  function LengthAbs(n: int): int {
    if n % 400 == 0 || (n % 4 == 0 && n % 100 != 0 && n > 0) then 366 else 365
  }

  lemma LengthAbsPositive(n: int)
    ensures n > 0 ==> LengthAbs(n) == YearLength(n)
    ensures 365 <= LengthAbs(n) <= YearLength(n) <= 366
  {
  }

  /** What the downward loop adds up: the lengths of the years lo+1 to hi. */
  function SumAbs(lo: int, hi: int): int
    requires lo <= hi
    decreases hi - lo
  {
    if lo == hi then 0 else LengthAbs(hi) + SumAbs(lo, hi - 1)
  }

  lemma {:induction false} SumAbsBounds(lo: int, hi: int)
    requires lo <= hi
    ensures 365 * (hi - lo) <= SumAbs(lo, hi)
    ensures lo >= 0 ==> SumAbs(lo, hi) == DaysBefore(hi + 1) - DaysBefore(lo + 1)
    decreases hi - lo
  {
    if lo < hi {
      SumAbsBounds(lo, hi - 1);
      NextYear(hi);
      LengthAbsPositive(hi);
    }
  }

  /** The left year after the 400-year reduction, and the number of cycles taken out.
      Below 1600 the source moves the year away from 1600 instead of toward it. */
  function ReducedLeft(left: int): (r: (int, int)) {
    if left > 2400 then
      var c := C.Div(left - 2400, 400);
      (left - c * 400, c)
    else if left < 1600 then
      var c := C.Div(left - 1600, 400);
      (left + c * 400, c)
    else
      (left, 0)
  }

  /** seconds_between_years, for a right year such as safe_year produces. */
  method SecondsBetweenYears(left: int, right: int) returns (seconds: int)
    requires MIN_SAFE_YEAR <= right <= MAX_SAFE_YEAR
    requires left < MIN_SAFE_YEAR || left > MAX_SAFE_YEAR
    ensures left > right ==> seconds == (DaysBefore(left) - DaysBefore(right)) * 86400
    ensures left < right ==>
              var (low, c) := ReducedLeft(left);
              low <= right && seconds == c * SECONDS_IN_CYCLE - SumAbs(low, right) * 86400
  {
    var increment := if left > right then 1 else -1;
    seconds := 0;
    var leftYear := left;
    var rightYear := right;
    ghost var cycles := 0;
    if leftYear > 2400 {
      var c := C.Div(leftYear - 2400, 400);
      leftYear := leftYear - c * 400;
      seconds := seconds + c * SECONDS_IN_CYCLE;
      cycles := c;
    } else if leftYear < 1600 {
      var c := C.Div(leftYear - 1600, 400);
      leftYear := leftYear + c * 400;
      seconds := seconds + c * SECONDS_IN_CYCLE;
      cycles := c;
    }
    assert ReducedLeft(left) == (leftYear, cycles);
    if increment > 0 {
      NextCycle(leftYear, cycles);
      assert left == leftYear + 400 * cycles;
      while leftYear != rightYear
        invariant right <= rightYear <= leftYear
        invariant seconds == cycles * SECONDS_IN_CYCLE + (DaysBefore(rightYear) - DaysBefore(right)) * 86400
        decreases leftYear - rightYear
      {
        NextYear(rightYear);
        LengthAbsPositive(rightYear);
        seconds := seconds + LengthAbs(rightYear) * 60 * 60 * 24;
        rightYear := rightYear + 1;
      }
    } else {
      while leftYear != rightYear
        invariant leftYear <= rightYear <= right
        invariant seconds == cycles * SECONDS_IN_CYCLE - (SumAbs(leftYear, right) - SumAbs(leftYear, rightYear)) * 86400
        decreases rightYear - leftYear
      {
        seconds := seconds - LengthAbs(rightYear) * 60 * 60 * 24;
        rightYear := rightYear - 1;
      }
    }
  }

  /** The downward sum is the true distance exactly for left years after 1200: the years
      left+1 to right are as long together as left to right-1 because the two ends have the
      same leap status; up to year 1200 the wrong sign makes the result too small. */
  lemma DownwardSumExact(left: int, right: int)
    requires MIN_SAFE_YEAR <= right <= MAX_SAFE_YEAR && left < MIN_SAFE_YEAR
    requires IsLeap(left) == IsLeap(right)
    ensures var (low, c) := ReducedLeft(left);
            low <= right &&
            (c * SECONDS_IN_CYCLE - SumAbs(low, right) * 86400
             == (DaysBefore(left) - DaysBefore(right)) * 86400
             <==> left > 1200)
  {
    hide DaysBefore, SumAbs, IsLeap;
    if left > 1200 {
      SumAbsBounds(left, right);
      NextYear(left);
      NextYear(right);
    } else {
      var (low, c) := ReducedLeft(left);
      ReducedTooFar(left);
      SumAbsBounds(low, right);
      DistanceAtMost(left, right);
      WrongSignFallsShort(left, right, c, SumAbs(low, right), DaysBefore(right) - DaysBefore(left));
    }
  }

  /** Year 1200 is the last for which it is wrong. */
  lemma DownwardSumFails()
    ensures var right := SafeYear(1200);
            var (low, c) := ReducedLeft(1200);
            low <= right
            && c * SECONDS_IN_CYCLE - SumAbs(low, right) * 86400 != (DaysBefore(1200) - DaysBefore(right)) * 86400
  {
    SafeYearMatches(1200);
    DownwardSumExact(1200, SafeYear(1200));
  }

  lemma ReducedTooFar(left: int)
    requires left <= 1200
    ensures var (low, c) := ReducedLeft(left); low == left + 400 * c && 400 * c <= left - 1200 && c <= -1
  {
  }

  lemma WrongSignFallsShort(left: int, right: int, c: int, sum: int, distance: int)
    requires left <= 1200 && right <= MAX_SAFE_YEAR
    requires c <= -1 && 400 * c <= left - 1200
    requires sum >= 365 * (right - (left + 400 * c))
    requires distance <= 366 * (right - left)
    ensures c * SECONDS_IN_CYCLE - sum * 86400 < -distance * 86400
  {
    assert c * DAYS_IN_CYCLE - sum < -distance;
  }

  lemma {:induction false} DistanceAtMost(left: int, right: int)
    requires left <= right
    ensures DaysBefore(right) - DaysBefore(left) <= 366 * (right - left)
    decreases right - left
  {
    if left < right {
      DistanceAtMost(left, right - 1);
      NextYear(right - 1);
    }
  }

  /** cmp_date: -1, 0 or 1 as left comes before, with or after right. */
  function CmpDate(left: TM, right: TM): int {
    if left.year > right.year then 1
    else if left.year < right.year then -1
    else if left.mon > right.mon then 1
    else if left.mon < right.mon then -1
    else if left.mday > right.mday then 1
    else if left.mday < right.mday then -1
    else if left.hour > right.hour then 1
    else if left.hour < right.hour then -1
    else if left.min > right.min then 1
    else if left.min < right.min then -1
    else if left.sec > right.sec then 1
    else if left.sec < right.sec then -1
    else 0
  }

  predicate DateInSafeRange(date: TM, min: TM, max: TM) {
    CmpDate(date, min) != -1 && CmpDate(date, max) != 1
  }

  /** On valid dates cmp_date is the order of the instants. */
  lemma CmpDateOrdersInstants(a: TM, b: TM)
    requires ValidUtc(a) && ValidUtc(b)
    ensures CmpDate(a, b) == -1 <==> EpochSeconds(a) < EpochSeconds(b)
    ensures CmpDate(a, b) == 0 <==> EpochSeconds(a) == EpochSeconds(b)
  {
    if CmpDate(a, b) == -1 {
      CmpDateBefore(a, b);
    } else if CmpDate(a, b) == 1 {
      CmpDateBefore(b, a);
    }
  }

  lemma CmpDateBefore(a: TM, b: TM)
    requires ValidUtc(a) && ValidUtc(b)
    requires CmpDate(a, b) == -1
    ensures EpochSeconds(a) < EpochSeconds(b)
  {
    if (a.year, a.mon, a.mday) == (b.year, b.mon, b.mday) {
      assert TimeOfDay(a) < TimeOfDay(b);
    } else {
      EarlierDay(a, b);
      DaysOrdered(EpochDay(a), TimeOfDay(a), EpochDay(b), TimeOfDay(b));
    }
  }

  lemma EarlierDay(a: TM, b: TM)
    requires ValidUtc(a) && ValidUtc(b)
    requires CmpDate(a, b) == -1 && (a.year, a.mon, a.mday) != (b.year, b.mon, b.mday)
    ensures EpochDay(a) < EpochDay(b)
  {
    YdayRange(a);
    YdayRange(b);
    if a.year < b.year {
      YearsOrdered(a.year + 1900, b.year + 1900);
    } else if a.mon < b.mon {
      MonthsOrdered(IsLeapTm(a.year), a.mon, b.mon);
    }
  }

  lemma DaysOrdered(day: int, time: int, day': int, time': int)
    requires day < day' && 0 <= time < 86400 && 0 <= time' < 86400
    ensures day * 86400 + time < day' * 86400 + time'
  {
  }

  /** A valid date moved to a year with the same calendar, its weekday left to mktime. */
  function InYear(d: TM, year: int): TM
    requires 0 <= d.mon < 12
  {
    var e := d.(year := year);
    e.(wday := (EpochDay(e) + 4) % 7)
  }

  lemma DateShifts(d: TM, year: int)
    requires ValidDate(d) && IsLeap(year + 1900) == IsLeap(d.year + 1900)
    ensures ValidDate(d.(year := year))
    ensures EpochSeconds(d) ==
            EpochSeconds(d.(year := year)) + (DaysBefore(d.year + 1900) - DaysBefore(year + 1900)) * 86400
  {
  }

  /** mktime64. The result is the local date's instant exactly when the system function
      could do it itself or the year is after 1200. */
  method MkTime64(inputDate: TM, offset: Offset) returns (time: int)
    requires ValidDate(inputDate)
    ensures time == EpochSeconds(inputDate) - offset
            <==> DateInSafeRange(inputDate, SYSTEM_MKTIME_MIN, SYSTEM_MKTIME_MAX) || inputDate.year + 1900 > 1200
  {
    var year := inputDate.year + 1900;
    if DateInSafeRange(inputDate, SYSTEM_MKTIME_MIN, SYSTEM_MKTIME_MAX) {
      time := SystemMkTime(inputDate, offset);
      return;
    }
    SafeYearMatches(year);
    var safe := SafeYear(year);
    var date := inputDate.(year := safe - 1900);
    DateShifts(inputDate, safe - 1900);
    time := SystemMkTime(date, offset);
    var between := SecondsBetweenYears(year, safe);
    if year < MIN_SAFE_YEAR {
      DownwardSumExact(year, safe);
    }
    time := time + between;
  }

  // ----- localtime64_r

  /** An instant before 1902 or after 2037 has a UTC year there. */
  lemma OutsideSystemRange(d: TM, t: int)
    requires IsUtcOf(d, t)
    ensures t < SYSTEM_LOCALTIME_MIN ==> d.year < 70
    ensures t > SYSTEM_LOCALTIME_MAX ==> d.year > 137
  {
    YdayRange(d);
    DaysBeforeIsPosix(2038);
    InstantInYear(d.year, EpochDay(d), TimeOfDay(d), 70);
    InstantInYear(d.year, EpochDay(d), TimeOfDay(d), 138);
  }

  lemma SafeYearInstant(d: TM)
    requires ValidUtc(d) && MIN_SAFE_YEAR <= d.year + 1900 <= MAX_SAFE_YEAR
    ensures 0 <= EpochSeconds(d) <= SYSTEM_LOCALTIME_MAX - 86400
  {
    YdayRange(d);
    YearsOrdered(1970, d.year + 1900);
    YearsOrdered(d.year + 1900, 2038);
    DaysBeforeIsPosix(2038);
  }

  /** Where the shifted instant falls: in the same year, on the last day of the year before,
      or on the first day of the year after. */
  lemma NeighbourDay(a: TM, b: TM, offset: Offset)
    requires ValidUtc(a) && ValidUtc(b) && EpochSeconds(b) == EpochSeconds(a) + offset
    ensures b.year == a.year || b.year == a.year - 1 || b.year == a.year + 1
    ensures b.year == a.year ==> -1 <= b.yday - a.yday <= 1
    ensures b.year == a.year - 1 ==> a.yday == 0 && b.yday == LengthOfYear(b.year) - 1
    ensures b.year == a.year + 1 ==> b.yday == 0 && a.yday == LengthOfYear(a.year) - 1
    ensures b.mon - a.mon == 11 <==> b.year == a.year - 1
    ensures b.mon - a.mon == -11 <==> b.year == a.year + 1
  {
    YdayRange(a);
    YdayRange(b);
    DaysClose(EpochDay(a), TimeOfDay(a), EpochDay(b), TimeOfDay(b), offset);
    DayNeighbours(a.year + 1900, a.yday, b.year + 1900, b.yday);
    FirstMonth(a);
    FirstMonth(b);
    if b.year == a.year {
      MonthsNear(a, b);
    }
  }

  lemma DaysClose(day: int, time: int, day': int, time': int, offset: Offset)
    requires 0 <= time < 86400 && 0 <= time' < 86400
    requires day' * 86400 + time' == day * 86400 + time + offset
    ensures -1 <= day' - day <= 1
  {
  }

  lemma DayNeighbours(y: int, yday: int, y': int, yday': int)
    requires 0 <= yday < YearLength(y) && 0 <= yday' < YearLength(y')
    requires -1 <= DaysBefore(y') + yday' - (DaysBefore(y) + yday) <= 1
    ensures y' == y || y' == y - 1 || y' == y + 1
    ensures y' == y ==> -1 <= yday' - yday <= 1
    ensures y' == y - 1 ==> yday == 0 && yday' == YearLength(y') - 1
    ensures y' == y + 1 ==> yday' == 0 && yday == YearLength(y) - 1
  {
    NextYear(y);
    NextYear(y');
    if y' < y - 1 {
      YearsOrdered(y', y - 1);
      NextYear(y - 1);
    } else if y' > y + 1 {
      YearsOrdered(y + 1, y');
    }
  }

  lemma FirstMonth(d: TM)
    requires ValidUtc(d)
    ensures d.yday == 0 ==> d.mon == 0
    ensures d.yday == LengthOfYear(d.year) - 1 ==> d.mon == 11
  {
    var l := IsLeapTm(d.year);
    if d.mon > 0 {
      MonthsOrdered(l, 0, d.mon);
    }
    if d.mon < 11 {
      MonthsOrdered(l, d.mon, 11);
    }
  }

  lemma MonthsNear(a: TM, b: TM)
    requires ValidUtc(a) && ValidUtc(b) && a.year == b.year
    requires -1 <= b.yday - a.yday <= 1
    ensures -11 < b.mon - a.mon < 11
  {
  }

  /** The local date in the safe year, moved back to the original year as localtime64_r does
      it, is the local date; the correction of a 366th day never applies. */
  lemma SafeLocalDate(gm: TM, safe: TM, safeLocal: TM, offset: Offset) returns (d: TM)
    requires ValidUtc(gm) && ValidUtc(safe) && ValidUtc(safeLocal)
    requires safe == InYear(gm, safe.year)
    requires CalendarsMatch(gm.year + 1900, safe.year + 1900)
    requires EpochSeconds(safeLocal) == EpochSeconds(safe) + offset
    ensures IsUtcOf(d, EpochSeconds(gm) + offset)
    ensures safeLocal.mon - gm.mon == 11 ==> d == safeLocal.(year := gm.year - 1)
    ensures safeLocal.mon - gm.mon == -11 ==> d == safeLocal.(year := gm.year + 1)
    ensures safeLocal.mon - gm.mon !in {11, -11} ==> d == safeLocal.(year := gm.year)
    ensures IsLeap(d.year + 1900) || d.yday != 365
  {
    NeighbourDay(safe, safeLocal, offset);
    d := safeLocal.(year := gm.year + (safeLocal.year - safe.year));
    LocalDateMoves(gm.year + 1900, safe.year + 1900, safeLocal, d);
    SameDistance(gm, safe);
    SameInstant(EpochDay(d), EpochDay(safeLocal), EpochDay(gm), EpochDay(safe), TimeOfDay(safeLocal),
                TimeOfDay(gm), DaysBefore(gm.year + 1900) - DaysBefore(safe.year + 1900), offset);
    YdayRange(d);
  }

  /** A date in or next to year s keeps its fields when it moves with s to a matching year y. */
  lemma LocalDateMoves(y: int, s: int, a: TM, d: TM)
    requires CalendarsMatch(y, s)
    requires ValidUtc(a) && d == a.(year := a.year + (y - s))
    requires -1 <= a.year + 1900 - s <= 1
    requires a.year + 1900 == s + 1 ==> a.yday == 0
    ensures ValidUtc(d) && TimeOfDay(d) == TimeOfDay(a)
    ensures EpochDay(d) == EpochDay(a) + (DaysBefore(y) - DaysBefore(s))
  {
    assert 0 <= a.mon < 12;
    hide ValidUtc, TimeOfDay, DaysBefore, EpochDay, StartWeekday, IsLeap, LeapIndex;
    LocalDayMoves(y, s, a, d);
    WeekdayMoves(y, s, EpochDay(a), EpochDay(d));
    FieldsMove(a, d);
  }

  lemma FieldsMove(a: TM, d: TM)
    requires ValidUtc(a) && d == a.(year := d.year) && (EpochDay(d) + 4) % 7 == (EpochDay(a) + 4) % 7
    requires 1 <= d.mday <= DAYS_IN_MONTH[LeapIndex(d.year + 1900)][d.mon]
    requires d.yday == JULIAN_DAYS[LeapIndex(d.year + 1900)][d.mon] + d.mday - 1
    ensures ValidUtc(d) && TimeOfDay(d) == TimeOfDay(a)
  {
    hide EpochDay, LeapIndex;
  }

  lemma WeekdayMoves(y: int, s: int, day: int, day': int)
    requires StartWeekday(s) == StartWeekday(y) && day' == day + (DaysBefore(y) - DaysBefore(s))
    ensures (day' + 4) % 7 == (day + 4) % 7
  {
    hide DaysBefore;
    SameWeekday(day + 4, DaysBefore(s) + 4, DaysBefore(y) + 4);
  }

  lemma LocalDayMoves(y: int, s: int, a: TM, d: TM)
    requires CalendarsMatch(y, s)
    requires ValidUtc(a) && d == a.(year := a.year + (y - s))
    requires -1 <= a.year + 1900 - s <= 1
    requires a.year + 1900 == s + 1 ==> a.yday == 0
    ensures 1 <= d.mday <= DAYS_IN_MONTH[LeapIndex(d.year + 1900)][d.mon]
    ensures d.yday == JULIAN_DAYS[LeapIndex(d.year + 1900)][d.mon] + d.mday - 1
    ensures EpochDay(d) == EpochDay(a) + (DaysBefore(y) - DaysBefore(s))
  {
    hide DaysBefore, EpochDay;
    YearShift(y, s, a.year + 1900 - s);
    if a.year + 1900 == s + 1 {
      JanuaryFirst(a, d);
    } else {
      SameCalendar(a, d);
    }
  }

  lemma SameInstant(day: int, safeLocalDay: int, gmDay: int, safeDay: int, localTime: int, gmTime: int, shift: int,
                    offset: int)
    requires day == safeLocalDay + shift && gmDay == safeDay + shift
    requires safeLocalDay * 86400 + localTime == safeDay * 86400 + gmTime + offset
    ensures day * 86400 + localTime == gmDay * 86400 + gmTime + offset
  {
  }

  lemma SameDistance(gm: TM, safe: TM)
    requires ValidUtc(gm) && safe == InYear(gm, safe.year) && IsLeap(gm.year + 1900) == IsLeap(safe.year + 1900)
    ensures EpochDay(gm) == EpochDay(safe) + (DaysBefore(gm.year + 1900) - DaysBefore(safe.year + 1900))
    ensures TimeOfDay(gm) == TimeOfDay(safe)
  {
  }

  /** Matching years have matching neighbours. */
  lemma YearShift(y: int, s: int, n: int)
    requires IsLeap(s) == IsLeap(y) && IsLeap(s - 1) == IsLeap(y - 1) && -1 <= n <= 1
    ensures DaysBefore(y + n) - DaysBefore(s + n) == DaysBefore(y) - DaysBefore(s)
  {
    NextYear(y);
    NextYear(s);
    NextYear(y - 1);
    NextYear(s - 1);
  }

  lemma SameWeekday(a: int, s: int, y: int)
    requires s % 7 == y % 7
    ensures (a + (y - s)) % 7 == a % 7
  {
    assert y - s == 7 * (y / 7 - s / 7);
    assert a + (y - s) == a + 7 * (y / 7 - s / 7);
  }

  lemma SameCalendar(a: TM, b: TM)
    requires ValidUtc(a) && b == a.(year := b.year) && IsLeap(a.year + 1900) == IsLeap(b.year + 1900)
    ensures 1 <= b.mday <= DAYS_IN_MONTH[IsLeapTm(b.year)][b.mon]
    ensures b.yday == JULIAN_DAYS[IsLeapTm(b.year)][b.mon] + b.mday - 1
    ensures EpochDay(b) - EpochDay(a) == DaysBefore(b.year + 1900) - DaysBefore(a.year + 1900)
  {
  }

  lemma JanuaryFirst(a: TM, b: TM)
    requires ValidUtc(a) && b == a.(year := b.year) && a.yday == 0
    ensures 1 <= b.mday <= DAYS_IN_MONTH[IsLeapTm(b.year)][b.mon]
    ensures b.yday == JULIAN_DAYS[IsLeapTm(b.year)][b.mon] + b.mday - 1
    ensures EpochDay(b) - EpochDay(a) == DaysBefore(b.year + 1900) - DaysBefore(a.year + 1900)
  {
    FirstMonth(a);
  }

  /** localtime64_r: for every instant whose UTC year fits an int the result is, field by
      field, the UTC form of the instant shifted by the zone offset. */
  method LocalTime64(time: int, offset: Offset) returns (r: Option<TM>)
    ensures r.Some? <==> GM_TIME_MIN <= time <= GM_TIME_MAX
    ensures r.Some? ==> IsUtcOf(r.value, time + offset)
    ensures r.Some? ==> CheckTm(r.value)
  {
    if SYSTEM_LOCALTIME_MIN <= time <= SYSTEM_LOCALTIME_MAX {
      SystemRangeInside();
      var safeDate := SystemLocalTime(time, offset);
      ValidPassesCheckTm(safeDate);
      assert CheckTm(safeDate);
      return Some(safeDate);
    }
    var gm := GmTime64(time);
    if gm == None {
      return None;
    }
    var local := FixYear(gm.value, time, offset);
    ValidPassesCheckTm(local);
    assert CheckTm(local);
    return Some(local);
  }

  /** The part of localtime64_r after gmtime64_r: map the year, ask the system, map it back. */
  method FixYear(gm: TM, ghost time: int, offset: Offset) returns (local: TM)
    requires IsUtcOf(gm, time)
    requires time < SYSTEM_LOCALTIME_MIN || time > SYSTEM_LOCALTIME_MAX
    ensures IsUtcOf(local, time + offset)
  {
    OutsideSystemRange(gm, time);
    var gmTm := gm;
    var origYear := gmTm.year;
    if gmTm.year > 2037 - 1900 || gmTm.year < 1970 - 1900 {
      gmTm := gmTm.(year := SafeYear(gmTm.year + 1900) - 1900);
    }
    ghost var safe := SafeDate(gm);
    var safeTime := TimeGm64(gmTm);
    SameEpoch(gmTm, safe);
    local := SystemLocalTime(safeTime, offset);
    ghost var d := SafeLocalDate(gm, safe, local, offset);
    local := MapBack(local, gmTm, origYear, d);
  }

  /** The UTC date in its safe year. */
  lemma SafeDate(gm: TM) returns (safe: TM)
    requires ValidUtc(gm)
    ensures safe == InYear(gm, SafeYear(gm.year + 1900) - 1900) && ValidUtc(safe)
    ensures CalendarsMatch(gm.year + 1900, safe.year + 1900)
    ensures 0 <= EpochSeconds(safe) <= SYSTEM_LOCALTIME_MAX - 86400
  {
    SafeYearMatches(gm.year + 1900);
    hide DaysBefore, SafeYear, IsLeap;
    safe := InYear(gm, SafeYear(gm.year + 1900) - 1900);
    DateShifts(gm, safe.year);
    SafeYearInstant(safe);
  }

  /** The end of localtime64_r: the original year again, one less when the local month is
      eleven after the UTC month, one more when it is eleven before. */
  method MapBack(safeLocal: TM, gmTm: TM, origYear: int, ghost d: TM) returns (local: TM)
    requires safeLocal.mon - gmTm.mon == 11 ==> d == safeLocal.(year := origYear - 1)
    requires safeLocal.mon - gmTm.mon == -11 ==> d == safeLocal.(year := origYear + 1)
    requires safeLocal.mon - gmTm.mon !in {11, -11} ==> d == safeLocal.(year := origYear)
    requires IsLeap(d.year + 1900) || d.yday != 365
    ensures local == d
  {
    var monthDiff := safeLocal.mon - gmTm.mon;
    local := safeLocal.(year := origYear);
    if monthDiff == 11 {
      local := local.(year := local.year - 1);
    }
    if monthDiff == -11 {
      local := local.(year := local.year + 1);
    }
    if !IsLeap(local.year + 1900) && local.yday == 365 {
      local := local.(yday := local.yday - 1);
    }
  }

  lemma SameEpoch(a: TM, b: TM)
    requires 0 <= a.mon < 12 && b == a.(wday := b.wday)
    ensures EpochSeconds(a) == EpochSeconds(b)
  {
  }
}
