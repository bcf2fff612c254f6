/** Broken-down Gregorian time and 32-bit epoch seconds (src/time_android.c).

    The specification is declarative: a broken-down time is valid when a calendar could show it, and
    EpochSeconds says which second it names. The two conversion loops are proved against that, and the
    rest of the module proves that the correspondence is one to one, ordered, and the POSIX one. */
module Calendar {

  const SEC_IN_MINUTE := 60
  const SEC_IN_HOUR := 3600
  const SEC_IN_DAY := 86400
  const TWO_TO_THE_32 := 0x1_0000_0000
  const DAYS_BEFORE_MONTH: seq<int> := [0, 31, 59, 90, 120, 151, 181, 212, 243, 273, 304, 334]

  /** The fields of struct tm that the conversions use; the year counts from 1900, the month from 0. */
  datatype Tm = Tm(year: int, mon: int, mday: int, hour: int, min: int, sec: int)

  /** The last second a 32-bit count can name: 2106-02-07 06:28:15. */
  const LAST_TM := Tm(206, 1, 7, 6, 28, 15)

  predicate IsLeap(y: int) {
    y % 4 == 0 && (y % 100 != 0 || (y + 1900) % 400 == 0)
  }

  function DaysInYear(y: int): int {
    if IsLeap(y) then 366 else 365
  }

  /** Month lengths as a calendar prints them, independent of DAYS_BEFORE_MONTH. */
  function DaysInMonth(y: int, mon: int): int {
    if mon == 1 then (if IsLeap(y) then 29 else 28)
    else if mon == 3 || mon == 5 || mon == 8 || mon == 10 then 30
    else 31
  }

  predicate ValidDate(tm: Tm) {
    tm.year >= 70 && 0 <= tm.mon <= 11 && 1 <= tm.mday <= DaysInMonth(tm.year, tm.mon)
  }

  predicate Valid(tm: Tm) {
    ValidDate(tm) && 0 <= tm.hour < 24 && 0 <= tm.min < 60 && 0 <= tm.sec < 60
  }

  /** Days from 1970-01-01 to the first day of year y. */
  function YearStart(y: int): int
    decreases y
  {
    if y <= 70 then 0 else YearStart(y - 1) + DaysInYear(y - 1)
  }

  /** Days from the first day of year y to the first day of a month, by adding up month lengths. */
  function MonthStart(y: int, mon: int): int
    decreases mon
  {
    if mon <= 0 then 0 else MonthStart(y, mon - 1) + DaysInMonth(y, mon - 1)
  }

  function DayOfYear(tm: Tm): int {
    MonthStart(tm.year, tm.mon) + tm.mday - 1
  }

  function SecondOfDay(tm: Tm): int {
    tm.hour * SEC_IN_HOUR + tm.min * SEC_IN_MINUTE + tm.sec
  }

  function EpochDay(tm: Tm): int {
    YearStart(tm.year) + DayOfYear(tm)
  }

  /** The true number of seconds from the epoch to tm. */
  function EpochSeconds(tm: Tm): int {
    EpochDay(tm) * SEC_IN_DAY + SecondOfDay(tm)
  }

  predicate DateLess(a: Tm, b: Tm) {
    a.year < b.year || (a.year == b.year && (a.mon < b.mon || (a.mon == b.mon && a.mday < b.mday)))
  }

  /** Lexicographic order on (year, month, day, hour, minute, second). */
  predicate Less(a: Tm, b: Tm) {
    DateLess(a, b) ||
    (a.year == b.year && a.mon == b.mon && a.mday == b.mday &&
     (a.hour < b.hour || (a.hour == b.hour && (a.min < b.min || (a.min == b.min && a.sec < b.sec)))))
  }

  // ---- The two conversions ----

  /** ofc_time_make_time. The month indexes the table, so callers must pass 0 to 11; every other field
      is free. The sums wrap at 32 bits and are exact for every date from 1970 on. */
  method MakeTime(tm: Tm) returns (tim: int)
    requires 0 <= tm.mon <= 11
    ensures 0 <= tim < TWO_TO_THE_32
    ensures tim == EpochSeconds(tm) % TWO_TO_THE_32
  {
    TableMatchesMonths(tm.year, tm.mon);
    tim := (tm.sec + tm.min * SEC_IN_MINUTE + tm.hour * SEC_IN_HOUR) % TWO_TO_THE_32;
    var days := (tm.mday - 1) + DAYS_BEFORE_MONTH[tm.mon];
    if tm.mon > 1 && DaysInYear(tm.year) == 366 {
      days := days + 1;
    }
    if tm.year > 70 {
      var year := 70;
      while year < tm.year
        invariant 70 <= year <= tm.year
        invariant days == DayOfYear(tm) + YearStart(year)
      {
        days := days + DaysInYear(year);
        year := year + 1;
      }
    }
    WrapOnce(SecondOfDay(tm), days * SEC_IN_DAY);
    tim := (tim + days * SEC_IN_DAY) % TWO_TO_THE_32;
  }

  /** ofc_time_local_time. The loops terminate and find the valid date that names this second. */
  method LocalTime(time: nat) returns (tm: Tm)
    ensures Valid(tm)
    ensures EpochSeconds(tm) == time
  {
    var ticksInDay := time % SEC_IN_DAY;
    var year := 70;
    var daysInYear := time / SEC_IN_DAY;
    while daysInYear >= DaysInYear(year)
      invariant year >= 70 && daysInYear >= 0
      invariant YearStart(year) + daysInYear == time / SEC_IN_DAY
      decreases daysInYear
    {
      daysInYear := daysInYear - DaysInYear(year);
      year := year + 1;
    }
    ghost var dayOfYear := daysInYear;
    var mon: int;
    if DaysInYear(year) == 366 {
      if daysInYear == DAYS_BEFORE_MONTH[2] {
        mon := 1;
      } else {
        if daysInYear > DAYS_BEFORE_MONTH[2] {
          daysInYear := daysInYear - 1;
        }
        mon := FindMonth(daysInYear);
      }
    } else {
      mon := FindMonth(daysInYear);
    }
    var mday := daysInYear - DAYS_BEFORE_MONTH[mon] + 1;
    var hour := ticksInDay / SEC_IN_HOUR;
    var ticksInHour := ticksInDay % SEC_IN_HOUR;
    var min := ticksInHour / SEC_IN_MINUTE;
    var sec := ticksInHour % SEC_IN_MINUTE;
    tm := Tm(year, mon, mday, hour, min, sec);
    TableMatchesMonths(year, mon);
    assert DayOfYear(tm) == dayOfYear;
  }

  /** The month search that ofc_time_local_time writes out twice. */
  method FindMonth(day: int) returns (mon: int)
    requires 0 <= day
    ensures 0 <= mon <= 11 && DAYS_BEFORE_MONTH[mon] <= day
    ensures mon < 11 ==> day < DAYS_BEFORE_MONTH[mon + 1]
  {
    mon := 0;
    while mon < 11 && day >= DAYS_BEFORE_MONTH[mon + 1]
      invariant 0 <= mon <= 11 && DAYS_BEFORE_MONTH[mon] <= day
      decreases 11 - mon
    {
      mon := mon + 1;
    }
  }

  // ---- Round trips ----

  /** Seconds to date and back is the identity on every 32-bit count. */
  method SecondsRoundTrip(time: nat) returns (again: int)
    requires time < TWO_TO_THE_32
    ensures again == time
  {
    var tm := LocalTime(time);
    again := MakeTime(tm);
  }

  /** Date to seconds and back is the identity on a valid date exactly when the date is not past
      2106-02-07 06:28:15; after that the count has wrapped. */
  method DateRoundTrip(tm: Tm) returns (again: Tm)
    requires Valid(tm)
    ensures Valid(again) && EpochSeconds(again) == EpochSeconds(tm) % TWO_TO_THE_32
    ensures again == tm <==> !Less(LAST_TM, tm)
  {
    var seconds := MakeTime(tm);
    again := LocalTime(seconds);
    FitsIffNotPastLast(tm);
    if again != tm {
      SecondsOrderDates(again, tm);
    }
  }

  // ---- The correspondence is ordered and one to one ----

  /** Later dates have larger second counts and the other way round; in particular two valid dates
      with the same count are equal. */
  lemma SecondsOrderDates(a: Tm, b: Tm)
    requires Valid(a) && Valid(b)
    ensures Less(a, b) <==> EpochSeconds(a) < EpochSeconds(b)
    ensures a == b <==> EpochSeconds(a) == EpochSeconds(b)
  {
    if Less(a, b) {
      LessMeansEarlier(a, b);
    } else if Less(b, a) {
      LessMeansEarlier(b, a);
    } else {
      assert a == b;
    }
  }

  lemma LessMeansEarlier(a: Tm, b: Tm)
    requires Valid(a) && Valid(b) && Less(a, b)
    ensures EpochSeconds(a) < EpochSeconds(b)
  {
    assert 0 <= SecondOfDay(a) < SEC_IN_DAY && 0 <= SecondOfDay(b) < SEC_IN_DAY;
    if DateLess(a, b) {
      DateLessMeansEarlierDay(a, b);
    }
  }

  lemma DateLessMeansEarlierDay(a: Tm, b: Tm)
    requires ValidDate(a) && ValidDate(b) && DateLess(a, b)
    ensures EpochDay(a) < EpochDay(b)
  {
    DayWithinYear(a);
    DayWithinYear(b);
    if a.year < b.year {
      YearStartMonotone(a.year + 1, b.year);
    } else if a.mon < b.mon {
      MonthStartMonotone(a.year, a.mon + 1, b.mon);
    }
  }

  lemma DayWithinYear(tm: Tm)
    requires ValidDate(tm)
    ensures 0 <= DayOfYear(tm) < DaysInYear(tm.year)
  {
    TableMatchesMonths(tm.year, tm.mon);
  }

  lemma {:induction false} YearStartMonotone(y: int, z: int)
    requires 70 <= y <= z
    ensures YearStart(y) <= YearStart(z)
    decreases z
  {
    if y < z {
      YearStartMonotone(y, z - 1);
    }
  }

  lemma {:induction false} MonthStartMonotone(y: int, m: int, n: int)
    requires 0 <= m <= n
    ensures MonthStart(y, m) <= MonthStart(y, n)
    decreases n
  {
    if m < n {
      MonthStartMonotone(y, m, n - 1);
    }
  }

  /** The month table, which ignores leap days, agrees with the month lengths. */
  lemma {:induction false} TableMatchesMonths(y: int, mon: int)
    requires 0 <= mon <= 11
    ensures MonthStart(y, mon) == DAYS_BEFORE_MONTH[mon] + (if mon > 1 && IsLeap(y) then 1 else 0)
    decreases mon
  {
    if mon > 0 {
      TableMatchesMonths(y, mon - 1);
    }
  }

  /** The day of the year in closed form. Counted from March the months repeat every five with 153 days, so
      month lengths come out of a division: an account of the calendar that has no table and no cases. */
  lemma DayOfYearClosedForm(tm: Tm)
    requires 0 <= tm.mon <= 11
    ensures DayOfYear(tm) == tm.mday - 1 +
            if tm.mon < 2 then 31 * tm.mon
            else (153 * (tm.mon - 2) + 2) / 5 + 59 + (DaysInYear(tm.year) - 365)
  {
    TableMatchesMonths(tm.year, tm.mon);
  }

  /** The twelve month lengths add up to the year. */
  lemma MonthsFillYear(y: int)
    ensures MonthStart(y, 12) == DaysInYear(y)
  {
    TableMatchesMonths(y, 11);
  }

  lemma WrapOnce(a: int, b: int)
    ensures (a % TWO_TO_THE_32 + b) % TWO_TO_THE_32 == (b + a) % TWO_TO_THE_32
  {
  }

  // ---- The POSIX closed form ----

  /** Section 4.16 of IEEE Std 1003.1-2017 (Base Definitions), with tm_yday the day of the year. */
  function PosixSeconds(tm: Tm): int {
    tm.sec + tm.min * 60 + tm.hour * 3600 + DayOfYear(tm) * 86400 +
    (tm.year - 70) * 31536000 + ((tm.year - 69) / 4) * 86400 -
    ((tm.year - 1) / 100) * 86400 + ((tm.year + 299) / 400) * 86400
  }

  lemma {:induction false} YearStartClosedForm(y: int)
    requires y >= 70
    ensures YearStart(y) == (y - 70) * 365 + (y - 69) / 4 - (y - 1) / 100 + (y + 299) / 400
    decreases y
  {
    if y > 70 {
      YearStartClosedForm(y - 1);
      LeapTermsStep(y - 1);
    }
  }

  /** Passing year y bumps the three leap terms of the closed form by one leap day in total, or none. */
  lemma LeapTermsStep(y: int)
    ensures (y - 68) / 4 - y / 100 + (y + 300) / 400 ==
            (y - 69) / 4 - (y - 1) / 100 + (y + 299) / 400 + (if IsLeap(y) then 1 else 0)
  {
    assert (y - 68) / 4 == (y - 69) / 4 + (if y % 4 == 0 then 1 else 0);
    assert y / 100 == (y - 1) / 100 + (if y % 100 == 0 then 1 else 0);
    NextMultipleOf400(y);
    assert y % 100 == 0 ==> y % 4 == 0;
    assert (y + 1900) % 400 == 0 ==> y % 100 == 0;
  }

  lemma NextMultipleOf400(y: int)
    ensures (y + 300) / 400 == (y + 299) / 400 + (if (y + 1900) % 400 == 0 then 1 else 0)
  {
    assert (y + 1900) % 400 == (y + 300) % 400;
  }

  /** The year-by-year loop counts exactly what the closed form counts. */
  lemma LoopCountIsPosix(tm: Tm)
    requires tm.year >= 70
    ensures EpochSeconds(tm) == PosixSeconds(tm)
  {
    YearStartClosedForm(tm.year);
  }

  lemma YearStartPeriod(y: int)
    requires y >= 70
    ensures YearStart(y + 400) == YearStart(y) + 146097
  {
    YearStartClosedForm(y);
    YearStartClosedForm(y + 400);
    LeapTermsPeriod(y);
  }

  lemma MonthStartPeriod(y: int, mon: int)
    requires 0 <= mon <= 11
    ensures MonthStart(y + 400, mon) == MonthStart(y, mon)
  {
    LeapPeriod(y);
    TableMatchesMonths(y, mon);
    TableMatchesMonths(y + 400, mon);
  }

  /** The Gregorian cycle: the same date 400 years later is 146097 days later. */
  lemma FourHundredYears(tm: Tm)
    requires Valid(tm)
    ensures Valid(tm.(year := tm.year + 400))
    ensures EpochDay(tm.(year := tm.year + 400)) == EpochDay(tm) + 146097
  {
    ValidPeriod(tm);
    EpochDayPeriod(tm);
  }

  lemma ValidPeriod(tm: Tm)
    requires Valid(tm)
    ensures Valid(tm.(year := tm.year + 400))
  {
    MonthLengthPeriod(tm.year, tm.mon);
  }

  lemma MonthLengthPeriod(y: int, mon: int)
    ensures DaysInMonth(y + 400, mon) == DaysInMonth(y, mon)
  {
    LeapPeriod(y);
  }

  lemma EpochDayPeriod(tm: Tm)
    requires tm.year >= 70 && 0 <= tm.mon <= 11
    ensures EpochDay(tm.(year := tm.year + 400)) == EpochDay(tm) + 146097
  {
    YearStartPeriod(tm.year);
    MonthStartPeriod(tm.year, tm.mon);
  }

  lemma LeapPeriod(y: int)
    ensures IsLeap(y + 400) == IsLeap(y)
  {
    PeriodOf4(y);
    PeriodOf100(y);
    PeriodOf400(y + 1900);
    assert y + 400 + 1900 == y + 1900 + 400;
  }

  lemma PeriodOf4(y: int)
    ensures (y + 400) % 4 == y % 4
  {
  }

  lemma PeriodOf100(y: int)
    ensures (y + 400) % 100 == y % 100
  {
  }

  lemma PeriodOf400(y: int)
    ensures (y + 400) % 400 == y % 400
  {
  }

  lemma LeapTermsPeriod(y: int)
    ensures (y + 331) / 4 == (y - 69) / 4 + 100
    ensures (y + 399) / 100 == (y - 1) / 100 + 4
    ensures (y + 699) / 400 == (y + 299) / 400 + 1
  {
  }

  lemma LastSecond()
    ensures EpochSeconds(LAST_TM) == TWO_TO_THE_32 - 1
  {
    YearStartClosedForm(206);
    TableMatchesMonths(206, 1);
  }

  /** A valid date fits in 32 bits exactly when it is not past 2106-02-07 06:28:15. */
  lemma FitsIffNotPastLast(tm: Tm)
    requires Valid(tm)
    ensures 0 <= EpochSeconds(tm)
    ensures EpochSeconds(tm) < TWO_TO_THE_32 <==> !Less(LAST_TM, tm)
  {
    LastSecond();
    SecondsOrderDates(LAST_TM, tm);
    YearStartMonotone(70, tm.year);
    DayWithinYear(tm);
  }
}
