/** mktimegm: the closed-form calendar formula against a day-by-day count, in exact
    integers, and the dates for which the products of the C code fit an int. */
module Calendar {
  import opened Arith

  /** struct tm, with the year and month as people write them. */
  datatype Tm = Tm(year: int, month: int, day: int, hour: int, minute: int, second: int)

  predicate Leap(y: int)
  {
    y % 4 == 0 && (y % 100 != 0 || y % 400 == 0)
  }

  function DaysInMonth(y: int, m: int): (n: nat)
    requires 1 <= m <= 12
    ensures 28 <= n <= 31
  {
    if m == 2 then (if Leap(y) then 29 else 28)
    else if m == 4 || m == 6 || m == 9 || m == 11 then 30
    else 31
  }

  /** A date of the Gregorian calendar from year 1 on, and a time of day. */
  predicate Valid(t: Tm)
  {
    && t.year >= 1 && 1 <= t.month <= 12 && 1 <= t.day <= DaysInMonth(t.year, t.month)
    && 0 <= t.hour < 24 && 0 <= t.minute < 60 && 0 <= t.second < 60
  }

  /** Days since January 1 of year 1, counted month by month and year by year. */
  function Ordinal(y: int, m: int, d: int): int
    requires y >= 1 && 1 <= m <= 12
    decreases y, m
  {
    if m > 1 then DaysInMonth(y, m - 1) + Ordinal(y, m - 1, d)
    else if y > 1 then DaysInMonth(y - 1, 12) + Ordinal(y - 1, 12, d)
    else d - 1
  }

  /** Days from 1970-01-01 to a date. */
  function EpochDays(t: Tm): int
    requires t.year >= 1 && 1 <= t.month <= 12
  {
    Ordinal(t.year, t.month, t.day) - Ordinal(1970, 1, 1)
  }

  /** Seconds since 1970-01-01 00:00:00. */
  function Seconds(t: Tm): int
    requires t.year >= 1 && 1 <= t.month <= 12
  {
    86400 * EpochDays(t) + 3600 * t.hour + 60 * t.minute + t.second
  }

  // ------------------------------------------------------------ closed forms

  /** Days before month m in a year. */
  function Cumulative(y: int, m: int): int
    requires 1 <= m <= 12
  {
    if m == 1 then 0 else Cumulative(y, m - 1) + DaysInMonth(y, m - 1)
  }

  lemma {:induction false} WithinYear(y: int, m: int, d: int)
    requires y >= 1 && 1 <= m <= 12
    ensures Ordinal(y, m, d) == Ordinal(y, 1, 1) + Cumulative(y, m) + d - 1
    decreases m
  {
    if m == 1 {
      DayShifts(y, 1, d);
    } else {
      WithinYear(y, m - 1, d);
    }
  }

  lemma {:induction false} DayShifts(y: int, m: int, d: int)
    requires y >= 1 && 1 <= m <= 12
    ensures Ordinal(y, m, d) == Ordinal(y, m, 1) + d - 1
    decreases y, m
  {
    if m > 1 {
      DayShifts(y, m - 1, d);
    } else if y > 1 {
      DayShifts(y - 1, 12, d);
    }
  }

  lemma CumulativeValues(y: int)
    ensures var l := if Leap(y) then 1 else 0;
            && Cumulative(y, 1) == 0 && Cumulative(y, 2) == 31 && Cumulative(y, 3) == 59 + l
            && Cumulative(y, 4) == 90 + l && Cumulative(y, 5) == 120 + l && Cumulative(y, 6) == 151 + l
            && Cumulative(y, 7) == 181 + l && Cumulative(y, 8) == 212 + l && Cumulative(y, 9) == 243 + l
            && Cumulative(y, 10) == 273 + l && Cumulative(y, 11) == 304 + l && Cumulative(y, 12) == 334 + l
  {
    assert Cumulative(y, 4) == Cumulative(y, 3) + 31;
    assert Cumulative(y, 8) == Cumulative(y, 7) + 31;
    assert Cumulative(y, 7) == Cumulative(y, 6) + 30;
  }

  /** Leap days in the years 1 to y. */
  function LeapDays(y: int): int
  {
    y / 4 - y / 100 + y / 400
  }

  lemma LeapStep(y: int)
    requires y >= 1
    ensures LeapDays(y) - LeapDays(y - 1) == if Leap(y) then 1 else 0
  {
    DivStep(y, 4);
    DivStep(y, 100);
    DivStep(y, 400);
    if y % 400 == 0 {
      DivModUnique(y, 100, 4 * (y / 400), 0);
    }
    if y % 100 == 0 {
      DivModUnique(y, 4, 25 * (y / 100), 0);
    }
  }

  lemma DivStep(y: nat, d: nat)
    requires y >= 1 && d >= 2
    ensures y / d - (y - 1) / d == if y % d == 0 then 1 else 0
  {
    DivModFacts(y - 1, d);
    var q, r := (y - 1) / d, (y - 1) % d;
    if r + 1 < d {
      DivModUnique(y, d, q, r + 1);
    } else {
      assert (q + 1) * d == q * d + d;
      DivModUnique(y, d, q + 1, 0);
    }
  }

  lemma {:induction false} YearStart(y: int)
    requires y >= 1
    ensures Ordinal(y, 1, 1) == 365 * (y - 1) + LeapDays(y - 1)
  {
    hide Cumulative, Leap;
    if y == 1 {
    } else {
      YearStart(y - 1);
      WithinYear(y - 1, 12, 1);
      CumulativeValues(y - 1);
      LeapStep(y - 1);
    }
  }

  // ------------------------------------------------------------ mktimegm

  /** The formula's day count, with March as the first month of its year. */
  lemma FormulaDays(y: int, m: int, d: int)
    requires y >= 1 && 1 <= m <= 12
    ensures var (fy, fm) := if m < 3 then (y - 1, m + 12) else (y, m);
            d + (153 * fm - 457) / 5 + 365 * fy + LeapDays(fy) - 719469
            == Ordinal(y, m, d) - Ordinal(1970, 1, 1)
  {
    hide Leap, LeapDays, Ordinal, Cumulative;
    WithinYear(y, m, d);
    YearStart(y);
    YearStart(1970);
    CumulativeValues(y);
    LeapStep(y);
    EpochLeapDays();
  }

  lemma EpochLeapDays()
    ensures LeapDays(1969) == 477
  {}

  /** For every valid date from year 1 on, mktimegm over exact integers is the day-by-day
      count of the Gregorian calendar, in seconds. The C code multiplies in an int:
      ProductFits says for which dates nothing is lost. */
  method Mktimegm(tm: Tm) returns (t: int)
    requires Valid(tm)
    ensures t == Seconds(tm)
  {
    hide Ordinal;
    var y, m, d := tm.year, tm.month, tm.day;
    if m < 3 {
      m := m + 12;
      y := y - 1;
    }
    FormulaDays(tm.year, tm.month, tm.day);
    t := 86400 * (d + (153 * m - 457) / 5 + 365 * y + y / 4 - y / 100 + y / 400 - 719469);
    t := t + 3600 * tm.hour + 60 * tm.minute + tm.second;
  }

  // ------------------------------------------------------------ order

  predicate DateBefore(s: Tm, t: Tm)
  {
    s.year < t.year || (s.year == t.year && (s.month < t.month || (s.month == t.month && s.day < t.day)))
  }

  predicate Before(s: Tm, t: Tm)
  {
    || DateBefore(s, t)
    || (!DateBefore(t, s) &&
        (s.hour < t.hour || (s.hour == t.hour &&
          (s.minute < t.minute || (s.minute == t.minute && s.second < t.second)))))
  }

  lemma {:induction false} MonthsGrow(y: int, m: int, n: int)
    requires 1 <= m < n <= 12
    ensures Cumulative(y, m) + DaysInMonth(y, m) <= Cumulative(y, n)
    decreases n
  {
    if m < n - 1 {
      MonthsGrow(y, m, n - 1);
    }
  }

  lemma YearsGrow(y: int, z: int)
    requires 1 <= y < z
    ensures Ordinal(y, 12, 31) < Ordinal(z, 1, 1)
  {
    hide Ordinal, Cumulative, Leap, LeapDays;
    YearStart(y);
    YearStart(z);
    WithinYear(y, 12, 31);
    CumulativeValues(y);
    LeapStep(y);
    LeapDaysGrow(y, z - 1);
  }

  lemma {:induction false} LeapDaysGrow(y: int, z: int)
    requires 1 <= y <= z
    ensures LeapDays(y) <= LeapDays(z)
    decreases z
  {
    if y < z {
      LeapStep(z);
      LeapDaysGrow(y, z - 1);
    }
  }

  lemma DatesGrow(s: Tm, t: Tm)
    requires Valid(s) && Valid(t) && DateBefore(s, t)
    ensures Ordinal(s.year, s.month, s.day) < Ordinal(t.year, t.month, t.day)
  {
    hide Ordinal, Cumulative;
    WithinYear(s.year, s.month, s.day);
    WithinYear(t.year, t.month, t.day);
    CumulativeBounds(s.year, s.month);
    CumulativeBounds(t.year, t.month);
    if s.year < t.year {
      WithinYear(s.year, 12, 31);
      YearsGrow(s.year, t.year);
    } else if s.month < t.month {
      MonthsGrow(s.year, s.month, t.month);
    }
  }

  lemma CumulativeBounds(y: int, m: int)
    requires 1 <= m <= 12
    ensures 0 <= Cumulative(y, m) && Cumulative(y, m) + DaysInMonth(y, m) <= Cumulative(y, 12) + 31
  {
    if m < 12 {
      MonthsGrow(y, m, 12);
    }
    if m > 1 {
      MonthsGrow(y, 1, m);
    }
  }

  /** Seconds are strictly monotone: the order of times is the order of dates. */
  lemma SecondsOrder(s: Tm, t: Tm)
    requires Valid(s) && Valid(t)
    ensures Seconds(s) < Seconds(t) <==> Before(s, t)
  {
    hide Ordinal;
    if DateBefore(s, t) {
      DatesGrow(s, t);
    } else if DateBefore(t, s) {
      DatesGrow(t, s);
    }
  }

  /** The day after a date has the next number. */
  lemma NextDay(y: int, m: int, d: int)
    requires y >= 1 && 1 <= m <= 12 && 1 <= d <= DaysInMonth(y, m)
    ensures Ordinal(y, m, d) + 1 ==
            if d < DaysInMonth(y, m) then Ordinal(y, m, d + 1)
            else if m < 12 then Ordinal(y, m + 1, 1)
            else Ordinal(y + 1, 1, 1)
  {
    DayShifts(y, m, d);
    DayShifts(y, m, d + 1);
  }

  // ------------------------------------------------------------ the range of an int

  /** A C int. */
  predicate IsInt(n: int)
  {
    -0x8000_0000 <= n < 0x8000_0000
  }

  const FIRST := Tm(1901, 12, 14, 0, 0, 0)
  const LAST := Tm(2038, 1, 19, 3, 14, 7)

  lemma RangeDays()
    ensures EpochDays(FIRST) == -24855 && EpochDays(LAST) == 24855
  {
    hide Ordinal, Cumulative;
    WithinYear(1901, 12, 14);
    WithinYear(2038, 1, 19);
    YearStart(1901);
    YearStart(2038);
    YearStart(1970);
    CumulativeValues(1901);
    CumulativeValues(2038);
  }

  /** The product that mktimegm forms in an int fits one if and only if the date lies
      between 1901-12-14 and 2038-01-19. */
  lemma ProductFits(t: Tm)
    requires Valid(t)
    ensures IsInt(86400 * EpochDays(t)) <==> !DateBefore(t, FIRST) && !DateBefore(LAST, t)
  {
    hide Ordinal;
    RangeDays();
    if DateBefore(t, FIRST) {
      DatesGrow(t, FIRST);
    } else if DateBefore(FIRST, t) {
      DatesGrow(FIRST, t);
    }
    if DateBefore(LAST, t) {
      DatesGrow(LAST, t);
    } else if DateBefore(t, LAST) {
      DatesGrow(t, LAST);
    }
  }

  /** With a time_t of 32 bits the sum fits as well exactly up to 03:14:07 of the last day. */
  lemma SumFits(t: Tm)
    requires Valid(t)
    ensures IsInt(86400 * EpochDays(t)) && IsInt(Seconds(t)) <==> !Before(t, FIRST) && !Before(LAST, t)
  {
    hide EpochDays;
    RangeDays();
    ProductFits(t);
    SecondsOrder(t, FIRST);
    SecondsOrder(LAST, t);
  }
}
