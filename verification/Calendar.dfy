/** Calendar conversion (sh_util_localtime_r in common/sh_util.c). Integers are mathematical: the intermediate values of
    the original are assumed to fit its 64-bit time_t. Conversions to int are modelled. */
module Calendar {
  import opened Arith

  // Division and remainder of C truncate toward zero.
  function CDiv(a: int, b: int): int
    requires b > 0
  {
    if a >= 0 then a / b else -((-a) / b)
  }

  function CMod(a: int, b: int): int
    requires b > 0
  {
    a - b * CDiv(a, b)
  }

  /** SH_UTIL_DIV */
  function Div(a: int, b: int): int
    requires b > 0
  {
    CDiv(a, b) - if CMod(a, b) < 0 then 1 else 0
  }

  predicate IsLeap(year: int) {
    CMod(year, 4) == 0 && (CMod(year, 100) != 0 || CMod(year, 400) == 0)
  }

  /** SH_UTIL_LEAPS_THRU_END_OF */
  function LeapsThruEndOf(y: int): int {
    Div(y, 4) - Div(y, 100) + Div(y, 400)
  }

  const SECS_PER_HOUR: nat := 3600
  const SECS_PER_DAY: nat := 86400

  /** sh_util_mon_yday */
  function MonYday(leap: bool): (days: seq<nat>)
    ensures |days| == 13
  {
    if leap then [0, 31, 60, 91, 121, 152, 182, 213, 244, 274, 305, 335, 366]
    else [0, 31, 59, 90, 120, 151, 181, 212, 243, 273, 304, 334, 365]
  }

  function YearLength(year: int): nat {
    if IsLeap(year) then 366 else 365
  }

  /** Conversion to a 32-bit int. */
  function ToInt(x: int): int {
    (x + 0x8000_0000) % 0x1_0000_0000 - 0x8000_0000
  }

  datatype Tm = Tm(sec: int, min: int, hour: int, mday: int, mon: int, year: int, wday: int, yday: int, gmtoff: int)

  // EOVERFLOW: the year does not fit an int.
  datatype Result = Overflow | Converted(tm: Tm)

  // What a date means, counted out year by year and month by month.

  /** Days from 1970-01-01 to the first day of a year. */
  function DaysBeforeYear(year: int): int
    decreases if year >= 1970 then year - 1970 else 1970 - year
  {
    if year == 1970 then 0
    else if year > 1970 then DaysBeforeYear(year - 1) + YearLength(year - 1)
    else DaysBeforeYear(year + 1) - YearLength(year)
  }

  function MonthLength(year: int, mon: int): nat
    requires 0 <= mon < 12
  {
    if mon == 1 then (if IsLeap(year) then 29 else 28)
    else if mon in {3, 5, 8, 10} then 30
    else 31
  }

  function DaysBeforeMonth(year: int, mon: int): nat
    requires 0 <= mon <= 12
  {
    if mon == 0 then 0 else DaysBeforeMonth(year, mon - 1) + MonthLength(year, mon - 1)
  }

  /** A Gregorian date and time of day; the year is counted from 0. */
  datatype Date = Date(year: int, mon: int, mday: int, hour: int, min: int, sec: int)

  predicate IsDate(d: Date) {
    0 <= d.mon < 12 && 1 <= d.mday <= MonthLength(d.year, d.mon) && 0 <= d.hour < 24 && 0 <= d.min < 60 && 0 <= d.sec < 60
  }

  function DayNumber(d: Date): int
    requires 0 <= d.mon < 12
  {
    DaysBeforeYear(d.year) + DaysBeforeMonth(d.year, d.mon) + d.mday - 1
  }

  /** Seconds since 1970-01-01 00:00:00. */
  function Seconds(d: Date): int
    requires 0 <= d.mon < 12
  {
    DayNumber(d) * SECS_PER_DAY + d.hour * SECS_PER_HOUR + d.min * 60 + d.sec
  }

  function DateOf(tm: Tm): Date {
    Date(tm.year + 1900, tm.mon, tm.mday, tm.hour, tm.min, tm.sec)
  }

  // Arithmetic.

  lemma DivIsFloor(a: int, b: int)
    requires b > 0
    ensures Div(a, b) == a / b
    ensures CMod(a, b) == 0 <==> a % b == 0
  {
    if a < 0 {
      var q, r := (-a) / b, (-a) % b;
      assert -a == q * b + r;
      assert a == (-q) * b - r;
      if r == 0 {
        QuotientIs(a, b, -q, 0);
      } else {
        assert a == (-q - 1) * b + (b - r);
        QuotientIs(a, b, -q - 1, b - r);
      }
    }
  }

  /** A quotient goes up exactly at the multiples. */
  lemma QuotientStep(y: int, n: int)
    requires n > 1
    ensures y / n == (y - 1) / n + if y % n == 0 then 1 else 0
  {
    var q, r := y / n, y % n;
    assert y == q * n + r;
    if r == 0 {
      assert (q - 1) * n == q * n - n;
      QuotientIs(y - 1, n, q - 1, n - 1);
    } else {
      QuotientIs(y - 1, n, q, r - 1);
    }
  }

  /** The leap count goes up exactly in leap years. */
  lemma LeapsStep(y: int)
    ensures LeapsThruEndOf(y) == LeapsThruEndOf(y - 1) + if IsLeap(y) then 1 else 0
  {
    hide Div, CMod;
    DivIsFloor(y, 4);
    DivIsFloor(y - 1, 4);
    DivIsFloor(y, 100);
    DivIsFloor(y - 1, 100);
    DivIsFloor(y, 400);
    DivIsFloor(y - 1, 400);
    QuotientStep(y, 4);
    QuotientStep(y, 100);
    QuotientStep(y, 400);
    MultiplesNest(y);
  }

  lemma MultiplesNest(y: int)
    ensures y % 400 == 0 ==> y % 100 == 0
    ensures y % 100 == 0 ==> y % 4 == 0
  {
    if y % 400 == 0 {
      QuotientIs(y, 100, 4 * (y / 400), 0);
    }
    if y % 100 == 0 {
      QuotientIs(y, 4, 25 * (y / 100), 0);
    }
  }

  /** Between two years lie 365 days for each, and one more for each leap year. */
  lemma {:induction false} DaysByLeaps(y: int, z: int)
    requires y <= z
    ensures DaysBeforeYear(z) - DaysBeforeYear(y) == 365 * (z - y) + LeapsThruEndOf(z - 1) - LeapsThruEndOf(y - 1)
    decreases z - y
  {
    hide LeapsThruEndOf, IsLeap;
    if y < z {
      DaysByLeaps(y, z - 1);
      LeapsStep(z - 1);
    }
  }

  /** There is at most one leap year in four consecutive years, but always less than one in every three. */
  lemma {:induction false} LeapsBound(y: int, z: int)
    requires y <= z
    ensures 0 <= LeapsThruEndOf(z) - LeapsThruEndOf(y) <= (z - y + 3) / 4
    decreases z - y
  {
    hide LeapsThruEndOf, IsLeap;
    if z - y >= 4 {
      LeapsBound(y, z - 4);
      FourYears(z);
    } else if z - y >= 1 {
      LeapsBound(y, z - 1);
      LeapsStep(z);
      FewYears(y, z);
    }
  }

  lemma FourYears(z: int)
    ensures 0 <= LeapsThruEndOf(z) - LeapsThruEndOf(z - 4) <= 1
  {
    hide LeapsThruEndOf, IsLeap;
    LeapsStep(z);
    LeapsStep(z - 1);
    LeapsStep(z - 2);
    LeapsStep(z - 3);
    LeapIsFourth(z);
    LeapIsFourth(z - 1);
    LeapIsFourth(z - 2);
    LeapIsFourth(z - 3);
  }

  lemma FewYears(y: int, z: int)
    requires 1 <= z - y <= 3
    ensures 0 <= LeapsThruEndOf(z) - LeapsThruEndOf(y) <= 1
  {
    hide LeapsThruEndOf, IsLeap;
    LeapsStep(z);
    LeapsStep(z - 1);
    LeapsStep(z - 2);
    LeapIsFourth(z);
    LeapIsFourth(z - 1);
    LeapIsFourth(z - 2);
  }

  lemma LeapIsFourth(y: int)
    ensures IsLeap(y) ==> y % 4 == 0
  {
    hide Div;
    DivIsFloor(y, 4);
  }

  lemma DaysBetween(y: int, z: int)
    ensures DaysBeforeYear(z) - DaysBeforeYear(y) == 365 * (z - y) + LeapsThruEndOf(z - 1) - LeapsThruEndOf(y - 1)
  {
    hide LeapsThruEndOf, IsLeap;
    if y <= z {
      DaysByLeaps(y, z);
    } else {
      DaysByLeaps(z, y);
    }
  }

  // The year-guess loop.

  predicate InYear(days: int, y: int) {
    0 <= days < YearLength(y)
  }

  /** The guess: 365 days for every year. */
  function Guess(y: int, days: int): int {
    y + CDiv(days, 365) - if CMod(days, 365) < 0 then 1 else 0
  }

  /** Why the loop ends: a guess that went too far back is followed by one that is right or much closer, and the days
      of at most one year before a year always lie in the year before. */
  function Measure(days: int, y: int): nat {
    if InYear(days, y) then 0
    else if -365 <= days < 0 then 1
    else if days < 0 then 1 - days
    else 1 + days
  }

  lemma GuessIsFloor(y: int, days: int)
    ensures Guess(y, days) == y + days / 365
  {
    hide CDiv, CMod;
    DivIsFloor(days, 365);
    assert Guess(y, days) == y + Div(days, 365);
  }

  /** How many days are left after a guess. */
  lemma AfterGuess(y: int, days: int)
    ensures var yg := Guess(y, days);
            var left := days - (DaysBeforeYear(yg) - DaysBeforeYear(y));
            && left == days % 365 - (LeapsThruEndOf(yg - 1) - LeapsThruEndOf(y - 1))
            && (days >= 0 ==> days % 365 - (days / 365 + 3) / 4 <= left <= days % 365)
            && (days < 0 ==> days % 365 <= left <= days % 365 + (-(days / 365) + 3) / 4)
  {
    hide LeapsThruEndOf, IsLeap, Guess, DaysBeforeYear;
    var yg := Guess(y, days);
    GuessIsFloor(y, days);
    DaysBetween(y, yg);
    if days >= 0 {
      LeapsBound(y - 1, yg - 1);
    } else {
      LeapsBound(yg - 1, y - 1);
    }
  }

  lemma MeasureFalls(y: int, days: int)
    requires !InYear(days, y)
    ensures var yg := Guess(y, days);
            Measure(days - (DaysBeforeYear(yg) - DaysBeforeYear(y)), yg) < Measure(days, y)
  {
    hide LeapsThruEndOf, IsLeap, Guess, DaysBeforeYear;
    var yg := Guess(y, days);
    AfterGuess(y, days);
    GuessIsFloor(y, days);
    if -365 <= days < 0 {
      LeapsStep(y - 1);
    } else if days == 365 {
      LeapsStep(y);
    }
  }

  // Months.

  lemma MonthTable(year: int, mon: int)
    requires 0 <= mon <= 12
    ensures MonYday(IsLeap(year))[mon] == DaysBeforeMonth(year, mon)
    decreases mon
  {
    hide IsLeap;
    if mon > 0 {
      MonthTable(year, mon - 1);
    }
  }

  lemma {:induction false} MonthsAscend(year: int, a: int, b: int)
    requires 0 <= a <= b <= 12
    ensures DaysBeforeMonth(year, a) + 28 * (b - a) <= DaysBeforeMonth(year, b)
    decreases b
  {
    hide IsLeap;
    if a < b {
      MonthsAscend(year, a, b - 1);
    }
  }

  /** The search for the month, backwards through the table. */
  method FindMonth(year: int, yday: int) returns (mon: int)
    requires InYear(yday, year)
    ensures 0 <= mon < 12 && DaysBeforeMonth(year, mon) <= yday < DaysBeforeMonth(year, mon + 1)
  {
    hide IsLeap;
    var ip := MonYday(IsLeap(year));
    MonthTable(year, 12);
    mon := 11;
    while yday < ip[mon]
      invariant 0 <= mon <= 11 && yday < ip[mon + 1]
    {
      mon := mon - 1;
    }
    MonthTable(year, mon);
    MonthTable(year, mon + 1);
  }

  /** The two loops that bring the second of the day into range. */
  method SplitDays(t: int, gmtoff: int) returns (days: int, rem: int)
    ensures t + gmtoff == days * SECS_PER_DAY + rem && 0 <= rem < SECS_PER_DAY
  {
    days := CDiv(t, SECS_PER_DAY);
    rem := CMod(t, SECS_PER_DAY);
    rem := rem + gmtoff;
    while rem < 0
      invariant t + gmtoff == days * SECS_PER_DAY + rem
      decreases -rem
    {
      rem := rem + SECS_PER_DAY;
      days := days - 1;
    }
    while rem >= SECS_PER_DAY
      invariant t + gmtoff == days * SECS_PER_DAY + rem && rem >= 0
      decreases rem
    {
      rem := rem - SECS_PER_DAY;
      days := days + 1;
    }
  }

  /** The year-guess loop. It ends for every number of days, and what the days lose the year gains. */
  method FindYear(days: int) returns (y: int, yday: int)
    ensures InYear(yday, y) && yday + DaysBeforeYear(y) == days
  {
    hide LeapsThruEndOf, DaysBeforeYear, CDiv, CMod;
    var left := days;
    y := 1970;
    assert DaysBeforeYear(1970) == 0 by {
      EpochIsZero();
    }
    while left < 0 || left >= (if IsLeap(y) then 366 else 365)
      invariant left + DaysBeforeYear(y) == days
      decreases Measure(left, y)
    {
      var yg := y + CDiv(left, 365) - if CMod(left, 365) < 0 then 1 else 0;
      DaysBetween(y, yg);
      MeasureFalls(y, left);
      left := left - ((yg - y) * 365 + LeapsThruEndOf(yg - 1) - LeapsThruEndOf(y - 1));
      y := yg;
    }
    yday := left;
  }

  lemma EpochIsZero()
    ensures DaysBeforeYear(1970) == 0
  {
  }

  /** tm_wday: the day number goes through an int first. */
  function Wday(days: int): int {
    var w := CMod(ToInt(4 + days), 7);
    if w < 0 then w + 7 else w
  }

  /** sh_util_localtime_r. */
  method LocaltimeR(t: int, gmtoff: int) returns (result: Result)
    ensures result.Converted? ==>
              var tm := result.tm;
              && IsDate(DateOf(tm)) && Seconds(DateOf(tm)) == t + gmtoff
              && tm.yday == DaysBeforeMonth(tm.year + 1900, tm.mon) + tm.mday - 1
              && tm.gmtoff == gmtoff && tm.wday == Wday((t + gmtoff) / SECS_PER_DAY)
              && ToInt(tm.year) == tm.year
    ensures result.Overflow? ==>
              exists d :: IsDate(d) && Seconds(d) == t + gmtoff && ToInt(d.year - 1900) != d.year - 1900
  {
    hide IsLeap, DaysBeforeYear, CDiv, CMod, ToInt;
    var days, rem := SplitDays(t, gmtoff);
    DayOf(t + gmtoff, days, rem);
    var hour := rem / SECS_PER_HOUR;
    var min := rem % SECS_PER_HOUR / 60;
    var sec := rem % SECS_PER_HOUR % 60;
    var y, yday := FindYear(days);
    var mon := FindMonth(y, yday);
    ghost var date := Date(y, mon, yday - DaysBeforeMonth(y, mon) + 1, hour, min, sec);
    assert IsDate(date) && Seconds(date) == t + gmtoff;
    if ToInt(y - 1900) != y - 1900 {
      return Overflow;
    }
    MonthTable(y, mon);
    var mday := yday - MonYday(IsLeap(y))[mon] + 1;
    result := Converted(Tm(sec, min, hour, mday, mon, ToInt(y - 1900), Wday(days), yday, gmtoff));
    assert DateOf(result.tm) == date;
  }

  lemma DayOf(total: int, days: int, rem: int)
    requires total == days * SECS_PER_DAY + rem && 0 <= rem < SECS_PER_DAY
    ensures days == total / SECS_PER_DAY
  {
    QuotientIs(total, SECS_PER_DAY, days, rem);
  }

  // There is only one date with a given number of seconds.

  lemma {:induction false} YearsAscend(y: int, z: int)
    requires y < z
    ensures DaysBeforeYear(y) + YearLength(y) <= DaysBeforeYear(z)
    decreases z - y
  {
    hide IsLeap;
    if y + 1 < z {
      YearsAscend(y, z - 1);
    }
  }

  lemma DayInYear(d: Date)
    requires IsDate(d)
    ensures InYear(DaysBeforeMonth(d.year, d.mon) + d.mday - 1, d.year)
  {
    hide IsLeap;
    MonthsAscend(d.year, d.mon + 1, 12);
    MonthTable(d.year, 12);
  }

  lemma DayNumberIsUnique(d: Date, e: Date)
    requires IsDate(d) && IsDate(e) && DayNumber(d) == DayNumber(e)
    ensures d.year == e.year && d.mon == e.mon && d.mday == e.mday
  {
    hide IsLeap, DaysBeforeYear, MonthLength;
    DayInYear(d);
    DayInYear(e);
    if d.year < e.year {
      YearsAscend(d.year, e.year);
    } else if e.year < d.year {
      YearsAscend(e.year, d.year);
    } else if d.mon < e.mon {
      MonthsAscend(d.year, d.mon + 1, e.mon);
    } else if e.mon < d.mon {
      MonthsAscend(d.year, e.mon + 1, d.mon);
    }
  }

  /** So the conversion found the one Gregorian date. */
  lemma DateIsUnique(d: Date, e: Date)
    requires IsDate(d) && IsDate(e) && Seconds(d) == Seconds(e)
    ensures d == e
  {
    hide IsLeap, DayNumber, MonthLength;
    var n := Seconds(d);
    DayOf(n, DayNumber(d), d.hour * SECS_PER_HOUR + d.min * 60 + d.sec);
    DayOf(n, DayNumber(e), e.hour * SECS_PER_HOUR + e.min * 60 + e.sec);
    DayNumberIsUnique(d, e);
    assert d.hour * SECS_PER_HOUR + d.min * 60 + d.sec == e.hour * SECS_PER_HOUR + e.min * 60 + e.sec;
  }

  // The day of the week. 1970-01-01 was a Thursday (4).

  /** The day of the week is right exactly when the day number has gone round the range of int a multiple of seven
      times. */
  lemma WdayIsRight(days: int)
    ensures Wday(days) == (4 + days) % 7 <==> (4 + days + 0x8000_0000) / 0x1_0000_0000 % 7 == 0
  {
    var x := 4 + days;
    var k := (x + 0x8000_0000) / 0x1_0000_0000;
    assert ToInt(x) == x - k * 0x1_0000_0000;
    WdayOf(ToInt(x));
    assert x == ToInt(x) + k * 0x1_0000_0000;
  }

  lemma WdayOf(x: int)
    ensures (var w := CMod(x, 7); if w < 0 then w + 7 else w) == x % 7
  {
  }

  /** For times whose day number fits an int it always is. */
  lemma WdayInRange(days: int)
    requires -0x8000_0000 <= 4 + days < 0x8000_0000
    ensures Wday(days) == (4 + days) % 7
  {
    WdayIsRight(days);
  }

  /** A year that fits tm_year, but whose days do not fit an int. */
  lemma WdayCanBeWrong()
    ensures Wday(0x8000_0000) != (4 + 0x8000_0000) % 7
  {
  }
}
