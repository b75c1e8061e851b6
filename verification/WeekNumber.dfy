/**
 The leaderboard's week number.  Days are counted from 1 January 1970 in the proleptic
 Gregorian calendar; months run from 0 to 11 and weekdays from Sunday = 0, as in the
 source.
 */
module WeekNumbers {
  // ----- the calendar -----

  predicate IsLeap(y: int) { y % 4 == 0 && (y % 100 != 0 || y % 400 == 0) }

  function YearLength(y: int): int { if IsLeap(y) then 366 else 365 }

  /** The day number of 1 January of year `y`. */
  function YearStart(y: int): int {
    365 * (y - 1) + (y - 1) / 4 - (y - 1) / 100 + (y - 1) / 400 - 719162
  }

  function DaysInMonth(y: int, m: int): int
    requires 0 <= m < 12
  {
    if m == 1 then (if IsLeap(y) then 29 else 28)
    else if m == 3 || m == 5 || m == 8 || m == 10 then 30
    else 31
  }

  function MonthStart(y: int, m: int): int
    requires 0 <= m <= 12
    decreases m
  {
    if m == 0 then 0 else MonthStart(y, m - 1) + DaysInMonth(y, m - 1)
  }

  datatype Date = Date(year: int, month: int, day: int) {
    predicate Valid() { 0 <= month < 12 && 1 <= day <= DaysInMonth(year, month) }
  }

  function DayNumber(d: Date): int
    requires d.Valid()
  {
    YearStart(d.year) + MonthStart(d.year, d.month) + d.day - 1
  }

  /** `getUTCDay`: 1 January 1970 was a Thursday. */
  function Weekday(n: int): int { (n + 4) % 7 }

  /** `getUTCFullYear`: the year a day number falls in. */
  function YearOf(n: int): (y: int)
    ensures YearStart(y) <= n < YearStart(y + 1)
  {
    YearFrom(n, 1970)
  }

  lemma {:induction false} QuotientsStep(y: int)
    ensures y / 4 == (y - 1) / 4 + (if y % 4 == 0 then 1 else 0)
    ensures y / 100 == (y - 1) / 100 + (if y % 100 == 0 then 1 else 0)
    ensures y / 400 == (y - 1) / 400 + (if y % 400 == 0 then 1 else 0)
  {
  }

  lemma {:induction false} Multiples(y: int)
    ensures y % 400 == 0 ==> y % 100 == 0
    ensures y % 100 == 0 ==> y % 4 == 0
  {
  }

  lemma {:induction false} NextYear(y: int)
    ensures YearStart(y + 1) == YearStart(y) + YearLength(y)
    ensures 365 <= YearLength(y) <= 366
  {
    QuotientsStep(y);
    Multiples(y);
    var q4, q100, q400 := (y - 1) / 4, (y - 1) / 100, (y - 1) / 400;
    assert YearStart(y) == 365 * (y - 1) + q4 - q100 + q400 - 719162;
    assert YearStart(y + 1) == 365 * y + y / 4 - y / 100 + y / 400 - 719162;
  }

  function YearFrom(n: int, y: int): (r: int)
    ensures YearStart(r) <= n < YearStart(r + 1)
    decreases if n < YearStart(y) then YearStart(y) - n
              else if n < YearStart(y + 1) then 0 else n - YearStart(y + 1) + 1
  {
    NextYear(y);
    NextYear(y - 1);
    if n < YearStart(y) then YearFrom(n, y - 1)
    else if n >= YearStart(y + 1) then YearFrom(n, y + 1)
    else y
  }

  lemma {:induction false} YearsInOrder(y: int, z: int)
    requires y < z
    ensures YearStart(y) + 365 * (z - y) <= YearStart(z)
    decreases z - y
  {
    NextYear(z - 1);
    if y < z - 1 {
      YearsInOrder(y, z - 1);
    }
  }

  lemma {:induction false} YearOfIs(n: int, y: int)
    requires YearStart(y) <= n < YearStart(y + 1)
    ensures YearOf(n) == y
  {
    var r := YearOf(n);
    if r < y {
      if r + 1 < y { YearsInOrder(r + 1, y); }
    } else if y < r {
      if y + 1 < r { YearsInOrder(y + 1, r); }
    }
  }

  // ----- the calendar checked -----

  lemma {:induction false} MarchSteps(y: int, m: int)
    requires 2 <= m < 12
    ensures DaysSinceMarch(m - 1) == DaysSinceMarch(m - 2) + DaysInMonth(y, m)
  {
  }

  lemma {:induction false} MonthStartFromMarch(y: int, m: int)
    requires 2 <= m <= 12
    ensures MonthStart(y, m) == 59 + (if IsLeap(y) then 1 else 0) + DaysSinceMarch(m - 2)
    decreases m
  {
    if m == 2 {
      assert MonthStart(y, 1) == 31;
    } else {
      MonthStartFromMarch(y, m - 1);
      MarchSteps(y, m - 1);
    }
  }

  /** The months fill the year. */
  lemma {:induction false} MonthsFillTheYear(y: int)
    ensures MonthStart(y, 12) == YearLength(y)
  {
    MonthStartFromMarch(y, 12);
  }

  /** Days from 1 March to the first of a month, counted from March = 0. */
  function DaysSinceMarch(m: int): int { (153 * m + 2) / 5 }

  /** The day number of 1 March of year `y`. */
  function MarchStart(y: int): int { 365 * y + y / 4 - y / 100 + y / 400 - 719468 }

  lemma {:induction false} MarchOfYear(y: int)
    ensures YearStart(y) + 59 + (if IsLeap(y) then 1 else 0) == MarchStart(y)
    ensures YearStart(y) == MarchStart(y - 1) + 306
  {
    QuotientsStep(y);
    Multiples(y);
  }

  /** The day number of a date by years that begin in March, so that the leap day is the
      last of the year: nothing is said of the length of any month. */
  function CountedFromMarch(d: Date): int {
    var y := if d.month < 2 then d.year - 1 else d.year;
    MarchStart(y) + DaysSinceMarch((d.month + 10) % 12) + d.day - 1
  }

  lemma {:induction false} JanuaryAndFebruary(y: int)
    ensures MonthStart(y, 0) == 0 && MonthStart(y, 1) == 31
    ensures DaysSinceMarch(10) == 306 && DaysSinceMarch(11) == 337
  {
  }

  lemma {:induction false} EarlyFromMarch(y: int, m: int)
    requires 0 <= m < 2
    ensures YearStart(y) + MonthStart(y, m) == MarchStart(y - 1) + DaysSinceMarch(m + 10)
  {
    MarchOfYear(y);
    JanuaryAndFebruary(y);
  }

  lemma {:induction false} LateFromMarch(y: int, m: int)
    requires 2 <= m < 12
    ensures YearStart(y) + MonthStart(y, m) == MarchStart(y) + DaysSinceMarch(m - 2)
  {
    MarchOfYear(y);
    MonthStartFromMarch(y, m);
  }

  lemma {:induction false} MonthFromMarch(m: int)
    requires 0 <= m < 12
    ensures (m + 10) % 12 == if m < 2 then m + 10 else m - 2
  {
  }

  /** The calendar is the Gregorian one: every valid date has the day number of the
      count from March. */
  lemma {:induction false} DayNumberFromMarch(d: Date)
    requires d.Valid()
    ensures DayNumber(d) == CountedFromMarch(d)
  {
    MonthFromMarch(d.month);
    if d.month < 2 {
      EarlyFromMarch(d.year, d.month);
    } else {
      LateFromMarch(d.year, d.month);
    }
  }

  // ----- the code -----

  /** The year `Date.UTC` takes its first argument for: two-digit years mean the 1900s. */
  function UtcYear(y: int): int { if 0 <= y <= 99 then 1900 + y else y }

  /** `Date.UTC(y, m, d)` in days; a day past the end of the month runs on. */
  function Utc(y: int, m: int, d: int): int
    requires 0 <= m < 12
  {
    YearStart(UtcYear(y)) + MonthStart(UtcYear(y), m) + d - 1
  }

  /** `Math.ceil(n / 7)`. */
  function CeilSevenths(n: int): int { (n + 6) / 7 }

  // ----- the standard -----

  /** Thursdays among the days `lo` to `hi`. */
  function Thursdays(lo: int, hi: int): nat
    decreases hi - lo
  {
    if hi < lo then 0 else Thursdays(lo, hi - 1) + (if Weekday(hi) == 4 then 1 else 0)
  }

  /** The Monday and the Thursday of a day's Monday-to-Sunday week. */
  function MondayOf(n: int): int { n - (n + 3) % 7 }

  function ThursdayOf(n: int): int { MondayOf(n) + 3 }

  /** Section 2.2.10 of ISO 8601:2004: the week is in the year of its Thursday, and its
      number is that of the Thursday in that year. */
  function IsoWeek(n: int): nat {
    var thursday := ThursdayOf(n);
    Thursdays(YearStart(YearOf(thursday)), thursday)
  }

  lemma {:induction false} CountThursdays(lo: int, hi: int)
    requires lo <= hi + 1
    ensures Thursdays(lo, hi) == (hi + 7) / 7 - (lo + 6) / 7
    decreases hi - lo
  {
    if lo <= hi {
      CountThursdays(lo, hi - 1);
    }
  }

  /** Counting from a first day to a Thursday is dividing by seven and rounding up. */
  lemma {:induction false} ThursdaysByDivision(lo: int, thursday: int)
    requires lo <= thursday && Weekday(thursday) == 4
    ensures Thursdays(lo, thursday) == CeilSevenths(thursday - lo + 1)
  {
    CountThursdays(lo, thursday);
  }

  lemma {:induction false} ThursdayReached(n: int)
    ensures n + 4 - (if Weekday(n) != 0 then Weekday(n) else 7) == ThursdayOf(n)
    ensures Weekday(ThursdayOf(n)) == 4 && n - 3 <= ThursdayOf(n) <= n + 3
  {
  }

  /** The number as a function of the date's Thursday. */
  function WeekNumberOf(date: Date): int
    requires date.Valid()
  {
    var thursday := ThursdayOf(Utc(date.year, date.month, date.day));
    CeilSevenths(thursday - YearStart(UtcYear(YearOf(thursday))) + 1)
  }

  lemma {:induction false} WeekNumberIs(date: Date, thursday: int)
    requires date.Valid() && thursday == ThursdayOf(Utc(date.year, date.month, date.day))
    ensures CeilSevenths((thursday - Utc(YearOf(thursday), 0, 1)) + 1) == WeekNumberOf(date)
  {
  }

  /** `getWeekNumber`, updating `d` as the source does. */
  method GetWeekNumber(date: Date) returns (weekNo: int)
    requires date.Valid()
    ensures weekNo == WeekNumberOf(date)
  {
    var d := Utc(date.year, date.month, date.day);
    var dayOfWeek := Weekday(d);
    ThursdayReached(d);
    d := d + 4 - (if dayOfWeek != 0 then dayOfWeek else 7);
    var yearStart := Utc(YearOf(d), 0, 1);
    WeekNumberIs(date, d);
    weekNo := CeilSevenths((d - yearStart) + 1);
  }

  predicate TwoDigit(y: int) { 0 <= y <= 99 }

  lemma {:induction false} NotPositive(n: int)
    requires n <= 0
    ensures CeilSevenths(n) <= 0
  {
  }

  lemma {:induction false} AtLeastOne(n: int)
    requires n >= 1
    ensures CeilSevenths(n) >= 1
  {
  }

  /** Measuring a Thursday from 1 January of the year `Date.UTC` makes of its year. */
  lemma {:induction false} ByThursday(thursday: int, y: int)
    requires Weekday(thursday) == 4 && YearStart(y) <= thursday < YearStart(y + 1)
    ensures CeilSevenths(thursday - YearStart(UtcYear(y)) + 1) == Thursdays(YearStart(y), thursday) <==> !TwoDigit(y)
  {
    ThursdaysByDivision(YearStart(y), thursday);
    AtLeastOne(thursday - YearStart(y) + 1);
    if TwoDigit(y) {
      YearsInOrder(y + 1, 1900 + y);
      NotPositive(thursday - YearStart(1900 + y) + 1);
    }
  }

  lemma {:induction false} UtcIsDayNumber(date: Date)
    requires date.Valid() && !TwoDigit(date.year)
    ensures Utc(date.year, date.month, date.day) == DayNumber(date)
  {
  }

  /** For dates outside the years 0 to 99, the number is that of the standard exactly
      when the week's Thursday is outside those years too. */
  lemma {:induction false} WeekNumberIsIsoIff(date: Date)
    requires date.Valid() && !TwoDigit(date.year)
    ensures WeekNumberOf(date) == IsoWeek(DayNumber(date)) <==> !TwoDigit(YearOf(ThursdayOf(DayNumber(date))))
  {
    UtcIsDayNumber(date);
    var thursday := ThursdayOf(DayNumber(date));
    ThursdayReached(DayNumber(date));
    ByThursday(thursday, YearOf(thursday));
  }

  /** 1 January 100 is a Friday. */
  lemma {:induction false} EdgeOfTwoDigits()
    ensures YearStart(100) == -683003 && Weekday(YearStart(100)) == 5
  {
  }

  lemma {:induction false} MonthsInOrder(y: int, m: int, n: int)
    requires 0 <= m <= n <= 12
    ensures 0 <= MonthStart(y, m) && MonthStart(y, m) + 28 * (n - m) <= MonthStart(y, n)
    decreases n
  {
    if 0 < n {
      if m < n { MonthsInOrder(y, m, n - 1); } else { MonthsInOrder(y, m - 1, n - 1); }
    }
  }

  lemma {:induction false} DaysAfter100(date: Date)
    requires date.Valid() && date.year >= 100
    ensures DayNumber(date) >= YearStart(100)
    ensures DayNumber(date) <= YearStart(100) + 2 <==> (date.year == 100 && date.month == 0 && date.day <= 3)
  {
    MonthsInOrder(date.year, 0, date.month);
    if date.year > 100 {
      YearsInOrder(100, date.year);
    } else if date.month > 0 {
      MonthsInOrder(100, 1, date.month);
    }
  }

  lemma {:induction false} ThursdayBefore100(n: int)
    requires n >= YearStart(100)
    ensures YearStart(100) - 3 <= ThursdayOf(n)
    ensures ThursdayOf(n) < YearStart(100) <==> n <= YearStart(100) + 2
  {
    EdgeOfTwoDigits();
  }

  /** 1, 2 and 3 January of the year 100: their Thursday is in the year 99. */
  predicate Misread(date: Date) {
    date.year == 100 && date.month == 0 && date.day <= 3
  }

  lemma {:induction false} MisreadYear(date: Date)
    requires date.Valid() && !TwoDigit(date.year) && TwoDigit(YearOf(ThursdayOf(DayNumber(date))))
    ensures WeekNumberOf(date) <= 0
  {
    UtcIsDayNumber(date);
    var thursday := ThursdayOf(DayNumber(date));
    var y := YearOf(thursday);
    YearsInOrder(y + 1, 1900 + y);
    NotPositive(thursday - YearStart(1900 + y) + 1);
  }

  lemma {:induction false} TwoDigitYears(n: int)
    requires YearStart(100) - 3 <= n
    ensures TwoDigit(YearOf(n)) <==> n < YearStart(100)
  {
    var y := YearOf(n);
    if y >= 100 {
      if y > 100 { YearsInOrder(100, y); }
    } else {
      if y + 1 < 100 { YearsInOrder(y + 1, 100); }
    }
  }

  /** From year 100 on, the number is wrong for 1, 2 and 3 January of the year 100 only:
      their Thursday is in the year 99, which `Date.UTC` takes for 1999. */
  lemma {:induction false} WeekNumberFromYear100(date: Date)
    requires date.Valid() && date.year >= 100
    ensures WeekNumberOf(date) == IsoWeek(DayNumber(date)) <==> !Misread(date)
    ensures Misread(date) ==> WeekNumberOf(date) <= 0
  {
    WeekNumberIsIsoIff(date);
    DaysAfter100(date);
    ThursdayBefore100(DayNumber(date));
    TwoDigitYears(ThursdayOf(DayNumber(date)));
    if Misread(date) {
      MisreadYear(date);
    }
  }

  // ----- what the number is for -----

  /** All seven days of a Monday-to-Sunday week have one number. */
  lemma {:induction false} SameWeekSameNumber(date: Date, other: Date)
    requires date.Valid() && other.Valid() && !TwoDigit(date.year) && !TwoDigit(other.year)
    requires MondayOf(DayNumber(date)) == MondayOf(DayNumber(other))
    ensures WeekNumberOf(date) == WeekNumberOf(other)
  {
    UtcIsDayNumber(date);
    UtcIsDayNumber(other);
  }

  lemma {:induction false} Within(lo: int, mid: int, hi: int)
    requires lo <= mid <= hi < lo + 366 && Weekday(mid) == 4
    ensures (mid + 7) / 7 - (lo + 6) / 7 <= (hi + 7) / 7 - (lo + 6) / 7 <= 53
    ensures (mid + 7) / 7 == (hi + 7) / 7 <==> mid + 7 > hi
  {
  }

  lemma {:induction false} IsoWeekRange(n: int)
    ensures 1 <= IsoWeek(n) <= 53
    ensures IsoWeek(n) == 53 <==> LastOf53(ThursdayOf(n))
  {
    var thursday := ThursdayOf(n);
    var y := YearOf(thursday);
    ThursdayReached(n);
    NextYear(y);
    ThursdaysByDivision(YearStart(y), thursday);
    CountThursdays(YearStart(y), thursday);
    CountThursdays(YearStart(y), YearStart(y + 1) - 1);
    AtLeastOne(thursday - YearStart(y) + 1);
    Within(YearStart(y), thursday, YearStart(y + 1) - 1);
    assert IsoWeek(n) == (thursday + 7) / 7 - (YearStart(y) + 6) / 7;
  }

  /** The number is between 1 and 53 for all but the misread dates, and it is 53 exactly
      in the last week of a year with 53 Thursdays. */
  lemma {:induction false} WeekNumberRange(date: Date)
    requires date.Valid() && date.year >= 100
    ensures 1 <= WeekNumberOf(date) <= 53 <==> !Misread(date)
    ensures WeekNumberOf(date) == 53 <==> !Misread(date) && LastOf53(ThursdayOf(DayNumber(date)))
  {
    WeekNumberFromYear100(date);
    IsoWeekRange(DayNumber(date));
  }

  /** The last Thursday of a year that has 53. */
  predicate LastOf53(thursday: int) {
    var y := YearOf(thursday);
    Thursdays(YearStart(y), YearStart(y + 1) - 1) == 53 && thursday + 7 >= YearStart(y + 1)
  }

  lemma {:induction false} IsoWeekOne(y: int)
    ensures IsoWeek(YearStart(y) + 3) == 1 && YearOf(ThursdayOf(YearStart(y) + 3)) == y
  {
    var n := YearStart(y) + 3;
    ThursdayReached(n);
    NextYear(y);
    YearOfIs(ThursdayOf(n), y);
    ThursdaysByDivision(YearStart(y), ThursdayOf(n));
  }

  /** The first week of a year is the one with 4 January in it. */
  lemma {:induction false} FourthOfJanuaryIsInWeekOne(y: int)
    requires y >= 100
    ensures WeekNumberOf(Date(y, 0, 4)) == 1
  {
    IsoWeekOne(y);
    assert DayNumber(Date(y, 0, 4)) == YearStart(y) + 3;
    WeekNumberFromYear100(Date(y, 0, 4));
  }

  lemma {:induction false} YearIsUnique(n: int, y: int, z: int)
    requires YearStart(y) <= n < YearStart(y + 1) && YearStart(z) <= n < YearStart(z + 1)
    ensures y == z
  {
    YearOfIs(n, y);
    YearOfIs(n, z);
  }

  lemma {:induction false} SeventhsLater(n: int)
    ensures CeilSevenths(n + 7) == CeilSevenths(n) + 1
    ensures 1 <= n <= 7 ==> CeilSevenths(n) == 1
  {
  }

  lemma {:induction false} OneMoreThursday(lo: int, thursday: int, next: int)
    requires lo <= thursday && Weekday(thursday) == 4 && next == thursday + 7
    ensures Thursdays(lo, next) == Thursdays(lo, thursday) + 1
  {
    assert Weekday(next) == 4;
    ThursdaysByDivision(lo, thursday);
    ThursdaysByDivision(lo, next);
    SeventhsLater(thursday - lo + 1);
  }

  lemma {:induction false} FirstThursday(lo: int, thursday: int)
    requires lo <= thursday <= lo + 6 && Weekday(thursday - 7) == 4
    ensures Thursdays(lo, thursday) == 1
  {
    assert Weekday(thursday) == 4;
    ThursdaysByDivision(lo, thursday);
    SeventhsLater(thursday - lo + 1);
  }

  lemma {:induction false} EarlyInYear(n: int, y: int, z: int)
    requires YearStart(y) <= n < YearStart(y) + 7 && YearStart(z) <= n < YearStart(z + 1)
    ensures y == z
  {
    NextYear(y);
    YearIsUnique(n, y, z);
  }

  lemma {:induction false} WeekLater(thursday: int, next: int, y: int, z: int)
    requires Weekday(thursday) == 4 && next == thursday + 7
    requires YearStart(y) <= thursday < YearStart(y + 1) && YearStart(z) <= next < YearStart(z + 1)
    ensures Thursdays(YearStart(z), next) == if z == y then Thursdays(YearStart(y), thursday) + 1 else 1
  {
    if next < YearStart(y + 1) {
      YearIsUnique(next, y, z);
      OneMoreThursday(YearStart(y), thursday, next);
    } else {
      EarlyInYear(next, y + 1, z);
      FirstThursday(YearStart(z), next);
    }
  }

  lemma {:induction false} NextThursday(n: int)
    ensures ThursdayOf(n + 7) == ThursdayOf(n) + 7
  {
  }

  lemma {:induction false} LaterIsRead(date: Date, later: Date)
    requires date.Valid() && later.Valid() && date.year >= 100 && later.year >= 100 && !Misread(date)
    requires DayNumber(date) <= DayNumber(later)
    ensures !Misread(later)
  {
    DaysAfter100(date);
    DaysAfter100(later);
  }

  lemma {:induction false} IsoNextWeek(n: int, m: int)
    requires m == n + 7
    ensures IsoWeek(m) == if YearOf(ThursdayOf(m)) == YearOf(ThursdayOf(n)) then IsoWeek(n) + 1 else 1
  {
    NextThursday(n);
    ThursdayReached(n);
    var thursday, next := ThursdayOf(n), ThursdayOf(m);
    WeekLater(thursday, next, YearOf(thursday), YearOf(next));
  }

  /** A week later the number is the next one, unless a new year's count begins. */
  lemma {:induction false} NextWeekNextNumber(date: Date, later: Date)
    requires date.Valid() && later.Valid() && date.year >= 100 && later.year >= 100 && !Misread(date)
    requires DayNumber(later) == DayNumber(date) + 7
    ensures var y, z := YearOf(ThursdayOf(DayNumber(date))), YearOf(ThursdayOf(DayNumber(later)));
            WeekNumberOf(later) == if y == z then WeekNumberOf(date) + 1 else 1
  {
    var n, m := DayNumber(date), DayNumber(later);
    assert !Misread(later) by {
      LaterIsRead(date, later);
    }
    assert WeekNumberOf(date) == IsoWeek(n) by { WeekNumberFromYear100(date); }
    assert WeekNumberOf(later) == IsoWeek(m) by { WeekNumberFromYear100(later); }
    IsoNextWeek(n, m);
  }

  /** The number, for every date from year 100 on that is not misread, by the standard's
      rule on the count from March. */
  lemma {:induction false} WeekNumberByMarchCount(date: Date)
    requires date.Valid() && date.year >= 100 && !Misread(date)
    ensures WeekNumberOf(date) == IsoWeek(CountedFromMarch(date))
  {
    WeekNumberFromYear100(date);
    DayNumberFromMarch(date);
  }
}
