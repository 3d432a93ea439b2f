/** Civil (proleptic Gregorian) calendar dates with the arithmetic that
    JavaScript's `Date` performs when a field is set out of range:
    `setDate(getDate() + n)` moves by whole days, and `new Date(y, m, d)`
    rolls months past December into the next year and day 0 back to the
    last day of the previous month. Months are 1..12 here; JavaScript month
    indices (0..11, possibly out of range) are converted by `FirstOfMonth`. */
module CivilDate {

  datatype Date = Date(year: int, month: int, day: int)

  predicate IsLeap(y: int) {
    (y % 4 == 0 && y % 100 != 0) || y % 400 == 0
  }

  function DaysInMonth(y: int, m: int): (n: int)
    requires 1 <= m <= 12
    ensures 28 <= n <= 31
    ensures n == 29 <==> m == 2 && IsLeap(y)
  {
    if m == 2 then (if IsLeap(y) then 29 else 28)
    else if m == 4 || m == 6 || m == 9 || m == 11 then 30
    else 31
  }

  function YearLength(y: int): int {
    if IsLeap(y) then 366 else 365
  }

  predicate Valid(d: Date) {
    1 <= d.month <= 12 && 1 <= d.day <= DaysInMonth(d.year, d.month)
  }

  /** The day after `d`. */
  function NextDay(d: Date): (r: Date)
    requires Valid(d)
    ensures Valid(r)
  {
    if d.day < DaysInMonth(d.year, d.month) then Date(d.year, d.month, d.day + 1)
    else if d.month < 12 then Date(d.year, d.month + 1, 1)
    else Date(d.year + 1, 1, 1)
  }

  /** The day before `d`. */
  function PrevDay(d: Date): (r: Date)
    requires Valid(d)
    ensures Valid(r)
  {
    if d.day > 1 then Date(d.year, d.month, d.day - 1)
    else if d.month > 1 then Date(d.year, d.month - 1, DaysInMonth(d.year, d.month - 1))
    else Date(d.year - 1, 12, 31)
  }

  /** `d.setDate(d.getDate() + n)`: `n` whole days later (earlier when
      negative). */
  function AddDays(d: Date, n: int): (r: Date)
    requires Valid(d)
    ensures Valid(r)
    decreases if n < 0 then -n else n
  {
    if n == 0 then d
    else if n > 0 then AddDays(NextDay(d), n - 1)
    else AddDays(PrevDay(d), n + 1)
  }

  /** The first day of JavaScript month index `mi` of year `y`; indices
      outside 0..11 roll into neighbouring years. */
  function FirstOfMonth(y: int, mi: int): (r: Date)
    ensures Valid(r) && r.day == 1
    ensures r.year == y + mi / 12 && r.month == mi % 12 + 1
  {
    Date(y + mi / 12, mi % 12 + 1, 1)
  }

  /** `new Date(y, mi, d)` without its time of day: day `d` counted from
      the first of month index `mi`, so `d == 0` is the day before it. */
  function MakeDate(y: int, mi: int, d: int): (r: Date)
    ensures Valid(r)
  {
    AddDays(FirstOfMonth(y, mi), d - 1)
  }

  /** The last day of the month that `d` lies in. */
  function LastOfMonth(d: Date): (r: Date)
    requires Valid(d)
    ensures Valid(r) && r.year == d.year && r.month == d.month
    ensures r.day == DaysInMonth(d.year, d.month)
  {
    Date(d.year, d.month, DaysInMonth(d.year, d.month))
  }

  // ------------------------------------------------------ day numbering

  /** Days from 1 January 1970 to 1 January of `y` (negative before 1970). */
  function DaysBeforeYear(y: int): int
    decreases if y >= 1970 then y - 1970 else 1970 - y
  {
    if y == 1970 then 0
    else if y > 1970 then DaysBeforeYear(y - 1) + YearLength(y - 1)
    else DaysBeforeYear(y + 1) - YearLength(y)
  }

  /** Days of year `y` before the first of month `m`. */
  function DaysBeforeMonth(y: int, m: int): int
    requires 1 <= m <= 13
  {
    if m == 1 then 0 else DaysBeforeMonth(y, m - 1) + DaysInMonth(y, m - 1)
  }

  /** The day's number counted from 1 January 1970: the whole-day part of
      the time value JavaScript compares when it orders two dates. */
  function DayNumber(d: Date): int
    requires Valid(d)
  {
    DaysBeforeYear(d.year) + DaysBeforeMonth(d.year, d.month) + d.day - 1
  }

  /** `a < b` for two dates at the same time of day. */
  predicate Before(a: Date, b: Date)
    requires Valid(a) && Valid(b)
  {
    DayNumber(a) < DayNumber(b)
  }

  predicate NotAfter(a: Date, b: Date)
    requires Valid(a) && Valid(b)
  {
    DayNumber(a) <= DayNumber(b)
  }

  /** Calendar order: by year, then month, then day. */
  predicate LexBefore(a: Date, b: Date) {
    a.year < b.year
    || (a.year == b.year && a.month < b.month)
    || (a.year == b.year && a.month == b.month && a.day < b.day)
  }

  // ------------------------------------------------------------- lemmas

  lemma DaysBeforeYearStep(y: int)
    ensures DaysBeforeYear(y + 1) == DaysBeforeYear(y) + YearLength(y)
  {
  }

  lemma DaysBeforeMonthFullYear(y: int)
    ensures DaysBeforeMonth(y, 13) == YearLength(y)
  {
    var feb := DaysInMonth(y, 2);
    assert DaysBeforeMonth(y, 2) == 31;
    assert DaysBeforeMonth(y, 3) == 31 + feb;
    assert DaysBeforeMonth(y, 4) == 62 + feb;
    assert DaysBeforeMonth(y, 5) == 92 + feb;
    assert DaysBeforeMonth(y, 6) == 123 + feb;
    assert DaysBeforeMonth(y, 7) == 153 + feb;
    assert DaysBeforeMonth(y, 8) == 184 + feb;
    assert DaysBeforeMonth(y, 9) == 215 + feb;
    assert DaysBeforeMonth(y, 10) == 245 + feb;
    assert DaysBeforeMonth(y, 11) == 276 + feb;
    assert DaysBeforeMonth(y, 12) == 306 + feb;
  }

  lemma {:induction false} DaysBeforeMonthMono(y: int, m1: int, m2: int)
    requires 1 <= m1 <= m2 <= 13
    ensures DaysBeforeMonth(y, m1) <= DaysBeforeMonth(y, m2)
    decreases m2 - m1
  {
    if m1 < m2 {
      DaysBeforeMonthMono(y, m1, m2 - 1);
    }
  }

  lemma {:induction false} DaysBeforeYearMono(a: int, b: int)
    requires a < b
    ensures DaysBeforeYear(a + 1) <= DaysBeforeYear(b)
    decreases b - a
  {
    if a + 1 < b {
      DaysBeforeYearMono(a, b - 1);
      DaysBeforeYearStep(b - 1);
    }
  }

  /** A valid date's number falls inside its year and its month. */
  lemma DayNumberBounds(d: Date)
    requires Valid(d)
    ensures DaysBeforeYear(d.year) <= DayNumber(d) < DaysBeforeYear(d.year + 1)
    ensures DaysBeforeMonth(d.year, d.month) <= DayNumber(d) - DaysBeforeYear(d.year)
              < DaysBeforeMonth(d.year, d.month + 1)
  {
    DaysBeforeYearStep(d.year);
    DaysBeforeMonthFullYear(d.year);
    DaysBeforeMonthMono(d.year, d.month + 1, 13);
    DaysBeforeMonthMono(d.year, 1, d.month);
    assert DaysBeforeMonth(d.year, d.month + 1) == DaysBeforeMonth(d.year, d.month) + DaysInMonth(d.year, d.month);
  }

  /** Comparing day numbers is comparing dates in calendar order. */
  lemma BeforeIsCalendarOrder(a: Date, b: Date)
    requires Valid(a) && Valid(b)
    ensures Before(a, b) <==> LexBefore(a, b)
  {
    if a.year < b.year || (a.year == b.year && a.month < b.month) {
      EarlierMonthFirst(a, b);
    } else if b.year < a.year || (a.year == b.year && b.month < a.month) {
      EarlierMonthFirst(b, a);
    }
  }

  /** A date in an earlier month (of the same or an earlier year) has a
      smaller number. */
  lemma EarlierMonthFirst(a: Date, b: Date)
    requires Valid(a) && Valid(b)
    requires a.year < b.year || (a.year == b.year && a.month < b.month)
    ensures DayNumber(a) < DayNumber(b)
  {
    DayNumberBounds(a);
    DayNumberBounds(b);
    if a.year < b.year {
      DaysBeforeYearMono(a.year, b.year);
    } else {
      DaysBeforeMonthMono(a.year, a.month + 1, b.month);
    }
  }

  /** Distinct dates have distinct day numbers. */
  lemma DayNumberInjective(a: Date, b: Date)
    requires Valid(a) && Valid(b)
    ensures DayNumber(a) == DayNumber(b) <==> a == b
  {
    BeforeIsCalendarOrder(a, b);
    BeforeIsCalendarOrder(b, a);
  }

  lemma NextDayNumber(d: Date)
    requires Valid(d)
    ensures DayNumber(NextDay(d)) == DayNumber(d) + 1
  {
    if d.day == DaysInMonth(d.year, d.month) && d.month == 12 {
      DaysBeforeYearStep(d.year);
      DaysBeforeMonthFullYear(d.year);
    }
  }

  lemma PrevDayNumber(d: Date)
    requires Valid(d)
    ensures DayNumber(PrevDay(d)) == DayNumber(d) - 1
  {
    if d.day > 1 {
    } else if d.month > 1 {
      assert PrevDay(d) == LastOfMonth(Date(d.year, d.month - 1, 1));
      MonthsMeet(d.year, d.month);
    } else {
      assert PrevDay(d) == Date(d.year - 1, 12, 31);
      NewYearsEve(d.year - 1);
    }
  }

  /** The first of month `m` comes the day after the last of month
      `m - 1`. */
  lemma MonthsMeet(y: int, m: int)
    requires 2 <= m <= 12
    ensures DayNumber(LastOfMonth(Date(y, m - 1, 1))) + 1 == DayNumber(Date(y, m, 1))
  {
    assert DaysBeforeMonth(y, m) == DaysBeforeMonth(y, m - 1) + DaysInMonth(y, m - 1);
  }

  /** New Year's Day comes the day after New Year's Eve. */
  lemma NewYearsEve(y: int)
    ensures DayNumber(Date(y, 12, 31)) + 1 == DayNumber(Date(y + 1, 1, 1))
  {
    DaysBeforeYearStep(y);
    DaysBeforeMonthFullYear(y);
    assert DaysBeforeMonth(y, 13) == DaysBeforeMonth(y, 12) + 31;
  }

  /** Moving `n` days changes the day number by exactly `n`. */
  lemma {:induction false} AddDaysNumber(d: Date, n: int)
    requires Valid(d)
    ensures DayNumber(AddDays(d, n)) == DayNumber(d) + n
    decreases if n < 0 then -n else n
  {
    if n > 0 {
      NextDayNumber(d);
      AddDaysNumber(NextDay(d), n - 1);
    } else if n < 0 {
      PrevDayNumber(d);
      AddDaysNumber(PrevDay(d), n + 1);
    }
  }

  /** Moving forward never goes back in time. */
  lemma AddDaysNotBefore(d: Date, n: nat)
    requires Valid(d)
    ensures NotAfter(d, AddDays(d, n))
  {
    AddDaysNumber(d, n);
  }

  /** Day 0 of a month is the last day of the month before:
      `new Date(y, mi + 1, 0)` is the last day of month index `mi`. */
  lemma DayZeroIsLastOfPreviousMonth(y: int, mi: int)
    ensures MakeDate(y, mi + 1, 0) == LastOfMonth(FirstOfMonth(y, mi))
  {
    var next := FirstOfMonth(y, mi + 1);
    var cur := FirstOfMonth(y, mi);
    assert AddDays(next, -1) == AddDays(PrevDay(next), 0);
    if mi % 12 == 11 {
      assert (mi + 1) % 12 == 0 && (mi + 1) / 12 == mi / 12 + 1;
    } else {
      assert (mi + 1) % 12 == mi % 12 + 1 && (mi + 1) / 12 == mi / 12;
    }
  }

  /** Day 1 of a month is its first day. */
  lemma DayOneIsFirst(y: int, mi: int)
    ensures MakeDate(y, mi, 1) == FirstOfMonth(y, mi)
  {
  }

  /** Day 0 of a month index is the day before its first day. */
  lemma DayZeroIsPrevDay(y: int, mi: int)
    ensures MakeDate(y, mi, 0) == PrevDay(FirstOfMonth(y, mi))
  {
    var first := FirstOfMonth(y, mi);
    assert AddDays(first, -1) == AddDays(PrevDay(first), 0);
  }

  /** A month's first day is not after its last day. */
  lemma FirstNotAfterLast(d: Date)
    requires Valid(d) && d.day == 1
    ensures NotAfter(d, LastOfMonth(d))
  {
  }

  /** The month index of a valid date gives back its own first day. */
  lemma FirstOfOwnMonth(d: Date)
    requires Valid(d)
    ensures FirstOfMonth(d.year, d.month - 1) == Date(d.year, d.month, 1)
  {
  }
}
