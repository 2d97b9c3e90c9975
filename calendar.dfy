/** Gregorian calendar arithmetic, as `date + timedelta(days=n)` performs it. */
module Calendar {
  import opened Models

  predicate IsLeapYear(y: int)
  {
    y % 4 == 0 && (y % 100 != 0 || y % 400 == 0)
  }

  function DaysInMonth(year: int, month: int): (n: int)
    requires 1 <= month <= 12
    ensures 28 <= n <= 31
    ensures n == 29 <==> month == 2 && IsLeapYear(year)
  {
    if month == 2 then (if IsLeapYear(year) then 29 else 28)
    else if month == 4 || month == 6 || month == 9 || month == 11 then 30
    else 31
  }

  /** The dates a `datetime.date` can hold (the year range of Python is not modelled). */
  predicate ValidDate(d: Date)
  {
    1 <= d.month <= 12 && 1 <= d.day <= DaysInMonth(d.year, d.month)
  }

  function NextMonth(m: int): (r: int)
    requires 1 <= m <= 12
    ensures 1 <= r <= 12 && r != m
  {
    if m == 12 then 1 else m + 1
  }

  /** The day after `d`. */
  function NextDay(d: Date): (r: Date)
    requires ValidDate(d)
    ensures ValidDate(r)
    ensures d.day < DaysInMonth(d.year, d.month) ==> r.month == d.month && r.day == d.day + 1
    ensures d.day == DaysInMonth(d.year, d.month) ==> r.month == NextMonth(d.month) && r.day == 1
    ensures r.year == if d.month == 12 && d.day == 31 then d.year + 1 else d.year
    ensures Before(d, r)
  {
    if d.day < DaysInMonth(d.year, d.month) then d.(day := d.day + 1)
    else if d.month < 12 then Date(d.year, d.month + 1, 1)
    else Date(d.year + 1, 1, 1)
  }

  /** `a` comes strictly before `b` in the calendar. */
  predicate Before(a: Date, b: Date)
  {
    a.year < b.year || (a.year == b.year && (a.month < b.month || (a.month == b.month && a.day < b.day)))
  }

  /** `d + timedelta(days=n)`. */
  function AddDays(d: Date, n: nat): (r: Date)
    requires ValidDate(d)
    ensures ValidDate(r)
    ensures n > 0 ==> Before(d, r)
    decreases n
  {
    if n == 0 then d else NextDay(AddDays(d, n - 1))
  }

  /**
   * Fewer than 28 days ahead lies in the same month or in the next one, since no month is
   * shorter than 28 days; in the next month the day is what overflows the current month.
   */
  lemma {:induction false} AddDaysShape(d: Date, n: nat)
    requires ValidDate(d) && n < 28
    ensures var r := AddDays(d, n);
      && (d.day + n <= DaysInMonth(d.year, d.month) ==> r.month == d.month && r.day == d.day + n)
      && (d.day + n > DaysInMonth(d.year, d.month) ==>
            r.month == NextMonth(d.month) && r.day == d.day + n - DaysInMonth(d.year, d.month))
  {
    if n > 0 {
      AddDaysShape(d, n - 1);
      var p := AddDays(d, n - 1);
      if d.day + n - 1 <= DaysInMonth(d.year, d.month) {
        assert p.year == d.year by { YearKept(d, n - 1); }
      }
    }
  }

  /** Within the same month the year does not change. */
  lemma {:induction false} YearKept(d: Date, n: nat)
    requires ValidDate(d) && d.day + n <= DaysInMonth(d.year, d.month)
    ensures AddDays(d, n).year == d.year && AddDays(d, n).month == d.month
    ensures AddDays(d, n).day == d.day + n
  {
    if n > 0 {
      YearKept(d, n - 1);
    }
  }
}
