/**
 * The proleptic Gregorian calendar behind `chrono::NaiveDate`.  Adding days is defined by walking the
 * calendar one day at a time; `DayNumber` is the closed form it is compared with.
 */
module Calendar {

  datatype Date = Date(year: int, month: nat, day: nat)

  predicate IsLeap(year: int) {
    year % 4 == 0 && (year % 100 != 0 || year % 400 == 0)
  }

  function DaysInMonth(year: int, month: nat): nat {
    if month == 2 then (if IsLeap(year) then 29 else 28)
    else if month == 4 || month == 6 || month == 9 || month == 11 then 30
    else 31
  }

  predicate ValidDate(d: Date) {
    1 <= d.month <= 12 && 1 <= d.day <= DaysInMonth(d.year, d.month)
  }

  function NewYear(year: int): Date {
    Date(year, 1, 1)
  }

  function NextDay(d: Date): Date {
    if d.day < DaysInMonth(d.year, d.month) then d.(day := d.day + 1)
    else if d.month < 12 then Date(d.year, d.month + 1, 1)
    else NewYear(d.year + 1)
  }

  function PreviousDay(d: Date): Date
    requires ValidDate(d)
  {
    if d.day > 1 then d.(day := d.day - 1)
    else if d.month > 1 then Date(d.year, d.month - 1, DaysInMonth(d.year, d.month - 1))
    else Date(d.year - 1, 12, 31)
  }

  /** The date `n` days after `d`, before it when `n` is negative. */
  function AddDays(d: Date, n: int): (r: Date)
    requires ValidDate(d)
    ensures ValidDate(r)
    decreases if n < 0 then -n else n
  {
    if n == 0 then d
    else if n > 0 then NextDay(AddDays(d, n - 1))
    else PreviousDay(AddDays(d, n + 1))
  }

  // ----- the closed form

  /** Days from 0001-01-01 to January 1 of `year`. */
  function YearStart(year: int): int {
    365 * (year - 1) + (year - 1) / 4 - (year - 1) / 100 + (year - 1) / 400
  }

  function MonthStart(year: int, month: nat): nat {
    if month <= 1 then 0 else MonthStart(year, month - 1) + DaysInMonth(year, month - 1)
  }

  /** Days from 0001-01-01 to `d`. */
  function DayNumber(d: Date): int {
    YearStart(d.year) + MonthStart(d.year, d.month) + d.day - 1
  }

  function YearLength(year: int): nat {
    if IsLeap(year) then 366 else 365
  }

  lemma FourYearStep(n: int)
    ensures n / 4 == (n - 1) / 4 + if n % 4 == 0 then 1 else 0
  {}

  lemma CenturyStep(n: int)
    ensures n / 100 == (n - 1) / 100 + if n % 100 == 0 then 1 else 0
  {}

  lemma FourCenturyStep(n: int)
    ensures n / 400 == (n - 1) / 400 + if n % 400 == 0 then 1 else 0
  {}

  lemma LeapRulesNest(n: int)
    ensures n % 400 == 0 ==> n % 100 == 0
    ensures n % 100 == 0 ==> n % 4 == 0
  {
    if n % 400 == 0 {
      FourCenturiesAreCenturies(n / 400);
    }
    if n % 100 == 0 {
      CenturiesAreFours(n / 100);
    }
  }

  lemma FourCenturiesAreCenturies(q: int)
    ensures 400 * q % 100 == 0
  {}

  lemma CenturiesAreFours(q: int)
    ensures 100 * q % 4 == 0
  {}

  lemma NextYearStart(year: int)
    ensures YearStart(year + 1) == YearStart(year) + YearLength(year)
  {
    FourYearStep(year);
    CenturyStep(year);
    FourCenturyStep(year);
    LeapRulesNest(year);
  }

  lemma MonthsFillTheYear(year: int)
    ensures MonthStart(year, 12) + 31 == YearLength(year)
  {
    assert MonthStart(year, 2) == 31;
    assert MonthStart(year, 3) == 31 + DaysInMonth(year, 2);
    assert MonthStart(year, 5) == MonthStart(year, 4) + 30 == MonthStart(year, 3) + 61;
    assert MonthStart(year, 7) == MonthStart(year, 6) + 30 == MonthStart(year, 5) + 61;
    assert MonthStart(year, 9) == MonthStart(year, 8) + 31 == MonthStart(year, 7) + 62;
    assert MonthStart(year, 11) == MonthStart(year, 10) + 31 == MonthStart(year, 9) + 61;
  }

  lemma NextDayNumber(d: Date)
    requires ValidDate(d)
    ensures DayNumber(NextDay(d)) == DayNumber(d) + 1
  {
    hide YearStart;
    NextYearStart(d.year);
    MonthsFillTheYear(d.year);
  }

  lemma PreviousDayNumber(d: Date)
    requires ValidDate(d)
    ensures DayNumber(PreviousDay(d)) == DayNumber(d) - 1
  {
    hide YearStart;
    NextYearStart(d.year - 1);
    MonthsFillTheYear(d.year - 1);
  }

  /** Walking `n` days moves the day number by `n`. */
  lemma {:induction false} AddDaysMovesDayNumber(d: Date, n: int)
    requires ValidDate(d)
    ensures DayNumber(AddDays(d, n)) == DayNumber(d) + n
    decreases if n < 0 then -n else n
  {
    hide ValidDate, DayNumber, NextDay, PreviousDay;
    if n > 0 {
      AddDaysMovesDayNumber(d, n - 1);
      NextDayNumber(AddDays(d, n - 1));
    } else if n < 0 {
      AddDaysMovesDayNumber(d, n + 1);
      PreviousDayNumber(AddDays(d, n + 1));
    }
  }

  // ----- one date per day number

  lemma {:induction false} MonthStartGrows(year: int, early: nat, late: nat)
    requires 1 <= early < late <= 12
    ensures MonthStart(year, early) + DaysInMonth(year, early) <= MonthStart(year, late)
  {
    if early + 1 < late {
      MonthStartGrows(year, early, late - 1);
    }
  }

  lemma {:induction false} YearStartGrows(early: int, late: int)
    requires early < late
    ensures YearStart(early) + YearLength(early) <= YearStart(late)
    decreases late - early
  {
    NextYearStart(late - 1);
    if early < late - 1 {
      YearStartGrows(early, late - 1);
    }
  }

  /** The months' first days by the usual formula over 153 days in five months. */
  lemma MonthStartIsClosedForm(year: int, month: nat)
    requires 3 <= month <= 12
    ensures MonthStart(year, month) == 59 + (if IsLeap(year) then 1 else 0) + (153 * (month - 3) + 2) / 5
    ensures MonthStart(year, 1) == 0 && MonthStart(year, 2) == 31
  {
    assert MonthStart(year, 2) == 31;
    if month > 3 {
      MonthStartIsClosedForm(year, month - 1);
    }
  }

  lemma DayIsInItsYear(d: Date)
    requires ValidDate(d)
    ensures YearStart(d.year) <= DayNumber(d) < YearStart(d.year) + YearLength(d.year)
  {
    MonthsFillTheYear(d.year);
    if d.month < 12 {
      MonthStartGrows(d.year, d.month, 12);
    }
  }

  /** A day number belongs to one date. */
  lemma DayNumberIsInjective(a: Date, b: Date)
    requires ValidDate(a) && ValidDate(b) && DayNumber(a) == DayNumber(b)
    ensures a == b
  {
    hide YearStart, YearLength, MonthStart, DaysInMonth;
    DayIsInItsYear(a);
    DayIsInItsYear(b);
    if a.year < b.year {
      YearStartGrows(a.year, b.year);
    } else if b.year < a.year {
      YearStartGrows(b.year, a.year);
    } else if a.month < b.month {
      MonthStartGrows(a.year, a.month, b.month);
    } else if b.month < a.month {
      MonthStartGrows(a.year, b.month, a.month);
    }
  }
}
