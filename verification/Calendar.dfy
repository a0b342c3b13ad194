/** Dates of the Gregorian calendar as days since 1970, the way the `time` library counts them. */
module Calendar {

  datatype Date = Date(year: nat, month: nat, day: nat)

  predicate Leap(year: nat) {
    year % 4 == 0 && (year % 100 != 0 || year % 400 == 0)
  }

  function DaysInMonth(year: nat, month: nat): nat {
    if month == 2 then (if Leap(year) then 29 else 28)
    else if month == 4 || month == 6 || month == 9 || month == 11 then 30
    else 31
  }

  predicate Valid(date: Date) {
    date.year <= 9999 && 1 <= date.month <= 12 && 1 <= date.day <= DaysInMonth(date.year, date.month)
  }

  /** Days from the beginning of year 0 to that of `year`. */
  function DaysBeforeYear(year: nat): nat {
    365 * year + (year + 3) / 4 + (year + 399) / 400 - (year + 99) / 100
  }

  function DaysBeforeMonth(year: nat, month: nat): nat {
    if month <= 1 then 0 else DaysBeforeMonth(year, month - 1) + DaysInMonth(year, month - 1)
  }

  /** Days since 1970-01-01. */
  function DayNumber(date: Date): int {
    DaysBeforeYear(date.year) + DaysBeforeMonth(date.year, date.month) + date.day - 1 - 719528
  }

  /** The day after, by the calendar. */
  function Tomorrow(date: Date): Date {
    if date.day < DaysInMonth(date.year, date.month) then date.(day := date.day + 1)
    else if date.month < 12 then Date(date.year, date.month + 1, 1)
    else Date(date.year + 1, 1, 1)
  }

  lemma YearLength(year: nat)
    ensures DaysBeforeYear(year + 1) == DaysBeforeYear(year) + (if Leap(year) then 366 else 365)
  {
    StepCount(year, 4);
    StepCount(year, 100);
    StepCount(year, 400);
    Centuries(year);
  }

  lemma Centuries(year: nat)
    ensures year % 100 == 0 ==> year % 4 == 0
    ensures year % 400 == 0 ==> year % 100 == 0
  {
    Divides(year, 4, 25);
    Divides(year, 100, 4);
  }

  /** What divides by `a * b` divides by `a`. */
  lemma Divides(year: nat, a: nat, b: nat)
    requires (a == 4 && b == 25) || (a == 100 && b == 4)
    ensures year % (a * b) == 0 ==> year % a == 0
  {
  }

  /** Multiples of `n` below `year + 1`, and below `year`. */
  lemma StepCount(year: nat, n: nat)
    requires n == 4 || n == 100 || n == 400
    ensures (year + n) / n == (year + n - 1) / n + (if year % n == 0 then 1 else 0)
  {
  }

  /** The numbers count the days one by one from 1970-01-01 on. */
  lemma DaysCountUp(date: Date)
    requires Valid(date)
    ensures DayNumber(Tomorrow(date)) == DayNumber(date) + 1
    ensures DayNumber(Date(1970, 1, 1)) == 0
  {
    YearLength(date.year);
    WholeYear(date.year);
  }

  lemma WholeYear(year: nat)
    ensures DaysBeforeMonth(year, 12) + 31 == if Leap(year) then 366 else 365
  {
    var february := DaysInMonth(year, 2);
    assert DaysBeforeMonth(year, 2) == 31;
    assert DaysBeforeMonth(year, 3) == february + 31;
    assert DaysBeforeMonth(year, 5) == february + 92;
    assert DaysBeforeMonth(year, 7) == february + 153;
    assert DaysBeforeMonth(year, 9) == february + 215;
    assert DaysBeforeMonth(year, 11) == february + 276;
  }

  // ----- By other rules -----

  /** The lengths of the months as they are in the books, for a year without a leap day. */
  const MONTHS: seq<nat> := [31, 28, 31, 30, 31, 30, 31, 31, 30, 31, 30, 31]

  lemma MonthLength(year: nat, month: nat)
    requires 1 <= month <= 12
    ensures DaysInMonth(year, month) == MONTHS[month - 1] + if month == 2 && Leap(year) then 1 else 0
  {
  }

  /** The rule of the `n`-th day of the year: months of 30 and 31 days in turn, but for February. */
  lemma {:induction false} MonthBegins(year: nat, month: nat)
    requires 1 <= month <= 12
    ensures DaysBeforeMonth(year, month)
         == (367 * month - 362) / 12 - (if month <= 2 then 0 else if Leap(year) then 1 else 2)
  {
    if month > 1 {
      MonthBegins(year, month - 1);
      MonthLength(year, month - 1);
    }
  }

  /** Days before the months of a year that begins in March. */
  function FromMarch(month: nat): nat
    requires 1 <= month <= 12
  {
    (153 * (if month > 2 then month - 3 else month + 9) + 2) / 5
  }

  lemma MarchIsShifted(year: nat, month: nat)
    requires 1 <= month <= 12
    ensures month > 2 ==> DaysBeforeMonth(year, month) == FromMarch(month) + 59 + (if Leap(year) then 1 else 0)
    ensures month <= 2 ==> DaysBeforeMonth(year, month) == FromMarch(month) - 306
  {
    MonthBegins(year, month);
  }

  /** Leap days of the years before `year`, and of those up to it. */
  lemma LeapDaysBefore(year: nat)
    ensures DaysBeforeYear(year) == 365 * year + (year - 1) / 4 - (year - 1) / 100 + (year - 1) / 400 + 1
    ensures year / 4 - year / 100 + year / 400
         == (year - 1) / 4 - (year - 1) / 100 + (year - 1) / 400 + (if Leap(year) then 1 else 0)
  {
    BackBy(year, 4);
    BackBy(year, 100);
    BackBy(year, 400);
    Centuries(year);
  }

  lemma BackBy(year: nat, n: nat)
    requires n == 4 || n == 100 || n == 400
    ensures (year + n - 1) / n == (year - 1) / n + 1
    ensures year / n == (year - 1) / n + if year % n == 0 then 1 else 0
  {
  }

  /** The closed form that counts years from March, with no table of months. */
  lemma DayNumberIsCivil(date: Date)
    requires Valid(date)
    ensures var year := if date.month > 2 then date.year else date.year - 1;
            DayNumber(date) == 365 * year + year / 4 - year / 100 + year / 400 + FromMarch(date.month) + date.day - 1 - 719468
  {
    MarchIsShifted(date.year, date.month);
    LeapDaysBefore(date.year);
  }
}
