/**
 * The proleptic Gregorian calendar that a JavaScript Date works in.
 *
 * Months are numbered consecutively: month `12 * year + index`, with the index 0 for
 * January. Days are numbered from 1 January 1970.
 */
module Calendar {

  const EPOCH_MONTH := 1970 * 12

  predicate IsLeapYear(year: int) {
    year % 4 == 0 && (year % 100 != 0 || year % 400 == 0)
  }

  /** Leap days before 1 January of the year, counted from 1 January of year 0. */
  function LeapDaysBefore(year: int): int {
    (year + 3) / 4 - (year + 99) / 100 + (year + 399) / 400
  }

  /** Days from 1 January to the first of the month, in a common year. */
  function CommonYearOffset(index: int): int
    requires 0 <= index < 12
  {
    if index < 3 then (if index == 0 then 0 else if index == 1 then 31 else 59)
    else if index < 6 then (if index == 3 then 90 else if index == 4 then 120 else 151)
    else if index < 9 then (if index == 6 then 181 else if index == 7 then 212 else 243)
    else (if index == 9 then 273 else if index == 10 then 304 else 334)
  }

  /** The day number of the first day of a month. */
  function MonthStart(month: int): int {
    var year, index := month / 12, month % 12;
    365 * year + LeapDaysBefore(year) - 719528
    + CommonYearOffset(index) + (if index > 1 && IsLeapYear(year) then 1 else 0)
  }

  function MonthLength(month: int): (length: int)
    ensures 28 <= length <= 31
  {
    var index := month % 12;
    if index == 1 then (if IsLeapYear(month / 12) then 29 else 28)
    else if index in {3, 5, 8, 10} then 30
    else 31
  }

  lemma LeapDaysStep(year: int)
    ensures LeapDaysBefore(year + 1) == LeapDaysBefore(year) + (if IsLeapYear(year) then 1 else 0)
  {
    FourYears(year);
    HundredYears(year);
    FourHundredYears(year);
    HundredsAreFours(year);
  }

  lemma FourYears(year: int)
    ensures (year + 4) / 4 == (year + 3) / 4 + (if year % 4 == 0 then 1 else 0)
  {
  }

  lemma HundredYears(year: int)
    ensures (year + 100) / 100 == (year + 99) / 100 + (if year % 100 == 0 then 1 else 0)
  {
  }

  lemma FourHundredYears(year: int)
    ensures (year + 400) / 400 == (year + 399) / 400 + (if year % 400 == 0 then 1 else 0)
  {
  }

  lemma HundredsAreFours(year: int)
    ensures year % 400 == 0 ==> year % 100 == 0
    ensures year % 100 == 0 ==> year % 4 == 0
  {
    HundredTimes(4 * (year / 400));
    FourTimes(25 * (year / 100));
  }

  lemma HundredTimes(k: int)
    ensures 100 * k % 100 == 0
  {
  }

  lemma FourTimes(k: int)
    ensures 4 * k % 4 == 0
  {
  }

  /** Every month starts where the one before it ends. */
  lemma MonthsAbut(month: int)
    ensures MonthStart(month + 1) == MonthStart(month) + MonthLength(month)
  {
    var year, index := month / 12, month % 12;
    if index == 11 {
      LeapDaysStep(year);
      assert (month + 1) / 12 == year + 1 && (month + 1) % 12 == 0;
    } else {
      assert (month + 1) / 12 == year && (month + 1) % 12 == index + 1;
    }
  }

  /** Days are counted from the start of 1970, and months have the lengths everyone knows. */
  lemma KnownMonths(year: int, index: int)
    requires 0 <= index < 12
    ensures MonthStart(12 * 1970) == 0
    ensures index in {0, 2, 4, 6, 7, 9, 11} ==> MonthLength(12 * year + index) == 31
    ensures index in {3, 5, 8, 10} ==> MonthLength(12 * year + index) == 30
    ensures index == 1 && (year % 400 == 0 || (year % 4 == 0 && year % 100 != 0))
            ==> MonthLength(12 * year + index) == 29
    ensures index == 1 && (year % 4 != 0 || (year % 100 == 0 && year % 400 != 0))
            ==> MonthLength(12 * year + index) == 28
  {
    HundredsAreFours(year);
    MonthParts(year, index);
  }

  lemma MonthParts(year: int, index: int)
    requires 0 <= index < 12
    ensures (12 * year + index) / 12 == year && (12 * year + index) % 12 == index
  {
  }

  lemma {:induction false} MonthStartsIncrease(a: int, b: int)
    requires a < b
    ensures MonthStart(a) + MonthLength(a) <= MonthStart(b)
    decreases b - a
  {
    MonthsAbut(a);
    if a + 1 < b {
      MonthStartsIncrease(a + 1, b);
    }
  }

  /** The month a day falls in, searching from `month`. */
  function MonthFrom(day: int, month: int): (found: int)
    ensures MonthStart(found) <= day < MonthStart(found) + MonthLength(found)
    decreases day < MonthStart(month),
              if day < MonthStart(month) then MonthStart(month) - day else day - MonthStart(month)
  {
    MonthsAbut(month);
    MonthsAbut(month - 1);
    if day < MonthStart(month) then MonthFrom(day, month - 1)
    else if MonthStart(month) + MonthLength(month) <= day then MonthFrom(day, month + 1)
    else month
  }

  function MonthOf(day: int): (month: int)
    ensures MonthStart(month) <= day < MonthStart(month) + MonthLength(month)
  {
    MonthFrom(day, EPOCH_MONTH)
  }

  /** The day of the month, counted from 1. */
  function DateOf(day: int): (date: int)
    ensures 1 <= date <= MonthLength(MonthOf(day))
    ensures day == MonthStart(MonthOf(day)) + date - 1
  {
    day - MonthStart(MonthOf(day)) + 1
  }

  /** A day belongs to exactly one month. */
  lemma MonthIsUnique(day: int, month: int)
    requires MonthStart(month) <= day < MonthStart(month) + MonthLength(month)
    ensures MonthOf(day) == month
  {
    if MonthOf(day) < month {
      MonthStartsIncrease(MonthOf(day), month);
    } else if month < MonthOf(day) {
      MonthStartsIncrease(month, MonthOf(day));
    }
  }

  lemma MonthsFollowDays(a: int, b: int)
    requires a <= b
    ensures MonthOf(a) <= MonthOf(b)
  {
    if MonthOf(b) < MonthOf(a) {
      MonthStartsIncrease(MonthOf(b), MonthOf(a));
    }
  }
}
