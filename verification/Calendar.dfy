/**
 The proleptic Gregorian calendar in UTC, as ECMAScript defines it (sections
 "Day Number", "Year Number", "Month Number" and "Date Number" of ECMA-262).
 A day is counted from 1 January 1970.
 */
module Calendar {

  predicate IsLeap(year: int) {
    year % 4 == 0 && (year % 100 != 0 || year % 400 == 0)
  }

  function DaysInYear(year: int): int {
    if IsLeap(year) then 366 else 365
  }

  /** The day number of 1 January. */
  function DayFromYear(year: int): int
    decreases if year < 1970 then 1970 - year else year - 1970
  {
    if year == 1970 then 0
    else if year > 1970 then DayFromYear(year - 1) + DaysInYear(year - 1)
    else DayFromYear(year + 1) - DaysInYear(year)
  }

  lemma YearLength(year: int)
    ensures DayFromYear(year + 1) == DayFromYear(year) + DaysInYear(year)
  {
  }

  lemma {:induction false} YearsIncrease(a: int, b: int)
    requires a <= b
    ensures DayFromYear(a) + 365 * (b - a) <= DayFromYear(b) <= DayFromYear(a) + 366 * (b - a)
    decreases b - a
  {
    if a < b {
      YearsIncrease(a, b - 1);
      YearLength(b - 1);
    }
  }

  /** The year a day falls in, searched for from `guess`. */
  function YearNear(guess: int, day: int): (year: int)
    ensures DayFromYear(year) <= day < DayFromYear(year + 1)
    decreases if DayFromYear(guess) > day then 1 else 0,
              if DayFromYear(guess) > day then DayFromYear(guess) - day else day - DayFromYear(guess)
  {
    YearLength(guess);
    YearLength(guess - 1);
    if DayFromYear(guess) > day then YearNear(guess - 1, day)
    else if DayFromYear(guess + 1) <= day then YearNear(guess + 1, day)
    else guess
  }

  function YearOf(day: int): (year: int)
    ensures DayFromYear(year) <= day < DayFromYear(year + 1)
  {
    YearNear(1970 + day / 366, day)
  }

  function DaysIn(month: int, leap: bool): (n: int)
    requires 1 <= month <= 12
    ensures 28 <= n <= 31
  {
    if month == 2 then (if leap then 29 else 28)
    else if month in {4, 6, 9, 11} then 30
    else 31
  }

  /** Days of the year before the first of `month`; month 13 is the year's end. */
  function DaysBefore(month: int, leap: bool): (n: int)
    requires 1 <= month <= 13
    ensures 28 * (month - 1) <= n <= 31 * (month - 1)
  {
    if month == 1 then 0 else DaysBefore(month - 1, leap) + DaysIn(month - 1, leap)
  }

  lemma DaysBeforeEnd(leap: bool)
    ensures DaysBefore(13, leap) == if leap then 366 else 365
  {
    assert DaysBefore(3, leap) == if leap then 60 else 59;
    assert DaysBefore(5, leap) == if leap then 121 else 120;
    assert DaysBefore(7, leap) == if leap then 182 else 181;
    assert DaysBefore(9, leap) == if leap then 244 else 243;
    assert DaysBefore(11, leap) == if leap then 305 else 304;
  }

  lemma {:induction false} MonthsIncrease(a: int, b: int, leap: bool)
    requires 1 <= a < b <= 13
    ensures DaysBefore(a, leap) + DaysIn(a, leap) <= DaysBefore(b, leap)
    decreases b
  {
    if a + 1 < b {
      MonthsIncrease(a, b - 1, leap);
    }
  }

  function MonthFrom(month: int, leap: bool, dayInYear: int): (m: int)
    requires 1 <= month <= 12 && DaysBefore(month, leap) <= dayInYear < DaysBefore(13, leap)
    ensures 1 <= m <= 12 && DaysBefore(m, leap) <= dayInYear < DaysBefore(m + 1, leap)
    decreases 12 - month
  {
    if dayInYear < DaysBefore(month + 1, leap) then month else MonthFrom(month + 1, leap, dayInYear)
  }

  function MonthOf(leap: bool, dayInYear: int): (m: int)
    requires 0 <= dayInYear < DaysBefore(13, leap)
    ensures 1 <= m <= 12 && DaysBefore(m, leap) <= dayInYear < DaysBefore(m + 1, leap)
  {
    MonthFrom(1 + dayInYear / 31, leap, dayInYear)
  }

  datatype Date = Date(year: int, month: int, day: int) {
    predicate Valid() {
      1 <= month <= 12 && 1 <= day <= DaysIn(month, IsLeap(year))
    }
  }

  function DateOf(day: int): (d: Date)
    ensures d.Valid()
  {
    var year := YearOf(day);
    YearLength(year);
    DaysBeforeEnd(IsLeap(year));
    var leap, dayInYear := IsLeap(year), day - DayFromYear(year);
    var month := MonthOf(leap, dayInYear);
    Date(year, month, dayInYear - DaysBefore(month, leap) + 1)
  }

  function DayOf(d: Date): int
    requires d.Valid()
  {
    DayFromYear(d.year) + DaysBefore(d.month, IsLeap(d.year)) + d.day - 1
  }

  /** 1 January 1970 was a Thursday; Sunday is 0. */
  function WeekdayOf(day: int): (w: int)
    ensures 0 <= w <= 6
  {
    (day + 4) % 7
  }

  lemma DayOfDateOf(day: int)
    ensures DayOf(DateOf(day)) == day
  {
  }

  predicate Earlier(d: Date, e: Date) {
    d.year < e.year || (d.year == e.year && (d.month < e.month || (d.month == e.month && d.day < e.day)))
  }

  lemma DayInYear(d: Date)
    requires d.Valid()
    ensures DayFromYear(d.year) <= DayOf(d) < DayFromYear(d.year + 1)
  {
    var leap := IsLeap(d.year);
    YearLength(d.year);
    DaysBeforeEnd(leap);
    MonthsIncrease(d.month, 13, leap);
  }

  /** Dates are ordered as their days are. */
  lemma EarlierDateIsEarlierDay(d: Date, e: Date)
    requires d.Valid() && e.Valid() && Earlier(d, e)
    ensures DayOf(d) < DayOf(e)
  {
    if d.year < e.year {
      DayInYear(d);
      DayInYear(e);
      YearsIncrease(d.year + 1, e.year);
    } else if d.month < e.month {
      MonthsIncrease(d.month, e.month, IsLeap(d.year));
    }
  }

  /** Dates and day numbers correspond one to one. */
  lemma DateOfDayOf(d: Date)
    requires d.Valid()
    ensures DateOf(DayOf(d)) == d
  {
    var e := DateOf(DayOf(d));
    DayOfDateOf(DayOf(d));
    SameDaySameDate(d, e);
  }

  lemma SameDaySameDate(d: Date, e: Date)
    requires d.Valid() && e.Valid() && DayOf(d) == DayOf(e)
    ensures d == e
  {
    if Earlier(d, e) {
      EarlierDateIsEarlierDay(d, e);
    } else if Earlier(e, d) {
      EarlierDateIsEarlierDay(e, d);
    }
  }

  /** Later days have later dates. */
  lemma DatesIncrease(a: int, b: int)
    requires a < b
    ensures Earlier(DateOf(a), DateOf(b))
  {
    var d, e := DateOf(a), DateOf(b);
    DayOfDateOf(a);
    DayOfDateOf(b);
    if Earlier(e, d) {
      EarlierDateIsEarlierDay(e, d);
    }
  }

  /** The closed form that ECMA-262 gives for the first day of a year. */
  function YearFormula(year: int): int {
    365 * (year - 1970) + (year - 1969) / 4 - (year - 1901) / 100 + (year - 1601) / 400
  }

  /** The calendar counted year by year agrees with the closed form. */
  lemma {:induction false} DayFromYearFormula(year: int)
    ensures DayFromYear(year) == YearFormula(year)
    decreases if year < 1970 then 1970 - year else year - 1970
  {
    if year > 1970 {
      DayFromYearFormula(year - 1);
      FormulaStep(year - 1);
    } else if year < 1970 {
      DayFromYearFormula(year + 1);
      FormulaStep(year);
    }
  }

  lemma FormulaStep(year: int)
    ensures YearFormula(year + 1) == YearFormula(year) + DaysInYear(year)
  {
    Leaps4(year);
    Leaps100(year);
    Leaps400(year);
    CenturyIsFourth(year);
  }

  lemma Leaps4(year: int)
    ensures (year + 1 - 1969) / 4 == (year - 1969) / 4 + if year % 4 == 0 then 1 else 0
  {
  }

  lemma Leaps100(year: int)
    ensures (year + 1 - 1901) / 100 == (year - 1901) / 100 + if year % 100 == 0 then 1 else 0
  {
  }

  lemma Leaps400(year: int)
    ensures (year + 1 - 1601) / 400 == (year - 1601) / 400 + if year % 400 == 0 then 1 else 0
  {
  }

  lemma Fours(k: int)
    ensures (4 * k) % 4 == 0
  {
  }

  lemma Hundreds(k: int)
    ensures (100 * k) % 100 == 0
  {
  }

  lemma CenturyIsFourth(year: int)
    ensures year % 100 == 0 ==> year % 4 == 0
    ensures year % 400 == 0 ==> year % 100 == 0
  {
    if year % 100 == 0 {
      Fours(25 * (year / 100));
    }
    if year % 400 == 0 {
      Hundreds(4 * (year / 400));
    }
  }
}
