/** Exactly when the search for 29 February runs dry. */
module LeapDays {
  import opened Seqs
  import opened Calendar
  import opened Cron
  import opened CronTheorems

  function LeapDay(year: int): int
    requires IsLeap(year)
  {
    DayOf(Date(year, 2, 29))
  }

  /** Midnight of a leap day, in milliseconds. */
  function LeapInstant(year: int): int
    requires IsLeap(year)
  {
    LeapDay(year) * 1440 * 60000
  }

  // ---- the years around a dry stretch ------------------------------------------------------

  lemma OffFour(k: int, y: int)
    requires 4 * k < y < 4 * k + 4
    ensures !IsLeap(y)
  {
    assert y % 4 == y - 4 * k;
  }

  lemma OnFour(k: int, y: int)
    requires y == 4 * k
    ensures IsLeap(y) <==> y % 100 != 0 || y % 400 == 0
  {
    assert y % 4 == 0;
  }

  lemma NoLeapYearBetween(year: int, y: int)
    requires IsDryYear(year) && year < y < year + 8
    ensures !IsLeap(y)
  {
    var k := 25 * (year / 100) + 24;
    assert year == 4 * k;
    if y < year + 4 {
      OffFour(k, y);
    } else if y == year + 4 {
      OnFour(k + 1, y);
    } else {
      OffFour(k + 1, y);
    }
  }

  lemma DryStarts(year: int)
    requires IsDryYear(year)
    ensures IsLeap(year)
  {
    OnFour(25 * (year / 100) + 24, year);
  }

  lemma EightLater(century: int, year: int)
    requires year == 100 * century + 96
    ensures IsLeap(year + 8)
  {
    var later := 100 * (century + 1) + 4;
    assert later % 100 == 4;
    OnFour(25 * (century + 1) + 1, later);
  }

  lemma DryEnds(year: int)
    requires IsDryYear(year)
    ensures IsLeap(year) && IsLeap(year + 8)
  {
    DryStarts(year);
    EightLater(year / 100, year);
  }

  lemma DryLength(year: int)
    requires IsDryYear(year)
    ensures DayFromYear(year + 8) == DayFromYear(year) + 2921
  {
    DryEnds(year);
    YearLength(year);
    CommonYears(year, year + 8);
  }

  lemma {:induction false} CommonYears(year: int, y: int)
    requires IsDryYear(year) && year < y <= year + 8
    ensures DayFromYear(y) == DayFromYear(year + 1) + 365 * (y - year - 1)
    decreases y - year
  {
    if y > year + 1 {
      CommonYears(year, y - 1);
      NoLeapYearBetween(year, y - 1);
      YearLength(y - 1);
    }
  }

  lemma LeapDayInYear(year: int)
    requires IsLeap(year)
    ensures LeapDay(year) == DayFromYear(year) + 59
  {
    assert DaysBefore(2, true) == 31;
  }

  /** The leap days around a dry century are 2921 days apart. */
  lemma DryStretch(year: int)
    requires IsDryYear(year)
    ensures IsLeap(year) && IsLeap(year + 8) && LeapDay(year + 8) == LeapDay(year) + 2921
  {
    DryEnds(year);
    DryLength(year);
    LeapDayInYear(year);
    LeapDayInYear(year + 8);
  }

  predicate IsLeapDay(d: Date) {
    d.month == 2 && d.day == 29
  }

  lemma LeapYearBetween(a: int, b: int, d: Date)
    requires d.Valid() && IsLeapDay(d) && IsLeap(a) && IsLeap(b) && LeapDay(a) < DayOf(d) < LeapDay(b)
    ensures a < d.year < b && IsLeap(d.year)
  {
    var p, q := Date(a, 2, 29), Date(b, 2, 29);
    if d.year < a {
      EarlierDateIsEarlierDay(d, p);
    }
    if d.year > b {
      EarlierDateIsEarlierDay(q, d);
    }
  }

  lemma NoLeapDayBetween(year: int, day: int)
    requires IsDryYear(year) && IsLeap(year) && IsLeap(year + 8) && LeapDay(year) < day < LeapDay(year + 8)
    ensures !IsLeapDay(DateOf(day))
  {
    var d := DateOf(day);
    DayOfDateOf(day);
    if IsLeapDay(d) {
      LeapYearBetween(year, year + 8, d);
      NoLeapYearBetween(year, d.year);
    }
  }

  // ---- the search ---------------------------------------------------------------------------

  lemma MidnightMinute(m: int)
    ensures m / 60 % 24 == 0 && m % 60 == 0 <==> m % 1440 == 0
  {
    assert m % 1440 == 60 * (m / 60 % 24) + m % 60;
  }

  lemma LeapMatches(m: int)
    ensures Matches(LeapDayOnly(), m) <==> m % 1440 == 0 && IsLeapDay(DateOf(m / 1440))
  {
    MidnightMinute(m);
  }

  /** A search whose next match is `next` finds it just if it is within the limit. */
  lemma SearchUpTo(p: int -> bool, from: int, next: int)
    requires FirstAfter(from) <= next && NoneIn(p, FirstAfter(from), next) && p(next)
    ensures NextInstant(p, from) == if FirstAfter(from) + LIMIT <= next then None else Some(next * 60000)
  {
    var first := FirstAfter(from);
    FirstIs(p, first, first + LIMIT, if first + LIMIT <= next then None else Some(next));
  }

  lemma NoneBetween(year: int, first: int)
    requires IsDryYear(year) && IsLeap(year) && IsLeap(year + 8) && LeapDay(year) * 1440 < first
    ensures NoneIn(Matching(LeapDayOnly()), first, LeapDay(year + 8) * 1440)
  {
    forall m | first <= m < LeapDay(year + 8) * 1440 ensures !Matching(LeapDayOnly())(m) {
      LeapMatches(m);
      if m % 1440 == 0 {
        NoLeapDayBetween(year, m / 1440);
      }
    }
  }

  lemma LeapDayMatches(year: int)
    requires IsLeap(year)
    ensures Matching(LeapDayOnly())(LeapDay(year) * 1440)
  {
    var m := LeapDay(year) * 1440;
    LeapMatches(m);
    assert m / 1440 == LeapDay(year) && m % 1440 == 0;
    DateOfDayOf(Date(year, 2, 29));
  }

  /**
   From a dry year's leap day until the next one, eight years on, the search finds nothing
   for exactly the first 1091 days: until the next leap day comes within its five years.
   */
  lemma LeapSearch(year: int, from: int)
    requires IsDryYear(year) && IsLeap(year) && IsLeap(year + 8)
    requires LeapInstant(year) <= from < LeapInstant(year + 8)
    ensures Next(LeapDayOnly(), from) ==
      if from / 60000 < (LeapDay(year) + 1091) * 1440 then None else Some(LeapInstant(year + 8))
  {
    var p, next := Matching(LeapDayOnly()), LeapDay(year + 8) * 1440;
    DryStretch(year);
    NoneBetween(year, FirstAfter(from));
    LeapDayMatches(year + 8);
    SearchUpTo(p, from, next);
  }
}
