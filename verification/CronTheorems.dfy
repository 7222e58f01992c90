/**
 What the cron search promises: the least cron instant after a reference time,
 monotone and stable in it, and exactly which specifications never run dry.
 */
module CronTheorems {
  import opened Seqs
  import opened Calendar
  import opened Cron

  /** `t` is an instant of `p`: a whole minute that satisfies it, in milliseconds. */
  predicate IsInstantOf(p: int -> bool, t: int) {
    t % 60000 == 0 && p(t / 60000)
  }

  predicate IsInstant(f: CronFields, t: int) {
    IsInstantOf(Matching(f), t)
  }

  lemma MinuteOrder(from: int, t: int)
    requires t % 60000 == 0
    ensures from < t <==> FirstAfter(from) <= t / 60000
    ensures t == t / 60000 * 60000
  {
  }

  lemma NextInstantIsLeast(p: int -> bool, from: int)
    ensures match NextInstant(p, from)
            case Some(r) => from < r && IsInstantOf(p, r) && forall t :: IsInstantOf(p, t) && from < t ==> r <= t
            case None => forall t :: IsInstantOf(p, t) && from < t ==> (FirstAfter(from) + LIMIT) * 60000 <= t
  {
    var m := First(p, FirstAfter(from), FirstAfter(from) + LIMIT);
    if m.Some? {
      MinuteOfInstant(m.value);
      MinuteOrder(from, m.value * 60000);
    }
    forall t | IsInstantOf(p, t) && from < t
      ensures (if m.Some? then m.value else FirstAfter(from) + LIMIT) * 60000 <= t
    {
      MinuteOrder(from, t);
      assert p(t / 60000);
    }
  }

  lemma NextInstantIsStable(p: int -> bool, from: int, later: int)
    requires NextInstant(p, from).Some? && from <= later < NextInstant(p, from).value
    ensures NextInstant(p, later) == NextInstant(p, from)
  {
    var a, b := FirstAfter(from), FirstAfter(later);
    var m := First(p, a, a + LIMIT);
    MinuteOfInstant(m.value);
    MinuteOrder(later, m.value * 60000);
    FirstIs(p, b, b + LIMIT, m);
  }

  /** The search result is the least cron instant strictly after `from`. */
  lemma NextIsLeast(f: CronFields, from: int)
    ensures match Next(f, from)
            case Some(r) => from < r && IsInstant(f, r) && forall t :: IsInstant(f, t) && from < t ==> r <= t
            case None => forall t :: IsInstant(f, t) && from < t ==> (FirstAfter(from) + LIMIT) * 60000 <= t
  {
    NextInstantIsLeast(Matching(f), from);
  }

  /** Every start before the result and not before `from` finds the same instant. */
  lemma NextIsStable(f: CronFields, from: int, later: int)
    requires Next(f, from).Some? && from <= later < Next(f, from).value
    ensures Next(f, later) == Next(f, from)
  {
    NextInstantIsStable(Matching(f), from, later);
  }

  /** A later start never finds an earlier instant. */
  lemma NextIsMonotone(f: CronFields, a: int, b: int)
    requires a <= b && Next(f, a).Some? && Next(f, b).Some?
    ensures Next(f, a).value <= Next(f, b).value
  {
    NextIsLeast(f, a);
    NextIsLeast(f, b);
  }

  // ---- specifications that never run dry -----------------------------------------

  /** Some allowed month has an allowed day in every year. */
  predicate HasPlainDay(f: CronFields) {
    exists mo, d :: mo in f.month && d in f.dom && IsPlainDay(mo, d)
  }

  predicate IsPlainDay(month: int, day: int) {
    1 <= month <= 12 && 1 <= day <= DaysIn(month, false)
  }

  /** What a caller can check of the parsed fields. */
  predicate Dependable(f: CronFields) {
    && f.minute != {} && f.hour != {} && f.month != {}
    && (f.domRestricted && f.dowRestricted ==> f.dow != {} || HasPlainDay(f))
    && (f.domRestricted && !f.dowRestricted ==> HasPlainDay(f))
    && (!f.domRestricted && f.dowRestricted ==> f.dow != {})
  }

  lemma PlainDayInYear(year: int, month: int, day: int)
    requires IsPlainDay(month, day)
    ensures Date(year, month, day).Valid()
    ensures DateOf(DayOf(Date(year, month, day))) == Date(year, month, day)
    ensures DayFromYear(year) <= DayOf(Date(year, month, day)) < DayFromYear(year + 1)
  {
    DateOfDayOf(Date(year, month, day));
  }

  /** A plain day of next year is at most 732 days off. */
  lemma NextYearIsSoon(today: int, month: int, day: int) returns (year: int)
    requires IsPlainDay(month, day)
    ensures year == YearOf(today) + 1
    ensures Date(year, month, day).Valid()
    ensures today < DayOf(Date(year, month, day)) <= today + 732
    ensures DateOf(DayOf(Date(year, month, day))) == Date(year, month, day)
  {
    year := YearOf(today) + 1;
    PlainDayInYear(year, month, day);
    YearsIncrease(year - 1, year + 1);
  }

  lemma PlainDayNextYear(today: int, month: int, day: int) returns (when: int)
    requires IsPlainDay(month, day)
    ensures today < when <= today + 732
    ensures DateOf(when).month == month && DateOf(when).day == day
  {
    var year := NextYearIsSoon(today, month, day);
    when := DayOf(Date(year, month, day));
  }

  lemma WeekdayShift(day: int, weekday: int) returns (shift: int)
    requires 0 <= weekday <= 6
    ensures 0 <= shift <= 6 && WeekdayOf(day + shift) == weekday
  {
    var w := WeekdayOf(day);
    shift := if weekday >= w then weekday - w else weekday - w + 7;
  }

  lemma DaysOfMonthFollow(year: int, month: int, day: int)
    requires IsPlainDay(month, day)
    ensures Date(year, month, 1).Valid() && Date(year, month, day).Valid()
    ensures DayOf(Date(year, month, day)) == DayOf(Date(year, month, 1)) + day - 1
  {
  }

  function FirstOf(year: int, month: int): int
    requires 1 <= month <= 12
  {
    DayOf(Date(year, month, 1))
  }

  lemma FirstOfNextYear(today: int, month: int)
    requires 1 <= month <= 12
    ensures today < FirstOf(YearOf(today) + 1, month) <= today + 732
  {
    var year := NextYearIsSoon(today, month, 1);
  }

  /** Some day of a given month next year falls on a given weekday. */
  lemma WeekdayNextYear(today: int, month: int, weekday: int) returns (when: int)
    requires 1 <= month <= 12 && 0 <= weekday <= 6
    ensures today < when <= today + 740
    ensures DateOf(when).month == month && WeekdayOf(when) == weekday
  {
    var year := YearOf(today) + 1;
    var first := FirstOf(year, month);
    FirstOfNextYear(today, month);
    when := DayInFirstWeek(year, month, first, weekday);
  }

  lemma DayInFirstWeek(year: int, month: int, first: int, weekday: int) returns (when: int)
    requires 1 <= month <= 12 && 0 <= weekday <= 6 && first == FirstOf(year, month)
    ensures first <= when <= first + 6
    ensures DateOf(when).month == month && WeekdayOf(when) == weekday
  {
    var shift := WeekdayShift(first, weekday);
    var date := Date(year, month, 1 + shift);
    DaysOfMonthFollow(year, month, 1 + shift);
    DateOfDayOf(date);
    when := DayOf(date);
  }

  lemma SomeDayMatches(f: CronFields, today: int) returns (when: int)
    requires ValidFields(f) && Dependable(f)
    ensures today < when <= today + 740
    ensures DateOf(when).month in f.month && DayMatches(f, when)
  {
    if f.domRestricted && HasPlainDay(f) {
      var mo, d :| mo in f.month && d in f.dom && IsPlainDay(mo, d);
      when := PlainDayNextYear(today, mo, d);
    } else if f.dowRestricted {
      var mo := Pick(f.month);
      var w := Pick(f.dow);
      when := WeekdayNextYear(today, mo, w);
    } else {
      var mo := Pick(f.month);
      when := PlainDayNextYear(today, mo, 1);
    }
  }

  lemma TimeOfDay(day: int, hour: int, minute: int)
    requires 0 <= hour < 24 && 0 <= minute < 60
    ensures var m := day * 1440 + hour * 60 + minute;
            m / 1440 == day && (m / 60) % 24 == hour && m % 60 == minute
  {
    var m := day * 1440 + hour * 60 + minute;
    assert m == (day * 24 + hour) * 60 + minute;
    assert m / 60 == day * 24 + hour;
  }

  /** The time of day at which a dependable specification matches, on a day that matches. */
  lemma SomeMinuteMatches(f: CronFields, day: int) returns (m: int)
    requires ValidFields(f) && Dependable(f)
    requires DateOf(day).month in f.month && DayMatches(f, day)
    ensures day * 1440 <= m < (day + 1) * 1440 && Matches(f, m)
  {
    var hour := Pick(f.hour);
    var minute := Pick(f.minute);
    TimeOfDay(day, hour, minute);
    m := day * 1440 + hour * 60 + minute;
  }

  lemma DependableFinds(f: CronFields, from: int)
    requires ValidFields(f) && Dependable(f)
    ensures Next(f, from).Some?
  {
    var first := FirstAfter(from);
    var day := SomeDayMatches(f, first / 1440);
    var m := SomeMinuteMatches(f, day);
    FirstFinds(Matching(f), first, first + LIMIT, m);
  }

  lemma FirstFinds(p: int -> bool, first: int, end: int, m: int)
    requires first <= m < end && p(m)
    ensures First(p, first, end).Some?
  {
  }

  /**
   A leap year before a century year that is not leap, such as 2096. From 1 March
   of it the next leap day is eight years off, farther than the search looks.
   */
  predicate IsDryYear(year: int) {
    year % 100 == 96 && (year + 4) % 400 != 0
  }

  lemma SomeDryYear() returns (year: int)
    ensures IsDryYear(year)
  {
    year := 2096;
  }

  /** Midnight on 1 March. */
  function MarchFirst(year: int): int {
    DayOf(Date(year, 3, 1)) * 1440 * 60000
  }

  lemma FourRemainder(year: int, k: int, r: int)
    requires year == 4 * k + r && 0 <= r < 4
    ensures year % 4 == r
  {
  }

  lemma HundredRemainder(year: int, c: int, r: int)
    requires year == 100 * c + r && 0 <= r < 100
    ensures year % 100 == r
  {
  }

  lemma DryYears(year: int, y: int)
    requires IsDryYear(year) && year <= y <= year + 5
    ensures IsLeap(y) <==> y == year
    ensures IsLeap(year + 8)
  {
    var c := year / 100;
    FourRemainder(year + 8, 25 * c + 26, 0);
    HundredRemainder(year + 8, c + 1, 4);
    if y == year {
      FourRemainder(y, 25 * c + 24, 0);
    } else if y < year + 4 {
      FourRemainder(y, 25 * c + 24, y - year);
    } else if y == year + 4 {
      HundredRemainder(y, c + 1, 0);
    } else {
      FourRemainder(y, 25 * c + 25, 1);
    }
  }

  lemma DryDays(year: int, day: int)
    requires IsDryYear(year) && DayOf(Date(year, 3, 1)) <= day <= DayOf(Date(year, 3, 1)) + 1831
    ensures DateOf(day).month == 2 ==> DateOf(day).day <= 28
  {
    var start, d := Date(year, 3, 1), DateOf(day);
    DayOfDateOf(day);
    if d.year < year || (d.year == year && d.month == 2) {
      EarlierDateIsEarlierDay(d, start);
    } else if d.year >= year + 6 {
      DayInYear(d);
      LongAfterMarch(year);
      YearsIncrease(year + 6, d.year);
    } else {
      DryYears(year, d.year);
    }
  }

  lemma LongAfterMarch(year: int)
    ensures DayOf(Date(year, 3, 1)) + 1831 < DayFromYear(year + 6)
  {
    YearsIncrease(year, year + 6);
    assert DaysBefore(2, IsLeap(year)) == 31;
  }

  lemma UndependableMisses(f: CronFields, year: int)
    requires ValidFields(f) && !Dependable(f) && IsDryYear(year)
    ensures Next(f, MarchFirst(year)).None?
  {
    var start := DayOf(Date(year, 3, 1));
    MinuteOfInstant(start * 1440);
    var first, p := start * 1440 + 1, Matching(f);
    forall m | first <= m < first + LIMIT ensures !p(m) {
      UndependableMinute(f, year, start, m);
    }
    FirstIs(p, first, first + LIMIT, None);
  }

  lemma UndependableMinute(f: CronFields, year: int, start: int, m: int)
    requires ValidFields(f) && !Dependable(f) && IsDryYear(year)
    requires start == DayOf(Date(year, 3, 1)) && start * 1440 < m <= start * 1440 + LIMIT
    ensures !Matches(f, m)
  {
    if Matches(f, m) {
      var day := m / 1440;
      DryDays(year, day);
      var d := DateOf(day);
      assert d.month in f.month && f.domRestricted && d.day in f.dom;
      assert IsPlainDay(d.month, d.day);
      assert false;
    }
  }

  /** A specification finds an instant from every start exactly when it is dependable. */
  lemma NextNeverFailsIffDependable(f: CronFields)
    requires ValidFields(f)
    ensures Dependable(f) <==> forall from :: Next(f, from).Some?
  {
    if Dependable(f) {
      forall from ensures Next(f, from).Some? {
        DependableFinds(f, from);
      }
    } else {
      var year := SomeDryYear();
      UndependableMisses(f, year);
    }
  }

  /** Midnight on 29 February only. */
  function LeapDayOnly(): CronFields {
    CronFields({0}, {0}, {29}, {2}, {0, 1, 2, 3, 4, 5, 6}, true, false)
  }

  /** It has instants for ever, but from 1 March of a dry year the search gives up. */
  lemma LeapDayOnlyRunsDry(year: int)
    requires IsDryYear(year)
    ensures ValidFields(LeapDayOnly()) && !Dependable(LeapDayOnly())
    ensures Next(LeapDayOnly(), MarchFirst(year)).None?
    ensures exists t :: IsInstant(LeapDayOnly(), t) && MarchFirst(year) < t
  {
    UndependableMisses(LeapDayOnly(), year);
    DryYears(year, year);
    var leapDay := Date(year + 8, 2, 29);
    DateOfDayOf(leapDay);
    EarlierDateIsEarlierDay(Date(year, 3, 1), leapDay);
    InstantAt(LeapDayOnly(), DayOf(leapDay), 0, 0);
  }

  lemma InstantAt(f: CronFields, day: int, hour: int, minute: int)
    requires 0 <= hour < 24 && 0 <= minute < 60 && hour in f.hour && minute in f.minute
    requires DateOf(day).month in f.month && DayMatches(f, day)
    ensures IsInstant(f, (day * 1440 + hour * 60 + minute) * 60000)
  {
    TimeOfDay(day, hour, minute);
    MatchingMinute(f, day * 1440 + hour * 60 + minute, day);
  }

  lemma MatchingMinute(f: CronFields, m: int, day: int)
    requires m / 1440 == day && (m / 60) % 24 in f.hour && m % 60 in f.minute
    requires DateOf(day).month in f.month && DayMatches(f, day)
    ensures IsInstant(f, m * 60000)
  {
    MinuteOfInstant(m);
  }
}
