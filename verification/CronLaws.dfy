/**
 When a cron job is due, in terms of the calendar alone: years, months, days and weekdays
 by closed formulas, and each form of a field by the numbers written in it.
 */
module CronLaws {
  import opened Seqs
  import opened Calendar
  import opened Cron
  import opened CronTheorems
  import opened LeapCrons
  import T = Text

  // ---- the calendar in closed form -----------------------------------------------------

  /** Years that begin in March, and their months counted from zero. */
  function MarchYear(d: Date): int {
    if d.month <= 2 then d.year - 1 else d.year
  }

  function MarchMonth(d: Date): int {
    if d.month <= 2 then d.month + 9 else d.month - 3
  }

  /** The number of days from 1 January 1970 to a date. */
  function CivilDay(d: Date): int {
    var y := MarchYear(d);
    365 * y + y / 4 - y / 100 + y / 400 + (153 * MarchMonth(d) + 2) / 5 + d.day - 719469
  }

  lemma MonthTable(month: int, leap: bool)
    requires 1 <= month <= 12
    ensures DaysBefore(month, leap) ==
              if month <= 2 then 31 * (month - 1) else (153 * (month - 3) + 2) / 5 + 59 + if leap then 1 else 0
  {
    assert DaysBefore(2, leap) == 31;
    assert DaysBefore(3, leap) == if leap then 60 else 59;
    assert DaysBefore(4, leap) == if leap then 91 else 90;
    assert DaysBefore(5, leap) == if leap then 121 else 120;
    assert DaysBefore(6, leap) == if leap then 152 else 151;
    assert DaysBefore(7, leap) == if leap then 182 else 181;
    assert DaysBefore(8, leap) == if leap then 213 else 212;
    assert DaysBefore(9, leap) == if leap then 244 else 243;
    assert DaysBefore(10, leap) == if leap then 274 else 273;
    assert DaysBefore(11, leap) == if leap then 305 else 304;
    assert DaysBefore(12, leap) == if leap then 335 else 334;
  }

  lemma Fourths(x: int)
    ensures (x - 1969) / 4 == (x - 1) / 4 - 492 && x / 4 == (x - 1) / 4 + if x % 4 == 0 then 1 else 0
  {
  }

  lemma Centuries(x: int)
    ensures (x - 1901) / 100 == (x - 1) / 100 - 19 && x / 100 == (x - 1) / 100 + if x % 100 == 0 then 1 else 0
  {
  }

  lemma FourCenturies(x: int)
    ensures (x - 1601) / 400 == (x - 1) / 400 - 4 && x / 400 == (x - 1) / 400 + if x % 400 == 0 then 1 else 0
  {
  }

  /** The calendar counted by years and months agrees with the closed form on every date. */
  lemma DayIsCivil(d: Date)
    requires d.Valid()
    ensures DayOf(d) == CivilDay(d)
  {
    DayFromYearFormula(d.year);
    MonthTable(d.month, IsLeap(d.year));
    Fourths(d.year);
    Centuries(d.year);
    FourCenturies(d.year);
    CenturyIsFourth(d.year);
  }

  // ---- weekdays -----------------------------------------------------------------------------

  /** Zeller's congruence, with Sunday as 0. */
  function Zeller(d: Date): int {
    var j, k := MarchYear(d) / 100, MarchYear(d) % 100;
    (d.day + 13 * (MarchMonth(d) + 4) / 5 + k + k / 4 + j / 4 + 5 * j + 6) % 7
  }

  lemma CenturyYears(y: int, j: int, k: int)
    requires y == 100 * j + k && 0 <= k < 100
    ensures y / 4 == 25 * j + k / 4 && y / 100 == j && y / 400 == j / 4
  {
  }

  lemma MonthFifths(m: int)
    ensures (153 * m + 2) / 5 == 28 * m + 13 * (m + 4) / 5 - 10
  {
  }

  lemma SameWeekday(a: int, b: int, q: int)
    requires a == b + 7 * q
    ensures a % 7 == b % 7
  {
  }

  lemma ZellerSum(day: int, m: int, j: int, k: int, fourth: int, century: int, fifths: int)
    ensures 365 * (100 * j + k) + (25 * j + fourth) - j + century + (28 * m + fifths - 10) + day - 719469 + 4 ==
            day + fifths + k + fourth + century + 5 * j + 6 + 7 * (5217 * j + 52 * k + 4 * m - 102783)
  {
  }

  /** The weekday of every date is the one that Zeller's congruence gives. */
  lemma WeekdayIsZeller(d: Date)
    requires d.Valid()
    ensures WeekdayOf(DayOf(d)) == Zeller(d)
  {
    DayIsCivil(d);
    var y, m := MarchYear(d), MarchMonth(d);
    var j, k := y / 100, y % 100;
    CenturyYears(y, j, k);
    MonthFifths(m);
    ZellerSum(d.day, m, j, k, k / 4, j / 4, 13 * (m + 4) / 5);
    SameWeekday(CivilDay(d) + 4, d.day + 13 * (m + 4) / 5 + k + k / 4 + j / 4 + 5 * j + 6, 5217 * j + 52 * k + 4 * m - 102783);
  }

  /** 1 January 1970 was a Thursday, and each day is followed by the next weekday. */
  lemma WeekdaysFollow(day: int)
    ensures WeekdayOf(0) == 4
    ensures WeekdayOf(day + 1) == if WeekdayOf(day) == 6 then 0 else WeekdayOf(day) + 1
  {
  }

  // ---- when a specification is due --------------------------------------------------------------

  /** Milliseconds since the epoch. */
  function TimeOf(d: Date, hour: int, minute: int): int {
    ((CivilDay(d) * 24 + hour) * 60 + minute) * 60000
  }

  /** Either of two restricted day fields will do; one alone must hold; two stars hold every day. */
  predicate IsDueOn(f: CronFields, d: Date) {
    && (f.domRestricted && f.dowRestricted ==> d.day in f.dom || Zeller(d) in f.dow)
    && (f.domRestricted && !f.dowRestricted ==> d.day in f.dom)
    && (!f.domRestricted && f.dowRestricted ==> Zeller(d) in f.dow)
  }

  predicate IsDueAt(f: CronFields, d: Date, hour: int, minute: int) {
    d.month in f.month && IsDueOn(f, d) && hour in f.hour && minute in f.minute
  }

  predicate IsClock(d: Date, hour: int, minute: int) {
    d.Valid() && 0 <= hour < 24 && 0 <= minute < 60
  }

  lemma DayOfTime(day: int, hour: int, minute: int, m: int)
    requires 0 <= hour < 24 && 0 <= minute < 60 && m == (day * 24 + hour) * 60 + minute
    ensures m / 1440 == day && (m / 60) % 24 == hour && m % 60 == minute
  {
    TimeOfDay(day, hour, minute);
  }

  lemma DueDay(f: CronFields, d: Date)
    requires d.Valid()
    ensures DayMatches(f, DayOf(d)) <==> IsDueOn(f, d)
  {
    DateOfDayOf(d);
    WeekdayIsZeller(d);
  }

  lemma DueMinute(f: CronFields, d: Date, hour: int, minute: int, m: int)
    requires IsClock(d, hour, minute) && m == (DayOf(d) * 24 + hour) * 60 + minute
    ensures Matches(f, m) <==> IsDueAt(f, d, hour, minute)
  {
    DayOfTime(DayOf(d), hour, minute, m);
    DateOfDayOf(d);
    DueDay(f, d);
  }

  /** An instant of a specification is the time of a date and a minute that its fields hold. */
  lemma InstantIsDue(f: CronFields, d: Date, hour: int, minute: int)
    requires IsClock(d, hour, minute)
    ensures IsInstant(f, TimeOf(d, hour, minute)) <==> IsDueAt(f, d, hour, minute)
  {
    DayIsCivil(d);
    var m := (DayOf(d) * 24 + hour) * 60 + minute;
    WholeMinute(f, m, TimeOf(d, hour, minute));
    DueMinute(f, d, hour, minute, m);
  }

  lemma WholeMinute(f: CronFields, m: int, t: int)
    requires t == m * 60000
    ensures IsInstant(f, t) <==> Matches(f, m)
  {
    MinuteOfInstant(m);
  }

  /** Some date and minute, at which the specification is due, is at `t`. */
  ghost predicate IsDueTime(f: CronFields, t: int) {
    exists d, hour, minute :: IsClock(d, hour, minute) && IsDueAt(f, d, hour, minute) && t == TimeOf(d, hour, minute)
  }

  lemma MinuteParts(m: int)
    ensures m == (m / 1440 * 24 + (m / 60) % 24) * 60 + m % 60
    ensures 0 <= (m / 60) % 24 < 24 && 0 <= m % 60 < 60
  {
  }

  lemma DueTimeIsInstant(f: CronFields, t: int)
    ensures IsDueTime(f, t) <==> IsInstant(f, t)
  {
    if IsDueTime(f, t) {
      var d, hour, minute :| IsClock(d, hour, minute) && IsDueAt(f, d, hour, minute) && t == TimeOf(d, hour, minute);
      InstantIsDue(f, d, hour, minute);
    }
    if t % 60000 == 0 {
      var d, hour, minute := ClockOf(t);
      InstantIsDue(f, d, hour, minute);
    }
  }

  lemma ClockOf(t: int) returns (d: Date, hour: int, minute: int)
    requires t % 60000 == 0
    ensures IsClock(d, hour, minute) && t == TimeOf(d, hour, minute)
  {
    var m := t / 60000;
    d, hour, minute := DateOf(m / 1440), (m / 60) % 24, m % 60;
    MinuteParts(m);
    DayOfDateOf(m / 1440);
    DayIsCivil(d);
  }

  /**
   The search finds the first time after its start at which the specification is due; if
   it finds none, there is none in five years of 366 days.
   */
  lemma NextIsFirstDue(f: CronFields, from: int)
    ensures match Next(f, from)
            case Some(t) => from < t && IsDueTime(f, t) && forall u :: from < u < t ==> !IsDueTime(f, u)
            case None => forall u :: from < u <= from + 158_112_000_000 ==> !IsDueTime(f, u)
  {
    NextIsLeast(f, from);
    LimitInMs(from);
    forall u ensures IsDueTime(f, u) <==> IsInstant(f, u) {
      DueTimeIsInstant(f, u);
    }
  }

  lemma LimitInMs(from: int)
    ensures from + 158_112_000_000 < (FirstAfter(from) + LIMIT) * 60000
  {
    assert from < FirstAfter(from) * 60000;
  }

  // ---- fields ---------------------------------------------------------------------------------------

  /** The least and the greatest value of a field. */
  function Bounds(name: FieldName): (int, int) {
    match name
    case Minute => (0, 59)
    case Hour => (0, 23)
    case DayOfMonth => (1, 31)
    case Month => (1, 12)
    case DayOfWeek => (0, 6)
  }

  /** Every `n`-th number from `a` to `b`. */
  predicate IsPicked(a: int, b: int, n: int, v: int)
    requires n > 0
  {
    a <= v <= b && (v - a) % n == 0
  }

  /** The values of every `n`-th number from `a` to `b`, 7 being Sunday; none if one is out of bounds. */
  ghost predicate HoldsEvery(values: Option<set<int>>, name: FieldName, a: int, b: int, n: int)
    requires n > 0
  {
    && (values.Some? <==> forall v :: IsPicked(a, b, n, v) ==> Bounds(name).0 <= v <= Bounds(name).1 || (name == DayOfWeek && v == 7))
    && (values.Some? ==> forall x :: x in values.value <==>
          (IsPicked(a, b, n, x) && !(name == DayOfWeek && x == 7)) || (name == DayOfWeek && x == 0 && IsPicked(a, b, n, 7)))
  }

  lemma SegmentHoldsEvery(name: FieldName, a: int, b: int, n: int)
    requires n > 0
    ensures HoldsEvery(SegmentValues(Segment(a, b, n), name), name, a, b, n)
  {
    var seg: StepSegment := Segment(a, b, n);
    forall v ensures seg.Denotes(v) <==> IsPicked(a, b, n, v) {
      ReachesIsMultiple(a, n, v);
    }
    forall v ensures InRange(name, Normal(name, v)) <==> Bounds(name).0 <= v <= Bounds(name).1 || (name == DayOfWeek && v == 7) {
    }
    var values := SegmentValues(seg, name);
    if values.Some? {
      forall x ensures x in values.value <==>
          (IsPicked(a, b, n, x) && !(name == DayOfWeek && x == 7)) || (name == DayOfWeek && x == 0 && IsPicked(a, b, n, 7))
      {
        if IsPicked(a, b, n, x) && !(name == DayOfWeek && x == 7) {
          assert seg.Denotes(x) && x == Normal(name, x);
        }
        if name == DayOfWeek && x == 0 && IsPicked(a, b, n, 7) {
          assert seg.Denotes(7) && x == Normal(name, 7);
        }
      }
    }
  }

  lemma FieldOfSegment(raw: string, name: FieldName, a: int, b: int, n: int)
    requires n > 0 && ',' !in raw && ParseSegment(raw, name) == Some(Segment(a, b, n))
    ensures HoldsEvery(FieldValues(raw, name), name, a, b, n)
  {
    SegmentHoldsEvery(name, a, b, n);
    assert T.Split(raw, ',') == [raw];
    assert ValuesIn(name)(raw) == SegmentValues(Segment(a, b, n), name);
    UnionOfOne(raw, ValuesIn(name));
  }

  /** A numeral and the number it writes. */
  predicate Writes(text: string, v: int) {
    T.IsNumeral(text) && T.ValueOf(text) == v
  }

  lemma NumeralChars(text: string)
    requires T.IsNumeral(text)
    ensures text != "*" && ',' !in text && '/' !in text && '-' !in text && !T.IsSpace(text[0]) && !T.IsSpace(text[|text| - 1])
  {
    NumeralIsPlain(text);
    assert T.IsDigit(text[0]) && T.IsDigit(text[|text| - 1]);
  }

  lemma NumeralFacts(text: string, v: int)
    requires Writes(text, v)
    ensures T.ParseInt(text) == Some(v) && text != "*"
    ensures ',' !in text && '/' !in text && '-' !in text && !T.IsSpace(text[0]) && !T.IsSpace(text[|text| - 1])
  {
    T.NumeralValue(text, v);
    NumeralChars(text);
  }

  lemma DashRange(range: string, name: FieldName, low: string, a: int, high: string, b: int)
    requires Writes(low, a) && Writes(high, b) && range == low + ['-'] + high
    ensures ParseRange(range, name) == Some((a, b))
  {
    NumeralFacts(low, a);
    NumeralFacts(high, b);
    DashSplits(range, low, high);
  }

  lemma DashSplits(range: string, low: string, high: string)
    requires low != "" && high != "" && '-' !in low && range == low + ['-'] + high
    ensures range != "*" && T.IndexOf(range, '-') == |low| < |range| && range[..|low|] == low && range[|low| + 1..] == high
  {
    T.IndexOfPrefix(low, '-', high);
    assert |range| >= 3;
  }

  lemma StepText(seg: string, name: FieldName, range: string, a: int, b: int, step: string, n: int)
    requires Writes(step, n) && n > 0 && range != "" && '/' !in range && !T.IsSpace(range[0]) && seg == range + ['/'] + step
    requires ParseRange(range, name) == Some((a, b))
    ensures ParseSegment(seg, name) == Some(Segment(a, b, n))
  {
    NumeralFacts(step, n);
    T.IndexOfPrefix(range, '/', step);
    assert seg[..|range|] == range && seg[|range| + 1..] == step;
    assert seg[0] == range[0] && seg[|seg| - 1] == step[|step| - 1];
    T.TrimOfTrimmed(seg);
  }

  lemma PlainText(seg: string, name: FieldName, a: int, b: int)
    requires seg != "" && '/' !in seg && !T.IsSpace(seg[0]) && !T.IsSpace(seg[|seg| - 1]) && ParseRange(seg, name) == Some((a, b))
    ensures ParseSegment(seg, name) == Some(Segment(a, b, 1))
  {
    T.TrimOfTrimmed(seg);
    assert seg[..|seg|] == seg;
  }

  /** `a-b` is every number from `a` to `b`. */
  lemma RangeField(raw: string, name: FieldName, low: string, a: int, high: string, b: int)
    requires Writes(low, a) && Writes(high, b) && raw == low + ['-'] + high
    ensures HoldsEvery(FieldValues(raw, name), name, a, b, 1)
  {
    DashRange(raw, name, low, a, high, b);
    DashChars(raw, low, high);
    PlainText(raw, name, a, b);
    FieldOfSegment(raw, name, a, b, 1);
  }

  /** `a-b/n` is every `n`-th of them. */
  lemma RangeStepField(raw: string, name: FieldName, range: string, low: string, a: int, high: string, b: int, step: string, n: int)
    requires Writes(low, a) && Writes(high, b) && Writes(step, n) && n > 0
    requires range == low + ['-'] + high && raw == range + ['/'] + step
    ensures HoldsEvery(FieldValues(raw, name), name, a, b, n)
  {
    DashRange(range, name, low, a, high, b);
    DashChars(range, low, high);
    NumeralChars(step);
    StepText(raw, name, range, a, b, step, n);
    FieldOfSegment(raw, name, a, b, n);
  }

  lemma DashChars(range: string, low: string, high: string)
    requires T.IsNumeral(low) && T.IsNumeral(high) && range == low + ['-'] + high
    ensures range != "" && ',' !in range && '/' !in range && !T.IsSpace(range[0]) && !T.IsSpace(range[|range| - 1])
  {
    NumeralChars(low);
    NumeralChars(high);
    assert range[0] == low[0] && range[|range| - 1] == high[|high| - 1];
  }

  lemma StarRange(star: string, name: FieldName)
    requires star == "*"
    ensures ParseRange(star, name) == Some((Low(name), High(name)))
    ensures star != "" && '/' !in star && ',' !in star && !T.IsSpace(star[0])
  {
  }

  lemma NoComma(raw: string, range: string, step: string)
    requires ',' !in range && ',' !in step && raw == range + ['/'] + step
    ensures ',' !in raw
  {
  }

  /** A star with a step is every `n`-th value of the field from its least. */
  lemma StarStepField(raw: string, name: FieldName, star: string, step: string, n: int)
    requires Writes(step, n) && n > 0 && star == "*" && raw == star + ['/'] + step
    ensures HoldsEvery(FieldValues(raw, name), name, Bounds(name).0, Bounds(name).1, n)
  {
    NumeralFacts(step, n);
    StarRange(star, name);
    NoComma(raw, star, step);
    StepText(raw, name, star, Low(name), High(name), step, n);
    FieldOfSegment(raw, name, Low(name), High(name), n);
  }

  /** One number is that value. */
  lemma SingleField(raw: string, name: FieldName, v: int)
    requires Writes(raw, v)
    ensures HoldsEvery(FieldValues(raw, name), name, v, v, 1)
  {
    NumeralFacts(raw, v);
    NumberRange(raw, name, v);
    PlainText(raw, name, v, v);
    FieldOfSegment(raw, name, v, v, 1);
  }

  /** A comma joins the values of both sides. */
  lemma ListField(part: string, rest: string, raw: string, name: FieldName)
    requires ',' !in part && raw == part + [','] + rest
    ensures FieldValues(raw, name).Some? <==> FieldValues(part, name).Some? && FieldValues(rest, name).Some?
    ensures FieldValues(raw, name).Some? ==> FieldValues(raw, name).value == FieldValues(part, name).value + FieldValues(rest, name).value
  {
    T.SplitFirst(part, ',', rest);
    assert T.Split(part, ',') == [part];
    UnionOfOne(part, ValuesIn(name));
    UnionFirst(part, T.Split(rest, ','), ValuesIn(name));
  }

  lemma UnionFirst(part: string, parts: seq<string>, vals: string -> Option<set<int>>)
    ensures UnionOf([part] + parts, vals).Some? <==> vals(part).Some? && UnionOf(parts, vals).Some?
    ensures UnionOf([part] + parts, vals).Some? ==> UnionOf([part] + parts, vals).value == vals(part).value + UnionOf(parts, vals).value
    decreases |parts|
  {
    if parts == [] {
      assert [part] + parts == [part];
      UnionOfOne(part, vals);
    } else {
      var n := |parts| - 1;
      UnionFirst(part, parts[..n], vals);
      assert ([part] + parts)[..n + 1] == [part] + parts[..n] && ([part] + parts)[n + 1] == parts[n];
    }
  }

  // ---- the five fields ---------------------------------------------------------------------------------

  ghost predicate AreWords(w: seq<string>) {
    forall i :: 0 <= i < |w| ==> IsWord(w[i])
  }

  lemma StarOnly(w: string)
    requires IsWord(w)
    ensures Unrestricted(w) <==> w == "*"
  {
    T.TrimOfTrimmed(w);
  }

  lemma ReadsBack(w: seq<string>, cron: string)
    requires |w| >= 1 && AreWords(w) && cron == Spelling(w, 0)
    ensures Words(T.Trim(cron)) == w
  {
    WordsOfSpelling(w, cron);
    T.TrimOfTrimmed(cron);
  }

  /** Five words are minute, hour, day of the month, month and day of the week; a star restricts no day. */
  ghost function FieldsOf(w: seq<string>, read: Reader): Option<CronFields>
    requires |w| == 5
  {
    var minute, hour, dom, month, dow := read(Minute)(w[0]), read(Hour)(w[1]), read(DayOfMonth)(w[2]), read(Month)(w[3]), read(DayOfWeek)(w[4]);
    if minute.Some? && hour.Some? && dom.Some? && month.Some? && dow.Some?
    then Some(CronFields(minute.value, hour.value, dom.value, month.value, dow.value, w[2] != "*", w[4] != "*")) else None
  }

  lemma CronFromFields(w: seq<string>, read: Reader, plain: string -> bool)
    requires |w| == 5 ==> (plain(w[2]) <==> w[2] == "*") && (plain(w[4]) <==> w[4] == "*")
    ensures CronFrom(w, read, plain) == if |w| == 5 then FieldsOf(w, read) else None
  {
  }

  lemma StarsPlain(w: seq<string>, plain: string -> bool)
    requires AreWords(w) && forall raw {:trigger Unrestricted(raw)} :: plain(raw) == Unrestricted(raw)
    ensures forall i :: 0 <= i < |w| ==> (plain(w[i]) <==> w[i] == "*")
  {
    forall i | 0 <= i < |w| ensures plain(w[i]) <==> w[i] == "*" {
      assert IsWord(w[i]) && plain(w[i]) == Unrestricted(w[i]);
      StarOnly(w[i]);
    }
  }

  /** A cron string of five words is read field by field; any other number of words is refused. */
  lemma CronByFields(w: seq<string>, cron: string, read: Reader, plain: string -> bool)
    requires |w| >= 1 && AreWords(w) && cron == Spelling(w, 0) && ReadsFields(read, plain)
    ensures CronOf(cron) == if |w| == 5 then FieldsOf(w, read) else None
  {
    ReadsBack(w, cron);
    CronOfWords(cron, w, read, plain);
    StarsPlain(w, plain);
    CronFromFields(w, read, plain);
  }
}
