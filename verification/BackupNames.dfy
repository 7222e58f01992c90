/** The names the backup service gives its files, and which files it takes for its own. */
module BackupNames {
  import opened Arithmetic
  import opened Calendar
  import opened Sorting

  function Digit(d: int): char
    requires 0 <= d <= 9
  {
    ('0' as int + d) as char
  }

  function PowerOfTen(n: nat): (p: int)
    ensures p >= 1
  {
    if n == 0 then 1 else 10 * PowerOfTen(n - 1)
  }

  /** The last `n` decimal digits of `x`. */
  function Pad(x: nat, n: nat): (r: string)
    ensures |r| == n
    decreases n, x
  {
    if n == 0 then "" else Pad(x / 10, n - 1) + [Digit(x % 10)]
  }

  /** Numbers that fit their width are written in order. */
  lemma {:induction false} PadBefore(a: nat, b: nat, n: nat, x: string, y: string)
    requires a < b < PowerOfTen(n)
    ensures Before(Pad(a, n) + x, Pad(b, n) + y)
    decreases n
  {
    var x', y' := [Digit(a % 10)] + x, [Digit(b % 10)] + y;
    assert Pad(a, n) + x == Pad(a / 10, n - 1) + x';
    assert Pad(b, n) + y == Pad(b / 10, n - 1) + y';
    if a / 10 < b / 10 {
      PadBefore(a / 10, b / 10, n - 1, x', y');
    } else {
      BeforeAfterPrefix(Pad(a / 10, n - 1), x', y');
    }
  }

  /** A padded number, a separator and the rest of the name. */
  function Field(v: nat, n: nat, sep: char, rest: string): string {
    Pad(v, n) + [sep] + rest
  }

  lemma FieldBefore(a: nat, b: nat, n: nat, sep: char, x: string, y: string)
    requires b < PowerOfTen(n) && (a < b || (a == b && Before(x, y)))
    ensures Before(Field(a, n, sep, x), Field(b, n, sep, y))
  {
    assert Field(a, n, sep, x) == Pad(a, n) + ([sep] + x);
    assert Field(b, n, sep, y) == Pad(b, n) + ([sep] + y);
    if a < b {
      PadBefore(a, b, n, [sep] + x, [sep] + y);
    } else {
      BeforeAfterPrefix([sep], x, y);
      BeforeAfterPrefix(Pad(a, n), [sep] + x, [sep] + y);
    }
  }

  // ---- the time stamp ---------------------------------------------------------------------

  const DAY := 86400
  const PREFIX := "laetoli-"
  const DUMP_SUFFIX := ".sql.gz"
  const STORAGE_SUFFIX := ".storage.tar.gz"

  /** The year as `toISOString` writes it: four digits, or a sign and six. */
  function YearField(year: int, rest: string): string {
    if 0 <= year <= 9999 then Field(year, 4, '-', rest)
    else if year < 0 then "-" + Field(-year, 6, '-', rest)
    else "+" + Field(year, 6, '-', rest)
  }

  function TimeFields(second: int, rest: string): string {
    var s := second % DAY;
    Field(s / 3600, 2, '-', Field(s / 60 % 60, 2, '-', Field(s % 60, 2, 'Z', rest)))
  }

  /** `2026-06-19T03-00-00Z`: the ISO time without milliseconds, its colons made hyphens. */
  function Stamp(second: int, rest: string): string {
    var d := DateOf(second / DAY);
    YearField(d.year, Field(d.month, 2, '-', Field(d.day, 2, 'T', TimeFields(second, rest))))
  }

  function DumpName(second: int): string {
    PREFIX + Stamp(second, DUMP_SUFFIX)
  }

  function ArchiveName(second: int): string {
    PREFIX + Stamp(second, STORAGE_SUFFIX)
  }

  // ---- where a name stands among the others ----------------------------------------------------

  /** The times a JavaScript date can hold: 100 million days on either side of the epoch. */
  predicate IsTimeValue(second: int) {
    -100_000_000 * DAY <= second <= 100_000_000 * DAY
  }

  function YearAt(second: int): int {
    YearOf(second / DAY)
  }

  lemma YearBound(second: int)
    requires IsTimeValue(second)
    ensures -999_999 <= YearAt(second) <= 999_999
  {
    var day, year := second / DAY, YearAt(second);
    assert -100_000_000 <= day <= 100_000_000;
    if year > 1970 {
      YearsIncrease(1970, year);
    } else if year < 0 {
      YearsIncrease(year + 1, 1970);
    }
  }

  /** Seconds since the year began. */
  function InYear(second: int): int {
    second - DayFromYear(YearAt(second)) * DAY
  }

  const LONG_YEAR := 366 * DAY
  const FAR := 1_000_000_000_000_000

  lemma InYearBound(second: int)
    ensures 0 <= InYear(second) < LONG_YEAR
  {
    YearLength(YearAt(second));
  }

  /**
   The place of a time's name in the order of names: four-digit years come last and in
   order of time, before them the years below zero with the nearest first, and before
   those the years beyond 9999.
   */
  function Position(second: int): int {
    Place(YearAt(second), InYear(second), second)
  }

  function Place(year: int, inYear: int, second: int): int {
    if year > 9999 then second - 2 * FAR
    else if year < 0 then -year * LONG_YEAR + inYear - FAR
    else second
  }

  /** The time at a place. */
  function SecondAt(position: int): int {
    if position < -FAR - FAR / 2 then position + 2 * FAR
    else if position < -FAR / 2 then
      var p := position + FAR;
      DayFromYear(-(p / LONG_YEAR)) * DAY + p % LONG_YEAR
    else position
  }

  lemma PlaceBounds(year: int, inYear: int, second: int)
    requires -999_999 <= year <= 999_999 && 0 <= inYear < LONG_YEAR && IsTimeValue(second)
    ensures year > 9999 ==> Place(year, inYear, second) < -FAR - FAR / 2
    ensures year < 0 ==> -FAR <= Place(year, inYear, second) < -FAR / 2
    ensures 0 <= year <= 9999 ==> -FAR / 2 < Place(year, inYear, second)
  {
  }

  lemma SecondAtPosition(second: int)
    requires IsTimeValue(second)
    ensures SecondAt(Position(second)) == second
  {
    YearBound(second);
    InYearBound(second);
    var year := YearAt(second);
    PlaceBounds(year, InYear(second), second);
    if year < 0 {
      QuotientIs(Position(second) + FAR, LONG_YEAR, -year, InYear(second));
    }
  }

  lemma Powers(n: nat)
    ensures n == 2 ==> PowerOfTen(n) == 100
    ensures n == 4 ==> PowerOfTen(n) == 10000
    ensures n == 6 ==> PowerOfTen(n) == 1000000
  {
    if n >= 2 {
      assert PowerOfTen(n) == 100 * PowerOfTen(n - 2);
      if n >= 4 {
        assert PowerOfTen(n - 2) == 100 * PowerOfTen(n - 4);
        if n == 6 {
          assert PowerOfTen(n - 4) == 100 * PowerOfTen(n - 6);
        }
      }
    }
  }

  lemma ClockFieldsInOrder(h: nat, m: nat, s: nat, h': nat, m': nat, s': nat, rest: string)
    requires h' < 100 && m' < 100 && s' < 100
    requires h < h' || (h == h' && (m < m' || (m == m' && s < s')))
    ensures Before(Field(h, 2, '-', Field(m, 2, '-', Field(s, 2, 'Z', rest))),
                   Field(h', 2, '-', Field(m', 2, '-', Field(s', 2, 'Z', rest))))
  {
    Powers(2);
    var x, y := Field(s, 2, 'Z', rest), Field(s', 2, 'Z', rest);
    if h == h' && m == m' {
      FieldBefore(s, s', 2, 'Z', rest, rest);
    }
    if h == h' {
      FieldBefore(m, m', 2, '-', x, y);
    }
    FieldBefore(h, h', 2, '-', Field(m, 2, '-', x), Field(m', 2, '-', y));
  }

  lemma ClockInOrder(s: int, t: int)
    requires 0 <= s < t < DAY
    ensures t / 3600 < 100
    ensures s / 3600 < t / 3600 || (s / 3600 == t / 3600
         && (s / 60 % 60 < t / 60 % 60 || (s / 60 % 60 == t / 60 % 60 && s % 60 < t % 60)))
  {
    assert s / 60 == 60 * (s / 3600) + s / 60 % 60;
    assert t / 60 == 60 * (t / 3600) + t / 60 % 60;
  }

  lemma TimeFieldsInOrder(a: int, b: int, rest: string)
    requires a / DAY == b / DAY && a < b
    ensures Before(TimeFields(a, rest), TimeFields(b, rest))
  {
    var s, t := a % DAY, b % DAY;
    ClockInOrder(s, t);
    ClockFieldsInOrder(s / 3600, s / 60 % 60, s % 60, t / 3600, t / 60 % 60, t % 60, rest);
  }

  /** Month, day and time of day. */
  function MonthFields(second: int, rest: string): string {
    var d := DateOf(second / DAY);
    Field(d.month, 2, '-', Field(d.day, 2, 'T', TimeFields(second, rest)))
  }

  lemma DateFieldsInOrder(d: Date, e: Date, x: string, y: string)
    requires d.Valid() && e.Valid()
    requires d.month < e.month || (d.month == e.month && (d.day < e.day || (d.day == e.day && Before(x, y))))
    ensures Before(Field(d.month, 2, '-', Field(d.day, 2, 'T', x)), Field(e.month, 2, '-', Field(e.day, 2, 'T', y)))
  {
    Powers(2);
    var p, q := Field(d.day, 2, 'T', x), Field(e.day, 2, 'T', y);
    if d.month == e.month {
      FieldBefore(d.day, e.day, 2, 'T', x, y);
    }
    FieldBefore(d.month, e.month, 2, '-', p, q);
  }

  /** Within a year, names are in order of time. */
  lemma MonthFieldsInOrder(a: int, b: int, rest: string)
    requires a < b && YearAt(a) == YearAt(b)
    ensures Before(MonthFields(a, rest), MonthFields(b, rest))
  {
    if a / DAY < b / DAY {
      DatesIncrease(a / DAY, b / DAY);
    } else {
      TimeFieldsInOrder(a, b, rest);
    }
    DateFieldsInOrder(DateOf(a / DAY), DateOf(b / DAY), TimeFields(a, rest), TimeFields(b, rest));
  }

  lemma {:induction false} PadStartsWithDigit(x: nat, n: nat)
    requires n >= 1
    ensures '0' <= Pad(x, n)[0] <= '9'
    decreases n
  {
    if n > 1 {
      PadStartsWithDigit(x / 10, n - 1);
    }
  }

  /** Does a year's text come before another's, whatever follows? */
  predicate YearFirst(year: int, later: int) {
    if year > 9999 then later <= 9999 || year < later
    else if year < 0 then 0 <= later <= 9999 || later < year
    else year < later <= 9999
  }

  lemma SameWidth(size: nat, later: nat, n: nat, sign: string, x: string, y: string)
    requires later < PowerOfTen(n) && (size < later || (size == later && Before(x, y)))
    ensures Before(sign + Field(size, n, '-', x), sign + Field(later, n, '-', y))
  {
    FieldBefore(size, later, n, '-', x, y);
    BeforeAfterPrefix(sign, Field(size, n, '-', x), Field(later, n, '-', y));
  }

  lemma YearFieldStarts(year: int, x: string)
    ensures YearField(year, x) != ""
    ensures 0 <= year <= 9999 ==> '0' <= YearField(year, x)[0] <= '9'
    ensures year < 0 ==> YearField(year, x)[0] == '-'
    ensures year > 9999 ==> YearField(year, x)[0] == '+'
  {
    if 0 <= year <= 9999 {
      PadStartsWithDigit(year, 4);
      assert YearField(year, x)[0] == Pad(year, 4)[0];
    }
  }

  lemma YearFieldInOrder(year: int, later: int, x: string, y: string)
    requires -999_999 <= year <= 999_999 && -999_999 <= later <= 999_999
    requires YearFirst(year, later) || (year == later && Before(x, y))
    ensures Before(YearField(year, x), YearField(later, y))
  {
    YearFieldStarts(year, x);
    YearFieldStarts(later, y);
    if 0 <= year <= 9999 {
      Powers(4);
      SameWidth(year, later, 4, "", x, y);
      assert "" + Field(year, 4, '-', x) == Field(year, 4, '-', x) && "" + Field(later, 4, '-', y) == Field(later, 4, '-', y);
    } else if year < 0 && later < 0 {
      Powers(6);
      SameWidth(-year, -later, 6, "-", x, y);
    } else if year > 9999 && later > 9999 {
      Powers(6);
      SameWidth(year, later, 6, "+", x, y);
    }
  }

  lemma PlacesByYear(year: int, i: int, a: int, later: int, j: int, b: int)
    requires -999_999 <= year <= 999_999 && -999_999 <= later <= 999_999
    requires 0 <= i < LONG_YEAR && 0 <= j < LONG_YEAR && IsTimeValue(a) && IsTimeValue(b)
    requires (year < later ==> a < b) && (later < year ==> b < a) && (year == later ==> i - j == a - b)
    ensures Place(year, i, a) < Place(later, j, b) <==> YearFirst(year, later) || (year == later && a < b)
    ensures Place(year, i, a) == Place(later, j, b) ==> a == b
  {
    PlaceBounds(year, i, a);
    PlaceBounds(later, j, b);
  }

  /** A smaller place means an earlier year text, or the same year and an earlier time. */
  lemma PositionsByYear(a: int, b: int)
    requires IsTimeValue(a) && IsTimeValue(b)
    ensures Position(a) < Position(b) <==> YearFirst(YearAt(a), YearAt(b)) || (YearAt(a) == YearAt(b) && a < b)
    ensures Position(a) == Position(b) ==> a == b
  {
    YearBound(a);
    YearBound(b);
    InYearBound(a);
    InYearBound(b);
    YearsAreOrdered(a, b);
    YearsAreOrdered(b, a);
    PlacesByYear(YearAt(a), InYear(a), a, YearAt(b), InYear(b), b);
  }

  lemma YearsAreOrdered(a: int, b: int)
    ensures YearAt(a) < YearAt(b) ==> a < b
  {
    if YearAt(a) < YearAt(b) {
      YearsIncrease(YearAt(a) + 1, YearAt(b));
    }
  }

  lemma StampIsFields(second: int, rest: string)
    ensures Stamp(second, rest) == YearField(YearAt(second), MonthFields(second, rest))
  {
  }

  /** Stamps sort as their places do. */
  lemma StampsInOrder(a: int, b: int, rest: string)
    requires IsTimeValue(a) && IsTimeValue(b) && Position(a) < Position(b)
    ensures Before(Stamp(a, rest), Stamp(b, rest))
  {
    PositionsByYear(a, b);
    YearBound(a);
    YearBound(b);
    if YearAt(a) == YearAt(b) {
      MonthFieldsInOrder(a, b, rest);
    }
    YearFieldInOrder(YearAt(a), YearAt(b), MonthFields(a, rest), MonthFields(b, rest));
    StampIsFields(a, rest);
    StampIsFields(b, rest);
  }

  lemma NamesInOrder(a: int, b: int, suffix: string)
    requires IsTimeValue(a) && IsTimeValue(b) && Position(a) < Position(b)
    ensures Before(PREFIX + Stamp(a, suffix), PREFIX + Stamp(b, suffix))
  {
    StampsInOrder(a, b, suffix);
    BeforeAfterPrefix(PREFIX, Stamp(a, suffix), Stamp(b, suffix));
  }

  /** In which years is the name of an earlier time the earlier name? */
  predicate YearsKeepOrder(year: int, later: int) {
    || (0 <= year && later <= 9999)
    || year > 9999
    || (year < 0 && (0 <= later <= 9999 || year == later))
  }

  lemma NamesInOrderExactly(a: int, b: int, suffix: string)
    requires IsTimeValue(a) && IsTimeValue(b) && a < b
    ensures Before(PREFIX + Stamp(a, suffix), PREFIX + Stamp(b, suffix)) <==> YearsKeepOrder(YearAt(a), YearAt(b))
  {
    PositionsByYear(a, b);
    YearsAreOrdered(b, a);
    if Position(a) < Position(b) {
      NamesInOrder(a, b, suffix);
    } else {
      NamesInOrder(b, a, suffix);
      BeforeIsStrict(PREFIX + Stamp(b, suffix), PREFIX + Stamp(a, suffix));
    }
  }

  /** Of two dumps the earlier has the earlier name exactly in these years, of all that a date can hold. */
  lemma DumpNamesInOrder(a: int, b: int)
    requires IsTimeValue(a) && IsTimeValue(b) && a < b
    ensures Before(DumpName(a), DumpName(b)) <==> YearsKeepOrder(YearAt(a), YearAt(b))
  {
    NamesInOrderExactly(a, b, DUMP_SUFFIX);
  }

  lemma ArchiveNamesInOrder(a: int, b: int)
    requires IsTimeValue(a) && IsTimeValue(b) && a < b
    ensures Before(ArchiveName(a), ArchiveName(b)) <==> YearsKeepOrder(YearAt(a), YearAt(b))
  {
    NamesInOrderExactly(a, b, STORAGE_SUFFIX);
  }

  // ---- which files are managed -----------------------------------------------------------------

  /** What `.` matches in the service's patterns. */
  predicate OneLine(s: string) {
    forall c :: c in s ==> c != '\n' && c != '\r' && c != '\U{2028}' && c != '\U{2029}'
  }

  /** Does the name match `^laetoli-.+<suffix>$`? */
  predicate IsManaged(name: string, suffix: string) {
    && |PREFIX| + |suffix| < |name|
    && name[..|PREFIX|] == PREFIX && name[|name| - |suffix|..] == suffix
    && OneLine(name[|PREFIX|..|name| - |suffix|])
  }

  predicate IsDump(name: string) {
    IsManaged(name, DUMP_SUFFIX)
  }

  predicate IsArchive(name: string) {
    IsManaged(name, STORAGE_SUFFIX)
  }

  lemma FourthFromEnd(name: string, suffix: string)
    requires |suffix| >= 4
    ensures IsManaged(name, suffix) ==> name[|name| - 4] == suffix[|suffix| - 4]
  {
    if IsManaged(name, suffix) {
      assert name[|name| - |suffix|..][|suffix| - 4] == name[|name| - 4];
    }
  }

  /** No file is taken for both. */
  lemma DumpsAreNotArchives(name: string)
    ensures !(IsDump(name) && IsArchive(name))
  {
    FourthFromEnd(name, DUMP_SUFFIX);
    FourthFromEnd(name, STORAGE_SUFFIX);
  }

  lemma {:induction false} PadOneLine(x: nat, n: nat)
    ensures OneLine(Pad(x, n))
    decreases n
  {
    if n > 0 {
      PadOneLine(x / 10, n - 1);
    }
  }

  lemma FieldShape(v: nat, n: nat, sep: char, rest: string, tail: string)
    requires OneLine([sep]) && OneLine(rest)
    ensures OneLine(Field(v, n, sep, rest)) && |Field(v, n, sep, rest)| > 0
    ensures Field(v, n, sep, rest + tail) == Field(v, n, sep, rest) + tail
  {
    PadOneLine(v, n);
    assert sep in [sep];
  }

  lemma SignShape(sign: char, field: string, tail: string)
    requires OneLine([sign]) && OneLine(field)
    ensures OneLine([sign] + field) && [sign] + (field + tail) == ([sign] + field) + tail
  {
    assert sign in [sign];
  }

  lemma YearFieldShape(year: int, rest: string, tail: string)
    requires OneLine(rest)
    ensures OneLine(YearField(year, rest)) && |YearField(year, rest)| > 0
    ensures YearField(year, rest + tail) == YearField(year, rest) + tail
  {
    if 0 <= year <= 9999 {
      FieldShape(year, 4, '-', rest, tail);
    } else {
      var size := if year < 0 then -year else year;
      FieldShape(size, 6, '-', rest, tail);
      SignShape(if year < 0 then '-' else '+', Field(size, 6, '-', rest), tail);
    }
  }

  lemma TimeFieldsShape(second: int, tail: string)
    ensures OneLine(TimeFields(second, ""))
    ensures TimeFields(second, tail) == TimeFields(second, "") + tail
  {
    var s := second % DAY;
    assert "" + tail == tail;
    FieldShape(s % 60, 2, 'Z', "", tail);
    var z := Field(s % 60, 2, 'Z', "");
    FieldShape(s / 60 % 60, 2, '-', z, tail);
    FieldShape(s / 3600, 2, '-', Field(s / 60 % 60, 2, '-', z), tail);
  }

  lemma StampShape(second: int, tail: string)
    ensures OneLine(Stamp(second, "")) && |Stamp(second, "")| > 0
    ensures Stamp(second, tail) == Stamp(second, "") + tail
  {
    var d := DateOf(second / DAY);
    TimeFieldsShape(second, tail);
    var t := TimeFields(second, "");
    FieldShape(d.day, 2, 'T', t, tail);
    FieldShape(d.month, 2, '-', Field(d.day, 2, 'T', t), tail);
    YearFieldShape(d.year, Field(d.month, 2, '-', Field(d.day, 2, 'T', t)), tail);
  }

  lemma NameIsManaged(stamp: string, suffix: string)
    requires OneLine(stamp) && |stamp| > 0
    ensures IsManaged(PREFIX + (stamp + suffix), suffix)
  {
    var name := PREFIX + (stamp + suffix);
    assert name[|PREFIX|..|name| - |suffix|] == stamp;
  }

  /** The service recognises the files it writes, each as its own kind. */
  lemma NamesAreManaged(second: int)
    ensures IsDump(DumpName(second)) && !IsArchive(DumpName(second))
    ensures IsArchive(ArchiveName(second)) && !IsDump(ArchiveName(second))
  {
    StampShape(second, DUMP_SUFFIX);
    StampShape(second, STORAGE_SUFFIX);
    NameIsManaged(Stamp(second, ""), DUMP_SUFFIX);
    NameIsManaged(Stamp(second, ""), STORAGE_SUFFIX);
    DumpsAreNotArchives(DumpName(second));
    DumpsAreNotArchives(ArchiveName(second));
  }
}
