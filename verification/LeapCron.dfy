/** The cron string for midnight of 29 February, parsed. */
module LeapCrons {
  import opened Seqs
  import opened Cron
  import opened CronTheorems
  import T = Text

  const LEAP_CRON := "0 0 29 2 *"

  predicate IsWord(w: string) {
    w != "" && forall i :: 0 <= i < |w| ==> !T.IsSpace(w[i])
  }

  lemma {:induction false} NonSpacesOf(w: string, rest: string)
    requires forall i :: 0 <= i < |w| ==> !T.IsSpace(w[i])
    requires rest == "" || T.IsSpace(rest[0])
    ensures NonSpaces(w + rest) == w
  {
    if w == "" {
      assert w + rest == rest;
    } else {
      assert (w + rest)[1..] == w[1..] + rest;
      NonSpacesOf(w[1..], rest);
    }
  }

  lemma TrimOne(sep: char, rest: string)
    requires T.IsSpace(sep) && rest != "" && !T.IsSpace(rest[0])
    ensures T.TrimStart([sep] + rest) == rest
  {
    assert ([sep] + rest)[1..] == rest;
  }

  /** The first word, a blank, and what follows. */
  lemma WordsNext(s: string, first: string, tail: string, rest: string)
    requires s == first + tail && NonSpaces(s) == first && s != first && T.TrimStart(tail) == rest
    ensures Words(s) == [first] + Words(rest)
  {
    assert s[|first|..] == tail;
  }

  lemma WordsLast(w: string)
    requires IsWord(w)
    ensures Words(w) == [w]
  {
    NonSpacesOf(w, "");
    assert w + "" == w;
  }

  // ---- fields of one number, and the star -------------------------------------------------

  lemma UnionOfOne(part: string, vals: string -> Option<set<int>>)
    ensures UnionOf([part], vals) == vals(part)
  {
    assert [part][..0] == [];
    if vals(part).Some? {
      assert {} + vals(part).value == vals(part).value;
    }
  }

  /** The values from `low` to `high`, of a field where none is renamed. */
  lemma RangeValues(name: FieldName, low: int, high: int, values: set<int>)
    requires Low(name) <= low <= high <= High(name) && forall x :: x in values <==> low <= x <= high
    ensures SegmentValues(Segment(low, high, 1), name) == Some(values)
  {
    var seg: StepSegment := Segment(low, high, 1);
    forall x ensures seg.Denotes(x) <==> low <= x <= high {
      ReachesIsMultiple(low, 1, x);
    }
    forall x ensures Gives(seg, name, x) <==> x in values {
      if x in values {
        assert seg.Denotes(x) && x == Normal(name, x);
      }
    }
    assert SegmentValues(seg, name).Some?;
    assert SegmentValues(seg, name).value == values;
  }

  lemma SegmentField(raw: string, name: FieldName, seg: StepSegment, values: set<int>)
    requires ',' !in raw && ParseSegment(raw, name) == Some(seg) && SegmentValues(seg, name) == Some(values)
    ensures FieldValues(raw, name) == Some(values)
  {
    assert T.Split(raw, ',') == [raw];
    assert ValuesIn(name)(raw) == Some(values);
    UnionOfOne(raw, ValuesIn(name));
  }

  lemma NumeralIsPlain(raw: string)
    requires T.IsNumeral(raw)
    ensures ',' !in raw && '/' !in raw && '-' !in raw && raw != "*" && T.Trim(raw) == raw
  {
    T.TrimOfTrimmed(raw);
    assert raw[0] != '*';
  }

  lemma NumberRange(raw: string, name: FieldName, v: int)
    requires raw != "*" && '-' !in raw && T.ParseInt(raw) == Some(v)
    ensures ParseRange(raw, name) == Some((v, v))
  {
  }

  lemma PlainSegment(raw: string, name: FieldName, v: int)
    requires raw != "" && '/' !in raw && T.Trim(raw) == raw && ParseRange(raw, name) == Some((v, v))
    ensures ParseSegment(raw, name) == Some(Segment(v, v, 1))
  {
    assert raw[..|raw|] == raw;
  }

  /** A field that is one number. */
  lemma NumberField(raw: string, name: FieldName, v: int)
    requires T.IsNumeral(raw) && T.ParseInt(raw) == Some(v) && InRange(name, v)
    ensures FieldValues(raw, name) == Some({v})
  {
    NumeralIsPlain(raw);
    NumberRange(raw, name, v);
    PlainSegment(raw, name, v);
    RangeValues(name, v, v, {v});
    SegmentField(raw, name, Segment(v, v, 1), {v});
  }

  lemma StarField(raw: string, name: FieldName, values: set<int>)
    requires T.Trim(raw) == "*" && ',' !in raw && forall x :: x in values <==> InRange(name, x)
    ensures FieldValues(raw, name) == Some(values)
  {
    StarSegment(raw, name);
    RangeValues(name, Low(name), High(name), values);
    SegmentField(raw, name, Segment(Low(name), High(name), 1), values);
  }

  /** A word of one digit, of value `v`. */
  predicate IsDigitWord(w: string, v: int) {
    0 <= v <= 9 && |w| == 1 && w[0] == ('0' as int + v) as char
  }

  predicate IsTwoDigitWord(w: string, v: int) {
    0 <= v <= 99 && |w| == 2 && w[0] == ('0' as int + v / 10) as char && w[1] == ('0' as int + v % 10) as char
  }

  lemma OneDigit(raw: string, v: int)
    requires IsDigitWord(raw, v)
    ensures T.IsNumeral(raw) && T.ValueOf(raw) == v
  {
    assert T.IsDigit(raw[0]) && raw[..0] == "" && T.ValueOf(raw[..0]) == 0;
  }

  lemma TwoDigits(raw: string, v: int)
    requires IsTwoDigitWord(raw, v)
    ensures T.IsNumeral(raw) && T.ValueOf(raw) == v
  {
    OneDigit(raw[..1], v / 10);
  }

  /** A field that is one numeral. */
  lemma NumeralField(raw: string, name: FieldName, v: int)
    requires T.IsNumeral(raw) && T.ValueOf(raw) == v && InRange(name, v)
    ensures FieldValues(raw, name) == Some({v}) && !Unrestricted(raw)
  {
    T.NumeralValue(raw, v);
    NumberField(raw, name, v);
    NumeralIsPlain(raw);
  }

  lemma DigitField(raw: string, name: FieldName, v: int)
    requires IsDigitWord(raw, v) && InRange(name, v)
    ensures T.IsNumeral(raw) && FieldValues(raw, name) == Some({v})
  {
    OneDigit(raw, v);
    NumeralField(raw, name, v);
  }

  lemma TwoDigitField(raw: string, name: FieldName, v: int)
    requires IsTwoDigitWord(raw, v) && InRange(name, v)
    ensures FieldValues(raw, name) == Some({v}) && !Unrestricted(raw)
  {
    TwoDigits(raw, v);
    NumeralField(raw, name, v);
  }

  lemma StarTrims(raw: string, c: char)
    requires raw == [c] && !T.IsSpace(c)
    ensures T.Trim(raw) == raw
  {
    T.TrimOfTrimmed(raw);
  }

  // ---- the whole string -------------------------------------------------------------------

  type Reader = FieldName -> (string -> Option<set<int>>)

  /** `read` reads fields, and `plain` tells the unrestricted ones. */
  ghost predicate ReadsFields(read: Reader, plain: string -> bool) {
    && (forall name, raw {:trigger FieldValues(raw, name)} :: read(name)(raw) == FieldValues(raw, name))
    && (forall raw {:trigger Unrestricted(raw)} :: plain(raw) == Unrestricted(raw))
  }

  ghost function CronFrom(w: seq<string>, read: Reader, plain: string -> bool): Option<CronFields> {
    if |w| != 5 then None
    else
      var minute, hour, dom, month, dow := read(Minute)(w[0]), read(Hour)(w[1]), read(DayOfMonth)(w[2]), read(Month)(w[3]), read(DayOfWeek)(w[4]);
      if minute.None? || hour.None? || dom.None? || month.None? || dow.None? then None
      else Some(CronFields(minute.value, hour.value, dom.value, month.value, dow.value, !plain(w[2]), !plain(w[4])))
  }

  lemma CronOfWords(cron: string, w: seq<string>, read: Reader, plain: string -> bool)
    requires ReadsFields(read, plain) && w == Words(T.Trim(cron))
    ensures CronOf(cron) == CronFrom(w, read, plain)
  {
    if |w| == 5 {
      assert FieldValues(w[0], Minute) == read(Minute)(w[0]);
      assert FieldValues(w[1], Hour) == read(Hour)(w[1]);
      assert FieldValues(w[2], DayOfMonth) == read(DayOfMonth)(w[2]);
      assert FieldValues(w[3], Month) == read(Month)(w[3]);
      assert FieldValues(w[4], DayOfWeek) == read(DayOfWeek)(w[4]);
      assert Unrestricted(w[2]) == plain(w[2]) && Unrestricted(w[4]) == plain(w[4]);
    }
  }

  lemma DigitRead(read: Reader, plain: string -> bool, raw: string, name: FieldName, v: int)
    requires ReadsFields(read, plain) && IsDigitWord(raw, v) && InRange(name, v)
    ensures read(name)(raw) == Some({v})
  {
    DigitField(raw, name, v);
  }

  lemma TwoDigitRead(read: Reader, plain: string -> bool, raw: string, name: FieldName, v: int)
    requires ReadsFields(read, plain) && IsTwoDigitWord(raw, v) && InRange(name, v)
    ensures read(name)(raw) == Some({v}) && !plain(raw)
  {
    TwoDigitField(raw, name, v);
  }

  lemma StarRead(read: Reader, plain: string -> bool, raw: string, values: set<int>)
    requires ReadsFields(read, plain) && |raw| == 1 && raw[0] == '*'
    requires forall x :: x in values <==> InRange(DayOfWeek, x)
    ensures read(DayOfWeek)(raw) == Some(values) && plain(raw)
  {
    StarTrims(raw, '*');
    StarField(raw, DayOfWeek, values);
    assert Unrestricted(raw);
  }

  /** The words `w[k..]` joined by blanks. */
  function Spelling(w: seq<string>, k: nat): string
    requires k < |w|
    decreases |w| - k
  {
    if k == |w| - 1 then w[k] else w[k] + [' '] + Spelling(w, k + 1)
  }

  type Splitter = string -> seq<string>

  /** `split` takes words off the front, one blank at a time. */
  ghost predicate SplitsWords(split: Splitter) {
    && (forall x :: IsWord(x) ==> split(x) == [x])
    && (forall first, rest {:trigger split(first + [' '] + rest)} ::
          IsWord(first) && rest != "" && !T.IsSpace(rest[0]) ==> split(first + [' '] + rest) == [first] + split(rest))
  }

  lemma {:induction false} SpellingStarts(w: seq<string>, k: nat)
    requires k < |w| && forall i :: 0 <= i < |w| ==> IsWord(w[i])
    ensures Spelling(w, k) != "" && !T.IsSpace(Spelling(w, k)[0])
    decreases |w| - k
  {
    assert IsWord(w[k]);
  }

  lemma {:induction false} SpellingEnds(w: seq<string>, k: nat)
    requires k < |w| && forall i :: 0 <= i < |w| ==> IsWord(w[i])
    ensures Spelling(w, k) != "" && !T.IsSpace(Spelling(w, k)[|Spelling(w, k)| - 1])
    decreases |w| - k
  {
    if k < |w| - 1 {
      SpellingEnds(w, k + 1);
    } else {
      assert IsWord(w[k]);
    }
  }

  lemma {:induction false} SpellingIsRead(w: seq<string>, k: nat, split: Splitter)
    requires k < |w| && (forall i :: 0 <= i < |w| ==> IsWord(w[i])) && SplitsWords(split)
    ensures split(Spelling(w, k)) == w[k..]
    decreases |w| - k
  {
    if k == |w| - 1 {
      assert w[k..] == [w[k]];
    } else {
      var rest := Spelling(w, k + 1);
      SpellingIsRead(w, k + 1, split);
      SpellingStarts(w, k + 1);
      assert split(w[k] + [' '] + rest) == [w[k]] + split(rest);
      assert w[k..] == [w[k]] + w[k + 1..];
    }
  }

  lemma WordsSplits()
    ensures SplitsWords(Words)
  {
    forall x | IsWord(x) ensures Words(x) == [x] {
      WordsLast(x);
    }
    forall first, rest | IsWord(first) && rest != "" && !T.IsSpace(rest[0])
      ensures Words(first + [' '] + rest) == [first] + Words(rest)
    {
      var tail := [' '] + rest;
      assert first + [' '] + rest == first + tail;
      NonSpacesOf(first, tail);
      TrimOne(' ', rest);
      WordsNext(first + tail, first, tail, rest);
    }
  }

  /** Words joined by blanks are read back. */
  lemma WordsOfSpelling(w: seq<string>, text: string)
    requires |w| >= 1 && (forall i :: 0 <= i < |w| ==> IsWord(w[i])) && text == Spelling(w, 0)
    ensures Words(text) == w && T.IsTrimmed(text)
  {
    WordsSplits();
    SpellingIsRead(w, 0, Words);
    assert w[0..] == w;
    SpellingStarts(w, 0);
    SpellingEnds(w, 0);
  }

  predicate IsMidnight(w: seq<string>, d: int, m: int) {
    && |w| == 5 && IsDigitWord(w[0], 0) && IsDigitWord(w[1], 0) && IsTwoDigitWord(w[2], d) && IsDigitWord(w[3], m)
    && |w[4]| == 1 && w[4][0] == '*'
  }

  lemma MidnightWords(w: seq<string>, d: int, m: int)
    requires IsMidnight(w, d, m)
    ensures forall i :: 0 <= i < |w| ==> IsWord(w[i])
  {
  }

  lemma MidnightFields(w: seq<string>, read: Reader, plain: string -> bool, d: int, m: int, week: set<int>)
    requires ReadsFields(read, plain) && IsMidnight(w, d, m) && 1 <= m && InRange(DayOfMonth, d)
    requires forall x :: x in week <==> InRange(DayOfWeek, x)
    ensures CronFrom(w, read, plain) == Some(CronFields({0}, {0}, {d}, {m}, week, true, false))
  {
    DigitRead(read, plain, w[0], Minute, 0);
    DigitRead(read, plain, w[1], Hour, 0);
    DigitRead(read, plain, w[3], Month, m);
    TwoDigitRead(read, plain, w[2], DayOfMonth, d);
    StarRead(read, plain, w[4], week);
  }

  lemma SpellingWords(w: seq<string>, cron: string, d: int, m: int)
    requires IsMidnight(w, d, m) && cron == Spelling(w, 0)
    ensures Words(T.Trim(cron)) == w
  {
    MidnightWords(w, d, m);
    WordsOfSpelling(w, cron);
    T.TrimOfTrimmed(cron);
  }

  /** Midnight of a day given by two digits and a month given by one. */
  lemma MidnightCron(w: seq<string>, cron: string, d: int, m: int, week: set<int>)
    requires IsMidnight(w, d, m) && 1 <= m && InRange(DayOfMonth, d) && cron == Spelling(w, 0)
    requires forall x :: x in week <==> InRange(DayOfWeek, x)
    ensures CronOf(cron) == Some(CronFields({0}, {0}, {d}, {m}, week, true, false))
  {
    var read: Reader := (name: FieldName) => (raw: string) => FieldValues(raw, name);
    var plain := (raw: string) => Unrestricted(raw);
    SpellingWords(w, cron, d, m);
    CronOfWords(cron, w, read, plain);
    MidnightFields(w, read, plain, d, m, week);
  }

  lemma LeapSpelling(w: seq<string>)
    requires w == ["0", "0", "29", "2", "*"]
    ensures Spelling(w, 0) == LEAP_CRON
  {
    assert Spelling(w, 4) == "*";
    assert Spelling(w, 3) == "2 *";
    assert Spelling(w, 2) == "29 2 *";
    assert Spelling(w, 1) == "0 29 2 *";
  }

  lemma LeapParses(w: seq<string>, cron: string, week: set<int>)
    requires IsMidnight(w, 29, 2) && cron == Spelling(w, 0) && week == {0, 1, 2, 3, 4, 5, 6}
    ensures CronOf(cron) == Some(CronFields({0}, {0}, {29}, {2}, week, true, false))
  {
    MidnightCron(w, cron, 29, 2, week);
  }

  /** The cron string for midnight of 29 February parses to exactly that. */
  lemma LeapCronParses(cron: string)
    requires cron == LEAP_CRON
    ensures CronOf(cron) == Some(LeapDayOnly())
  {
    var w := ["0", "0", "29", "2", "*"];
    LeapSpelling(w);
    LeapParses(w, cron, {0, 1, 2, 3, 4, 5, 6});
  }
}
