/**
 Five-field cron specifications: parsing a field, matching a minute, and the
 search for the next matching minute.
 */
module Cron {
  import opened Seqs
  import opened Arithmetic
  import opened Calendar
  import T = Text

  datatype FieldName = Minute | Hour | DayOfMonth | Month | DayOfWeek

  function Low(name: FieldName): int {
    if name.DayOfMonth? || name.Month? then 1 else 0
  }

  function High(name: FieldName): int {
    match name
    case Minute => 59
    case Hour => 23
    case DayOfMonth => 31
    case Month => 12
    case DayOfWeek => 6
  }

  predicate InRange(name: FieldName, v: int) {
    Low(name) <= v <= High(name)
  }

  /** In the day-of-week field 7 is Sunday, like 0. */
  function Normal(name: FieldName, v: int): int {
    if name == DayOfWeek && v == 7 then 0 else v
  }

  // ---- fields -----------------------------------------------------------------

  /** Is `v` one of start, start + step, start + 2 * step, ...? */
  predicate Reaches(start: int, step: int, v: int)
    requires step > 0
    decreases v - start
  {
    v == start || (v > start && Reaches(start, step, v - step))
  }

  /** One comma-separated part: the values start, start + step, ... up to end. */
  datatype Segment = Segment(start: int, end: int, step: int) {
    predicate Denotes(v: int)
      requires step > 0
    {
      v <= end && Reaches(start, step, v)
    }
  }

  type StepSegment = s: Segment | s.step > 0 witness Segment(0, 0, 1)

  function ParseRange(range: string, name: FieldName): Option<(int, int)> {
    if range == "*" then Some((Low(name), High(name)))
    else
      var dash := T.IndexOf(range, '-');
      if dash < |range| then
        var start, end := T.ParseInt(range[..dash]), T.ParseInt(range[dash + 1..]);
        if start.Some? && end.Some? then Some((start.value, end.value)) else None
      else
        var start := T.ParseInt(range);
        if start.Some? then Some((start.value, start.value)) else None
  }

  /** `None` where parsing fails before the part's values are looked at. */
  function ParseSegment(part: string, name: FieldName): Option<StepSegment> {
    var seg := T.Trim(part);
    if seg == "" then None
    else
      var slash := T.IndexOf(seg, '/');
      var step := if slash < |seg| then T.ParseInt(seg[slash + 1..]) else Some(1);
      var range := ParseRange(seg[..slash], name);
      if step.None? || step.value <= 0 || range.None? then None
      else Some(Segment(range.value.0, range.value.1, step.value))
  }

  /** Some value of the segment is `x`, with 7 read as Sunday. */
  ghost predicate Gives(seg: StepSegment, name: FieldName, x: int) {
    exists v :: seg.Denotes(v) && x == Normal(name, v)
  }

  ghost predicate AllInRange(seg: StepSegment, name: FieldName) {
    forall v :: seg.Denotes(v) ==> InRange(name, Normal(name, v))
  }

  ghost function SegmentValues(seg: StepSegment, name: FieldName): Option<set<int>> {
    if AllInRange(seg, name) then Some(set x | Low(name) <= x <= High(name) && Gives(seg, name, x)) else None
  }

  ghost function PartValues(part: string, name: FieldName): Option<set<int>> {
    match ParseSegment(part, name)
    case None => None
    case Some(seg) => SegmentValues(seg, name)
  }

  ghost function ValuesIn(name: FieldName): string -> Option<set<int>> {
    (part: string) => PartValues(part, name)
  }

  /** The values of all parts together, or nothing when one of them is bad. */
  ghost function UnionOf(parts: seq<string>, vals: string -> Option<set<int>>): Option<set<int>> {
    if parts == [] then Some({})
    else
      var init, last := UnionOf(parts[..|parts| - 1], vals), vals(parts[|parts| - 1]);
      if init.None? || last.None? then None else Some(init.value + last.value)
  }

  ghost function FieldValues(raw: string, name: FieldName): Option<set<int>> {
    UnionOf(T.Split(raw, ','), ValuesIn(name))
  }

  /** A field parses when each part does. */
  lemma {:induction false} UnionExists(parts: seq<string>, vals: string -> Option<set<int>>)
    ensures UnionOf(parts, vals).Some? <==> forall p :: p in parts ==> vals(p).Some?
  {
    if parts != [] {
      var init, last := parts[..|parts| - 1], parts[|parts| - 1];
      assert parts == init + [last];
      UnionExists(init, vals);
    }
  }

  /** Its values are the parts' values. */
  lemma {:induction false} UnionHas(parts: seq<string>, vals: string -> Option<set<int>>, x: int)
    requires UnionOf(parts, vals).Some?
    ensures x in UnionOf(parts, vals).value <==> exists p :: p in parts && vals(p).Some? && x in vals(p).value
  {
    if parts != [] {
      var init, last := parts[..|parts| - 1], parts[|parts| - 1];
      assert parts == init + [last];
      UnionHas(init, vals, x);
    }
  }

  method ParseField(raw: string, name: FieldName) returns (out: Option<set<int>>)
    ensures out == FieldValues(raw, name)
  {
    out := ParseParts(T.Split(raw, ','), name);
  }

  method ParseParts(parts: seq<string>, name: FieldName) returns (out: Option<set<int>>)
    ensures out == UnionOf(parts, ValuesIn(name))
  {
    var values: set<int> := {};
    for i := 0 to |parts|
      invariant UnionOf(parts[..i], ValuesIn(name)) == Some(values)
    {
      assert parts[..i + 1][..i] == parts[..i];
      var more := ParsePart(parts[i], name);
      if more.None? {
        UnionExists(parts, ValuesIn(name));
        return None;
      }
      values := values + more.value;
    }
    assert parts[..|parts|] == parts;
    return Some(values);
  }

  method ParsePart(part: string, name: FieldName) returns (out: Option<set<int>>)
    ensures out == ValuesIn(name)(part)
  {
    var seg := ParseSegment(part, name);
    if seg.None? {
      return None;
    }
    out := AddSegment(seg.value, name);
  }

  /** The loop over the values of one part; `None` when one is out of range. */
  method AddSegment(seg: StepSegment, name: FieldName) returns (out: Option<set<int>>)
    ensures out == SegmentValues(seg, name)
  {
    var values: set<int> := {};
    var v := seg.start;
    while v <= seg.end
      invariant Reaches(seg.start, seg.step, v)
      invariant forall u :: seg.Denotes(u) && u < v ==> InRange(name, Normal(name, u)) && Normal(name, u) in values
      invariant forall x :: x in values ==> InRange(name, x) && Gives(seg, name, x)
      decreases seg.end - v
    {
      assert seg.Denotes(v);
      var nv := Normal(name, v);
      if !InRange(name, nv) {
        return None;
      }
      NothingBetween(seg, v);
      values := values + {nv};
      v := v + seg.step;
    }
    assert values == SegmentValues(seg, name).value;
    return Some(values);
  }

  lemma NothingBetween(seg: StepSegment, v: int)
    requires Reaches(seg.start, seg.step, v)
    ensures Reaches(seg.start, seg.step, v + seg.step)
    ensures forall u :: seg.Denotes(u) && u < v + seg.step ==> u <= v
  {
    ReachesBeyond(seg.start, seg.step, v);
    forall u | seg.Denotes(u) && u < v + seg.step ensures u <= v {
      if v < u {
        StepApart(seg.start, seg.step, v, u);
      }
    }
  }

  lemma {:induction false} ReachesBeyond(start: int, step: int, v: int)
    requires step > 0 && Reaches(start, step, v)
    ensures v >= start && Reaches(start, step, v + step)
    decreases v - start
  {
    if v != start {
      ReachesBeyond(start, step, v - step);
    }
  }

  lemma {:induction false} StepApart(start: int, step: int, v: int, u: int)
    requires step > 0 && Reaches(start, step, v) && Reaches(start, step, u) && v < u
    ensures v + step <= u
    decreases v - start
  {
    if v == start {
      ReachesBeyond(start, step, u - step);
    } else {
      ReachesBeyond(start, step, v - step);
      StepApart(start, step, v - step, u - step);
    }
  }

  /** The progression in arithmetic terms: a multiple of the step above the start. */
  lemma {:induction false} ReachesIsMultiple(start: int, step: int, v: int)
    requires step > 0
    ensures Reaches(start, step, v) <==> v >= start && (v - start) % step == 0
    decreases v - start
  {
    if v > start {
      ReachesIsMultiple(start, step, v - step);
      ModStep(v - step - start, step);
      if v - step < start {
        SmallMod(v - start, step);
      }
    }
  }

  // ---- specifications ------------------------------------------------------------

  datatype CronFields = CronFields(
    minute: set<int>, hour: set<int>, dom: set<int>, month: set<int>, dow: set<int>,
    domRestricted: bool, dowRestricted: bool)

  /** `split(/\s+/)` of a trimmed string. */
  function Words(s: string): (words: seq<string>)
    ensures |words| >= 1
    decreases |s|
  {
    var w := NonSpaces(s);
    if w == s then [s] else [w] + Words(T.TrimStart(s[|w|..]))
  }

  /** The longest prefix without white space. */
  function NonSpaces(s: string): (w: string)
    ensures w <= s
    ensures |w| < |s| ==> T.IsSpace(s[|w|])
  {
    if s == "" || T.IsSpace(s[0]) then "" else [s[0]] + NonSpaces(s[1..])
  }

  ghost function CronOf(expr: string): Option<CronFields> {
    var w := Words(T.Trim(expr));
    if |w| != 5 then None
    else
      var minute, hour, dom, month, dow :=
        FieldValues(w[0], Minute), FieldValues(w[1], Hour), FieldValues(w[2], DayOfMonth),
        FieldValues(w[3], Month), FieldValues(w[4], DayOfWeek);
      if minute.None? || hour.None? || dom.None? || month.None? || dow.None? then None
      else Some(CronFields(minute.value, hour.value, dom.value, month.value, dow.value,
                           !Unrestricted(w[2]), !Unrestricted(w[4])))
  }

  method ParseCron(expr: string) returns (fields: Option<CronFields>)
    ensures fields == CronOf(expr)
  {
    var w := Words(T.Trim(expr));
    if |w| != 5 {
      return None;
    }
    var minute := ParseField(w[0], Minute);
    var hour := ParseField(w[1], Hour);
    var dom := ParseField(w[2], DayOfMonth);
    var month := ParseField(w[3], Month);
    var dow := ParseField(w[4], DayOfWeek);
    if minute.None? || hour.None? || dom.None? || month.None? || dow.None? {
      return None;
    }
    return Some(CronFields(minute.value, hour.value, dom.value, month.value, dow.value,
                           !Unrestricted(w[2]), !Unrestricted(w[4])));
  }

  ghost predicate ValidFields(f: CronFields) {
    && (forall v :: v in f.minute ==> InRange(Minute, v))
    && (forall v :: v in f.hour ==> InRange(Hour, v))
    && (forall v :: v in f.dom ==> InRange(DayOfMonth, v))
    && (forall v :: v in f.month ==> InRange(Month, v))
    && (forall v :: v in f.dow ==> InRange(DayOfWeek, v))
    && (!f.domRestricted ==> forall v :: InRange(DayOfMonth, v) ==> v in f.dom)
    && (!f.dowRestricted ==> forall v :: InRange(DayOfWeek, v) ==> v in f.dow)
  }

  lemma StarGivesAll(raw: string, name: FieldName)
    requires T.Trim(raw) == "*" && ',' !in raw
    ensures FieldValues(raw, name).Some? ==> forall v :: InRange(name, v) ==> v in FieldValues(raw, name).value
  {
    assert T.Split(raw, ',') == [raw];
    var all := Segment(Low(name), High(name), 1);
    StarSegment(raw, name);
    if FieldValues(raw, name).Some? {
      forall v | InRange(name, v) ensures v in FieldValues(raw, name).value {
        UnionHas([raw], ValuesIn(name), v);
        ReachesIsMultiple(Low(name), 1, v);
        assert all.Denotes(v) && Normal(name, v) == v;
        assert Gives(all, name, v);
      }
    }
  }

  lemma StarSegment(raw: string, name: FieldName)
    requires T.Trim(raw) == "*"
    ensures ParseSegment(raw, name) == Some(Segment(Low(name), High(name), 1))
  {
    assert "*"[..1] == "*";
  }

  lemma TrimHasAll(raw: string, c: char)
    requires c in raw && !T.IsSpace(c)
    ensures c in T.Trim(raw)
  {
    TrimStartHasAll(raw, c);
    TrimEndHasAll(T.TrimStart(raw), c);
  }

  lemma {:induction false} TrimStartHasAll(s: string, c: char)
    requires c in s && !T.IsSpace(c)
    ensures c in T.TrimStart(s)
  {
    if T.IsSpace(s[0]) {
      TrimStartHasAll(s[1..], c);
    }
  }

  lemma {:induction false} TrimEndHasAll(s: string, c: char)
    requires c in s && !T.IsSpace(c)
    ensures c in T.TrimEnd(s)
  {
    if T.IsSpace(s[|s| - 1]) {
      TrimEndHasAll(s[..|s| - 1], c);
    }
  }

  predicate Unrestricted(raw: string) {
    T.Trim(raw) == "*"
  }

  lemma FieldIsValid(raw: string, name: FieldName)
    requires FieldValues(raw, name).Some?
    ensures forall v :: v in FieldValues(raw, name).value ==> InRange(name, v)
    ensures Unrestricted(raw) ==> forall v :: InRange(name, v) ==> v in FieldValues(raw, name).value
  {
    forall v | v in FieldValues(raw, name).value ensures InRange(name, v) {
      UnionHas(T.Split(raw, ','), ValuesIn(name), v);
    }
    if Unrestricted(raw) {
      if ',' in raw {
        TrimHasAll(raw, ',');
      }
      StarGivesAll(raw, name);
    }
  }

  /** What the parser accepts is well formed: values in range, `*` is everything. */
  lemma ParsedIsValid(expr: string)
    requires CronOf(expr).Some?
    ensures ValidFields(CronOf(expr).value)
  {
    var w := Words(T.Trim(expr));
    FieldIsValid(w[0], Minute);
    FieldIsValid(w[1], Hour);
    FieldIsValid(w[2], DayOfMonth);
    FieldIsValid(w[3], Month);
    FieldIsValid(w[4], DayOfWeek);
  }

  // ---- matching and searching --------------------------------------------------------

  /** Does a day match the day-of-month and day-of-week fields? */
  predicate DayMatches(f: CronFields, day: int) {
    var dom, dow := DateOf(day).day in f.dom, WeekdayOf(day) in f.dow;
    if f.domRestricted && f.dowRestricted then dom || dow
    else if f.domRestricted then dom
    else if f.dowRestricted then dow
    else true
  }

  /** Does the minute `m` minutes after the epoch match? */
  predicate Matches(f: CronFields, m: int) {
    var day := m / 1440;
    && DateOf(day).month in f.month
    && DayMatches(f, day)
    && (m / 60) % 24 in f.hour
    && m % 60 in f.minute
  }

  /** Five 366-day years of minutes. */
  const LIMIT: int := 5 * 366 * 24 * 60

  /** The whole minute strictly after an instant in milliseconds. */
  function FirstAfter(from: int): int {
    from / 60000 + 1
  }

  ghost predicate NoneIn(p: int -> bool, first: int, end: int) {
    forall k :: first <= k < end ==> !p(k)
  }

  /** `r` is the least minute in [first, end) that satisfies `p`, if there is one. */
  ghost predicate IsFirst(p: int -> bool, first: int, end: int, r: Option<int>) {
    match r
    case None => NoneIn(p, first, end)
    case Some(m) => first <= m < end && p(m) && NoneIn(p, first, m)
  }

  lemma FirstExists(p: int -> bool, first: int, end: int)
    ensures exists r :: IsFirst(p, first, end, r)
  {
    var m := first;
    while m < end && !p(m)
      invariant first <= m && (m <= end || m == first)
      invariant NoneIn(p, first, m)
    {
      m := m + 1;
    }
    assert IsFirst(p, first, end, if m < end then Some(m) else None);
  }

  ghost function First(p: int -> bool, first: int, end: int): (r: Option<int>)
    ensures IsFirst(p, first, end, r)
  {
    FirstExists(p, first, end);
    var r :| IsFirst(p, first, end, r);
    r
  }

  lemma FirstIs(p: int -> bool, first: int, end: int, r: Option<int>)
    requires IsFirst(p, first, end, r)
    ensures First(p, first, end) == r
  {
  }

  function Matching(f: CronFields): int -> bool {
    (m: int) => Matches(f, m)
  }

  /** The first instant of a matching minute strictly after `from`, in milliseconds, within the limit. */
  ghost function NextInstant(p: int -> bool, from: int): Option<int> {
    match First(p, FirstAfter(from), FirstAfter(from) + LIMIT)
    case None => None
    case Some(m) => Some(m * 60000)
  }

  ghost function Next(f: CronFields, from: int): Option<int> {
    NextInstant(Matching(f), from)
  }

  lemma FloorToMinute(from: int)
    ensures from - from % 60000 + 60000 == FirstAfter(from) * 60000
  {
  }

  lemma MinuteOfInstant(m: int)
    ensures m * 60000 / 60000 == m && m * 60000 % 60000 == 0
  {
  }

  /** The search, minute by minute; `None` is where the search fails. */
  method NextRun(f: CronFields, from: int) returns (r: Option<int>)
    ensures r == Next(f, from)
  {
    var t := from - from % 60000 + 60000;
    FloorToMinute(from);
    r := Search(Matching(f), t, from);
  }

  /** Tests the minute of `t`, then moves `t` a minute on. */
  method Search(matches: int -> bool, start: int, ghost from: int) returns (r: Option<int>)
    requires start == FirstAfter(from) * 60000
    ensures r == NextInstant(matches, from)
  {
    var t := start;
    ghost var first := FirstAfter(from);
    for i := 0 to LIMIT
      invariant t == (first + i) * 60000
      invariant NoneIn(matches, first, first + i)
    {
      MinuteOfInstant(first + i);
      if matches(t / 60000) {
        FirstIs(matches, first, first + LIMIT, Some(first + i));
        return Some(t);
      }
      t := t + 60000;
    }
    FirstIs(matches, first, first + LIMIT, None);
    return None;
  }
}
