/** What parsing a filled file gives back. */
module EnvTheorems {
  import opened Seqs
  import opened Text
  import opened EnvFiles

  // ---- fill and parse agree on the key of a line ------------------------------------------------

  function KeyBefore(raw: string, eq: nat): Option<string>
    requires eq <= |raw|
  {
    if eq == |raw| then None else Some(Trim(raw[..eq]))
  }

  /** The text before the first `=`, trimmed. */
  function KeyText(raw: string): Option<string> {
    KeyBefore(raw, IndexOf(raw, '='))
  }

  lemma IndexAfterFirst(c: char, t: string, sep: char)
    requires c != sep
    ensures IndexOf([c] + t, sep) == 1 + IndexOf(t, sep)
  {
    assert ([c] + t)[1..] == t;
  }

  lemma TrimAfterSpace(c: char, t: string)
    requires IsSpace(c)
    ensures Trim([c] + t) == Trim(t)
  {
    assert ([c] + t)[1..] == t;
  }

  lemma PrefixAfterSpace(c: char, t: string, i: nat)
    requires IsSpace(c) && i <= |t|
    ensures KeyBefore([c] + t, 1 + i) == KeyBefore(t, i)
  {
    assert ([c] + t)[..1 + i] == [c] + t[..i];
    TrimAfterSpace(c, t[..i]);
  }

  lemma SameKeyText(s: string, t: string, j: nat, i: nat)
    requires IndexOf(s, '=') == j && IndexOf(t, '=') == i && KeyBefore(s, j) == KeyBefore(t, i)
    ensures KeyText(s) == KeyText(t)
  {
  }

  lemma SpaceIsNotEquals(c: char)
    requires IsSpace(c)
    ensures c != '='
  {
  }

  lemma IndexInLonger(c: char, t: string, s: string)
    requires c != '=' && s == [c] + t
    ensures IndexOf(s, '=') == 1 + IndexOf(t, '=')
  {
    IndexAfterFirst(c, t, '=');
  }

  lemma KeyInLonger(c: char, t: string, s: string, i: nat)
    requires IsSpace(c) && s == [c] + t && i <= |t|
    ensures KeyBefore(s, 1 + i) == KeyBefore(t, i)
  {
    PrefixAfterSpace(c, t, i);
  }

  lemma KeyAfterSpace(c: char, t: string, s: string)
    requires IsSpace(c) && s == [c] + t
    ensures KeyText(s) == KeyText(t)
  {
    var i := IndexOf(t, '=');
    SpaceIsNotEquals(c);
    IndexInLonger(c, t, s);
    KeyInLonger(c, t, s, i);
    SameKeyText(s, t, 1 + i, i);
  }

  lemma {:induction false} IndexBeforeLast(t: string, c: char, sep: char)
    requires c != sep
    ensures IndexOf(t + [c], sep) == if IndexOf(t, sep) < |t| then IndexOf(t, sep) else |t| + 1
  {
    var s := t + [c];
    if t == "" {
      assert s[1..] == "";
    } else {
      assert s[1..] == t[1..] + [c];
      IndexBeforeLast(t[1..], c, sep);
    }
  }

  lemma KeyBeforeLast(t: string, c: char)
    requires c != '='
    ensures KeyText(t + [c]) == KeyText(t)
  {
    IndexBeforeLast(t, c, '=');
    var i := IndexOf(t, '=');
    if i < |t| {
      assert (t + [c])[..i] == t[..i];
    }
  }

  lemma {:induction false} SameOfTrimStart(raw: string, f: string -> Option<string>)
    requires forall c, t {:trigger f([c] + t)} :: IsSpace(c) ==> f([c] + t) == f(t)
    ensures f(TrimStart(raw)) == f(raw)
  {
    if raw != "" && IsSpace(raw[0]) {
      var first, rest := raw[0], raw[1..];
      SameOfTrimStart(rest, f);
      assert raw == [first] + rest;
      assert f([first] + rest) == f(rest);
    }
  }

  lemma {:induction false} SameOfTrimEnd(raw: string, f: string -> Option<string>)
    requires forall c, t {:trigger f(t + [c])} :: IsSpace(c) ==> f(t + [c]) == f(t)
    ensures f(TrimEnd(raw)) == f(raw)
  {
    if raw != "" && IsSpace(raw[|raw| - 1]) {
      var init, last := raw[..|raw| - 1], raw[|raw| - 1];
      SameOfTrimEnd(init, f);
      assert raw == init + [last];
      assert f(init + [last]) == f(init);
    }
  }

  /** The key before the first `=` of a raw line is that of the trimmed line. */
  lemma SameKey(raw: string)
    ensures KeyText(raw) == KeyText(Trim(raw))
  {
    var f := KeyText;
    forall c, t | IsSpace(c) ensures f([c] + t) == f(t) {
      KeyAfterSpace(c, t, [c] + t);
    }
    forall c, t | IsSpace(c) ensures f(t + [c]) == f(t) {
      KeyBeforeLast(t, c);
    }
    SameOfTrimEnd(TrimStart(raw), f);
    SameOfTrimStart(raw, f);
  }

  /** Does this value of `values` go to the entry of a line with that key? */
  function Replaced(entry: Entry, values: EnvMap): Entry {
    if entry.Some? && entry.value.0 in values then Some((entry.value.0, values[entry.value.0])) else entry
  }

  /** A filled line holds the old entry with its value replaced, and is seen exactly if it did. */
  predicate FillsLine(parse: string -> Entry, keyOf: string -> Option<string>, values: EnvMap, raw: string) {
    && parse(FillLine(raw, values, keyOf(raw))) == Replaced(parse(raw), values)
    && (keyOf(raw).Some? && keyOf(raw).value in values ==> parse(raw).Some? && parse(raw).value.0 == keyOf(raw).value)
    && (parse(raw).Some? && parse(raw).value.0 in values ==> keyOf(raw) == Some(parse(raw).value.0))
  }

  lemma FilledLine(values: EnvMap, raw: string)
    requires Clean(values)
    ensures FillsLine(ParseLine, LineKey, values, raw)
  {
    SameKey(raw);
    var key := LineKey(raw);
    if key.Some? && key.value in values {
      CleanPair(key.value, values[key.value]);
    }
  }

  // ---- whole files, line by line -------------------------------------------------------------------

  function Override(m: EnvMap, values: EnvMap): EnvMap {
    map k | k in m :: if k in values then values[k] else m[k]
  }

  lemma PutReplaced(m: EnvMap, entry: Entry, values: EnvMap)
    ensures Put(Override(m, values), Replaced(entry, values)) == Override(Put(m, entry), values)
  {
  }

  /** Filling the lines overrides the entries they already hold. */
  lemma {:induction false} GatherFilled(m: EnvMap, lines: seq<string>, values: EnvMap,
                                        parse: string -> Entry, keyOf: string -> Option<string>)
    requires forall l :: FillsLine(parse, keyOf, values, l)
    ensures Gather(Override(m, values), FillLines(lines, values, keyOf), parse) == Override(Gather(m, lines, parse), values)
    decreases |lines|
  {
    if lines != [] {
      var raw, rest := lines[0], lines[1..];
      var filled := FillLine(raw, values, keyOf(raw));
      assert FillsLine(parse, keyOf, values, raw);
      PutReplaced(m, parse(raw), values);
      GatherFilled(Put(m, parse(raw)), rest, values, parse, keyOf);
      GatherCons(Override(m, values), filled, FillLines(rest, values, keyOf), parse);
    }
  }

  /** The keys seen while filling are those the template already defines. */
  lemma {:induction false} SeenAreDefined(m: EnvMap, lines: seq<string>, values: EnvMap,
                                          parse: string -> Entry, keyOf: string -> Option<string>, k: string)
    requires forall l :: FillsLine(parse, keyOf, values, l)
    requires k in values
    ensures k in Gather(m, lines, parse) <==> k in m || k in SeenKeys(lines, values, keyOf)
    decreases |lines|
  {
    if lines != [] {
      assert FillsLine(parse, keyOf, values, lines[0]);
      SeenAreDefined(Put(m, parse(lines[0])), lines[1..], values, parse, keyOf, k);
    }
  }

  function Chosen(keys: seq<string>, values: EnvMap): EnvMap {
    map k | k in values && k in keys :: values[k]
  }

  /** Is the written entry for `k` read back with the value that `out` has? */
  predicate ReadsAs(parse: string -> Entry, values: EnvMap, out: EnvMap, k: string) {
    k in values ==> k in out && parse(Pair(k, values[k])) == Some((k, out[k]))
  }

  lemma ChosenStep(m: EnvMap, k: string, rest: seq<string>, values: EnvMap)
    requires k in values
    ensures m[k := values[k]] + Chosen(rest, values) == m + Chosen([k] + rest, values)
  {
  }

  /** The appended lines define exactly their keys, as they are read back. */
  lemma {:induction false} GatherPairs(m: EnvMap, keys: seq<string>, values: EnvMap, out: EnvMap, parse: string -> Entry)
    requires forall k :: k in keys ==> k in values
    requires forall k :: ReadsAs(parse, values, out, k)
    ensures Gather(m, Pairs(keys, values), parse) == m + Chosen(keys, out)
    decreases |keys|
  {
    if keys == [] {
      assert Chosen(keys, out) == map[];
    } else {
      var k, rest := keys[0], keys[1..];
      assert ReadsAs(parse, values, out, k);
      GatherCons(m, Pair(k, values[k]), Pairs(rest, values), parse);
      GatherPairs(m[k := out[k]], rest, values, out, parse);
      ChosenStep(m, k, rest, out);
      assert [k] + rest == keys;
    }
  }

  lemma {:induction false} GatherConcat(m: EnvMap, a: seq<string>, b: seq<string>, parse: string -> Entry)
    ensures Gather(m, a + b, parse) == Gather(Gather(m, a, parse), b, parse)
    decreases |a|
  {
    if a == [] {
      assert a + b == b;
    } else {
      assert (a + b)[0] == a[0] && (a + b)[1..] == a[1..] + b;
      GatherConcat(Put(m, parse(a[0])), a[1..], b, parse);
    }
  }

  // ---- lines and text ---------------------------------------------------------------------------------

  ghost predicate OneLiners(lines: seq<string>) {
    forall i :: 0 <= i < |lines| ==> '\n' !in lines[i]
  }

  lemma {:induction false} JoinConcat(a: seq<string>, b: seq<string>, sep: char)
    requires |a| >= 1 && |b| >= 1
    ensures Join(a + b, sep) == Join(a, sep) + [sep] + Join(b, sep)
  {
    if |a| == 1 {
      assert (a + b)[0] == a[0] && (a + b)[1..] == b;
    } else {
      assert (a + b)[0] == a[0] && (a + b)[1..] == a[1..] + b;
      JoinConcat(a[1..], b, sep);
      Grouped(a[0] + [sep], Join(a[1..], sep), [sep] + Join(b, sep));
      Grouped(Join(a[1..], sep), [sep], Join(b, sep));
      Grouped(Join(a, sep), [sep], Join(b, sep));
    }
  }

  lemma Grouped(x: string, y: string, z: string)
    ensures x + (y + z) == x + y + z
  {
  }

  /** Text ends with a line break just if its last line is empty. */
  lemma {:induction false} LastLine(lines: seq<string>)
    requires |lines| >= 1 && OneLiners(lines)
    ensures Join(lines, '\n') != "" && Join(lines, '\n')[|Join(lines, '\n')| - 1] == '\n'
      <==> |lines| >= 2 && lines[|lines| - 1] == ""
  {
    if |lines| == 1 {
      assert '\n' !in lines[0];
    } else {
      LastLine(lines[1..]);
      if |lines| == 2 {
        assert '\n' !in lines[1];
      }
    }
  }

  lemma GatherJoined(m: EnvMap, lines: seq<string>, parse: string -> Entry)
    requires |lines| >= 1 && OneLiners(lines)
    ensures Gather(m, Split(Join(lines, '\n'), '\n'), parse) == Gather(m, lines, parse)
  {
    SplitJoin(lines, '\n');
  }

  lemma EndsWithBreak(lines: seq<string>)
    requires |lines| >= 1
    ensures Join(lines + [""], '\n') == Join(lines, '\n') + "\n"
  {
    JoinConcat(lines, [""], '\n');
    assert Join([""], '\n') == "";
  }

  /** Lines, then the appended ones, with the closing line break. */
  lemma GatherAppended(m: EnvMap, lines: seq<string>, extra: seq<string>, parse: string -> Entry)
    requires |lines| >= 1 && |extra| >= 1 && OneLiners(lines) && OneLiners(extra) && parse("").None?
    ensures Gather(m, Split(Join(lines, '\n') + "\n" + Join(extra, '\n') + "\n", '\n'), parse)
         == Gather(Gather(m, lines, parse), extra, parse)
  {
    JoinConcat(lines, extra, '\n');
    EndsWithBreak(lines + extra);
    GatherJoined(m, lines + extra + [""], parse);
    GatherConcat(m, lines + extra, [""], parse);
    GatherConcat(m, lines, extra, parse);
  }

  lemma GatherWithExtra(m: EnvMap, lines: seq<string>, extra: seq<string>, parse: string -> Entry)
    requires |lines| >= 1 && OneLiners(lines) && OneLiners(extra) && parse("").None?
    ensures Gather(m, Split(WithExtra(Join(lines, '\n'), extra), '\n'), parse) == Gather(Gather(m, lines, parse), extra, parse)
  {
    LastLine(lines);
    if extra == [] {
      GatherJoined(m, lines, parse);
    } else if |lines| >= 2 && lines[|lines| - 1] == "" {
      var init := lines[..|lines| - 1];
      assert lines == init + [""];
      EndsWithBreak(init);
      GatherAppended(m, init, extra, parse);
      GatherConcat(m, init, [""], parse);
    } else {
      GatherAppended(m, lines, extra, parse);
    }
  }

  lemma {:induction false} LinesAreOneLiners(s: string)
    ensures OneLiners(Lines(s))
    decreases |s|
  {
    FirstLine(s);
    var i := IndexOf(s, '\n');
    if i < |s| {
      LinesAreOneLiners(s[i + 1..]);
    }
  }

  lemma {:induction false} FilledAreOneLiners(lines: seq<string>, values: EnvMap, keyOf: string -> Option<string>)
    requires OneLiners(lines) && Clean(values)
    ensures OneLiners(FillLines(lines, values, keyOf))
  {
    if lines != [] {
      FilledAreOneLiners(lines[1..], values, keyOf);
    }
  }

  ghost predicate OneLineEntries(values: EnvMap) {
    forall k :: k in values ==> '\n' !in k && '\n' !in values[k]
  }

  lemma {:induction false} PairsAreOneLiners(keys: seq<string>, values: EnvMap)
    requires (forall k :: k in keys ==> k in values) && OneLineEntries(values)
    ensures OneLiners(Pairs(keys, values))
  {
    if keys != [] {
      PairsAreOneLiners(keys[1..], values);
    }
  }

  lemma OverrideThenChosen(m: EnvMap, values: EnvMap, keys: seq<string>, seen: set<string>)
    requires Enumerates(keys, values)
    requires forall k :: k in values ==> (k in m <==> k in seen)
    ensures Override(m, values) + Chosen(Unseen(keys, seen), values) == m + values
  {
  }

  lemma FilledText(lines: seq<string>, values: EnvMap, keys: seq<string>, parse: string -> Entry, keyOf: string -> Option<string>)
    requires |lines| >= 1 && OneLiners(lines) && Clean(values) && Enumerates(keys, values) && parse("").None?
    requires forall l :: FillsLine(parse, keyOf, values, l)
    requires forall k :: ReadsAs(parse, values, values, k)
    ensures Gather(map[], Split(WithExtra(Join(FillLines(lines, values, keyOf), '\n'),
                                          Pairs(Unseen(keys, SeenKeys(lines, values, keyOf)), values)), '\n'), parse)
         == Gather(map[], lines, parse) + values
  {
    var seen := SeenKeys(lines, values, keyOf);
    var filled, extra := FillLines(lines, values, keyOf), Unseen(keys, seen);
    FilledAreOneLiners(lines, values, keyOf);
    PairsAreOneLiners(extra, values);
    GatherWithExtra(map[], filled, Pairs(extra, values), parse);
    GatherFilled(map[], lines, values, parse, keyOf);
    assert Override(map[], values) == map[];
    var m := Gather(map[], lines, parse);
    GatherPairs(Override(m, values), extra, values, values, parse);
    forall k | k in values ensures k in m <==> k in seen {
      SeenAreDefined(map[], lines, values, parse, keyOf, k);
    }
    OverrideThenChosen(m, values, keys, seen);
  }

  /** Filling a template and parsing the result is exactly an update of the parsed template. */
  lemma FillThenParse(template: string, values: EnvMap, keys: seq<string>)
    requires Clean(values) && Enumerates(keys, values)
    ensures Parse(Fill(template, values, keys)) == Parse(template) + values
  {
    forall l ensures FillsLine(ParseLine, LineKey, values, l) {
      FilledLine(values, l);
    }
    forall k ensures ReadsAs(ParseLine, values, values, k) {
      if k in values {
        CleanPair(k, values[k]);
      }
    }
    LinesAreOneLiners(template);
    FilledText(Lines(template), values, keys, ParseLine, LineKey);
    ParseIgnoresReturns(Fill(template, values, keys));
  }

  lemma ParseIgnoresReturns(content: string)
    ensures Parse(content) == Gather(map[], Split(content, '\n'), ParseLine)
  {
    forall l {:trigger DropReturn(l)} ensures ParseLine(DropReturn(l)) == ParseLine(l) {
      ParseDropReturn(l);
    }
    GatherIgnoresReturns(map[], content, ParseLine);
  }

  // ---- which entries survive ------------------------------------------------------------------------

  /** What every parsed entry looks like. */
  predicate IsParsed(entry: Entry) {
    entry.Some? ==> CleanKey(entry.value.0) && '\n' !in entry.value.1
  }

  lemma ParsedKey(line: string, eq: nat)
    requires IsTrimmed(line) && '\n' !in line && eq < |line| && eq == IndexOf(line, '=') && line[0] != '#'
    ensures Trim(line[..eq]) != "" && Trim(line[..eq]) != PROTO ==> CleanKey(Trim(line[..eq]))
  {
    var text := line[..eq];
    TrimIsTrimmed(text);
    if text != "" {
      assert TrimStart(text) == text;
    }
  }

  lemma TrimWithout(s: string, c: char)
    requires c !in s
    ensures c !in Trim(s) && c !in Unquote(Trim(s))
  {
    assert c !in TrimStart(s);
  }

  lemma ParsedTrimmed(line: string)
    requires IsTrimmed(line) && '\n' !in line
    ensures IsParsed(ParseTrimmed(line))
  {
    var eq := IndexOf(line, '=');
    if line != "" && line[0] != '#' && eq < |line| {
      ParsedKey(line, eq);
      TrimWithout(line[eq + 1..], '\n');
    }
  }

  lemma ParsedLine(raw: string)
    requires '\n' !in raw
    ensures IsParsed(ParseLine(raw))
  {
    TrimIsTrimmed(raw);
    TrimWithout(raw, '\n');
    ParsedTrimmed(Trim(raw));
  }

  lemma {:induction false} GatheredIsParsed(m: EnvMap, lines: seq<string>, parse: string -> Entry)
    requires OneLiners(lines) && forall l :: '\n' !in l ==> IsParsed(parse(l))
    requires forall k :: k in m ==> CleanKey(k) && '\n' !in m[k]
    ensures var r := Gather(m, lines, parse); forall k :: k in r ==> CleanKey(k) && '\n' !in r[k]
    decreases |lines|
  {
    if lines != [] {
      assert IsParsed(parse(lines[0]));
      GatheredIsParsed(Put(m, parse(lines[0])), lines[1..], parse);
    }
  }

  lemma ParsedFile(content: string)
    ensures forall k :: k in Parse(content) ==> CleanKey(k) && '\n' !in Parse(content)[k]
  {
    LinesAreOneLiners(content);
    forall l | '\n' !in l ensures IsParsed(ParseLine(l)) {
      ParsedLine(l);
    }
    GatheredIsParsed(map[], Lines(content), ParseLine);
  }

  lemma LineOfEmpty(template: string, values: EnvMap, keyOf: string -> Option<string>)
    requires template == "" && keyOf("").None?
    ensures Lines(template) == [""] && FillLines([""], values, keyOf) == [""] && SeenKeys([""], values, keyOf) == {}
  {
    assert FillLines([], values, keyOf) == [];
  }

  lemma FillOfEmpty(template: string, text: string, values: EnvMap, keys: seq<string>)
    requires template == "" && keys != [] && Enumerates(keys, values) && text == Fill(template, values, keys)
    ensures text == "\n" + Join(Pairs(keys, values), '\n') + "\n"
  {
    assert LineKey("") == None;
    LineOfEmpty(template, values, LineKey);
    UnseenAll(keys, SeenKeys([""], values, LineKey));
    ExtraOnEmpty(Pairs(keys, values));
  }

  lemma ExtraOnEmpty(extra: seq<string>)
    requires extra != []
    ensures WithExtra(Join([""], '\n'), extra) == "\n" + Join(extra, '\n') + "\n"
  {
    assert Join([""], '\n') == "";
    assert "" + "\n" == "\n";
  }

  lemma UnseenAll(keys: seq<string>, seen: set<string>)
    requires seen == {}
    ensures Unseen(keys, seen) == keys
  {
    FilterAll(keys, (k: string) => k !in seen);
  }

  /** Entries alone are gathered as they are read. */
  lemma GatherEntries(pairs: seq<string>, parse: string -> Entry)
    requires |pairs| >= 1 && OneLiners(pairs) && parse("").None?
    ensures Gather(map[], Split("\n" + Join(pairs, '\n') + "\n", '\n'), parse) == Gather(map[], pairs, parse)
  {
    var first := [""];
    GatherAppended(map[], first, pairs, parse);
    assert Join(first, '\n') == "";
    assert "" + "\n" == "\n";
    GatherCons(map[], "", [], parse);
  }

  /** The values as they are read back: trimmed and unquoted. */
  function AsRead(values: EnvMap): EnvMap {
    map k | k in values :: Unquote(Trim(TrimEnd(values[k])))
  }

  lemma ReadBackOnlyIfClean(value: string)
    requires '\n' !in value && Unquote(Trim(TrimEnd(value))) == value
    ensures CleanValue(value)
  {
    TrimIsTrimmed(TrimEnd(value));
    UnquoteShortens(Trim(TrimEnd(value)), value);
  }

  lemma UnquoteShortens(val: string, value: string)
    requires |val| <= |value| && Unquote(val) == value
    ensures val == value && !IsWrapped(value, '"') && !IsWrapped(value, '\'')
  {
  }

  lemma ChosenAll(keys: seq<string>, values: EnvMap, out: EnvMap)
    requires Enumerates(keys, values) && out.Keys == values.Keys
    ensures map[] + Chosen(keys, out) == out
  {
  }

  lemma EntriesRead(values: EnvMap, keys: seq<string>, out: EnvMap, parse: string -> Entry)
    requires Enumerates(keys, values) && out.Keys == values.Keys && forall k :: ReadsAs(parse, values, out, k)
    ensures Gather(map[], Pairs(keys, values), parse) == out
  {
    GatherPairs(map[], keys, values, out, parse);
    ChosenAll(keys, values, out);
  }

  lemma EntryAsRead(values: EnvMap, out: EnvMap, k: string)
    requires out == AsRead(values) && (k in values ==> CleanKey(k))
    ensures ReadsAs(ParseLine, values, out, k)
  {
    if k in values {
      ParsePair(k, values[k]);
      assert out[k] == Unquote(Trim(TrimEnd(values[k])));
    }
  }

  lemma EntriesAsRead(values: EnvMap, keys: seq<string>, out: EnvMap)
    requires Enumerates(keys, values) && (forall k :: k in values ==> CleanKey(k)) && out == AsRead(values)
    ensures Gather(map[], Pairs(keys, values), ParseLine) == out
  {
    forall k ensures ReadsAs(ParseLine, values, out, k) {
      EntryAsRead(values, out, k);
    }
    EntriesRead(values, keys, out, ParseLine);
  }

  lemma EntriesFile(text: string, values: EnvMap, keys: seq<string>)
    requires Enumerates(keys, values) && keys != []
    requires text == "\n" + Join(Pairs(keys, values), '\n') + "\n" && Parse(text) == values
    ensures Clean(values)
  {
    ParsedFile(text);
    EntriesAsRead(values, keys, AsRead(values));
    PairsAreOneLiners(keys, values);
    GatherEntries(Pairs(keys, values), ParseLine);
    ParseIgnoresReturns(text);
    assert values == AsRead(values);
    forall k | k in values ensures CleanKey(k) && CleanValue(values[k]) {
      assert AsRead(values)[k] == values[k];
      ReadBackOnlyIfClean(values[k]);
    }
  }

  lemma ParseOfEmpty(template: string, parsed: EnvMap, values: EnvMap)
    requires template == "" && parsed == Parse(template) + values
    ensures parsed == values
  {
    assert Lines(template) == [""];
    assert ParseLine("") == None;
    GatherCons(map[], "", [], ParseLine);
  }

  /** Does filling in `values` always update the parsed file by them? */
  ghost predicate Survive(values: EnvMap, keys: seq<string>)
    requires Enumerates(keys, values)
  {
    forall template {:trigger Fill(template, values, keys)} :: Parse(Fill(template, values, keys)) == Parse(template) + values
  }

  lemma CleanSurvive(values: EnvMap, keys: seq<string>)
    requires Clean(values) && Enumerates(keys, values)
    ensures Survive(values, keys)
  {
    forall template ensures Parse(Fill(template, values, keys)) == Parse(template) + values {
      FillThenParse(template, values, keys);
    }
  }

  lemma SurvivesIn(template: string, values: EnvMap, keys: seq<string>) returns (text: string)
    requires Enumerates(keys, values) && Survive(values, keys)
    ensures text == Fill(template, values, keys) && Parse(text) == Parse(template) + values
  {
    text := Fill(template, values, keys);
  }

  lemma Written(template: string, values: EnvMap, keys: seq<string>) returns (text: string)
    requires template == "" && keys != [] && Enumerates(keys, values) && Survive(values, keys)
    ensures text == "\n" + Join(Pairs(keys, values), '\n') + "\n"
    ensures Parse(text) == values
  {
    text := SurvivesIn(template, values, keys);
    FillOfEmpty(template, text, values, keys);
    ParseOfEmpty(template, Parse(text), values);
  }

  lemma OnlyCleanSurvive(values: EnvMap, keys: seq<string>)
    requires Enumerates(keys, values) && Survive(values, keys)
    ensures Clean(values)
  {
    if keys != [] {
      var text := Written("", values, keys);
      EntriesFile(text, values, keys);
    }
  }

  /** Filling in values updates every template's entries by exactly them if and only if they are clean. */
  lemma SurvivesExactlyIfClean(values: EnvMap, keys: seq<string>)
    requires Enumerates(keys, values)
    ensures Survive(values, keys) <==> Clean(values)
  {
    if Survive(values, keys) {
      OnlyCleanSurvive(values, keys);
    }
    if Clean(values) {
      CleanSurvive(values, keys);
    }
  }
}
