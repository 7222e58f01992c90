/** Parsing a `.env` file, and filling one in from a template. */
module EnvFiles {
  import opened Seqs
  import opened Text

  type EnvMap = map<string, string>

  function DropReturn(line: string): string {
    if line != "" && line[|line| - 1] == '\r' then line[..|line| - 1] else line
  }

  /** `split(/\r?\n/)`. */
  function Lines(s: string): (lines: seq<string>)
    ensures |lines| >= 1
    decreases |s|
  {
    var i := IndexOf(s, '\n');
    if i == |s| then [s] else [DropReturn(s[..i])] + Lines(s[i + 1..])
  }

  predicate IsWrapped(val: string, quote: char) {
    |val| >= 2 && val[0] == quote && val[|val| - 1] == quote
  }

  function Unquote(val: string): string {
    if IsWrapped(val, '"') || IsWrapped(val, '\'') then val[1..|val| - 1] else val
  }

  /** Assigning a string to `__proto__` of a plain object does nothing. */
  const PROTO := "__proto__"

  type Entry = Option<(string, string)>

  /** The entry a line holds: comments, lines without `=` and empty keys hold none. */
  function ParseTrimmed(line: string): Entry {
    var eq := IndexOf(line, '=');
    if line == "" || line[0] == '#' || eq == |line| then None
    else
      var key := Trim(line[..eq]);
      if key == "" || key == PROTO then None else Some((key, Unquote(Trim(line[eq + 1..]))))
  }

  function ParseLine(raw: string): Entry {
    ParseTrimmed(Trim(raw))
  }

  function Put(m: EnvMap, entry: Entry): EnvMap {
    if entry.None? then m else m[entry.value.0 := entry.value.1]
  }

  /** Later entries replace earlier ones. */
  function Gather(m: EnvMap, lines: seq<string>, parse: string -> Entry): EnvMap
    decreases |lines|
  {
    if lines == [] then m else Gather(Put(m, parse(lines[0])), lines[1..], parse)
  }

  function Parse(content: string): EnvMap {
    Gather(map[], Lines(content), ParseLine)
  }

  method GatherLines(lines: seq<string>, parse: string -> Entry) returns (out: EnvMap)
    ensures out == Gather(map[], lines, parse)
  {
    out := map[];
    for i := 0 to |lines|
      invariant Gather(out, lines[i..], parse) == Gather(map[], lines, parse)
    {
      assert lines[i..][1..] == lines[i + 1..];
      var entry := parse(lines[i]);
      if entry.None? {
        continue;
      }
      out := out[entry.value.0 := entry.value.1];
    }
  }

  method ParseEnv(content: string) returns (out: EnvMap)
    ensures out == Parse(content)
  {
    out := GatherLines(Lines(content), ParseLine);
  }

  // ---- filling ------------------------------------------------------------------------------

  /** The key a template line is taken to hold. */
  function LineKey(raw: string): Option<string> {
    var trimmed, eq := Trim(raw), IndexOf(raw, '=');
    if trimmed == "" || trimmed[0] == '#' || eq == |raw| then None else Some(Trim(raw[..eq]))
  }

  function Pair(key: string, value: string): string {
    key + "=" + value
  }

  function FillLine(raw: string, values: EnvMap, key: Option<string>): string {
    if key.Some? && key.value in values then Pair(key.value, values[key.value]) else raw
  }

  function FillLines(lines: seq<string>, values: EnvMap, keyOf: string -> Option<string>): (filled: seq<string>)
    ensures |filled| == |lines|
  {
    if lines == [] then []
    else [FillLine(lines[0], values, keyOf(lines[0]))] + FillLines(lines[1..], values, keyOf)
  }

  /** The keys of `values` that some line holds. */
  function SeenKeys(lines: seq<string>, values: EnvMap, keyOf: string -> Option<string>): set<string> {
    if lines == [] then {}
    else
      var key := keyOf(lines[0]);
      (if key.Some? && key.value in values then {key.value} else {}) + SeenKeys(lines[1..], values, keyOf)
  }

  function Pairs(keys: seq<string>, values: EnvMap): seq<string>
    requires forall k :: k in keys ==> k in values
  {
    if keys == [] then [] else [Pair(keys[0], values[keys[0]])] + Pairs(keys[1..], values)
  }

  /** What is appended for the keys the template does not mention. */
  function WithExtra(text: string, extra: seq<string>): string {
    if extra == [] then text
    else (if text != "" && text[|text| - 1] == '\n' then text else text + "\n") + Join(extra, '\n') + "\n"
  }

  ghost predicate Enumerates(keys: seq<string>, values: EnvMap) {
    forall k :: k in keys <==> k in values
  }

  /** The keys of `values`, as `Object.keys` lists them, that are not in `seen`. */
  function Unseen(keys: seq<string>, seen: set<string>): seq<string> {
    Filter(keys, (k: string) => k !in seen)
  }

  function Fill(template: string, values: EnvMap, keys: seq<string>): string
    requires Enumerates(keys, values)
  {
    var lines := Lines(template);
    WithExtra(Join(FillLines(lines, values, LineKey), '\n'), Pairs(Unseen(keys, SeenKeys(lines, values, LineKey)), values))
  }

  lemma FillFrom(lines: seq<string>, i: nat, values: EnvMap, keyOf: string -> Option<string>)
    requires i < |lines|
    ensures FillLines(lines[i..], values, keyOf)
         == [FillLine(lines[i], values, keyOf(lines[i]))] + FillLines(lines[i + 1..], values, keyOf)
    ensures SeenKeys(lines[i..], values, keyOf)
         == (var key := keyOf(lines[i]); if key.Some? && key.value in values then {key.value} else {})
            + SeenKeys(lines[i + 1..], values, keyOf)
  {
    assert lines[i..][1..] == lines[i + 1..];
  }

  lemma Regroup<T>(a: seq<T>, x: T, b: seq<T>)
    ensures a + ([x] + b) == a + [x] + b
  {
  }

  method FillEach(lines: seq<string>, values: EnvMap, keyOf: string -> Option<string>)
    returns (filled: seq<string>, seen: set<string>)
    ensures filled == FillLines(lines, values, keyOf) && seen == SeenKeys(lines, values, keyOf)
  {
    seen, filled := {}, [];
    for i := 0 to |lines|
      invariant filled + FillLines(lines[i..], values, keyOf) == FillLines(lines, values, keyOf)
      invariant seen + SeenKeys(lines[i..], values, keyOf) == SeenKeys(lines, values, keyOf)
    {
      var raw, key := lines[i], keyOf(lines[i]);
      FillFrom(lines, i, values, keyOf);
      Regroup(filled, FillLine(raw, values, key), FillLines(lines[i + 1..], values, keyOf));
      if key.Some? && key.value in values {
        seen := seen + {key.value};
        filled := filled + [Pair(key.value, values[key.value])];
      } else {
        filled := filled + [raw];
      }
    }
  }

  method Append(text: string, extra: seq<string>) returns (result: string)
    ensures result == WithExtra(text, extra)
  {
    result := text;
    if |extra| > 0 {
      if result == "" || result[|result| - 1] != '\n' {
        result := result + "\n";
      }
      result := result + Join(extra, '\n') + "\n";
    }
  }

  method FillEnv(template: string, values: EnvMap, keys: seq<string>) returns (result: string)
    requires Enumerates(keys, values)
    ensures result == Fill(template, values, keys)
  {
    var filled, seen := FillEach(Lines(template), values, LineKey);
    result := Append(Join(filled, '\n'), Pairs(Unseen(keys, seen), values));
  }

  // ---- which entries survive ------------------------------------------------------------------

  predicate CleanKey(key: string) {
    key != "" && IsTrimmed(key) && '\n' !in key && '=' !in key && key[0] != '#' && key != PROTO
  }

  predicate CleanValue(value: string) {
    IsTrimmed(value) && '\n' !in value && !IsWrapped(value, '"') && !IsWrapped(value, '\'')
  }

  ghost predicate Clean(values: EnvMap) {
    forall k :: k in values ==> CleanKey(k) && CleanValue(values[k])
  }

  lemma {:induction false} TrimEndAfter(a: string, s: string)
    requires a != "" && !IsSpace(a[|a| - 1])
    ensures TrimEnd(a + s) == a + TrimEnd(s)
  {
    if s == "" {
      assert a + s == a;
    } else if IsSpace(s[|s| - 1]) {
      assert (a + s)[..|a + s| - 1] == a + s[..|s| - 1];
      TrimEndAfter(a, s[..|s| - 1]);
    }
  }

  lemma TrimmedPair(key: string, value: string)
    requires CleanKey(key)
    ensures Trim(Pair(key, value)) == key + ['='] + TrimEnd(value)
  {
    var a := key + "=";
    assert Pair(key, value) == a + value;
    assert TrimStart(a + value) == a + value;
    TrimEndAfter(a, value);
  }

  lemma ParseEntry(line: string, key: string, v: string)
    requires CleanKey(key) && line == key + ['='] + v
    ensures ParseTrimmed(line) == Some((key, Unquote(Trim(v))))
  {
    IndexOfPrefix(key, '=', v);
    assert line[..|key|] == key && line[|key| + 1..] == v;
    TrimOfTrimmed(key);
  }

  /** A written entry is read back with its value trimmed and unquoted. */
  lemma ParsePair(key: string, value: string)
    requires CleanKey(key)
    ensures ParseLine(Pair(key, value)) == Some((key, Unquote(Trim(TrimEnd(value)))))
  {
    TrimmedPair(key, value);
    ParseEntry(Trim(Pair(key, value)), key, TrimEnd(value));
  }

  lemma CleanPair(key: string, value: string)
    requires CleanKey(key) && CleanValue(value)
    ensures ParseLine(Pair(key, value)) == Some((key, value))
  {
    ParsePair(key, value);
    TrimOfTrimmed(value);
  }

  // ---- line ends do not matter -----------------------------------------------------------------

  lemma {:induction false} TrimStartBeforeSpace(s: string, c: char)
    requires IsSpace(c)
    ensures TrimStart(s + [c]) == if TrimStart(s) == "" then "" else TrimStart(s) + [c]
  {
    if s == "" {
      assert (s + [c])[1..] == "";
    } else {
      assert (s + [c])[1..] == s[1..] + [c];
      TrimStartBeforeSpace(s[1..], c);
    }
  }

  lemma TrimBeforeSpace(s: string, c: char)
    requires IsSpace(c)
    ensures Trim(s + [c]) == Trim(s)
  {
    TrimStartBeforeSpace(s, c);
    var t := TrimStart(s);
    assert (t + [c])[..|t|] == t;
  }

  lemma ParseDropReturn(line: string)
    ensures ParseLine(DropReturn(line)) == ParseLine(line)
  {
    var d := DropReturn(line);
    if d != line {
      assert line == d + ['\r'];
      TrimBeforeSpace(d, '\r');
    }
  }

  lemma GatherCons(m: EnvMap, line: string, rest: seq<string>, parse: string -> Entry)
    ensures Gather(m, [line] + rest, parse) == Gather(Put(m, parse(line)), rest, parse)
  {
    assert ([line] + rest)[1..] == rest;
  }

  lemma FirstLine(s: string)
    ensures var i := IndexOf(s, '\n');
            if i == |s| then Lines(s) == [s] && Split(s, '\n') == [s]
            else Lines(s) == [DropReturn(s[..i])] + Lines(s[i + 1..]) && Split(s, '\n') == [s[..i]] + Split(s[i + 1..], '\n')
  {
  }

  lemma {:induction false} GatherIgnoresReturns(m: EnvMap, s: string, parse: string -> Entry)
    requires forall l {:trigger DropReturn(l)} :: parse(DropReturn(l)) == parse(l)
    ensures Gather(m, Lines(s), parse) == Gather(m, Split(s, '\n'), parse)
    decreases |s|
  {
    FirstLine(s);
    var i := IndexOf(s, '\n');
    if i < |s| {
      var line, rest := s[..i], s[i + 1..];
      var next := Put(m, parse(line));
      GatherIgnoresReturns(next, rest, parse);
      calc {
        Gather(m, Lines(s), parse);
        Gather(m, [DropReturn(line)] + Lines(rest), parse);
        { GatherCons(m, DropReturn(line), Lines(rest), parse); }
        Gather(next, Lines(rest), parse);
        Gather(next, Split(rest, '\n'), parse);
        { GatherCons(m, line, Split(rest, '\n'), parse); }
        Gather(m, [line] + Split(rest, '\n'), parse);
      }
    }
  }
}
