/** What the lines of an environment file mean, and which of them filling in leaves alone. */
module EnvLaws {
  import opened Seqs
  import opened Text
  import opened EnvFiles

  lemma EndsPlain(s: string)
    requires s != "" && !IsSpace(s[0]) && !IsSpace(s[|s| - 1])
    ensures TrimEnd(s) == s && Trim(s) == s
  {
  }

  lemma Unwraps(value: string, quote: char)
    requires (quote == '"' || quote == '\'') && IsWrapped(value, quote)
    ensures Unquote(value) == value[1..|value| - 1]
  {
  }

  lemma StaysUnwrapped(value: string)
    requires value == "" || (value[0] != '"' && value[0] != '\'')
    ensures Unquote(value) == value
  {
  }

  lemma Between(value: string, quote: char, v: string)
    requires value == [quote] + v + [quote]
    ensures |value| >= 2 && value[0] == quote && value[|value| - 1] == quote && value[1..|value| - 1] == v
  {
  }

  lemma ReadsValue(key: string, value: string, v: string)
    requires CleanKey(key) && TrimEnd(value) == value && Trim(value) == value && Unquote(value) == v
    ensures ParseLine(key + "=" + value) == Some((key, v))
  {
    ParsePair(key, value);
    assert Pair(key, value) == key + "=" + value;
  }

  /** A value in quotes is read as what is between them, blanks and all. */
  lemma QuotedValue(key: string, quote: char, v: string)
    requires CleanKey(key) && (quote == '"' || quote == '\'')
    ensures ParseLine(key + "=" + ([quote] + v + [quote])) == Some((key, v))
  {
    var value := [quote] + v + [quote];
    Between(value, quote, v);
    EndsPlain(value);
    Unwraps(value, quote);
    ReadsValue(key, value, v);
  }

  /** A value without outer blanks or quotes is read as it is. */
  lemma PlainValue(key: string, v: string)
    requires CleanKey(key) && v != "" && !IsSpace(v[0]) && !IsSpace(v[|v| - 1]) && v[0] != '"' && v[0] != '\''
    ensures ParseLine(key + "=" + v) == Some((key, v))
  {
    EndsPlain(v);
    StaysUnwrapped(v);
    ReadsValue(key, v, v);
  }

  /** A key may be given nothing. */
  lemma EmptyValue(key: string, v: string)
    requires CleanKey(key) && v == ""
    ensures ParseLine(key + "=" + v) == Some((key, v))
  {
    StaysUnwrapped(v);
    ReadsValue(key, v, v);
  }

  lemma TrimHasNo(s: string, c: char)
    requires c !in s
    ensures c !in Trim(s)
  {
  }

  /** Blank lines, comments and lines without `=` say nothing. */
  lemma SaysNothing(raw: string)
    requires Trim(raw) == "" || Trim(raw)[0] == '#' || '=' !in raw
    ensures ParseLine(raw) == None
  {
    if '=' !in raw {
      TrimHasNo(raw, '=');
    }
  }

  /** The last line with a key gives its value. */
  lemma {:induction false} LastLineWins(m: EnvMap, lines: seq<string>, parse: string -> Entry, i: nat, key: string, v: string)
    requires i < |lines| && parse(lines[i]) == Some((key, v))
    requires forall j :: i < j < |lines| && parse(lines[j]).Some? ==> parse(lines[j]).value.0 != key
    ensures key in Gather(m, lines, parse) && Gather(m, lines, parse)[key] == v
    decreases |lines|
  {
    var next := Put(m, parse(lines[0]));
    if i > 0 {
      LastLineWins(next, lines[1..], parse, i - 1, key, v);
    } else {
      OtherLinesKeep(next, lines[1..], parse, key);
    }
  }

  lemma {:induction false} OtherLinesKeep(m: EnvMap, lines: seq<string>, parse: string -> Entry, key: string)
    requires forall j :: 0 <= j < |lines| && parse(lines[j]).Some? ==> parse(lines[j]).value.0 != key
    ensures var after := Gather(m, lines, parse); (key in after <==> key in m) && (key in m ==> after[key] == m[key])
    decreases |lines|
  {
    if lines != [] {
      OtherLinesKeep(Put(m, parse(lines[0])), lines[1..], parse, key);
    }
  }

  // ---- filling in -------------------------------------------------------------------------

  /** Which text replaces a line: its own, unless it assigns a key that is given a value. */
  lemma FilledLineIs(raw: string, before: string, after: string, values: EnvMap)
    requires raw == before + ['='] + after && '=' !in before
    ensures FillLine(raw, values, LineKey(raw)) ==
              if Trim(raw) != "" && Trim(raw)[0] != '#' && Trim(before) in values then Trim(before) + "=" + values[Trim(before)] else raw
  {
    IndexOfPrefix(before, '=', after);
    assert raw[..|before|] == before;
  }

  lemma OtherLineStays(raw: string, values: EnvMap)
    requires '=' !in raw
    ensures FillLine(raw, values, LineKey(raw)) == raw
  {
  }

  lemma {:induction false} LinesAt(lines: seq<string>, values: EnvMap, keyOf: string -> Option<string>, i: nat)
    requires i < |lines|
    ensures FillLines(lines, values, keyOf)[i] == FillLine(lines[i], values, keyOf(lines[i]))
  {
    if i > 0 {
      LinesAt(lines[1..], values, keyOf, i - 1);
    }
  }

  /** Some line assigns the key. */
  ghost predicate IsAssigned(key: string, lines: seq<string>, keyOf: string -> Option<string>) {
    exists i :: 0 <= i < |lines| && keyOf(lines[i]) == Some(key)
  }

  lemma AssignedFirst(key: string, lines: seq<string>, keyOf: string -> Option<string>)
    requires lines != []
    ensures IsAssigned(key, lines, keyOf) <==> keyOf(lines[0]) == Some(key) || IsAssigned(key, lines[1..], keyOf)
  {
    if IsAssigned(key, lines[1..], keyOf) {
      var i :| 0 <= i < |lines[1..]| && keyOf(lines[1..][i]) == Some(key);
      assert lines[i + 1] == lines[1..][i];
    }
  }

  lemma {:induction false} SeenAreAssigned(lines: seq<string>, values: EnvMap, keyOf: string -> Option<string>, key: string)
    ensures key in SeenKeys(lines, values, keyOf) <==> key in values && IsAssigned(key, lines, keyOf)
  {
    if lines != [] {
      SeenAreAssigned(lines[1..], values, keyOf, key);
      AssignedFirst(key, lines, keyOf);
    }
  }

  ghost predicate AreFilled(filled: seq<string>, lines: seq<string>, values: EnvMap) {
    |filled| == |lines| && forall i :: 0 <= i < |lines| ==> filled[i] == FillLine(lines[i], values, LineKey(lines[i]))
  }

  lemma {:induction false} FilledLines(lines: seq<string>, values: EnvMap)
    ensures AreFilled(FillLines(lines, values, LineKey), lines, values)
  {
    forall i: nat | i < |lines| ensures FillLines(lines, values, LineKey)[i] == FillLine(lines[i], values, LineKey(lines[i])) {
      LinesAt(lines, values, LineKey, i);
    }
  }

  /** The text with the entries after it, each on a line of its own. */
  function Followed(text: string, extra: seq<string>): string {
    if extra == [] then text
    else if text != "" && text[|text| - 1] == '\n' then text + Join(extra, '\n') + "\n"
    else text + "\n" + Join(extra, '\n') + "\n"
  }

  ghost predicate AreEntries(extra: seq<string>, keys: seq<string>, values: EnvMap) {
    |extra| == |keys| && forall i :: 0 <= i < |keys| ==> keys[i] in values && extra[i] == keys[i] + "=" + values[keys[i]]
  }

  /**
   The filled text has the template's lines in their order, each its own or replaced, and then
   an entry for each key that no line assigns.
   */
  lemma FilledInPlace(template: string, lines: seq<string>, values: EnvMap, keys: seq<string>)
      returns (filled: seq<string>, others: seq<string>, extra: seq<string>)
    requires Enumerates(keys, values) && lines == Lines(template)
    ensures AreFilled(filled, lines, values)
    ensures forall k :: k in others <==> k in values && !IsAssigned(k, lines, LineKey)
    ensures AreEntries(extra, others, values)
    ensures Fill(template, values, keys) == Followed(Join(filled, '\n'), extra)
  {
    filled := FillLines(lines, values, LineKey);
    others := Unseen(keys, SeenKeys(lines, values, LineKey));
    extra := Pairs(others, values);
    FilledLines(lines, values);
    forall k ensures k in others <==> k in values && !IsAssigned(k, lines, LineKey) {
      SeenAreAssigned(lines, values, LineKey, k);
    }
    PairsAre(others, values);
    FollowedIs(Join(filled, '\n'), extra);
  }

  lemma FollowedIs(text: string, extra: seq<string>)
    ensures WithExtra(text, extra) == Followed(text, extra)
  {
  }

  lemma {:induction false} PairsAre(keys: seq<string>, values: EnvMap)
    requires forall k :: k in keys ==> k in values
    ensures |Pairs(keys, values)| == |keys|
    ensures forall i :: 0 <= i < |keys| ==> Pairs(keys, values)[i] == keys[i] + "=" + values[keys[i]]
  {
    if keys != [] {
      PairsAre(keys[1..], values);
    }
  }

  /** The text of a line without the carriage return that may end it. */
  function Unreturned(part: string): string {
    if part != "" && part[|part| - 1] == '\r' then part[..|part| - 1] else part
  }

  lemma LinesAfter(first: string, rest: string)
    requires '\n' !in first
    ensures Lines(first + ['\n'] + rest) == [Unreturned(first)] + Lines(rest)
  {
    var s := first + ['\n'] + rest;
    IndexOfPrefix(first, '\n', rest);
    assert s[..|first|] == first && s[|first| + 1..] == rest;
  }

  /** The lines of a text: one that is ended by a break loses its carriage return. */
  predicate AreLines(lines: seq<string>, parts: seq<string>) {
    |lines| == |parts| && forall i :: 0 <= i < |parts| ==> lines[i] == if i < |parts| - 1 then Unreturned(parts[i]) else parts[i]
  }

  lemma AreLinesAfter(lines: seq<string>, parts: seq<string>)
    requires |parts| > 1 && AreLines(lines, parts[1..])
    ensures AreLines([Unreturned(parts[0])] + lines, parts)
  {
    assert forall i :: 1 <= i < |parts| ==> parts[1..][i - 1] == parts[i];
  }

  /** A text is read line by line. */
  lemma {:induction false} LinesAre(parts: seq<string>)
    requires |parts| >= 1 && forall p :: p in parts ==> '\n' !in p
    ensures AreLines(Lines(Join(parts, '\n')), parts)
  {
    assert parts[0] in parts;
    if |parts| > 1 {
      LinesAre(parts[1..]);
      LinesAfter(parts[0], Join(parts[1..], '\n'));
      AreLinesAfter(Lines(Join(parts[1..], '\n')), parts);
    }
  }
}
