/** What the backup files are called, digit by digit, and what one run does to each file. */
module BackupLaws {
  import opened Calendar
  import opened BackupNames
  import opened Retention
  import opened CronLaws

  // ---- names ----------------------------------------------------------------------------

  function D(x: int): char {
    "0123456789"[x % 10]
  }

  function D2(x: int): string {
    [D(x / 10), D(x)]
  }

  function D4(x: int): string {
    D2(x / 100) + D2(x)
  }

  function D6(x: int): string {
    D4(x / 100) + D2(x)
  }

  /** Four digits for the years 0 to 9999, a sign and six digits for others. */
  function YearText(year: int): string {
    if year < 0 then "-" + D6(-year) else if year > 9999 then "+" + D6(year) else D4(year)
  }

  function Then(text: string, sep: char, rest: string): string {
    text + [sep] + rest
  }

  function ClockText(hour: int, minute: int, second: int, rest: string): string {
    Then(D2(hour), '-', Then(D2(minute), '-', Then(D2(second), 'Z', rest)))
  }

  /** An instant as section 21.4.1.32 of ECMA-262 writes it, without milliseconds and with '-' for ':'. */
  function IsoText(d: Date, hour: int, minute: int, second: int, rest: string): string {
    Then(YearText(d.year), '-', Then(D2(d.month), '-', Then(D2(d.day), 'T', ClockText(hour, minute, second, rest))))
  }

  lemma OneDigit(x: nat)
    ensures Digit(x % 10) == D(x)
  {
  }

  lemma PadTwo(x: nat)
    ensures Pad(x, 2) == D2(x)
  {
    OneDigit(x);
    OneDigit(x / 10);
    assert Pad(x / 10, 1) == Pad(x / 100, 0) + [Digit(x / 10 % 10)];
  }

  lemma PadMore(x: nat, n: nat)
    ensures Pad(x, n + 2) == Pad(x / 100, n) + D2(x)
  {
    OneDigit(x);
    OneDigit(x / 10);
    assert x / 10 / 10 == x / 100;
    assert Pad(x / 10, n + 1) == Pad(x / 100, n) + [Digit(x / 10 % 10)];
  }

  lemma PadFour(x: nat)
    ensures Pad(x, 4) == D4(x)
  {
    PadMore(x, 2);
    PadTwo(x / 100);
  }

  lemma PadSix(x: nat)
    ensures Pad(x, 6) == D6(x)
  {
    PadMore(x, 4);
    PadFour(x / 100);
  }

  lemma FieldTwo(x: nat, sep: char, rest: string)
    ensures Field(x, 2, sep, rest) == Then(D2(x), sep, rest)
  {
    PadTwo(x);
  }

  lemma FieldFour(x: nat, sep: char, rest: string)
    ensures Field(x, 4, sep, rest) == Then(D4(x), sep, rest)
  {
    PadFour(x);
  }

  lemma SignedField(sign: string, x: nat, rest: string)
    ensures sign + Field(x, 6, '-', rest) == Then(sign + D6(x), '-', rest)
  {
    PadSix(x);
    SignFirst(sign, D6(x), ['-'], rest);
  }

  lemma SignFirst(sign: string, a: string, b: string, c: string)
    ensures sign + (a + b + c) == sign + a + b + c
  {
  }

  lemma YearCases(year: int, rest: string, text: string)
    requires 0 <= year <= 9999 ==> Field(year, 4, '-', rest) == Then(text, '-', rest)
    requires year < 0 ==> "-" + Field(-year, 6, '-', rest) == Then(text, '-', rest)
    requires year > 9999 ==> "+" + Field(year, 6, '-', rest) == Then(text, '-', rest)
    ensures YearField(year, rest) == Then(text, '-', rest)
  {
  }

  lemma YearIsText(year: int, rest: string, text: string)
    requires text == YearText(year)
    ensures YearField(year, rest) == Then(text, '-', rest)
  {
    if year < 0 {
      SignedField("-", -year, rest);
    } else if year > 9999 {
      SignedField("+", year, rest);
    } else {
      FieldFour(year, '-', rest);
    }
    YearCases(year, rest, text);
  }

  lemma ClockOf(hour: int, minute: int, second: int, s: int)
    requires 0 <= hour < 24 && 0 <= minute < 60 && 0 <= second < 60
    requires s == (hour * 60 + minute) * 60 + second
    ensures s / 3600 == hour && s / 60 % 60 == minute && s % 60 == second
  {
    assert s / 60 == hour * 60 + minute;
  }

  lemma TimeIsText(hour: int, minute: int, second: int, t: int, rest: string)
    requires 0 <= hour < 24 && 0 <= minute < 60 && 0 <= second < 60
    requires t % 86400 == (hour * 60 + minute) * 60 + second
    ensures TimeFields(t, rest) == ClockText(hour, minute, second, rest)
  {
    ClockOf(hour, minute, second, t % 86400);
    FieldTwo(second, 'Z', rest);
    FieldTwo(minute, '-', Then(D2(second), 'Z', rest));
    FieldTwo(hour, '-', Then(D2(minute), '-', Then(D2(second), 'Z', rest)));
  }

  /** Seconds since the epoch. */
  function SecondOf(d: Date, hour: int, minute: int, second: int): int {
    CivilDay(d) * 86400 + (hour * 60 + minute) * 60 + second
  }

  lemma DayOfSecond(day: int, s: int, t: int)
    requires t == day * 86400 + s && 0 <= s < 86400
    ensures t / 86400 == day && t % 86400 == s
  {
  }

  lemma DateIsText(d: Date, time: string)
    requires d.Valid()
    ensures YearField(d.year, Field(d.month, 2, '-', Field(d.day, 2, 'T', time))) ==
            Then(YearText(d.year), '-', Then(D2(d.month), '-', Then(D2(d.day), 'T', time)))
  {
    FieldTwo(d.day, 'T', time);
    FieldTwo(d.month, '-', Then(D2(d.day), 'T', time));
    YearIsText(d.year, Then(D2(d.month), '-', Then(D2(d.day), 'T', time)), YearText(d.year));
  }

  lemma StampIsIso(d: Date, hour: int, minute: int, second: int, t: int, suffix: string)
    requires d.Valid() && 0 <= hour < 24 && 0 <= minute < 60 && 0 <= second < 60
    requires t == SecondOf(d, hour, minute, second)
    ensures Stamp(t, suffix) == IsoText(d, hour, minute, second, suffix)
  {
    DayIsCivil(d);
    DateOfDayOf(d);
    DayOfSecond(CivilDay(d), (hour * 60 + minute) * 60 + second, t);
    TimeIsText(hour, minute, second, t, suffix);
    DateIsText(d, ClockText(hour, minute, second, suffix));
  }

  /** The files of a run are named after the ISO time of its start. */
  lemma NamesAreIso(d: Date, hour: int, minute: int, second: int, t: int)
    requires d.Valid() && 0 <= hour < 24 && 0 <= minute < 60 && 0 <= second < 60
    requires t == SecondOf(d, hour, minute, second)
    ensures DumpName(t) == "laetoli-" + IsoText(d, hour, minute, second, ".sql.gz")
    ensures ArchiveName(t) == "laetoli-" + IsoText(d, hour, minute, second, ".storage.tar.gz")
  {
    StampIsIso(d, hour, minute, second, t, DUMP_SUFFIX);
    StampIsIso(d, hour, minute, second, t, STORAGE_SUFFIX);
  }

  ghost predicate Wraps(name: string, middle: string, suffix: string) {
    name == "laetoli-" + middle + suffix && middle != ""
    && '\n' !in middle && '\r' !in middle && '\U{2028}' !in middle && '\U{2029}' !in middle
  }

  lemma WrapsIsManaged(name: string, suffix: string)
    ensures IsManaged(name, suffix) <==> exists m :: Wraps(name, m, suffix)
  {
    if IsManaged(name, suffix) {
      var middle := name[8..|name| - |suffix|];
      assert name == name[..8] + middle + name[|name| - |suffix|..];
      assert Wraps(name, middle, suffix);
    }
    if m :| Wraps(name, m, suffix) {
      assert name[8..|name| - |suffix|] == m;
    }
  }

  /** The service takes exactly the files of these two forms for its own. */
  lemma OwnFilesAre(name: string)
    ensures IsDump(name) <==> exists m :: Wraps(name, m, ".sql.gz")
    ensures IsArchive(name) <==> exists m :: Wraps(name, m, ".storage.tar.gz")
  {
    WrapsIsManaged(name, DUMP_SUFFIX);
    WrapsIsManaged(name, STORAGE_SUFFIX);
  }

  // ---- one run, file by file -----------------------------------------------------------------

  /** After pruning a file is there if it was, unless `keep` newer ones are and it can be unlinked. */
  predicate Stays(files: set<int>, keep: int, stuck: bool, t: int) {
    t in files && (stuck || |set u | u in files && t < u| < keep)
  }

  lemma PruneStays(files: set<int>, keep: int, stuck: int -> bool, t: int)
    ensures t in Prune(files, keep, stuck) <==> Stays(files, keep, stuck(t), t)
  {
    assert Newer(files, t) == set u | u in files && t < u;
  }

  /**
   What one run does to the backup directory. A failed dump leaves part of a file at most,
   touches no other and makes no archive. A complete one adds its dump and what there is
   of its archive, and of each kind leaves those with fewer than `keep` newer ones and
   those that cannot be unlinked.
   */
  lemma RunIsExact(h: History, r: Run, keep: int, t: int)
    ensures var now := StepPrimary(h, r, keep).shelf;
            match r.dump
            case Nothing => now == h.shelf
            case Partial => (t in now.dumps <==> t in h.shelf.dumps || t == r.at) && now.archives == h.shelf.archives
            case Complete =>
              && (t in now.dumps <==> Stays(h.shelf.dumps + {r.at}, keep, r.dumpStuck(t), t))
              && (t in now.archives <==>
                    Stays(if r.archive.Nothing? then h.shelf.archives else h.shelf.archives + {r.at}, keep, r.archiveStuck(t), t))
  {
    var archives := if r.archive.Nothing? then h.shelf.archives else h.shelf.archives + {r.at};
    PruneStays(h.shelf.dumps + {r.at}, keep, r.dumpStuck, t);
    PruneStays(archives, keep, r.archiveStuck, t);
    assert h.shelf.archives + {} == h.shelf.archives && h.shelf.dumps + {} == h.shelf.dumps;
  }

  /** A mirror gets the copies that succeeded, then is pruned by itself. */
  lemma MirrorIsExact(h: History, r: Run, keep: int, t: int)
    ensures var now := StepMirror(h, r, keep).shelf;
            && (t in now.dumps <==>
                  Stays(if r.dump.Nothing? then h.shelf.dumps else h.shelf.dumps + {r.at}, keep, r.dumpStuck(t), t))
            && (t in now.archives <==>
                  Stays(if r.archive.Nothing? then h.shelf.archives else h.shelf.archives + {r.at}, keep, r.archiveStuck(t), t))
  {
    var dumps := if r.dump.Nothing? then h.shelf.dumps else h.shelf.dumps + {r.at};
    var archives := if r.archive.Nothing? then h.shelf.archives else h.shelf.archives + {r.at};
    PruneStays(dumps, keep, r.dumpStuck, t);
    PruneStays(archives, keep, r.archiveStuck, t);
    assert h.shelf.archives + {} == h.shelf.archives && h.shelf.dumps + {} == h.shelf.dumps;
  }

  /** The history records every file of a run, whatever became of it. */
  lemma RunIsRecorded(h: History, r: Run, keep: int, t: int)
    ensures t in StepPrimary(h, r, keep).dumped <==> t in h.dumped || (t == r.at && !r.dump.Nothing?)
    ensures t in StepPrimary(h, r, keep).archived <==>
              t in h.archived || (t == r.at && r.dump.Complete? && !r.archive.Nothing?)
  {
    if r.dump.Complete? && r.archive.Nothing? {
      assert StepPrimary(h, r, keep).archived == h.archived + {};
    }
  }
}
