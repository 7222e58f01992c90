/** When cron jobs fire: for every cron string, and exactly for which ones since every scheduling. */
module JobTheorems {
  import opened Seqs
  import opened Calendar
  import opened Cron
  import opened CronTheorems
  import opened Executors
  import opened LeapCrons
  import opened LeapDays

  /** The cron instants of a job. */
  ghost function InstantsOf(cron: string): int -> bool {
    (t: int) => CronOf(cron).Some? && IsInstant(CronOf(cron).value, t)
  }

  lemma CronFindsIfAny(cron: string)
    ensures FindsIfAny(NextOf(cron), InstantsOf(cron))
  {
    var next, instant := NextOf(cron), InstantsOf(cron);
    forall from | next(from).Some? ensures FindsFrom(next, instant, from) {
      NextIsLeast(CronOf(cron).value, from);
    }
  }

  /**
   For every cron string: a job fires in a turn exactly when a cron instant lies after the
   last scheduling that stored one, and not after the tick's reading.
   */
  lemma FiresExactlySinceStored(job: Job, turns: seq<Turn>, i: nat)
    requires job.nextRun.None? && i < |turns|
    ensures var next, instant := NextOf(job.cron), InstantsOf(job.cron);
            Fires(next, job, turns, i) <==> Elapsed(instant, StoredAfter(next, instant, turns[..i]), turns[i].now)
  {
    var next, instant := NextOf(job.cron), InstantsOf(job.cron);
    CronFindsIfAny(job.cron);
    RunRefines(next, instant, job, turns[..i]);
    TurnRefines(next, instant, JobAfter(next, job, turns[..i]), StoredAfter(next, instant, turns[..i]), turns[i]);
  }

  // ---- since the last scheduling, whether or not it found an instant -------------------------

  /** The reading of the last scheduling that the store did not refuse. */
  ghost function SinceAfterTurn(instant: int -> bool, since: Option<int>, t: Turn): Option<int> {
    if !t.written then since
    else if since.None? then Some(t.now)
    else if Elapsed(instant, since, t.now) then Some(t.after)
    else since
  }

  ghost function SinceAfter(instant: int -> bool, turns: seq<Turn>): Option<int> {
    if turns == [] then None
    else SinceAfterTurn(instant, SinceAfter(instant, turns[..|turns| - 1]), turns[|turns| - 1])
  }

  lemma {:induction false} SinceIsStored(next: Search, instant: int -> bool, turns: seq<Turn>)
    requires Finds(next, instant)
    ensures SinceAfter(instant, turns) == StoredAfter(next, instant, turns)
  {
    if turns != [] {
      var last := turns[|turns| - 1];
      assert FindsFrom(next, instant, last.now) && FindsFrom(next, instant, last.after);
      SinceIsStored(next, instant, turns[..|turns| - 1]);
    }
  }

  ghost predicate FiresWhenElapsed(next: Search, instant: int -> bool, job: Job, turns: seq<Turn>, i: nat)
    requires i < |turns|
  {
    Fires(next, job, turns, i) <==> Elapsed(instant, SinceAfter(instant, turns[..i]), turns[i].now)
  }

  /** In every run, every turn fires exactly if an instant came since the last scheduling. */
  ghost predicate AlwaysFiresWhenElapsed(next: Search, instant: int -> bool, job: Job) {
    forall turns, i: nat :: Ordered(turns) && i < |turns| ==> FiresWhenElapsed(next, instant, job, turns, i)
  }

  lemma FindsFires(next: Search, instant: int -> bool, job: Job)
    requires Finds(next, instant) && job.nextRun.None?
    ensures AlwaysFiresWhenElapsed(next, instant, job)
  {
    forall turns, i: nat | Ordered(turns) && i < |turns| ensures FiresWhenElapsed(next, instant, job, turns, i) {
      SinceIsStored(next, instant, turns[..i]);
      RunRefines(next, instant, job, turns[..i]);
      TurnRefines(next, instant, JobAfter(next, job, turns[..i]), StoredAfter(next, instant, turns[..i]), turns[i]);
    }
  }

  // ---- with no instant at all -------------------------------------------------------------------

  lemma {:induction false} NeverScheduled(next: Search, job: Job, turns: seq<Turn>)
    requires job.nextRun.None? && forall from :: next(from).None?
    ensures JobAfter(next, job, turns) == job
  {
    if turns != [] {
      NeverScheduled(next, job, turns[..|turns| - 1]);
    }
  }

  lemma NoInstantFires(next: Search, instant: int -> bool, job: Job)
    requires job.nextRun.None? && (forall from :: next(from).None?) && forall t :: !instant(t)
    ensures AlwaysFiresWhenElapsed(next, instant, job)
  {
    forall turns, i: nat | Ordered(turns) && i < |turns| ensures FiresWhenElapsed(next, instant, job, turns, i) {
      NeverScheduled(next, job, turns[..i]);
    }
  }

  // ---- with an instant that the search cannot get past --------------------------------------------

  /** Scheduled just before `t`, fired at `t`, rescheduled in vain at `r`, and asked again. */
  function StuckRun(t: int, r: int): seq<Turn> {
    [Turn(t - 1, t - 1, true, true), Turn(t, r, true, true), Turn(r, r, true, true)]
  }

  lemma StuckFiresAgain(next: Search, instant: int -> bool, job: Job, t: int, r: int)
    requires job.nextRun.None? && t <= r && instant(t) && next(t - 1) == Some(t) && next(r).None?
    ensures !AlwaysFiresWhenElapsed(next, instant, job)
  {
    var turns := StuckRun(t, r);
    assert Ordered(turns);
    assert turns[..0] == [];
    assert turns[..1] == [turns[0]] && [turns[0]][..0] == [];
    assert turns[..2] == [turns[0], turns[1]] && [turns[0], turns[1]][..1] == [turns[0]];
    var scheduled := job.(nextRun := Some(t));
    assert JobAfter(next, job, [turns[0]]) == scheduled;
    assert JobAfter(next, job, turns[..2]) == scheduled;
    assert SinceAfter(instant, [turns[0]]) == Some(t - 1);
    assert Elapsed(instant, Some(t - 1), t);
    assert SinceAfter(instant, turns[..2]) == Some(r);
    assert Fires(next, job, turns, 2) && !Elapsed(instant, Some(r), r);
    assert !FiresWhenElapsed(next, instant, job, turns, 2);
  }

  // ---- which cron fields are which -----------------------------------------------------------------

  /** The only day left to fields that are not dependable is 29 February. */
  predicate ReachesLeapDay(f: CronFields) {
    f.minute != {} && f.hour != {} && f.domRestricted && 29 in f.dom && 2 in f.month
  }

  lemma LeapDayIsNotPlain(d: Date)
    requires d.Valid()
    ensures IsPlainDay(d.month, d.day) || (d.month == 2 && d.day == 29)
  {
  }

  lemma OnlyLeapDays(f: CronFields, m: int)
    requires ValidFields(f) && !Dependable(f) && !ReachesLeapDay(f)
    ensures !Matches(f, m)
  {
    var d := DateOf(m / 1440);
    LeapDayIsNotPlain(d);
  }

  lemma BarrenFinds(f: CronFields, from: int)
    requires ValidFields(f) && !Dependable(f) && !ReachesLeapDay(f)
    ensures Next(f, from).None? && !IsInstant(f, from)
  {
    var first := FirstAfter(from);
    forall m ensures !Matching(f)(m) {
      OnlyLeapDays(f, m);
    }
    FirstIs(Matching(f), first, first + LIMIT, None);
  }

  lemma JustBefore(p: int -> bool, t: int)
    requires IsInstantOf(p, t)
    ensures NextInstant(p, t - 1) == Some(t)
  {
    NextInstantIsLeast(p, t - 1);
    MinuteOrder(t - 1, t);
  }

  lemma BeforeMidnight(day: int, later: int, hour: int, minute: int)
    requires day < later && 0 <= hour < 24 && 0 <= minute < 60
    ensures (day * 1440 + hour * 60 + minute) * 60000 <= later * 1440 * 60000
  {
  }

  /** An instant on the leap day of a dry year, after which the search fails. */
  lemma LeapInstantThenDry(f: CronFields, year: int) returns (t: int)
    requires ValidFields(f) && !Dependable(f) && ReachesLeapDay(f) && IsDryYear(year)
    ensures IsInstant(f, t) && t <= MarchFirst(year) && Next(f, MarchFirst(year)).None?
  {
    DryEnds(year);
    var hour := Pick(f.hour);
    var minute := Pick(f.minute);
    var leapDay := Date(year, 2, 29);
    var day := DayOf(leapDay);
    DateOfDayOf(leapDay);
    InstantAt(f, day, hour, minute);
    EarlierDateIsEarlierDay(leapDay, Date(year, 3, 1));
    BeforeMidnight(day, DayOf(Date(year, 3, 1)), hour, minute);
    UndependableMisses(f, year);
    t := (day * 1440 + hour * 60 + minute) * 60000;
  }

  /**
   For a cron string that parses, a job fires exactly when an instant has come since its
   last scheduling, in every turn of every run, if and only if its fields are dependable
   or cannot even reach 29 February.
   */
  lemma FiresExactlyWhenElapsed(cron: string, job: Job)
    requires CronOf(cron).Some? && job.cron == cron && job.nextRun.None?
    ensures AlwaysFiresWhenElapsed(NextOf(cron), InstantsOf(cron), job)
       <==> Dependable(CronOf(cron).value) || !ReachesLeapDay(CronOf(cron).value)
  {
    var f, next, instant := CronOf(cron).value, NextOf(cron), InstantsOf(cron);
    ParsedIsValid(cron);
    FieldsFire(f, next, instant, job);
  }

  lemma FieldsFire(f: CronFields, next: Search, instant: int -> bool, job: Job)
    requires ValidFields(f) && job.nextRun.None?
    requires (forall from :: next(from) == Next(f, from)) && forall t :: instant(t) == IsInstant(f, t)
    ensures AlwaysFiresWhenElapsed(next, instant, job) <==> Dependable(f) || !ReachesLeapDay(f)
  {
    if Dependable(f) {
      forall from ensures FindsFrom(next, instant, from) {
        DependableFinds(f, from);
        NextIsLeast(f, from);
      }
      FindsFires(next, instant, job);
    } else if !ReachesLeapDay(f) {
      forall from ensures next(from).None? && !instant(from) {
        BarrenFinds(f, from);
      }
      NoInstantFires(next, instant, job);
    } else {
      var year := SomeDryYear();
      var t := LeapInstantThenDry(f, year);
      JustBefore(Matching(f), t);
      StuckFiresAgain(next, instant, job, t, MarchFirst(year));
    }
  }

  /**
   For every cron string, of two fires the later consumes a later instant if and only if a
   fire from the first on, and before the second, found an instant and stored it; otherwise
   both consume the same one. If the first did, the later instant came after it was done.
   */
  lemma FiresConsumeInstants(job: Job, turns: seq<Turn>, i: nat, j: nat)
    requires Ordered(turns) && i < j < |turns|
    requires Fires(NextOf(job.cron), job, turns, i) && Fires(NextOf(job.cron), job, turns, j)
    ensures var next := NextOf(job.cron);
            var first, second := JobAfter(next, job, turns[..i]).nextRun.value, JobAfter(next, job, turns[..j]).nextRun.value;
            && first <= turns[i].now && first <= second <= turns[j].now
            && (first < second <==> exists k :: i <= k < j && Stores(next, job, turns, k))
            && (Stores(next, job, turns, i) ==> turns[i].after < second)
  {
    var next, instant := NextOf(job.cron), InstantsOf(job.cron);
    CronFindsIfAny(job.cron);
    NextRunGrows(next, instant, job, turns, i, j);
    StoresBetweenIsSome(next, job, turns, i, j);
    if Stores(next, job, turns, i) {
      NextRunStep(next, instant, job, turns, i);
      NextRunGrows(next, instant, job, turns, i + 1, j);
    }
  }

  // ---- the leap-day job ---------------------------------------------------------------------------------

  lemma {:induction false} StuckStaysDue(next: Search, job: Job, turns: seq<Turn>)
    requires forall k :: 0 <= k < |turns| ==> IsDue(job, turns[k].now) && next(turns[k].after).None?
    ensures JobAfter(next, job, turns) == job
  {
    if turns != [] {
      StuckStaysDue(next, job, turns[..|turns| - 1]);
    }
  }

  /** From the leap day of a dry year, before its 1091st day is over. */
  predicate InDryStretch(year: int, t: int)
    requires IsLeap(year)
  {
    LeapInstant(year) <= t && t / 60000 < (LeapDay(year) + 1091) * 1440
  }

  lemma LeapNext(cron: string, from: int)
    requires cron == LEAP_CRON
    ensures NextOf(cron)(from) == Next(LeapDayOnly(), from)
    ensures InstantsOf(cron)(from) <==> IsInstant(LeapDayOnly(), from)
  {
    LeapCronParses(cron);
  }

  lemma NoInstantInStretch(year: int, t: int)
    requires IsDryYear(year) && IsLeap(year) && LeapInstant(year) < t && InDryStretch(year, t)
    ensures !IsInstant(LeapDayOnly(), t)
  {
    DryStretch(year);
    if t % 60000 == 0 {
      NoneBetween(year, t / 60000);
    }
  }

  /**
   The job for midnight of 29 February, due on the leap day of a dry year, stays due for
   1091 days: it fires in every turn of that time, and after the first no instant has come.
   */
  lemma LeapDayJobFiresEveryTick(cron: string, job: Job, turns: seq<Turn>, year: int, i: nat)
    requires cron == LEAP_CRON && IsDryYear(year) && IsLeap(year)
    requires job.nextRun.Some? && job.nextRun.value <= LeapInstant(year)
    requires forall k :: 0 <= k < |turns| ==> LeapInstant(year) <= turns[k].now && InDryStretch(year, turns[k].after)
    requires Ordered(turns) && i < |turns|
    ensures JobAfter(NextOf(cron), job, turns) == job && Fires(NextOf(cron), job, turns, i)
    ensures i > 0 ==> !Elapsed(InstantsOf(cron), Some(turns[i - 1].after), turns[i].now)
  {
    var next := NextOf(cron);
    forall k | 0 <= k < |turns| ensures IsDue(job, turns[k].now) && next(turns[k].after).None? {
      LeapNext(cron, turns[k].after);
      DryStretch(year);
      LeapSearch(year, turns[k].after);
    }
    StuckStaysDue(next, job, turns);
    StuckStaysDue(next, job, turns[..i]);
    if i > 0 && Elapsed(InstantsOf(cron), Some(turns[i - 1].after), turns[i].now) {
      var t :| InstantsOf(cron)(t) && turns[i - 1].after < t <= turns[i].now;
      LeapNext(cron, t);
      NoInstantInStretch(year, t);
      assert false;
    }
  }

  /** After that the next turn schedules it for the next leap day. */
  lemma LeapDayJobRecovers(cron: string, job: Job, t: Turn, year: int)
    requires cron == LEAP_CRON && job.cron == cron && IsDryYear(year) && IsLeap(year) && IsLeap(year + 8)
    requires IsDue(job, t.now) && t.written && LeapInstant(year) <= t.after < LeapInstant(year + 8)
    ensures AfterTurn(NextOf(cron), job, t).nextRun ==
              if InDryStretch(year, t.after) then job.nextRun else Some(LeapInstant(year + 8))
  {
    LeapNext(cron, t.after);
    LeapSearch(year, t.after);
  }
}
