/**
 The scheduler's executor. Times are milliseconds since the epoch; the clock, the
 outcome of each action and whether a store write succeeded are inputs.
 */
module Executors {
  import opened Seqs
  import opened Cron

  type JobId = string
  datatype Job = Job(cron: string, active: bool, nextRun: Option<int>)
  datatype RunRecord = RunRecord(job: JobId, ok: bool)

  type Search = int -> Option<int>

  /** The cron instant after a reading; `None` when parsing or the search fails. */
  ghost function NextOf(cron: string): Search {
    (from: int) => if CronOf(cron).None? then None else Next(CronOf(cron).value, from)
  }

  /**
   One job's share of a tick: the tick's clock reading, the reading after the job
   ran, did the write of `next_run` succeed, and did the action?
   */
  datatype Turn = Turn(now: int, after: int, written: bool, ok: bool)

  predicate IsDue(job: Job, now: int) {
    job.nextRun.Some? && job.nextRun.value <= now
  }

  function Rescheduled(job: Job, next: Option<int>, written: bool): Job {
    if written && next.Some? then job.(nextRun := next) else job
  }

  function AfterTurn(next: Search, job: Job, t: Turn): Job {
    if job.nextRun.None? then Rescheduled(job, next(t.now), t.written)
    else if !IsDue(job, t.now) then job
    else Rescheduled(job, next(t.after), t.written)
  }

  method ComputeNextRun(cron: string, from: int) returns (next: Option<int>)
    ensures next == NextOf(cron)(from)
  {
    var fields := ParseCron(cron);
    if fields.None? {
      return None;
    }
    next := NextRun(fields.value, from);
  }

  class Executor {
    /** The search for a cron string that `ComputeNextRun` performs. */
    ghost const search: string -> Search
    var jobs: map<JobId, Job>
    /** Calls of `recordRun`, oldest first. */
    var runs: seq<RunRecord>

    ghost predicate Valid() {
      forall cron {:trigger NextOf(cron)} :: search(cron) == NextOf(cron)
    }

    constructor (jobs: map<JobId, Job>)
      ensures Valid() && this.jobs == jobs && runs == []
    {
      search := cron => NextOf(cron);
      this.jobs, runs := jobs, [];
    }

    /** Compute and persist the next instant; a bad cron or a failed write changes nothing. */
    method ScheduleNext(id: JobId, from: int, written: bool)
      requires Valid() && id in jobs
      modifies this`jobs
      ensures jobs == old(jobs)[id := Rescheduled(old(jobs)[id], search(old(jobs)[id].cron)(from), written)]
    {
      var next := ComputeNextRun(jobs[id].cron, from);
      jobs := jobs[id := Rescheduled(jobs[id], next, written)];
    }

    /** Execute once, by a tick or by hand, and record the attempt. */
    method Run(id: JobId, ok: bool)
      modifies this`runs
      ensures runs == old(runs) + [RunRecord(id, ok)]
    {
      runs := runs + [RunRecord(id, ok)];
    }

    method MaybeRun(id: JobId, t: Turn)
      requires Valid() && id in jobs
      modifies this
      ensures jobs == old(jobs)[id := AfterTurn(search(old(jobs)[id].cron), old(jobs)[id], t)]
      ensures runs == old(runs) + Record(id, old(jobs)[id], t)
    {
      var job := jobs[id];
      if job.nextRun.None? {
        ScheduleNext(id, t.now, t.written);
        return;
      }
      if job.nextRun.value > t.now {
        assert jobs == old(jobs)[id := job];
        return;
      }
      Run(id, t.ok);
      ScheduleNext(id, t.after, t.written);
    }

    /** The active jobs, as the store lists them, take their turns. */
    method Tick(now: int, rows: seq<JobId>, turns: seq<Turn>)
      requires Valid() && Distinct(rows) && |turns| == |rows|
      requires forall i :: 0 <= i < |rows| ==> rows[i] in jobs && jobs[rows[i]].active && turns[i].now == now
      modifies this
      ensures jobs == TurnsTaken(search, rows, turns, old(jobs))
      ensures runs == old(runs) + Records(rows, turns, old(jobs))
    {
      ghost var was := jobs;
      for i := 0 to |rows|
        invariant jobs == TurnsTaken(search, rows[..i], turns[..i], was)
        invariant runs == old(runs) + Records(rows[..i], turns[..i], was)
      {
        TurnsNext(search, rows, turns, i, was);
        MaybeRun(rows[i], turns[i]);
      }
      assert rows[..|rows|] == rows && turns[..|turns|] == turns;
    }
  }

  /** The record of a turn, if the job was due. */
  function Record(id: JobId, job: Job, t: Turn): seq<RunRecord> {
    if IsDue(job, t.now) then [RunRecord(id, t.ok)] else []
  }

  /** The jobs after the listed ones have taken their turns. */
  ghost function TurnsTaken(search: string -> Search, rows: seq<JobId>, turns: seq<Turn>, jobs: map<JobId, Job>): map<JobId, Job>
    requires |turns| == |rows|
  {
    if rows == [] then jobs
    else
      var n := |rows| - 1;
      var id, before := rows[n], TurnsTaken(search, rows[..n], turns[..n], jobs);
      if id in before then before[id := AfterTurn(search(before[id].cron), before[id], turns[n])] else before
  }

  /** The records of all listed jobs, in row order. */
  function Records(rows: seq<JobId>, turns: seq<Turn>, jobs: map<JobId, Job>): seq<RunRecord>
    requires |turns| == |rows|
  {
    if rows == [] then []
    else
      var n := |rows| - 1;
      Records(rows[..n], turns[..n], jobs) + if rows[n] in jobs then Record(rows[n], jobs[rows[n]], turns[n]) else []
  }

  /** A job that is not listed takes no turn. */
  lemma {:induction false} UnlistedWaits(search: string -> Search, rows: seq<JobId>, turns: seq<Turn>, jobs: map<JobId, Job>, id: JobId)
    requires |turns| == |rows| && id in jobs && id !in rows
    ensures id in TurnsTaken(search, rows, turns, jobs) && TurnsTaken(search, rows, turns, jobs)[id] == jobs[id]
  {
    if rows != [] {
      var n := |rows| - 1;
      assert id !in rows[..n];
      UnlistedWaits(search, rows[..n], turns[..n], jobs, id);
    }
  }

  /** A listed job takes exactly its own turn, from where it was. */
  lemma {:induction false} ListedTakesItsTurn(search: string -> Search, rows: seq<JobId>, turns: seq<Turn>, jobs: map<JobId, Job>, i: nat)
    requires |turns| == |rows| && Distinct(rows) && i < |rows| && rows[i] in jobs
    ensures var id, after := rows[i], TurnsTaken(search, rows, turns, jobs);
            id in after && after[id] == AfterTurn(search(jobs[id].cron), jobs[id], turns[i])
  {
    var n := |rows| - 1;
    if i == n {
      UnlistedWaits(search, rows[..n], turns[..n], jobs, rows[i]);
    } else {
      ListedTakesItsTurn(search, rows[..n], turns[..n], jobs, i);
    }
  }

  lemma TurnsNext(search: string -> Search, rows: seq<JobId>, turns: seq<Turn>, i: nat, jobs: map<JobId, Job>)
    requires |turns| == |rows| && Distinct(rows) && i < |rows| && rows[i] in jobs
    ensures var id, before := rows[i], TurnsTaken(search, rows[..i], turns[..i], jobs);
            && id in before && before[id] == jobs[id]
            && TurnsTaken(search, rows[..i + 1], turns[..i + 1], jobs) == before[id := AfterTurn(search(jobs[id].cron), jobs[id], turns[i])]
            && Records(rows[..i + 1], turns[..i + 1], jobs) == Records(rows[..i], turns[..i], jobs) + Record(id, jobs[id], turns[i])
  {
    assert rows[..i + 1][..i] == rows[..i] && turns[..i + 1][..i] == turns[..i];
    UnlistedWaits(search, rows[..i], turns[..i], jobs, rows[i]);
  }

  // ---- one job over a run of ticks -------------------------------------------------

  /** The clock never goes back, within a tick or between ticks. */
  ghost predicate Ordered(turns: seq<Turn>) {
    && (forall i :: 0 <= i < |turns| ==> turns[i].now <= turns[i].after)
    && (forall i, j :: 0 <= i < j < |turns| ==> turns[i].after <= turns[j].now)
  }

  function JobAfter(next: Search, job: Job, turns: seq<Turn>): Job {
    if turns == [] then job
    else AfterTurn(next, JobAfter(next, job, turns[..|turns| - 1]), turns[|turns| - 1])
  }

  /** Does the job fire in turn `i`? */
  predicate Fires(next: Search, job: Job, turns: seq<Turn>, i: nat)
    requires i < |turns|
  {
    IsDue(JobAfter(next, job, turns[..i]), turns[i].now)
  }

  /** `next` finds the least of a set of instants after any reading. */
  ghost predicate Finds(next: Search, instant: int -> bool) {
    forall from :: FindsFrom(next, instant, from)
  }

  ghost predicate FindsFrom(next: Search, instant: int -> bool, from: int) {
    && next(from).Some? && from < next(from).value && instant(next(from).value)
    && forall t :: instant(t) && from < t ==> next(from).value <= t
  }

  /** The same, where `next` finds anything. */
  ghost predicate FindsIfAny(next: Search, instant: int -> bool) {
    forall from :: next(from).Some? ==> FindsFrom(next, instant, from)
  }

  /** Has some instant come since a remembered reading? */
  ghost predicate Elapsed(instant: int -> bool, since: Option<int>, now: int) {
    since.Some? && exists t :: instant(t) && since.value < t <= now
  }

  /**
   The specification remembers only a clock reading, that of the last scheduling which
   stored an instant, and fires when some instant has come since.
   */
  ghost function StoredAfterTurn(next: Search, instant: int -> bool, since: Option<int>, t: Turn): Option<int> {
    if !t.written then since
    else if since.None? then (if next(t.now).Some? then Some(t.now) else None)
    else if Elapsed(instant, since, t.now) && next(t.after).Some? then Some(t.after)
    else since
  }

  ghost function StoredAfter(next: Search, instant: int -> bool, turns: seq<Turn>): Option<int> {
    if turns == [] then None
    else StoredAfterTurn(next, instant, StoredAfter(next, instant, turns[..|turns| - 1]), turns[|turns| - 1])
  }

  /** The stored `next_run` is the instant after the remembered reading. */
  predicate Refines(next: Search, job: Job, since: Option<int>) {
    && (since.None? ==> job.nextRun.None?)
    && (since.Some? ==> job.nextRun.Some? && job.nextRun == next(since.value))
  }

  lemma TurnRefines(next: Search, instant: int -> bool, job: Job, since: Option<int>, t: Turn)
    requires FindsIfAny(next, instant) && Refines(next, job, since)
    ensures IsDue(job, t.now) <==> Elapsed(instant, since, t.now)
    ensures Refines(next, AfterTurn(next, job, t), StoredAfterTurn(next, instant, since, t))
  {
    if since.Some? {
      assert FindsFrom(next, instant, since.value);
      var due := next(since.value).value;
      assert instant(due) && since.value < due;
      if due <= t.now {
        assert Elapsed(instant, since, t.now);
      } else {
        assert !IsDue(job, t.now);
      }
    }
  }

  lemma {:induction false} RunRefines(next: Search, instant: int -> bool, job: Job, turns: seq<Turn>)
    requires FindsIfAny(next, instant) && job.nextRun.None?
    ensures Refines(next, JobAfter(next, job, turns), StoredAfter(next, instant, turns))
  {
    if turns != [] {
      var init := turns[..|turns| - 1];
      RunRefines(next, instant, job, init);
      TurnRefines(next, instant, JobAfter(next, job, init), StoredAfter(next, instant, init), turns[|turns| - 1]);
    }
  }

  /** In turn `k` the job fires, and its rescheduling finds an instant and stores it. */
  predicate Stores(next: Search, job: Job, turns: seq<Turn>, k: nat) {
    k < |turns| && Fires(next, job, turns, k) && turns[k].written && next(turns[k].after).Some?
  }

  lemma NextRunStep(next: Search, instant: int -> bool, job: Job, turns: seq<Turn>, k: nat)
    requires FindsIfAny(next, instant) && Ordered(turns) && k < |turns|
    requires JobAfter(next, job, turns[..k]).nextRun.Some?
    ensures var before, after := JobAfter(next, job, turns[..k]), JobAfter(next, job, turns[..k + 1]);
            && after.nextRun.Some?
            && if Stores(next, job, turns, k)
               then before.nextRun.value <= turns[k].now <= turns[k].after < after.nextRun.value
               else after == before
  {
    assert turns[..k + 1][..k] == turns[..k];
    if next(turns[k].after).Some? {
      assert FindsFrom(next, instant, turns[k].after);
    }
  }

  /** Some turn from `i` on, and before `j`, stores an instant. */
  predicate StoresBetween(next: Search, job: Job, turns: seq<Turn>, i: nat, j: nat)
    decreases j
  {
    i < j && (Stores(next, job, turns, j - 1) || StoresBetween(next, job, turns, i, j - 1))
  }

  lemma {:induction false} StoresBetweenIsSome(next: Search, job: Job, turns: seq<Turn>, i: nat, j: nat)
    ensures StoresBetween(next, job, turns, i, j) <==> exists k :: i <= k < j && Stores(next, job, turns, k)
    decreases j
  {
    if i < j {
      StoresBetweenIsSome(next, job, turns, i, j - 1);
    }
  }

  /**
   The stored instant never decreases, and between two turns it grows if and only if the
   job fired and stored an instant in one of the turns from the first on.
   */
  lemma {:induction false} NextRunGrows(next: Search, instant: int -> bool, job: Job, turns: seq<Turn>, i: nat, j: nat)
    requires FindsIfAny(next, instant) && Ordered(turns) && i <= j <= |turns|
    requires JobAfter(next, job, turns[..i]).nextRun.Some?
    ensures var first, last := JobAfter(next, job, turns[..i]).nextRun, JobAfter(next, job, turns[..j]).nextRun;
            && last.Some? && first.value <= last.value
            && (first.value < last.value <==> StoresBetween(next, job, turns, i, j))
    decreases j
  {
    if i < j {
      NextRunGrows(next, instant, job, turns, i, j - 1);
      NextRunStep(next, instant, job, turns, j - 1);
    }
  }

  // ---- many ticks, as one job sees them ------------------------------------------------

  /** The rows a tick lists, each once, and their turns. */
  datatype Round = Round(rows: seq<JobId>, turns: seq<Turn>)

  type TickRound = r: Round | |r.turns| == |r.rows| witness Round([], [])

  ghost function JobsAfter(search: string -> Search, rounds: seq<TickRound>, jobs: map<JobId, Job>): map<JobId, Job> {
    if rounds == [] then jobs
    else
      var last := rounds[|rounds| - 1];
      TurnsTaken(search, last.rows, last.turns, JobsAfter(search, rounds[..|rounds| - 1], jobs))
  }

  /** What `Executor.Tick` appends to the run log, tick after tick. */
  ghost function RunsAfter(search: string -> Search, rounds: seq<TickRound>, jobs: map<JobId, Job>): seq<RunRecord> {
    if rounds == [] then []
    else
      var init, last := rounds[..|rounds| - 1], rounds[|rounds| - 1];
      RunsAfter(search, init, jobs) + Records(last.rows, last.turns, JobsAfter(search, init, jobs))
  }

  /** The turn a job takes in one tick, if it is listed. */
  function TurnIn(r: TickRound, id: JobId): (turn: seq<Turn>)
    decreases |r.rows|
  {
    if r.rows == [] then []
    else
      var n := |r.rows| - 1;
      if r.rows[n] == id then [r.turns[n]] else TurnIn(Round(r.rows[..n], r.turns[..n]), id)
  }

  function TurnsOf(rounds: seq<TickRound>, id: JobId): seq<Turn> {
    if rounds == [] then [] else TurnsOf(rounds[..|rounds| - 1], id) + TurnIn(rounds[|rounds| - 1], id)
  }

  function OfJob(id: JobId): RunRecord -> bool {
    (r: RunRecord) => r.job == id
  }

  /** One record, with its outcome, for each turn in which the job fires. */
  function Firings(next: Search, id: JobId, job: Job, turns: seq<Turn>): seq<RunRecord> {
    if turns == [] then []
    else
      var init, last := turns[..|turns| - 1], turns[|turns| - 1];
      var due := JobAfter(next, job, init).nextRun;
      Firings(next, id, job, init) + if due.Some? && due.value <= last.now then [RunRecord(id, last.ok)] else []
  }

  lemma {:induction false} TurnInRow(r: TickRound, id: JobId, i: nat)
    requires Distinct(r.rows) && i < |r.rows| && r.rows[i] == id
    ensures TurnIn(r, id) == [r.turns[i]]
    decreases |r.rows|
  {
    var n := |r.rows| - 1;
    if i < n {
      TurnInRow(Round(r.rows[..n], r.turns[..n]), id, i);
    }
  }

  lemma {:induction false} NoTurnIn(r: TickRound, id: JobId)
    requires id !in r.rows
    ensures TurnIn(r, id) == []
    decreases |r.rows|
  {
    if r.rows != [] {
      var n := |r.rows| - 1;
      assert id !in r.rows[..n];
      NoTurnIn(Round(r.rows[..n], r.turns[..n]), id);
    }
  }

  /** In one tick a job takes its turn, if any, from where it was. */
  lemma RoundGivesTurn(search: string -> Search, r: TickRound, jobs: map<JobId, Job>, id: JobId)
    requires Distinct(r.rows) && id in jobs
    ensures var after := TurnsTaken(search, r.rows, r.turns, jobs);
            id in after && after[id] == JobAfter(search(jobs[id].cron), jobs[id], TurnIn(r, id))
  {
    if id in r.rows {
      var i :| 0 <= i < |r.rows| && r.rows[i] == id;
      ListedTakesItsTurn(search, r.rows, r.turns, jobs, i);
      TurnInRow(r, id, i);
      assert [r.turns[i]][..0] == [];
    } else {
      UnlistedWaits(search, r.rows, r.turns, jobs, id);
      NoTurnIn(r, id);
    }
  }

  /** Its records in the log are those of its own turn. */
  lemma {:induction false} RoundRecords(next: Search, r: TickRound, jobs: map<JobId, Job>, id: JobId)
    requires Distinct(r.rows) && id in jobs
    ensures Seqs.Filter(Records(r.rows, r.turns, jobs), OfJob(id)) == Firings(next, id, jobs[id], TurnIn(r, id))
    decreases |r.rows|
  {
    if r.rows != [] {
      var n := |r.rows| - 1;
      var init: TickRound := Round(r.rows[..n], r.turns[..n]);
      RoundRecords(next, init, jobs, id);
      var last := if r.rows[n] in jobs then Record(r.rows[n], jobs[r.rows[n]], r.turns[n]) else [];
      FilterLast(Records(init.rows, init.turns, jobs), last, OfJob(id));
      if r.rows[n] == id {
        assert id !in init.rows;
        NoTurnIn(init, id);
        assert [r.turns[n]][..0] == [];
      }
    }
  }

  lemma FilterLast(s: seq<RunRecord>, last: seq<RunRecord>, p: RunRecord -> bool)
    requires |last| <= 1
    ensures Seqs.Filter(s + last, p) == Seqs.Filter(s, p) + if last != [] && p(last[0]) then last else []
  {
    if last == [] {
      assert s + last == s;
    } else {
      FilterSnoc(s, last[0], p);
      assert last == [last[0]];
    }
  }

  lemma {:induction false} JobAfterKeepsCron(next: Search, job: Job, turns: seq<Turn>)
    ensures JobAfter(next, job, turns).cron == job.cron
  {
    if turns != [] {
      JobAfterKeepsCron(next, job, turns[..|turns| - 1]);
    }
  }

  /** One more tick, in which the job takes one turn or none. */
  lemma OneMoreTurn(next: Search, id: JobId, job: Job, turns: seq<Turn>, turn: seq<Turn>)
    requires |turn| <= 1
    ensures JobAfter(next, job, turns + turn) == JobAfter(next, JobAfter(next, job, turns), turn)
    ensures Firings(next, id, job, turns + turn) == Firings(next, id, job, turns) + Firings(next, id, JobAfter(next, job, turns), turn)
  {
    if turn == [] {
      assert turns + turn == turns;
    } else {
      assert turn == [turn[0]] && turn[..0] == [];
      assert (turns + turn)[..|turns|] == turns && (turns + turn)[|turns|] == turn[0];
    }
  }

  lemma {:induction false} TurnInIsOne(r: TickRound, id: JobId)
    ensures |TurnIn(r, id)| <= 1
    decreases |r.rows|
  {
    if r.rows != [] {
      var n := |r.rows| - 1;
      TurnInIsOne(Round(r.rows[..n], r.turns[..n]), id);
    }
  }

  /**
   Over any sequence of ticks a job goes through exactly its own turns, and the run log
   holds exactly one record of it, with the outcome, for each turn in which it fired.
   */
  lemma {:induction false} TicksGiveTurns(search: string -> Search, rounds: seq<TickRound>, jobs: map<JobId, Job>, id: JobId)
    requires id in jobs && forall k :: 0 <= k < |rounds| ==> Distinct(rounds[k].rows)
    ensures var next, after, turns := search(jobs[id].cron), JobsAfter(search, rounds, jobs), TurnsOf(rounds, id);
            && id in after && after[id] == JobAfter(next, jobs[id], turns)
            && Seqs.Filter(RunsAfter(search, rounds, jobs), OfJob(id)) == Firings(next, id, jobs[id], turns)
  {
    if rounds != [] {
      var init, last := rounds[..|rounds| - 1], rounds[|rounds| - 1];
      var next, before := search(jobs[id].cron), JobsAfter(search, init, jobs);
      TicksGiveTurns(search, init, jobs, id);
      JobAfterKeepsCron(next, jobs[id], TurnsOf(init, id));
      RoundGivesTurn(search, last, before, id);
      RoundRecords(next, last, before, id);
      FilterConcat(RunsAfter(search, init, jobs), Records(last.rows, last.turns, before), OfJob(id));
      TurnInIsOne(last, id);
      OneMoreTurn(next, id, jobs[id], TurnsOf(init, id), TurnIn(last, id));
    }
  }
}
