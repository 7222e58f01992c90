/** Planning database migrations and applying them one by one. */
module Migrations {
  import opened Seqs
  import opened Sorting

  datatype File = File(name: string, contents: string)
  datatype Planned = Planned(name: string, contents: string, checksum: string)
  datatype Change = Change(name: string, oldChecksum: string, newChecksum: string)
  datatype Plan = Plan(pending: seq<Planned>, applied: seq<Planned>, changed: seq<Change>, missing: seq<string>)

  type Table = map<string, string>

  function NameOf(f: File): string {
    f.name
  }

  /** Migrations run in the order of their file names. */
  function SortFiles(files: seq<File>): seq<File> {
    Sort(files, NameOf)
  }

  function PlannedOf(f: File, checksum: string -> string): Planned {
    Planned(f.name, f.contents, checksum(f.contents))
  }

  function AddFile(plan: Plan, f: File, table: Table, checksum: string -> string): Plan {
    var p := PlannedOf(f, checksum);
    if f.name !in table then plan.(pending := plan.pending + [p])
    else plan.(applied := plan.applied + [p],
               changed := if table[f.name] == p.checksum then plan.changed
                          else plan.changed + [Change(f.name, table[f.name], p.checksum)])
  }

  function PlanFiles(sorted: seq<File>, table: Table, checksum: string -> string): Plan {
    if sorted == [] then Plan([], [], [], [])
    else AddFile(PlanFiles(sorted[..|sorted| - 1], table, checksum), sorted[|sorted| - 1], table, checksum)
  }

  function FileNames(files: seq<File>): set<string> {
    set f | f in files :: f.name
  }

  /** Recorded migrations with no file. */
  function Missing(rows: seq<string>, onDisk: set<string>): (r: seq<string>)
    ensures forall n :: n in r ==> n in rows && n !in onDisk
  {
    Filter(rows, (n: string) => n !in onDisk)
  }

  /** The plan for the files on disk, given the tracking table and the order its rows are listed in. */
  function PlanOf(files: seq<File>, table: Table, rows: seq<string>, checksum: string -> string): Plan {
    PlanFiles(SortFiles(files), table, checksum).(missing := Missing(rows, FileNames(files)))
  }

  method PlanMigrations(files: seq<File>, table: Table, rows: seq<string>, checksum: string -> string) returns (plan: Plan)
    ensures plan == PlanOf(files, table, rows, checksum)
  {
    var onDisk := FileNames(files);
    var sorted := SortFiles(files);
    plan := Plan([], [], [], []);
    for i := 0 to |sorted|
      invariant plan == PlanFiles(sorted[..i], table, checksum)
    {
      var f := sorted[i];
      PlanFilesNext(sorted, i, table, checksum);
      var p := PlannedOf(f, checksum);
      if f.name !in table {
        plan := plan.(pending := plan.pending + [p]);
      } else {
        plan := plan.(applied := plan.applied + [p]);
        if table[f.name] != p.checksum {
          plan := plan.(changed := plan.changed + [Change(f.name, table[f.name], p.checksum)]);
        }
      }
    }
    assert sorted[..|sorted|] == sorted;
    plan := plan.(missing := Missing(rows, onDisk));
  }

  // ---- applying ----------------------------------------------------------------------------

  /**
   How one transaction ends: committed, rolled back, or committed although the caller was
   told it failed.
   */
  datatype Outcome = Committed | RolledBack | Uncertain

  /** The first statement of the transaction that fails; at last, the answer to its COMMIT may be lost. */
  datatype Fault = NoFault | AtBegin | AtContents | AtRecord | AtCommit | AtAnswer

  function OutcomeOf(fault: Fault): Outcome {
    match fault
    case NoFault => Committed
    case AtAnswer => Uncertain
    case _ => RolledBack
  }

  /** The tracking table, and the migrations committed so far in the order they were. */
  datatype State = State(table: Table, log: seq<string>)

  function Commit(s: State, m: Planned): State {
    State(s.table[m.name := m.checksum], s.log + [m.name])
  }

  /** The pending migrations are applied in turn until one fails. */
  function ApplyAll(s: State, pending: seq<Planned>, faults: string -> Fault): (State, bool)
    decreases |pending|
  {
    if pending == [] then (s, true)
    else
      match OutcomeOf(faults(pending[0].name))
      case Committed => ApplyAll(Commit(s, pending[0]), pending[1..], faults)
      case RolledBack => (s, false)
      case Uncertain => (Commit(s, pending[0]), false)
  }

  /** One invocation: what it finds on disk, whether the database answers, and how each transaction ends. */
  datatype Attempt = Attempt(files: seq<File>, rows: seq<string>, statusOnly: bool, reachable: bool, faults: string -> Fault)

  /** The state after an invocation, and whether it reports success. */
  function Migrate(s: State, a: Attempt, checksum: string -> string): (State, bool) {
    var plan := PlanOf(a.files, s.table, a.rows, checksum);
    if !a.reachable || plan.changed != [] then (s, false)
    else if a.statusOnly || plan.pending == [] then (s, true)
    else ApplyAll(s, plan.pending, a.faults)
  }

  class Database {
    var table: Table
    var log: seq<string>

    function Now(): State
      reads this
    {
      State(table, log)
    }

    constructor ()
      ensures Now() == State(map[], [])
    {
      table, log := map[], [];
    }

    /**
     One migration in its own transaction: its statements work on a view of the database,
     which a COMMIT makes the database and a ROLLBACK drops.
     */
    method ApplyMigration(m: Planned, fault: Fault) returns (ok: bool)
      modifies this
      ensures ok == OutcomeOf(fault).Committed?
      ensures Now() == if OutcomeOf(fault).RolledBack? then old(Now()) else Commit(old(Now()), m)
    {
      if fault.AtBegin? {
        return false;
      }
      var view := Now();
      if fault.AtContents? {
        return false;
      }
      view := view.(log := view.log + [m.name]);
      if fault.AtRecord? {
        return false;
      }
      view := view.(table := view.table[m.name := m.checksum]);
      if fault.AtCommit? {
        return false;
      }
      table, log := view.table, view.log;
      ok := fault.NoFault?;
    }

    method ApplyPending(pending: seq<Planned>, faults: string -> Fault) returns (ok: bool)
      modifies this
      ensures (Now(), ok) == ApplyAll(old(Now()), pending, faults)
    {
      for i := 0 to |pending|
        invariant ApplyAll(Now(), pending[i..], faults) == ApplyAll(old(Now()), pending, faults)
      {
        assert pending[i..][1..] == pending[i + 1..];
        var done := ApplyMigration(pending[i], faults(pending[i].name));
        if !done {
          return false;
        }
      }
      return true;
    }

    method CmdMigrate(a: Attempt, checksum: string -> string) returns (ok: bool)
      modifies this
      ensures (Now(), ok) == Migrate(old(Now()), a, checksum)
    {
      if !a.reachable {
        return false;
      }
      var plan := PlanMigrations(a.files, table, a.rows, checksum);
      if |plan.changed| > 0 {
        return false;
      }
      if a.statusOnly || |plan.pending| == 0 {
        return true;
      }
      ok := ApplyPending(plan.pending, a.faults);
    }
  }

  // ---- drift -----------------------------------------------------------------------------------

  /** A file whose recorded checksum is no longer its own. */
  predicate HasChanged(f: File, table: Table, checksum: string -> string) {
    f.name in table && table[f.name] != checksum(f.contents)
  }

  lemma {:induction false} ChangedFiles(sorted: seq<File>, table: Table, checksum: string -> string)
    ensures PlanFiles(sorted, table, checksum).changed == [] <==> forall f :: f in sorted ==> !HasChanged(f, table, checksum)
  {
    if sorted != [] {
      var init, last := sorted[..|sorted| - 1], sorted[|sorted| - 1];
      ChangedFiles(init, table, checksum);
      assert sorted == init + [last];
      assert last in sorted && forall f :: f in init ==> f in sorted;
    }
  }

  /** Nothing is applied, and failure reported, if any applied file on disk was edited. */
  lemma EditedFilesStopEverything(s: State, a: Attempt, checksum: string -> string, f: File)
    requires f in a.files && HasChanged(f, s.table, checksum)
    ensures Migrate(s, a, checksum).0 == s && !Migrate(s, a, checksum).1
  {
    var sorted := SortFiles(a.files);
    ChangedFiles(sorted, s.table, checksum);
    assert f in sorted;
    assert PlanOf(a.files, s.table, a.rows, checksum).changed != [];
  }

  // ---- every run commits a prefix -----------------------------------------------------------------

  function Names(files: seq<File>): (names: seq<string>)
    ensures |names| == |files| && forall i :: 0 <= i < |files| ==> names[i] == files[i].name
  {
    seq(|files|, i requires 0 <= i < |files| => files[i].name)
  }

  function PlannedAll(files: seq<File>, checksum: string -> string): (r: seq<Planned>)
    ensures |r| == |files| && forall i :: 0 <= i < |files| ==> r[i] == PlannedOf(files[i], checksum)
  {
    seq(|files|, i requires 0 <= i < |files| => PlannedOf(files[i], checksum))
  }

  function TableOf(files: seq<File>, checksum: string -> string): Table {
    if files == [] then map[]
    else TableOf(files[..|files| - 1], checksum)[files[|files| - 1].name := checksum(files[|files| - 1].contents)]
  }

  /** The first files, in order, are committed and recorded; no others are. */
  ghost predicate AtPrefix(s: State, sorted: seq<File>, checksum: string -> string) {
    && |s.log| <= |sorted|
    && s.log == Names(sorted[..|s.log|])
    && s.table == TableOf(sorted[..|s.log|], checksum)
  }

  lemma {:induction false} TableAt(files: seq<File>, checksum: string -> string, i: nat)
    requires DistinctKeys(files, NameOf) && i < |files|
    ensures files[i].name in TableOf(files, checksum) && TableOf(files, checksum)[files[i].name] == checksum(files[i].contents)
  {
    if i < |files| - 1 {
      TableAt(files[..|files| - 1], checksum, i);
      assert NameOf(files[i]) != NameOf(files[|files| - 1]);
    }
  }

  lemma {:induction false} TableOnly(files: seq<File>, checksum: string -> string, n: string)
    ensures n in TableOf(files, checksum) ==> exists i :: 0 <= i < |files| && files[i].name == n
  {
    if files != [] {
      TableOnly(files[..|files| - 1], checksum, n);
    }
  }

  lemma CommitNext(s: State, sorted: seq<File>, checksum: string -> string)
    requires AtPrefix(s, sorted, checksum) && |s.log| < |sorted|
    ensures AtPrefix(Commit(s, PlannedOf(sorted[|s.log|], checksum)), sorted, checksum)
  {
    var k := |s.log|;
    assert sorted[..k + 1][..k] == sorted[..k];
    assert Names(sorted[..k + 1]) == Names(sorted[..k]) + [sorted[k].name];
  }

  /** Applying the rest stops at some later prefix, and succeeds only at the end. */
  lemma {:induction false} ApplyRest(s: State, sorted: seq<File>, checksum: string -> string, faults: string -> Fault)
    requires AtPrefix(s, sorted, checksum)
    ensures var r := ApplyAll(s, PlannedAll(sorted[|s.log|..], checksum), faults);
            AtPrefix(r.0, sorted, checksum) && s.log <= r.0.log && (r.1 ==> |r.0.log| == |sorted|)
    decreases |sorted| - |s.log|
  {
    var k := |s.log|;
    if k < |sorted| {
      var next := Commit(s, PlannedOf(sorted[k], checksum));
      CommitNext(s, sorted, checksum);
      ApplyRest(next, sorted, checksum, faults);
      assert PlannedAll(sorted[k..], checksum)[1..] == PlannedAll(sorted[k + 1..], checksum);
    }
  }

  // ---- the next plan ----------------------------------------------------------------------------

  ghost predicate HasPrefix(table: Table, sorted: seq<File>, k: nat, checksum: string -> string)
    requires k <= |sorted|
  {
    && (forall i :: 0 <= i < k ==> sorted[i].name in table && table[sorted[i].name] == checksum(sorted[i].contents))
    && (forall i :: k <= i < |sorted| ==> sorted[i].name !in table)
  }

  lemma PrefixIsRecorded(sorted: seq<File>, k: nat, checksum: string -> string)
    requires DistinctKeys(sorted, NameOf) && k <= |sorted|
    ensures HasPrefix(TableOf(sorted[..k], checksum), sorted, k, checksum)
  {
    var table := TableOf(sorted[..k], checksum);
    forall i | 0 <= i < k ensures sorted[i].name in table && table[sorted[i].name] == checksum(sorted[i].contents) {
      TableAt(sorted[..k], checksum, i);
    }
    forall i | k <= i < |sorted| ensures sorted[i].name !in table {
      TableOnly(sorted[..k], checksum, sorted[i].name);
      assert forall j :: 0 <= j < k ==> NameOf(sorted[j]) != NameOf(sorted[i]);
    }
  }

  /** What planning has found after the first `n` files. */
  function PrefixPlan(sorted: seq<File>, k: nat, n: nat, checksum: string -> string): Plan
    requires k <= |sorted| && n <= |sorted|
  {
    if n <= k then Plan([], PlannedAll(sorted[..n], checksum), [], [])
    else Plan(PlannedAll(sorted[k..n], checksum), PlannedAll(sorted[..k], checksum), [], [])
  }

  lemma PlannedNext(sorted: seq<File>, from: nat, n: nat, checksum: string -> string)
    requires from <= n < |sorted|
    ensures PlannedAll(sorted[from..n + 1], checksum) == PlannedAll(sorted[from..n], checksum) + [PlannedOf(sorted[n], checksum)]
  {
  }

  lemma PlanNext(table: Table, sorted: seq<File>, k: nat, n: nat, checksum: string -> string)
    requires k <= |sorted| && n < |sorted| && HasPrefix(table, sorted, k, checksum)
    ensures AddFile(PrefixPlan(sorted, k, n, checksum), sorted[n], table, checksum) == PrefixPlan(sorted, k, n + 1, checksum)
  {
    if n < k {
      PlannedNext(sorted, 0, n, checksum);
    } else {
      PlannedNext(sorted, k, n, checksum);
      assert sorted[k..k] == [];
    }
  }

  lemma PlanFilesNext(sorted: seq<File>, n: nat, table: Table, checksum: string -> string)
    requires n < |sorted|
    ensures PlanFiles(sorted[..n + 1], table, checksum) == AddFile(PlanFiles(sorted[..n], table, checksum), sorted[n], table, checksum)
  {
    assert sorted[..n + 1][..n] == sorted[..n];
  }

  lemma PlanOfPrefixNext(table: Table, sorted: seq<File>, k: nat, n: nat, checksum: string -> string)
    requires k <= |sorted| && n < |sorted| && HasPrefix(table, sorted, k, checksum)
    requires PlanFiles(sorted[..n], table, checksum) == PrefixPlan(sorted, k, n, checksum)
    ensures PlanFiles(sorted[..n + 1], table, checksum) == PrefixPlan(sorted, k, n + 1, checksum)
  {
    PlanNext(table, sorted, k, n, checksum);
    PlanFilesNext(sorted, n, table, checksum);
  }

  lemma {:induction false} PlanOfPrefix(table: Table, sorted: seq<File>, k: nat, n: nat, checksum: string -> string)
    requires k <= |sorted| && n <= |sorted| && HasPrefix(table, sorted, k, checksum)
    ensures PlanFiles(sorted[..n], table, checksum) == PrefixPlan(sorted, k, n, checksum)
  {
    if n > 0 {
      PlanOfPrefix(table, sorted, k, n - 1, checksum);
      PlanOfPrefixNext(table, sorted, k, n - 1, checksum);
    }
  }

  /** The same directory, listed in whatever order, with its rows likewise. */
  ghost predicate SeesFiles(a: Attempt, s: State, files: seq<File>) {
    && |a.files| == |files| && DistinctKeys(a.files, NameOf) && DistinctKeys(files, NameOf)
    && (forall f :: f in a.files <==> f in files)
    && (forall n :: n in a.rows <==> n in s.table)
  }

  lemma OrderOfListingIsIrrelevant(a: seq<File>, b: seq<File>)
    requires |a| == |b| && DistinctKeys(a, NameOf) && DistinctKeys(b, NameOf)
    requires forall f :: f in a <==> f in b
    ensures SortFiles(a) == SortFiles(b)
  {
    SortIncreasing(a, NameOf);
    SortIncreasing(b, NameOf);
    IncreasingIsUnique(SortFiles(a), SortFiles(b), NameOf);
  }

  lemma SortedNamesAreDistinct(files: seq<File>)
    requires DistinctKeys(files, NameOf)
    ensures DistinctKeys(SortFiles(files), NameOf) && Increasing(SortFiles(files), NameOf)
  {
    SortIncreasing(files, NameOf);
    var sorted := SortFiles(files);
    forall i, j | 0 <= i < j < |sorted| ensures NameOf(sorted[i]) != NameOf(sorted[j]) {
      BeforeIsStrict(NameOf(sorted[i]), NameOf(sorted[j]));
    }
  }

  lemma RecordedAreOnDisk(sorted: seq<File>, k: nat, checksum: string -> string, files: seq<File>, n: string)
    requires k <= |sorted| && (forall f :: f in sorted ==> f in files) && n in TableOf(sorted[..k], checksum)
    ensures n in FileNames(files)
  {
    TableOnly(sorted[..k], checksum, n);
    var i :| 0 <= i < k && sorted[i].name == n;
    assert sorted[i] in sorted;
  }

  lemma NothingMissing(rows: seq<string>, table: Table, sorted: seq<File>, k: nat, checksum: string -> string, files: seq<File>)
    requires k <= |sorted| && table == TableOf(sorted[..k], checksum)
    requires (forall f :: f in sorted ==> f in files) && forall n :: n in rows ==> n in table
    ensures Missing(rows, FileNames(files)) == []
  {
    var missing := Missing(rows, FileNames(files));
    if |missing| > 0 {
      RecordedAreOnDisk(sorted, k, checksum, files, missing[0]);
      assert false;
    }
  }

  /** After a prefix has been committed, the plan is exactly the rest of the files. */
  lemma PlanIsTheRest(a: Attempt, s: State, files: seq<File>, checksum: string -> string)
    requires SeesFiles(a, s, files) && AtPrefix(s, SortFiles(files), checksum)
    ensures var sorted, k := SortFiles(files), |s.log|;
            PlanOf(a.files, s.table, a.rows, checksum)
              == Plan(PlannedAll(sorted[k..], checksum), PlannedAll(sorted[..k], checksum), [], [])
  {
    var sorted, k := SortFiles(files), |s.log|;
    OrderOfListingIsIrrelevant(a.files, files);
    SortedNamesAreDistinct(files);
    PrefixIsRecorded(sorted, k, checksum);
    PlanOfPrefix(s.table, sorted, k, |sorted|, checksum);
    assert sorted[..|sorted|] == sorted && sorted[k..|sorted|] == sorted[k..];
    NothingMissing(a.rows, s.table, sorted, k, checksum, a.files);
  }

  // ---- runs -----------------------------------------------------------------------------------------

  const FRESH := State(map[], [])

  function Run(attempts: seq<Attempt>, checksum: string -> string): State {
    if attempts == [] then FRESH
    else Migrate(Run(attempts[..|attempts| - 1], checksum), attempts[|attempts| - 1], checksum).0
  }

  /** Every invocation finds the same files, and lists the rows there are. */
  ghost predicate Fixed(attempts: seq<Attempt>, files: seq<File>, checksum: string -> string) {
    forall i :: 0 <= i < |attempts| ==> SeesFiles(attempts[i], Run(attempts[..i], checksum), files)
  }

  lemma MigrateKeepsPrefix(s: State, a: Attempt, files: seq<File>, checksum: string -> string)
    requires SeesFiles(a, s, files) && AtPrefix(s, SortFiles(files), checksum)
    ensures var r := Migrate(s, a, checksum);
            && AtPrefix(r.0, SortFiles(files), checksum) && s.log <= r.0.log
            && (r.1 && !a.statusOnly ==> |r.0.log| == |files|)
            && (a.statusOnly ==> r.0 == s)
  {
    PlanIsTheRest(a, s, files, checksum);
    ApplyRest(s, SortFiles(files), checksum, a.faults);
  }

  /**
   Whatever fails in whichever run, the committed migrations are the first files in name
   order: each at most once, in order, recorded with its checksum.
   */
  lemma {:induction false} RunsCommitAPrefix(attempts: seq<Attempt>, files: seq<File>, checksum: string -> string)
    requires Fixed(attempts, files, checksum)
    ensures AtPrefix(Run(attempts, checksum), SortFiles(files), checksum)
  {
    var sorted := SortFiles(files);
    if attempts == [] {
      assert sorted[..0] == [];
    } else {
      var init, last := attempts[..|attempts| - 1], attempts[|attempts| - 1];
      assert forall i :: 0 <= i < |init| ==> init[..i] == attempts[..i];
      RunsCommitAPrefix(init, files, checksum);
      assert SeesFiles(last, Run(init, checksum), files);
      MigrateKeepsPrefix(Run(init, checksum), last, files, checksum);
    }
  }

  lemma CommitsAreOrdered(attempts: seq<Attempt>, files: seq<File>, checksum: string -> string)
    requires Fixed(attempts, files, checksum) && DistinctKeys(files, NameOf)
    ensures var log := Run(attempts, checksum).log; forall i, j :: 0 <= i < j < |log| ==> Before(log[i], log[j])
  {
    RunsCommitAPrefix(attempts, files, checksum);
    SortedNamesAreDistinct(files);
    var log, sorted := Run(attempts, checksum).log, SortFiles(files);
    forall i, j | 0 <= i < j < |log| ensures Before(log[i], log[j]) {
      assert Before(NameOf(sorted[i]), NameOf(sorted[j]));
    }
  }

  lemma FixedBefore(attempts: seq<Attempt>, next: Attempt, files: seq<File>, checksum: string -> string)
    requires Fixed(attempts + [next], files, checksum)
    ensures Fixed(attempts, files, checksum) && SeesFiles(next, Run(attempts, checksum), files)
  {
    var all := attempts + [next];
    assert all[..|attempts|] == attempts;
    assert SeesFiles(all[|attempts|], Run(all[..|attempts|], checksum), files);
    forall i | 0 <= i < |attempts| ensures SeesFiles(attempts[i], Run(attempts[..i], checksum), files) {
      assert attempts[..i] == all[..i] && all[i] == attempts[i];
    }
  }

  /** A later invocation plans exactly what no earlier one committed. */
  lemma NextPlanIsTheRest(attempts: seq<Attempt>, next: Attempt, files: seq<File>, checksum: string -> string)
    requires Fixed(attempts + [next], files, checksum)
    ensures |Run(attempts, checksum).log| <= |SortFiles(files)|
    ensures var s, sorted := Run(attempts, checksum), SortFiles(files);
            PlanOf(next.files, s.table, next.rows, checksum)
              == Plan(PlannedAll(sorted[|s.log|..], checksum), PlannedAll(sorted[..|s.log|], checksum), [], [])
  {
    FixedBefore(attempts, next, files, checksum);
    RunsCommitAPrefix(attempts, files, checksum);
    PlanIsTheRest(next, Run(attempts, checksum), files, checksum);
  }

  /** After an invocation that reports success, nothing is left to plan. */
  lemma SuccessLeavesNothing(attempts: seq<Attempt>, last: Attempt, next: Attempt, files: seq<File>, checksum: string -> string)
    requires Fixed(attempts + [last] + [next], files, checksum)
    requires !last.statusOnly && Migrate(Run(attempts, checksum), last, checksum).1
    ensures PlanOf(next.files, Run(attempts + [last], checksum).table, next.rows, checksum)
         == Plan([], PlannedAll(SortFiles(files), checksum), [], [])
  {
    FixedBefore(attempts + [last], next, files, checksum);
    FixedBefore(attempts, last, files, checksum);
    RunsCommitAPrefix(attempts, files, checksum);
    RunNext(attempts, last, checksum);
    SuccessEmptiesPlan(Run(attempts, checksum), last, next, files, checksum);
  }

  lemma RunNext(attempts: seq<Attempt>, last: Attempt, checksum: string -> string)
    ensures Run(attempts + [last], checksum) == Migrate(Run(attempts, checksum), last, checksum).0
  {
    assert (attempts + [last])[..|attempts|] == attempts;
  }

  lemma SuccessEmptiesPlan(s: State, last: Attempt, next: Attempt, files: seq<File>, checksum: string -> string)
    requires SeesFiles(last, s, files) && AtPrefix(s, SortFiles(files), checksum)
    requires !last.statusOnly && Migrate(s, last, checksum).1 && SeesFiles(next, Migrate(s, last, checksum).0, files)
    ensures PlanOf(next.files, Migrate(s, last, checksum).0.table, next.rows, checksum)
         == Plan([], PlannedAll(SortFiles(files), checksum), [], [])
  {
    var sorted := SortFiles(files);
    MigrateKeepsPrefix(s, last, files, checksum);
    assert sorted[|sorted|..] == [] && sorted[..|sorted|] == sorted;
    PlanIsTheRest(next, Migrate(s, last, checksum).0, files, checksum);
  }
}
