/** What one invocation of the migrate command does, told by the files and by what fails. */
module MigrationLaws {
  import opened Seqs
  import opened Sorting
  import opened Migrations

  /** The files that the database has not recorded, in the order of their names. */
  ghost predicate IsToDo(todo: seq<File>, files: seq<File>, table: Table) {
    && (forall f :: f in todo <==> f in files && f.name !in table)
    && forall i, j :: 0 <= i < j < |todo| ==> ComesBefore(todo[i].name, todo[j].name)
  }

  function Unrecorded(table: Table): File -> bool {
    (f: File) => f.name !in table
  }

  lemma PlannedNext(files: seq<File>, last: File, checksum: string -> string)
    ensures PlannedAll(files + [last], checksum) == PlannedAll(files, checksum) + [PlannedOf(last, checksum)]
  {
  }

  lemma {:induction false} PlannedAreUnrecorded(sorted: seq<File>, table: Table, checksum: string -> string)
    ensures PlanFiles(sorted, table, checksum).pending == PlannedAll(Seqs.Filter(sorted, Unrecorded(table)), checksum)
  {
    if sorted != [] {
      var init, last := sorted[..|sorted| - 1], sorted[|sorted| - 1];
      PlannedAreUnrecorded(init, table, checksum);
      FilterEnd(sorted, init, last, Unrecorded(table));
      var kept := Seqs.Filter(init, Unrecorded(table));
      PlannedNext(kept, last, checksum);
      assert kept + [] == kept;
    }
  }

  /** What is pending is what is to do. */
  lemma PendingIsToDo(files: seq<File>, table: Table, rows: seq<string>, checksum: string -> string, todo: seq<File>)
    requires DistinctKeys(files, NameOf) && IsToDo(todo, files, table)
    ensures PlanOf(files, table, rows, checksum).pending == PlannedAll(todo, checksum)
  {
    var sorted := SortFiles(files);
    var kept := Seqs.Filter(sorted, Unrecorded(table));
    SortIncreasing(files, NameOf);
    FilterIncreasing(sorted, NameOf, Unrecorded(table));
    forall i, j | 0 <= i < j < |todo| ensures Before(NameOf(todo[i]), NameOf(todo[j])) {
      BeforeIsLexical(todo[i].name, todo[j].name);
    }
    IncreasingIsUnique(kept, todo, NameOf);
    PlannedAreUnrecorded(sorted, table, checksum);
  }

  /** The files that the database has recorded, in the order of their names. */
  ghost predicate AreDone(done: seq<File>, files: seq<File>, table: Table) {
    && (forall f :: f in done <==> f in files && f.name in table)
    && forall i, j :: 0 <= i < j < |done| ==> ComesBefore(done[i].name, done[j].name)
  }

  function Recorded(table: Table): File -> bool {
    (f: File) => f.name in table
  }

  lemma {:induction false} PlannedAreRecorded(sorted: seq<File>, table: Table, checksum: string -> string)
    ensures PlanFiles(sorted, table, checksum).applied == PlannedAll(Seqs.Filter(sorted, Recorded(table)), checksum)
  {
    if sorted != [] {
      var init, last := sorted[..|sorted| - 1], sorted[|sorted| - 1];
      PlannedAreRecorded(init, table, checksum);
      FilterEnd(sorted, init, last, Recorded(table));
      var kept := Seqs.Filter(init, Recorded(table));
      PlannedNext(kept, last, checksum);
      assert kept + [] == kept;
    }
  }

  /** What is listed as applied is what is done. */
  lemma AppliedAreDone(files: seq<File>, table: Table, rows: seq<string>, checksum: string -> string, done: seq<File>)
    requires DistinctKeys(files, NameOf) && AreDone(done, files, table)
    ensures PlanOf(files, table, rows, checksum).applied == PlannedAll(done, checksum)
  {
    var sorted := SortFiles(files);
    SortIncreasing(files, NameOf);
    FilterIncreasing(sorted, NameOf, Recorded(table));
    forall i, j | 0 <= i < j < |done| ensures Before(NameOf(done[i]), NameOf(done[j])) {
      BeforeIsLexical(done[i].name, done[j].name);
    }
    IncreasingIsUnique(Seqs.Filter(sorted, Recorded(table)), done, NameOf);
    PlannedAreRecorded(sorted, table, checksum);
  }

  /** The change of a file since it was recorded. */
  ghost predicate IsEdit(c: Change, f: File, table: Table, checksum: string -> string) {
    f.name in table && table[f.name] != checksum(f.contents) && c == Change(f.name, table[f.name], checksum(f.contents))
  }

  lemma {:induction false} ChangesAreEdits(files: seq<File>, table: Table, checksum: string -> string, c: Change)
    ensures c in PlanFiles(files, table, checksum).changed <==> exists f :: f in files && IsEdit(c, f, table, checksum)
  {
    if files != [] {
      var init, last := files[..|files| - 1], files[|files| - 1];
      assert files == init + [last];
      ChangesAreEdits(init, table, checksum, c);
      if IsEdit(c, last, table, checksum) {
        assert last in files;
      }
      if f :| f in init && IsEdit(c, f, table, checksum) {
        assert f in files;
      }
    }
  }

  /** Each edited file is reported with both checksums, and each recorded name without a file as missing; nothing else is. */
  lemma ReportIsExact(files: seq<File>, table: Table, rows: seq<string>, checksum: string -> string, c: Change, name: string)
    ensures c in PlanOf(files, table, rows, checksum).changed <==> exists f :: f in files && IsEdit(c, f, table, checksum)
    ensures name in PlanOf(files, table, rows, checksum).missing <==> name in rows && forall f :: f in files ==> f.name != name
  {
    ChangesAreEdits(SortFiles(files), table, checksum, c);
    assert name in FileNames(files) <==> exists f :: f in files && f.name == name;
  }

  /** The state after these files were committed one after the other. */
  function CommitFiles(s: State, files: seq<File>, checksum: string -> string): State
    decreases |files|
  {
    if files == [] then s
    else CommitFiles(State(s.table[files[0].name := checksum(files[0].contents)], s.log + [files[0].name]), files[1..], checksum)
  }

  /** Nothing fails before the first fault; only the answer to its COMMIT may be what was lost. */
  predicate FirstFault(todo: seq<File>, faults: string -> Fault, n: nat) {
    && n <= |todo|
    && (forall i :: 0 <= i < n ==> faults(todo[i].name) == NoFault)
    && (n < |todo| ==> faults(todo[n].name) != NoFault)
  }

  /** How many files are committed. */
  function Reached(todo: seq<File>, faults: string -> Fault, n: nat): nat
    requires n <= |todo|
  {
    if n < |todo| && faults(todo[n].name) == AtAnswer then n + 1 else n
  }

  lemma {:induction false} ApplyReaches(s: State, todo: seq<File>, checksum: string -> string, faults: string -> Fault, n: nat)
    requires FirstFault(todo, faults, n)
    ensures ApplyAll(s, PlannedAll(todo, checksum), faults) == (CommitFiles(s, todo[..Reached(todo, faults, n)], checksum), n == |todo|)
    decreases |todo|
  {
    if todo != [] {
      var pending, rest := PlannedAll(todo, checksum), todo[1..];
      assert pending[1..] == PlannedAll(rest, checksum);
      var next := Commit(s, pending[0]);
      if n > 0 {
        assert faults(todo[0].name) == NoFault;
        assert forall i :: 0 <= i < |rest| ==> rest[i] == todo[i + 1];
        ApplyReaches(next, rest, checksum, faults, n - 1);
        assert todo[..Reached(todo, faults, n)][1..] == rest[..Reached(rest, faults, n - 1)];
      } else {
        assert todo[..1][1..] == [] && todo[..0] == [];
      }
    }
  }

  /** Each committed file is logged in turn and recorded with its checksum; what was recorded stays. */
  lemma {:induction false} CommitFilesRecords(s: State, files: seq<File>, checksum: string -> string)
    requires DistinctKeys(files, NameOf) && forall i :: 0 <= i < |files| ==> files[i].name !in s.table
    ensures var after := CommitFiles(s, files, checksum);
            && |after.log| == |s.log| + |files| && after.log[..|s.log|] == s.log
            && (forall i :: 0 <= i < |files| ==> after.log[|s.log| + i] == files[i].name)
            && (forall i :: 0 <= i < |files| ==> files[i].name in after.table && after.table[files[i].name] == checksum(files[i].contents))
            && (forall name :: name in s.table ==> name in after.table && after.table[name] == s.table[name])
            && (forall name :: name in after.table ==> name in s.table || exists i :: 0 <= i < |files| && files[i].name == name)
    decreases |files|
  {
    if files != [] {
      var first, rest := files[0], files[1..];
      var next := State(s.table[first.name := checksum(first.contents)], s.log + [first.name]);
      forall i, j | 0 <= i < j < |rest| ensures NameOf(rest[i]) != NameOf(rest[j]) {
        assert NameOf(files[i + 1]) != NameOf(files[j + 1]);
      }
      forall i | 0 <= i < |rest| ensures rest[i].name !in next.table {
        assert rest[i] == files[i + 1] && NameOf(files[0]) != NameOf(files[i + 1]);
      }
      CommitFilesRecords(next, rest, checksum);
      var after := CommitFiles(s, files, checksum);
      assert after.log[..|next.log|] == next.log && next.log[..|s.log|] == s.log;
      assert after.log[..|s.log|] == after.log[..|next.log|][..|s.log|];
      assert after.log[|s.log|] == after.log[..|next.log|][|s.log|] == first.name;
      assert forall i :: 1 <= i < |files| ==> files[i] == rest[i - 1];
    }
  }

  /** No file on disk that was recorded has changed since. */
  ghost predicate NothingEdited(files: seq<File>, table: Table, checksum: string -> string) {
    forall f :: f in files && f.name in table ==> table[f.name] == checksum(f.contents)
  }

  lemma NothingChanged(files: seq<File>, table: Table, rows: seq<string>, checksum: string -> string)
    ensures PlanOf(files, table, rows, checksum).changed == [] <==> NothingEdited(files, table, checksum)
  {
    ChangedFiles(SortFiles(files), table, checksum);
    if NothingEdited(files, table, checksum) {
      assert forall f :: f in SortFiles(files) ==> !HasChanged(f, table, checksum);
    } else {
      var f :| f in files && f.name in table && table[f.name] != checksum(f.contents);
      assert f in SortFiles(files) && HasChanged(f, table, checksum);
    }
  }

  /**
   In every state, an invocation that finds no edited file commits exactly the files to do
   before the first one with a fault, and that one too if only the answer to its COMMIT was
   lost. It reports success if and only if no file to do has a fault.
   */
  lemma InvocationIsExact(s: State, a: Attempt, checksum: string -> string, todo: seq<File>, n: nat)
    requires a.reachable && !a.statusOnly && DistinctKeys(a.files, NameOf) && NothingEdited(a.files, s.table, checksum)
    requires IsToDo(todo, a.files, s.table) && FirstFault(todo, a.faults, n)
    ensures Migrate(s, a, checksum).0 == CommitFiles(s, todo[..Reached(todo, a.faults, n)], checksum)
    ensures Migrate(s, a, checksum).1 <==> forall f :: f in todo ==> a.faults(f.name) == NoFault
  {
    NothingChanged(a.files, s.table, a.rows, checksum);
    PendingIsToDo(a.files, s.table, a.rows, checksum, todo);
    ApplyReaches(s, todo, checksum, a.faults, n);
    assert n < |todo| ==> todo[n] in todo;
    assert todo == [] ==> todo[..0] == [];
  }

  /** Nothing is committed by a status request, without a connection, or when a file was edited; only the first is a success. */
  lemma OtherwiseNothing(s: State, a: Attempt, checksum: string -> string)
    ensures !a.reachable || !NothingEdited(a.files, s.table, checksum) ==> Migrate(s, a, checksum) == (s, false)
    ensures a.reachable && NothingEdited(a.files, s.table, checksum) && a.statusOnly ==> Migrate(s, a, checksum) == (s, true)
  {
    NothingChanged(a.files, s.table, a.rows, checksum);
  }
}
