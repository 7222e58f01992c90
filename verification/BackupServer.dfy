/** The backup daemon's write-then-prune cycle over real file names. */
module BackupServers {
  import opened Seqs
  import opened Sorting
  import opened BackupNames
  import opened Retention

  function Itself(name: string): string {
    name
  }

  /** The managed names beyond the newest `keep`, oldest first. */
  function SelectForDeletion(files: seq<string>, keep: int, isManaged: string -> bool): seq<string> {
    var managed := Sort(Filter(files, isManaged), Itself);
    if keep <= 0 then managed
    else if |managed| <= keep then []
    else managed[..|managed| - keep]
  }

  // ---- names and times -------------------------------------------------------------------

  /** Later times have later names. */
  ghost predicate NamesRise(times: set<int>, name: int -> string) {
    forall s, t :: s in times && t in times && s < t ==> Before(name(s), name(t))
  }

  ghost predicate Named(n: string, times: set<int>, name: int -> string) {
    exists t :: t in times && n == name(t)
  }

  /** The managed names among `files` are exactly those of `times`. */
  ghost predicate Lists(files: set<string>, isManaged: string -> bool, times: set<int>, name: int -> string) {
    && NamesRise(times, name)
    && (forall t :: t in times ==> name(t) in files && isManaged(name(t)))
    && (forall n :: n in files && isManaged(n) ==> Named(n, times, name))
  }

  /** A sorted list of exactly the names of `times`. */
  ghost predicate Ranks(sorted: seq<string>, times: set<int>, name: int -> string) {
    && Increasing(sorted, Itself) && NamesRise(times, name)
    && (forall t :: t in times ==> name(t) in sorted)
    && (forall i :: 0 <= i < |sorted| ==> Named(sorted[i], times, name))
  }

  lemma RankOrder(sorted: seq<string>, times: set<int>, name: int -> string, i: nat, j: nat, t: int, u: int)
    requires Ranks(sorted, times, name) && t in times && u in times
    requires i < |sorted| && j < |sorted| && sorted[i] == name(t) && sorted[j] == name(u)
    ensures i < j <==> t < u
    ensures i == j <==> t == u
  {
    if i < j {
      assert Before(Itself(sorted[i]), Itself(sorted[j]));
      BeforeIsStrict(name(t), name(u));
    } else if j < i {
      assert Before(Itself(sorted[j]), Itself(sorted[i]));
      BeforeIsStrict(name(u), name(t));
    }
    if t < u {
      BeforeIsStrict(name(t), name(u));
    } else if u < t {
      BeforeIsStrict(name(u), name(t));
    }
  }

  lemma NewerAreAfter(sorted: seq<string>, times: set<int>, name: int -> string, i: nat, t: int, u: int)
    requires Ranks(sorted, times, name) && t in times && u in Newer(times, t)
    requires i < |sorted| && sorted[i] == name(t)
    ensures exists j :: i < j < |sorted| && sorted[j] == name(u)
  {
    assert name(u) in sorted;
    var j :| 0 <= j < |sorted| && sorted[j] == name(u);
    RankOrder(sorted, times, name, i, j, t, u);
  }

  lemma NextIsLeastNewer(sorted: seq<string>, times: set<int>, name: int -> string, i: nat, t: int, w: int)
    requires Ranks(sorted, times, name) && t in times && w in times
    requires i + 1 < |sorted| && sorted[i] == name(t) && sorted[i + 1] == name(w)
    ensures Newer(times, t) == Newer(times, w) + {w}
  {
    RankOrder(sorted, times, name, i, i + 1, t, w);
    forall u | u in Newer(times, t) ensures u == w || u > w {
      NewerAreAfter(sorted, times, name, i, t, u);
      var j :| i < j < |sorted| && sorted[j] == name(u);
      RankOrder(sorted, times, name, i + 1, j, w, u);
    }
  }

  lemma LastHasNoneNewer(sorted: seq<string>, times: set<int>, name: int -> string, t: int)
    requires Ranks(sorted, times, name) && t in times
    requires sorted != [] && sorted[|sorted| - 1] == name(t)
    ensures Newer(times, t) == {}
  {
    forall u | u in times ensures u <= t {
      if u > t {
        NewerAreAfter(sorted, times, name, |sorted| - 1, t, u);
      }
    }
  }

  /** The newer files are those after it in the list. */
  lemma {:induction false} NewerIsRank(sorted: seq<string>, times: set<int>, name: int -> string, i: nat, t: int)
    requires Ranks(sorted, times, name) && t in times
    requires i < |sorted| && sorted[i] == name(t)
    ensures |Newer(times, t)| == |sorted| - 1 - i
    decreases |sorted| - i
  {
    if i + 1 == |sorted| {
      LastHasNoneNewer(sorted, times, name, t);
    } else {
      assert Named(sorted[i + 1], times, name);
      var w :| w in times && sorted[i + 1] == name(w);
      NextIsLeastNewer(sorted, times, name, i, t, w);
      NewerIsRank(sorted, times, name, i + 1, w);
    }
  }

  /** A listing of a directory: every name once, in any order. */
  ghost predicate IsListing(listing: seq<string>, files: set<string>) {
    && Distinct(listing)
    && (forall n :: n in listing ==> n in files)
    && (forall n :: n in files ==> n in listing)
  }

  lemma SortedRanks(listing: seq<string>, files: set<string>, isManaged: string -> bool, times: set<int>, name: int -> string,
                    sorted: seq<string>)
    requires IsListing(listing, files) && Lists(files, isManaged, times, name)
    requires sorted == Sort(Filter(listing, isManaged), Itself)
    ensures Ranks(sorted, times, name)
  {
    FilterDistinct(listing, isManaged);
    SortIncreasing(Filter(listing, isManaged), Itself);
    forall t | t in times ensures name(t) in sorted {
      assert name(t) in files && name(t) in listing && name(t) in Filter(listing, isManaged);
    }
    forall i | 0 <= i < |sorted| ensures Named(sorted[i], times, name) {
      assert sorted[i] in sorted;
    }
  }

  /**
   The names selected for deletion are exactly those of the files with at least `keep`
   newer ones, whatever order the directory was listed in.
   */
  lemma SelectionIsExact(listing: seq<string>, files: set<string>, isManaged: string -> bool,
                         times: set<int>, name: int -> string, keep: int, t: int)
    requires IsListing(listing, files) && Lists(files, isManaged, times, name) && t in times
    ensures name(t) in SelectForDeletion(listing, keep, isManaged) <==> |Newer(times, t)| >= keep
  {
    var sorted := Sort(Filter(listing, isManaged), Itself);
    SortedRanks(listing, files, isManaged, times, name, sorted);
    assert name(t) in sorted;
    var i :| 0 <= i < |sorted| && sorted[i] == name(t);
    NewerIsRank(sorted, times, name, i, t);
    if 0 < keep < |sorted| {
      var cut := sorted[..|sorted| - keep];
      if i < |cut| {
        assert cut[i] == name(t);
      } else if name(t) in cut {
        var j :| 0 <= j < |cut| && cut[j] == name(t);
        RankOrder(sorted, times, name, j, i, t, t);
      }
    }
  }

  lemma SelectionIsManaged(listing: seq<string>, keep: int, isManaged: string -> bool, n: string)
    requires n in SelectForDeletion(listing, keep, isManaged)
    ensures n in listing && isManaged(n)
  {
    assert n in Sort(Filter(listing, isManaged), Itself);
  }

  lemma SizeIsCount(sorted: seq<string>, times: set<int>, name: int -> string)
    requires Ranks(sorted, times, name)
    ensures |sorted| == |times|
  {
    if sorted == [] {
      assert times == {};
    } else {
      assert Named(sorted[0], times, name);
      var t :| t in times && sorted[0] == name(t);
      NewerIsRank(sorted, times, name, 0, t);
      forall u | u in times ensures u == t || u > t {
        assert name(u) in sorted;
        var j :| 0 <= j < |sorted| && sorted[j] == name(u);
        RankOrder(sorted, times, name, 0, j, t, u);
      }
      assert times == Newer(times, t) + {t};
    }
  }

  // ---- a directory ---------------------------------------------------------------------------

  lemma ListsPut(files: set<string>, isManaged: string -> bool, times: set<int>, name: int -> string, n: string, t: int)
    requires Lists(files, isManaged, times, name) && n == name(t)
    requires isManaged(n) && NamesRise(times + {t}, name)
    ensures Lists(files + {n}, isManaged, times + {t}, name)
  {
    forall m | m in files + {n} && isManaged(m) ensures Named(m, times + {t}, name) {
      if m != n {
        assert Named(m, times, name);
        var u :| u in times && m == name(u);
        assert u in times + {t};
      }
    }
  }

  lemma ListsOther(files: set<string>, more: set<string>, isManaged: string -> bool, times: set<int>, name: int -> string)
    requires Lists(files, isManaged, times, name)
    requires forall n :: isManaged(n) ==> (n in more <==> n in files)
    ensures Lists(more, isManaged, times, name)
  {
  }

  /** What stops a deletion: the directory cannot be read, or the file cannot be unlinked. */
  datatype Failures = Failures(unreadable: bool, stuck: set<string>)

  function Stuck(name: int -> string, f: Failures): int -> bool {
    (t: int) => f.unreadable || name(t) in f.stuck
  }

  lemma ListsPruned(listing: seq<string>, files: set<string>, isManaged: string -> bool, times: set<int>, name: int -> string,
                    keep: int, f: Failures, left: set<string>)
    requires IsListing(listing, files) && Lists(files, isManaged, times, name) && !f.unreadable
    requires forall n :: n in left <==> n in files && (n in SelectForDeletion(listing, keep, isManaged) ==> n in f.stuck)
    ensures Lists(left, isManaged, Prune(times, keep, Stuck(name, f)), name)
    ensures forall n :: !isManaged(n) ==> (n in left <==> n in files)
  {
    var kept := Prune(times, keep, Stuck(name, f));
    forall t | t in times ensures name(t) in left <==> t in kept {
      SelectionIsExact(listing, files, isManaged, times, name, keep, t);
    }
    forall n | n in left && isManaged(n) ensures Named(n, kept, name) {
      assert Named(n, times, name);
      var t :| t in times && n == name(t);
      assert t in kept;
    }
    forall n | !isManaged(n) ensures n in left <==> n in files {
      if n in SelectForDeletion(listing, keep, isManaged) {
        SelectionIsManaged(listing, keep, isManaged, n);
      }
    }
  }

  /** A kind of managed file: how its names look by place, and which places there are. */
  datatype Kind = Kind(isManaged: string -> bool, name: int -> string, writable: int -> bool)

  /** The place of some time that a date can hold. */
  predicate IsPosition(p: int) {
    IsTimeValue(SecondAt(p)) && Position(SecondAt(p)) == p
  }

  function DumpAt(p: int): string {
    DumpName(SecondAt(p))
  }

  function ArchiveAt(p: int): string {
    ArchiveName(SecondAt(p))
  }

  function DumpKind(): Kind {
    Kind(IsDump, DumpAt, IsPosition)
  }

  function ArchiveKind(): Kind {
    Kind(IsArchive, ArchiveAt, IsPosition)
  }

  /** A run's files have the names of its time. */
  lemma NamesOfTime(second: int)
    requires IsTimeValue(second)
    ensures IsPosition(Position(second))
    ensures DumpAt(Position(second)) == DumpName(second) && ArchiveAt(Position(second)) == ArchiveName(second)
  {
    SecondAtPosition(second);
  }

  /** Names rise with their places, and are recognised as their own kind. */
  ghost predicate WellNamed(k: Kind) {
    && (forall s, t :: k.writable(s) && k.writable(t) && s < t ==> Before(k.name(s), k.name(t)))
    && (forall t :: k.isManaged(k.name(t)))
  }

  /** No file is of both kinds. */
  ghost predicate Apart(a: Kind, b: Kind) {
    forall n :: a.isManaged(n) ==> !b.isManaged(n)
  }

  lemma DumpsWellNamed()
    ensures WellNamed(DumpKind())
  {
    forall s, t | IsPosition(s) && IsPosition(t) && s < t ensures Before(DumpAt(s), DumpAt(t)) {
      NamesInOrder(SecondAt(s), SecondAt(t), DUMP_SUFFIX);
    }
    forall t ensures IsDump(DumpAt(t)) {
      NamesAreManaged(SecondAt(t));
    }
  }

  lemma ArchivesWellNamed()
    ensures WellNamed(ArchiveKind())
  {
    forall s, t | IsPosition(s) && IsPosition(t) && s < t ensures Before(ArchiveAt(s), ArchiveAt(t)) {
      NamesInOrder(SecondAt(s), SecondAt(t), STORAGE_SUFFIX);
    }
    forall t ensures IsArchive(ArchiveAt(t)) {
      NamesAreManaged(SecondAt(t));
    }
  }

  lemma KindsApart()
    ensures Apart(DumpKind(), ArchiveKind())
  {
    forall n | IsDump(n) ensures !IsArchive(n) {
      DumpsAreNotArchives(n);
    }
  }

  /** The files of one kind are those of `times`. */
  ghost predicate Holds(files: set<string>, k: Kind, times: set<int>) {
    && (forall t :: t in times ==> k.writable(t))
    && Lists(files, k.isManaged, times, k.name)
  }

  lemma HoldsPut(files: set<string>, k: Kind, times: set<int>, t: int)
    requires Holds(files, k, times) && WellNamed(k) && k.writable(t)
    ensures Holds(files + {k.name(t)}, k, times + {t})
  {
    ListsPut(files, k.isManaged, times, k.name, k.name(t), t);
  }

  lemma FilterNext(s: seq<string>, i: nat, p: string -> bool)
    requires i < |s|
    ensures |Filter(s[..i + 1], p)| == |Filter(s[..i], p)| + if p(s[i]) then 1 else 0
  {
    assert s[..i + 1] == s[..i] + [s[i]];
    FilterSnoc(s[..i], s[i], p);
  }

  method CountManaged(listing: seq<string>, isManaged: string -> bool) returns (count: nat)
    ensures count == |Filter(listing, isManaged)|
  {
    count := 0;
    for i := 0 to |listing|
      invariant count == |Filter(listing[..i], isManaged)|
    {
      FilterNext(listing, i, isManaged);
      if isManaged(listing[i]) {
        count := count + 1;
      }
    }
    assert listing[..|listing|] == listing;
  }

  class Directory {
    const dumpKind: Kind
    const archiveKind: Kind
    var files: set<string>
    ghost var history: History

    /** The managed files are the ones recorded in the history; other files may lie beside them. */
    ghost predicate Valid()
      reads this
    {
      && WellNamed(dumpKind) && WellNamed(archiveKind) && Apart(dumpKind, archiveKind)
      && Holds(files, dumpKind, history.shelf.dumps) && Holds(files, archiveKind, history.shelf.archives)
    }

    constructor (foreign: set<string>)
      requires forall n :: n in foreign ==> !IsDump(n) && !IsArchive(n)
      ensures Valid() && history == EMPTY && files == foreign
      ensures dumpKind == DumpKind() && archiveKind == ArchiveKind()
    {
      dumpKind, archiveKind, files, history := DumpKind(), ArchiveKind(), foreign, EMPTY;
      DumpsWellNamed();
      ArchivesWellNamed();
      KindsApart();
    }

    method PutDump(at: int)
      requires Valid() && dumpKind.writable(at)
      modifies this
      ensures Valid() && files == old(files) + {dumpKind.name(at)}
      ensures history == Arrive(old(history), at, true, false)
    {
      HoldsPut(files, dumpKind, history.shelf.dumps, at);
      ListsOther(files, files + {dumpKind.name(at)}, archiveKind.isManaged, history.shelf.archives, archiveKind.name);
      files, history := files + {dumpKind.name(at)}, Arrive(history, at, true, false);
    }

    method PutArchive(at: int)
      requires Valid() && archiveKind.writable(at)
      modifies this
      ensures Valid() && files == old(files) + {archiveKind.name(at)}
      ensures history == Arrive(old(history), at, false, true)
    {
      HoldsPut(files, archiveKind, history.shelf.archives, at);
      ListsOther(files, files + {archiveKind.name(at)}, dumpKind.isManaged, history.shelf.dumps, dumpKind.name);
      files, history := files + {archiveKind.name(at)}, Arrive(history, at, false, true);
    }

    /** The names in the directory, in no particular order. */
    method ReadDir() returns (listing: seq<string>)
      ensures IsListing(listing, files)
    {
      listing := [];
      var rest := files;
      while rest != {}
        invariant rest <= files && IsListing(listing, files - rest)
        decreases |rest|
      {
        var n :| n in rest;
        listing, rest := listing + [n], rest - {n};
      }
      assert files - {} == files;
    }

    /** Unlink what retention selects, skipping what fails. */
    method PruneDir(isManaged: string -> bool, keep: int, f: Failures, ghost times: set<int>, ghost name: int -> string)
      requires Lists(files, isManaged, times, name)
      modifies this`files
      ensures Lists(files, isManaged, Prune(times, keep, Stuck(name, f)), name)
      ensures forall n :: !isManaged(n) ==> (n in files <==> n in old(files))
    {
      if f.unreadable {
        assert Prune(times, keep, Stuck(name, f)) == times;
        return;
      }
      var listing := ReadDir();
      var doomed := SelectForDeletion(listing, keep, isManaged);
      var i := 0;
      while i < |doomed|
        invariant 0 <= i <= |doomed|
        invariant forall n :: n in files <==> n in old(files) && (n in doomed[..i] ==> n in f.stuck)
      {
        assert doomed[..i + 1] == doomed[..i] + [doomed[i]];
        if doomed[i] !in f.stuck {
          files := files - {doomed[i]};
        }
        i := i + 1;
      }
      assert doomed[..i] == doomed;
      ListsPruned(listing, old(files), isManaged, times, name, keep, f, files);
    }

    /** Prune both kinds, dumps first. */
    method PruneBoth(keep: int, f: Failures)
      requires Valid()
      modifies this
      ensures Valid()
      ensures history == Pruned(old(history), keep, Stuck(dumpKind.name, f), Stuck(archiveKind.name, f))
      ensures forall n :: !dumpKind.isManaged(n) && !archiveKind.isManaged(n) ==> (n in files <==> n in old(files))
    {
      PruneDir(dumpKind.isManaged, keep, f, history.shelf.dumps, dumpKind.name);
      ListsOther(old(files), files, archiveKind.isManaged, history.shelf.archives, archiveKind.name);
      label Dumps:
      PruneDir(archiveKind.isManaged, keep, f, history.shelf.archives, archiveKind.name);
      ListsOther(old@Dumps(files), files, dumpKind.isManaged, Prune(history.shelf.dumps, keep, Stuck(dumpKind.name, f)), dumpKind.name);
      history := Pruned(history, keep, Stuck(dumpKind.name, f), Stuck(archiveKind.name, f));
    }

    /** How many dumps there are. */
    method Count() returns (count: nat)
      requires Valid()
      ensures count == |history.shelf.dumps|
    {
      var listing := ReadDir();
      count := CountManaged(listing, dumpKind.isManaged);
      var sorted := Sort(Filter(listing, dumpKind.isManaged), Itself);
      SortedRanks(listing, files, dumpKind.isManaged, history.shelf.dumps, dumpKind.name, sorted);
      SizeIsCount(sorted, history.shelf.dumps, dumpKind.name);
    }
  }

  // ---- the daemon ------------------------------------------------------------------------------

  class BackupServer {
    const keep: int
    const archiving: bool
    const dir: Directory
    const mirror: Directory?
    var count: nat
    var failed: bool

    ghost predicate Valid()
      reads this, dir, mirror
    {
      dir != mirror && dir.Valid() && (mirror != null ==> mirror.Valid())
    }

    constructor (keep: int, archiving: bool, dir: Directory, mirror: Directory?)
      requires dir != mirror && dir.Valid() && (mirror != null ==> mirror.Valid())
      ensures Valid() && this.keep == keep && this.archiving == archiving && this.dir == dir && this.mirror == mirror
    {
      this.keep, this.archiving, this.dir, this.mirror := keep, archiving, dir, mirror;
      count, failed := 0, false;
    }

    /** The archive a run makes, when one is configured. */
    function Archived(archive: Outcome): Outcome {
      if archiving then archive else Nothing
    }

    /** Write a run's files into a directory. */
    method Write(d: Directory, at: int, dump: bool, archive: bool)
      requires d.Valid() && d.dumpKind.writable(at) && d.archiveKind.writable(at)
      modifies d
      ensures d.Valid() && d.history == Arrive(old(d.history), at, dump, archive)
    {
      if dump {
        d.PutDump(at);
      }
      if archive {
        d.PutArchive(at);
      }
    }

    predicate Writable(d: Directory, at: int) {
      d.dumpKind.writable(at) && d.archiveKind.writable(at)
    }

    /** Does the directory name its files as the service does? */
    ghost predicate IsStandard(d: Directory) {
      d.dumpKind == DumpKind() && d.archiveKind == ArchiveKind()
    }

    lemma StandardIsWritable(d: Directory, second: int)
      requires IsStandard(d) && IsTimeValue(second)
      ensures Writable(d, Position(second))
    {
      NamesOfTime(second);
    }

    /** A run as one directory sees it. */
    function RunIn(d: Directory, at: int, dump: Outcome, archive: Outcome, f: Failures): Run {
      Run(at, dump, archive, Stuck(d.dumpKind.name, f), Stuck(d.archiveKind.name, f))
    }

    /** A complete run: write here, copy there, prune here, prune there. */
    method Finish(at: int, archive: Outcome, dumpCopy: Outcome, archiveCopy: Outcome, f: Failures, mirrorFailures: Failures)
      requires Valid() && Writable(dir, at) && (mirror != null ==> Writable(mirror, at))
      modifies dir, mirror
      ensures Valid()
      ensures dir.history == StepMirror(old(dir.history), RunIn(dir, at, Complete, archive, f), keep)
      ensures mirror != null ==>
        mirror.history == StepMirror(old(mirror.history), RunIn(mirror, at, dumpCopy, archiveCopy, mirrorFailures), keep)
    {
      Write(dir, at, true, !archive.Nothing?);
      if mirror != null {
        Write(mirror, at, !dumpCopy.Nothing?, !archiveCopy.Nothing?);
      }
      dir.PruneBoth(keep, f);
      if mirror != null {
        mirror.PruneBoth(keep, mirrorFailures);
      }
    }

    /** One cycle whose files stand at the place `at`, given what fails in it. */
    method RunAt(at: int, dump: Outcome, archive: Outcome, dumpCopy: Outcome, archiveCopy: Outcome,
                 f: Failures, mirrorFailures: Failures)
      requires Valid() && Writable(dir, at) && (mirror != null ==> Writable(mirror, at))
      modifies this, dir, mirror
      ensures Valid()
      ensures dir.history == StepPrimary(old(dir.history), RunIn(dir, at, dump, Archived(archive), f), keep)
      ensures mirror != null && !dump.Complete? ==> mirror.history == old(mirror.history)
      ensures mirror != null && dump.Complete? ==>
        mirror.history == StepMirror(old(mirror.history), RunIn(mirror, at, dumpCopy,
                            if Archived(archive).Complete? then archiveCopy else Nothing, mirrorFailures), keep)
      ensures failed == !dump.Complete? && count == |dir.history.shelf.dumps|
    {
      failed := !dump.Complete?;
      if failed {
        Write(dir, at, dump.Partial?, false);
      } else {
        Finish(at, Archived(archive), dumpCopy, if Archived(archive).Complete? then archiveCopy else Nothing, f, mirrorFailures);
      }
      count := dir.Count();
    }

    /** One backup and prune cycle at `now` milliseconds, any instant that a date can hold. */
    method RunOnce(now: int, dump: Outcome, archive: Outcome, dumpCopy: Outcome, archiveCopy: Outcome,
                   f: Failures, mirrorFailures: Failures)
      requires Valid() && IsStandard(dir) && (mirror != null ==> IsStandard(mirror))
      requires IsTimeValue(now / 1000)
      modifies this, dir, mirror
      ensures Valid()
      ensures dir.history == StepPrimary(old(dir.history), RunIn(dir, Position(now / 1000), dump, Archived(archive), f), keep)
      ensures mirror != null && !dump.Complete? ==> mirror.history == old(mirror.history)
      ensures mirror != null && dump.Complete? ==>
        mirror.history == StepMirror(old(mirror.history), RunIn(mirror, Position(now / 1000), dumpCopy,
                            if Archived(archive).Complete? then archiveCopy else Nothing, mirrorFailures), keep)
      ensures failed == !dump.Complete? && count == |dir.history.shelf.dumps|
    {
      StandardIsWritable(dir, now / 1000);
      if mirror != null {
        StandardIsWritable(mirror, now / 1000);
      }
      RunAt(Position(now / 1000), dump, archive, dumpCopy, archiveCopy, f, mirrorFailures);
    }
  }
}
