/** What a directory of dumps and archives holds after any sequence of backup runs. */
module Retention {
  import opened Seqs

  /**
   The dumps (or archives) newer than `t`. A file is represented by the place of its name
   among all names, which in the years 0 to 9999 is the second it was made.
   */
  function Newer(s: set<int>, t: int): set<int> {
    set u | u in s && u > t
  }

  /** What pruning leaves: the files with fewer than `keep` newer ones, and those that cannot be unlinked. */
  function Prune(s: set<int>, keep: int, stuck: int -> bool): set<int> {
    set t | t in s && (|Newer(s, t)| < keep || stuck(t))
  }

  datatype Shelf = Shelf(dumps: set<int>, archives: set<int>)

  // ---- counting ------------------------------------------------------------------------

  lemma {:induction false} SubsetSize(a: set<int>, b: set<int>)
    requires a <= b
    ensures |a| <= |b|
    ensures a != b ==> |a| < |b|
    decreases |b|
  {
    if a != {} {
      var x := Pick(a);
      SubsetSize(a - {x}, b - {x});
      if a != b {
        assert a - {x} != b - {x} by {
          assert a == a - {x} + {x} && b == b - {x} + {x};
        }
      }
    }
  }

  /** A later file has no more newer ones, and fewer if it counts itself. */
  lemma NewerShrinks(s: set<int>, t: int, u: int)
    requires t <= u
    ensures |Newer(s, u)| <= |Newer(s, t)|
    ensures t < u && u in s ==> |Newer(s, u)| < |Newer(s, t)|
  {
    if t < u && u in s {
      assert u in Newer(s, t) && u !in Newer(s, u);
    }
    SubsetSize(Newer(s, u), Newer(s, t));
  }

  lemma NewerGrows(a: set<int>, b: set<int>, t: int)
    requires a <= b
    ensures |Newer(a, t)| <= |Newer(b, t)|
  {
    SubsetSize(Newer(a, t), Newer(b, t));
  }

  /** Pruning never takes the count of newer files below `keep`. */
  lemma {:induction false} PruneKeepsCount(s: set<int>, keep: int, stuck: int -> bool, t: int)
    requires |Newer(s, t)| >= keep
    ensures |Newer(Prune(s, keep, stuck), t)| >= keep
    decreases |Newer(s, t)|
  {
    var p := Prune(s, keep, stuck);
    if m :| m in Newer(s, t) && |Newer(s, m)| >= keep {
      NewerShrinks(s, t, m);
      PruneKeepsCount(s, keep, stuck, m);
      NewerShrinks(p, t, m);
    } else {
      assert Newer(s, t) <= Newer(p, t);
      SubsetSize(Newer(s, t), Newer(p, t));
    }
  }

  // ---- the invariant ----------------------------------------------------------------------

  /** Every one of `all` is present, or at least `keep` newer dumps are. */
  ghost predicate Covered(all: set<int>, present: set<int>, dumps: set<int>, keep: int) {
    forall v :: v in all ==> v in present || |Newer(dumps, v)| >= keep
  }

  lemma CoveredGrows(all: set<int>, present: set<int>, dumps: set<int>, keep: int, more: set<int>)
    requires Covered(all, present, dumps, keep) && dumps <= more
    ensures Covered(all, present, more, keep)
  {
    forall v | v in all ensures v in present || |Newer(more, v)| >= keep {
      NewerGrows(dumps, more, v);
    }
  }

  /** Pruning the dumps keeps what they cover. */
  lemma CoveredAfterPrune(all: set<int>, present: set<int>, dumps: set<int>, keep: int, stuck: int -> bool)
    requires Covered(all, present, dumps, keep)
    ensures Covered(all, present, Prune(dumps, keep, stuck), keep)
    ensures present == dumps ==> Covered(all, Prune(dumps, keep, stuck), Prune(dumps, keep, stuck), keep)
  {
    forall v | v in all
      ensures v in present || |Newer(Prune(dumps, keep, stuck), v)| >= keep
      ensures present == dumps ==> v in Prune(dumps, keep, stuck) || |Newer(Prune(dumps, keep, stuck), v)| >= keep
    {
      if |Newer(dumps, v)| >= keep {
        PruneKeepsCount(dumps, keep, stuck, v);
      }
    }
  }

  /** Pruning the archives loses only those with `keep` newer dumps. */
  lemma CoveredAfterPruningArchives(written: set<int>, archives: set<int>, dumps: set<int>, keep: int, stuck: int -> bool)
    requires Covered(archives, dumps, dumps, keep) && Covered(written, archives, dumps, keep)
    ensures Covered(written, Prune(archives, keep, stuck), dumps, keep)
  {
    forall v | v in written ensures v in Prune(archives, keep, stuck) || |Newer(dumps, v)| >= keep {
      if v in archives && |Newer(archives, v)| >= keep {
        if w :| w in Newer(archives, v) && w !in dumps {
          NewerShrinks(dumps, v, w);
        } else {
          assert Newer(archives, v) <= Newer(dumps, v);
          SubsetSize(Newer(archives, v), Newer(dumps, v));
        }
      }
    }
  }

  /** A directory with the times of every dump and archive ever put in it. */
  datatype History = History(shelf: Shelf, dumped: set<int>, archived: set<int>)

  ghost predicate Sound(h: History, keep: int) {
    && Covered(h.dumped, h.shelf.dumps, h.shelf.dumps, keep)
    && Covered(h.shelf.archives, h.shelf.dumps, h.shelf.dumps, keep)
    && Covered(h.archived, h.shelf.archives, h.shelf.dumps, keep)
  }

  /** Files of one instant arrive in a directory. */
  function Arrive(h: History, at: int, dump: bool, archive: bool): History {
    var dumped, archived := if dump then {at} else {}, if archive then {at} else {};
    History(Shelf(h.shelf.dumps + dumped, h.shelf.archives + archived), h.dumped + dumped, h.archived + archived)
  }

  function Pruned(h: History, keep: int, dumpStuck: int -> bool, archiveStuck: int -> bool): History {
    h.(shelf := Shelf(Prune(h.shelf.dumps, keep, dumpStuck), Prune(h.shelf.archives, keep, archiveStuck)))
  }

  lemma ArrivalSound(h: History, at: int, dump: bool, archive: bool, keep: int)
    requires Sound(h, keep) && (archive ==> dump)
    ensures Sound(Arrive(h, at, dump, archive), keep)
  {
    var dumps := Arrive(h, at, dump, archive).shelf.dumps;
    CoveredGrows(h.dumped, h.shelf.dumps, h.shelf.dumps, keep, dumps);
    CoveredGrows(h.shelf.archives, h.shelf.dumps, h.shelf.dumps, keep, dumps);
    CoveredGrows(h.archived, h.shelf.archives, h.shelf.dumps, keep, dumps);
  }

  lemma PruneSound(h: History, keep: int, dumpStuck: int -> bool, archiveStuck: int -> bool)
    requires Sound(h, keep)
    ensures Sound(Pruned(h, keep, dumpStuck, archiveStuck), keep)
  {
    var dumps := Prune(h.shelf.dumps, keep, dumpStuck);
    CoveredAfterPrune(h.dumped, h.shelf.dumps, h.shelf.dumps, keep, dumpStuck);
    CoveredAfterPrune(h.shelf.archives, h.shelf.dumps, h.shelf.dumps, keep, dumpStuck);
    CoveredAfterPrune(h.archived, h.shelf.archives, h.shelf.dumps, keep, dumpStuck);
    CoveredAfterPruningArchives(h.archived, h.shelf.archives, dumps, keep, archiveStuck);
  }

  // ---- runs --------------------------------------------------------------------------------

  /** What a writer left at its path: the whole file, part of it, or nothing. */
  datatype Outcome = Complete | Partial | Nothing

  /** One run: how the dump and the storage archive went, and which files could not be unlinked. */
  datatype Run = Run(at: int, dump: Outcome, archive: Outcome, dumpStuck: int -> bool, archiveStuck: int -> bool)

  /** The backup directory: a failed dump ends the run, and nothing is pruned. */
  function StepPrimary(h: History, r: Run, keep: int): History {
    if !r.dump.Complete? then Arrive(h, r.at, r.dump.Partial?, false) else StepMirror(h, r, keep)
  }

  /** The mirror takes part in complete runs only: what came of each copy, then its own pruning. */
  function StepMirror(h: History, r: Run, keep: int): History {
    Pruned(Arrive(h, r.at, !r.dump.Nothing?, !r.archive.Nothing?), keep, r.dumpStuck, r.archiveStuck)
  }

  const EMPTY := History(Shelf({}, {}), {}, {})

  function RunPrimary(runs: seq<Run>, keep: int): History {
    if runs == [] then EMPTY else StepPrimary(RunPrimary(runs[..|runs| - 1], keep), runs[|runs| - 1], keep)
  }

  function RunMirror(runs: seq<Run>, keep: int): History {
    if runs == [] then EMPTY else StepMirror(RunMirror(runs[..|runs| - 1], keep), runs[|runs| - 1], keep)
  }

  lemma MirrorSound(h: History, r: Run, keep: int)
    requires Sound(h, keep) && (!r.archive.Nothing? ==> !r.dump.Nothing?)
    ensures Sound(StepMirror(h, r, keep), keep)
  {
    var dump, archive := !r.dump.Nothing?, !r.archive.Nothing?;
    ArrivalSound(h, r.at, dump, archive, keep);
    PruneSound(Arrive(h, r.at, dump, archive), keep, r.dumpStuck, r.archiveStuck);
  }

  lemma PrimarySound(h: History, r: Run, keep: int)
    requires Sound(h, keep)
    ensures Sound(StepPrimary(h, r, keep), keep)
  {
    if r.dump.Complete? {
      MirrorSound(h, r, keep);
    } else {
      ArrivalSound(h, r.at, r.dump.Partial?, false, keep);
    }
  }

  lemma {:induction false} RunPrimarySound(runs: seq<Run>, keep: int)
    ensures Sound(RunPrimary(runs, keep), keep)
  {
    if runs != [] {
      RunPrimarySound(runs[..|runs| - 1], keep);
      PrimarySound(RunPrimary(runs[..|runs| - 1], keep), runs[|runs| - 1], keep);
    }
  }

  lemma {:induction false} RunMirrorSound(runs: seq<Run>, keep: int)
    requires forall i :: 0 <= i < |runs| && !runs[i].archive.Nothing? ==> !runs[i].dump.Nothing?
    ensures Sound(RunMirror(runs, keep), keep)
  {
    if runs != [] {
      RunMirrorSound(runs[..|runs| - 1], keep);
      MirrorSound(RunMirror(runs[..|runs| - 1], keep), runs[|runs| - 1], keep);
    }
  }

  // ---- the theorems ---------------------------------------------------------------------------

  /** A dump among the newest `keep` in the directory. */
  predicate IsKept(shelf: Shelf, t: int, keep: int) {
    t in shelf.dumps && |Newer(shelf.dumps, t)| < keep
  }

  /**
   Retention never separates a kept dump from its archive: in every run of the service,
   whatever failed and whichever way the clock moved.
   */
  lemma KeptDumpsKeepTheirArchives(runs: seq<Run>, keep: int, t: int)
    requires IsKept(RunPrimary(runs, keep).shelf, t, keep) && t in RunPrimary(runs, keep).archived
    ensures t in RunPrimary(runs, keep).shelf.archives
  {
    RunPrimarySound(runs, keep);
  }

  /** The same of a mirror, when no archive is copied without its dump. */
  lemma MirroredDumpsKeepTheirArchives(runs: seq<Run>, keep: int, t: int)
    requires forall i :: 0 <= i < |runs| && !runs[i].archive.Nothing? ==> !runs[i].dump.Nothing?
    requires IsKept(RunMirror(runs, keep).shelf, t, keep) && t in RunMirror(runs, keep).archived
    ensures t in RunMirror(runs, keep).shelf.archives
  {
    RunMirrorSound(runs, keep);
  }

  lemma Least(s: set<int>) returns (m: int)
    requires s != {}
    ensures m in s && forall t :: t in s ==> m <= t
    decreases |s|
  {
    var x := Pick(s);
    m := x;
    if s != {x} {
      assert s - {x} != {} by {
        assert s == s - {x} + {x};
      }
      var y := Least(s - {x});
      m := if x < y then x else y;
    }
  }

  function NeverStuck(): int -> bool {
    (t: int) => false
  }

  ghost predicate UnlinksAll(stuck: int -> bool) {
    forall t :: !stuck(t)
  }

  lemma PruneWithoutLeast(s: set<int>, m: int, keep: int)
    requires m in s && forall t :: t in s ==> m <= t
    ensures var q := Prune(s - {m}, keep, NeverStuck()); Prune(s, keep, NeverStuck()) == if |s| <= keep then q + {m} else q
  {
    var rest := s - {m};
    assert Newer(s, m) == rest;
    forall t | t in rest ensures Newer(s, t) == Newer(rest, t) {
    }
  }

  lemma {:induction false} PruneSize(s: set<int>, keep: nat)
    ensures |Prune(s, keep, NeverStuck())| == if |s| < keep then |s| else keep
    decreases |s|
  {
    if s == {} {
      assert Prune(s, keep, NeverStuck()) == {};
    } else {
      var m := Least(s);
      PruneWithoutLeast(s, m, keep);
      PruneSize(s - {m}, keep);
    }
  }

  /** Pruning leaves exactly the newest min(keep, total). */
  lemma PruneLeavesNewest(s: set<int>, keep: nat)
    ensures |Prune(s, keep, NeverStuck())| == if |s| < keep then |s| else keep
    ensures forall k, x :: k in Prune(s, keep, NeverStuck()) && x in s - Prune(s, keep, NeverStuck()) ==> x < k
  {
    PruneSize(s, keep);
    var p := Prune(s, keep, NeverStuck());
    forall k, x | k in p && x in s - p ensures x < k {
      if k <= x {
        NewerShrinks(s, k, x);
      }
    }
  }

  /**
   After a run that completes and unlinks everything, the directory holds exactly the
   newest `keep` of all the dump files there have ever been, complete or not, each still
   with its archive if one was ever made.
   */
  lemma SuccessLeavesNewestEver(runs: seq<Run>, keep: int)
    requires runs != []
    requires runs[|runs| - 1].dump.Complete? && UnlinksAll(runs[|runs| - 1].dumpStuck)
    ensures var h := RunPrimary(runs, keep); h.shelf.dumps == Prune(h.dumped, keep, NeverStuck())
    ensures var h := RunPrimary(runs, keep); h.shelf.dumps * h.archived <= h.shelf.archives
  {
    var last, init := runs[|runs| - 1], RunPrimary(runs[..|runs| - 1], keep);
    RunPrimarySound(runs[..|runs| - 1], keep);
    var dumps, ever := init.shelf.dumps + {last.at}, init.dumped + {last.at};
    CoveredGrows(init.dumped, init.shelf.dumps, init.shelf.dumps, keep, dumps);
    DumpedContains(runs[..|runs| - 1], keep);
    PruneOfCovered(ever, dumps, keep);
    var left := Prune(dumps, keep, last.dumpStuck);
    assert left == Prune(dumps, keep, NeverStuck());
    forall t | t in left ensures |Newer(left, t)| < keep {
      NewerGrows(left, dumps, t);
    }
    RunPrimarySound(runs, keep);
  }

  lemma {:induction false} DumpedContains(runs: seq<Run>, keep: int)
    ensures RunPrimary(runs, keep).shelf.dumps <= RunPrimary(runs, keep).dumped
  {
    if runs != [] {
      DumpedContains(runs[..|runs| - 1], keep);
    }
  }

  /** Pruning all of history and pruning what is left of it agree. */
  lemma PruneOfCovered(all: set<int>, present: set<int>, keep: int)
    requires present <= all && Covered(all, present, present, keep)
    ensures Prune(all, keep, NeverStuck()) == Prune(present, keep, NeverStuck())
  {
    forall v | v in all
      ensures (|Newer(all, v)| < keep) == (v in present && |Newer(present, v)| < keep)
    {
      NewerGrows(present, all, v);
      if |Newer(present, v)| < keep {
        assert Newer(all, v) <= Newer(present, v) by {
          forall w | w in Newer(all, v) ensures w in present {
            NewerShrinks(present, v, w);
          }
        }
        assert Newer(all, v) == Newer(present, v);
      }
    }
  }

  /** A dump later than every other in the directory survives its own run. */
  lemma NewDumpIsKept(h: History, r: Run, keep: int)
    requires keep >= 1 && r.dump.Complete? && forall t :: t in h.shelf.dumps ==> t < r.at
    ensures r.at in StepPrimary(h, r, keep).shelf.dumps
  {
    assert Newer(h.shelf.dumps + {r.at}, r.at) == {};
  }

  // ---- complete dumps among the files that failed runs left ---------------------------------------

  /** The dumps that were written in full, and not overwritten in part since. */
  function CompleteDumps(runs: seq<Run>): set<int> {
    if runs == [] then {}
    else
      var before, last := CompleteDumps(runs[..|runs| - 1]), runs[|runs| - 1];
      match last.dump
      case Complete => before + {last.at}
      case Partial => before - {last.at}
      case Nothing => before
  }

  /** The dump files that failed runs left, and no later run completed. */
  function PartialDumps(runs: seq<Run>): set<int> {
    if runs == [] then {}
    else
      var before, last := PartialDumps(runs[..|runs| - 1]), runs[|runs| - 1];
      match last.dump
      case Complete => before - {last.at}
      case Partial => before + {last.at}
      case Nothing => before
  }

  lemma {:induction false} DumpsEverMade(runs: seq<Run>, keep: int)
    ensures RunPrimary(runs, keep).dumped == CompleteDumps(runs) + PartialDumps(runs)
    ensures CompleteDumps(runs) !! PartialDumps(runs)
  {
    if runs != [] {
      DumpsEverMade(runs[..|runs| - 1], keep);
    }
  }

  /** The last run completed, and everything it should have unlinked it did. */
  ghost predicate Succeeds(runs: seq<Run>) {
    runs != [] && runs[|runs| - 1].dump.Complete? && UnlinksAll(runs[|runs| - 1].dumpStuck)
  }

  /**
   A complete dump is in the directory after a successful run if and only if fewer than
   `keep` newer dump files were ever made, the leavings of failed runs included.
   */
  lemma CompleteDumpStaysExactlyIf(runs: seq<Run>, keep: int, t: int)
    requires Succeeds(runs) && t in CompleteDumps(runs)
    ensures t in RunPrimary(runs, keep).shelf.dumps <==>
              |Newer(CompleteDumps(runs), t)| + |Newer(PartialDumps(runs), t)| < keep
  {
    SuccessLeavesNewestEver(runs, keep);
    DumpsEverMade(runs, keep);
    NewerOfBoth(CompleteDumps(runs), PartialDumps(runs), t);
  }

  lemma NewerOfBoth(a: set<int>, b: set<int>, t: int)
    requires a !! b
    ensures |Newer(a + b, t)| == |Newer(a, t)| + |Newer(b, t)|
  {
    assert Newer(a + b, t) == Newer(a, t) + Newer(b, t) && Newer(a, t) !! Newer(b, t);
  }

  /** Of the newest complete dumps, all but the oldest are newer than it. */
  lemma NewerThanOldest(s: set<int>, keep: int, oldest: int)
    requires oldest in Prune(s, keep, NeverStuck()) && forall t :: t in Prune(s, keep, NeverStuck()) ==> oldest <= t
    ensures |Newer(s, oldest)| == |Prune(s, keep, NeverStuck())| - 1
  {
    var kept := Prune(s, keep, NeverStuck());
    PruneBelow(s, keep, oldest);
    assert kept == Newer(kept, oldest) + {oldest};
  }

  /**
   After a successful run all of the newest `keep` complete dumps are in the directory if
   and only if, of the files that failed runs left, no more are newer than the oldest of
   those dumps than there are dumps missing to make up `keep`.
   */
  lemma NewestCompleteStayExactlyIf(runs: seq<Run>, keep: int, oldest: int)
    requires Succeeds(runs)
    requires var kept := Prune(CompleteDumps(runs), keep, NeverStuck()); oldest in kept && forall t :: t in kept ==> oldest <= t
    ensures var kept := Prune(CompleteDumps(runs), keep, NeverStuck());
            kept <= RunPrimary(runs, keep).shelf.dumps <==> |Newer(PartialDumps(runs), oldest)| <= keep - |kept|
  {
    var complete, partial := CompleteDumps(runs), PartialDumps(runs);
    var kept := Prune(complete, keep, NeverStuck());
    NewerThanOldest(complete, keep, oldest);
    CompleteDumpStaysExactlyIf(runs, keep, oldest);
    if |Newer(partial, oldest)| <= keep - |kept| {
      forall t | t in kept ensures t in RunPrimary(runs, keep).shelf.dumps {
        NewerShrinks(complete, oldest, t);
        NewerShrinks(partial, oldest, t);
        CompleteDumpStaysExactlyIf(runs, keep, t);
      }
    }
  }

  /** A run whose dump goes as given, with nothing else of note. */
  function Dumping(at: int, dump: Outcome): Run {
    Run(at, dump, Nothing, NeverStuck(), NeverStuck())
  }

  lemma DumpsNext(runs: seq<Run>, at: int, dump: Outcome)
    ensures CompleteDumps(runs + [Dumping(at, dump)]) ==
              match dump case Complete => CompleteDumps(runs) + {at} case Partial => CompleteDumps(runs) - {at} case Nothing => CompleteDumps(runs)
    ensures PartialDumps(runs + [Dumping(at, dump)]) ==
              match dump case Complete => PartialDumps(runs) - {at} case Partial => PartialDumps(runs) + {at} case Nothing => PartialDumps(runs)
  {
    assert (runs + [Dumping(at, dump)])[..|runs|] == runs;
  }

  /** One complete dump, then two failed runs that left a part of theirs. */
  function OneOfThree(a: int, b: int, c: int): seq<Run> {
    [] + [Dumping(a, Complete)] + [Dumping(b, Partial)] + [Dumping(c, Partial)]
  }

  lemma OneOfThreeDumps(a: int, b: int, c: int)
    requires a < b < c
    ensures CompleteDumps(OneOfThree(a, b, c)) == {a} && PartialDumps(OneOfThree(a, b, c)) == {b, c}
  {
    DumpsNext([], a, Complete);
    DumpsNext([] + [Dumping(a, Complete)], b, Partial);
    DumpsNext([] + [Dumping(a, Complete)] + [Dumping(b, Partial)], c, Partial);
  }

  /** The next successful run of a service that keeps two unlinks the complete one. */
  lemma FailedRunsPushOut(a: int, b: int, c: int, d: int)
    requires a < b < c < d
    ensures var runs := OneOfThree(a, b, c) + [Dumping(d, Complete)];
            Succeeds(runs) && CompleteDumps(runs) == {a, d} && a !in RunPrimary(runs, 2).shelf.dumps
  {
    var runs := OneOfThree(a, b, c) + [Dumping(d, Complete)];
    OneOfThreeDumps(a, b, c);
    DumpsNext(OneOfThree(a, b, c), d, Complete);
    assert CompleteDumps(runs) == {a, d} && PartialDumps(runs) == {b, c};
    assert Newer({a, d}, a) == {d} && Newer({b, c}, a) == {b, c};
    CompleteDumpStaysExactlyIf(runs, 2, a);
  }

  // ---- exactly when a mirror separates a dump from its archive -----------------------------------

  /** Complete copies of complete runs, everything unlinked that should be. */
  function CopyBoth(at: int): Run {
    Run(at, Complete, Complete, NeverStuck(), NeverStuck())
  }

  function CopyEach(h: History, ats: seq<int>, keep: int): History {
    if ats == [] then h else StepMirror(CopyEach(h, ats[..|ats| - 1], keep), CopyBoth(ats[|ats| - 1]), keep)
  }

  /** The files of one kind, as complete copies arrive. */
  function Fill(s: set<int>, ats: seq<int>, keep: int): set<int> {
    if ats == [] then s else Prune(Fill(s, ats[..|ats| - 1], keep) + {ats[|ats| - 1]}, keep, NeverStuck())
  }

  lemma {:induction false} CopiesFill(h: History, ats: seq<int>, keep: int)
    ensures CopyEach(h, ats, keep).shelf == Shelf(Fill(h.shelf.dumps, ats, keep), Fill(h.shelf.archives, ats, keep))
  {
    if ats != [] {
      CopiesFill(h, ats[..|ats| - 1], keep);
    }
  }

  /** Times that rise, all of them after those of `s`. */
  ghost predicate Later(s: set<int>, ats: seq<int>) {
    && (forall i, t :: 0 <= i < |ats| && t in s ==> t < ats[i])
    && (forall i, j :: 0 <= i < j < |ats| ==> ats[i] < ats[j])
  }

  lemma {:induction false} FillHolds(s: set<int>, ats: seq<int>, keep: int, u: int)
    requires u in Fill(s, ats, keep)
    ensures u in s || u in ats
  {
    if ats != [] {
      var init := ats[..|ats| - 1];
      if u != ats[|ats| - 1] {
        FillHolds(s, init, keep, u);
      }
    }
  }

  lemma NewerWith(s: set<int>, t: int, at: int)
    requires t < at && at !in s
    ensures |Newer(s + {at}, t)| == |Newer(s, t)| + 1
  {
    assert Newer(s + {at}, t) == Newer(s, t) + {at};
  }

  /** What is newer than a file that survives pruning survives too. */
  lemma PruneBelow(s: set<int>, keep: int, t: int)
    requires |Newer(s, t)| < keep
    ensures Newer(Prune(s, keep, NeverStuck()), t) == Newer(s, t)
  {
    forall u | u in Newer(s, t) ensures |Newer(s, u)| < keep {
      NewerShrinks(s, t, u);
    }
  }

  /** Each copy makes one more newer file, and a file stays until there are `keep` of them. */
  lemma {:induction false} FillKeeps(s: set<int>, ats: seq<int>, keep: int, t: int)
    requires t in s && Later(s, ats)
    ensures t in Fill(s, ats, keep) <==> ats == [] || |Newer(s, t)| + |ats| < keep
    ensures t in Fill(s, ats, keep) ==> |Newer(Fill(s, ats, keep), t)| == |Newer(s, t)| + |ats|
  {
    if ats != [] {
      var init, at := ats[..|ats| - 1], ats[|ats| - 1];
      var f := Fill(s, init, keep);
      assert Later(s, init);
      FillKeeps(s, init, keep, t);
      assert at !in f by {
        if at in f {
          FillHolds(s, init, keep, at);
        }
      }
      NewerWith(f, t, at);
      if t in f && |Newer(f + {at}, t)| < keep {
        PruneBelow(f + {at}, keep, t);
      }
    }
  }

  /** A kept dump whose archive is gone. */
  predicate IsSeparated(shelf: Shelf, t: int, keep: int) {
    IsKept(shelf, t, keep) && t !in shelf.archives
  }

  ghost predicate LaterThanAll(h: History, ats: seq<int>) {
    Later(h.shelf.dumps, ats) && Later(h.shelf.archives, ats)
  }

  /** How many complete copies separate a pair that is together now. */
  lemma SeparatedAfter(h: History, ats: seq<int>, keep: int, t: int)
    requires IsKept(h.shelf, t, keep) && t in h.shelf.archives && LaterThanAll(h, ats)
    ensures IsSeparated(CopyEach(h, ats, keep).shelf, t, keep) <==>
              |Newer(h.shelf.dumps, t)| + |ats| < keep <= |Newer(h.shelf.archives, t)| + |ats| && ats != []
  {
    CopiesFill(h, ats, keep);
    FillKeeps(h.shelf.dumps, ats, keep, t);
    FillKeeps(h.shelf.archives, ats, keep, t);
  }

  function Upcoming(from: int, n: nat): seq<int> {
    seq(n, i => from + i)
  }

  lemma SomeLater(h: History, n: nat) returns (ats: seq<int>)
    ensures |ats| == n && LaterThanAll(h, ats)
  {
    var top := 0;
    if h.shelf.dumps + h.shelf.archives != {} {
      top := Greatest(h.shelf.dumps + h.shelf.archives);
    }
    ats := Upcoming(top + 1, n);
    assert forall t :: t in h.shelf.dumps || t in h.shelf.archives ==> t in h.shelf.dumps + h.shelf.archives;
  }

  lemma Greatest(s: set<int>) returns (m: int)
    requires s != {}
    ensures m in s && forall t :: t in s ==> t <= m
    decreases |s|
  {
    var x := Pick(s);
    m := x;
    if s != {x} {
      assert s - {x} != {} by {
        assert s == s - {x} + {x};
      }
      var y := Greatest(s - {x});
      m := if x < y then y else x;
    }
  }

  /** Will complete copies alone ever separate the pair? */
  ghost predicate WillSeparate(h: History, keep: int, t: int) {
    exists ats :: LaterThanAll(h, ats) && IsSeparated(CopyEach(h, ats, keep).shelf, t, keep)
  }

  /**
   In any state of a mirror, a pair that is together now comes to be separated by later
   complete copies if and only if more archives than dumps are newer, and one more copy
   still leaves the dump kept.
   */
  lemma SeparatesExactlyIf(h: History, keep: int, t: int)
    requires IsKept(h.shelf, t, keep) && t in h.shelf.archives
    ensures WillSeparate(h, keep, t) <==>
              |Newer(h.shelf.archives, t)| > |Newer(h.shelf.dumps, t)| && |Newer(h.shelf.dumps, t)| + 1 < keep
  {
    var dumps, archives := |Newer(h.shelf.dumps, t)|, |Newer(h.shelf.archives, t)|;
    if archives > dumps && dumps + 1 < keep {
      var ats := SomeLater(h, keep - 1 - dumps);
      SeparatedAfter(h, ats, keep, t);
    }
    if WillSeparate(h, keep, t) {
      var ats :| LaterThanAll(h, ats) && IsSeparated(CopyEach(h, ats, keep).shelf, t, keep);
      SeparatedAfter(h, ats, keep, t);
    }
  }

  /** Every file could be unlinked. */
  ghost predicate AllUnlink(runs: seq<Run>) {
    forall i :: 0 <= i < |runs| ==> UnlinksAll(runs[i].dumpStuck) && UnlinksAll(runs[i].archiveStuck)
  }

  lemma FewNewerArchives(runs: seq<Run>, keep: int, t: int)
    requires AllUnlink(runs) && t in RunMirror(runs, keep).shelf.archives
    ensures |Newer(RunMirror(runs, keep).shelf.archives, t)| < keep
  {
    var last, before := runs[|runs| - 1], RunMirror(runs[..|runs| - 1], keep).shelf.archives;
    var archives := before + if last.archive.Nothing? then {} else {last.at};
    assert RunMirror(runs, keep).shelf.archives == Prune(archives, keep, last.archiveStuck);
    NewerGrows(RunMirror(runs, keep).shelf.archives, archives, t);
  }

  /**
   In every reachable state of a mirror whose unlinks succeed, a dump that is kept with its
   archive will be separated from it by later complete copies if and only if the directory
   lists more newer archives than newer dumps.
   */
  lemma MirrorSeparatesExactlyIf(runs: seq<Run>, keep: int, t: int)
    requires AllUnlink(runs)
    requires IsKept(RunMirror(runs, keep).shelf, t, keep) && t in RunMirror(runs, keep).shelf.archives
    ensures WillSeparate(RunMirror(runs, keep), keep, t) <==>
              |Newer(RunMirror(runs, keep).shelf.archives, t)| > |Newer(RunMirror(runs, keep).shelf.dumps, t)|
  {
    FewNewerArchives(runs, keep, t);
    SeparatesExactlyIf(RunMirror(runs, keep), keep, t);
  }

  // ---- such states are reached -----------------------------------------------------------------

  function Copies(at: int, dump: Outcome): Run {
    Run(at, dump, Complete, NeverStuck(), NeverStuck())
  }

  lemma MirrorStep(runs: seq<Run>, r: Run, keep: int)
    ensures RunMirror(runs + [r], keep) == StepMirror(RunMirror(runs, keep), r, keep)
  {
    assert (runs + [r])[..|runs|] == runs;
  }

  lemma PruneTwoOfThree(a: int, b: int, c: int)
    requires a < b < c
    ensures Prune({a, b, c}, 2, NeverStuck()) == {b, c}
    ensures Prune({a, b}, 2, NeverStuck()) == {a, b} && Prune({a}, 2, NeverStuck()) == {a}
    ensures Prune({a, c}, 2, NeverStuck()) == {a, c}
  {
    assert Newer({a, b, c}, a) == {b, c} && Newer({a, b, c}, b) == {c} && Newer({a, b, c}, c) == {};
    assert Newer({a, b}, a) == {b} && Newer({a, b}, b) == {} && Newer({a}, a) == {};
    assert Newer({a, c}, a) == {c} && Newer({a, c}, c) == {};
  }

  /**
   A mirror that misses one dump but takes its archive prunes the archive of an older
   dump that it keeps.
   */
  lemma MirrorCanSeparate(a: int, b: int, c: int)
    requires a < b < c
    ensures var h := RunMirror([Copies(a, Complete)] + [Copies(b, Nothing)] + [Copies(c, Complete)], 2);
            a in h.archived && IsSeparated(h.shelf, a, 2)
  {
    var r, s, t := Copies(a, Complete), Copies(b, Nothing), Copies(c, Complete);
    PruneTwoOfThree(a, b, c);
    assert [] + [r] == [r];
    MirrorStep([], r, 2);
    assert RunMirror([r], 2) == History(Shelf({a}, {a}), {a}, {a});
    MirrorStep([r], s, 2);
    assert {a} + {b} == {a, b};
    assert RunMirror([r] + [s], 2) == History(Shelf({a}, {a, b}), {a}, {a, b});
    MirrorStep([r] + [s], t, 2);
    assert {a, b} + {c} == {a, b, c} && {a} + {c} == {a, c};
    assert Newer({a, c}, a) == {c};
  }
}
