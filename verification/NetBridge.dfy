/**
 The pg_net drain protocol. One step is what runs between two awaits, so steps of
 different passes, notifications and inserts interleave freely.
 */
module NetBridges {
  import opened Seqs

  type Id = nat

  /**
   Where an active `drain` is suspended. The store reads the queue at some moment of the
   load, and its answer arrives at a later one.
   */
  datatype Pass =
    | Loading
    | Loaded(rest: seq<Id>)
    | Working(rest: seq<Id>)
    | Fetching(id: Id, rest: seq<Id>)
    | Completing(id: Id, rest: seq<Id>)

  /**
   `enqueued` is every id ever inserted, in order of arrival, and `covered` how many
   of them had arrived at the last call of `drain`; `completed` are the rows that left the
   queue, and `answered` those whose response row was written.
   */
  datatype State = State(
    draining: bool, drainAgain: bool, passes: seq<Pass>,
    queue: seq<Id>, fetched: seq<Id>, completed: set<Id>, answered: set<Id>,
    enqueued: seq<Id>, covered: nat)

  const INITIAL: State := State(false, false, [], [], [], {}, {}, [], 0)

  datatype Event =
    | Enqueue(id: Id)
    | CallDrain
    /**
     Pass `i` runs to its next await, or the store reads the queue for it; `ok` is whether
     the load or the delete it waited for succeeded, and `recorded` whether the insert of
     the response before a delete did.
     */
    | Resume(i: nat, ok: bool, recorded: bool)

  /** The queue table in `ORDER BY id` order. */
  function Insert(queue: seq<Id>, id: Id): seq<Id> {
    if queue == [] || id <= queue[0] then [id] + queue else [queue[0]] + Insert(queue[1..], id)
  }

  function Drain(s: State): State {
    var t := s.(covered := |s.enqueued|);
    if s.draining then t.(drainAgain := true)
    else t.(draining := true, passes := s.passes + [Loading])
  }

  function EndPass(s: State, i: nat): State
    requires i < |s.passes|
  {
    var t := s.(passes := s.passes[..i] + s.passes[i + 1..], draining := false);
    if s.drainAgain then Drain(t.(drainAgain := false)) else t
  }

  function ResumePass(s: State, i: nat, ok: bool, recorded: bool): State
    requires i < |s.passes|
  {
    match s.passes[i]
    case Loading => if ok then s.(passes := s.passes[i := Loaded(s.queue)]) else EndPass(s, i)
    case Loaded(rest) => if ok then s.(passes := s.passes[i := Working(rest)]) else EndPass(s, i)
    case Working(rest) =>
      if rest == [] then EndPass(s, i)
      else s.(passes := s.passes[i := Fetching(rest[0], rest[1..])], fetched := s.fetched + [rest[0]])
    case Fetching(id, rest) => s.(passes := s.passes[i := Completing(id, rest)])
    case Completing(id, rest) =>
      var t := s.(passes := s.passes[i := Working(rest)], answered := if recorded then s.answered + {id} else s.answered);
      if ok then t.(queue := Without(s.queue, id), completed := s.completed + {id}) else t
  }

  /** An id is inserted once; only an active pass can resume. */
  predicate Enabled(s: State, e: Event) {
    match e
    case Enqueue(id) => id !in s.enqueued
    case CallDrain => true
    case Resume(i, _, _) => i < |s.passes|
  }

  function Step(s: State, e: Event): State
    requires Enabled(s, e)
  {
    match e
    case Enqueue(id) => s.(queue := Insert(s.queue, id), enqueued := s.enqueued + [id])
    case CallDrain => Drain(s)
    case Resume(i, ok, recorded) => ResumePass(s, i, ok, recorded)
  }

  predicate IsRun(s: State, events: seq<Event>)
    decreases |events|
  {
    events == [] || (Enabled(s, events[0]) && IsRun(Step(s, events[0]), events[1..]))
  }

  function Run(s: State, events: seq<Event>): State
    requires IsRun(s, events)
    decreases |events|
  {
    if events == [] then s else Run(Step(s, events[0]), events[1..])
  }

  /** A run begins with its first event. */
  lemma RunCons(s: State, e: Event, more: seq<Event>)
    requires Enabled(s, e) && IsRun(Step(s, e), more)
    ensures IsRun(s, [e] + more) && Run(s, [e] + more) == Run(Step(s, e), more)
  {
    assert ([e] + more)[1..] == more;
  }

  lemma InsertNext(queue: seq<Id>, i: nat, id: Id)
    requires i < |queue| && queue[i] < id
    ensures queue[..i] + Insert(queue[i..], id) == queue[..i + 1] + Insert(queue[i + 1..], id)
  {
    assert queue[i..][1..] == queue[i + 1..];
    assert Insert(queue[i..], id) == [queue[i]] + Insert(queue[i + 1..], id);
    assert queue[..i + 1] == queue[..i] + [queue[i]];
  }

  /** Where an id goes in the queue's order. */
  method PlaceOf(queue: seq<Id>, id: Id) returns (i: nat)
    ensures i <= |queue| && Insert(queue, id) == queue[..i] + [id] + queue[i..]
  {
    i := 0;
    while i < |queue| && queue[i] < id
      invariant i <= |queue| && Insert(queue, id) == queue[..i] + Insert(queue[i..], id)
    {
      InsertNext(queue, i, id);
      i := i + 1;
    }
    assert Insert(queue[i..], id) == [id] + queue[i..];
  }

  /** The protocol as it runs: the two flags, and the pass being served. */
  class NetBridge {
    var draining: bool
    var drainAgain: bool
    var passes: seq<Pass>
    var queue: seq<Id>
    var fetched: seq<Id>
    var completed: set<Id>
    var answered: set<Id>
    ghost var enqueued: seq<Id>
    ghost var covered: nat

    ghost function Now(): State
      reads this
    {
      State(draining, drainAgain, passes, queue, fetched, completed, answered, enqueued, covered)
    }

    constructor ()
      ensures Now() == INITIAL
    {
      draining, drainAgain, passes, queue, fetched, completed, answered, enqueued, covered := false, false, [], [], [], {}, {}, [], 0;
    }

    /** A row is inserted into the queue table. */
    method Receive(id: Id)
      requires id !in enqueued
      modifies this
      ensures Now() == Step(old(Now()), Enqueue(id))
    {
      var i := PlaceOf(queue, id);
      queue := queue[..i] + [id] + queue[i..];
      enqueued := enqueued + [id];
    }

    /** The synchronous part of `drain()`, up to its first await. */
    method Drain()
      modifies this
      ensures Now() == Step(old(Now()), CallDrain)
    {
      covered := |enqueued|;
      if draining {
        drainAgain := true;
        return;
      }
      draining := true;
      passes := passes + [Loading];
    }

    /** The `finally` of `drain`. */
    method Finish(i: nat)
      requires i < |passes|
      modifies this
      ensures Now() == EndPass(old(Now()), i)
    {
      passes := passes[..i] + passes[i + 1..];
      draining := false;
      if drainAgain {
        drainAgain := false;
        Drain();
      }
    }

    method Continue(i: nat, ok: bool, recorded: bool)
      requires i < |passes|
      modifies this
      ensures Now() == Step(old(Now()), Resume(i, ok, recorded))
    {
      match passes[i]
      case Loading =>
        if !ok {
          Finish(i);
        } else {
          passes := passes[i := Loaded(queue)];
        }
      case Loaded(rest) =>
        if !ok {
          Finish(i);
        } else {
          passes := passes[i := Working(rest)];
        }
      case Working(rest) =>
        if rest == [] {
          Finish(i);
        } else {
          passes := passes[i := Fetching(rest[0], rest[1..])];
          fetched := fetched + [rest[0]];
        }
      case Fetching(id, rest) =>
        passes := passes[i := Completing(id, rest)];
      case Completing(id, rest) =>
        if recorded {
          answered := answered + {id};
        }
        if ok {
          completed := completed + {id};
          queue := Without(queue, id);
        }
        passes := passes[i := Working(rest)];
    }
  }

  // ---- one pass at a time -------------------------------------------------------------

  /** At most one pass, exactly while draining; a repeat is only owed while draining. */
  predicate OnePass(s: State) {
    |s.passes| == (if s.draining then 1 else 0) && (s.drainAgain ==> s.draining)
  }

  lemma StepOnePass(s: State, e: Event)
    requires OnePass(s) && Enabled(s, e)
    ensures OnePass(Step(s, e))
  {
  }

  // ---- nothing is lost -----------------------------------------------------------------

  /** The ids the active pass will still fetch. */
  function Remaining(s: State): seq<Id>
    requires |s.passes| > 0
  {
    match s.passes[0]
    case Loading => s.queue
    case Loaded(rest) => rest
    case Working(rest) => rest
    case Fetching(_, rest) => rest
    case Completing(_, rest) => rest
  }

  /**
   Unfetched ids are still queued, and those that had arrived by the last call of
   `drain` are due: by the active pass, or by the repeat it owes.
   */
  ghost predicate NoneLost(s: State) {
    && OnePass(s)
    && s.covered <= |s.enqueued|
    && (forall id :: id in s.enqueued && id !in s.fetched ==> id in s.queue)
    && (forall k :: 0 <= k < s.covered && !s.drainAgain && s.enqueued[k] !in s.fetched ==>
          s.draining && s.enqueued[k] in Remaining(s))
  }

  lemma {:induction false} InsertHas(queue: seq<Id>, id: Id)
    ensures forall x :: x in Insert(queue, id) <==> x == id || x in queue
  {
    if queue != [] && queue[0] < id {
      InsertHas(queue[1..], id);
      assert queue == [queue[0]] + queue[1..];
    }
  }

  predicate IsLoad(p: Pass) {
    p.Loading? || p.Loaded?
  }

  /** A successful load, or any step that is not a load. */
  predicate LoadsSucceed(s: State, e: Event) {
    e.Resume? && e.i < |s.passes| && IsLoad(s.passes[e.i]) ==> e.ok
  }

  /** A pass that is past its fetch has recorded the fetch. */
  predicate CurrentFetched(s: State) {
    forall i :: 0 <= i < |s.passes| && (s.passes[i].Fetching? || s.passes[i].Completing?) ==> s.passes[i].id in s.fetched
  }

  lemma StepNoneLost(s: State, e: Event)
    requires NoneLost(s) && CurrentFetched(s) && Enabled(s, e) && LoadsSucceed(s, e)
    ensures NoneLost(Step(s, e)) && CurrentFetched(Step(s, e))
  {
    match e
    case Enqueue(id) => InsertHas(s.queue, id);
    case CallDrain =>
    case Resume(i, ok, recorded) =>
      match s.passes[i]
      case Loading =>
      case Loaded(_) =>
      case Working(rest) =>
        if rest != [] {
          assert rest == [rest[0]] + rest[1..];
        }
      case Fetching(_, _) =>
      case Completing(id, _) =>
  }

  // ---- nothing runs twice ----------------------------------------------------------------

  ghost predicate Ascending(ids: seq<Id>) {
    forall i, j :: 0 <= i < j < |ids| ==> ids[i] < ids[j]
  }

  /** The request whose fetch or completion the pass awaits. */
  function Current(s: State): set<Id> {
    if |s.passes| > 0 && (s.passes[0].Fetching? || s.passes[0].Completing?) then {s.passes[0].id} else {}
  }

  /** The rest of the snapshot the active pass works through. */
  function Rest(s: State): seq<Id> {
    if |s.passes| > 0 && !s.passes[0].Loading? then s.passes[0].rest else []
  }

  /** Each request is fetched at most once, completed after it was fetched, and queued until completed. */
  ghost predicate Once(s: State) {
    && OnePass(s)
    && Distinct(s.fetched) && Ascending(s.queue) && Ascending(Rest(s))
    && (forall x :: x in s.queue <==> x in s.enqueued && x !in s.completed)
    && (forall x :: x in s.fetched ==> x in s.enqueued)
    && (forall x :: x in s.fetched <==> x in s.completed || x in Current(s))
    && Current(s) !! s.completed
    && (forall x :: x in Rest(s) ==> x in s.queue && x !in s.fetched)
  }

  lemma AscendingCons(x: Id, ids: seq<Id>)
    ensures Ascending([x] + ids) <==> Ascending(ids) && forall y :: y in ids ==> x < y
  {
    var all := [x] + ids;
    if Ascending(ids) && forall y :: y in ids ==> x < y {
      forall i, j | 0 <= i < j < |all| ensures all[i] < all[j] {
        assert all[j] == ids[j - 1] && ids[j - 1] in ids;
        assert i > 0 ==> all[i] == ids[i - 1];
      }
    }
    assert forall i :: 0 < i < |all| ==> all[i] == ids[i - 1];
    if Ascending(all) {
      forall i, j | 0 <= i < j < |ids| ensures ids[i] < ids[j] {
        assert all[i + 1] < all[j + 1];
      }
      forall y | y in ids ensures x < y {
        var i :| 0 <= i < |ids| && ids[i] == y;
        assert all[0] < all[i + 1];
      }
    }
  }

  lemma AscendingSnoc(ids: seq<Id>, x: Id)
    ensures Ascending(ids + [x]) <==> Ascending(ids) && forall y :: y in ids ==> y < x
  {
    var all := ids + [x];
    if Ascending(ids) && forall y :: y in ids ==> y < x {
      forall i, j | 0 <= i < j < |all| ensures all[i] < all[j] {
        assert all[i] == ids[i] && ids[i] in ids;
        assert j < |ids| ==> all[j] == ids[j];
      }
    }
    assert forall i :: 0 <= i < |ids| ==> all[i] == ids[i];
    if Ascending(all) {
      forall i, j | 0 <= i < j < |ids| ensures ids[i] < ids[j] {
        assert all[i] < all[j];
      }
      forall y | y in ids ensures y < x {
        var i :| 0 <= i < |ids| && ids[i] == y;
        assert all[i] < all[|ids|];
      }
    }
  }

  lemma AscendingTail(ids: seq<Id>)
    requires Ascending(ids) && ids != []
    ensures Ascending(ids[1..]) && forall y :: y in ids[1..] ==> ids[0] < y
  {
    assert ids == [ids[0]] + ids[1..];
    AscendingCons(ids[0], ids[1..]);
  }

  lemma {:induction false} InsertAscending(queue: seq<Id>, id: Id)
    requires Ascending(queue) && id !in queue
    ensures Ascending(Insert(queue, id))
  {
    if queue != [] {
      AscendingTail(queue);
      assert queue == [queue[0]] + queue[1..];
      if queue[0] < id {
        InsertAscending(queue[1..], id);
        InsertHas(queue[1..], id);
        AscendingCons(queue[0], Insert(queue[1..], id));
      } else {
        AscendingCons(id, queue);
      }
    }
  }

  lemma {:induction false} WithoutAscending(queue: seq<Id>, id: Id)
    requires Ascending(queue)
    ensures Ascending(Without(queue, id))
  {
    if queue != [] {
      AscendingTail(queue);
      WithoutAscending(queue[1..], id);
      AscendingCons(queue[0], Without(queue[1..], id));
    }
  }

  /** The load or the delete succeeds; writing the response may fail. */
  predicate StoreSucceeds(e: Event) {
    e.Resume? ==> e.ok
  }

  lemma FetchNext(s: State, rest: seq<Id>, recorded: bool)
    requires Once(s) && s.passes == [Working(rest)] && rest != []
    ensures Once(ResumePass(s, 0, true, recorded))
  {
    var t := ResumePass(s, 0, true, recorded);
    AscendingTail(rest);
    assert rest == [rest[0]] + rest[1..];
    assert Rest(s) == rest && Rest(t) == rest[1..] && Current(s) == {} && Current(t) == {rest[0]};
    assert rest[0] in Rest(s);
    DistinctSnoc(s.fetched, rest[0]);
  }

  lemma DistinctSnoc(ids: seq<Id>, x: Id)
    requires Distinct(ids) && x !in ids
    ensures Distinct(ids + [x]) && forall y :: y in ids + [x] <==> y in ids || y == x
  {
  }

  lemma CompleteCurrent(s: State, id: Id, rest: seq<Id>, recorded: bool)
    requires Once(s) && s.passes == [Completing(id, rest)]
    ensures Once(ResumePass(s, 0, true, recorded))
  {
    var t := ResumePass(s, 0, true, recorded);
    WithoutAscending(s.queue, id);
    assert Rest(t) == rest == Rest(s) && Current(t) == {} && Current(s) == {id};
    assert t.completed == s.completed + {id} && id in s.fetched;
    assert forall x :: x in rest ==> x != id;
  }

  lemma EnqueueOnce(s: State, id: Id)
    requires Once(s) && id !in s.enqueued
    ensures Once(Step(s, Enqueue(id)))
  {
    InsertHas(s.queue, id);
    InsertAscending(s.queue, id);
    var t := Step(s, Enqueue(id));
    assert Rest(t) == Rest(s) && Current(t) == Current(s);
  }

  lemma LoadAll(s: State, recorded: bool)
    requires Once(s) && s.passes == [Loading]
    ensures Once(ResumePass(s, 0, true, recorded))
  {
    var t := ResumePass(s, 0, true, recorded);
    assert Rest(t) == s.queue && Current(t) == {} == Current(s);
  }

  lemma LoadedOnce(s: State, rest: seq<Id>, recorded: bool)
    requires Once(s) && s.passes == [Loaded(rest)]
    ensures Once(ResumePass(s, 0, true, recorded))
  {
    var t := ResumePass(s, 0, true, recorded);
    assert Rest(t) == Rest(s) && Current(t) == {} == Current(s);
  }

  lemma DrainOnce(s: State)
    requires Once(s)
    ensures Once(Drain(s))
  {
    assert Rest(Drain(s)) == Rest(s) && Current(Drain(s)) == Current(s);
  }

  lemma EndOnce(s: State)
    requires Once(s) && s.passes == [Working([])]
    ensures Once(EndPass(s, 0))
  {
    assert Rest(EndPass(s, 0)) == [] && Current(EndPass(s, 0)) == {} == Current(s);
  }

  lemma FetchedOnce(s: State, id: Id, rest: seq<Id>, recorded: bool)
    requires Once(s) && s.passes == [Fetching(id, rest)]
    ensures Once(ResumePass(s, 0, true, recorded))
  {
    var t := ResumePass(s, 0, true, recorded);
    assert Rest(t) == Rest(s) && Current(t) == Current(s);
  }

  lemma ResumeOnce(s: State, recorded: bool)
    requires Once(s) && |s.passes| > 0
    ensures Once(ResumePass(s, 0, true, recorded))
  {
    assert s.passes == [s.passes[0]];
    match s.passes[0]
    case Loading => LoadAll(s, recorded);
    case Loaded(rest) => LoadedOnce(s, rest, recorded);
    case Working(rest) => if rest != [] { FetchNext(s, rest, recorded); } else { EndOnce(s); }
    case Fetching(id, rest) => FetchedOnce(s, id, rest, recorded);
    case Completing(id, rest) => CompleteCurrent(s, id, rest, recorded);
  }

  lemma StepOnce(s: State, e: Event)
    requires Once(s) && Enabled(s, e) && StoreSucceeds(e)
    ensures Once(Step(s, e))
  {
    match e
    case Enqueue(id) => EnqueueOnce(s, id);
    case CallDrain => DrainOnce(s);
    case Resume(i, ok, recorded) => ResumeOnce(s, recorded);
  }

  /** When ids arrive in increasing order, they are fetched in increasing order. */
  ghost predicate InIdOrder(s: State) {
    Ascending(s.enqueued) ==>
      && Ascending(s.fetched)
      && (forall x, y :: x in s.fetched && y in s.queue && y !in s.fetched ==> x < y)
      && (forall x, y :: x in Rest(s) && y in s.queue && y !in s.fetched && y !in Rest(s) ==> x < y)
  }

  lemma FetchInOrder(s: State, rest: seq<Id>, recorded: bool)
    requires Once(s) && InIdOrder(s) && s.passes == [Working(rest)] && rest != []
    ensures InIdOrder(ResumePass(s, 0, true, recorded))
  {
    var t := ResumePass(s, 0, true, recorded);
    assert Rest(t) == rest[1..] && rest == [rest[0]] + rest[1..] && rest[0] in Rest(s);
    AscendingTail(rest);
    if Ascending(t.enqueued) {
      AscendingSnoc(s.fetched, rest[0]);
      forall x, y | x in t.fetched && y in t.queue && y !in t.fetched ensures x < y {
        if x == rest[0] && y in Rest(s) {
          assert y in rest[1..];
        }
      }
      forall x, y | x in Rest(t) && y in t.queue && y !in t.fetched && y !in Rest(t) ensures x < y {
        assert x in Rest(s) && y !in Rest(s) && y !in s.fetched;
      }
    }
  }

  lemma EnqueueInOrder(s: State, id: Id)
    requires Once(s) && InIdOrder(s) && id !in s.enqueued
    ensures InIdOrder(Step(s, Enqueue(id)))
  {
    var t := Step(s, Enqueue(id));
    assert Rest(t) == Rest(s);
    InsertHas(s.queue, id);
    if Ascending(t.enqueued) {
      AscendingSnoc(s.enqueued, id);
    }
  }

  lemma KeepsOrder(s: State, t: State)
    requires InIdOrder(s) && t.enqueued == s.enqueued && t.fetched == s.fetched && Rest(t) == Rest(s)
    requires forall x :: x in t.queue ==> x in s.queue
    ensures InIdOrder(t)
  {
  }

  /** A pass that holds the whole queue, or nothing of it. */
  lemma FreshRestInOrder(s: State, t: State)
    requires InIdOrder(s) && t.enqueued == s.enqueued && t.fetched == s.fetched && t.queue == s.queue
    requires Rest(t) == [] || Rest(t) == t.queue
    ensures InIdOrder(t)
  {
  }

  lemma CompleteInOrder(s: State, id: Id, rest: seq<Id>, recorded: bool)
    requires InIdOrder(s) && s.passes == [Completing(id, rest)]
    ensures InIdOrder(ResumePass(s, 0, true, recorded))
  {
    KeepsOrder(s, ResumePass(s, 0, true, recorded));
  }

  lemma ResumeInOrder(s: State, recorded: bool)
    requires Once(s) && InIdOrder(s) && |s.passes| > 0
    ensures InIdOrder(ResumePass(s, 0, true, recorded))
  {
    assert s.passes == [s.passes[0]];
    var t := ResumePass(s, 0, true, recorded);
    match s.passes[0]
    case Loading => FreshRestInOrder(s, t);
    case Loaded(_) => KeepsOrder(s, t);
    case Working(rest) => if rest != [] { FetchInOrder(s, rest, recorded); } else { FreshRestInOrder(s, t); }
    case Fetching(_, _) => KeepsOrder(s, t);
    case Completing(id, rest) => CompleteInOrder(s, id, rest, recorded);
  }

  lemma DrainInOrder(s: State)
    requires InIdOrder(s)
    ensures InIdOrder(Drain(s))
  {
    KeepsOrder(s, Drain(s));
  }

  lemma StepInIdOrder(s: State, e: Event)
    requires Once(s) && InIdOrder(s) && Enabled(s, e) && StoreSucceeds(e)
    ensures InIdOrder(Step(s, e))
  {
    match e
    case Enqueue(id) => EnqueueInOrder(s, id);
    case CallDrain => DrainInOrder(s);
    case Resume(i, ok, recorded) => ResumeInOrder(s, recorded);
  }

  // ---- theorems over every interleaving ------------------------------------------------------

  predicate AllSucceed(events: seq<Event>) {
    forall i :: 0 <= i < |events| ==> StoreSucceeds(events[i])
  }

  ghost predicate Sound(s: State) {
    NoneLost(s) && CurrentFetched(s) && Once(s) && InIdOrder(s)
  }

  lemma {:induction false} RunSound(s: State, events: seq<Event>)
    requires Sound(s) && IsRun(s, events) && AllSucceed(events)
    ensures Sound(Run(s, events))
    decreases |events|
  {
    if events != [] {
      assert StoreSucceeds(events[0]);
      StepNoneLost(s, events[0]);
      StepOnce(s, events[0]);
      StepInIdOrder(s, events[0]);
      RunSound(Step(s, events[0]), events[1..]);
    }
  }

  predicate AllRecorded(events: seq<Event>) {
    forall i :: 0 <= i < |events| && events[i].Resume? ==> events[i].recorded
  }

  lemma {:induction false} RunAnswers(s: State, events: seq<Event>)
    requires s.completed <= s.answered && IsRun(s, events) && AllRecorded(events)
    ensures Run(s, events).completed <= Run(s, events).answered
    decreases |events|
  {
    if events != [] {
      assert events[0].Resume? ==> events[0].recorded;
      RunAnswers(Step(s, events[0]), events[1..]);
    }
  }

  /**
   In every interleaving in which loads and deletes succeed: one pass at most; each request
   is fetched once, in id order when ids arrive in order; and when no pass is active, every
   request that had arrived by the last `drain` call has been fetched and has left the
   queue, with its response written if the inserts succeed too.
   */
  lemma NoWakeUpIsLost(events: seq<Event>)
    requires IsRun(INITIAL, events) && AllSucceed(events)
    ensures var s := Run(INITIAL, events);
            && |s.passes| <= 1 && (s.drainAgain ==> s.draining)
            && Distinct(s.fetched) && (Ascending(s.enqueued) ==> Ascending(s.fetched))
            && s.covered <= |s.enqueued|
            && (s.passes == [] ==> forall k :: 0 <= k < s.covered ==> s.enqueued[k] in s.completed && s.enqueued[k] in s.fetched)
            && (AllRecorded(events) ==> s.completed <= s.answered)
  {
    RunSound(INITIAL, events);
    if AllRecorded(events) {
      RunAnswers(INITIAL, events);
    }
  }

  /**
   A request whose completion ends has left the queue exactly if the delete succeeded, and has
   its response written exactly if the insert did; nothing is said of other requests.
   */
  lemma CompletionIsExact(events: seq<Event>, id: Id, rest: seq<Id>, ok: bool, recorded: bool, x: Id)
    requires IsRun(INITIAL, events) && Run(INITIAL, events).passes == [Completing(id, rest)]
    ensures var s := Run(INITIAL, events);
            var t := Step(s, Resume(0, ok, recorded));
            && t.passes == [Working(rest)]
            && (x in t.queue <==> x in s.queue && (x == id ==> !ok))
            && (x in t.completed <==> x in s.completed || (x == id && ok))
            && (x in t.answered <==> x in s.answered || (x == id && recorded))
            && t.fetched == s.fetched && t.enqueued == s.enqueued
  {
  }

  // ---- failed loads and deletes -----------------------------------------------------------------

  /** Of the events that follow, none is a call of `drain`. */
  predicate NoCalls(events: seq<Event>) {
    forall i :: 0 <= i < |events| ==> !events[i].CallDrain?
  }

  /**
   What holds whatever fails: unfetched rows are queued, queued rows are in order and were
   inserted, and so is what the active pass has in hand.
   */
  ghost predicate Tidy(s: State) {
    && OnePass(s) && CurrentFetched(s) && s.covered <= |s.enqueued|
    && (forall id :: id in s.enqueued && id !in s.fetched ==> id in s.queue)
    && Ascending(s.queue) && Ascending(Rest(s))
    && (forall id :: id in s.queue ==> id in s.enqueued)
    && (forall id :: id in Current(s) ==> id in s.queue && id !in Rest(s))
    && (forall id :: id in Rest(s) ==> id in s.queue)
  }

  lemma EndTidy(s: State)
    requires Tidy(s) && |s.passes| > 0 && Current(s) == {}
    ensures Tidy(EndPass(s, 0))
  {
    assert Rest(EndPass(s, 0)) == [] && Current(EndPass(s, 0)) == {};
  }

  lemma WorkTidy(s: State, rest: seq<Id>, ok: bool, recorded: bool)
    requires Tidy(s) && s.passes == [Working(rest)] && rest != []
    ensures Tidy(ResumePass(s, 0, ok, recorded))
  {
    var t := ResumePass(s, 0, ok, recorded);
    AscendingTail(rest);
    assert rest == [rest[0]] + rest[1..];
    assert Rest(s) == rest && Rest(t) == rest[1..] && Current(t) == {rest[0]};
    assert rest[0] in Rest(s);
  }

  lemma CompleteTidy(s: State, id: Id, rest: seq<Id>, ok: bool, recorded: bool)
    requires Tidy(s) && s.passes == [Completing(id, rest)]
    ensures Tidy(ResumePass(s, 0, ok, recorded))
  {
    var t := ResumePass(s, 0, ok, recorded);
    WithoutAscending(s.queue, id);
    assert Rest(t) == rest == Rest(s) && Current(t) == {} && Current(s) == {id};
    assert s.passes[0].id in s.fetched;
  }

  lemma ResumeTidy(s: State, ok: bool, recorded: bool)
    requires Tidy(s) && |s.passes| > 0
    ensures Tidy(ResumePass(s, 0, ok, recorded))
  {
    assert s.passes == [s.passes[0]];
    var t := ResumePass(s, 0, ok, recorded);
    match s.passes[0]
    case Loading => if ok { assert Rest(t) == s.queue && Current(t) == {}; } else { EndTidy(s); }
    case Loaded(rest) => if ok { assert Rest(t) == Rest(s) && Current(t) == {}; } else { EndTidy(s); }
    case Working(rest) => if rest == [] { EndTidy(s); } else { WorkTidy(s, rest, ok, recorded); }
    case Fetching(id, rest) => assert Rest(t) == Rest(s) && Current(t) == Current(s);
    case Completing(id, rest) => CompleteTidy(s, id, rest, ok, recorded);
  }

  lemma StepTidy(s: State, e: Event)
    requires Tidy(s) && Enabled(s, e)
    ensures Tidy(Step(s, e))
  {
    var t := Step(s, e);
    match e
    case Enqueue(id) =>
      InsertHas(s.queue, id);
      InsertAscending(s.queue, id);
      assert Rest(t) == Rest(s) && Current(t) == Current(s);
    case CallDrain => assert Rest(t) == Rest(s) && Current(t) == Current(s);
    case Resume(i, ok, recorded) => ResumeTidy(s, ok, recorded);
  }

  lemma {:induction false} RunTidy(s: State, events: seq<Event>)
    requires Tidy(s) && IsRun(s, events)
    ensures Tidy(Run(s, events))
    decreases |events|
  {
    if events != [] {
      StepTidy(s, events[0]);
      RunTidy(Step(s, events[0]), events[1..]);
    }
  }

  /** A later state of a run in which the request has been fetched once more. */
  ghost predicate FetchesAgain(s: State, events: seq<Event>, id: Id) {
    IsRun(s, events) && multiset(Run(s, events).fetched)[id] > multiset(s.fetched)[id]
  }

  /** Can the request be fetched, once more, before the next call of `drain`? */
  ghost predicate WillBeFetched(s: State, id: Id) {
    exists events :: NoCalls(events) && FetchesAgain(s, events, id)
  }

  ghost predicate CanBeFetched(s: State, id: Id) {
    exists events :: FetchesAgain(s, events, id)
  }

  /** A queued request that a pass holds, will read, or leaves to the repeat it owes. */
  predicate IsDueAgain(s: State, id: Id) {
    && |s.passes| > 0
    && (id in Rest(s) || (id in s.queue && (s.passes[0].Loading? || (s.drainAgain && id !in Current(s)))))
  }

  /** The next fetch is of this request, or of another one. */
  lemma FetchStep(s: State, rest: seq<Id>, ok: bool, recorded: bool, id: Id)
    requires s.passes == [Working(rest)] && rest != []
    ensures var t := ResumePass(s, 0, ok, recorded);
            && multiset(t.fetched)[id] == multiset(s.fetched)[id] + (if id == rest[0] then 1 else 0)
            && Rest(t) == rest[1..] && Current(t) == {rest[0]}
            && (id in rest <==> id == rest[0] || id in rest[1..])
  {
    assert rest == [rest[0]] + rest[1..];
  }

  lemma DueStep(s: State, id: Id)
    requires OnePass(s) && IsDueAgain(s, id)
    ensures var t := ResumePass(s, 0, true, true);
            multiset(t.fetched)[id] > multiset(s.fetched)[id] ||
            (OnePass(t) && IsDueAgain(t, id) && multiset(t.fetched)[id] == multiset(s.fetched)[id])
  {
    assert s.passes == [s.passes[0]];
    match s.passes[0]
    case Working(rest) => if rest != [] { FetchStep(s, rest, true, true, id); }
    case _ =>
  }

  /** Left alone, with every store call succeeding, it is fetched. */
  lemma {:induction false} DueIsFetched(s: State, id: Id) returns (events: seq<Event>)
    requires OnePass(s) && IsDueAgain(s, id)
    ensures NoCalls(events) && FetchesAgain(s, events, id)
    decreases s.drainAgain, StepsLeft(s)
  {
    var e := Resume(0, true, true);
    var t := Step(s, e);
    DueStep(s, id);
    var more := [];
    if multiset(t.fetched)[id] == multiset(s.fetched)[id] {
      more := DueIsFetched(t, id);
    }
    RunCons(s, e, more);
    events := [e] + more;
  }

  /** The request is in nobody's hands, and no pass will read the queue. */
  predicate IsLeft(s: State, id: Id) {
    OnePass(s) && !s.drainAgain && id !in Rest(s) && (|s.passes| > 0 ==> !s.passes[0].Loading?)
  }

  lemma LeftStep(s: State, e: Event, id: Id)
    requires IsLeft(s, id) && Enabled(s, e) && !e.CallDrain?
    ensures IsLeft(Step(s, e), id) && multiset(Step(s, e).fetched)[id] == multiset(s.fetched)[id]
  {
  }

  lemma {:induction false} LeftIsNotFetched(s: State, events: seq<Event>, id: Id)
    requires IsLeft(s, id) && IsRun(s, events) && NoCalls(events)
    ensures multiset(Run(s, events).fetched)[id] == multiset(s.fetched)[id]
    decreases |events|
  {
    if events != [] {
      assert !events[0].CallDrain?;
      LeftStep(s, events[0], id);
      LeftIsNotFetched(Step(s, events[0]), events[1..], id);
    }
  }

  /** The request has left the queue and every snapshot. */
  predicate IsGone(s: State, id: Id) {
    OnePass(s) && id in s.enqueued && id !in s.queue && id !in Rest(s)
  }

  lemma GoneResume(s: State, i: nat, ok: bool, recorded: bool, id: Id)
    requires IsGone(s, id) && i < |s.passes|
    ensures var t := ResumePass(s, i, ok, recorded); IsGone(t, id) && multiset(t.fetched)[id] == multiset(s.fetched)[id]
  {
    assert s.passes == [s.passes[0]];
    match s.passes[0]
    case Working(rest) => if rest != [] { FetchStep(s, rest, ok, recorded, id); }
    case _ =>
  }

  lemma GoneStep(s: State, e: Event, id: Id)
    requires IsGone(s, id) && Enabled(s, e)
    ensures IsGone(Step(s, e), id) && multiset(Step(s, e).fetched)[id] == multiset(s.fetched)[id]
  {
    match e
    case Enqueue(other) => InsertHas(s.queue, other);
    case CallDrain =>
    case Resume(i, ok, recorded) => GoneResume(s, i, ok, recorded, id);
  }

  lemma {:induction false} GoneIsNotFetched(s: State, events: seq<Event>, id: Id)
    requires IsGone(s, id) && IsRun(s, events)
    ensures multiset(Run(s, events).fetched)[id] == multiset(s.fetched)[id]
    decreases |events|
  {
    if events != [] {
      GoneStep(s, events[0], id);
      GoneIsNotFetched(Step(s, events[0]), events[1..], id);
    }
  }

  /**
   In every reachable state, whatever failed before: after a load fails, a request that the
   last `drain` call was to see to stays unfetched until the next call, in every run, if and
   only if no further pass was asked for and it is still to be fetched.
   */
  lemma FailedLoadLosesWakeUpExactly(before: seq<Event>, i: nat, recorded: bool, k: nat)
    requires IsRun(INITIAL, before)
    requires var s := Run(INITIAL, before); i < |s.passes| && IsLoad(s.passes[i]) && k < s.covered
    ensures var s := Run(INITIAL, before); k < |s.enqueued|
    ensures var s := Run(INITIAL, before); var t, id := ResumePass(s, i, false, recorded), s.enqueued[k];
            id !in t.fetched && !WillBeFetched(t, id) <==> !s.drainAgain && id !in s.fetched
  {
    RunTidy(INITIAL, before);
    var s := Run(INITIAL, before);
    var t, id := ResumePass(s, i, false, recorded), s.enqueued[k];
    if s.drainAgain && id !in s.fetched {
      var events := DueIsFetched(t, id);
    }
    if !s.drainAgain {
      NotWithoutCall(t, id);
    }
  }

  /** Such a run: a request arrives, is notified of, and the load that was to find it fails. */
  lemma WakeUpIsLost(id: Id, recorded: bool)
    ensures var events := [Enqueue(id), CallDrain, Resume(0, false, recorded)];
            && IsRun(INITIAL, events)
            && var s := Run(INITIAL, events); s.queue == [id] && s.covered == 1 && !WillBeFetched(s, id)
  {
    var s1 := Step(INITIAL, Enqueue(id));
    var s2 := Step(s1, CallDrain);
    var s := Step(s2, Resume(0, false, recorded));
    RunCons(s2, Resume(0, false, recorded), []);
    RunCons(s1, CallDrain, [Resume(0, false, recorded)] + []);
    RunCons(INITIAL, Enqueue(id), [CallDrain] + ([Resume(0, false, recorded)] + []));
    assert [Enqueue(id)] + ([CallDrain] + ([Resume(0, false, recorded)] + [])) == [Enqueue(id), CallDrain, Resume(0, false, recorded)];
    NotWithoutCall(s, id);
  }

  lemma NeverAgain(s: State, id: Id)
    requires IsGone(s, id)
    ensures !CanBeFetched(s, id)
  {
    if CanBeFetched(s, id) {
      var events :| FetchesAgain(s, events, id);
      GoneIsNotFetched(s, events, id);
      assert false;
    }
  }

  lemma NotWithoutCall(s: State, id: Id)
    requires IsLeft(s, id)
    ensures !WillBeFetched(s, id)
  {
    if WillBeFetched(s, id) {
      var events :| NoCalls(events) && FetchesAgain(s, events, id);
      LeftIsNotFetched(s, events, id);
      assert false;
    }
  }

  /** A call of `drain` sees to a request that is queued and in nobody's hands. */
  lemma AfterTheNextCall(s: State, id: Id)
    requires OnePass(s) && id in s.queue && id !in Current(s)
    ensures CanBeFetched(s, id)
  {
    var t := Drain(s);
    assert Current(t) == Current(s);
    var more := DueIsFetched(t, id);
    RunCons(s, CallDrain, more);
    assert FetchesAgain(s, [CallDrain] + more, id);
  }

  /**
   In every reachable state: a request whose completion ends can be fetched a second time if
   and only if its delete failed, and without another `drain` call if and only if a further
   pass was asked for besides.
   */
  lemma FailedDeleteRepeatsExactly(before: seq<Event>, i: nat, ok: bool, recorded: bool)
    requires IsRun(INITIAL, before)
    requires var s := Run(INITIAL, before); i < |s.passes| && s.passes[i].Completing?
    ensures var s := Run(INITIAL, before); var t, id := ResumePass(s, i, ok, recorded), s.passes[i].id;
            && (CanBeFetched(t, id) <==> !ok)
            && (WillBeFetched(t, id) <==> !ok && s.drainAgain)
  {
    RunTidy(INITIAL, before);
    var s := Run(INITIAL, before);
    var t, id := ResumePass(s, i, ok, recorded), s.passes[i].id;
    assert id in Current(s) && Rest(t) == Rest(s);
    if ok {
      NeverAgain(t, id);
    } else {
      AfterTheNextCall(t, id);
      if s.drainAgain {
        var events := DueIsFetched(t, id);
      } else {
        NotWithoutCall(t, id);
      }
    }
  }

  /** With no pass active, nothing is fetched or leaves the queue until `drain` is called. */
  lemma {:induction false} IdleUntilDrain(s: State, events: seq<Event>)
    requires OnePass(s) && s.passes == [] && IsRun(s, events) && NoCalls(events)
    ensures var t := Run(s, events); t.passes == [] && t.fetched == s.fetched && forall id :: id in s.queue ==> id in t.queue
    decreases |events|
  {
    if events != [] {
      assert events[0].Enqueue?;
      InsertHas(s.queue, events[0].id);
      IdleUntilDrain(Step(s, events[0]), events[1..]);
    }
  }

  /** Every store call but a load may fail, and still no arrived request goes unfetched. */
  predicate LoadsAllSucceed(s: State, events: seq<Event>)
    requires IsRun(s, events)
    decreases |events|
  {
    events == [] || (LoadsSucceed(s, events[0]) && LoadsAllSucceed(Step(s, events[0]), events[1..]))
  }

  lemma {:induction false} RunNoneLost(s: State, events: seq<Event>)
    requires NoneLost(s) && CurrentFetched(s) && IsRun(s, events) && LoadsAllSucceed(s, events)
    ensures NoneLost(Run(s, events))
    decreases |events|
  {
    if events != [] {
      StepNoneLost(s, events[0]);
      RunNoneLost(Step(s, events[0]), events[1..]);
    }
  }

  lemma FailedCompletionsLoseNothing(events: seq<Event>)
    requires IsRun(INITIAL, events) && LoadsAllSucceed(INITIAL, events)
    ensures var s := Run(INITIAL, events);
            s.covered <= |s.enqueued| && (s.passes == [] ==> forall k :: 0 <= k < s.covered ==> s.enqueued[k] in s.fetched)
  {
    RunNoneLost(INITIAL, events);
  }

  /** With failures of any kind there is still only one pass. */
  lemma {:induction false} RunOnePass(s: State, events: seq<Event>)
    requires OnePass(s) && IsRun(s, events)
    ensures OnePass(Run(s, events))
    decreases |events|
  {
    if events != [] {
      StepOnePass(s, events[0]);
      RunOnePass(Step(s, events[0]), events[1..]);
    }
  }

  // ---- progress -----------------------------------------------------------------------------

  /** Steps the active pass still takes before it ends. */
  function StepsLeft(s: State): nat {
    if s.passes == [] then 0
    else match s.passes[0]
      case Loading => 3 + 3 * |s.queue|
      case Loaded(rest) => 2 + 3 * |rest|
      case Working(rest) => 1 + 3 * |rest|
      case Fetching(_, rest) => 3 + 3 * |rest|
      case Completing(_, rest) => 2 + 3 * |rest|
  }

  /** Left alone, the passes run to rest. */
  function Settle(s: State): State
    requires OnePass(s)
    ensures Settle(s).passes == []
    decreases s.drainAgain, StepsLeft(s)
  {
    if s.passes == [] then s else Settle(ResumePass(s, 0, true, true))
  }

  lemma SettleStep(s: State)
    requires Sound(s) && s.passes != []
    ensures var t := ResumePass(s, 0, true, true);
            Sound(t) && t.enqueued == s.enqueued && t.covered >= s.covered
  {
    var e := Resume(0, true, true);
    StepNoneLost(s, e);
    StepOnce(s, e);
    StepInIdOrder(s, e);
  }

  lemma {:induction false} SettleSound(s: State)
    requires Sound(s)
    ensures Sound(Settle(s)) && Settle(s).enqueued == s.enqueued && Settle(s).covered >= s.covered
    decreases s.drainAgain, StepsLeft(s)
  {
    if s.passes != [] {
      SettleStep(s);
      SettleSound(ResumePass(s, 0, true, true));
    }
  }

  /**
   From any state of a run, left alone the passes come to rest with every request
   that had arrived by the last `drain` call completed; if that call came after the
   last insert, the queue is empty.
   */
  lemma SettlesCompleted(s: State)
    requires Sound(s)
    ensures forall k :: 0 <= k < s.covered ==> s.enqueued[k] in Settle(s).completed
    ensures s.covered == |s.enqueued| ==> Settle(s).queue == []
  {
    var t := Settle(s);
    assert t.queue != [] ==> t.queue[0] in t.queue;
    SettleSound(s);
    assert forall k :: 0 <= k < t.covered ==> t.enqueued[k] in t.completed;
  }
}
