/** The auth service's fixed-window limiter, one window at a time for each key. */
module FixedLimiters {
  import opened Seqs

  datatype Config = Config(windowMs: int, max: int)
  datatype Entry = Entry(count: int, resetAt: int)
  datatype Call = Call(key: string, at: int)

  /** The entry after a call, and was the call accepted? */
  function Check(cfg: Config, entry: Option<Entry>, at: int): (Entry, bool) {
    if entry.None? || at >= entry.value.resetAt then (Entry(1, at + cfg.windowMs), true)
    else if entry.value.count >= cfg.max then (entry.value, false)
    else (Entry(entry.value.count + 1, entry.value.resetAt), true)
  }

  /** The entry a run of calls leaves for one key. */
  function EntryAfter(cfg: Config, calls: seq<Call>, key: string): Option<Entry> {
    if calls == [] then None
    else
      var before, c := EntryAfter(cfg, calls[..|calls| - 1], key), calls[|calls| - 1];
      if c.key == key then Some(Check(cfg, before, c.at).0) else before
  }

  // ---- which calls are accepted, told by the calls -----------------------------------------

  ghost predicate Ordered(calls: seq<Call>) {
    forall i, j :: 0 <= i <= j < |calls| ==> calls[i].at <= calls[j].at
  }

  /** Of the first `n` calls, `o` is the last of its key to open a window. */
  ghost predicate OpenedLast(calls: seq<Call>, opens: seq<bool>, n: nat, key: string, o: nat)
    requires n <= |calls| && |opens| == |calls|
  {
    && o < n && calls[o].key == key && opens[o]
    && forall j :: o < j < n && calls[j].key == key ==> !opens[j]
  }

  /** The accepted calls of a key from call `o` on, among the first `n`. */
  function AcceptedSince(calls: seq<Call>, accepted: seq<bool>, n: nat, key: string, o: nat): set<int>
    requires n <= |calls| && |accepted| == |calls|
  {
    set j | o <= j < n && calls[j].key == key && accepted[j]
  }

  /** A call opens a window unless it falls in the one that its key opened last. */
  ghost predicate OpensRightly(cfg: Config, calls: seq<Call>, opens: seq<bool>, i: nat)
    requires i < |calls| && |opens| == |calls|
  {
    opens[i] <==> forall o: nat :: OpenedLast(calls, opens, i, calls[i].key, o) ==> calls[o].at + cfg.windowMs <= calls[i].at
  }

  /** A call that opens a window is accepted, and another while fewer than `max` were in its window. */
  ghost predicate AcceptsRightly(cfg: Config, calls: seq<Call>, opens: seq<bool>, accepted: seq<bool>, i: nat)
    requires i < |calls| && |opens| == |accepted| == |calls|
  {
    accepted[i] <==> opens[i] || forall o: nat :: OpenedLast(calls, opens, i, calls[i].key, o) ==> |AcceptedSince(calls, accepted, i, calls[i].key, o)| < cfg.max
  }

  /** The answers given to a history, and which calls opened a window. */
  ghost predicate AreAnswers(cfg: Config, calls: seq<Call>, opens: seq<bool>, accepted: seq<bool>) {
    && |opens| == |accepted| == |calls|
    && forall i :: 0 <= i < |calls| ==> OpensRightly(cfg, calls, opens, i) && AcceptsRightly(cfg, calls, opens, accepted, i)
  }

  /** The stored entry is the window that its key opened last, with the calls accepted in it. */
  ghost predicate Stands(cfg: Config, calls: seq<Call>, opens: seq<bool>, accepted: seq<bool>, key: string, entry: Option<Entry>)
    requires |opens| == |accepted| == |calls|
  {
    match entry
    case None => forall j :: 0 <= j < |calls| ==> calls[j].key != key
    case Some(e) => exists o: nat :: IsWindow(cfg, calls, opens, accepted, key, e, o)
  }

  ghost predicate IsWindow(cfg: Config, calls: seq<Call>, opens: seq<bool>, accepted: seq<bool>, key: string, e: Entry, o: nat)
    requires |opens| == |accepted| == |calls|
  {
    && OpenedLast(calls, opens, |calls|, key, o)
    && e.resetAt == calls[o].at + cfg.windowMs && e.count == |AcceptedSince(calls, accepted, |calls|, key, o)|
  }

  lemma OpenedOfPrefix(calls: seq<Call>, opens: seq<bool>, c: Call, open: bool, n: nat, key: string, o: nat)
    requires n <= |calls| && |opens| == |calls|
    ensures OpenedLast(calls + [c], opens + [open], n, key, o) <==> OpenedLast(calls, opens, n, key, o)
  {
    var all, flags := calls + [c], opens + [open];
    assert forall j :: 0 <= j < n ==> all[j] == calls[j] && flags[j] == opens[j];
  }

  lemma SinceOfPrefix(calls: seq<Call>, accepted: seq<bool>, c: Call, ok: bool, n: nat, key: string, o: nat)
    requires n <= |calls| && |accepted| == |calls|
    ensures AcceptedSince(calls + [c], accepted + [ok], n, key, o) == AcceptedSince(calls, accepted, n, key, o)
  {
  }

  /** What held of the earlier calls still does. */
  lemma EarlierRightly(cfg: Config, calls: seq<Call>, opens: seq<bool>, accepted: seq<bool>, c: Call, open: bool, ok: bool, i: nat)
    requires AreAnswers(cfg, calls, opens, accepted) && i < |calls|
    ensures OpensRightly(cfg, calls + [c], opens + [open], i) && AcceptsRightly(cfg, calls + [c], opens + [open], accepted + [ok], i)
  {
    assert OpensRightly(cfg, calls, opens, i) && AcceptsRightly(cfg, calls, opens, accepted, i);
    forall o: nat
      ensures OpenedLast(calls + [c], opens + [open], i, calls[i].key, o) <==> OpenedLast(calls, opens, i, calls[i].key, o)
      ensures AcceptedSince(calls + [c], accepted + [ok], i, calls[i].key, o) == AcceptedSince(calls, accepted, i, calls[i].key, o)
    {
      OpenedOfPrefix(calls, opens, c, open, i, calls[i].key, o);
      SinceOfPrefix(calls, accepted, c, ok, i, calls[i].key, o);
    }
  }

  /** Does the call open a window, given its key's entry? */
  predicate IsOver(entry: Option<Entry>, at: int) {
    entry.None? || entry.value.resetAt <= at
  }

  lemma LastOpenedIsOne(calls: seq<Call>, opens: seq<bool>, n: nat, key: string, o: nat, p: nat)
    requires n <= |calls| && |opens| == |calls| && OpenedLast(calls, opens, n, key, o) && OpenedLast(calls, opens, n, key, p)
    ensures o == p
  {
  }

  /** The limiter's answer to the next call is the right one. */
  lemma NextRightly(cfg: Config, calls: seq<Call>, opens: seq<bool>, accepted: seq<bool>, c: Call, entry: Option<Entry>)
    requires |opens| == |accepted| == |calls| && Stands(cfg, calls, opens, accepted, c.key, entry)
    ensures var open, ok := IsOver(entry, c.at), Check(cfg, entry, c.at).1;
            OpensRightly(cfg, calls + [c], opens + [open], |calls|) && AcceptsRightly(cfg, calls + [c], opens + [open], accepted + [ok], |calls|)
  {
    var open, ok, n := IsOver(entry, c.at), Check(cfg, entry, c.at).1, |calls|;
    forall o: nat
      ensures OpenedLast(calls + [c], opens + [open], n, c.key, o) <==> OpenedLast(calls, opens, n, c.key, o)
      ensures AcceptedSince(calls + [c], accepted + [ok], n, c.key, o) == AcceptedSince(calls, accepted, n, c.key, o)
    {
      OpenedOfPrefix(calls, opens, c, open, n, c.key, o);
      SinceOfPrefix(calls, accepted, c, ok, n, c.key, o);
    }
    if entry.Some? {
      var w: nat :| IsWindow(cfg, calls, opens, accepted, c.key, entry.value, w);
      forall o: nat | OpenedLast(calls, opens, n, c.key, o) ensures o == w {
        LastOpenedIsOne(calls, opens, n, c.key, o, w);
      }
    }
  }

  lemma SinceNext(calls: seq<Call>, accepted: seq<bool>, c: Call, ok: bool, key: string, o: nat)
    requires |accepted| == |calls| && o <= |calls|
    ensures |AcceptedSince(calls + [c], accepted + [ok], |calls| + 1, key, o)| == |AcceptedSince(calls, accepted, |calls|, key, o)| +
              if c.key == key && ok then 1 else 0
  {
    var one: set<int> := if c.key == key && ok then {|calls|} else {};
    assert AcceptedSince(calls + [c], accepted + [ok], |calls| + 1, key, o) == AcceptedSince(calls, accepted, |calls|, key, o) + one;
  }

  lemma NewWindowStands(cfg: Config, calls: seq<Call>, opens: seq<bool>, accepted: seq<bool>, c: Call)
    requires |opens| == |accepted| == |calls|
    ensures Stands(cfg, calls + [c], opens + [true], accepted + [true], c.key, Some(Entry(1, c.at + cfg.windowMs)))
  {
    var n := |calls|;
    assert AcceptedSince(calls + [c], accepted + [true], n + 1, c.key, n) == {n};
    assert IsWindow(cfg, calls + [c], opens + [true], accepted + [true], c.key, Entry(1, c.at + cfg.windowMs), n);
  }

  /** A call that opens no window of the key leaves its window, with one more call in it if it was accepted. */
  lemma OldWindowStands(cfg: Config, calls: seq<Call>, opens: seq<bool>, accepted: seq<bool>, c: Call, open: bool, ok: bool, key: string, e: Entry)
    requires |opens| == |accepted| == |calls| && Stands(cfg, calls, opens, accepted, key, Some(e)) && (open ==> c.key != key)
    ensures Stands(cfg, calls + [c], opens + [open], accepted + [ok], key, Some(Entry(e.count + if c.key == key && ok then 1 else 0, e.resetAt)))
  {
    var w: nat :| IsWindow(cfg, calls, opens, accepted, key, e, w);
    OpenedOfPrefix(calls, opens, c, open, |calls|, key, w);
    SinceNext(calls, accepted, c, ok, key, w);
    assert IsWindow(cfg, calls + [c], opens + [open], accepted + [ok], key, Entry(e.count + if c.key == key && ok then 1 else 0, e.resetAt), w);
  }

  lemma NextStands(cfg: Config, calls: seq<Call>, opens: seq<bool>, accepted: seq<bool>, c: Call, entry: Option<Entry>)
    requires |opens| == |accepted| == |calls| && Stands(cfg, calls, opens, accepted, c.key, entry)
    ensures var (after, ok) := Check(cfg, entry, c.at);
            Stands(cfg, calls + [c], opens + [IsOver(entry, c.at)], accepted + [ok], c.key, Some(after))
  {
    if IsOver(entry, c.at) {
      NewWindowStands(cfg, calls, opens, accepted, c);
    } else {
      OldWindowStands(cfg, calls, opens, accepted, c, false, Check(cfg, entry, c.at).1, c.key, entry.value);
    }
  }

  /** One more call answered by the limiter. */
  lemma NextAnswer(cfg: Config, calls: seq<Call>, opens: seq<bool>, accepted: seq<bool>, c: Call, entry: Option<Entry>)
    requires AreAnswers(cfg, calls, opens, accepted) && Stands(cfg, calls, opens, accepted, c.key, entry)
    ensures AreAnswers(cfg, calls + [c], opens + [IsOver(entry, c.at)], accepted + [Check(cfg, entry, c.at).1])
  {
    NextRightly(cfg, calls, opens, accepted, c, entry);
    forall i: nat | i < |calls|
      ensures OpensRightly(cfg, calls + [c], opens + [IsOver(entry, c.at)], i)
      ensures AcceptsRightly(cfg, calls + [c], opens + [IsOver(entry, c.at)], accepted + [Check(cfg, entry, c.at).1], i)
    {
      EarlierRightly(cfg, calls, opens, accepted, c, IsOver(entry, c.at), Check(cfg, entry, c.at).1, i);
    }
  }

  ghost predicate AllStand(cfg: Config, hits: map<string, Entry>, calls: seq<Call>, opens: seq<bool>, accepted: seq<bool>)
    requires |opens| == |accepted| == |calls|
  {
    forall key :: Stands(cfg, calls, opens, accepted, key, if key in hits then Some(hits[key]) else None)
  }

  lemma NextAllStand(cfg: Config, hits: map<string, Entry>, calls: seq<Call>, opens: seq<bool>, accepted: seq<bool>, c: Call, entry: Option<Entry>)
    requires |opens| == |accepted| == |calls| && AllStand(cfg, hits, calls, opens, accepted)
    requires entry == if c.key in hits then Some(hits[c.key]) else None
    ensures AllStand(cfg, hits[c.key := Check(cfg, entry, c.at).0], calls + [c], opens + [IsOver(entry, c.at)], accepted + [Check(cfg, entry, c.at).1])
  {
    var (after, ok) := Check(cfg, entry, c.at);
    var open, hits' := IsOver(entry, c.at), hits[c.key := after];
    forall key ensures Stands(cfg, calls + [c], opens + [open], accepted + [ok], key, if key in hits' then Some(hits'[key]) else None) {
      assert Stands(cfg, calls, opens, accepted, key, if key in hits then Some(hits[key]) else None);
      if key == c.key {
        NextStands(cfg, calls, opens, accepted, c, entry);
      } else if key in hits {
        OldWindowStands(cfg, calls, opens, accepted, c, open, ok, key, hits[key]);
      }
    }
  }

  class FixedLimiter {
    const cfg: Config
    var hits: map<string, Entry>
    ghost var calls: seq<Call>
    /** The answers given so far, and which calls opened a window. */
    ghost var accepted: seq<bool>
    ghost var opens: seq<bool>

    ghost predicate Valid()
      reads this
    {
      && AreAnswers(cfg, calls, opens, accepted) && AllStand(cfg, hits, calls, opens, accepted)
      && forall key :: EntryAfter(cfg, calls, key) == if key in hits then Some(hits[key]) else None
    }

    constructor (cfg: Config)
      ensures Valid() && this.cfg == cfg && calls == [] && accepted == []
    {
      this.cfg, hits, calls, accepted, opens := cfg, map[], [], [], [];
    }

    method CheckKey(key: string, now: int) returns (ok: bool)
      requires Valid()
      modifies this
      ensures Valid() && calls == old(calls) + [Call(key, now)] && accepted == old(accepted) + [ok]
      ensures AreAnswers(cfg, calls, opens, accepted)
      ensures ok == Check(cfg, EntryAfter(cfg, old(calls), key), now).1
    {
      ghost var entry := if key in hits then Some(hits[key]) else None;
      assert EntryAfter(cfg, calls, key) == entry;
      assert Stands(cfg, calls, opens, accepted, key, entry);
      NextAnswer(cfg, calls, opens, accepted, Call(key, now), entry);
      NextAllStand(cfg, hits, calls, opens, accepted, Call(key, now), entry);
      ok := Hit(key, now);
      calls, opens, accepted := calls + [Call(key, now)], opens + [IsOver(entry, now)], accepted + [ok];
      assert calls[..|calls| - 1] == old(calls);
    }

    /** The update of the key's entry. */
    method Hit(key: string, now: int) returns (ok: bool)
      modifies this`hits
      ensures var (entry, accept) := Check(cfg, if key in old(hits) then Some(old(hits)[key]) else None, now);
              hits == old(hits)[key := entry] && ok == accept
    {
      if key !in hits || now >= hits[key].resetAt {
        hits := hits[key := Entry(1, now + cfg.windowMs)];
        return true;
      }
      if hits[key].count >= cfg.max {
        assert hits == hits[key := hits[key]];
        return false;
      }
      hits := hits[key := Entry(hits[key].count + 1, hits[key].resetAt)];
      return true;
    }
  }

  // ---- the bound on every interval -----------------------------------------------------

  /** Does an instant fall in the half-open interval of one window's length from `start`? */
  predicate IsWithin(cfg: Config, at: int, start: int) {
    start <= at < start + cfg.windowMs
  }

  /** A key's entry, and how many of its accepts fell in the interval. */
  datatype Tally = Tally(entry: Option<Entry>, accepts: nat)

  function Count(cfg: Config, t: Tally, at: int, start: int): Tally {
    var (entry, ok) := Check(cfg, t.entry, at);
    Tally(Some(entry), t.accepts + if ok && IsWithin(cfg, at, start) then 1 else 0)
  }

  function TallyAfter(cfg: Config, calls: seq<Call>, key: string, start: int): Tally {
    if calls == [] then Tally(None, 0)
    else
      var before, c := TallyAfter(cfg, calls[..|calls| - 1], key, start), calls[|calls| - 1];
      if c.key == key then Count(cfg, before, c.at, start) else before
  }

  /** The tally follows the limiter: same entries, and it counts what the limiter accepts. */
  lemma {:induction false} TallyFollows(cfg: Config, calls: seq<Call>, key: string, start: int)
    ensures TallyAfter(cfg, calls, key, start).entry == EntryAfter(cfg, calls, key)
  {
    if calls != [] {
      TallyFollows(cfg, calls[..|calls| - 1], key, start);
    }
  }

  /** A window admits its first call whatever `max` says. */
  function Capacity(cfg: Config): int {
    if cfg.max < 1 then 1 else cfg.max
  }

  /**
   What the stored window says about the interval at time `now`: a window that began
   before the interval spent its first accept outside it; one that began inside shares
   it with at most one earlier window; one that began past it adds nothing more.
   */
  predicate Bounded(cfg: Config, t: Tally, now: int, start: int) {
    && (now < start ==> t.accepts == 0)
    && match t.entry
       case None => t.accepts == 0
       case Some(e) =>
         var begun := e.resetAt - cfg.windowMs;
         && 1 <= e.count <= Capacity(cfg) && begun <= now
         && t.accepts <= if begun < start then e.count - 1
                         else if begun < start + cfg.windowMs then Capacity(cfg) - 1 + e.count
                         else 2 * Capacity(cfg) - 1
  }

  lemma BoundedStep(cfg: Config, t: Tally, now: int, at: int, start: int)
    requires cfg.windowMs > 0 && now <= at && Bounded(cfg, t, now, start)
    ensures Bounded(cfg, Count(cfg, t, at, start), at, start)
    ensures Bounded(cfg, t, at, start)
  {
  }

  lemma {:induction false} RunBounded(cfg: Config, calls: seq<Call>, key: string, now: int, start: int)
    requires cfg.windowMs > 0 && Ordered(calls)
    requires calls != [] ==> calls[|calls| - 1].at <= now
    ensures Bounded(cfg, TallyAfter(cfg, calls, key, start), now, start)
  {
    if calls != [] {
      var init, c := calls[..|calls| - 1], calls[|calls| - 1];
      assert Ordered(init);
      RunBounded(cfg, init, key, c.at, start);
      BoundedStep(cfg, TallyAfter(cfg, init, key, start), c.at, c.at, start);
      BoundedStep(cfg, TallyAfter(cfg, calls, key, start), c.at, now, start);
    }
  }

  /** No half-open interval of one window's length holds more than 2 * max - 1 accepts of a key. */
  lemma EveryIntervalIsBounded(cfg: Config, calls: seq<Call>, key: string, start: int)
    requires cfg.windowMs > 0 && Ordered(calls)
    ensures TallyAfter(cfg, calls, key, start).accepts <= 2 * Capacity(cfg) - 1
  {
    RunBounded(cfg, calls, key, if calls == [] then 0 else calls[|calls| - 1].at, start);
  }

  // ---- the bound is reached ----------------------------------------------------------------

  function Repeat(key: string, at: int, n: nat): seq<Call> {
    if n == 0 then [] else Repeat(key, at, n - 1) + [Call(key, at)]
  }

  /** One call, then the rest of the window at its last instant, then a full window. */
  function Burst(cfg: Config, key: string): seq<Call>
    requires cfg.max >= 1
  {
    Repeat(key, 0, 1) + Repeat(key, cfg.windowMs - 1, cfg.max - 1) + Repeat(key, cfg.windowMs, cfg.max)
  }

  function CountN(cfg: Config, t: Tally, at: int, n: nat, start: int): Tally {
    if n == 0 then t else Count(cfg, CountN(cfg, t, at, n - 1, start), at, start)
  }

  lemma TallySnoc(cfg: Config, calls: seq<Call>, c: Call, start: int)
    ensures TallyAfter(cfg, calls + [c], c.key, start) == Count(cfg, TallyAfter(cfg, calls, c.key, start), c.at, start)
  {
    assert (calls + [c])[..|calls|] == calls;
  }

  lemma {:induction false} TallyOfRepeat(cfg: Config, calls: seq<Call>, key: string, at: int, n: nat, start: int)
    ensures TallyAfter(cfg, calls + Repeat(key, at, n), key, start) == CountN(cfg, TallyAfter(cfg, calls, key, start), at, n, start)
  {
    if n == 0 {
      assert calls + Repeat(key, at, n) == calls;
    } else {
      TallyOfRepeat(cfg, calls, key, at, n - 1, start);
      var before := calls + Repeat(key, at, n - 1);
      assert calls + Repeat(key, at, n) == before + [Call(key, at)];
      TallySnoc(cfg, before, Call(key, at), start);
    }
  }

  /** Calls at one instant of an open window with room are all accepted. */
  lemma {:induction false} AdmitsAll(cfg: Config, t: Tally, at: int, n: nat, start: int)
    requires t.entry.Some? && at < t.entry.value.resetAt && t.entry.value.count + n <= cfg.max
    requires IsWithin(cfg, at, start)
    ensures CountN(cfg, t, at, n, start) == Tally(Some(Entry(t.entry.value.count + n, t.entry.value.resetAt)), t.accepts + n)
  {
    if n > 0 {
      AdmitsAll(cfg, t, at, n - 1, start);
    }
  }

  lemma {:induction false} CountNFirst(cfg: Config, t: Tally, at: int, n: nat, start: int)
    ensures CountN(cfg, t, at, n + 1, start) == CountN(cfg, Count(cfg, t, at, start), at, n, start)
  {
    if n > 0 {
      CountNFirst(cfg, t, at, n - 1, start);
    }
  }

  /** A call that opens a window is accepted, and so is the rest of that window. */
  lemma OpensAndFills(cfg: Config, t: Tally, at: int, n: nat, start: int)
    requires t.entry.Some? ==> at >= t.entry.value.resetAt
    requires 1 <= n <= cfg.max && cfg.windowMs > 0 && IsWithin(cfg, at, start)
    ensures CountN(cfg, t, at, n, start) == Tally(Some(Entry(n, at + cfg.windowMs)), t.accepts + n)
  {
    CountNFirst(cfg, t, at, n - 1, start);
    AdmitsAll(cfg, Tally(Some(Entry(1, at + cfg.windowMs)), t.accepts + 1), at, n - 1, start);
  }

  /** The tally of a burst is counted in its three parts. */
  lemma TallyOfBurst(cfg: Config, key: string, start: int)
    requires cfg.max >= 1
    ensures TallyAfter(cfg, Burst(cfg, key), key, start)
         == CountN(cfg, CountN(cfg, CountN(cfg, Tally(None, 0), 0, 1, start), cfg.windowMs - 1, cfg.max - 1, start), cfg.windowMs, cfg.max, start)
  {
    var a, b := Repeat(key, 0, 1), Repeat(key, cfg.windowMs - 1, cfg.max - 1);
    assert [] + a == a;
    TallyOfRepeat(cfg, [], key, 0, 1, start);
    TallyOfRepeat(cfg, a, key, cfg.windowMs - 1, cfg.max - 1, start);
    TallyOfRepeat(cfg, a + b, key, cfg.windowMs, cfg.max, start);
  }

  /** The burst puts exactly 2 * max - 1 accepts in the interval from its second instant. */
  lemma BoundIsReached(cfg: Config, key: string)
    requires cfg.windowMs >= 2 && cfg.max >= 1
    ensures TallyAfter(cfg, Burst(cfg, key), key, cfg.windowMs - 1).accepts == 2 * cfg.max - 1
  {
    var w, m, start := cfg.windowMs, cfg.max, cfg.windowMs - 1;
    TallyOfBurst(cfg, key, start);
    CountNFirst(cfg, Tally(None, 0), 0, 0, start);
    AdmitsAll(cfg, Tally(Some(Entry(1, w)), 0), start, m - 1, start);
    OpensAndFills(cfg, Tally(Some(Entry(m, w)), m - 1), w, m, start);
  }

  // ---- exactly when an interval can hold more than a window ---------------------------------

  /** In one instant the accepts are those of the window that begins there. */
  predicate BoundedInInstant(cfg: Config, t: Tally, now: int, start: int) {
    && (now < start ==> t.accepts == 0)
    && match t.entry
       case None => t.accepts == 0
       case Some(e) =>
         var begun := e.resetAt - cfg.windowMs;
         && 1 <= e.count <= Capacity(cfg) && begun <= now
         && t.accepts <= if begun < start then 0 else if begun == start then e.count else Capacity(cfg)
  }

  lemma InstantStep(cfg: Config, t: Tally, now: int, at: int, start: int)
    requires cfg.windowMs == 1 && now <= at && BoundedInInstant(cfg, t, now, start)
    ensures BoundedInInstant(cfg, Count(cfg, t, at, start), at, start)
    ensures BoundedInInstant(cfg, t, at, start)
  {
  }

  lemma {:induction false} InstantIsBounded(cfg: Config, calls: seq<Call>, key: string, now: int, start: int)
    requires cfg.windowMs == 1 && Ordered(calls)
    requires calls != [] ==> calls[|calls| - 1].at <= now
    ensures BoundedInInstant(cfg, TallyAfter(cfg, calls, key, start), now, start)
  {
    if calls != [] {
      var init, c := calls[..|calls| - 1], calls[|calls| - 1];
      assert Ordered(init);
      InstantIsBounded(cfg, init, key, c.at, start);
      InstantStep(cfg, TallyAfter(cfg, init, key, start), c.at, c.at, start);
      InstantStep(cfg, TallyAfter(cfg, calls, key, start), c.at, now, start);
    }
  }

  /** Does every ordered history keep every interval of one window's length to `max` accepts? */
  ghost predicate NeverExceedsMax(cfg: Config, key: string) {
    forall calls: seq<Call>, start: int :: Ordered(calls) ==> TallyAfter(cfg, calls, key, start).accepts <= cfg.max
  }

  lemma {:induction false} RepeatIsOrdered(key: string, at: int, n: nat)
    ensures |Repeat(key, at, n)| == n && forall i :: 0 <= i < n ==> Repeat(key, at, n)[i].at == at
  {
    if n > 0 {
      RepeatIsOrdered(key, at, n - 1);
    }
  }

  lemma BurstIsOrdered(cfg: Config, key: string)
    requires cfg.windowMs >= 1 && cfg.max >= 1
    ensures Ordered(Burst(cfg, key))
  {
    RepeatIsOrdered(key, 0, 1);
    RepeatIsOrdered(key, cfg.windowMs - 1, cfg.max - 1);
    RepeatIsOrdered(key, cfg.windowMs, cfg.max);
  }

  /** No interval exceeds `max` exactly when the limit is one call or the window one millisecond. */
  lemma ExceedsMaxExactly(cfg: Config, key: string)
    requires cfg.windowMs > 0 && cfg.max >= 1
    ensures NeverExceedsMax(cfg, key) <==> cfg.max == 1 || cfg.windowMs == 1
  {
    if cfg.max == 1 || cfg.windowMs == 1 {
      forall calls: seq<Call>, start: int | Ordered(calls) ensures TallyAfter(cfg, calls, key, start).accepts <= cfg.max {
        if cfg.max == 1 {
          EveryIntervalIsBounded(cfg, calls, key, start);
        } else {
          InstantIsBounded(cfg, calls, key, if calls == [] then 0 else calls[|calls| - 1].at, start);
        }
      }
    } else {
      BurstIsOrdered(cfg, key);
      BoundIsReached(cfg, key);
    }
  }
}
