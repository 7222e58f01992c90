/** The API-key guard's sliding-window limiter: a pruned list of accept times for each key. */
module SlidingLimiters {
  import opened Seqs

  const WINDOW_MS: int := 60000

  datatype Call = Call(key: string, limit: int, at: int)

  function After(cutoff: int): int -> bool {
    (t: int) => t > cutoff
  }

  /** The times in the last window. */
  function Recent(times: seq<int>, at: int): seq<int> {
    Seqs.Filter(times, After(at - WINDOW_MS))
  }

  // ---- the specification: it forgets nothing -----------------------------------------

  /** Every accept of a key so far: a call is accepted when fewer than its limit are recent. */
  function Accepted(calls: seq<Call>, key: string): seq<int> {
    if calls == [] then []
    else
      var before, c := Accepted(calls[..|calls| - 1], key), calls[|calls| - 1];
      if c.key == key && |Recent(before, c.at)| < c.limit then before + [c.at] else before
  }

  ghost predicate Ordered(calls: seq<Call>) {
    forall i, j :: 0 <= i <= j < |calls| ==> calls[i].at <= calls[j].at
  }

  // ---- which calls are allowed, counted over the calls ---------------------------------------

  /** The allowed calls of a key among the first `n` that came after `cutoff`. */
  function AllowedAfter(calls: seq<Call>, allowed: seq<bool>, n: nat, key: string, cutoff: int): set<int>
    requires n <= |calls| && |allowed| == |calls|
  {
    set j | 0 <= j < n && allowed[j] && calls[j].key == key && cutoff < calls[j].at
  }

  /**
   A call is allowed if and only if fewer than its limit of the key's earlier allowed calls
   came in the last 60000 milliseconds.
   */
  predicate IsRight(calls: seq<Call>, allowed: seq<bool>, i: nat)
    requires i < |calls| == |allowed|
  {
    allowed[i] <==> |AllowedAfter(calls, allowed, i, calls[i].key, calls[i].at - 60000)| < calls[i].limit
  }

  /** The answers given to a history. */
  ghost predicate AreAnswers(calls: seq<Call>, allowed: seq<bool>) {
    |allowed| == |calls| && forall i :: 0 <= i < |calls| ==> IsRight(calls, allowed, i)
  }

  lemma AllowedNext(calls: seq<Call>, allowed: seq<bool>, n: nat, key: string, cutoff: int)
    requires n < |calls| && |allowed| == |calls|
    ensures |AllowedAfter(calls, allowed, n + 1, key, cutoff)| == |AllowedAfter(calls, allowed, n, key, cutoff)| +
              if allowed[n] && calls[n].key == key && cutoff < calls[n].at then 1 else 0
  {
    var one: set<int> := if allowed[n] && calls[n].key == key && cutoff < calls[n].at then {n} else {};
    assert AllowedAfter(calls, allowed, n + 1, key, cutoff) == AllowedAfter(calls, allowed, n, key, cutoff) + one;
  }

  lemma AcceptedNext(calls: seq<Call>, n: nat, key: string, cutoff: int)
    requires n < |calls|
    ensures var before, c := Accepted(calls[..n], key), calls[n];
            |Seqs.Filter(Accepted(calls[..n + 1], key), After(cutoff))| == |Seqs.Filter(before, After(cutoff))| +
              if c.key == key && |Recent(before, c.at)| < c.limit && cutoff < c.at then 1 else 0
  {
    assert calls[..n + 1][..n] == calls[..n];
    FilterSnoc(Accepted(calls[..n], key), calls[n].at, After(cutoff));
  }

  lemma RightByCount(calls: seq<Call>, allowed: seq<bool>, n: nat, recent: nat)
    requires AreAnswers(calls, allowed) && n < |calls|
    requires recent == |AllowedAfter(calls, allowed, n, calls[n].key, calls[n].at - 60000)|
    ensures allowed[n] <==> recent < calls[n].limit
  {
    assert IsRight(calls, allowed, n);
  }

  /** The recorded accept times are those of the allowed calls. */
  lemma {:induction false} AcceptedAreAllowed(calls: seq<Call>, allowed: seq<bool>, n: nat, key: string, cutoff: int)
    requires n <= |calls| && AreAnswers(calls, allowed)
    ensures |Seqs.Filter(Accepted(calls[..n], key), After(cutoff))| == |AllowedAfter(calls, allowed, n, key, cutoff)|
    decreases n
  {
    if n == 0 {
      assert AllowedAfter(calls, allowed, 0, key, cutoff) == {};
    } else {
      var m := n - 1;
      AcceptedAreAllowed(calls, allowed, m, key, cutoff);
      AcceptedAreAllowed(calls, allowed, m, calls[m].key, calls[m].at - 60000);
      RightByCount(calls, allowed, m, |Recent(Accepted(calls[..m], calls[m].key), calls[m].at)|);
      AcceptedNext(calls, m, key, cutoff);
      AllowedNext(calls, allowed, m, key, cutoff);
    }
  }

  lemma AllowedOfPrefix(calls: seq<Call>, allowed: seq<bool>, c: Call, ok: bool, n: nat, key: string, cutoff: int)
    requires n <= |calls| && |allowed| == |calls|
    ensures AllowedAfter(calls + [c], allowed + [ok], n, key, cutoff) == AllowedAfter(calls, allowed, n, key, cutoff)
  {
  }

  /** The answer that the recent accepts give is the next one. */
  lemma NextAnswer(calls: seq<Call>, allowed: seq<bool>, c: Call, ok: bool)
    requires AreAnswers(calls, allowed) && (ok <==> |Recent(Accepted(calls, c.key), c.at)| < c.limit)
    ensures AreAnswers(calls + [c], allowed + [ok])
  {
    var all, answers := calls + [c], allowed + [ok];
    RecentAreAllowed(calls, allowed, c.key, c.at);
    LastAnswer(calls, allowed, c, ok);
    forall i | 0 <= i < |calls| ensures IsRight(all, answers, i) {
      EarlierAnswer(calls, allowed, c, ok, i);
    }
  }

  lemma RecentAreAllowed(calls: seq<Call>, allowed: seq<bool>, key: string, at: int)
    requires AreAnswers(calls, allowed)
    ensures |Recent(Accepted(calls, key), at)| == |AllowedAfter(calls, allowed, |calls|, key, at - 60000)|
  {
    assert calls[..|calls|] == calls;
    AcceptedAreAllowed(calls, allowed, |calls|, key, at - 60000);
  }

  lemma LastAnswer(calls: seq<Call>, allowed: seq<bool>, c: Call, ok: bool)
    requires |allowed| == |calls| && (ok <==> |AllowedAfter(calls, allowed, |calls|, c.key, c.at - 60000)| < c.limit)
    ensures IsRight(calls + [c], allowed + [ok], |calls|)
  {
    AllowedOfPrefix(calls, allowed, c, ok, |calls|, c.key, c.at - 60000);
  }

  lemma EarlierAnswer(calls: seq<Call>, allowed: seq<bool>, c: Call, ok: bool, i: nat)
    requires i < |calls| == |allowed| && IsRight(calls, allowed, i)
    ensures IsRight(calls + [c], allowed + [ok], i)
  {
    AllowedOfPrefix(calls, allowed, c, ok, i, calls[i].key, calls[i].at - 60000);
  }

  /** A key with no allowed call in the last minute is allowed, whatever came before. */
  lemma QuietKeyIsAllowed(calls: seq<Call>, allowed: seq<bool>, i: nat)
    requires AreAnswers(calls, allowed) && i < |calls| && calls[i].limit >= 1
    requires forall j :: 0 <= j < i && calls[j].key == calls[i].key && allowed[j] ==> calls[j].at <= calls[i].at - 60000
    ensures allowed[i]
  {
    assert IsRight(calls, allowed, i) && AllowedAfter(calls, allowed, i, calls[i].key, calls[i].at - 60000) == {};
  }

  /** What answering a call by the stored list leaves true, and what the call stores. */
  lemma CallIsAnswered(windows: map<string, seq<int>>, calls: seq<Call>, allowed: seq<bool>, c: Call, ok: bool, arr: seq<int>)
    requires Ordered(calls + [c]) && AllStored(windows, calls) && AreAnswers(calls, allowed) && arr == Stored(windows, c)
    requires ok <==> |Recent(if c.key in windows then windows[c.key] else [], c.at)| < c.limit
    ensures AllStored(windows[c.key := arr], calls + [c]) && AreAnswers(calls + [c], allowed + [ok])
    ensures Accepted(calls + [c], c.key) == Accepted(calls, c.key) + if ok then [c.at] else []
    ensures arr == Recent(Accepted(calls + [c], c.key), c.at)
    ensures forall t :: t in arr ==> c.at - 60000 < t <= c.at
  {
    AllowIsExact(windows, calls, c, arr);
    NextAnswer(calls, allowed, c, ok);
    AcceptsArePast(calls + [c], c.key, c.at);
  }

  // ---- the limiter as it runs ------------------------------------------------------------

  class SlidingLimiter {
    var windows: map<string, seq<int>>
    ghost var calls: seq<Call>
    /** The answers given so far. */
    ghost var allowed: seq<bool>

    /** Each stored list is the full accept history as of the key's last call, pruned. */
    ghost predicate Valid()
      reads this
    {
      Ordered(calls) && AllStored(windows, calls) && AreAnswers(calls, allowed)
    }

    constructor ()
      ensures Valid() && calls == [] && allowed == []
    {
      windows, calls, allowed := map[], [], [];
    }

    method Allow(key: string, limitPerMin: int, now: int) returns (ok: bool)
      requires Valid() && Ordered(calls + [Call(key, limitPerMin, now)])
      modifies this
      ensures Valid() && calls == old(calls) + [Call(key, limitPerMin, now)]
      ensures allowed == old(allowed) + [ok] && AreAnswers(calls, allowed)
      ensures Accepted(calls, key) == Accepted(old(calls), key) + if ok then [now] else []
      ensures windows == old(windows)[key := Recent(Accepted(calls, key), now)]
      ensures forall t :: t in windows[key] ==> now - 60000 < t <= now
    {
      ghost var c := Call(key, limitPerMin, now);
      var arr := Recent(if key in windows then windows[key] else [], now);
      ok := |arr| < limitPerMin;
      if ok {
        arr := arr + [now];
      }
      CallIsAnswered(windows, calls, allowed, c, ok, arr);
      windows, calls, allowed := windows[key := arr], calls + [c], allowed + [ok];
    }
  }

  /** The list an allowed or refused call stores, computed from the stored one. */
  function Stored(windows: map<string, seq<int>>, c: Call): seq<int> {
    var recent := Recent(if c.key in windows then windows[c.key] else [], c.at);
    if |recent| < c.limit then recent + [c.at] else recent
  }

  lemma AllowIsExact(windows: map<string, seq<int>>, calls: seq<Call>, c: Call, arr: seq<int>)
    requires Ordered(calls + [c]) && AllStored(windows, calls) && arr == Stored(windows, c)
    ensures Recent(if c.key in windows then windows[c.key] else [], c.at) == Recent(Accepted(calls, c.key), c.at)
    ensures Accepted(calls + [c], c.key) == Accepted(calls, c.key) +
              if |Recent(Accepted(calls, c.key), c.at)| < c.limit then [c.at] else []
    ensures arr == Recent(Accepted(calls + [c], c.key), c.at)
    ensures AllStored(windows[c.key := arr], calls + [c])
  {
    assert Stores(windows, calls, c.key);
    PruneIsExact(windows, calls, c);
    assert (calls + [c])[..|calls|] == calls;
    StoreIsExact(windows, calls, c, arr);
  }

  lemma {:induction false} AcceptsArePast(calls: seq<Call>, key: string, now: int)
    requires forall i :: 0 <= i < |calls| ==> calls[i].at <= now
    ensures forall t :: t in Accepted(calls, key) ==> t <= now
  {
    if calls != [] {
      AcceptsArePast(calls[..|calls| - 1], key, now);
    }
  }

  // ---- pruning loses nothing ----------------------------------------------------------------

  /** The time of the key's last call. */
  function LastCall(calls: seq<Call>, key: string): Option<int> {
    if calls == [] then None
    else if calls[|calls| - 1].key == key then Some(calls[|calls| - 1].at)
    else LastCall(calls[..|calls| - 1], key)
  }

  ghost predicate Stores(windows: map<string, seq<int>>, calls: seq<Call>, key: string) {
    match LastCall(calls, key)
    case None => key !in windows && Accepted(calls, key) == []
    case Some(at) => key in windows && windows[key] == Recent(Accepted(calls, key), at)
  }

  lemma {:induction false} LastCallIsPast(calls: seq<Call>, key: string, now: int)
    requires forall i :: 0 <= i < |calls| ==> calls[i].at <= now
    ensures LastCall(calls, key).Some? ==> LastCall(calls, key).value <= now
  {
    if calls != [] {
      LastCallIsPast(calls[..|calls| - 1], key, now);
    }
  }

  lemma RecentOfRecent(times: seq<int>, earlier: int, at: int)
    requires earlier <= at
    ensures Recent(Recent(times, earlier), at) == Recent(times, at)
  {
    FilterTwice(times, After(earlier - WINDOW_MS), After(at - WINDOW_MS), After(at - WINDOW_MS));
  }

  lemma PruneIsExact(windows: map<string, seq<int>>, calls: seq<Call>, c: Call)
    requires Ordered(calls + [c]) && Stores(windows, calls, c.key)
    ensures Recent(if c.key in windows then windows[c.key] else [], c.at) == Recent(Accepted(calls, c.key), c.at)
  {
    var all := calls + [c];
    assert forall i :: 0 <= i < |calls| ==> all[i] == calls[i] && all[i].at <= all[|calls|].at;
    LastCallIsPast(calls, c.key, c.at);
    var last := LastCall(calls, c.key);
    if last.Some? {
      RecentOfRecent(Accepted(calls, c.key), last.value, c.at);
    }
  }

  ghost predicate AllStored(windows: map<string, seq<int>>, calls: seq<Call>) {
    forall key :: Stores(windows, calls, key)
  }

  lemma RecentAfter(times: seq<int>, c: Call)
    ensures Recent(times + [c.at], c.at) == Recent(times, c.at) + [c.at]
  {
    FilterSnoc(times, c.at, After(c.at - WINDOW_MS));
  }

  lemma StoresNext(windows: map<string, seq<int>>, calls: seq<Call>, c: Call, key: string, times: seq<int>)
    requires Stores(windows, calls, key)
    requires times == Recent(Accepted(calls + [c], c.key), c.at)
    ensures Stores(windows[c.key := times], calls + [c], key)
  {
    assert (calls + [c])[..|calls|] == calls;
  }

  lemma StoreIsExact(windows: map<string, seq<int>>, calls: seq<Call>, c: Call, times: seq<int>)
    requires AllStored(windows, calls)
    requires var recent := Recent(Accepted(calls, c.key), c.at);
             times == if |recent| < c.limit then recent + [c.at] else recent
    ensures times == Recent(Accepted(calls + [c], c.key), c.at)
    ensures AllStored(windows[c.key := times], calls + [c])
  {
    assert (calls + [c])[..|calls|] == calls;
    RecentAfter(Accepted(calls, c.key), c);
    var windows', calls' := windows[c.key := times], calls + [c];
    forall key ensures Stores(windows', calls', key) {
      assert Stores(windows, calls, key);
      StoresNext(windows, calls, c, key, times);
    }
  }

  // ---- the bound on every interval ------------------------------------------------------------

  function Within(start: int): int -> bool {
    (t: int) => start <= t < start + WINDOW_MS
  }

  ghost predicate Limited(calls: seq<Call>, key: string, limit: int) {
    forall i :: 0 <= i < |calls| && calls[i].key == key ==> calls[i].limit == limit
  }

  lemma NewAcceptFits(before: seq<int>, at: int, limit: int, start: int)
    requires |Recent(before, at)| < limit && |Seqs.Filter(before, Within(start))| <= limit
    ensures |Seqs.Filter(before + [at], Within(start))| <= limit
  {
    FilterSnoc(before, at, Within(start));
    if Within(start)(at) {
      FilterWeaker(before, Within(start), After(at - WINDOW_MS));
    }
  }

  /** With a constant limit, no half-open minute holds more accepts than the limit. */
  lemma {:induction false} EveryMinuteIsLimited(calls: seq<Call>, key: string, limit: nat, start: int)
    requires Limited(calls, key, limit)
    ensures |Seqs.Filter(Accepted(calls, key), Within(start))| <= limit
  {
    if calls != [] {
      var init, c := calls[..|calls| - 1], calls[|calls| - 1];
      EveryMinuteIsLimited(init, key, limit, start);
      if c.key == key && |Recent(Accepted(init, key), c.at)| < c.limit {
        NewAcceptFits(Accepted(init, key), c.at, limit, start);
      }
    }
  }
}
