/** What a download answers, told by the uploads and deletions before it. */
module StorageLaws {
  import opened Seqs
  import opened Transforms
  import opened TransformCache

  /** The event does not touch the object's bytes or type. */
  predicate LeavesObject(e: Event, o: Object) {
    e.Download? || e.target != o
  }

  ghost predicate LeaveObject(events: seq<Event>, o: Object) {
    forall i :: 0 <= i < |events| ==> LeavesObject(events[i], o)
  }

  /** What the object is after a run of which an upload, or a deletion, was the last to touch it. */
  predicate IsStored(s: State, o: Object, c: Content, mime: string) {
    o in s.disk && o in s.mimes && s.disk[o] == c && s.mimes[o] == mime
  }

  function RunFrom(w: World, s: State, events: seq<Event>): State {
    if events == [] then s else Step(w, RunFrom(w, s, events[..|events| - 1]), events[|events| - 1]).0
  }

  lemma {:induction false} RunSplits(w: World, a: seq<Event>, b: seq<Event>)
    ensures Run(w, a + b) == RunFrom(w, Run(w, a), b)
    decreases |b|
  {
    if b == [] {
      assert a + b == a;
    } else {
      var n := |b| - 1;
      assert (a + b)[..|a| + n] == a + b[..n] && (a + b)[|a| + n] == b[n];
      RunSplits(w, a, b[..n]);
    }
  }

  lemma {:induction false} StaysAsItIs(w: World, s: State, o: Object, events: seq<Event>)
    requires LeaveObject(events, o)
    ensures var t := RunFrom(w, s, events);
            && (o in t.disk <==> o in s.disk) && (o in s.disk ==> t.disk[o] == s.disk[o])
            && (o in t.mimes <==> o in s.mimes) && (o in s.mimes ==> t.mimes[o] == s.mimes[o])
  {
    if events != [] {
      StaysAsItIs(w, s, o, events[..|events| - 1]);
    }
  }

  /** The answer to a download without a transform, or that cannot have one, and to one that can. */
  function ServedAs(w: World, c: Content, mime: string, wanted: Option<Params>): Response {
    if wanted.Some? && IsTransformable(mime) && w.transform(c.bytes, wanted.value).Some?
    then Variant(w.transform(c.bytes, wanted.value).value, OutputMime(wanted.value, mime))
    else Original(c.bytes, mime)
  }

  /**
   A download answers with the bytes and the type of the last upload, or with the variant
   made of those bytes when one is wanted and can be made.
   */
  lemma LastUploadIsServed(w: World, before: seq<Event>, o: Object, c: Content, mime: string, after: seq<Event>,
                           wanted: Option<Params>, readable: bool, writable: bool)
    requires LeaveObject(after, o) && IsCollisionFree(w.hash)
    requires var events := before + [Upload(o, c, Some(mime))] + after + [Download(o, wanted, readable, writable)];
             IsDistinguishable(w, Uploads(events)) && forall j :: 0 <= j < |events| ==> IsWellFormed(events[j])
    ensures var s := Run(w, before + [Upload(o, c, Some(mime))] + after);
            Step(w, s, Download(o, wanted, readable, writable)).1 == Some(ServedAs(w, c, mime, wanted))
  {
    var put := before + [Upload(o, c, Some(mime))];
    var last := Download(o, wanted, readable, writable);
    var events := put + after + [last];
    var i := |put + after|;
    assert put[..|before|] == before;
    RunSplits(w, put, after);
    StaysAsItIs(w, Run(w, put), o, after);
    assert events[..i] == put + after && events[i] == last;
    EveryAnswerIsFresh(w, events, i);
  }

  /** An object that was deleted, or never uploaded, is not found until it is uploaded. */
  lemma DeletedIsNotFound(w: World, before: seq<Event>, o: Object, complete: bool, after: seq<Event>,
                          wanted: Option<Params>, readable: bool, writable: bool)
    requires LeaveObject(after, o)
    ensures var s := Run(w, before + [Delete(o, complete)] + after);
            Step(w, s, Download(o, wanted, readable, writable)).1 == Some(NotFound)
  {
    var gone := before + [Delete(o, complete)];
    assert gone[..|before|] == before;
    RunSplits(w, gone, after);
    StaysAsItIs(w, Run(w, gone), o, after);
  }

  /**
   An upload replaces the bytes, and the type if it came to an end; a deletion takes the bytes
   of a known object and, if complete, its type. Neither touches another object or the cache.
   */
  lemma ChangesAreExact(w: World, s: State, o: Object, c: Content, mime: Option<string>, complete: bool)
    ensures var t := Step(w, s, Upload(o, c, mime)).0;
            && t.disk == s.disk[o := c] && t.cache == s.cache
            && t.mimes == match mime case None => s.mimes case Some(m) => s.mimes[o := m]
    ensures var t := Step(w, s, Delete(o, complete)).0;
            && t.cache == s.cache
            && t.disk == (if o in s.mimes then s.disk - {o} else s.disk)
            && t.mimes == (if complete then s.mimes - {o} else s.mimes)
  {
    assert o !in s.mimes ==> s.mimes - {o} == s.mimes;
  }

  /** A variant is kept only where the cache can be written, and under its own key. */
  lemma DownloadKeeps(w: World, s: State, o: Object, wanted: Option<Params>, readable: bool, writable: bool)
    ensures var t := Step(w, s, Download(o, wanted, readable, writable)).0;
            && t.disk == s.disk && t.mimes == s.mimes
            && (!writable ==> t.cache == s.cache)
            && forall key :: key in s.cache && !(wanted.Some? && o in s.disk && key == KeyOf(o, s.disk[o], wanted.value, w.hash)) ==>
                 key in t.cache && t.cache[key] == s.cache[key]
  {
  }

  /** Where the cache cannot be read, the answer is made of the current bytes, whatever is cached. */
  lemma UnreadableIsFresh(w: World, s: State, o: Object, wanted: Option<Params>, writable: bool)
    ensures Step(w, s, Download(o, wanted, false, writable)).1 ==
              Some(if o in s.disk && o in s.mimes then ServedAs(w, s.disk[o], s.mimes[o], wanted) else NotFound)
  {
  }
}
