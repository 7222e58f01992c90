/** Serving image variants from a cache that is never told about uploads and deletions. */
module TransformCache {
  import opened Seqs
  import opened Transforms

  type Bytes = seq<bv8>

  datatype Object = Object(bucket: string, path: string)

  /** Bytes on disk with their modification time in nanoseconds. */
  datatype Content = Content(bytes: Bytes, mtime: int)

  datatype Response = NotFound | Original(bytes: Bytes, mime: string) | Variant(bytes: Bytes, mime: string)

  /** The outside world: the image library, and the hash of the cache keys. */
  datatype World = World(transform: (Bytes, Params) -> Option<Bytes>, hash: Canonical -> string)

  function KeyOf(o: Object, c: Content, p: Params, hash: Canonical -> string): string {
    CacheKey(o.bucket, o.path, p, |c.bytes|, c.mtime / 1_000_000, hash)
  }

  datatype State = State(disk: map<Object, Content>, mimes: map<Object, string>, cache: map<string, Bytes>)

  /**
   Storage events. An upload may break off and leave only part of its bytes, with the row
   as it was; a deletion may remove the bytes and not the row; reading the cache may fail,
   and so may writing it.
   */
  datatype Event =
    | Upload(target: Object, content: Content, mime: Option<string>)
    | Delete(target: Object, complete: bool)
    | Download(target: Object, wanted: Option<Params>, readable: bool, writable: bool)

  /** What a download answers when there is no cache. */
  function Answer(w: World, disk: map<Object, Content>, mimes: map<Object, string>, o: Object, wanted: Option<Params>): Response {
    if o !in mimes || o !in disk then NotFound
    else
      var c, mime := disk[o], mimes[o];
      if wanted.None? || !IsTransformable(mime) then Original(c.bytes, mime)
      else
        var made := w.transform(c.bytes, wanted.value);
        if made.None? then Original(c.bytes, mime) else Variant(made.value, OutputMime(wanted.value, mime))
  }

  /** A variant through the cache: the answer and the cache afterwards. */
  function Serve(w: World, cache: map<string, Bytes>, o: Object, c: Content, mime: string, p: Params,
                 readable: bool, writable: bool): (Response, map<string, Bytes>)
  {
    var key := KeyOf(o, c, p, w.hash);
    if readable && key in cache then (Variant(cache[key], OutputMime(p, mime)), cache)
    else
      var made := w.transform(c.bytes, p);
      if made.None? then (Original(c.bytes, mime), cache)
      else (Variant(made.value, OutputMime(p, mime)), if writable then cache[key := made.value] else cache)
  }

  function Step(w: World, s: State, e: Event): (State, Option<Response>) {
    match e
    case Upload(o, c, mime) =>
      (s.(disk := s.disk[o := c], mimes := if mime.Some? then s.mimes[o := mime.value] else s.mimes), None)
    case Delete(o, complete) =>
      (if o in s.mimes then s.(disk := s.disk - {o}, mimes := if complete then s.mimes - {o} else s.mimes) else s, None)
    case Download(o, wanted, readable, writable) =>
      if o !in s.mimes || o !in s.disk then (s, Some(NotFound))
      else if wanted.None? || !IsTransformable(s.mimes[o]) then (s, Some(Original(s.disk[o].bytes, s.mimes[o])))
      else
        var (r, cache) := Serve(w, s.cache, o, s.disk[o], s.mimes[o], wanted.value, readable, writable);
        (s.(cache := cache), Some(r))
  }

  const EMPTY := State(map[], map[], map[])

  function Run(w: World, events: seq<Event>): State {
    if events == [] then EMPTY else Step(w, Run(w, events[..|events| - 1]), events[|events| - 1]).0
  }

  /** Every upload so far. */
  function Uploads(events: seq<Event>): set<(Object, Content)> {
    set e | e in events && e.Upload? :: (e.target, e.content)
  }

  predicate SameFingerprint(c: Content, d: Content) {
    |c.bytes| == |d.bytes| && c.mtime / 1_000_000 == d.mtime / 1_000_000
  }

  ghost predicate SameVariants(w: World, c: Content, d: Content) {
    forall p :: IsLegal(p) ==> w.transform(c.bytes, p) == w.transform(d.bytes, p)
  }

  /** Contents of one object with one fingerprint give the same variants. */
  ghost predicate IsDistinguishable(w: World, uploads: set<(Object, Content)>) {
    forall u, v :: u in uploads && v in uploads && u.0 == v.0 && SameFingerprint(u.1, v.1) ==> SameVariants(w, u.1, v.1)
  }

  /** A cached variant was made, with these parameters, from something that was uploaded. */
  ghost predicate IsMadeFrom(w: World, uploads: set<(Object, Content)>, key: string, bytes: Bytes) {
    exists u, p :: u in uploads && IsLegal(p) && key == KeyOf(u.0, u.1, p, w.hash) && w.transform(u.1.bytes, p) == Some(bytes)
  }

  ghost predicate Sound(w: World, s: State, uploads: set<(Object, Content)>) {
    && (forall o :: o in s.disk ==> (o, s.disk[o]) in uploads)
    && (forall key :: key in s.cache ==> IsMadeFrom(w, uploads, key, s.cache[key]))
  }

  /** Buckets have no slash in their names, and requests carry parsed parameters. */
  predicate IsWellFormed(e: Event) {
    && (e.Upload? ==> '/' !in e.target.bucket)
    && (e.Download? && e.wanted.Some? ==> IsLegal(e.wanted.value))
  }

  ghost predicate PlainBuckets(uploads: set<(Object, Content)>) {
    forall u :: u in uploads ==> '/' !in u.0.bucket
  }

  /** What the cache holds under a variant's key is that variant of the current bytes. */
  lemma CachedIsCurrent(w: World, uploads: set<(Object, Content)>, o: Object, c: Content, p: Params, bytes: Bytes)
    requires IsCollisionFree(w.hash) && IsDistinguishable(w, uploads) && PlainBuckets(uploads)
    requires (o, c) in uploads && IsLegal(p) && IsMadeFrom(w, uploads, KeyOf(o, c, p, w.hash), bytes)
    ensures w.transform(c.bytes, p) == Some(bytes)
  {
    var u, q :| u in uploads && IsLegal(q) && KeyOf(o, c, p, w.hash) == KeyOf(u.0, u.1, q, w.hash) && w.transform(u.1.bytes, q) == Some(bytes);
    assert '/' !in (o, c).0.bucket;
    CacheKeyIsInjective(o.bucket, o.path, p, |c.bytes|, c.mtime / 1_000_000,
                        u.0.bucket, u.0.path, q, |u.1.bytes|, u.1.mtime / 1_000_000, w.hash);
    assert SameFingerprint(u.1, (o, c).1) && q == p;
    assert SameVariants(w, u.1, (o, c).1);
  }

  /** A variant made of current bytes may be kept. */
  lemma KeepSound(w: World, s: State, uploads: set<(Object, Content)>, o: Object, p: Params, bytes: Bytes)
    requires Sound(w, s, uploads) && o in s.disk && IsLegal(p) && w.transform(s.disk[o].bytes, p) == Some(bytes)
    ensures Sound(w, s.(cache := s.cache[KeyOf(o, s.disk[o], p, w.hash) := bytes]), uploads)
  {
    var u, key := (o, s.disk[o]), KeyOf(o, s.disk[o], p, w.hash);
    assert u in uploads && key == KeyOf(u.0, u.1, p, w.hash);
    assert IsMadeFrom(w, uploads, key, bytes);
  }

  lemma ServeKeepsSound(w: World, s: State, uploads: set<(Object, Content)>, o: Object, p: Params, readable: bool, writable: bool)
    requires Sound(w, s, uploads) && o in s.disk && o in s.mimes && IsLegal(p)
    ensures Sound(w, s.(cache := Serve(w, s.cache, o, s.disk[o], s.mimes[o], p, readable, writable).1), uploads)
  {
    var made := w.transform(s.disk[o].bytes, p);
    if made.Some? {
      KeepSound(w, s, uploads, o, p, made.value);
    }
    assert s.(cache := s.cache) == s;
  }

  lemma ServeIsFresh(w: World, s: State, uploads: set<(Object, Content)>, o: Object, p: Params, readable: bool, writable: bool)
    requires IsCollisionFree(w.hash) && IsDistinguishable(w, uploads) && PlainBuckets(uploads) && Sound(w, s, uploads)
    requires o in s.disk && o in s.mimes && IsLegal(p) && IsTransformable(s.mimes[o])
    ensures Serve(w, s.cache, o, s.disk[o], s.mimes[o], p, readable, writable).0 == Answer(w, s.disk, s.mimes, o, Some(p))
  {
    var key := KeyOf(o, s.disk[o], p, w.hash);
    if readable && key in s.cache {
      CachedIsCurrent(w, uploads, o, s.disk[o], p, s.cache[key]);
    }
  }

  /** A served variant is the one made afresh, and what is cached for it is sound. */
  lemma ServeIsCoherent(w: World, s: State, uploads: set<(Object, Content)>, o: Object, p: Params, readable: bool, writable: bool)
    requires IsCollisionFree(w.hash) && IsDistinguishable(w, uploads) && PlainBuckets(uploads) && Sound(w, s, uploads)
    requires o in s.disk && o in s.mimes && IsLegal(p) && IsTransformable(s.mimes[o])
    ensures var (r, cache) := Serve(w, s.cache, o, s.disk[o], s.mimes[o], p, readable, writable);
            && r == Answer(w, s.disk, s.mimes, o, Some(p))
            && Sound(w, s.(cache := cache), uploads)
  {
    ServeIsFresh(w, s, uploads, o, p, readable, writable);
    ServeKeepsSound(w, s, uploads, o, p, readable, writable);
  }

  lemma MadeFromMore(w: World, uploads: set<(Object, Content)>, more: set<(Object, Content)>, key: string, bytes: Bytes)
    requires uploads <= more && IsMadeFrom(w, uploads, key, bytes)
    ensures IsMadeFrom(w, more, key, bytes)
  {
    var u, p :| u in uploads && IsLegal(p) && key == KeyOf(u.0, u.1, p, w.hash) && w.transform(u.1.bytes, p) == Some(bytes);
    assert u in more;
  }

  lemma SoundWithMore(w: World, s: State, uploads: set<(Object, Content)>, more: set<(Object, Content)>)
    requires uploads <= more && Sound(w, s, uploads)
    ensures Sound(w, s, more)
  {
    forall key | key in s.cache ensures IsMadeFrom(w, more, key, s.cache[key]) {
      MadeFromMore(w, uploads, more, key, s.cache[key]);
    }
  }

  /** What an event adds to the uploads. */
  function Uploaded(e: Event): set<(Object, Content)> {
    if e.Upload? then {(e.target, e.content)} else {}
  }

  /** Whatever is uploaded, what is cached was made from something that was. */
  lemma StepKeepsSound(w: World, s: State, uploads: set<(Object, Content)>, e: Event)
    requires IsWellFormed(e) && Sound(w, s, uploads)
    ensures Sound(w, Step(w, s, e).0, uploads + Uploaded(e))
  {
    var more := uploads + Uploaded(e);
    SoundWithMore(w, s, uploads, more);
    match e
    case Upload(o, c, mime) =>
    case Delete(o, complete) =>
    case Download(o, wanted, readable, writable) =>
      if o in s.mimes && o in s.disk && wanted.Some? && IsTransformable(s.mimes[o]) {
        ServeKeepsSound(w, s, more, o, wanted.value, readable, writable);
      }
  }

  /** Each step answers as if there were no cache. */
  lemma StepIsCoherent(w: World, s: State, uploads: set<(Object, Content)>, e: Event)
    requires IsCollisionFree(w.hash) && IsWellFormed(e) && Sound(w, s, uploads)
    requires IsDistinguishable(w, uploads + Uploaded(e)) && PlainBuckets(uploads + Uploaded(e))
    ensures Sound(w, Step(w, s, e).0, uploads + Uploaded(e))
    ensures e.Download? ==> Step(w, s, e).1 == Some(Answer(w, s.disk, s.mimes, e.target, e.wanted))
  {
    StepKeepsSound(w, s, uploads, e);
    if e.Download? && e.target in s.mimes && e.target in s.disk && e.wanted.Some? && IsTransformable(s.mimes[e.target]) {
      assert uploads + Uploaded(e) == uploads;
      ServeIsCoherent(w, s, uploads, e.target, e.wanted.value, e.readable, e.writable);
    }
  }

  lemma DownloadKeepsSound(w: World, s: State, uploads: set<(Object, Content)>, e: Event)
    requires IsCollisionFree(w.hash) && IsWellFormed(e) && Sound(w, s, uploads) && PlainBuckets(uploads) && e.Download?
    ensures Sound(w, Step(w, s, e).0, uploads)
    ensures IsDistinguishable(w, uploads) ==> Step(w, s, e).1 == Some(Answer(w, s.disk, s.mimes, e.target, e.wanted))
  {
    assert uploads + Uploaded(e) == uploads;
    StepKeepsSound(w, s, uploads, e);
    if IsDistinguishable(w, uploads) {
      StepIsCoherent(w, s, uploads, e);
    }
  }

  // ---- whole runs ------------------------------------------------------------------------------

  lemma RunNext(w: World, events: seq<Event>, i: nat)
    requires i < |events|
    ensures Run(w, events[..i + 1]) == Step(w, Run(w, events[..i]), events[i]).0
    ensures Uploads(events[..i + 1]) == Uploads(events[..i]) + Uploaded(events[i])
  {
    var init := events[..i];
    assert events[..i + 1][..i] == init;
    assert events[..i + 1] == init + [events[i]];
    forall x | x in Uploads(init + [events[i]]) ensures x in Uploads(init) + Uploaded(events[i]) {
    }
    assert events[i] in init + [events[i]];
  }

  lemma FewerUploads(w: World, events: seq<Event>, i: nat)
    requires i <= |events| && IsDistinguishable(w, Uploads(events)) && forall j :: 0 <= j < |events| ==> IsWellFormed(events[j])
    ensures IsDistinguishable(w, Uploads(events[..i])) && PlainBuckets(Uploads(events[..i]))
  {
    assert Uploads(events[..i]) <= Uploads(events);
  }

  lemma {:induction false} RunIsSound(w: World, events: seq<Event>, i: nat)
    requires i <= |events| && forall j :: 0 <= j < |events| ==> IsWellFormed(events[j])
    ensures Sound(w, Run(w, events[..i]), Uploads(events[..i]))
    decreases i
  {
    if i > 0 {
      RunIsSound(w, events, i - 1);
      RunNext(w, events, i - 1);
      StepKeepsSound(w, Run(w, events[..i - 1]), Uploads(events[..i - 1]), events[i - 1]);
    }
  }

  /**
   Every download of a run answers as a service without a cache would, as long as
   contents of one object with one fingerprint give the same variants.
   */
  lemma EveryAnswerIsFresh(w: World, events: seq<Event>, i: nat)
    requires IsCollisionFree(w.hash) && i < |events| && events[i].Download?
    requires IsDistinguishable(w, Uploads(events)) && forall j :: 0 <= j < |events| ==> IsWellFormed(events[j])
    ensures var s := Run(w, events[..i]);
            Step(w, s, events[i]).1 == Some(Answer(w, s.disk, s.mimes, events[i].target, events[i].wanted))
  {
    RunIsSound(w, events, i);
    FewerUploads(w, events, i + 1);
    RunNext(w, events, i);
    StepIsCoherent(w, Run(w, events[..i]), Uploads(events[..i]), events[i]);
  }

  // ---- exactly when a cache is safe -----------------------------------------------------------

  /** One content uploaded and its variant made, then another uploaded. */
  function Replaced(o: Object, c: Content, d: Content, mime: string, p: Params): seq<Event> {
    [Upload(o, c, Some(mime)), Download(o, Some(p), true, true), Upload(o, d, Some(mime))]
  }

  /** The cache after a replacement holds the first content's variant, if it had one. */
  lemma AfterReplacement(w: World, o: Object, c: Content, d: Content, mime: string, p: Params)
    requires IsTransformable(mime)
    ensures var s := Run(w, Replaced(o, c, d, mime, p)); var made := w.transform(c.bytes, p);
            && s.disk == map[o := d] && s.mimes == map[o := mime]
            && s.cache == if made.Some? then map[KeyOf(o, c, p, w.hash) := made.value] else map[]
  {
    var events := Replaced(o, c, d, mime, p);
    RunNext(w, events, 0);
    RunNext(w, events, 1);
    RunNext(w, events, 2);
    assert events[..0] == [] && events[..3] == events;
    var s1 := Step(w, EMPTY, events[0]).0;
    assert s1 == State(map[o := c], map[o := mime], map[]);
    assert Step(w, s1, events[1]).0.disk == map[o := c];
  }

  lemma KeysTellFingerprints(o: Object, c: Content, d: Content, p: Params, hash: Canonical -> string)
    requires IsCollisionFree(hash) && '/' !in o.bucket && IsLegal(p)
    ensures KeyOf(o, c, p, hash) == KeyOf(o, d, p, hash) <==> SameFingerprint(c, d)
  {
    if KeyOf(o, c, p, hash) == KeyOf(o, d, p, hash) {
      CacheKeyIsInjective(o.bucket, o.path, p, |c.bytes|, c.mtime / 1_000_000,
                          o.bucket, o.path, p, |d.bytes|, d.mtime / 1_000_000, hash);
    }
  }

  /** Is the next download of the object what a service without a cache would answer? */
  ghost predicate IsFresh(w: World, s: State, o: Object, p: Params) {
    Step(w, s, Download(o, Some(p), true, true)).1 == Some(Answer(w, s.disk, s.mimes, o, Some(p)))
  }

  /**
   After a replacement the download is fresh if and only if the fingerprints differ, or
   both contents give the same variant, or the first gave none.
   */
  lemma FreshAfterReplacement(w: World, o: Object, c: Content, d: Content, mime: string, p: Params)
    requires IsCollisionFree(w.hash) && '/' !in o.bucket && IsLegal(p) && IsTransformable(mime)
    ensures IsFresh(w, Run(w, Replaced(o, c, d, mime, p)), o, p) <==>
              || !SameFingerprint(c, d)
              || w.transform(c.bytes, p) == w.transform(d.bytes, p)
              || w.transform(c.bytes, p).None?
  {
    AfterReplacement(w, o, c, d, mime, p);
    KeysTellFingerprints(o, c, d, p, w.hash);
  }

  /** A run over these uploads: well-formed events, and only uploads among them. */
  ghost predicate IsRunOver(events: seq<Event>, uploads: set<(Object, Content)>) {
    (forall j :: 0 <= j < |events| ==> IsWellFormed(events[j])) && Uploads(events) <= uploads
  }

  ghost predicate AnswersFresh(w: World, events: seq<Event>, i: nat)
    requires i < |events|
  {
    var s := Run(w, events[..i]);
    events[i].Download? ==> Step(w, s, events[i]).1 == Some(Answer(w, s.disk, s.mimes, events[i].target, events[i].wanted))
  }

  /** Every download of every run over the uploads answers as without a cache. */
  ghost predicate IsCoherentOver(w: World, uploads: set<(Object, Content)>) {
    forall events: seq<Event>, i: nat :: IsRunOver(events, uploads) && i < |events| ==> AnswersFresh(w, events, i)
  }

  lemma ReplacementIsRun(o: Object, c: Content, d: Content, mime: string, p: Params, uploads: set<(Object, Content)>)
    requires (o, c) in uploads && (o, d) in uploads && '/' !in o.bucket && IsLegal(p)
    ensures IsRunOver(Replaced(o, c, d, mime, p) + [Download(o, Some(p), true, true)], uploads)
  {
    var events := Replaced(o, c, d, mime, p) + [Download(o, Some(p), true, true)];
    forall u | u in Uploads(events) ensures u in uploads {
      var e :| e in events && e.Upload? && u == (e.target, e.content);
    }
  }

  lemma StaleRun(w: World, uploads: set<(Object, Content)>, o: Object, c: Content, d: Content, mime: string, p: Params)
    requires IsCollisionFree(w.hash) && '/' !in o.bucket && IsLegal(p) && IsTransformable(mime)
    requires (o, c) in uploads && (o, d) in uploads && SameFingerprint(c, d)
    requires w.transform(c.bytes, p) != w.transform(d.bytes, p) && w.transform(c.bytes, p).Some?
    ensures !IsCoherentOver(w, uploads)
  {
    var replaced, download := Replaced(o, c, d, mime, p), Download(o, Some(p), true, true);
    var events := replaced + [download];
    ReplacementIsRun(o, c, d, mime, p, uploads);
    FreshAfterReplacement(w, o, c, d, mime, p);
    assert events[..3] == replaced && events[3] == download;
    assert !AnswersFresh(w, events, 3);
  }

  lemma SomeRaster() returns (mime: string)
    ensures IsTransformable(mime)
  {
    mime := "image/png";
    assert LowerCase(mime)[6] == 'p';
  }

  /**
   Over a set of uploads, every download of every run answers as a service without a
   cache if and only if contents of one object with one fingerprint give the same variants.
   */
  lemma CoherentExactlyIfDistinguishable(w: World, uploads: set<(Object, Content)>)
    requires IsCollisionFree(w.hash) && PlainBuckets(uploads)
    ensures IsCoherentOver(w, uploads) <==> IsDistinguishable(w, uploads)
  {
    if IsDistinguishable(w, uploads) {
      forall events: seq<Event>, i: nat | IsRunOver(events, uploads) && i < |events| ensures AnswersFresh(w, events, i) {
        assert IsDistinguishable(w, Uploads(events));
        if events[i].Download? {
          EveryAnswerIsFresh(w, events, i);
        }
      }
    } else {
      var u, v :| u in uploads && v in uploads && u.0 == v.0 && SameFingerprint(u.1, v.1) && !SameVariants(w, u.1, v.1);
      var p :| IsLegal(p) && w.transform(u.1.bytes, p) != w.transform(v.1.bytes, p);
      var mime := SomeRaster();
      if w.transform(u.1.bytes, p).Some? {
        StaleRun(w, uploads, u.0, u.1, v.1, mime, p);
      } else {
        StaleRun(w, uploads, u.0, v.1, u.1, mime, p);
      }
    }
  }

  // ---- the service ------------------------------------------------------------------------------------

  class StorageService {
    const world: World
    var disk: map<Object, Content>
    var mimes: map<Object, string>
    var cache: map<string, Bytes>
    ghost var uploads: set<(Object, Content)>

    ghost predicate Valid()
      reads this
    {
      && IsCollisionFree(world.hash) && PlainBuckets(uploads)
      && Sound(world, State(disk, mimes, cache), uploads)
    }

    constructor (world: World)
      requires IsCollisionFree(world.hash)
      ensures Valid() && this.world == world && State(disk, mimes, cache) == EMPTY && uploads == {}
    {
      this.world, disk, mimes, cache, uploads := world, map[], map[], map[], {};
    }

    method Put(o: Object, c: Content, mime: Option<string>)
      requires Valid() && '/' !in o.bucket
      modifies this
      ensures Valid() && uploads == old(uploads) + {(o, c)}
      ensures (State(disk, mimes, cache), None) == Step(world, old(State(disk, mimes, cache)), Upload(o, c, mime))
    {
      StepKeepsSound(world, State(disk, mimes, cache), uploads, Upload(o, c, mime));
      disk := disk[o := c];
      if mime.Some? {
        mimes := mimes[o := mime.value];
      }
      uploads := uploads + {(o, c)};
    }

    method Remove(o: Object, complete: bool)
      requires Valid()
      modifies this
      ensures Valid() && uploads == old(uploads)
      ensures (State(disk, mimes, cache), None) == Step(world, old(State(disk, mimes, cache)), Delete(o, complete))
    {
      if o in mimes {
        disk := disk - {o};
        if complete {
          mimes := mimes - {o};
        }
      }
    }

    /** Serve from the cache when the variant is there, else make it and keep it; `None` when it cannot be made. */
    method OpenTransformed(o: Object, mime: string, p: Params, readable: bool, writable: bool) returns (r: Option<Response>)
      requires o in disk
      modifies this`cache
      ensures var (s, c) := Serve(world, old(cache), o, disk[o], mime, p, readable, writable);
              cache == c && s == if r.Some? then r.value else Original(disk[o].bytes, mime)
    {
      var key := KeyOf(o, disk[o], p, world.hash);
      if readable && key in cache {
        return Some(Variant(cache[key], OutputMime(p, mime)));
      }
      var made := world.transform(disk[o].bytes, p);
      if made.None? {
        return None;
      }
      if writable {
        cache := cache[key := made.value];
      }
      return Some(Variant(made.value, OutputMime(p, mime)));
    }

    method Read(o: Object, wanted: Option<Params>, readable: bool, writable: bool) returns (r: Response)
      modifies this`cache
      ensures (State(disk, mimes, cache), Some(r)) == Step(world, old(State(disk, mimes, cache)), Download(o, wanted, readable, writable))
    {
      if o !in mimes || o !in disk {
        return NotFound;
      }
      if wanted.Some? && IsTransformable(mimes[o]) {
        var variant := OpenTransformed(o, mimes[o], wanted.value, readable, writable);
        if variant.Some? {
          return variant.value;
        }
      }
      return Original(disk[o].bytes, mimes[o]);
    }

    /** A download is the download step; it answers as without a cache if fingerprints tell variants apart. */
    method Open(o: Object, wanted: Option<Params>, readable: bool, writable: bool) returns (r: Response)
      requires Valid() && (wanted.Some? ==> IsLegal(wanted.value))
      modifies this`cache
      ensures Valid()
      ensures (State(disk, mimes, cache), Some(r)) == Step(world, old(State(disk, mimes, cache)), Download(o, wanted, readable, writable))
      ensures IsDistinguishable(world, uploads) ==> r == Answer(world, disk, mimes, o, wanted)
    {
      DownloadKeepsSound(world, State(disk, mimes, cache), uploads, Download(o, wanted, readable, writable));
      r := Read(o, wanted, readable, writable);
    }
  }
}
