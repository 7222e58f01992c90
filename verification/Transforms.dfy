/** Image transforms: the parameters a query may ask for, and the cache key of a variant. */
module Transforms {
  import opened Seqs
  import opened Text
  import opened ObjectPaths

  const MAX_DIMENSION := 2000

  datatype Resize = Cover | Contain | Fill
  datatype Format = Webp | Jpeg | Png | Avif

  datatype Params = Params(width: Option<int>, height: Option<int>, resize: Resize, format: Option<Format>, quality: Option<int>)

  /** The transform parameters of a request, each the first string given or none. */
  datatype Query = Query(width: Option<string>, height: Option<string>, resize: Option<string>,
                         format: Option<string>, quality: Option<string>)

  /** No transform asked for, a malformed parameter, or parameters to use. */
  datatype Parsed = Absent | Malformed | Wanted(params: Params)

  // ---- parsing -------------------------------------------------------------------------

  /** A dimension: `Some(None)` when not given, `None` when malformed. */
  function ParseDim(raw: Option<string>, finite: int -> bool): Option<Option<int>> {
    if raw.None? then Some(None)
    else
      var n, t := ParseInt(raw.value), Trim(raw.value);
      if n.None? || !finite(n.value) || n.value <= 0 || t == "" || exists i :: 0 <= i < |t| && !IsDigit(t[i]) then None
      else Some(Some(if n.value < MAX_DIMENSION then n.value else MAX_DIMENSION))
  }

  function ParseResize(raw: string): Option<Resize> {
    if raw == "cover" then Some(Cover) else if raw == "contain" then Some(Contain)
    else if raw == "fill" then Some(Fill) else None
  }

  function Lower(c: char): char {
    if 'A' <= c <= 'Z' then c - 'A' + 'a' else c
  }

  /** `toLowerCase`, as far as the format names can tell. */
  function LowerCase(s: string): string {
    if s == "" then "" else [Lower(s[0])] + LowerCase(s[1..])
  }

  function FormatName(f: Format): string {
    match f
    case Webp => "webp"
    case Jpeg => "jpeg"
    case Png => "png"
    case Avif => "avif"
  }

  function ResizeName(r: Resize): string {
    match r
    case Cover => "cover"
    case Contain => "contain"
    case Fill => "fill"
  }

  function ParseFormat(raw: string): Option<Format> {
    var f := LowerCase(raw);
    if f == "webp" then Some(Webp) else if f == "jpeg" then Some(Jpeg)
    else if f == "png" then Some(Png) else if f == "avif" then Some(Avif) else None
  }

  function ParseQuality(raw: string, finite: int -> bool): Option<int> {
    var q := ParseInt(raw);
    if q.None? || !finite(q.value) || q.value < 1 || q.value > 100 then None else q
  }

  function ParseResizeOr(raw: Option<string>): Option<Resize> {
    if raw.None? then Some(Cover) else ParseResize(raw.value)
  }

  function Optionally<T>(given: bool, parsed: Option<T>): Option<Option<T>> {
    if !given then Some(None) else if parsed.None? then None else Some(parsed)
  }

  function ParseFormatIn(raw: Option<string>): Option<Option<Format>> {
    Optionally(raw.Some?, if raw.None? then None else ParseFormat(raw.value))
  }

  function ParseQualityIn(raw: Option<string>, finite: int -> bool): Option<Option<int>> {
    Optionally(raw.Some?, if raw.None? then None else ParseQuality(raw.value, finite))
  }

  /** Any malformed parameter refuses the request; a resize or quality alone asks for nothing. */
  function Assemble(width: Option<Option<int>>, height: Option<Option<int>>, resize: Option<Resize>,
                    format: Option<Option<Format>>, quality: Option<Option<int>>): Parsed
  {
    if width.None? || height.None? || resize.None? || format.None? || quality.None? then Malformed
    else if width.value.None? && height.value.None? && format.value.None? then Absent
    else Wanted(Params(width.value, height.value, resize.value, format.value, quality.value))
  }

  /** `finite` says which integers are finite numbers in JavaScript. */
  function ParseTransform(q: Query, finite: int -> bool): Parsed {
    if q.width.None? && q.height.None? && q.resize.None? && q.format.None? && q.quality.None? then Absent
    else Assemble(ParseDim(q.width, finite), ParseDim(q.height, finite), ParseResizeOr(q.resize),
                  ParseFormatIn(q.format), ParseQualityIn(q.quality, finite))
  }

  /** What the parameters of a parsed request are like: no stand-in value is among them. */
  predicate IsLegal(p: Params) {
    && (p.width.Some? ==> 1 <= p.width.value <= MAX_DIMENSION)
    && (p.height.Some? ==> 1 <= p.height.value <= MAX_DIMENSION)
    && (p.quality.Some? ==> 1 <= p.quality.value <= 100)
    && (p.width.Some? || p.height.Some? || p.format.Some?)
  }

  predicate InRange(n: Option<Option<int>>, most: int) {
    n.Some? && n.value.Some? ==> 1 <= n.value.value <= most
  }

  lemma DimInRange(raw: Option<string>, finite: int -> bool)
    ensures InRange(ParseDim(raw, finite), MAX_DIMENSION)
  {
  }

  lemma QualityInRange(raw: Option<string>, finite: int -> bool)
    ensures InRange(ParseQualityIn(raw, finite), 100)
  {
  }

  lemma AssembledIsLegal(width: Option<Option<int>>, height: Option<Option<int>>, resize: Option<Resize>,
                         format: Option<Option<Format>>, quality: Option<Option<int>>)
    requires InRange(width, MAX_DIMENSION) && InRange(height, MAX_DIMENSION) && InRange(quality, 100)
    ensures Assemble(width, height, resize, format, quality).Wanted? ==> IsLegal(Assemble(width, height, resize, format, quality).params)
  {
  }

  lemma WantedIsLegal(q: Query, finite: int -> bool)
    ensures ParseTransform(q, finite).Wanted? ==> IsLegal(ParseTransform(q, finite).params)
  {
    DimInRange(q.width, finite);
    DimInRange(q.height, finite);
    QualityInRange(q.quality, finite);
    AssembledIsLegal(ParseDim(q.width, finite), ParseDim(q.height, finite), ParseResizeOr(q.resize),
                     ParseFormatIn(q.format), ParseQualityIn(q.quality, finite));
  }

  // ---- the cache key -------------------------------------------------------------------------

  /** What is hashed: the object, the parameters with their stand-ins, and a fingerprint of the content. */
  datatype Canonical = Canonical(bucket: string, path: string, width: int, height: int, resize: string, format: string,
                                 quality: int, size: nat, mtime: int)

  function OrZero(n: Option<int>): int {
    if n.None? then 0 else n.value
  }

  function CanonicalOf(bucket: string, path: string, p: Params, size: nat, mtime: int): Canonical {
    Canonical(bucket, path, OrZero(p.width), OrZero(p.height), ResizeName(p.resize),
              if p.format.None? then "orig" else FormatName(p.format.value), OrZero(p.quality), size, mtime)
  }

  function Extension(p: Params): string {
    if p.format.None? then "img" else FormatName(p.format.value)
  }

  function CacheKey(bucket: string, path: string, p: Params, size: nat, mtime: int, hash: Canonical -> string): string {
    bucket + "/" + (hash(CanonicalOf(bucket, path, p, size, mtime)) + "." + Extension(p))
  }

  /** A collision-free hash written without dots or slashes. */
  ghost predicate IsCollisionFree(hash: Canonical -> string) {
    && (forall c :: '.' !in hash(c) && '/' !in hash(c))
    && (forall c, d :: hash(c) == hash(d) ==> c == d)
  }

  lemma FirstPartEqual(a: string, b: string, sep: char, x: string, y: string)
    requires sep !in a && sep !in b && a + [sep] + x == b + [sep] + y
    ensures a == b && x == y
  {
    IndexOfPrefix(a, sep, x);
    IndexOfPrefix(b, sep, y);
    assert (a + [sep] + x)[..|a|] == a && (b + [sep] + y)[..|b|] == b;
    assert (a + [sep] + x)[|a| + 1..] == x && (b + [sep] + y)[|b| + 1..] == y;
  }

  lemma NamesDiffer(f: Option<Format>, g: Option<Format>)
    requires (if f.None? then "orig" else FormatName(f.value)) == (if g.None? then "orig" else FormatName(g.value))
    ensures f == g
  {
    assert "orig"[0] == 'o' && "webp"[0] == 'w' && "jpeg"[0] == 'j' && "png"[0] == 'p' && "avif"[0] == 'a';
  }

  lemma ResizesDiffer(r: Resize, s: Resize)
    requires ResizeName(r) == ResizeName(s)
    ensures r == s
  {
    assert "cover"[2] == 'v' && "contain"[2] == 'n' && "fill"[2] == 'l';
  }

  /** Legal parameters are told apart by what is hashed. */
  lemma CanonicalIsInjective(bucket: string, path: string, p: Params, size: nat, mtime: int,
                             bucket': string, path': string, p': Params, size': nat, mtime': int)
    requires IsLegal(p) && IsLegal(p')
    requires CanonicalOf(bucket, path, p, size, mtime) == CanonicalOf(bucket', path', p', size', mtime')
    ensures bucket == bucket' && path == path' && p == p' && size == size' && mtime == mtime'
  {
    NamesDiffer(p.format, p'.format);
    ResizesDiffer(p.resize, p'.resize);
  }

  /** Variants share a key only if they are the same variant of the same content. */
  lemma CacheKeyIsInjective(bucket: string, path: string, p: Params, size: nat, mtime: int,
                            bucket': string, path': string, p': Params, size': nat, mtime': int, hash: Canonical -> string)
    requires IsLegal(p) && IsLegal(p') && IsCollisionFree(hash) && '/' !in bucket && '/' !in bucket'
    requires CacheKey(bucket, path, p, size, mtime, hash) == CacheKey(bucket', path', p', size', mtime', hash)
    ensures bucket == bucket' && path == path' && p == p' && size == size' && mtime == mtime'
  {
    var c, d := CanonicalOf(bucket, path, p, size, mtime), CanonicalOf(bucket', path', p', size', mtime');
    FirstPartEqual(bucket, bucket', '/', hash(c) + "." + Extension(p), hash(d) + "." + Extension(p'));
    FirstPartEqual(hash(c), hash(d), '.', Extension(p), Extension(p'));
    CanonicalIsInjective(bucket, path, p, size, mtime, bucket', path', p', size', mtime');
  }

  /** The key names one file of the cache directory: the bucket's folder, then hash and extension. */
  lemma CacheKeyResolves(root: seq<string>, bucket: string, path: string, p: Params, size: nat, mtime: int, hash: Canonical -> string)
    requires IsBucketName(bucket) && IsCollisionFree(hash) && hash(CanonicalOf(bucket, path, p, size, mtime)) != ""
    ensures ResolveCacheKey(root, CacheKey(bucket, path, p, size, mtime, hash))
         == Some(root + [TRANSFORM_CACHE_DIR] + [bucket, hash(CanonicalOf(bucket, path, p, size, mtime)) + "." + Extension(p)])
  {
    HashFileResolves(root, TRANSFORM_CACHE_DIR, bucket, hash(CanonicalOf(bucket, path, p, size, mtime)), Extension(p));
  }

  lemma HashFileResolves(root: seq<string>, cache: string, bucket: string, hash: string, ext: string)
    requires IsProper(cache) && IsBucketName(bucket) && hash != "" && '.' !in hash && '/' !in hash && '/' !in ext
    ensures ResolveBelow(Resolve(root, cache), bucket + "/" + (hash + "." + ext)) == Some(root + [cache] + [bucket, hash + "." + ext])
  {
    var name := hash + "." + ext;
    assert name[0] == hash[0] && name[0] != '.';
    BucketIsProper(bucket);
    NameResolves(root, cache);
    var segments := [bucket, name];
    assert segments[1..] == [name];
    assert Join(segments, SLASH) == bucket + "/" + name;
    SplitJoin(segments, SLASH);
    ProperResolves(root + [cache], segments, bucket + "/" + name);
  }

  // ---- the answer's type --------------------------------------------------------------------------

  /** A raster image, judged by its stored type. */
  predicate IsTransformable(mime: string) {
    var m := LowerCase(mime);
    m != "image/svg+xml" && "image/" <= m
  }

  function OutputMime(p: Params, sourceMime: string): string {
    if p.format.None? then sourceMime else "image/" + FormatName(p.format.value)
  }
}
