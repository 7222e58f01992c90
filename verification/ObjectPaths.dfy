/** Object paths: what validation accepts, and the file an accepted path resolves to. */
module ObjectPaths {
  import opened Seqs
  import opened Text

  const SLASH := '/'
  const MAX_LENGTH := 1024

  /** A path segment that names something. */
  predicate IsProper(seg: string) {
    seg != "" && seg != "." && seg != ".." && SLASH !in seg
  }

  predicate IsSkipped(seg: string) {
    seg == "" || seg == "."
  }

  // ---- validation -----------------------------------------------------------------------

  /** `replace(/\\/g, '/')`. */
  function Slashes(s: string): (r: string)
    ensures |r| == |s|
    ensures forall i :: 0 <= i < |s| ==> r[i] == if s[i] == '\\' then SLASH else s[i]
  {
    if s == "" then "" else [if s[0] == '\\' then SLASH else s[0]] + Slashes(s[1..])
  }

  /** `replace(/^\/+/, '')`. */
  function StripLeading(s: string): (r: string)
    ensures |r| <= |s| && r == s[|s| - |r|..] && (r == "" || r[0] != SLASH)
  {
    if s != "" && s[0] == SLASH then StripLeading(s[1..]) else s
  }

  /** The segments kept, or none of them if one is `..`. */
  function Clean(segments: seq<string>): Option<seq<string>> {
    if segments == [] then Some([])
    else if IsSkipped(segments[0]) then Clean(segments[1..])
    else if segments[0] == ".." then None
    else Prepend([segments[0]], Clean(segments[1..]))
  }

  function Prepend(first: seq<string>, rest: Option<seq<string>>): Option<seq<string>> {
    if rest.None? then None else Some(first + rest.value)
  }

  lemma PrependEmpty(first: seq<string>, rest: Option<seq<string>>)
    ensures Prepend([], rest) == rest
    ensures Prepend(first, Some([])) == Some(first)
  {
    if rest.Some? {
      assert [] + rest.value == rest.value;
    }
    assert first + [] == first;
  }

  lemma PrependTwice(first: seq<string>, seg: string, rest: Option<seq<string>>)
    ensures Prepend(first, Prepend([seg], rest)) == Prepend(first + [seg], rest)
  {
    if rest.Some? {
      assert first + ([seg] + rest.value) == first + [seg] + rest.value;
    }
  }

  function Raw(value: string): string {
    StripLeading(Slashes(value))
  }

  /** The normalised path, or `None` for the refusals. */
  function Validate(value: string): Option<string> {
    if value == "" || '\0' in value || |value| > MAX_LENGTH then None
    else
      var clean := Clean(Split(Raw(value), SLASH));
      if clean.None? || clean.value == [] then None else Some(Join(clean.value, SLASH))
  }

  method CleanSegments(segments: seq<string>) returns (ok: bool, clean: seq<string>)
    ensures Clean(segments) == if ok then Some(clean) else None
  {
    clean := [];
    PrependEmpty([], Clean(segments));
    for i := 0 to |segments|
      invariant Clean(segments) == Prepend(clean, Clean(segments[i..]))
    {
      var seg := segments[i];
      assert segments[i..][1..] == segments[i + 1..];
      if IsSkipped(seg) {
        continue;
      }
      if seg == ".." {
        return false, [];
      }
      PrependTwice(clean, seg, Clean(segments[i + 1..]));
      clean := clean + [seg];
    }
    PrependEmpty(clean, None);
    return true, clean;
  }

  method ValidateObjectPath(value: string) returns (path: Option<string>)
    ensures path == Validate(value)
  {
    if value == "" || '\0' in value || |value| > MAX_LENGTH {
      return None;
    }
    var ok, clean := CleanSegments(Split(Raw(value), SLASH));
    if !ok || |clean| == 0 {
      return None;
    }
    return Some(Join(clean, SLASH));
  }

  predicate IsBucketChar(c: char) {
    'a' <= c <= 'z' || '0' <= c <= '9' || c == '.' || c == '_' || c == '-'
  }

  /** `^[a-z0-9][a-z0-9._-]{2,62}$` */
  predicate IsBucketName(name: string) {
    && 3 <= |name| <= 63
    && ('a' <= name[0] <= 'z' || '0' <= name[0] <= '9')
    && forall i :: 0 <= i < |name| ==> IsBucketChar(name[i])
  }

  // ---- resolving, as the POSIX `path` module does -----------------------------------------------

  /** Walk down (or up) from a directory. */
  function Walk(from: seq<string>, segments: seq<string>): seq<string>
    decreases |segments|
  {
    if segments == [] then from
    else if IsSkipped(segments[0]) then Walk(from, segments[1..])
    else if segments[0] == ".." then Walk(if from == [] then [] else from[..|from| - 1], segments[1..])
    else Walk(from + [segments[0]], segments[1..])
  }

  /** `path.resolve(base, p)`; an absolute path is its list of segments. */
  function Resolve(base: seq<string>, p: string): seq<string> {
    Walk(if p != "" && p[0] == SLASH then [] else base, Split(p, SLASH))
  }

  /** The length of the common part of two paths. */
  function Common(a: seq<string>, b: seq<string>): (n: nat)
    ensures n <= |a| && n <= |b| && a[..n] == b[..n]
  {
    if a == [] || b == [] || a[0] != b[0] then 0
    else
      var n := 1 + Common(a[1..], b[1..]);
      assert a[..n] == [a[0]] + a[1..][..n - 1];
      assert b[..n] == [b[0]] + b[1..][..n - 1];
      n
  }

  function Ups(n: nat): (r: seq<string>)
    ensures |r| == n && (n > 0 ==> r[0] == "..")
  {
    if n == 0 then [] else [".."] + Ups(n - 1)
  }

  /** `path.relative(from, to)`. */
  function Relative(from: seq<string>, to: seq<string>): string {
    var n := Common(from, to);
    var segments := Ups(|from| - n) + to[n..];
    if segments == [] then "" else Join(segments, SLASH)
  }

  /** Does a relative path leave its directory, or name the directory itself? */
  predicate Escapes(rel: string) {
    rel == "" || (|rel| >= 2 && rel[0] == '.' && rel[1] == '.') || rel[0] == SLASH
  }

  /** A path below `dir`, refused when it escapes. */
  function ResolveBelow(dir: seq<string>, p: string): Option<seq<string>> {
    var full := Resolve(dir, p);
    if Escapes(Relative(dir, full)) then None else Some(full)
  }

  function ResolveSafe(root: seq<string>, bucket: string, objectPath: string): Option<seq<string>> {
    ResolveBelow(Resolve(root, bucket), objectPath)
  }

  const TRANSFORM_CACHE_DIR := "_transforms"

  function ResolveCacheKey(root: seq<string>, key: string): Option<seq<string>> {
    ResolveBelow(Resolve(root, TRANSFORM_CACHE_DIR), key)
  }

  // ---- whatever is accepted stays below its directory --------------------------------------------

  lemma FirstOfJoin(segments: seq<string>)
    requires |segments| >= 1
    ensures segments[0] <= Join(segments, SLASH)
  {
  }

  /** Any string that is not refused names a file strictly below the directory. */
  lemma AcceptedIsBelow(dir: seq<string>, p: string)
    ensures ResolveBelow(dir, p).Some? ==> dir < ResolveBelow(dir, p).value
  {
    var full := Resolve(dir, p);
    var n := Common(dir, full);
    var segments := Ups(|dir| - n) + full[n..];
    if segments != [] {
      FirstOfJoin(segments);
    }
    if n < |dir| {
      assert segments[0] == "..";
      assert Escapes(Relative(dir, full));
    } else {
      assert dir == full[..n];
    }
  }

  // ---- a validated path resolves to exactly its segments ------------------------------------------

  ghost predicate AllProper(segments: seq<string>) {
    forall i :: 0 <= i < |segments| ==> IsProper(segments[i])
  }

  lemma {:induction false} WalkDown(from: seq<string>, segments: seq<string>)
    requires AllProper(segments)
    ensures Walk(from, segments) == from + segments
    decreases |segments|
  {
    if segments == [] {
      assert from + segments == from;
    } else {
      WalkDown(from + [segments[0]], segments[1..]);
      assert segments == [segments[0]] + segments[1..];
      assert from + [segments[0]] + segments[1..] == from + ([segments[0]] + segments[1..]);
    }
  }

  lemma {:induction false} CommonOfPrefix(a: seq<string>, b: seq<string>)
    ensures Common(a, a + b) == |a|
  {
    if a != [] && a + b != [] {
      assert (a + b)[1..] == a[1..] + b;
      CommonOfPrefix(a[1..], b);
    }
  }

  lemma {:induction false} CleanIsProper(segments: seq<string>)
    requires forall i :: 0 <= i < |segments| ==> SLASH !in segments[i]
    ensures Clean(segments).Some? ==> AllProper(Clean(segments).value)
  {
    if segments != [] {
      CleanIsProper(segments[1..]);
    }
  }

  lemma {:induction false} CleanOfProper(segments: seq<string>)
    requires AllProper(segments)
    ensures Clean(segments) == Some(segments)
  {
    if segments != [] {
      CleanOfProper(segments[1..]);
      assert segments == [segments[0]] + segments[1..];
    }
  }

  /** The segments of an accepted value. */
  function SegmentsOf(value: string): (segments: seq<string>)
    requires Validate(value).Some?
  {
    Clean(Split(Raw(value), SLASH)).value
  }

  lemma AcceptedSegments(value: string)
    requires Validate(value).Some?
    ensures AllProper(SegmentsOf(value)) && |SegmentsOf(value)| >= 1
    ensures Validate(value).value == Join(SegmentsOf(value), SLASH)
    ensures Split(Validate(value).value, SLASH) == SegmentsOf(value)
  {
    SplitParts(Raw(value), SLASH);
    CleanIsProper(Split(Raw(value), SLASH));
    SplitJoin(SegmentsOf(value), SLASH);
  }

  // ---- validation is idempotent ------------------------------------------------------------------------

  /** Joining the kept segments is never longer than the text, and brings in no new characters. */
  lemma {:induction false} JoinIsShorter(s: string, bad: char)
    requires bad !in s && bad != SLASH
    ensures var clean := Clean(Split(s, SLASH)); clean.Some? && clean.value != [] ==>
              |Join(clean.value, SLASH)| <= |s| && bad !in Join(clean.value, SLASH)
    decreases |s|
  {
    var i := IndexOf(s, SLASH);
    var first := s[..i];
    if i < |s| {
      var tail := s[i + 1..];
      JoinIsShorter(tail, bad);
      assert Split(s, SLASH) == [first] + Split(tail, SLASH);
      assert ([first] + Split(tail, SLASH))[1..] == Split(tail, SLASH);
      JoinFirst(first, Clean(Split(tail, SLASH)));
    } else {
      assert Clean([]) == Some([]);
      assert [s][1..] == [];
      JoinFirst(first, Some([]));
    }
  }

  lemma JoinFirst(first: string, rest: Option<seq<string>>)
    ensures var r := Prepend([first], rest); r.Some? ==>
              Join(r.value, SLASH) == if rest.value == [] then first else first + [SLASH] + Join(rest.value, SLASH)
  {
    if rest.Some? {
      assert ([first] + rest.value)[1..] == rest.value;
    }
  }

  lemma RawWithout(value: string)
    ensures |Raw(value)| <= |value| && '\\' !in Raw(value)
    ensures '\0' !in value ==> '\0' !in Raw(value)
  {
    var s := Slashes(value);
    assert '\\' !in s;
    assert '\0' !in value ==> '\0' !in s;
  }

  lemma {:induction false} SlashesOfPlain(s: string)
    requires '\\' !in s
    ensures Slashes(s) == s
  {
    assert |Slashes(s)| == |s|;
  }

  lemma FirstChar(segments: seq<string>)
    requires |segments| >= 1 && segments[0] != ""
    ensures var p := Join(segments, SLASH); p != "" && p[0] == segments[0][0] && (|segments[0]| >= 2 ==> |p| >= 2 && p[1] == segments[0][1])
  {
    FirstOfJoin(segments);
    assert Join(segments, SLASH)[..|segments[0]|] == segments[0];
  }

  /** Validating an accepted path again changes nothing. */
  lemma ValidateIsIdempotent(value: string)
    requires Validate(value).Some?
    ensures Validate(Validate(value).value) == Validate(value)
  {
    var segments, p := SegmentsOf(value), Validate(value).value;
    AcceptedSegments(value);
    RawWithout(value);
    JoinIsShorter(Raw(value), '\0');
    JoinIsShorter(Raw(value), '\\');
    FirstChar(segments);
    SlashesOfPlain(p);
    assert IsProper(segments[0]);
    assert Raw(p) == p;
    CleanOfProper(segments);
  }

  // ---- where an accepted path ends up --------------------------------------------------------------------

  predicate StartsWithDots(seg: string) {
    |seg| >= 2 && seg[0] == '.' && seg[1] == '.'
  }

  /** Below any directory: exactly the segments, unless the first begins with two dots. */
  lemma ProperResolves(dir: seq<string>, segments: seq<string>, p: string)
    requires AllProper(segments) && |segments| >= 1 && p == Join(segments, SLASH) && Split(p, SLASH) == segments
    ensures ResolveBelow(dir, p) == if StartsWithDots(segments[0]) then None else Some(dir + segments)
  {
    assert IsProper(segments[0]);
    FirstChar(segments);
    WalkDown(dir, segments);
    CommonOfPrefix(dir, segments);
    assert Ups(0) + (dir + segments)[|dir|..] == segments;
    assert |segments[0]| == 1 ==> segments[0][0] != '.';
  }

  lemma NameResolves(root: seq<string>, name: string)
    requires IsProper(name)
    ensures Resolve(root, name) == root + [name]
  {
    assert Split(name, SLASH) == [name];
    WalkDown(root, [name]);
  }

  lemma BucketIsProper(bucket: string)
    requires IsBucketName(bucket)
    ensures IsProper(bucket) && bucket != TRANSFORM_CACHE_DIR
  {
  }

  /**
   A validated path resolves to the bucket's directory followed by its segments; it is
   refused exactly if its first segment begins with two dots.
   */
  lemma ObjectResolves(root: seq<string>, bucket: string, value: string)
    requires IsBucketName(bucket) && Validate(value).Some?
    ensures ResolveSafe(root, bucket, Validate(value).value)
         == if StartsWithDots(SegmentsOf(value)[0]) then None else Some(root + [bucket] + SegmentsOf(value))
  {
    BucketIsProper(bucket);
    NameResolves(root, bucket);
    AcceptedSegments(value);
    ProperResolves(root + [bucket], SegmentsOf(value), Validate(value).value);
  }

  /** Different objects are different files. */
  lemma ObjectsAreApart(root: seq<string>, bucket: string, value: string, bucket': string, value': string)
    requires IsBucketName(bucket) && IsBucketName(bucket') && Validate(value).Some? && Validate(value').Some?
    requires ResolveSafe(root, bucket, Validate(value).value).Some?
    ensures ResolveSafe(root, bucket, Validate(value).value) == ResolveSafe(root, bucket', Validate(value').value)
       <==> bucket == bucket' && Validate(value) == Validate(value')
  {
    ObjectResolves(root, bucket, value);
    ObjectResolves(root, bucket', value');
    AcceptedSegments(value);
    AcceptedSegments(value');
    var a, b := SegmentsOf(value), SegmentsOf(value');
    if root + [bucket] + a == root + [bucket'] + b {
      assert (root + [bucket] + a)[|root|] == bucket;
      assert (root + [bucket'] + b)[|root|] == bucket';
      assert (root + [bucket] + a)[|root| + 1..] == a;
      assert (root + [bucket'] + b)[|root| + 1..] == b;
    }
  }

  lemma BelowName(root: seq<string>, name: string, p: string)
    requires IsProper(name)
    ensures ResolveBelow(Resolve(root, name), p).Some? ==>
              |ResolveBelow(Resolve(root, name), p).value| > |root| && ResolveBelow(Resolve(root, name), p).value[|root|] == name
  {
    NameResolves(root, name);
    AcceptedIsBelow(root + [name], p);
    assert (root + [name])[|root|] == name;
  }

  /** What is below one name is never below another. */
  lemma NamesAreApart(root: seq<string>, a: string, p: string, b: string, q: string)
    requires IsProper(a) && IsProper(b) && a != b
    requires ResolveBelow(Resolve(root, a), p).Some?
    ensures ResolveBelow(Resolve(root, a), p) != ResolveBelow(Resolve(root, b), q)
  {
    BelowName(root, a, p);
    BelowName(root, b, q);
  }

  /** No object of a bucket, whatever its path text, is a file of the transform cache. */
  lemma CacheIsApart(root: seq<string>, bucket: string, objectPath: string, key: string)
    requires IsBucketName(bucket) && ResolveSafe(root, bucket, objectPath).Some?
    ensures ResolveSafe(root, bucket, objectPath) != ResolveCacheKey(root, key)
  {
    BucketIsProper(bucket);
    NamesAreApart(root, bucket, objectPath, TRANSFORM_CACHE_DIR, key);
  }
}
