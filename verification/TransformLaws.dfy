/** What a transform query asks for, told parameter by parameter. */
module TransformLaws {
  import opened Seqs
  import opened Text
  import opened ObjectPaths
  import opened Transforms

  /** A whole number above zero, written with digits only. */
  predicate IsDimension(raw: string, finite: int -> bool) {
    IsNumeral(Trim(raw)) && ParseInt(raw).Some? && ParseInt(raw).value > 0 && finite(ParseInt(raw).value)
  }

  predicate IsQuality(raw: string, finite: int -> bool) {
    ParseInt(raw).Some? && 1 <= ParseInt(raw).value <= 100 && finite(ParseInt(raw).value)
  }

  predicate IsResize(raw: string) {
    raw == "cover" || raw == "contain" || raw == "fill"
  }

  predicate IsFormat(raw: string) {
    LowerCase(raw) == "webp" || LowerCase(raw) == "jpeg" || LowerCase(raw) == "png" || LowerCase(raw) == "avif"
  }

  /** Every parameter given is well formed. */
  predicate IsWellFormed(q: Query, finite: int -> bool) {
    && (q.width.Some? ==> IsDimension(q.width.value, finite))
    && (q.height.Some? ==> IsDimension(q.height.value, finite))
    && (q.resize.Some? ==> IsResize(q.resize.value))
    && (q.format.Some? ==> IsFormat(q.format.value))
    && (q.quality.Some? ==> IsQuality(q.quality.value, finite))
  }

  function Capped(n: int): int {
    if n > 2000 then 2000 else n
  }

  lemma DimensionRead(raw: Option<string>, finite: int -> bool)
    ensures ParseDim(raw, finite) ==
              if raw.None? then Some(None) else if IsDimension(raw.value, finite) then Some(Some(Capped(ParseInt(raw.value).value))) else None
  {
  }

  lemma QualityRead(raw: Option<string>, finite: int -> bool)
    ensures ParseQualityIn(raw, finite) ==
              if raw.None? then Some(None) else if IsQuality(raw.value, finite) then Some(Some(ParseInt(raw.value).value)) else None
  {
  }

  lemma FormatRead(raw: Option<string>)
    ensures raw.None? ==> ParseFormatIn(raw) == Some(None)
    ensures raw.Some? ==> (IsFormat(raw.value) <==> ParseFormatIn(raw).Some?)
    ensures raw.Some? && IsFormat(raw.value) ==> ParseFormatIn(raw).value.Some? && FormatName(ParseFormatIn(raw).value.value) == LowerCase(raw.value)
  {
  }

  lemma ResizeRead(raw: Option<string>)
    ensures raw.None? ==> ParseResizeOr(raw) == Some(Cover)
    ensures raw.Some? ==> (IsResize(raw.value) <==> ParseResizeOr(raw).Some?)
    ensures raw.Some? && IsResize(raw.value) ==> ResizeName(ParseResizeOr(raw).value) == raw.value
  {
  }

  /** What is asked for is what the parameters say: each its own, sizes capped at 2000, a missing resize meaning cover. */
  predicate Says(q: Query, p: Params) {
    && p.width == (if q.width.None? then None else Some(Capped(ParseIntOr0(q.width.value))))
    && p.height == (if q.height.None? then None else Some(Capped(ParseIntOr0(q.height.value))))
    && ResizeName(p.resize) == (if q.resize.None? then "cover" else q.resize.value)
    && (if q.format.None? then p.format.None? else p.format.Some? && FormatName(p.format.value) == LowerCase(q.format.value))
    && p.quality == (if q.quality.None? then None else Some(ParseIntOr0(q.quality.value)))
  }

  function ParseIntOr0(raw: string): int {
    if ParseInt(raw).Some? then ParseInt(raw).value else 0
  }

  /**
   A query is malformed if a parameter given is not well formed; else it asks for nothing
   without a size or a format, and otherwise for what its parameters say.
   */
  lemma QueryIsRead(q: Query, finite: int -> bool)
    ensures ParseTransform(q, finite).Malformed? <==> !IsWellFormed(q, finite)
    ensures ParseTransform(q, finite).Absent? <==> IsWellFormed(q, finite) && q.width.None? && q.height.None? && q.format.None?
    ensures ParseTransform(q, finite).Wanted? ==> Says(q, ParseTransform(q, finite).params)
  {
    var width, height, resize, format, quality :=
      ParseDim(q.width, finite), ParseDim(q.height, finite), ParseResizeOr(q.resize), ParseFormatIn(q.format), ParseQualityIn(q.quality, finite);
    AssembledAs(width, height, resize, format, quality);
    PartsAreRead(q, finite, width, height, resize, format, quality);
    if q == Query(None, None, None, None, None) {
      assert IsWellFormed(q, finite);
    }
  }

  lemma AssembledAs(width: Option<Option<int>>, height: Option<Option<int>>, resize: Option<Resize>,
                    format: Option<Option<Format>>, quality: Option<Option<int>>)
    ensures var parsed, good := Assemble(width, height, resize, format, quality), width.Some? && height.Some? && resize.Some? && format.Some? && quality.Some?;
            && (parsed.Malformed? <==> !good)
            && (parsed.Absent? <==> good && width.value.None? && height.value.None? && format.value.None?)
            && (parsed.Wanted? ==> good && parsed.params == Params(width.value, height.value, resize.value, format.value, quality.value))
  {
  }

  lemma PartsAreRead(q: Query, finite: int -> bool, width: Option<Option<int>>, height: Option<Option<int>>, resize: Option<Resize>,
                     format: Option<Option<Format>>, quality: Option<Option<int>>)
    requires width == ParseDim(q.width, finite) && height == ParseDim(q.height, finite) && resize == ParseResizeOr(q.resize)
    requires format == ParseFormatIn(q.format) && quality == ParseQualityIn(q.quality, finite)
    ensures width.Some? && height.Some? && resize.Some? && format.Some? && quality.Some? <==> IsWellFormed(q, finite)
    ensures IsWellFormed(q, finite) ==> Says(q, Params(width.value, height.value, resize.value, format.value, quality.value))
    ensures IsWellFormed(q, finite) ==> (width.value.None? <==> q.width.None?) && (height.value.None? <==> q.height.None?) && (format.value.None? <==> q.format.None?)
  {
    DimensionSays(q.width, finite);
    DimensionSays(q.height, finite);
    QualitySays(q.quality, finite);
    FormatRead(q.format);
    ResizeRead(q.resize);
  }

  lemma DimensionSays(raw: Option<string>, finite: int -> bool)
    ensures ParseDim(raw, finite).Some? <==> raw.None? || IsDimension(raw.value, finite)
    ensures ParseDim(raw, finite).Some? ==> ParseDim(raw, finite).value == if raw.None? then None else Some(Capped(ParseIntOr0(raw.value)))
  {
    DimensionRead(raw, finite);
  }

  lemma QualitySays(raw: Option<string>, finite: int -> bool)
    ensures ParseQualityIn(raw, finite).Some? <==> raw.None? || IsQuality(raw.value, finite)
    ensures ParseQualityIn(raw, finite).Some? ==> ParseQualityIn(raw, finite).value == if raw.None? then None else Some(ParseIntOr0(raw.value))
  {
    QualityRead(raw, finite);
  }

  /** A numeral is its number. */
  lemma DimensionOfNumeral(raw: string, n: int, finite: int -> bool)
    requires IsNumeral(raw) && ValueOf(raw) == n && n > 0 && finite(n)
    ensures IsDimension(raw, finite) && ParseInt(raw) == Some(n)
  {
    assert IsDigit(raw[0]) && IsDigit(raw[|raw| - 1]);
    TrimOfTrimmed(raw);
    NumeralValue(raw, n);
  }

  /** The names are those of the values. */
  lemma NamesAre()
    ensures FormatName(Webp) == "webp" && FormatName(Jpeg) == "jpeg" && FormatName(Png) == "png" && FormatName(Avif) == "avif"
    ensures ResizeName(Cover) == "cover" && ResizeName(Contain) == "contain" && ResizeName(Fill) == "fill"
  {
  }

  lemma {:induction false} LowerCaseAt(s: string, i: nat)
    requires i < |s|
    ensures |LowerCase(s)| == |s|
    ensures LowerCase(s)[i] == if 'A' <= s[i] <= 'Z' then (s[i] as int + 32) as char else s[i]
  {
    if i > 0 {
      LowerCaseAt(s[1..], i - 1);
    } else if |s| > 1 {
      LowerCaseAt(s[1..], 0);
    }
  }

  /** `lower` is the text with its ASCII capitals made small. */
  predicate IsLowerOf(lower: string, s: string) {
    |lower| == |s| && forall i :: 0 <= i < |s| ==> lower[i] == if 'A' <= s[i] <= 'Z' then (s[i] as int + 32) as char else s[i]
  }

  /** Images are transformed whatever case their type is written in, except drawings. */
  lemma RastersAreTransformed(mime: string, lower: string)
    requires IsLowerOf(lower, mime)
    ensures IsTransformable(mime) <==> |lower| >= 6 && lower[..6] == "image/" && lower != "image/svg+xml"
  {
    if mime != "" {
      LowerCaseAt(mime, 0);
    }
    forall i | 0 <= i < |mime| ensures LowerCase(mime)[i] == lower[i] {
      LowerCaseAt(mime, i);
    }
    assert LowerCase(mime) == lower;
  }

  /** A variant has the type of the format asked for, or else that of the image. */
  lemma VariantsAreTyped(p: Params, mime: string)
    ensures OutputMime(p, mime) ==
              match p.format
              case None => mime
              case Some(Webp) => "image/webp"
              case Some(Jpeg) => "image/jpeg"
              case Some(Png) => "image/png"
              case Some(Avif) => "image/avif"
  {
    assert "image/" + "webp" == "image/webp" && "image/" + "jpeg" == "image/jpeg";
    assert "image/" + "png" == "image/png" && "image/" + "avif" == "image/avif";
  }

  /** A variant is kept in its bucket's folder, under the hash of what it is made of and an ending for its format. */
  lemma KeysAreNamed(bucket: string, path: string, p: Params, size: nat, mtime: int, hash: Canonical -> string, name: string)
    requires name == hash(CanonicalOf(bucket, path, p, size, mtime))
    ensures CacheKey(bucket, path, p, size, mtime, hash) == bucket + "/" + (name +
              match p.format
              case None => ".img"
              case Some(Webp) => ".webp"
              case Some(Jpeg) => ".jpeg"
              case Some(Png) => ".png"
              case Some(Avif) => ".avif")
  {
    assert "." + "img" == ".img" && "." + "webp" == ".webp" && "." + "jpeg" == ".jpeg";
    assert "." + "png" == ".png" && "." + "avif" == ".avif";
    assert name + "." + Extension(p) == name + ("." + Extension(p));
  }
}
