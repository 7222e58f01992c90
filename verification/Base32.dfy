/**
 Base32 of section 6 of RFC 4648, without padding. The accumulator `value` is a
 32-bit word that wraps; it is held as its unsigned pattern.
 */
module Base32 {
  import opened Arithmetic
  import opened BitStrings

  const ALPHABET: string := "ABCDEFGHIJKLMNOPQRSTUVWXYZ234567"
  const WORD: int := 0x1_0000_0000

  predicate IsByte(b: int) {
    0 <= b < 256
  }

  predicate AreBytes(bytes: seq<int>) {
    forall i :: 0 <= i < |bytes| ==> IsByte(bytes[i])
  }

  predicate InAlphabet(c: char) {
    'A' <= c <= 'Z' || '2' <= c <= '7'
  }

  function IndexOf(c: char): (i: int)
    requires InAlphabet(c)
    ensures 0 <= i < 32
  {
    if 'A' <= c <= 'Z' then c as int - 'A' as int else c as int - '2' as int + 26
  }

  lemma AlphabetIsIndexed()
    ensures |ALPHABET| == 32
    ensures forall i :: 0 <= i < 32 ==> InAlphabet(ALPHABET[i]) && IndexOf(ALPHABET[i]) == i
  {
  }

  lemma IndexIsInjective(c: char, d: char)
    requires InAlphabet(c) && InAlphabet(d) && IndexOf(c) == IndexOf(d)
    ensures c == d
  {
  }

  // ---- what an encoding is ------------------------------------------------------------

  /** Numbers of `width` bits each, one after the other. */
  function GroupBits(xs: seq<int>, width: nat): (b: seq<bool>)
    ensures |b| == width * |xs|
  {
    if xs == [] then [] else GroupBits(xs[..|xs| - 1], width) + Bits(xs[|xs| - 1], width)
  }

  predicate AllInAlphabet(s: string) {
    forall i :: 0 <= i < |s| ==> InAlphabet(s[i])
  }

  function Indices(s: string): (xs: seq<int>)
    requires AllInAlphabet(s)
    ensures |xs| == |s| && forall i :: 0 <= i < |s| ==> xs[i] == IndexOf(s[i])
  {
    seq(|s|, i requires 0 <= i < |s| => IndexOf(s[i]))
  }

  function ByteBits(bytes: seq<int>): (b: seq<bool>)
    ensures |b| == 8 * |bytes|
  {
    GroupBits(bytes, 8)
  }

  function SymbolBits(s: string): (b: seq<bool>)
    requires AllInAlphabet(s)
    ensures |b| == 5 * |s|
  {
    GroupBits(Indices(s), 5)
  }

  /** The bits of the bytes, zero-extended to whole five-bit groups, one symbol a group. */
  ghost predicate IsEncoding(bytes: seq<int>, s: string) {
    && AllInAlphabet(s)
    && 0 <= 5 * |s| - 8 * |bytes| < 5
    && SymbolBits(s) == ByteBits(bytes) + Zeros(5 * |s| - 8 * |bytes|)
  }

  /** The whole bytes among the symbols' bits. */
  ghost predicate IsDecoding(s: string, bytes: seq<int>) {
    && AllInAlphabet(s) && AreBytes(bytes)
    && 0 <= 5 * |s| - 8 * |bytes| < 8
    && ByteBits(bytes) == SymbolBits(s)[..8 * |bytes|]
  }

  lemma {:induction false} GroupsDetermined(a: seq<int>, b: seq<int>, width: nat)
    requires |a| == |b| && GroupBits(a, width) == GroupBits(b, width)
    requires forall i :: 0 <= i < |a| ==> 0 <= a[i] < Pow2(width) && 0 <= b[i] < Pow2(width)
    ensures a == b
  {
    if a != [] {
      var m := |a| - 1;
      var p, q := GroupBits(a[..m], width), GroupBits(b[..m], width);
      var x, y := Bits(a[m], width), Bits(b[m], width);
      assert p == (p + x)[..|p|] == (q + y)[..|p|] == q;
      assert x == (p + x)[|p|..] == (q + y)[|p|..] == y;
      GroupsDetermined(a[..m], b[..m], width);
      BitsDetermine(a[m], b[m], width);
      assert a == a[..m] + [a[m]] && b == b[..m] + [b[m]];
    }
  }

  lemma PowersOfTwo()
    ensures Pow2(5) == 32 && Pow2(8) == 256 && Pow2(32) == WORD
  {
    assert Pow2(3) == 8;
    assert Pow2(5) == 32;
    assert Pow2(8) == 256;
    PowersMultiply(8, 8);
    PowersMultiply(16, 16);
  }

  lemma Regroup(a: seq<bool>, b: seq<bool>, c: seq<bool>)
    ensures a + (b + c) == a + b + c
  {
  }

  /** A byte string has one encoding, of ceil(8n/5) symbols. */
  lemma EncodingIsUnique(bytes: seq<int>, s: string, t: string)
    requires IsEncoding(bytes, s) && IsEncoding(bytes, t)
    ensures s == t && |s| == (8 * |bytes| + 4) / 5
  {
    PowersOfTwo();
    assert |s| == |t|;
    GroupsDetermined(Indices(s), Indices(t), 5);
    forall i | 0 <= i < |s| ensures s[i] == t[i] {
      assert Indices(s)[i] == Indices(t)[i];
      IndexIsInjective(s[i], t[i]);
    }
  }

  /** A string decodes to one byte string. */
  lemma DecodingIsUnique(s: string, a: seq<int>, b: seq<int>)
    requires IsDecoding(s, a) && IsDecoding(s, b)
    ensures a == b
  {
    PowersOfTwo();
    GroupsDetermined(a, b, 8);
  }

  /** Decoding inverts encoding, for every byte string. */
  lemma DecodeInvertsEncode(bytes: seq<int>, s: string, decoded: seq<int>)
    requires AreBytes(bytes) && IsEncoding(bytes, s) && IsDecoding(s, decoded)
    ensures decoded == bytes
  {
    PowersOfTwo();
    assert |decoded| == |bytes|;
    assert SymbolBits(s)[..8 * |bytes|] == ByteBits(bytes);
    GroupsDetermined(bytes, decoded, 8);
  }

  // ---- the word accumulator --------------------------------------------------------------

  /** `(value << k) | low` in a 32-bit word, for `low` of at most k bits. */
  function ShiftIn(value: int, k: nat, low: int): int {
    value * Pow2(k) % WORD + low
  }

  /** Wrapping loses none of the pending bits. */
  lemma ShiftInBits(value: int, pending: nat, k: nat, low: int)
    requires 0 <= low < Pow2(k) && pending + k <= 32 && k <= 8
    ensures Bits(ShiftIn(value, k, low), pending + k) == Bits(value, pending) + Bits(low, k)
  {
    PowersOfTwo();
    var word := value * Pow2(k) % WORD;
    ShiftedWord(value, k);
    BitsAppend(value % Pow2(32 - k), low, pending, k);
    BitsOfMod(value, 32 - k, pending);
  }

  lemma DoubleProduct(x: int, y: int)
    ensures 2 * x * y == 2 * (x * y)
  {
  }

  lemma {:induction false} PowersMultiply(a: nat, b: nat)
    ensures Pow2(a + b) == Pow2(a) * Pow2(b)
  {
    if a > 0 {
      PowersMultiply(a - 1, b);
      DoubleProduct(Pow2(a - 1), Pow2(b));
    }
  }

  lemma ShiftedWord(value: int, k: nat)
    requires k <= 32
    ensures value * Pow2(k) % WORD == value % Pow2(32 - k) * Pow2(k)
  {
    PowersOfTwo();
    PowersMultiply(32 - k, k);
    ModScale(value, Pow2(32 - k), Pow2(k));
  }

  /** The top `k` pending bits are the next group. */
  lemma TopBits(value: int, pending: nat, k: nat)
    requires k <= pending
    ensures Bits(value, pending) ==
            Bits(value / Pow2(pending - k) % Pow2(k), k) + Bits(value, pending - k)
  {
    BitsSplit(value, k, pending - k);
    BitsOfMod(value / Pow2(pending - k), k, k);
  }

  /** The last group: the remaining bits, then zeros. */
  lemma PaddedBits(value: int, pending: nat)
    requires 0 < pending < 5
    ensures Bits(value * Pow2(5 - pending) % WORD % 32, 5) == Bits(value, pending) + Zeros(5 - pending)
  {
    PowersOfTwo();
    var x := value * Pow2(5 - pending);
    BitsOfMod(x % WORD, 5, 5);
    BitsOfMod(x, 32, 5);
    BitsAppend(value, 0, pending, 5 - pending);
    BitsOfZero(5 - pending);
  }

  /** What has been written and what is pending make up the bits read so far. */
  ghost predicate Encoded(out: string, value: int, bits: nat, read: seq<bool>) {
    AllInAlphabet(out) && SymbolBits(out) + Bits(value, bits) == read
  }

  lemma ByteBitsNext(buf: seq<int>, i: nat)
    requires i < |buf|
    ensures ByteBits(buf[..i + 1]) == ByteBits(buf[..i]) + Bits(buf[i], 8)
  {
    assert buf[..i + 1][..i] == buf[..i];
  }

  lemma ReadByte(out: string, value: int, bits: nat, buf: seq<int>, i: nat)
    requires i < |buf| && IsByte(buf[i]) && bits <= 4 && Encoded(out, value, bits, ByteBits(buf[..i]))
    ensures Encoded(out, ShiftIn(value, 8, buf[i]), bits + 8, ByteBits(buf[..i + 1]))
  {
    PowersOfTwo();
    ByteBitsNext(buf, i);
    ShiftInBits(value, bits, 8, buf[i]);
    Regroup(SymbolBits(out), Bits(value, bits), Bits(buf[i], 8));
  }

  lemma Symbol(out: string, group: int)
    requires AllInAlphabet(out) && 0 <= group < 32
    ensures AllInAlphabet(out + [ALPHABET[group]])
    ensures SymbolBits(out + [ALPHABET[group]]) == SymbolBits(out) + Bits(group, 5)
  {
    AlphabetIsIndexed();
    var longer := out + [ALPHABET[group]];
    assert Indices(longer)[..|out|] == Indices(out);
  }

  lemma WriteGroup(out: string, value: int, bits: nat, read: seq<bool>, group: int)
    requires Encoded(out, value, bits, read) && bits >= 5 && 0 <= group < 32
    requires Bits(value, bits) == Bits(group, 5) + Bits(value, bits - 5)
    ensures Encoded(out + [ALPHABET[group]], value, bits - 5, read)
  {
    Symbol(out, group);
    Regroup(SymbolBits(out), Bits(group, 5), Bits(value, bits - 5));
  }

  lemma WriteLast(out: string, value: int, bits: nat, buf: seq<int>, group: int)
    requires Encoded(out, value, bits, ByteBits(buf)) && 0 < bits < 5
    requires group == value * Pow2(5 - bits) % WORD % 32
    ensures IsEncoding(buf, out + [ALPHABET[group]])
  {
    PaddedBits(value, bits);
    Symbol(out, group);
  }

  /** `(value >>> (bits - 5)) & 31`. */
  method TopGroup(value: int, bits: nat) returns (group: int)
    requires bits >= 5
    ensures 0 <= group < 32 && Bits(value, bits) == Bits(group, 5) + Bits(value, bits - 5)
  {
    PowersOfTwo();
    TopBits(value, bits, 5);
    group := value / Pow2(bits - 5) % 32;
  }

  method Encode(buf: seq<int>) returns (out: string)
    requires AreBytes(buf)
    ensures IsEncoding(buf, out)
  {
    var bits, value := 0, 0;
    out := "";
    for i := 0 to |buf|
      invariant 0 <= bits < 5 && Encoded(out, value, bits, ByteBits(buf[..i]))
    {
      ReadByte(out, value, bits, buf, i);
      value := ShiftIn(value, 8, buf[i]);
      bits := bits + 8;
      while bits >= 5
        invariant 0 <= bits <= 12 && Encoded(out, value, bits, ByteBits(buf[..i + 1]))
      {
        var group := TopGroup(value, bits);
        WriteGroup(out, value, bits, ByteBits(buf[..i + 1]), group);
        out := out + [ALPHABET[group]];
        bits := bits - 5;
      }
    }
    assert buf[..|buf|] == buf;
    if bits > 0 {
      var group := value * Pow2(5 - bits) % WORD % 32;
      WriteLast(out, value, bits, buf, group);
      out := out + [ALPHABET[group]];
    }
  }

  // ---- decoding ------------------------------------------------------------------------

  /** Upper-casing of one character: as usual within ASCII, unspecified beyond it. */
  type Casing = char -> string

  function AsciiUpper(c: char): char {
    if 'a' <= c <= 'z' then (c as int - 32) as char else c
  }

  predicate IsCasing(up: Casing) {
    forall c: char :: (c as int) < 128 ==> up(c) == [AsciiUpper(c)]
  }

  function Kept(s: string): (r: string)
    ensures AllInAlphabet(r)
  {
    if s == "" then "" else (if InAlphabet(s[0]) then [s[0]] else "") + Kept(s[1..])
  }

  /** Upper-cased, with everything outside the alphabet removed. */
  function Clean(input: string, up: Casing): (r: string)
    ensures AllInAlphabet(r)
  {
    if input == "" then "" else Kept(up(input[0])) + Clean(input[1..], up)
  }

  ghost predicate Decoded(out: seq<int>, value: int, bits: nat, read: seq<bool>) {
    AreBytes(out) && ByteBits(out) + Bits(value, bits) == read
  }

  lemma SymbolBitsNext(s: string, i: nat)
    requires AllInAlphabet(s) && i < |s|
    ensures SymbolBits(s[..i + 1]) == SymbolBits(s[..i]) + Bits(IndexOf(s[i]), 5)
  {
    assert Indices(s[..i + 1])[..i] == Indices(s[..i]);
  }

  lemma ReadSymbol(out: seq<int>, value: int, bits: nat, clean: string, i: nat)
    requires AllInAlphabet(clean) && i < |clean| && bits <= 7 && Decoded(out, value, bits, SymbolBits(clean[..i]))
    ensures Decoded(out, ShiftIn(value, 5, IndexOf(clean[i])), bits + 5, SymbolBits(clean[..i + 1]))
  {
    var idx := IndexOf(clean[i]);
    PowersOfTwo();
    SymbolBitsNext(clean, i);
    ShiftInBits(value, bits, 5, idx);
    Regroup(ByteBits(out), Bits(value, bits), Bits(idx, 5));
  }

  lemma WriteByte(out: seq<int>, value: int, bits: nat, read: seq<bool>, byte: int)
    requires Decoded(out, value, bits, read) && bits >= 8 && IsByte(byte)
    requires Bits(value, bits) == Bits(byte, 8) + Bits(value, bits - 8)
    ensures Decoded(out + [byte], value, bits - 8, read)
  {
    assert (out + [byte])[..|out|] == out;
    assert ByteBits(out + [byte]) == ByteBits(out) + Bits(byte, 8);
    Regroup(ByteBits(out), Bits(byte, 8), Bits(value, bits - 8));
  }

  method Decode(input: string, up: Casing) returns (out: seq<int>)
    ensures IsDecoding(Clean(input, up), out)
  {
    out := DecodeSymbols(Clean(input, up));
  }

  method DecodeSymbols(clean: string) returns (out: seq<int>)
    requires AllInAlphabet(clean)
    ensures IsDecoding(clean, out)
  {
    var bits, value := 0, 0;
    out := [];
    for i := 0 to |clean|
      invariant 0 <= bits < 8 && Decoded(out, value, bits, SymbolBits(clean[..i]))
    {
      ReadSymbol(out, value, bits, clean, i);
      value := ShiftIn(value, 5, IndexOf(clean[i]));
      bits := bits + 5;
      if bits >= 8 {
        var byte := TopByte(value, bits);
        WriteByte(out, value, bits, SymbolBits(clean[..i + 1]), byte);
        out := out + [byte];
        bits := bits - 8;
      }
    }
    assert clean[..|clean|] == clean;
    WholeBytes(out, value, bits, clean);
  }

  /** `(value >>> (bits - 8)) & 0xff`. */
  method TopByte(value: int, bits: nat) returns (byte: int)
    requires bits >= 8
    ensures IsByte(byte) && Bits(value, bits) == Bits(byte, 8) + Bits(value, bits - 8)
  {
    PowersOfTwo();
    TopBits(value, bits, 8);
    byte := value / Pow2(bits - 8) % 256;
  }

  lemma WholeBytes(out: seq<int>, value: int, bits: nat, clean: string)
    requires AllInAlphabet(clean) && bits < 8 && Decoded(out, value, bits, SymbolBits(clean))
    ensures IsDecoding(clean, out)
  {
    assert (ByteBits(out) + Bits(value, bits))[..8 * |out|] == ByteBits(out);
  }

  // ---- what decoding tolerates ----------------------------------------------------------

  lemma {:induction false} CleanAppend(a: string, b: string, up: Casing)
    ensures Clean(a + b, up) == Clean(a, up) + Clean(b, up)
  {
    if a == "" {
      assert a + b == b;
    } else {
      assert (a + b)[1..] == a[1..] + b;
      CleanAppend(a[1..], b, up);
    }
  }

  lemma {:induction false} KeptAll(s: string)
    requires AllInAlphabet(s)
    ensures Kept(s) == s
  {
    if s != "" {
      KeptAll(s[1..]);
    }
  }

  lemma {:induction false} CleanKeepsSymbols(s: string, up: Casing)
    requires AllInAlphabet(s) && IsCasing(up)
    ensures Clean(s, up) == s
  {
    if s != "" {
      assert up(s[0]) == [s[0]];
      KeptAll([s[0]]);
      CleanKeepsSymbols(s[1..], up);
      assert s == [s[0]] + s[1..];
    }
  }

  /** Padding, white space and whatever else of ASCII is no symbol in either case. */
  predicate IsFiller(c: char) {
    (c as int) < 128 && !('A' <= c <= 'Z') && !('a' <= c <= 'z') && !('2' <= c <= '7')
  }

  lemma {:induction false} CleanDropsFiller(filler: string, up: Casing)
    requires IsCasing(up) && forall i :: 0 <= i < |filler| ==> IsFiller(filler[i])
    ensures Clean(filler, up) == ""
  {
    if filler != "" {
      assert up(filler[0]) == [filler[0]] && !InAlphabet(filler[0]);
      assert Kept([filler[0]]) == Kept([filler[0]][1..]) == "";
      CleanDropsFiller(filler[1..], up);
    }
  }

  lemma CleanIgnoresFiller(a: string, filler: string, b: string, up: Casing)
    requires IsCasing(up) && forall i :: 0 <= i < |filler| ==> IsFiller(filler[i])
    ensures Clean(a + filler + b, up) == Clean(a + b, up)
  {
    CleanDropsFiller(filler, up);
    CleanAppend(a + filler, b, up);
    CleanAppend(a, filler, up);
    CleanAppend(a, b, up);
  }

  /** Fillers inserted anywhere change nothing in what is decoded. */
  lemma FillerIsIgnored(a: string, filler: string, b: string, up: Casing, bytes: seq<int>, bytes': seq<int>)
    requires IsCasing(up) && forall i :: 0 <= i < |filler| ==> IsFiller(filler[i])
    requires IsDecoding(Clean(a + b, up), bytes) && IsDecoding(Clean(a + filler + b, up), bytes')
    ensures bytes == bytes'
  {
    CleanIgnoresFiller(a, filler, b, up);
    DecodingIsUnique(Clean(a + b, up), bytes, bytes');
  }

  /** Do the strings differ in the case of ASCII letters at most? */
  predicate SameButForCase(s: string, t: string) {
    |s| == |t| && forall i :: 0 <= i < |s| ==>
      s[i] == t[i] || ((s[i] as int) < 128 && (t[i] as int) < 128 && AsciiUpper(s[i]) == AsciiUpper(t[i]))
  }

  lemma {:induction false} CleanIgnoresCase(s: string, t: string, up: Casing)
    requires IsCasing(up) && SameButForCase(s, t)
    ensures Clean(s, up) == Clean(t, up)
  {
    if s != "" {
      assert up(s[0]) == up(t[0]);
      CleanIgnoresCase(s[1..], t[1..], up);
    }
  }

  /** Any letters may be in lower case. */
  lemma CaseIsIgnored(s: string, t: string, up: Casing, bytes: seq<int>, bytes': seq<int>)
    requires IsCasing(up) && SameButForCase(s, t)
    requires IsDecoding(Clean(s, up), bytes) && IsDecoding(Clean(t, up), bytes')
    ensures bytes == bytes'
  {
    CleanIgnoresCase(s, t, up);
    DecodingIsUnique(Clean(s, up), bytes, bytes');
  }

  /**
   The round trip of section 6 of RFC 4648: whatever is decoded from a string that
   cleans to what an encoding cleans to is the original byte string.
   */
  lemma RoundTrip(bytes: seq<int>, encoded: string, input: string, up: Casing, decoded: seq<int>)
    requires AreBytes(bytes) && IsCasing(up) && IsEncoding(bytes, encoded)
    requires Clean(input, up) == Clean(encoded, up) && IsDecoding(Clean(input, up), decoded)
    ensures decoded == bytes
  {
    CleanKeepsSymbols(encoded, up);
    DecodeInvertsEncode(bytes, encoded, decoded);
  }

  /** Encoding and decoding, one after the other. */
  method EncodeThenDecode(bytes: seq<int>, up: Casing) returns (decoded: seq<int>)
    requires AreBytes(bytes) && IsCasing(up)
    ensures decoded == bytes
  {
    var s := Encode(bytes);
    decoded := Decode(s, up);
    RoundTrip(bytes, s, s, up, decoded);
  }
}
