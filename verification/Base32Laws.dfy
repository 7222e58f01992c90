/** Base32 as numbers: bytes and symbols are digits of one number in two bases. */
module Base32Laws {
  import opened Arithmetic
  import opened BitStrings
  import opened Base32

  /** The number whose digits are `xs`, most significant first. */
  function NumberOf(xs: seq<int>, base: int): int {
    if xs == [] then 0 else NumberOf(xs[..|xs| - 1], base) * base + xs[|xs| - 1]
  }

  ghost predicate AreDigits(xs: seq<int>, base: int) {
    forall i :: 0 <= i < |xs| ==> 0 <= xs[i] < base
  }

  lemma {:induction false} NumberIsSmall(xs: seq<int>, width: nat)
    requires AreDigits(xs, Pow2(width))
    ensures 0 <= NumberOf(xs, Pow2(width)) < Pow2(width * |xs|)
  {
    if xs != [] {
      var n := |xs| - 1;
      NumberIsSmall(xs[..n], width);
      assert width * |xs| == width * n + width;
      PowersMultiply(width * n, width);
      DigitFits(NumberOf(xs[..n], Pow2(width)), Pow2(width * n), xs[n], Pow2(width));
    }
  }

  lemma DigitFits(high: int, highLimit: int, low: int, base: int)
    requires 0 <= high < highLimit && 0 <= low < base
    ensures 0 <= high * base + low < highLimit * base
  {
    MultipleAtLeast(base, highLimit - high);
    assert base * (highLimit - high) == highLimit * base - high * base;
    assert high * base >= 0;
  }

  /** Digits written in bits are the bits of their number. */
  lemma {:induction false} GroupsAreNumber(xs: seq<int>, width: nat)
    requires AreDigits(xs, Pow2(width))
    ensures GroupBits(xs, width) == Bits(NumberOf(xs, Pow2(width)), width * |xs|)
  {
    if xs != [] {
      var n := |xs| - 1;
      GroupsAreNumber(xs[..n], width);
      NextGroup(NumberOf(xs[..n], Pow2(width)), xs[n], n, width);
    }
  }

  lemma NextGroup(high: int, low: int, n: nat, width: nat)
    requires 0 <= low < Pow2(width)
    ensures Bits(high * Pow2(width) + low, width * (n + 1)) == Bits(high, width * n) + Bits(low, width)
  {
    assert width * (n + 1) == width * n + width;
    BitsAppend(high, low, width * n, width);
  }

  /** The symbol of a digit, as section 6 of RFC 4648 lists them. */
  function SymbolOf(d: int): char
    requires 0 <= d < 32
  {
    "ABCDEFGHIJKLMNOPQRSTUVWXYZ234567"[d]
  }

  ghost predicate Spells(s: string, digits: seq<int>) {
    && |s| == |digits| && AreDigits(digits, 32)
    && forall i :: 0 <= i < |s| ==> s[i] == SymbolOf(digits[i])
  }

  lemma SymbolIsIndexed(c: char, d: int)
    requires 0 <= d < 32 && c == SymbolOf(d)
    ensures InAlphabet(c) && IndexOf(c) == d
  {
    AlphabetIsIndexed();
  }

  lemma SpelledIndices(s: string, digits: seq<int>)
    requires Spells(s, digits)
    ensures AllInAlphabet(s) && Indices(s) == digits
  {
    forall i | 0 <= i < |s| ensures InAlphabet(s[i]) && IndexOf(s[i]) == digits[i] {
      SymbolIsIndexed(s[i], digits[i]);
    }
  }

  lemma ShiftedBits(x: int, n: nat, k: nat)
    requires 0 <= x < Pow2(n)
    ensures Bits(x * Pow2(k), n + k) == Bits(x, n) + Zeros(k) && 0 <= x * Pow2(k) < Pow2(n + k)
  {
    BitsAppend(x, 0, n, k);
    BitsOfZero(k);
    PowersMultiply(n, k);
    ScaleBelow(x, Pow2(n), Pow2(k));
  }

  lemma SameBits(x: int, y: int, n: nat)
    requires 0 <= x < Pow2(n) && 0 <= y < Pow2(n)
    ensures Bits(x, n) == Bits(y, n) <==> x == y
  {
    if Bits(x, n) == Bits(y, n) {
      BitsDetermine(x, y, n);
    }
  }

  /** The bits of the symbols and of the bytes, each as one number. */
  ghost predicate HaveBits(s: string, x: int, bytes: seq<int>, y: int) {
    && AllInAlphabet(s)
    && 0 <= x < Pow2(5 * |s|) && SymbolBits(s) == Bits(x, 5 * |s|)
    && 0 <= y < Pow2(8 * |bytes|) && ByteBits(bytes) == Bits(y, 8 * |bytes|)
  }

  lemma NumbersHaveBits(s: string, digits: seq<int>, x: int, bytes: seq<int>, y: int)
    requires Spells(s, digits) && x == NumberOf(digits, 32)
    requires AreBytes(bytes) && y == NumberOf(bytes, 256)
    ensures HaveBits(s, x, bytes, y)
  {
    PowersOfTwo();
    SpelledIndices(s, digits);
    GroupsAreNumber(digits, 5);
    GroupsAreNumber(bytes, 8);
    NumberIsSmall(digits, 5);
    NumberIsSmall(bytes, 8);
  }

  lemma EncodingIsShift(s: string, x: int, bytes: seq<int>, y: int, pad: int)
    requires HaveBits(s, x, bytes, y) && pad == 5 * |s| - 8 * |bytes|
    ensures IsEncoding(bytes, s) <==> 0 <= pad < 5 && x == y * Pow2(pad)
  {
    if 0 <= pad < 5 {
      ShiftedBits(y, 8 * |bytes|, pad);
      SameBits(x, y * Pow2(pad), 5 * |s|);
    }
  }

  /**
   A string is the encoding of some bytes exactly when its symbols, fewest that hold all
   bits, are the base-32 digits of the number of which the bytes are the base-256 digits,
   shifted left to fill the last symbol.
   */
  lemma EncodingIsNumber(bytes: seq<int>, y: int, s: string, digits: seq<int>, x: int, pad: int)
    requires AreBytes(bytes) && y == NumberOf(bytes, 256)
    requires Spells(s, digits) && x == NumberOf(digits, 32)
    requires pad == 5 * |s| - 8 * |bytes|
    ensures IsEncoding(bytes, s) <==> 0 <= pad < 5 && x == y * Pow2(pad)
  {
    NumbersHaveBits(s, digits, x, bytes, y);
    EncodingIsShift(s, x, bytes, y, pad);
  }

  /** Every string over the alphabet spells some digits. */
  lemma AlphabetSpells(s: string)
    requires forall i :: 0 <= i < |s| ==> 'A' <= s[i] <= 'Z' || '2' <= s[i] <= '7'
    ensures AllInAlphabet(s) && Spells(s, Indices(s))
  {
    AlphabetIsIndexed();
    forall i | 0 <= i < |s| ensures s[i] == SymbolOf(IndexOf(s[i])) {
      IndexIsInjective(s[i], SymbolOf(IndexOf(s[i])));
    }
  }

  lemma TopDigits(x: int, n: nat, k: nat)
    requires 0 <= x < Pow2(n + k)
    ensures Bits(x, n + k)[..n] == Bits(x / Pow2(k), n) && 0 <= x / Pow2(k) < Pow2(n)
  {
    BitsSplit(x, n, k);
    PowersMultiply(n, k);
    QuotientBelow(x, Pow2(n), Pow2(k));
  }

  lemma QuotientBelow(x: int, m: int, p: int)
    requires p > 0 && 0 <= x < m * p
    ensures 0 <= x / p < m
  {
    var q := x / p;
    if q >= m {
      ScaleKeepsOrder(m, q, p);
    } else if q < 0 {
      ScaleKeepsOrder(q, -1, p);
    }
  }

  lemma ScaleKeepsOrder(a: int, b: int, p: int)
    requires a <= b && p > 0
    ensures a * p <= b * p
  {
    assert b * p - a * p == (b - a) * p;
  }

  lemma DecodingIsQuotient(s: string, x: int, bytes: seq<int>, y: int, rest: int)
    requires AreBytes(bytes) && HaveBits(s, x, bytes, y) && rest == 5 * |s| - 8 * |bytes|
    ensures IsDecoding(s, bytes) <==> 0 <= rest < 8 && y == x / Pow2(rest)
  {
    if 0 <= rest < 8 {
      TopDigits(x, 8 * |bytes|, rest);
      SameBits(y, x / Pow2(rest), 8 * |bytes|);
    }
  }

  /** What a string decodes to is its number without the bits that make up no whole byte. */
  lemma DecodingIsNumber(s: string, digits: seq<int>, x: int, bytes: seq<int>, y: int, rest: int)
    requires Spells(s, digits) && x == NumberOf(digits, 32)
    requires AreBytes(bytes) && y == NumberOf(bytes, 256)
    requires rest == 5 * |s| - 8 * |bytes|
    ensures IsDecoding(s, bytes) <==> 0 <= rest < 8 && y == x / Pow2(rest)
  {
    NumbersHaveBits(s, digits, x, bytes, y);
    DecodingIsQuotient(s, x, bytes, y, rest);
  }
}
