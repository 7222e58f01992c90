/** Numbers as fixed-width bit strings, most significant bit first. */
module BitStrings {
  import opened Arithmetic

  function Pow2(n: nat): (p: int)
    ensures p > 0
  {
    if n == 0 then 1 else 2 * Pow2(n - 1)
  }

  /** The low `width` bits of `x`. */
  function Bits(x: int, width: nat): (b: seq<bool>)
    ensures |b| == width
    decreases width, x
  {
    if width == 0 then [] else Bits(x / 2, width - 1) + [x % 2 == 1]
  }

  function Zeros(n: nat): (z: seq<bool>)
    ensures |z| == n
  {
    seq(n, i => false)
  }

  /** Truncation above the width does not change the bits. */
  lemma {:induction false} BitsOfMod(x: int, n: nat, width: nat)
    requires width <= n
    ensures Bits(x % Pow2(n), width) == Bits(x, width)
    decreases width
  {
    if width > 0 {
      Halve(x, Pow2(n - 1));
      BitsOfMod(x / 2, n - 1, width - 1);
    }
  }

  /** The high bits, then the low ones. */
  lemma {:induction false} BitsSplit(x: int, a: nat, b: nat)
    ensures Bits(x, a + b) == Bits(x / Pow2(b), a) + Bits(x, b)
    decreases b
  {
    if b > 0 {
      BitsSplit(x / 2, a, b - 1);
      Halve(x, Pow2(b - 1));
    }
  }

  lemma {:induction false} BitsAppend(x: int, low: int, a: nat, b: nat)
    requires 0 <= low < Pow2(b)
    ensures Bits(x * Pow2(b) + low, a + b) == Bits(x, a) + Bits(low, b)
  {
    BitsSplit(x * Pow2(b) + low, a, b);
    QuotientIs(x * Pow2(b) + low, Pow2(b), x, low);
    BitsOfMod(x * Pow2(b) + low, b, b);
  }

  lemma {:induction false} BitsOfZero(n: nat)
    ensures Bits(0, n) == Zeros(n)
  {
    if n > 0 {
      BitsOfZero(n - 1);
    }
  }

  lemma {:induction false} BitsDetermine(x: int, y: int, n: nat)
    requires 0 <= x < Pow2(n) && 0 <= y < Pow2(n) && Bits(x, n) == Bits(y, n)
    ensures x == y
    decreases n
  {
    if n > 0 {
      var p, q := Bits(x, n), Bits(y, n);
      assert p[..n - 1] == Bits(x / 2, n - 1) && q[..n - 1] == Bits(y / 2, n - 1);
      assert p[n - 1] == (x % 2 == 1) && q[n - 1] == (y % 2 == 1);
      BitsDetermine(x / 2, y / 2, n - 1);
    }
  }
}
