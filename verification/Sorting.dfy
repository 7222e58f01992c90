/** JavaScript's string order and its stable sort. */
module Sorting {
  import Seqs

  /** `a < b` on strings, character by character: JavaScript's order within the basic plane. */
  predicate Before(a: string, b: string) {
    b != "" && (a == "" || a[0] < b[0] || (a[0] == b[0] && Before(a[1..], b[1..])))
  }

  /** The strings agree up to some place, where the first ends or has the smaller character. */
  ghost predicate ComesBefore(a: string, b: string) {
    exists k :: 0 <= k <= |a| && k < |b| && a[..k] == b[..k] && (k == |a| || a[k] < b[k])
  }

  lemma SameStart(a: string, b: string)
    requires a != "" && b != "" && a[0] == b[0]
    ensures ComesBefore(a, b) <==> ComesBefore(a[1..], b[1..])
  {
    var x, y := a[1..], b[1..];
    if ComesBefore(x, y) {
      var k :| 0 <= k <= |x| && k < |y| && x[..k] == y[..k] && (k == |x| || x[k] < y[k]);
      assert a[..k + 1] == [a[0]] + x[..k] && b[..k + 1] == [b[0]] + y[..k];
    }
    if ComesBefore(a, b) {
      var k :| 0 <= k <= |a| && k < |b| && a[..k] == b[..k] && (k == |a| || a[k] < b[k]);
      assert k > 0 ==> x[..k - 1] == a[..k][1..] == b[..k][1..] == y[..k - 1];
    }
  }

  lemma OtherStart(a: string, b: string)
    requires a != "" && b != "" && a[0] != b[0]
    ensures ComesBefore(a, b) <==> a[0] < b[0]
  {
    assert a[..0] == b[..0];
    if ComesBefore(a, b) {
      var k :| 0 <= k <= |a| && k < |b| && a[..k] == b[..k] && (k == |a| || a[k] < b[k]);
      SameFirst(a, b, k);
    }
  }

  lemma SameFirst(a: string, b: string, k: nat)
    requires k <= |a| && k <= |b| && a[..k] == b[..k]
    ensures k == 0 || a[0] == b[0]
  {
    if k > 0 {
      assert a[0] == a[..k][0] && b[0] == b[..k][0];
    }
  }

  lemma {:induction false} BeforeIsLexical(a: string, b: string)
    ensures Before(a, b) <==> ComesBefore(a, b)
  {
    if a == "" || b == "" {
      assert a[..0] == b[..0];
    } else if a[0] == b[0] {
      SameStart(a, b);
      BeforeIsLexical(a[1..], b[1..]);
    } else {
      OtherStart(a, b);
    }
  }

  lemma {:induction false} BeforeIsStrict(a: string, b: string)
    requires Before(a, b)
    ensures !Before(b, a) && a != b
  {
    if a != "" && a[0] == b[0] {
      BeforeIsStrict(a[1..], b[1..]);
    }
  }

  lemma {:induction false} BeforeIsTotal(a: string, b: string)
    ensures a == b || Before(a, b) || Before(b, a)
  {
    if a != "" && b != "" && a[0] == b[0] {
      BeforeIsTotal(a[1..], b[1..]);
      assert a == [a[0]] + a[1..] && b == [b[0]] + b[1..];
    }
  }

  lemma {:induction false} BeforeIsTransitive(a: string, b: string, c: string)
    requires Before(a, b) && Before(b, c)
    ensures Before(a, c)
  {
    if a != "" && a[0] == b[0] && b[0] == c[0] {
      BeforeIsTransitive(a[1..], b[1..], c[1..]);
    }
  }

  /** A common prefix does not matter. */
  lemma {:induction false} BeforeAfterPrefix(p: string, a: string, b: string)
    ensures Before(p + a, p + b) == Before(a, b)
  {
    if p == "" {
      assert p + a == a && p + b == b;
    } else {
      assert (p + a)[1..] == p[1..] + a && (p + b)[1..] == p[1..] + b;
      BeforeAfterPrefix(p[1..], a, b);
    }
  }

  function Insert<T(!new)>(x: T, s: seq<T>, key: T -> string): (r: seq<T>)
    ensures |r| == |s| + 1
    ensures forall y :: y in r <==> y == x || y in s
  {
    if s == [] || Before(key(x), key(s[0])) then [x] + s else [s[0]] + Insert(x, s[1..], key)
  }

  /** The stable sort by `key`. */
  function Sort<T(!new)>(s: seq<T>, key: T -> string): (r: seq<T>)
    ensures |r| == |s|
    ensures forall y :: y in r <==> y in s
  {
    if s == [] then []
    else
      assert s == s[..|s| - 1] + [s[|s| - 1]];
      Insert(s[|s| - 1], Sort(s[..|s| - 1], key), key)
  }

  ghost predicate Increasing<T(!new)>(s: seq<T>, key: T -> string) {
    forall i, j :: 0 <= i < j < |s| ==> Before(key(s[i]), key(s[j]))
  }

  ghost predicate DistinctKeys<T(!new)>(s: seq<T>, key: T -> string) {
    forall i, j :: 0 <= i < j < |s| ==> key(s[i]) != key(s[j])
  }

  lemma {:induction false} InsertIncreasing<T(!new)>(x: T, s: seq<T>, key: T -> string)
    requires Increasing(s, key) && forall i :: 0 <= i < |s| ==> key(s[i]) != key(x)
    ensures Increasing(Insert(x, s, key), key)
  {
    if s == [] {
    } else if Before(key(x), key(s[0])) {
      forall j | 0 < j < |s| ensures Before(key(x), key(s[j])) {
        BeforeIsTransitive(key(x), key(s[0]), key(s[j]));
      }
    } else {
      BeforeIsTotal(key(x), key(s[0]));
      InsertIncreasing(x, s[1..], key);
      var r := Insert(x, s[1..], key);
      forall j | 0 <= j < |r| ensures Before(key(s[0]), key(r[j])) {
        assert r[j] in r;
      }
    }
  }

  /** Items with distinct keys come out strictly increasing. */
  lemma {:induction false} SortIncreasing<T(!new)>(s: seq<T>, key: T -> string)
    requires DistinctKeys(s, key)
    ensures Increasing(Sort(s, key), key)
  {
    if s != [] {
      var init, last := s[..|s| - 1], s[|s| - 1];
      SortIncreasing(init, key);
      var r := Sort(init, key);
      forall i | 0 <= i < |r| ensures key(r[i]) != key(last) {
        assert r[i] in r;
      }
      InsertIncreasing(last, r, key);
    }
  }

  /** An increasing list is determined by its elements. */
  lemma {:induction false} IncreasingIsUnique<T(!new)>(a: seq<T>, b: seq<T>, key: T -> string)
    requires Increasing(a, key) && Increasing(b, key)
    requires forall y :: y in a <==> y in b
    ensures a == b
    decreases |a|
  {
    assert b != [] ==> b[0] in b;
    if a != [] {
      assert a[0] in b && b[0] in a;
      FirstIsLeast(a, b[0], key);
      FirstIsLeast(b, a[0], key);
      if Before(key(a[0]), key(b[0])) && Before(key(b[0]), key(a[0])) {
        BeforeIsStrict(key(a[0]), key(b[0]));
      }
      forall y ensures y in a[1..] <==> y in b[1..] {
        RestHas(a, y, key);
        RestHas(b, y, key);
      }
      IncreasingIsUnique(a[1..], b[1..], key);
      assert a == [a[0]] + a[1..] && b == [b[0]] + b[1..];
    }
  }

  lemma FirstIsLeast<T(!new)>(s: seq<T>, y: T, key: T -> string)
    requires Increasing(s, key) && y in s
    ensures y == s[0] || Before(key(s[0]), key(y))
  {
  }

  lemma RestHas<T(!new)>(s: seq<T>, y: T, key: T -> string)
    requires Increasing(s, key) && s != []
    ensures y in s[1..] <==> y in s && y != s[0]
  {
    assert s == [s[0]] + s[1..];
    if y in s[1..] {
      BeforeIsStrict(key(s[0]), key(y));
    }
  }

  /** What a filter keeps of an increasing list is increasing. */
  lemma {:induction false} FilterIncreasing<T(!new)>(s: seq<T>, key: T -> string, p: T -> bool)
    requires Increasing(s, key)
    ensures Increasing(Seqs.Filter(s, p), key)
  {
    if s != [] {
      var init, last := s[..|s| - 1], s[|s| - 1];
      FilterIncreasing(init, key, p);
      var f := Seqs.Filter(init, p);
      forall i | 0 <= i < |f| ensures Before(key(f[i]), key(last)) {
        assert f[i] in init;
      }
    }
  }
}
