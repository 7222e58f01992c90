/** Which strings `Number.parseInt` reads as numbers, told by what they are made of. */
module NumberLaws {
  import opened Seqs
  import opened Text

  /**
   White space and line terminators by their code points: the controls from tab to carriage
   return, the byte order mark, the two line separators, and Unicode's space separators.
   */
  lemma SpacesAre(c: char)
    ensures IsSpace(c) <==>
              var p := c as int;
              || 9 <= p <= 13 || p == 65279
              || p == 8232 || p == 8233
              || p == 32 || p == 160 || p == 5760 || 8192 <= p <= 8202 || p == 8239 || p == 8287 || p == 12288
  {
  }

  ghost predicate IsBlank(s: string) {
    forall i :: 0 <= i < |s| ==> IsSpace(s[i])
  }

  predicate IsSign(s: string) {
    s == "" || s == "-" || s == "+"
  }

  /** White space up to `a`, a sign or none up to `b`, digits up to `c`, and then no digit. */
  ghost predicate IsMadeOf(s: string, a: nat, b: nat, c: nat) {
    && a <= b < c <= |s|
    && IsBlank(s[..a]) && IsSign(s[a..b]) && IsNumeral(s[b..c])
    && (c < |s| ==> !IsDigit(s[c]))
  }

  lemma {:induction false} DigitsUpTo(s: string, n: nat)
    requires n <= |s| && (n < |s| ==> !IsDigit(s[n]))
    requires forall i :: 0 <= i < n ==> IsDigit(s[i])
    ensures Digits(s) == s[..n]
  {
    if n > 0 {
      DigitsUpTo(s[1..], n - 1);
      assert s[..n] == [s[0]] + s[1..][..n - 1];
    }
  }

  lemma {:induction false} BlankUpTo(s: string, a: nat)
    requires a < |s| && !IsSpace(s[a])
    requires forall i :: 0 <= i < a ==> IsSpace(s[i])
    ensures TrimStart(s) == s[a..]
  {
    if a > 0 {
      BlankUpTo(s[1..], a - 1);
    }
  }

  lemma FirstAfterBlank(s: string, a: nat, b: nat, c: nat)
    requires IsMadeOf(s, a, b, c)
    ensures IsDigit(s[b]) && !IsSpace(s[a])
    ensures WithoutSign(s[a..]) == s[b..] && (s[a] == '-' <==> s[a..b] == "-")
  {
    assert s[b..c][0] == s[b];
    assert b > a ==> s[a..b][0] == s[a];
    assert s[a..][b - a..] == s[b..];
  }

  lemma DigitsOf(s: string, a: nat, b: nat, c: nat)
    requires IsMadeOf(s, a, b, c)
    ensures Digits(s[b..]) == s[b..c]
  {
    forall i | 0 <= i < c - b ensures IsDigit(s[b..][i]) {
      assert s[b..c][i] == s[b..][i];
    }
    DigitsUpTo(s[b..], c - b);
  }

  /** The value of a numeral, or its negation. */
  lemma SignedNumeral(negative: bool, digits: string)
    requires IsNumeral(digits)
    ensures Signed(negative, digits) == Some(if negative then -ValueOf(digits) else ValueOf(digits))
  {
  }

  lemma IntOfTrimmed(s: string, t: string, rest: string, digits: string)
    requires TrimStart(s) == t && t != "" && rest == WithoutSign(t)
    requires Digits(rest) == digits && IsNumeral(digits)
    ensures ParseInt(s) == Signed(t[0] == '-', digits)
  {
  }

  /** The number read is that of the leading digits, with its sign; what follows does not matter. */
  lemma IntIsRead(s: string, a: nat, b: nat, c: nat, digits: string)
    requires IsMadeOf(s, a, b, c) && digits == s[b..c]
    ensures ParseInt(s) == Some(if s[a..b] == "-" then -ValueOf(digits) else ValueOf(digits))
  {
    FirstAfterBlank(s, a, b, c);
    DigitsOf(s, a, b, c);
    TrimmedAt(s, a);
    IntOfTrimmed(s, s[a..], s[b..], digits);
    SignedNumeral(s[a] == '-', digits);
  }

  lemma TrimmedAt(s: string, a: nat)
    requires a < |s| && IsBlank(s[..a]) && !IsSpace(s[a])
    ensures TrimStart(s) == s[a..]
  {
    forall i | 0 <= i < a ensures IsSpace(s[i]) {
      assert s[..a][i] == s[i];
    }
    BlankUpTo(s, a);
  }

  lemma {:induction false} TrimStartIsBlank(s: string)
    ensures IsBlank(s[..|s| - |TrimStart(s)|])
  {
    if s != "" && IsSpace(s[0]) {
      TrimStartIsBlank(s[1..]);
      assert s[..|s| - |TrimStart(s)|] == [s[0]] + s[1..][..|s| - 1 - |TrimStart(s)|];
    }
  }

  lemma {:induction false} DigitsEnd(s: string)
    ensures |Digits(s)| < |s| ==> !IsDigit(s[|Digits(s)|])
  {
    if s != "" && IsDigit(s[0]) {
      DigitsEnd(s[1..]);
    }
  }

  /** Where the digits from `b` on end. */
  lemma DigitRun(s: string, b: nat) returns (c: nat)
    requires b <= |s| && Digits(s[b..]) != ""
    ensures b < c <= |s| && IsNumeral(s[b..c]) && (c < |s| ==> !IsDigit(s[c]))
  {
    var d := Digits(s[b..]);
    c := b + |d|;
    DigitsEnd(s[b..]);
    assert s[b..c] == d;
  }

  lemma DigitsAreRead(s: string)
    ensures ParseInt(s).Some? <==> Digits(WithoutSign(TrimStart(s))) != ""
  {
  }

  lemma SignRun(s: string, a: nat) returns (b: nat)
    requires a <= |s|
    ensures a <= b <= |s| && s[b..] == WithoutSign(s[a..]) && IsSign(s[a..b])
  {
    b := if s[a..] != "" && (s[a] == '-' || s[a] == '+') then a + 1 else a;
    assert b > a ==> s[a..b] == [s[a]];
  }

  /** Every other string is read as no number. */
  lemma OnlyTheseAreRead(s: string) returns (a: nat, b: nat, c: nat)
    requires ParseInt(s).Some?
    ensures IsMadeOf(s, a, b, c)
  {
    DigitsAreRead(s);
    a := |s| - |TrimStart(s)|;
    TrimStartIsBlank(s);
    b := SignRun(s, a);
    c := DigitRun(s, b);
  }

  /** A numeral's value is its last digit and ten times the value of the others. */
  lemma ValueOfDigits(digits: string, last: char)
    requires IsNumeral(digits) && IsDigit(last)
    ensures ValueOf([last]) == last as int - '0' as int
    ensures ValueOf(digits + [last]) == 10 * ValueOf(digits) + ValueOf([last])
  {
    assert (digits + [last])[..|digits|] == digits && [last][..0] == "";
  }
}
