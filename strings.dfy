/** Text operations the views rely on: decimal digits and their values, Python's
    `str(n)` and `{n:05d}` formatting, `split(...)[0]` and `split(...)[-1]`,
    `startswith`, substring containment, ASCII lower-casing and the code-point
    (binary collation) order a database uses for `order_by` on a text column. */
module Strings {

  import opened Wrappers

  predicate IsDigit(c: char) { '0' <= c <= '9' }

  predicate AllDigits(s: string) { forall i :: 0 <= i < |s| ==> IsDigit(s[i]) }

  function DigitValue(c: char): nat
    requires IsDigit(c)
  {
    c as int - '0' as int
  }

  function DigitChar(d: nat): (c: char)
    requires d < 10
    ensures IsDigit(c) && DigitValue(c) == d
  {
    ('0' as int + d) as char
  }

  function Pow10(n: nat): (p: nat)
    ensures p >= 1
  {
    if n == 0 then 1 else 10 * Pow10(n - 1)
  }

  /** The number a decimal digit string denotes: ten times the number its digits
      but the last denote, plus the last digit. */
  function Value(s: string): nat
    requires AllDigits(s)
  {
    if s == [] then 0 else 10 * Value(s[..|s| - 1]) + DigitValue(s[|s| - 1])
  }

  /** A digit string of length n denotes a number below 10^n. */
  lemma {:induction false} ValueBound(s: string)
    requires AllDigits(s)
    ensures Value(s) < Pow10(|s|)
  {
    if s != [] {
      ValueBound(s[..|s| - 1]);
    }
  }

  /** Without a leading zero, a digit string of length n denotes at least 10^(n-1). */
  lemma {:induction false} ValueLowerBound(s: string)
    requires AllDigits(s) && |s| > 0 && s[0] != '0'
    ensures Value(s) >= Pow10(|s| - 1)
  {
    if |s| > 1 {
      var init := s[..|s| - 1];
      assert init[0] == s[0];
      ValueLowerBound(init);
    }
  }

  /** Appending a digit multiplies by ten and adds the digit. */
  lemma ValueSnoc(s: string, c: char)
    requires AllDigits(s) && IsDigit(c)
    ensures AllDigits(s + [c])
    ensures Value(s + [c]) == 10 * Value(s) + DigitValue(c)
  {
    var t := s + [c];
    assert AllDigits(t) by {
      forall i | 0 <= i < |t| ensures IsDigit(t[i]) {
        if i < |s| { assert t[i] == s[i]; }
      }
    }
    assert t[..|s|] == s;
  }

  /** A string of zeros denotes 0. */
  lemma {:induction false} ZerosValue(n: nat)
    ensures Value(Zeros(n)) == 0
  {
    if n > 0 {
      assert Zeros(n)[..n - 1] == Zeros(n - 1);
      ZerosValue(n - 1);
    }
  }

  /** Leading zeros do not change the value. */
  lemma {:induction false} ValueLeadingZeros(z: nat, s: string)
    requires AllDigits(s)
    ensures AllDigits(Zeros(z) + s) && Value(Zeros(z) + s) == Value(s)
  {
    var t := Zeros(z) + s;
    assert AllDigits(t) by {
      forall i | 0 <= i < |t| ensures IsDigit(t[i]) {
        if i >= z { assert t[i] == s[i - z]; }
      }
    }
    if s == [] {
      assert t == Zeros(z);
      ZerosValue(z);
    } else {
      var init := s[..|s| - 1];
      ValueLeadingZeros(z, init);
      assert t[..|t| - 1] == Zeros(z) + init;
    }
  }

  function Zeros(n: nat): (z: string)
    ensures |z| == n && AllDigits(z)
    ensures forall i :: 0 <= i < n ==> z[i] == '0'
  {
    if n == 0 then "" else "0" + Zeros(n - 1)
  }

  /** Python's `str(n)` for a non-negative integer. */
  function NatToString(n: nat): (s: string)
    ensures |s| >= 1 && AllDigits(s) && Value(s) == n
    ensures s[0] == '0' <==> n == 0
    ensures n == 0 ==> s == "0"
    decreases n
  {
    if n < 10 then [DigitChar(n)]
    else
      var t := NatToString(n / 10);
      ValueSnoc(t, DigitChar(n % 10));
      t + [DigitChar(n % 10)]
  }

  /** `str` prints as many digits as the number needs and no more. */
  lemma NatToStringLength(n: nat)
    ensures n < Pow10(|NatToString(n)|)
    ensures |NatToString(n)| > 1 ==> Pow10(|NatToString(n)| - 1) <= n
  {
    var s := NatToString(n);
    ValueBound(s);
    if |s| > 1 { ValueLowerBound(s); }
  }

  /** Distinct numbers print differently. */
  lemma NatToStringInjective(a: nat, b: nat)
    requires NatToString(a) == NatToString(b)
    ensures a == b
  {
  }

  /** Python's `'{:0Nd}'.format(s)` padding: zeros on the left up to `width` characters. */
  function ZeroPad(s: string, width: nat): (r: string)
    requires AllDigits(s)
    ensures AllDigits(r) && Value(r) == Value(s)
    ensures |r| == if |s| >= width then |s| else width
    ensures r[|r| - |s|..] == s
  {
    if |s| >= width then s
    else
      ValueLeadingZeros(width - |s|, s);
      Zeros(width - |s|) + s
  }

  /** Python's `f'{n:05d}'` for a non-negative integer. */
  function Format05(n: nat): string
  {
    ZeroPad(NatToString(n), 5)
  }

  /** `{n:05d}` is a digit string denoting n; it has exactly five characters
      precisely when n is below 100000, and more characters otherwise. */
  lemma Format05Facts(n: nat)
    ensures AllDigits(Format05(n)) && Value(Format05(n)) == n
    ensures |Format05(n)| == 5 <==> n < 100000
    ensures |Format05(n)| >= 5
  {
    NatToStringLength(n);
    var s := NatToString(n);
    assert Pow10(5) == 100000;
    if |s| >= 6 {
      PowMono(5, |s| - 1);
    } else {
      PowMono(|s|, 5);
    }
  }

  lemma {:induction false} PowMono(a: nat, b: nat)
    requires a <= b
    ensures Pow10(a) <= Pow10(b)
  {
    if a < b { PowMono(a, b - 1); }
  }

  /** Python's `int(s)` for a string of ASCII digits; anything else raises ValueError. */
  function ParseNat(s: string): (r: Option<nat>)
    ensures r.Some? <==> |s| > 0 && AllDigits(s)
    ensures r.Some? ==> r.value == Value(s)
  {
    if |s| > 0 && AllDigits(s) then Some(Value(s)) else None
  }

  predicate StartsWith(s: string, p: string) { |p| <= |s| && s[..|p|] == p }

  /** `t in s` for strings: t occurs as a contiguous piece of s. */
  predicate ContainsSub(s: string, t: string)
    decreases |s|
  {
    StartsWith(s, t) || (|s| > 0 && ContainsSub(s[1..], t))
  }

  /** A piece at a given position is contained. */
  lemma {:induction false} ContainsAt(s: string, t: string, i: nat)
    requires i + |t| <= |s| && s[i..i + |t|] == t
    ensures ContainsSub(s, t)
  {
    if i > 0 {
      assert s[1..][i - 1..i - 1 + |t|] == s[i..i + |t|];
      ContainsAt(s[1..], t, i - 1);
    }
  }

  /** A contained piece sits at some position. */
  lemma {:induction false} ContainsWitness(s: string, t: string) returns (i: nat)
    requires ContainsSub(s, t)
    ensures i + |t| <= |s| && s[i..i + |t|] == t
  {
    if StartsWith(s, t) {
      i := 0;
    } else {
      var j := ContainsWitness(s[1..], t);
      assert s[1..][j..j + |t|] == s[j + 1..j + 1 + |t|];
      i := j + 1;
    }
  }

  /** Text around a contained piece keeps it contained. */
  lemma ContainsExtend(a: string, s: string, b: string, t: string)
    requires ContainsSub(s, t)
    ensures ContainsSub(a + s + b, t)
  {
    var i := ContainsWitness(s, t);
    var w := a + s + b;
    assert w[|a| + i..|a| + i + |t|] == s[i..i + |t|];
    ContainsAt(w, t, |a| + i);
  }

  function LowerChar(c: char): char
  {
    if 'A' <= c <= 'Z' then (c as int + 32) as char else c
  }

  /** ASCII `str.lower()`. */
  function Lower(s: string): (r: string)
    ensures |r| == |s|
    ensures forall i :: 0 <= i < |s| ==> r[i] == LowerChar(s[i])
  {
    seq(|s|, i requires 0 <= i < |s| => LowerChar(s[i]))
  }

  lemma LowerConcat(a: string, b: string)
    ensures Lower(a + b) == Lower(a) + Lower(b)
  {
  }

  /** Django's `icontains` lookup: case-insensitive containment. */
  predicate IContains(s: string, t: string) { ContainsSub(Lower(s), Lower(t)) }

  /** Python's `s.split(c)[0]`: the text before the first c, or all of s. */
  function BeforeFirst(s: string, c: char): (r: string)
    ensures |r| <= |s| && r == s[..|r|]
    ensures forall i :: 0 <= i < |r| ==> r[i] != c
    ensures |r| < |s| ==> s[|r|] == c
  {
    if s == [] then ""
    else if s[0] == c then ""
    else [s[0]] + BeforeFirst(s[1..], c)
  }

  /** A string without c is its own first field. */
  lemma BeforeFirstNone(a: string, c: char)
    requires c !in a
    ensures BeforeFirst(a, c) == a
  {
  }

  /** The first field of `a + c + b` is a when a has no c. */
  lemma {:induction false} BeforeFirstOf(a: string, c: char, b: string)
    requires c !in a
    ensures BeforeFirst(a + [c] + b, c) == a
  {
    var s := a + [c] + b;
    if a != [] {
      assert s[0] == a[0] && a[0] in a;
      assert s[1..] == a[1..] + [c] + b;
      BeforeFirstOf(a[1..], c, b);
      assert a == [a[0]] + a[1..];
    }
  }

  /** Python's `s.split(c)[-1]`: the text after the last c, or all of s. */
  function AfterLast(s: string, c: char): (r: string)
    ensures |r| <= |s| && r == s[|s| - |r|..]
    ensures forall i :: 0 <= i < |r| ==> r[i] != c
    ensures |r| < |s| ==> s[|s| - |r| - 1] == c
  {
    if s == [] then ""
    else if s[|s| - 1] == c then ""
    else AfterLast(s[..|s| - 1], c) + [s[|s| - 1]]
  }

  /** The text after the last separator is exactly the tail that follows a separator
      and holds none. */
  lemma {:induction false} AfterLastOf(p: string, c: char, d: string)
    requires forall i :: 0 <= i < |d| ==> d[i] != c
    ensures AfterLast(p + [c] + d, c) == d
  {
    var s := p + [c] + d;
    if d == [] {
      assert s[|s| - 1] == c;
    } else {
      var d' := d[..|d| - 1];
      AfterLastOf(p, c, d');
      assert s[..|s| - 1] == p + [c] + d';
      assert s[|s| - 1] == d[|d| - 1];
      assert d == d' + [d[|d| - 1]];
    }
  }

  /** Code-point order of two strings, the order `order_by` on a text column
      uses under a binary collation; a proper prefix comes first. */
  predicate LexLess(a: string, b: string)
    decreases |a|
  {
    |b| > 0 && (|a| == 0 || a[0] < b[0] || (a[0] == b[0] && LexLess(a[1..], b[1..])))
  }

  lemma {:induction false} LexIrreflexive(a: string)
    ensures !LexLess(a, a)
  {
    if |a| > 0 { LexIrreflexive(a[1..]); }
  }

  lemma {:induction false} LexTrichotomy(a: string, b: string)
    ensures a == b || LexLess(a, b) || LexLess(b, a)
  {
    if |a| > 0 && |b| > 0 && a[0] == b[0] {
      LexTrichotomy(a[1..], b[1..]);
      if a[1..] == b[1..] {
        assert a == [a[0]] + a[1..] && b == [b[0]] + b[1..];
      }
    }
  }

  lemma {:induction false} LexAsymmetric(a: string, b: string)
    requires LexLess(a, b)
    ensures !LexLess(b, a)
  {
    if |a| > 0 && a[0] == b[0] { LexAsymmetric(a[1..], b[1..]); }
  }

  lemma {:induction false} LexTransitive(a: string, b: string, c: string)
    requires LexLess(a, b) && LexLess(b, c)
    ensures LexLess(a, c)
  {
    if |a| > 0 && a[0] == b[0] && b[0] == c[0] {
      LexTransitive(a[1..], b[1..], c[1..]);
    }
  }

  /** A common prefix does not change which string comes first. */
  lemma {:induction false} LexCommonPrefix(p: string, a: string, b: string)
    ensures LexLess(p + a, p + b) <==> LexLess(a, b)
  {
    if p != [] {
      assert (p + a)[0] == p[0] == (p + b)[0];
      assert (p + a)[1..] == p[1..] + a;
      assert (p + b)[1..] == p[1..] + b;
      LexCommonPrefix(p[1..], a, b);
    } else {
      assert p + a == a && p + b == b;
    }
  }

  /** Among digit strings of equal length, code-point order is numeric order. */
  lemma {:induction false} LexDigits(a: string, b: string)
    requires |a| == |b| && AllDigits(a) && AllDigits(b)
    ensures LexLess(a, b) <==> Value(a) < Value(b)
  {
    if |a| > 0 {
      if a[0] < b[0] {
        FirstDigitDecides(a, b);
      } else if a[0] > b[0] {
        FirstDigitDecides(b, a);
      } else {
        LexDigits(a[1..], b[1..]);
        CommonFirstDigit(a, b);
      }
    }
  }

  /** A smaller leading digit makes a smaller number of the same length. */
  lemma {:induction false} FirstDigitDecides(a: string, b: string)
    requires |a| == |b| > 0 && AllDigits(a) && AllDigits(b) && a[0] < b[0]
    ensures Value(a) < Value(b)
  {
    if |a| > 1 {
      var ia, ib := a[..|a| - 1], b[..|b| - 1];
      assert ia[0] == a[0] && ib[0] == b[0];
      FirstDigitDecides(ia, ib);
    }
  }

  /** Behind a common leading digit, the rest decides. */
  lemma {:induction false} CommonFirstDigit(a: string, b: string)
    requires |a| == |b| > 0 && AllDigits(a) && AllDigits(b) && a[0] == b[0]
    ensures Value(a) < Value(b) <==> Value(a[1..]) < Value(b[1..])
    ensures Value(a) == Value(b) <==> Value(a[1..]) == Value(b[1..])
  {
    var n := |a|;
    if n > 1 {
      var ia, ib := a[..n - 1], b[..n - 1];
      assert ia[0] == a[0] && ib[0] == b[0];
      CommonFirstDigit(ia, ib);
      assert a[1..][..n - 2] == ia[1..] && b[1..][..n - 2] == ib[1..];
      assert a[1..][n - 2] == a[n - 1] && b[1..][n - 2] == b[n - 1];
    }
  }
}
