/** The medical record number allocator of `patient_register`: the new MRN is
    `BCH-<year>-<n:05d>`, where n is one more than the number after the last '-'
    of the greatest (in text order) existing MRN that starts with `BCH-<year>`,
    or 1 when there is none. */
module Mrn {

  import opened Wrappers
  import opened Strings

  /** The text every MRN of `year` starts with, as the filter
      `mrn__startswith=f'BCH-{year}'` spells it (no '-' after the year). */
  function YearPrefix(year: nat): string
  {
    "BCH-" + NatToString(year)
  }

  /** `f'BCH-{year}-{n:05d}'` */
  function FormatMrn(year: nat, n: nat): string
  {
    YearPrefix(year) + "-" + Format05(n)
  }

  /** The MRNs the filter on `year` keeps, in table order. */
  function SameYear(mrns: seq<string>, year: nat): (r: seq<string>)
    ensures forall m :: m in r <==> m in mrns && StartsWith(m, YearPrefix(year))
  {
    if mrns == [] then []
    else
      var rest := SameYear(mrns[1..], year);
      assert forall m :: m in mrns <==> m == mrns[0] || m in mrns[1..];
      if StartsWith(mrns[0], YearPrefix(year)) then [mrns[0]] + rest else rest
  }

  /** If a is not below b and b is not below m, a is not below m. */
  lemma NotBelowTransitive(a: string, b: string, m: string)
    requires !LexLess(a, b) && !LexLess(b, m)
    ensures !LexLess(a, m)
  {
    LexTrichotomy(a, b);
    if LexLess(a, m) && LexLess(b, a) {
      LexTransitive(b, a, m);
    }
  }

  /** Two strings neither of which is below the other are equal. */
  lemma GreatestUnique(a: string, b: string)
    requires !LexLess(a, b) && !LexLess(b, a)
    ensures a == b
  {
    LexTrichotomy(a, b);
  }

  /** `.order_by('-mrn').first()`: the greatest string in text order, if any. */
  function Greatest(s: seq<string>): (r: Option<string>)
    ensures r.None? <==> s == []
    ensures r.Some? ==> r.value in s && forall m :: m in s ==> !LexLess(r.value, m)
  {
    if s == [] then None
    else
      assert forall m :: m in s <==> m == s[0] || m in s[1..];
      match Greatest(s[1..])
      case None =>
        LexIrreflexive(s[0]);
        Some(s[0])
      case Some(g) =>
        if LexLess(s[0], g) then
          LexAsymmetric(s[0], g);
          Some(g)
        else
          LexIrreflexive(s[0]);
          assert forall m :: m in s[1..] ==> !LexLess(s[0], m) by {
            forall m | m in s[1..] ensures !LexLess(s[0], m) {
              NotBelowTransitive(s[0], g, m);
            }
          }
          Some(s[0])
  }

  datatype MrnError =
    /** `int(last_patient.mrn.split('-')[-1])` raised ValueError. */
    SuffixNotAnInteger(mrn: string)

  /** The sequence number the new MRN carries. */
  function NextNumber(year: nat, mrns: seq<string>): Result<nat, MrnError>
  {
    match Greatest(SameYear(mrns, year))
    case None => Ok(1)
    case Some(last) =>
      match ParseNat(AfterLast(last, '-'))
      case None => Err(SuffixNotAnInteger(last))
      case Some(k) => Ok(k + 1)
  }

  /** The MRN `patient_register` assigns, given the year and the MRNs already stored. */
  function AllocateMrn(year: nat, mrns: seq<string>): Result<string, MrnError>
  {
    match NextNumber(year, mrns)
    case Ok(n) => Ok(FormatMrn(year, n))
    case Err(e) => Err(e)
  }

  /** An MRN of `year` whose sequence number has exactly five digits. */
  predicate FiveDigitMrn(m: string, year: nat)
  {
    var q := YearPrefix(year) + "-";
    |m| == |q| + 5 && StartsWith(m, q) && AllDigits(m[|q|..])
  }

  /** A formatted MRN starts with its year's prefix and a '-', and reading back the
      text after its last '-' gives the sequence number it was formatted from. */
  lemma FormatMrnParts(year: nat, n: nat)
    ensures StartsWith(FormatMrn(year, n), YearPrefix(year))
    ensures StartsWith(FormatMrn(year, n), YearPrefix(year) + "-")
    ensures FormatMrn(year, n)[|YearPrefix(year)| + 1..] == Format05(n)
    ensures AfterLast(FormatMrn(year, n), '-') == Format05(n)
    ensures ParseNat(AfterLast(FormatMrn(year, n), '-')) == Some(n)
    ensures FiveDigitMrn(FormatMrn(year, n), year) <==> n < 100000
  {
    var p := YearPrefix(year);
    var d := Format05(n);
    Format05Facts(n);
    SplitAt(p, d);
    NoDash(d);
    AfterLastOf(p, '-', d);
  }

  lemma SplitAt(p: string, d: string)
    ensures StartsWith(p + "-" + d, p)
    ensures StartsWith(p + "-" + d, p + "-")
    ensures (p + "-" + d)[|p| + 1..] == d
    ensures p + "-" + d == p + ['-'] + d
  {
    var m := p + "-" + d;
    assert m[..|p|] == p;
    assert m[..|p| + 1] == p + "-";
  }

  lemma NoDash(d: string)
    requires AllDigits(d)
    ensures forall i :: 0 <= i < |d| ==> d[i] != '-'
  {
    forall i | 0 <= i < |d| ensures d[i] != '-' { assert IsDigit(d[i]); }
  }

  /** The first registration of a year gets sequence number 1. */
  lemma FirstOfYear(year: nat, mrns: seq<string>)
    requires forall m :: m in mrns ==> !StartsWith(m, YearPrefix(year))
    ensures AllocateMrn(year, mrns) == Ok(FormatMrn(year, 1))
  {
    NoneOfYear(mrns, year);
  }

  lemma {:induction false} NoneOfYear(mrns: seq<string>, year: nat)
    requires forall m :: m in mrns ==> !StartsWith(m, YearPrefix(year))
    ensures SameYear(mrns, year) == []
  {
    if mrns != [] {
      assert mrns[0] in mrns;
      NoneOfYear(mrns[1..], year);
    }
  }

  /** When the year already has MRNs, the sequence number is one more than the number
      after the last '-' of the greatest of them in text order. */
  lemma FromGreatest(year: nat, mrns: seq<string>, last: string, k: nat)
    requires last in mrns && StartsWith(last, YearPrefix(year))
    requires forall m :: m in mrns && StartsWith(m, YearPrefix(year)) ==> !LexLess(last, m)
    requires ParseNat(AfterLast(last, '-')) == Some(k)
    ensures AllocateMrn(year, mrns) == Ok(FormatMrn(year, k + 1))
  {
    GreatestIs(SameYear(mrns, year), last);
  }

  /** When the text after the last '-' of that greatest MRN is not an integer,
      allocation fails. */
  lemma FromGreatestUnparsable(year: nat, mrns: seq<string>, last: string)
    requires last in mrns && StartsWith(last, YearPrefix(year))
    requires forall m :: m in mrns && StartsWith(m, YearPrefix(year)) ==> !LexLess(last, m)
    requires ParseNat(AfterLast(last, '-')).None?
    ensures AllocateMrn(year, mrns) == Err(SuffixNotAnInteger(last))
  {
    GreatestIs(SameYear(mrns, year), last);
  }

  /** A string of s that no string of s is above is what `Greatest` picks. */
  lemma GreatestIs(s: seq<string>, last: string)
    requires last in s && forall m :: m in s ==> !LexLess(last, m)
    ensures Greatest(s) == Some(last)
  {
    GreatestUnique(Greatest(s).value, last);
  }

  /** Only the MRNs that start with the year's prefix matter: two tables that agree on
      those allocate the same MRN, whatever else they hold. */
  lemma OtherYearsIgnored(year: nat, a: seq<string>, b: seq<string>)
    requires forall m :: (m in a && StartsWith(m, YearPrefix(year))) <==>
                         (m in b && StartsWith(m, YearPrefix(year)))
    ensures AllocateMrn(year, a) == AllocateMrn(year, b)
  {
    var sa, sb := SameYear(a, year), SameYear(b, year);
    if sa != [] {
      assert sa[0] in sa;
      var ga, gb := Greatest(sa).value, Greatest(sb).value;
      GreatestUnique(ga, gb);
    }
  }

  /** Printing a four-digit year takes four characters. */
  lemma FourDigitYear(year: nat)
    requires 1000 <= year <= 9999
    ensures |NatToString(year)| == 4
  {
    var s := NatToString(year);
    NatToStringLength(year);
    assert Pow10(3) == 1000 && Pow10(4) == 10000;
    if |s| < 4 { PowMono(|s|, 3); }
    if |s| > 4 { PowMono(4, |s| - 1); }
  }

  /** With four-digit years, an MRN formatted for another year never passes the
      year filter. */
  lemma OtherYearNotMatched(year: nat, other: nat, n: nat)
    requires 1000 <= year <= 9999 && 1000 <= other <= 9999 && year != other
    ensures !StartsWith(FormatMrn(other, n), YearPrefix(year))
  {
    FourDigitYear(year);
    FourDigitYear(other);
    var m := FormatMrn(other, n);
    assert m[..8] == YearPrefix(other);
    assert YearPrefix(year)[4..] == NatToString(year);
    assert YearPrefix(other)[4..] == NatToString(other);
    if NatToString(year) == NatToString(other) {
      NatToStringInjective(year, other);
    }
  }

  /** While every MRN of the year has a five-digit sequence number, allocation succeeds
      and the new MRN differs from every MRN already stored. */
  lemma Fresh(year: nat, mrns: seq<string>)
    requires forall m :: m in mrns && StartsWith(m, YearPrefix(year)) ==> FiveDigitMrn(m, year)
    ensures AllocateMrn(year, mrns).Ok?
    ensures AllocateMrn(year, mrns).value !in mrns
  {
    var s := SameYear(mrns, year);
    if s == [] {
      FormatMrnParts(year, 1);
      assert FormatMrn(year, 1) !in s;
    } else {
      var last := Greatest(s).value;
      assert FiveDigitMrn(last, year);
      var k := FiveDigitNumber(last, year);
      var next := FormatMrn(year, k + 1);
      assert AllocateMrn(year, mrns) == Ok(next);
      if next in mrns {
        FormatMrnParts(year, k + 1);
        assert next in s;
        NextAboveLast(year, last, k);
        assert false;
      }
    }
  }

  /** The sequence number of a five-digit MRN: the value of its last five characters,
      which is also what reading the text after its last '-' gives. */
  lemma FiveDigitNumber(m: string, year: nat) returns (k: nat)
    requires FiveDigitMrn(m, year)
    ensures k == Value(m[|YearPrefix(year)| + 1..])
    ensures ParseNat(AfterLast(m, '-')) == Some(k)
  {
    var p := YearPrefix(year);
    var q := p + "-";
    var d := m[|q|..];
    assert m == p + ['-'] + d;
    NoDash(d);
    AfterLastOf(p, '-', d);
    k := Value(d);
  }

  /** The MRN numbered one past a five-digit MRN's number comes after it in text
      order, as long as it still has five digits. */
  lemma NextAboveLast(year: nat, last: string, k: nat)
    requires FiveDigitMrn(last, year) && FiveDigitMrn(FormatMrn(year, k + 1), year)
    requires k == Value(last[|YearPrefix(year)| + 1..])
    ensures LexLess(last, FormatMrn(year, k + 1))
  {
    var q := YearPrefix(year) + "-";
    var next := FormatMrn(year, k + 1);
    FormatMrnParts(year, k + 1);
    Format05Facts(k + 1);
    var dl, df := last[|q|..], next[|q|..];
    PrefixRest(last, q);
    PrefixRest(next, q);
    LexDigits(dl, df);
    LexCommonPrefix(q, dl, df);
  }

  lemma PrefixRest(m: string, q: string)
    requires StartsWith(m, q)
    ensures m == q + m[|q|..]
  {
    assert m == m[..|q|] + m[|q|..];
  }

  /** The numbering breaks once a sequence number reaches six digits: after
      BCH-<year>-99999 and BCH-<year>-100000 the text-greatest MRN of the year is the
      former, so the allocator hands out BCH-<year>-100000 a second time. */
  lemma SixDigitCollision(year: nat, n: nat)
    requires n == 99999
    ensures AllocateMrn(year, [FormatMrn(year, n), FormatMrn(year, n + 1)]) ==
              Ok(FormatMrn(year, n + 1))
  {
    FormatMrnParts(year, n);
    SixDigitOrder(YearPrefix(year) + "-", n);
    GreaterOfTwo(year, FormatMrn(year, n), FormatMrn(year, n + 1), n);
  }

  /** With two MRNs, the first is the greatest when the second is not above it. */
  lemma GreaterOfTwo(year: nat, a: string, b: string, k: nat)
    requires StartsWith(a, YearPrefix(year)) && !LexLess(a, b)
    requires ParseNat(AfterLast(a, '-')) == Some(k)
    ensures AllocateMrn(year, [a, b]) == Ok(FormatMrn(year, k + 1))
  {
    var mrns := [a, b];
    LexIrreflexive(a);
    forall m | m in mrns && StartsWith(m, YearPrefix(year)) ensures !LexLess(a, m) {
      assert m == a || m == b;
    }
    FromGreatest(year, mrns, a, k);
  }

  lemma SixDigitOrder(q: string, n: nat)
    requires n == 99999
    ensures !LexLess(q + Format05(n), q + Format05(n + 1))
  {
    var a, b := "100000", "99999";
    Pad99999();
    Pad100000();
    assert a[0] < b[0];
    assert LexLess(a, b);
    LexAsymmetric(a, b);
    LexCommonPrefix(q, b, a);
  }

  lemma Pad99999() ensures Format05(99999) == "99999"
  {
    Str99999();
    assert |NatToString(99999)| == 5;
  }

  lemma Pad100000() ensures Format05(100000) == "100000"
  {
    Str100000();
    assert |NatToString(100000)| == 6;
  }

  lemma Str99999() ensures NatToString(99999) == "99999"
  {
    assert NatToString(9) == "9";
    assert NatToString(99) == "99";
    assert NatToString(999) == "999";
    assert NatToString(9999) == "9999";
  }

  lemma Str100000() ensures NatToString(100000) == "100000"
  {
    assert NatToString(1) == "1";
    assert NatToString(10) == "10";
    assert NatToString(100) == "100";
    assert NatToString(1000) == "1000";
    assert NatToString(10000) == "10000";
  }

  /** The first n MRNs of a year: BCH-<year>-00001 up to BCH-<year>-<n:05d>. */
  function Numbered(year: nat, n: nat): (r: seq<string>)
    ensures |r| == n && forall i :: 0 <= i < n ==> r[i] == FormatMrn(year, i + 1)
  {
    seq(n, i requires 0 <= i < n => FormatMrn(year, i + 1))
  }

  /** n registrations in a row: each allocates against the MRNs stored before it plus
      those allocated so far, and the allocated MRNs are returned in order. */
  function Run(year: nat, base: seq<string>, n: nat): Result<seq<string>, MrnError>
  {
    if n == 0 then Ok([])
    else
      match Run(year, base, n - 1)
      case Err(e) => Err(e)
      case Ok(done) =>
        match AllocateMrn(year, base + done)
        case Err(e) => Err(e)
        case Ok(m) => Ok(done + [m])
  }

  /** Within five digits, a larger sequence number gives an MRN later in text order. */
  lemma NumberedOrder(year: nat, i: nat, k: nat)
    requires i <= k < 100000
    ensures !LexLess(FormatMrn(year, k), FormatMrn(year, i))
  {
    var q := YearPrefix(year) + "-";
    Format05Facts(i);
    Format05Facts(k);
    LexDigits(Format05(k), Format05(i));
    LexCommonPrefix(q, Format05(k), Format05(i));
  }

  /** BCH-<year>-<k:05d> is the text-greatest MRN of the year once 1 .. k are stored. */
  lemma NumberedGreatest(year: nat, base: seq<string>, k: nat)
    requires forall m :: m in base ==> !StartsWith(m, YearPrefix(year))
    requires 0 < k < 100000
    ensures FormatMrn(year, k) in base + Numbered(year, k)
    ensures forall m :: m in base + Numbered(year, k) && StartsWith(m, YearPrefix(year)) ==>
                        !LexLess(FormatMrn(year, k), m)
  {
    var mrns := base + Numbered(year, k);
    var numbered := Numbered(year, k);
    assert FormatMrn(year, k) == numbered[k - 1];
    forall m | m in mrns && StartsWith(m, YearPrefix(year))
      ensures !LexLess(FormatMrn(year, k), m)
    {
      assert m !in base;
      assert m in numbered;
      var i :| 0 <= i < k && numbered[i] == m;
      NumberedOrder(year, i + 1, k);
    }
  }

  /** After BCH-<year>-00001 .. BCH-<year>-<k:05d> the next MRN is number k + 1. */
  lemma NextAfterNumbered(year: nat, base: seq<string>, k: nat)
    requires forall m :: m in base ==> !StartsWith(m, YearPrefix(year))
    requires k < 100000
    ensures AllocateMrn(year, base + Numbered(year, k)) == Ok(FormatMrn(year, k + 1))
  {
    var mrns := base + Numbered(year, k);
    var p := YearPrefix(year);
    if k == 0 {
      assert mrns == base;
      FirstOfYear(year, mrns);
    } else {
      var last := FormatMrn(year, k);
      FormatMrnParts(year, k);
      NumberedGreatest(year, base, k);
      FromGreatest(year, mrns, last, k);
    }
  }

  /** N registrations in a year that had none yield BCH-<year>-00001 .. BCH-<year>-<N:05d>,
      with no gaps and no repeats, while N stays within five digits. */
  lemma {:induction false} RunFromEmptyYear(year: nat, base: seq<string>, n: nat)
    requires forall m :: m in base ==> !StartsWith(m, YearPrefix(year))
    requires n < 100000
    ensures Run(year, base, n) == Ok(Numbered(year, n))
  {
    if n > 0 {
      var done := Numbered(year, n - 1);
      RunFromEmptyYear(year, base, n - 1);
      NextAfterNumbered(year, base, n - 1);
      assert Run(year, base, n) == Ok(done + [FormatMrn(year, n)]);
      NumberedSnoc(year, n);
    }
  }

  lemma NumberedSnoc(year: nat, n: nat)
    requires n > 0
    ensures Numbered(year, n - 1) + [FormatMrn(year, n)] == Numbered(year, n)
  {
    var a, b := Numbered(year, n - 1) + [FormatMrn(year, n)], Numbered(year, n);
    forall i | 0 <= i < n ensures a[i] == b[i] {
      if i < n - 1 {
        assert a[i] == Numbered(year, n - 1)[i];
      }
    }
  }

  /** Across a year boundary the numbering restarts: the MRNs of another four-digit year
      leave the new year's first MRN at number 1. */
  lemma NewYearStartsAtOne(year: nat, previous: nat, n: nat)
    requires 1000 <= year <= 9999 && 1000 <= previous <= 9999 && year != previous
    ensures AllocateMrn(year, Numbered(previous, n)) == Ok(FormatMrn(year, 1))
  {
    forall m | m in Numbered(previous, n) ensures !StartsWith(m, YearPrefix(year)) {
      var i :| 0 <= i < n && Numbered(previous, n)[i] == m;
      OtherYearNotMatched(year, previous, i + 1);
    }
    FirstOfYear(year, Numbered(previous, n));
  }
}
