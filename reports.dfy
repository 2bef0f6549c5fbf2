/** The two computations of the reports: the first and last day of the month of
    `monthly_report`, and the age histogram `get_age_distribution` builds over a
    set of consultations. */
module Reports {

  import opened Wrappers
  import opened Dates
  import opened PatientsModels
  import opened ConsultationsModels

  /** `monthly_report`'s start and end dates. `datetime(year, month, 1)` raises
      ValueError outside years 1..9999 and months 1..12, and so does the first day of
      the next month when that would be in year 10000. The end is the day before the
      first of the next month. */
  function MonthRange(year: int, month: int): (r: Result<(Date, Date), string>)
    ensures r.Ok? <==> 1 <= year <= 9999 && 1 <= month <= 12 && !(year == 9999 && month == 12)
    ensures r.Err? ==> r.error == "ValueError"
    ensures r.Ok? ==> ValidDate(r.value.0) && ValidDate(r.value.1)
  {
    if !(1 <= year <= 9999 && 1 <= month <= 12) then Err("ValueError")
    else
      var start := Date(year, month, 1);
      if month == 12 then
        if year + 1 > 9999 then Err("ValueError")
        else
          match PrevDay(Date(year + 1, 1, 1))
          case Some(end) => Ok((start, end))
          case None => assert false; Err("ValueError")
      else
        match PrevDay(Date(year, month + 1, 1))
        case Some(end) => Ok((start, end))
        case None => assert false; Err("ValueError")
  }

  /** The range runs from the first to the last day of the month; for December it
      ends on 31 December of the same year. */
  lemma MonthRangeEnds(year: int, month: int)
    requires MonthRange(year, month).Ok?
    ensures MonthRange(year, month).value.0 == Date(year, month, 1)
    ensures MonthRange(year, month).value.1 == Date(year, month, DaysInMonth(year, month))
    ensures month == 12 ==> MonthRange(year, month).value.1 == Date(year, 12, 31)
  {
  }

  /** `visit_date__range=[start, end]` keeps exactly the valid dates of that month. */
  lemma MonthRangeCovers(year: int, month: int, d: Date)
    requires MonthRange(year, month).Ok? && ValidDate(d)
    ensures var (s, e) := MonthRange(year, month).value;
            NotAfter(s, d) && NotAfter(d, e) <==> d.year == year && d.month == month
  {
    MonthRangeEnds(year, month);
  }

  /** The four keys of the histogram. */
  const Keys: set<string> := {"0-18", "19-35", "36-50", "51+"}

  /** The key an age is counted under. */
  function Bucket(age: int): (k: string)
    ensures k in Keys
    ensures k == "0-18" <==> age <= 18
    ensures k == "19-35" <==> 19 <= age <= 35
    ensures k == "36-50" <==> 36 <= age <= 50
    ensures k == "51+" <==> 51 <= age
  {
    if age <= 18 then "0-18"
    else if age <= 35 then "19-35"
    else if age <= 50 then "36-50"
    else "51+"
  }

  /** How many of the ages fall under key k. */
  function CountIn(ages: seq<int>, k: string): nat
  {
    if ages == [] then 0
    else CountIn(ages[..|ages| - 1], k) + (if Bucket(ages[|ages| - 1]) == k then 1 else 0)
  }

  /** The histogram of a list of ages: each key with its count. */
  function Histogram(ages: seq<int>): (h: map<string, nat>)
    ensures h.Keys == Keys
  {
    map k | k in Keys :: CountIn(ages, k)
  }

  /** Every age is in exactly one bucket, so the counts add up to the number of ages. */
  lemma {:induction false} CountsAddUp(ages: seq<int>)
    ensures CountIn(ages, "0-18") + CountIn(ages, "19-35") + CountIn(ages, "36-50") + CountIn(ages, "51+") == |ages|
  {
    if ages != [] {
      CountsAddUp(ages[..|ages| - 1]);
    }
  }

  /** Counting is per entry: k more entries of one age add k to its bucket and
      nothing to the others. */
  lemma {:induction false} CountsPerEntry(ages: seq<int>, age: int, n: nat, k: string)
    ensures CountIn(ages + seq(n, _ => age), k) == CountIn(ages, k) + (if Bucket(age) == k then n else 0)
  {
    if n > 0 {
      var more := ages + seq(n, _ => age);
      assert more[..|more| - 1] == ages + seq(n - 1, _ => age);
      CountsPerEntry(ages, age, n - 1, k);
    } else {
      assert ages + seq(n, _ => age) == ages;
    }
  }

  /** The age of each consultation's patient on day `today`, in order. */
  function AgesOf(cs: seq<Consultation>, patients: seq<Patient>, today: Date): (ages: seq<int>)
    requires forall i :: 0 <= i < |cs| ==> cs[i].patient < |patients|
    ensures |ages| == |cs|
    ensures forall i :: 0 <= i < |cs| ==> ages[i] == Age(patients[cs[i].patient].dateOfBirth, today)
  {
    seq(|cs|, i requires 0 <= i < |cs| => Age(patients[cs[i].patient].dateOfBirth, today))
  }

  /** The histogram's counts add up to the number of ages. */
  lemma HistogramTotal(ages: seq<int>)
    ensures var h := Histogram(ages);
            h["0-18"] + h["19-35"] + h["36-50"] + h["51+"] == |ages|
  {
    CountsAddUp(ages);
  }

  /** The histogram before any age is counted: every key at zero. */
  lemma HistogramEmpty()
    ensures Histogram([]) == map["0-18" := 0, "19-35" := 0, "36-50" := 0, "51+" := 0]
  {
  }

  /** Counting one more age adds one under its key and leaves the other keys alone. */
  lemma HistogramSnoc(ages: seq<int>, i: nat, h: map<string, nat>)
    requires i < |ages| && h == Histogram(ages[..i])
    ensures Histogram(ages[..i + 1]) == h[Bucket(ages[i]) := h[Bucket(ages[i])] + 1]
  {
    assert ages[..i + 1][..i] == ages[..i];
  }

  /** `get_age_distribution(consultations)`: one increment per consultation, under
      the key of its patient's age. */
  method GetAgeDistribution(cs: seq<Consultation>, patients: seq<Patient>, today: Date)
    returns (groups: map<string, nat>)
    requires forall i :: 0 <= i < |cs| ==> cs[i].patient < |patients|
    ensures groups == Histogram(AgesOf(cs, patients, today))
    ensures groups.Keys == Keys
    ensures groups["0-18"] + groups["19-35"] + groups["36-50"] + groups["51+"] == |cs|
  {
    groups := map["0-18" := 0, "19-35" := 0, "36-50" := 0, "51+" := 0];
    ghost var ages := AgesOf(cs, patients, today);
    HistogramEmpty();
    for i := 0 to |cs|
      invariant groups == Histogram(ages[..i])
    {
      var age := Age(patients[cs[i].patient].dateOfBirth, today);
      var key := Bucket(age);
      assert age == ages[i];
      HistogramSnoc(ages, i, groups);
      groups := groups[key := groups[key] + 1];
    }
    assert ages[..|cs|] == ages;
    HistogramTotal(ages);
  }
}
