/** Calendar dates as Python's `datetime.date` has them: proleptic Gregorian,
    years 1 to 9999, compared field by field. */
module Dates {

  import opened Wrappers

  datatype Date = Date(year: int, month: int, day: int)

  /** Gregorian leap years. */
  predicate IsLeap(y: int)
  {
    y % 4 == 0 && (y % 100 != 0 || y % 400 == 0)
  }

  function DaysInMonth(y: int, m: int): (d: int)
    requires 1 <= m <= 12
    ensures 28 <= d <= 31
    ensures d == 29 <==> m == 2 && IsLeap(y)
    ensures d == 31 <==> m in {1, 3, 5, 7, 8, 10, 12}
  {
    if m == 2 then (if IsLeap(y) then 29 else 28)
    else if m in {4, 6, 9, 11} then 30
    else 31
  }

  /** The dates `datetime.date` can represent; anything else raises ValueError. */
  predicate ValidDate(d: Date)
  {
    1 <= d.year <= 9999 && 1 <= d.month <= 12 && 1 <= d.day <= DaysInMonth(d.year, d.month)
  }

  /** Python's tuple comparison `(a.month, a.day) < (b.month, b.day)`. */
  predicate MonthDayBefore(a: Date, b: Date)
  {
    a.month < b.month || (a.month == b.month && a.day < b.day)
  }

  /** Date order, which is the order of `(year, month, day)` tuples. */
  predicate Before(a: Date, b: Date)
  {
    a.year < b.year || (a.year == b.year && MonthDayBefore(a, b))
  }

  predicate NotAfter(a: Date, b: Date)
  {
    !Before(b, a)
  }

  lemma BeforeTransitive(a: Date, b: Date, c: Date)
    requires Before(a, b) && NotAfter(b, c)
    ensures Before(a, c)
  {
  }

  /** `d - timedelta(days=1)`; the day before 1 January of year 1 raises OverflowError. */
  function PrevDay(d: Date): (r: Option<Date>)
    requires ValidDate(d)
    ensures r.None? <==> d == Date(1, 1, 1)
    ensures r.Some? ==> ValidDate(r.value) && Before(r.value, d)
  {
    if d.day > 1 then Some(Date(d.year, d.month, d.day - 1))
    else if d.month > 1 then Some(Date(d.year, d.month - 1, DaysInMonth(d.year, d.month - 1)))
    else if d.year > 1 then Some(Date(d.year - 1, 12, 31))
    else None
  }

  /** The day before is the latest valid date before d: no valid date lies between. */
  lemma PrevDayImmediate(d: Date, x: Date)
    requires ValidDate(d) && ValidDate(x) && Before(x, d) && d != Date(1, 1, 1)
    ensures NotAfter(x, PrevDay(d).value)
  {
    if d.day == 1 && d.month > 1 {
      assert x.day <= DaysInMonth(x.year, x.month);
    }
  }
}
