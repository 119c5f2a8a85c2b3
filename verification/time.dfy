/** Calendar instants (UTC, whole seconds) and `DateTime.AddYears`, which the
    API token endpoint uses to compute a token's expiry. */
module Time {
  import opened Wrappers

  /** A date and the second of that day. */
  datatype Instant = Instant(year: int, month: int, day: int, second: int)

  predicate IsLeapYear(y: int)
  {
    y % 4 == 0 && (y % 100 != 0 || y % 400 == 0)
  }

  function DaysInMonth(y: int, m: int): (d: int)
    requires 1 <= m <= 12
    ensures 28 <= d <= 31
    ensures d == 29 <==> m == 2 && IsLeapYear(y)
  {
    if m == 2 then (if IsLeapYear(y) then 29 else 28)
    else if m == 4 || m == 6 || m == 9 || m == 11 then 30
    else 31
  }

  /** The range `DateTime` can represent. */
  predicate Valid(t: Instant)
  {
    && 1 <= t.year <= 9999
    && 1 <= t.month <= 12
    && 1 <= t.day <= DaysInMonth(t.year, t.month)
    && 0 <= t.second < 86400
  }

  /** Strict chronological order. */
  predicate Before(a: Instant, b: Instant)
  {
    || a.year < b.year
    || (a.year == b.year && a.month < b.month)
    || (a.year == b.year && a.month == b.month && a.day < b.day)
    || (a.year == b.year && a.month == b.month && a.day == b.day && a.second < b.second)
  }

  /** `DateTime.AddYears(n)`: the same month, day and time of day `n` years
      on, except that 29 February becomes 28 February in a common year; a
      result outside the years 1 to 9999 is an `ArgumentOutOfRangeException`. */
  function AddYears(t: Instant, n: int): (r: Option<Instant>)
    requires Valid(t)
    ensures r.Some? <==> 1 <= t.year + n <= 9999
    ensures r.Some? ==> Valid(r.value)
    ensures r.Some? ==>
      && r.value.year == t.year + n
      && r.value.month == t.month
      && r.value.second == t.second
      && (r.value.day == t.day || (t.month == 2 && t.day == 29 && !IsLeapYear(t.year + n) && r.value.day == 28))
  {
    var y := t.year + n;
    if y < 1 || y > 9999 then None
    else if t.month == 2 && t.day == 29 && !IsLeapYear(y) then Some(Instant(y, 2, 28, t.second))
    else Some(Instant(y, t.month, t.day, t.second))
  }

  /** Moving forward by a positive number of years lands strictly later. */
  lemma AddYearsIsLater(t: Instant, n: int)
    requires Valid(t) && n >= 1 && AddYears(t, n).Some?
    ensures Before(t, AddYears(t, n).value)
  {
  }

  /** Going `n` years forward and back returns the same instant, except from a
      leap day that the forward step moved to 28 February. */
  lemma AddYearsRoundTrip(t: Instant, n: int)
    requires Valid(t) && AddYears(t, n).Some?
    requires !(t.month == 2 && t.day == 29) || IsLeapYear(t.year + n)
    ensures AddYears(AddYears(t, n).value, -n) == Some(t)
  {
  }

  /** 29 February 2016 plus ten years is 28 February 2026. */
  lemma LeapDayTenYearsOn()
    ensures AddYears(Instant(2016, 2, 29, 0), 10) == Some(Instant(2026, 2, 28, 0))
  {
  }
}
