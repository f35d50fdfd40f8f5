/** `timeAgo`: the coarsest whole calendar-free unit that fits an elapsed time.
    Dates are integer milliseconds since the epoch. */
module DateUtils {
  import opened Basics
  import opened Strings

  datatype Unit = Year | Month | Week | Day | Hour | Minute

  function UnitName(u: Unit): string {
    match u
    case Year => "year"
    case Month => "month"
    case Week => "week"
    case Day => "day"
    case Hour => "hour"
    case Minute => "minute"
  }

  /** Seconds per unit: a year is 365 days and a month 30. */
  function UnitSeconds(u: Unit): nat {
    match u
    case Year => 31536000
    case Month => 2592000
    case Week => 604800
    case Day => 86400
    case Hour => 3600
    case Minute => 60
  }

  /** The order in which the units are tried. */
  const Units: seq<Unit> := [Year, Month, Week, Day, Hour, Minute]

  /** Where a unit sits in the order of trial. */
  function UnitIndex(u: Unit): (i: nat)
    ensures i < |Units| && Units[i] == u
  {
    match u
    case Year => 0
    case Month => 1
    case Week => 2
    case Day => 3
    case Hour => 4
    case Minute => 5
  }

  /** The units are tried from the longest to the shortest. */
  lemma UnitsDescending(u: Unit, v: Unit)
    ensures UnitSeconds(u) > UnitSeconds(v) <==> UnitIndex(u) < UnitIndex(v)
  {
  }

  /** What `timeAgo` says. */
  datatype Elapsed = NotAvailable | JustNow | Ago(count: int, unit: Unit)

  /** Whole seconds between two instants, rounded down (`Math.floor((end - start) / 1000)`;
      Dafny's `/` by a positive divisor rounds down as well). */
  function ElapsedSeconds(start: int, end: int): int {
    (end - start) / 1000
  }

  /** `timeAgo(start, end)`: `N/A` without a start; otherwise the first unit, in
      the order above, of which at least one whole instance has elapsed, with the
      number of whole instances; `Just now` under a minute, including when `end`
      is before `start`. */
  method TimeAgo(start: Option<int>, end: int) returns (r: Elapsed)
    ensures r == NotAvailable <==> start.None?
    ensures r == JustNow <==> start.Some? && ElapsedSeconds(start.value, end) < 60
    ensures r.Ago? ==> (start.Some? && r.count >= 1
      && r.count == ElapsedSeconds(start.value, end) / UnitSeconds(r.unit))
    ensures r.Ago? ==> forall u :: UnitSeconds(u) <= ElapsedSeconds(start.value, end) ==>
      UnitSeconds(u) <= UnitSeconds(r.unit)
  {
    if start.None? {
      return NotAvailable;
    }
    var seconds := ElapsedSeconds(start.value, end);
    var i := 0;
    while i < |Units|
      invariant 0 <= i <= |Units|
      invariant forall k :: 0 <= k < i ==> seconds < UnitSeconds(Units[k])
    {
      var unit := Units[i];
      var interval := seconds / UnitSeconds(unit);
      if interval >= 1 {
        forall u | UnitSeconds(u) <= seconds ensures UnitSeconds(u) <= UnitSeconds(unit) {
          UnitsDescending(u, unit);
          assert UnitIndex(unit) == i;
          var k := UnitIndex(u);
        }
        return Ago(interval, unit);
      }
      i := i + 1;
    }
    assert Units[|Units| - 1] == Minute;
    return JustNow;
  }

  /** The text shown: `1 <unit> ago`, or the plural with any other count. */
  function Render(e: Elapsed): (text: string)
    ensures e == NotAvailable ==> text == "N/A"
    ensures e == JustNow ==> text == "Just now"
    ensures e.Ago? ==> text == IntToString(e.count) + " " + UnitName(e.unit) + (if e.count == 1 then "" else "s") + " ago"
  {
    match e
    case NotAvailable => "N/A"
    case JustNow => "Just now"
    case Ago(n, u) =>
      if n == 1 then "1 " + UnitName(u) + " ago"
      else IntToString(n) + " " + UnitName(u) + "s ago"
  }
}
