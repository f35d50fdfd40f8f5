/** The admin dashboard's arithmetic: the day/hour "ago" label of recent
    activity and the pending-declaration total. */
module AdminDashboard {
  import opened Strings
  import opened Seqs

  const HourMs: int := 3600000
  const DayMs: int := 86400000

  /** JavaScript's `%`: the remainder takes the sign of the dividend. */
  function JsRem(a: int, b: int): (r: int)
    requires b > 0
    ensures a >= 0 ==> 0 <= r < b && r == a % b
    ensures a < 0 ==> -b < r <= 0 && r == -JsRem(-a, b)
    decreases if a < 0 then 1 else 0
  {
    if a >= 0 then a % b else -((-a) % b)
  }

  datatype AgoUnit = Days | Hours

  datatype Ago = Ago(count: int, unit: AgoUnit)

  /** `formatTimeAgo` for an activity at `date`, read at `now`: whole days when at
      least one has passed, otherwise the hours of the remainder of a day. */
  function FormatTimeAgo(date: int, now: int): (a: Ago)
    ensures var diff := now - date;
      && (diff >= DayMs <==> a.unit == Days)
      && (a.unit == Days ==> a.count >= 1 && a.count * DayMs <= diff < (a.count + 1) * DayMs)
      && (0 <= diff < DayMs ==> a == Ago(diff / HourMs, Hours) && 0 <= a.count <= 23)
      && (diff < 0 ==> a.unit == Hours && a.count <= 0)
      && (diff < DayMs ==> a.count * HourMs <= JsRem(diff, DayMs) < (a.count + 1) * HourMs)
  {
    var diff := now - date;
    var days := diff / DayMs;
    var hours := JsRem(diff, DayMs) / HourMs;
    if days > 0 then Ago(days, Days) else Ago(hours, Hours)
  }

  /** The label: the unit takes an `s` only for counts above one, so a count of
      zero (or less) reads `0 hour ago`. */
  function Render(a: Ago): (text: string)
    ensures var name := if a.unit == Days then "day" else "hour";
      text == IntToString(a.count) + " " + name + (if a.count > 1 then "s" else "") + " ago"
  {
    var name := if a.unit == Days then "day" else "hour";
    if a.count > 1 then IntToString(a.count) + " " + name + "s ago"
    else IntToString(a.count) + " " + name + " ago"
  }

  /** One row of the pending-declarations card. */
  datatype PendingItem = PendingItem(training: string, count: int)

  function Counts(items: seq<PendingItem>): (r: seq<int>)
    ensures |r| == |items|
    ensures forall k :: 0 <= k < |items| ==> r[k] == items[k].count
  {
    if |items| == 0 then [] else [items[0].count] + Counts(items[1..])
  }

  /** `items.reduce((sum, item) => sum + item.count, 0)`, as the left fold it is. */
  function ReduceCounts(items: seq<PendingItem>, acc: int): int
    decreases |items|
  {
    if |items| == 0 then acc else ReduceCounts(items[1..], acc + items[0].count)
  }

  /** The fold from `acc` adds the item counts to `acc`. */
  lemma {:induction false} ReduceCountsIsSum(items: seq<PendingItem>, acc: int)
    ensures ReduceCounts(items, acc) == acc + Sum(Counts(items))
  {
    if |items| > 0 {
      ReduceCountsIsSum(items[1..], acc + items[0].count);
      assert Counts(items)[1..] == Counts(items[1..]);
    }
  }

  /** The figure on the card: the total number of pending declarations. */
  function PendingTotal(items: seq<PendingItem>): (total: int)
    ensures total == Sum(Counts(items))
  {
    ReduceCountsIsSum(items, 0);
    ReduceCounts(items, 0)
  }

  /** The total of two lists of rows is the sum of their totals. */
  lemma PendingTotalAppend(a: seq<PendingItem>, b: seq<PendingItem>)
    ensures PendingTotal(a + b) == PendingTotal(a) + PendingTotal(b)
  {
    assert Counts(a + b) == Counts(a) + Counts(b);
    SumAppend(Counts(a), Counts(b));
  }
}
