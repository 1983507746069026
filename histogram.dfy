/**
 * The weekly histogram binner: `max(counts, default=1)` and bar heights
 * `100 * count / max_count`, normalised per result set.
 */
module Histogram {
  import Dates

  datatype WeekRowData = WeekRow(week: Dates.Date, count: int)

  /** A row of a weekly query: every listed week has at least one record. */
  type WeekRow = r: WeekRowData | r.count >= 1 witness WeekRow(Dates.CalDate(2025, 1, 6), 1)

  /** The record count of each week, in row order. */
  function WeekCounts(rows: seq<WeekRow>): (r: seq<int>)
    ensures |r| == |rows| && forall i :: 0 <= i < |rows| ==> r[i] == rows[i].count
  {
    seq(|rows|, i requires 0 <= i < |rows| => rows[i].count)
  }

  /** `max((row[1] for row in rows), default=1)`. */
  function MaxCount(counts: seq<int>): (m: int)
    ensures counts == [] ==> m == 1
    ensures forall i :: 0 <= i < |counts| ==> counts[i] <= m
    ensures counts != [] ==> exists i :: 0 <= i < |counts| && counts[i] == m
    ensures (forall i :: 0 <= i < |counts| ==> counts[i] >= 1) ==> m >= 1
  {
    if |counts| <= 1 then (if counts == [] then 1 else counts[0])
    else
      var rest := MaxCount(counts[1..]);
      assert forall i :: 1 <= i < |counts| ==> counts[i] == counts[1..][i - 1];
      if counts[0] >= rest then counts[0] else rest
  }

  /** `100 * count / max_count` (true division). */
  function HeightPct(count: int, maxCount: int): real
    requires maxCount != 0
  {
    100.0 * count as real / maxCount as real
  }

  /**
   * With positive counts every bar lies in (0,100], the tallest bucket is
   * exactly 100, and bars keep the order of their counts.
   */
  lemma HeightsNormalised(counts: seq<int>)
    requires forall i :: 0 <= i < |counts| ==> counts[i] >= 1
    ensures MaxCount(counts) >= 1
    ensures forall i :: 0 <= i < |counts| ==>
      0.0 < HeightPct(counts[i], MaxCount(counts)) <= 100.0
    ensures forall i :: 0 <= i < |counts| && counts[i] == MaxCount(counts) ==>
      HeightPct(counts[i], MaxCount(counts)) == 100.0
    ensures forall i, j :: 0 <= i < |counts| && 0 <= j < |counts| && counts[i] <= counts[j] ==>
      HeightPct(counts[i], MaxCount(counts)) <= HeightPct(counts[j], MaxCount(counts))
  {
    var m := MaxCount(counts);
    if counts != [] {
      assert counts[0] <= m;
    }
    forall i | 0 <= i < |counts|
      ensures 0.0 < HeightPct(counts[i], m) <= 100.0
      ensures counts[i] == m ==> HeightPct(counts[i], m) == 100.0
    {
      HeightBounds(counts[i], m);
    }
    forall i, j | 0 <= i < |counts| && 0 <= j < |counts| && counts[i] <= counts[j]
      ensures HeightPct(counts[i], m) <= HeightPct(counts[j], m)
    {
      HeightMonotone(counts[i], counts[j], m);
    }
  }

  /** A bar is `100 * count / max_count`: its height times the maximum is 100 times its count. */
  lemma HeightTimesMax(c: int, m: int)
    requires m != 0
    ensures HeightPct(c, m) * m as real == 100.0 * c as real
  {
    var top, bottom := 100.0 * c as real, m as real;
    assert HeightPct(c, m) == top / bottom;
  }

  lemma HeightBounds(c: int, m: int)
    requires 1 <= c <= m
    ensures 0.0 < HeightPct(c, m) <= 100.0
    ensures c == m ==> HeightPct(c, m) == 100.0
  {
    var q := c as real / m as real;
    assert 0.0 < q <= 1.0;
    assert HeightPct(c, m) == 100.0 * q;
  }

  lemma HeightMonotone(a: int, b: int, m: int)
    requires a <= b && m >= 1
    ensures HeightPct(a, m) <= HeightPct(b, m)
  {
    assert a as real / m as real <= b as real / m as real;
  }
}
