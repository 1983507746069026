/**
 * The temporal-map module: each cell is coloured by the earliest day of
 * the year the chosen species was seen there (a rainbow over days 1 to 181,
 * white from day 182 on), with a weekly histogram coloured the same way.
 */
module TemporalMap {
  import opened Wrappers
  import Numerals
  import Dates
  import Color
  import Histogram
  import Core

  /** The last day of the year that gets a rainbow colour. */
  const LastRainbowDay: int := 181

  /** The hue given to `LastRainbowDay`, just short of violet. */
  const MaxHue: real := 0.83

  /** Alpha of every point. */
  const PointAlpha: int := 200

  const White: Color.Rgb := Color.Rgb(255, 255, 255)

  /** `(day - 1) / 180 * 0.83`. */
  function DayHue(day: int): real
  {
    (day - 1) as real / 180.0 * MaxHue
  }

  /** Day 1 is red (hue 0), hues stay within [0, 0.83] up to day 181 and never decrease with the day. */
  lemma DayHueRange(day: int, later: int)
    requires 1 <= day <= later <= LastRainbowDay
    ensures DayHue(1) == 0.0
    ensures 0.0 <= DayHue(day) <= MaxHue
    ensures DayHue(LastRainbowDay) == MaxHue
    ensures DayHue(day) <= DayHue(later)
  {
    assert (day - 1) as real / 180.0 <= (later - 1) as real / 180.0;
    assert (day - 1) as real / 180.0 <= 1.0;
  }

  /**
   * `day_of_year_to_rgb(day)`: white from day 182 on (from 1 July, and on
   * 30 June in a leap year), otherwise the rainbow colour of the day.
   */
  function DayOfYearToRgb(hsv: Color.HsvToRgb, day: int): (c: Color.Rgb)
    ensures c.InRange()
    ensures day > LastRainbowDay ==> c == White
    ensures day <= LastRainbowDay ==> c == Color.ToRgb(hsv(DayHue(day), 1.0, 1.0))
  {
    if day > LastRainbowDay then White
    else Color.ToRgb(hsv(DayHue(day), 1.0, 1.0))
  }

  /** `f"rgb({r}, {g}, {b})"`. */
  function CssColor(c: Color.Rgb): string
  {
    "rgb(" + Numerals.IntToString(c.r) + ", " + Numerals.IntToString(c.g) + ", " + Numerals.IntToString(c.b) + ")"
  }

  datatype CellRowData = CellRow(
    latitude: real, longitude: real, count: int,
    earliest: Dates.DateTime, latest: Dates.DateTime, minDay: int)

  /** A row of the per-cell query: at least one record, and `dayOfYear` lies in 1..366. */
  type CellRow = r: CellRowData | r.count >= 1 && 1 <= r.minDay <= 366
    witness CellRow(0.0, 0.0, 1, Dates.DateTime(Dates.CalDate(2025, 1, 1), 0, 0, 0, 0),
      Dates.DateTime(Dates.CalDate(2025, 1, 1), 0, 0, 0, 0), 1)

  function RowCount(r: CellRow): int { r.count }

  /** The point drawn for one cell, coloured by its earliest day. */
  function CellPoint(hsv: Color.HsvToRgb, row: CellRow, scaleWithMap: bool, pointSize: int): (p: Core.MapPoint)
    ensures p.latitude == row.latitude && p.longitude == row.longitude
    ensures p.color == Color.WithAlpha(DayOfYearToRgb(hsv, row.minDay), PointAlpha)
    ensures p.color.InRange() && p.color.a == 200
    ensures row.minDay > LastRainbowDay ==> p.color == Color.Rgba(255, 255, 255, 200)
    ensures p.radius == Core.PointRadius(scaleWithMap, pointSize)
    ensures p.tooltip == Core.FormatTooltip(row.count, row.earliest.date, row.latest.date)
  {
    Core.MapPoint(row.latitude, row.longitude,
      Color.WithAlpha(DayOfYearToRgb(hsv, row.minDay), PointAlpha),
      Core.FormatTooltip(row.count, row.earliest.date, row.latest.date),
      Core.PointRadius(scaleWithMap, pointSize))
  }

  function CellPoints(hsv: Color.HsvToRgb, rows: seq<CellRow>, scaleWithMap: bool, pointSize: int): (ps: seq<Core.MapPoint>)
    ensures |ps| == |rows|
    ensures forall i :: 0 <= i < |rows| ==> ps[i] == CellPoint(hsv, rows[i], scaleWithMap, pointSize)
  {
    seq(|rows|, i requires 0 <= i < |rows| => CellPoint(hsv, rows[i], scaleWithMap, pointSize))
  }

  lemma CellPointsPrefix(hsv: Color.HsvToRgb, rows: seq<CellRow>, i: int, scaleWithMap: bool, pointSize: int)
    requires 0 <= i < |rows|
    ensures CellPoints(hsv, rows[..i + 1], scaleWithMap, pointSize)
      == CellPoints(hsv, rows[..i], scaleWithMap, pointSize) + [CellPoint(hsv, rows[i], scaleWithMap, pointSize)]
  {
    var a := CellPoints(hsv, rows[..i + 1], scaleWithMap, pointSize);
    var b := CellPoints(hsv, rows[..i], scaleWithMap, pointSize) + [CellPoint(hsv, rows[i], scaleWithMap, pointSize)];
    forall k | 0 <= k <= i ensures a[k] == b[k] {
      if k < i {
        assert rows[..i + 1][k] == rows[..i][k];
      } else {
        assert rows[..i + 1][k] == rows[i];
      }
    }
    assert |a| == |b|;
  }

  /** The row loop of `render`: one point per row and the total of the counts. */
  method AssembleCells(hsv: Color.HsvToRgb, rows: seq<CellRow>, scaleWithMap: bool, pointSize: int)
    returns (data: seq<Core.MapPoint>, totalRecords: int)
    ensures data == CellPoints(hsv, rows, scaleWithMap, pointSize)
    ensures totalRecords == Core.SumOf(rows, RowCount)
    ensures totalRecords >= |rows|
  {
    data := [];
    totalRecords := 0;
    var i := 0;
    while i < |rows|
      invariant 0 <= i <= |rows|
      invariant data == CellPoints(hsv, rows[..i], scaleWithMap, pointSize)
      invariant totalRecords == Core.SumOf(rows[..i], RowCount)
      invariant totalRecords >= i
    {
      var row := rows[i];
      totalRecords := totalRecords + row.count;
      data := data + [CellPoint(hsv, row, scaleWithMap, pointSize)];
      CellPointsPrefix(hsv, rows, i, scaleWithMap, pointSize);
      Core.SumOfPrefix(rows, i, RowCount);
      i := i + 1;
    }
    assert rows[..i] == rows;
  }

  // ---------------------------------------------------------------------------
  // Weekly histogram

  datatype Bar = Bar(week: string, weekLabel: string, count: int, heightPct: real, color: string)

  /** The bar of one week: its height against the busiest week, its colour from the week's day of the year. */
  function WeekBar(hsv: Color.HsvToRgb, row: Histogram.WeekRow, maxCount: int): (b: Bar)
    requires maxCount >= 1
    ensures b.week == Dates.FormatIso(row.week) && b.weekLabel == Dates.FormatMonthDay(row.week)
    ensures b.count == row.count && b.heightPct == Histogram.HeightPct(row.count, maxCount)
    ensures b.color == CssColor(DayOfYearToRgb(hsv, Dates.DayOfYear(row.week)))
  {
    var rgb := DayOfYearToRgb(hsv, Dates.DayOfYear(row.week));
    Bar(Dates.FormatIso(row.week), Dates.FormatMonthDay(row.week), row.count,
      Histogram.HeightPct(row.count, maxCount), CssColor(rgb))
  }

  function WeekBars(hsv: Color.HsvToRgb, rows: seq<Histogram.WeekRow>, maxCount: int): (bars: seq<Bar>)
    requires maxCount >= 1
    ensures |bars| == |rows|
    ensures forall i :: 0 <= i < |rows| ==> bars[i] == WeekBar(hsv, rows[i], maxCount)
  {
    seq(|rows|, i requires 0 <= i < |rows| => WeekBar(hsv, rows[i], maxCount))
  }

  lemma WeekBarsPrefix(hsv: Color.HsvToRgb, rows: seq<Histogram.WeekRow>, i: int, maxCount: int)
    requires 0 <= i < |rows| && maxCount >= 1
    ensures WeekBars(hsv, rows[..i + 1], maxCount) == WeekBars(hsv, rows[..i], maxCount) + [WeekBar(hsv, rows[i], maxCount)]
  {
    var a, b := WeekBars(hsv, rows[..i + 1], maxCount), WeekBars(hsv, rows[..i], maxCount) + [WeekBar(hsv, rows[i], maxCount)];
    forall k | 0 <= k <= i ensures a[k] == b[k] {
      if k < i {
        assert rows[..i + 1][k] == rows[..i][k];
      } else {
        assert rows[..i + 1][k] == rows[i];
      }
    }
    assert |a| == |b|;
  }

  /** The histogram loop of `render`: one bar per week, in the query's order. */
  method BuildHistogram(hsv: Color.HsvToRgb, rows: seq<Histogram.WeekRow>) returns (bars: seq<Bar>)
    ensures Histogram.MaxCount(Histogram.WeekCounts(rows)) >= 1
    ensures bars == WeekBars(hsv, rows, Histogram.MaxCount(Histogram.WeekCounts(rows)))
  {
    var maxCount := Histogram.MaxCount(Histogram.WeekCounts(rows));
    bars := [];
    var i := 0;
    while i < |rows|
      invariant 0 <= i <= |rows|
      invariant bars == WeekBars(hsv, rows[..i], maxCount)
    {
      bars := bars + [WeekBar(hsv, rows[i], maxCount)];
      WeekBarsPrefix(hsv, rows, i, maxCount);
      i := i + 1;
    }
    assert rows[..i] == rows;
  }

  /** Bar heights lie in (0,100] the busiest week's bar is 100, and taller bars have more records. */
  lemma HistogramNormalised(hsv: Color.HsvToRgb, rows: seq<Histogram.WeekRow>)
    ensures var m := Histogram.MaxCount(Histogram.WeekCounts(rows));
      var bars := WeekBars(hsv, rows, m);
      && (forall i :: 0 <= i < |bars| ==> 0.0 < bars[i].heightPct <= 100.0)
      && (forall i :: 0 <= i < |bars| && bars[i].count == m ==> bars[i].heightPct == 100.0)
      && (forall i, j :: 0 <= i < |bars| && 0 <= j < |bars| && bars[i].count <= bars[j].count ==>
            bars[i].heightPct <= bars[j].heightPct)
  {
    var counts := Histogram.WeekCounts(rows);
    var m := Histogram.MaxCount(counts);
    Histogram.HeightsNormalised(counts);
    BarHeights(hsv, rows, m);
  }

  lemma BarHeights(hsv: Color.HsvToRgb, rows: seq<Histogram.WeekRow>, m: int)
    requires m >= 1
    ensures forall i :: 0 <= i < |rows| ==>
      WeekBars(hsv, rows, m)[i].count == Histogram.WeekCounts(rows)[i]
      && WeekBars(hsv, rows, m)[i].heightPct == Histogram.HeightPct(Histogram.WeekCounts(rows)[i], m)
  {
  }

  /** A week starting after June 30th has a white bar. */
  lemma LateWeeksWhite(hsv: Color.HsvToRgb, row: Histogram.WeekRow, maxCount: int)
    requires maxCount >= 1 && row.week.month >= 7
    ensures WeekBar(hsv, row, maxCount).color == "rgb(255, 255, 255)"
  {
    LateInYear(row.week);
    WhiteCss();
  }

  /** Every day from July 1st on comes after the last rainbow day. */
  lemma LateInYear(d: Dates.Date)
    requires d.month >= 7
    ensures Dates.DayOfYear(d) > LastRainbowDay
  {
    var july1 := Dates.CalDate(d.year, 7, 1);
    assert Dates.DayOfYear(july1) == 182 || Dates.DayOfYear(july1) == 183;
    if d != july1 {
      Dates.DayOfYearIncreasing(july1, d);
    }
  }

  lemma WhiteCss()
    ensures CssColor(White) == "rgb(255, 255, 255)"
  {
    assert Numerals.IntToString(255) == "255" by {
      assert Numerals.NatToString(255) == Numerals.NatToString(25) + [Numerals.DigitChar(5)];
      assert Numerals.NatToString(25) == Numerals.NatToString(2) + [Numerals.DigitChar(5)];
    }
  }

  // ---------------------------------------------------------------------------
  // The view

  datatype View =
    | NoData
    | TemporalView(
        mapHtml: string, allSpecies: seq<string>, selected: Option<string>,
        speciesCounts: map<string, int>, resultCount: int, cellCount: int,
        histogram: seq<Bar>, pointSize: int, scaleWithMap: bool)

  /**
   * `render(ctx)`. `cells` and `weeks` are the per-cell and weekly queries
   * for one species name, `hsv` the colour conversion, `deck` the renderer.
   */
  method Render(ctx: Core.ModuleContext, store: Option<seq<string>>, cache: map<string, int>,
                cells: string -> seq<CellRow>, weeks: string -> seq<Histogram.WeekRow>,
                hsv: Color.HsvToRgb, deck: Core.Deck)
    returns (view: View)
    ensures view.NoData? <==> (if store.Some? then store.value == [] else cache == map[])
    ensures view.TemporalView? ==>
      && Core.IsSpeciesList(view.allSpecies, store, cache)
      && view.speciesCounts == cache
      && view.selected == Get(ctx.request, "species")
      && view.pointSize == Core.IntParam(Get(ctx.request, "point_size"), 6, 2, 20)
      && (view.scaleWithMap <==> Get(ctx.request, "scale_with_map") == Some("on"))
    ensures view.TemporalView? && !Core.Truthy(view.selected) ==>
      view.mapHtml == "" && view.resultCount == 0 && view.cellCount == 0 && view.histogram == []
    ensures view.TemporalView? && Core.Truthy(view.selected) ==>
      var rows := cells(view.selected.value);
      var weekRows := weeks(view.selected.value);
      && view.cellCount == |rows|
      && view.resultCount == Core.SumOf(rows, RowCount)
      && view.histogram == WeekBars(hsv, weekRows, Histogram.MaxCount(Histogram.WeekCounts(weekRows)))
      && view.mapHtml == ctx.RenderMap(CellPoints(hsv, rows, view.scaleWithMap, view.pointSize),
                                       view.scaleWithMap, view.pointSize, deck)
  {
    var allSpecies, speciesCounts := ctx.SpeciesList(store, cache);
    if allSpecies == [] {
      if store.Some? {
        assert |store.value| == |multiset(store.value)| == |multiset(allSpecies)| == 0;
      }
      return NoData;
    }
    var selected := Get(ctx.request, "species");
    var pointSize, scaleWithMap := ctx.ParseMapControls();
    var totalRecords := 0;
    var data: seq<Core.MapPoint> := [];
    var histogram: seq<Bar> := [];
    var mapHtml := "";
    if Core.Truthy(selected) {
      var rows := cells(selected.value);
      data, totalRecords := AssembleCells(hsv, rows, scaleWithMap, pointSize);
      histogram := BuildHistogram(hsv, weeks(selected.value));
      mapHtml := ctx.RenderMap(data, scaleWithMap, pointSize, deck);
    }
    view := TemporalView(mapHtml, allSpecies, selected, speciesCounts, totalRecords, |data|,
      histogram, pointSize, scaleWithMap);
  }
}
