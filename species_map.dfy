/**
 * The species-map module: every grid cell where the chosen species was
 * seen becomes one fixed-colour point whose alpha grows with its count.
 */
module SpeciesMap {
  import opened Wrappers
  import Numerals
  import Dates
  import Color
  import Core

  /** The fixed point colour, a light blue. */
  const PointColor: Color.Rgb := Color.Rgb(38, 194, 255)

  datatype CellRowData = CellRow(
    latitude: real, longitude: real, count: int, earliest: Dates.DateTime, latest: Dates.DateTime)

  /** A row of the per-cell query: `COUNT(*)` of a group is at least 1. */
  type CellRow = r: CellRowData | r.count >= 1
    witness CellRow(0.0, 0.0, 1, Dates.DateTime(Dates.CalDate(2025, 1, 1), 0, 0, 0, 0),
      Dates.DateTime(Dates.CalDate(2025, 1, 1), 0, 0, 0, 0))

  function RowCount(r: CellRow): int { r.count }

  /** `opacity`: a float clamped to [0,1], 0.5 when absent or unparsable. */
  function ParseOpacity(request: map<string, string>): (o: real)
    ensures 0.0 <= o <= 1.0
    ensures "opacity" !in request ==> o == 0.5
    ensures "opacity" in request && Numerals.ParseReal(request["opacity"]).None? ==> o == 0.5
    ensures "opacity" in request && Numerals.ParseReal(request["opacity"]).Some? ==>
      var x := Numerals.ParseReal(request["opacity"]).value;
      (0.0 <= x <= 1.0 ==> o == x) && (x < 0.0 ==> o == 0.0) && (x > 1.0 ==> o == 1.0)
  {
    Core.RealParam(Get(request, "opacity"), 0.5, 0.0, 1.0)
  }

  /** The point drawn for one cell. */
  function CellPoint(row: CellRow, opacity: real, scaleWithMap: bool, pointSize: int): (p: Core.MapPoint)
    requires 0.0 <= opacity <= 1.0
    ensures p.latitude == row.latitude && p.longitude == row.longitude
    ensures p.color.r == 38 && p.color.g == 194 && p.color.b == 255
    ensures p.color.a == Color.Alpha(opacity, row.count) && 0 <= p.color.a <= 255
    ensures opacity * row.count as real >= 1.0 ==> p.color.a == 255
    ensures p.radius == Core.PointRadius(scaleWithMap, pointSize)
    ensures p.tooltip == Core.FormatTooltip(row.count, row.earliest.date, row.latest.date)
  {
    Color.ScaledCountNonNegative(opacity, row.count);
    Core.MapPoint(row.latitude, row.longitude,
      Color.WithAlpha(PointColor, Color.Alpha(opacity, row.count)),
      Core.FormatTooltip(row.count, row.earliest.date, row.latest.date),
      Core.PointRadius(scaleWithMap, pointSize))
  }

  function CellPoints(rows: seq<CellRow>, opacity: real, scaleWithMap: bool, pointSize: int): (ps: seq<Core.MapPoint>)
    requires 0.0 <= opacity <= 1.0
    ensures |ps| == |rows|
    ensures forall i :: 0 <= i < |rows| ==> ps[i] == CellPoint(rows[i], opacity, scaleWithMap, pointSize)
  {
    seq(|rows|, i requires 0 <= i < |rows| => CellPoint(rows[i], opacity, scaleWithMap, pointSize))
  }

  lemma CellPointsPrefix(rows: seq<CellRow>, i: int, opacity: real, scaleWithMap: bool, pointSize: int)
    requires 0 <= i < |rows| && 0.0 <= opacity <= 1.0
    ensures CellPoints(rows[..i + 1], opacity, scaleWithMap, pointSize)
      == CellPoints(rows[..i], opacity, scaleWithMap, pointSize) + [CellPoint(rows[i], opacity, scaleWithMap, pointSize)]
  {
    var a := CellPoints(rows[..i + 1], opacity, scaleWithMap, pointSize);
    var b := CellPoints(rows[..i], opacity, scaleWithMap, pointSize) + [CellPoint(rows[i], opacity, scaleWithMap, pointSize)];
    forall k | 0 <= k <= i ensures a[k] == b[k] {
      if k < i {
        assert rows[..i + 1][k] == rows[..i][k];
      } else {
        assert rows[..i + 1][k] == rows[i];
      }
    }
    assert |a| == |b|;
  }

  /** The row loop of `render`: one point per row and the total of the counts. */
  method AssembleCells(rows: seq<CellRow>, opacity: real, scaleWithMap: bool, pointSize: int)
    returns (data: seq<Core.MapPoint>, totalRecords: int)
    requires 0.0 <= opacity <= 1.0
    ensures data == CellPoints(rows, opacity, scaleWithMap, pointSize)
    ensures totalRecords == Core.SumOf(rows, RowCount)
    ensures totalRecords >= |rows|
  {
    data := [];
    totalRecords := 0;
    var i := 0;
    while i < |rows|
      invariant 0 <= i <= |rows|
      invariant data == CellPoints(rows[..i], opacity, scaleWithMap, pointSize)
      invariant totalRecords == Core.SumOf(rows[..i], RowCount)
      invariant totalRecords >= i
    {
      var row := rows[i];
      totalRecords := totalRecords + row.count;
      data := data + [CellPoint(row, opacity, scaleWithMap, pointSize)];
      CellPointsPrefix(rows, i, opacity, scaleWithMap, pointSize);
      Core.SumOfPrefix(rows, i, RowCount);
      i := i + 1;
    }
    assert rows[..i] == rows;
  }

  datatype View =
    | NoData
    | SpeciesView(
        mapHtml: string, allSpecies: seq<string>, selected: Option<string>,
        speciesCounts: map<string, int>, resultCount: int, cellCount: int,
        opacity: real, pointSize: int, scaleWithMap: bool)

  /**
   * `render(ctx)`. `store` and `cache` feed the species list, `cells` is the
   * per-cell query for one species name, `deck` the renderer.
   */
  method Render(ctx: Core.ModuleContext, store: Option<seq<string>>, cache: map<string, int>,
                cells: string -> seq<CellRow>, deck: Core.Deck)
    returns (view: View)
    ensures view.NoData? <==> (if store.Some? then store.value == [] else cache == map[])
    ensures view.SpeciesView? ==>
      && Core.IsSpeciesList(view.allSpecies, store, cache)
      && view.speciesCounts == cache
      && view.selected == Get(ctx.request, "species")
      && view.opacity == ParseOpacity(ctx.request)
      && view.pointSize == Core.IntParam(Get(ctx.request, "point_size"), 6, 2, 20)
      && (view.scaleWithMap <==> Get(ctx.request, "scale_with_map") == Some("on"))
    ensures view.SpeciesView? && !Core.Truthy(view.selected) ==>
      view.mapHtml == "" && view.resultCount == 0 && view.cellCount == 0
    ensures view.SpeciesView? && Core.Truthy(view.selected) ==>
      var rows := cells(view.selected.value);
      && view.cellCount == |rows|
      && view.resultCount == Core.SumOf(rows, RowCount)
      && view.mapHtml == ctx.RenderMap(CellPoints(rows, view.opacity, view.scaleWithMap, view.pointSize),
                                       view.scaleWithMap, view.pointSize, deck)
  {
    var allSpecies, speciesCounts := ctx.SpeciesList(store, cache);
    if allSpecies == [] {
      if store.Some? {
        assert |store.value| == |multiset(store.value)| == |multiset(allSpecies)| == 0;
      }
      return NoData;
    }
    var selected := Get(ctx.request, "species");
    var pointSize, scaleWithMap := ctx.ParseMapControls();
    var opacity := ParseOpacity(ctx.request);
    var totalRecords := 0;
    var data: seq<Core.MapPoint> := [];
    var mapHtml := "";
    if Core.Truthy(selected) {
      var rows := cells(selected.value);
      data, totalRecords := AssembleCells(rows, opacity, scaleWithMap, pointSize);
      mapHtml := ctx.RenderMap(data, scaleWithMap, pointSize, deck);
    }
    view := SpeciesView(mapHtml, allSpecies, selected, speciesCounts, totalRecords, |data|,
      opacity, pointSize, scaleWithMap);
  }
}
