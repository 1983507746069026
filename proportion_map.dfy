/**
 * The proportion-map module: each location where the chosen species was
 * seen is coloured by how over- or under-represented the species is there,
 * the ratio of its local share of records to its expected share.
 */
module ProportionMap {
  import opened Wrappers
  import Numerals
  import Color
  import Core

  /** Ratios at or above this are full red. */
  const RatioCap: real := 5.0

  /** Smallest expected share, so that rare species do not get extreme ratios. */
  const ExpectedFloor: real := 0.005

  /** Hue of a ratio of 0, blue. */
  const BlueHue: real := 0.667

  /** Alpha of every point. */
  const PointAlpha: int := 200

  /** `max(proportions.get(species, EXPECTED_FLOOR), EXPECTED_FLOOR)`. */
  function Expected(proportions: map<string, real>, species: string): (e: real)
    ensures e >= ExpectedFloor
    ensures species !in proportions ==> e == ExpectedFloor
    ensures species in proportions ==> e == Color.Max(proportions[species], ExpectedFloor)
  {
    Color.Max(GetOr(proportions, species, ExpectedFloor), ExpectedFloor)
  }

  /** `(1.0 - min(ratio / RATIO_CAP, 1.0)) * 0.667`. */
  function RatioHue(ratio: real): (h: real)
    ensures ratio >= RatioCap ==> h == 0.0
    ensures ratio == 0.0 ==> h == BlueHue
    ensures ratio >= 0.0 ==> 0.0 <= h <= BlueHue
  {
    (1.0 - Color.Min(ratio / RatioCap, 1.0)) * BlueHue
  }

  /** Higher ratios never move the hue back towards blue. */
  lemma RatioHueMonotone(r1: real, r2: real)
    requires 0.0 <= r1 <= r2
    ensures RatioHue(r2) <= RatioHue(r1)
  {
    assert r1 / RatioCap <= r2 / RatioCap;
  }

  /** Every ratio at or beyond the cap looks the same: `ratio_to_rainbow(100 * cap) == ratio_to_rainbow(cap)`. */
  lemma RatioClamped(hsv: Color.HsvToRgb, ratio: real)
    requires ratio >= RatioCap
    ensures RatioToRainbow(hsv, ratio) == RatioToRainbow(hsv, RatioCap)
    ensures RatioToRainbow(hsv, 100.0 * RatioCap) == RatioToRainbow(hsv, RatioCap)
  {
  }

  /** `ratio_to_rainbow(ratio)`: blue through green to red as the ratio grows to the cap. */
  function RatioToRainbow(hsv: Color.HsvToRgb, ratio: real): (c: Color.Rgb)
    ensures c.InRange()
    ensures c == Color.ToRgb(hsv(RatioHue(ratio), 1.0, 1.0))
  {
    Color.ToRgb(hsv(RatioHue(ratio), 1.0, 1.0))
  }

  datatype RowData = Row(latitude: real, longitude: real, totalCount: int, speciesCount: int)

  /**
   * A row of the per-location query: `HAVING species_count > 0` keeps only
   * locations with the species, and `countIf` never exceeds `COUNT(*)`.
   */
  type Row = r: RowData | 0 < r.speciesCount <= r.totalCount witness Row(0.0, 0.0, 1, 1)

  function SpeciesCount(r: Row): int { r.speciesCount }

  function TotalCount(r: Row): int { r.totalCount }

  /** `species_count / total_count`: the species' share of the location's records. */
  function Proportion(row: Row): (p: real)
    ensures 0.0 < p <= 1.0
  {
    row.speciesCount as real / row.totalCount as real
  }

  /** `proportion / expected`. */
  function Ratio(row: Row, expected: real): (r: real)
    requires expected >= ExpectedFloor
    ensures 0.0 < r <= 1.0 / expected
    ensures r * expected == Proportion(row)
  {
    var p := Proportion(row);
    assert p / expected <= 1.0 / expected;
    p / expected
  }

  /**
   * Library float formatting the tooltip uses: `f"{x:.1%}"` and
   * `f"{x:.1f}"`; not modelled.
   */
  datatype FloatFormat = FloatFormat(percent1: real -> string, fixed1: real -> string)

  /** `f"{species_count}/{total_count} records ({proportion:.1%})\n{ratio:.1f}× expected"`. */
  function Tooltip(fmt: FloatFormat, row: Row, expected: real): string
    requires expected >= ExpectedFloor
  {
    Numerals.IntToString(row.speciesCount) + "/" + Numerals.IntToString(row.totalCount) + " records ("
    + fmt.percent1(Proportion(row)) + ")\n" + fmt.fixed1(Ratio(row, expected)) + "\U{00D7} expected"
  }

  /** The point drawn for one location. */
  function LocationPoint(hsv: Color.HsvToRgb, fmt: FloatFormat, row: Row, expected: real,
                         scaleWithMap: bool, pointSize: int): (p: Core.MapPoint)
    requires expected >= ExpectedFloor
    ensures p.latitude == row.latitude && p.longitude == row.longitude
    ensures p.color == Color.WithAlpha(RatioToRainbow(hsv, Ratio(row, expected)), PointAlpha)
    ensures p.color.InRange() && p.color.a == 200
    ensures Ratio(row, expected) >= RatioCap ==> p.color == Color.WithAlpha(RatioToRainbow(hsv, RatioCap), 200)
    ensures p.radius == Core.PointRadius(scaleWithMap, pointSize)
    ensures p.tooltip == Tooltip(fmt, row, expected)
  {
    Core.MapPoint(row.latitude, row.longitude,
      Color.WithAlpha(RatioToRainbow(hsv, Ratio(row, expected)), PointAlpha),
      Tooltip(fmt, row, expected),
      Core.PointRadius(scaleWithMap, pointSize))
  }

  function LocationPoints(hsv: Color.HsvToRgb, fmt: FloatFormat, rows: seq<Row>, expected: real,
                          scaleWithMap: bool, pointSize: int): (ps: seq<Core.MapPoint>)
    requires expected >= ExpectedFloor
    ensures |ps| == |rows|
    ensures forall i :: 0 <= i < |rows| ==> ps[i] == LocationPoint(hsv, fmt, rows[i], expected, scaleWithMap, pointSize)
  {
    seq(|rows|, i requires 0 <= i < |rows| => LocationPoint(hsv, fmt, rows[i], expected, scaleWithMap, pointSize))
  }

  lemma LocationPointsPrefix(hsv: Color.HsvToRgb, fmt: FloatFormat, rows: seq<Row>, i: int, expected: real,
                             scaleWithMap: bool, pointSize: int)
    requires 0 <= i < |rows| && expected >= ExpectedFloor
    ensures LocationPoints(hsv, fmt, rows[..i + 1], expected, scaleWithMap, pointSize)
      == LocationPoints(hsv, fmt, rows[..i], expected, scaleWithMap, pointSize)
         + [LocationPoint(hsv, fmt, rows[i], expected, scaleWithMap, pointSize)]
  {
  }

  /**
   * The row loop of `render`: one point per location, and the total of the
   * species' own records (not of all records at those locations).
   */
  method AssembleLocations(hsv: Color.HsvToRgb, fmt: FloatFormat, rows: seq<Row>, expected: real,
                           scaleWithMap: bool, pointSize: int)
    returns (data: seq<Core.MapPoint>, totalRecords: int)
    requires expected >= ExpectedFloor
    ensures data == LocationPoints(hsv, fmt, rows, expected, scaleWithMap, pointSize)
    ensures totalRecords == Core.SumOf(rows, SpeciesCount)
    ensures |rows| <= totalRecords <= Core.SumOf(rows, TotalCount)
  {
    data := [];
    totalRecords := 0;
    ghost var allRecords := 0;
    var i := 0;
    while i < |rows|
      invariant 0 <= i <= |rows|
      invariant data == LocationPoints(hsv, fmt, rows[..i], expected, scaleWithMap, pointSize)
      invariant totalRecords == Core.SumOf(rows[..i], SpeciesCount)
      invariant allRecords == Core.SumOf(rows[..i], TotalCount)
      invariant i <= totalRecords <= allRecords
    {
      var row := rows[i];
      totalRecords := totalRecords + row.speciesCount;
      allRecords := allRecords + row.totalCount;
      var proportion := row.speciesCount as real / row.totalCount as real;
      var ratio := proportion / expected;
      var rgb := RatioToRainbow(hsv, ratio);
      var point := Core.MapPoint(row.latitude, row.longitude, Color.WithAlpha(rgb, PointAlpha),
        Tooltip(fmt, row, expected), Core.PointRadius(scaleWithMap, pointSize));
      assert point == LocationPoint(hsv, fmt, row, expected, scaleWithMap, pointSize);
      LocationPointsPrefix(hsv, fmt, rows, i, expected, scaleWithMap, pointSize);
      data := data + [point];
      Core.SumOfPrefix(rows, i, SpeciesCount);
      Core.SumOfPrefix(rows, i, TotalCount);
      i := i + 1;
    }
    assert rows[..i] == rows;
  }

  // ---------------------------------------------------------------------------
  // The view

  datatype View =
    | NoData
    | ProportionView(
        mapHtml: string, allSpecies: seq<string>, selected: Option<string>,
        speciesCounts: map<string, int>, resultCount: int, cellCount: int,
        expectedProportion: real, ratioCap: real, pointSize: int, scaleWithMap: bool)

  /**
   * `render(ctx)`. `proportions` is the species-proportions file's content,
   * `locations` the per-location query for one species name, `hsv` the
   * colour conversion, `fmt` the float formatting and `deck` the renderer.
   */
  method Render(ctx: Core.ModuleContext, store: Option<seq<string>>, cache: map<string, int>,
                proportions: map<string, real>, locations: string -> seq<Row>,
                hsv: Color.HsvToRgb, fmt: FloatFormat, deck: Core.Deck)
    returns (view: View)
    ensures view.NoData? <==> (if store.Some? then store.value == [] else cache == map[])
    ensures view.ProportionView? ==>
      && Core.IsSpeciesList(view.allSpecies, store, cache)
      && view.speciesCounts == cache
      && view.selected == Get(ctx.request, "species")
      && view.ratioCap == RatioCap
      && view.pointSize == Core.IntParam(Get(ctx.request, "point_size"), 6, 2, 20)
      && (view.scaleWithMap <==> Get(ctx.request, "scale_with_map") == Some("on"))
    ensures view.ProportionView? && !Core.Truthy(view.selected) ==>
      view.mapHtml == "" && view.resultCount == 0 && view.cellCount == 0 && view.expectedProportion == 0.0
    ensures view.ProportionView? && Core.Truthy(view.selected) ==>
      var rows := locations(view.selected.value);
      && view.expectedProportion == Expected(proportions, view.selected.value)
      && view.cellCount == |rows|
      && view.resultCount == Core.SumOf(rows, SpeciesCount)
      && view.mapHtml == ctx.RenderMap(
           LocationPoints(hsv, fmt, rows, view.expectedProportion, view.scaleWithMap, view.pointSize),
           view.scaleWithMap, view.pointSize, deck)
  {
    var allSpecies, speciesCounts := ctx.SpeciesList(store, cache);
    if allSpecies == [] {
      if store.Some? {
        assert |store.value| == |multiset(store.value)| == |multiset(allSpecies)| == 0;
      }
      return NoData;
    }
    var selected := Get(ctx.request, "species");
    var pointSize, scaleWithMap := ctx.ParseMapControls();
    var totalRecords := 0;
    var data: seq<Core.MapPoint> := [];
    var mapHtml := "";
    var expected := 0.0;
    if Core.Truthy(selected) {
      expected := Expected(proportions, selected.value);
      var rows := locations(selected.value);
      data, totalRecords := AssembleLocations(hsv, fmt, rows, expected, scaleWithMap, pointSize);
      mapHtml := ctx.RenderMap(data, scaleWithMap, pointSize, deck);
    }
    view := ProportionView(mapHtml, allSpecies, selected, speciesCounts, totalRecords, |data|,
      expected, RatioCap, pointSize, scaleWithMap);
  }
}
