/**
 * The spread-map module: the (location, day) groups of the chosen species
 * in day order, handed to an animation whose fade length and speed come
 * from the request.
 */
module SpreadMap {
  import opened Wrappers
  import Numerals
  import Core

  datatype RowData = Row(latitude: real, longitude: real, day: int, count: int)

  /** A row of the (location, day) query: every group has at least one record. */
  type Row = r: RowData | r.count >= 1 witness Row(0.0, 0.0, 1, 1)

  function RowCount(r: Row): int { r.count }

  /** One animation point, `[lat, lon, day]`. */
  datatype Point = Point(latitude: real, longitude: real, day: int)

  /** The animation page template: points, point size, scaling, fade days and speed. */
  type Template = (seq<Point>, int, bool, int, int) -> string

  /** `fade_days`: an int clamped to [1,60], 14 when absent or unparsable. */
  function ParseFadeDays(request: map<string, string>): (d: int)
    ensures 1 <= d <= 60
    ensures "fade_days" !in request ==> d == 14
    ensures "fade_days" in request && Numerals.ParseInt(request["fade_days"]).None? ==> d == 14
    ensures "fade_days" in request && Numerals.ParseInt(request["fade_days"]).Some? ==>
      var n := Numerals.ParseInt(request["fade_days"]).value;
      (1 <= n <= 60 ==> d == n) && (n < 1 ==> d == 1) && (n > 60 ==> d == 60)
  {
    Core.IntParam(Get(request, "fade_days"), 14, 1, 60)
  }

  /** `speed`: an int clamped to [5,100], 20 when absent or unparsable. */
  function ParseSpeed(request: map<string, string>): (s: int)
    ensures 5 <= s <= 100
    ensures "speed" !in request ==> s == 20
    ensures "speed" in request && Numerals.ParseInt(request["speed"]).None? ==> s == 20
    ensures "speed" in request && Numerals.ParseInt(request["speed"]).Some? ==>
      var n := Numerals.ParseInt(request["speed"]).value;
      (5 <= n <= 100 ==> s == n) && (n < 5 ==> s == 5) && (n > 100 ==> s == 100)
  {
    Core.IntParam(Get(request, "speed"), 20, 5, 100)
  }

  function PointOf(r: Row): Point { Point(r.latitude, r.longitude, r.day) }

  /** The animation points of `rows`, one per row in row order. */
  function Points(rows: seq<Row>): (ps: seq<Point>)
    ensures |ps| == |rows|
    ensures forall i :: 0 <= i < |rows| ==>
      ps[i].latitude == rows[i].latitude && ps[i].longitude == rows[i].longitude && ps[i].day == rows[i].day
  {
    seq(|rows|, i requires 0 <= i < |rows| => PointOf(rows[i]))
  }

  lemma PointsPrefix(rows: seq<Row>, i: int)
    requires 0 <= i < |rows|
    ensures Points(rows[..i + 1]) == Points(rows[..i]) + [PointOf(rows[i])]
  {
  }

  /** Rows in day order (`ORDER BY day_of_year`) give points in day order. */
  lemma PointsKeepDayOrder(rows: seq<Row>)
    requires forall i, j :: 0 <= i < j < |rows| ==> rows[i].day <= rows[j].day
    ensures forall i, j :: 0 <= i < j < |Points(rows)| ==> Points(rows)[i].day <= Points(rows)[j].day
  {
  }

  /** The row loop of `render`: the points in row order and the total of the counts. */
  method CollectPoints(rows: seq<Row>) returns (points: seq<Point>, totalRecords: int)
    ensures points == Points(rows)
    ensures totalRecords == Core.SumOf(rows, RowCount)
    ensures totalRecords >= |rows|
  {
    points := [];
    totalRecords := 0;
    var i := 0;
    while i < |rows|
      invariant 0 <= i <= |rows|
      invariant points == Points(rows[..i])
      invariant totalRecords == Core.SumOf(rows[..i], RowCount)
      invariant totalRecords >= i
    {
      var row := rows[i];
      totalRecords := totalRecords + row.count;
      points := points + [Point(row.latitude, row.longitude, row.day)];
      PointsPrefix(rows, i);
      Core.SumOfPrefix(rows, i, RowCount);
      i := i + 1;
    }
    assert rows[..i] == rows;
  }

  datatype View =
    | NoData
    | SpreadView(
        mapHtml: string, allSpecies: seq<string>, selected: Option<string>,
        speciesCounts: map<string, int>, resultCount: int, cellCount: int,
        pointSize: int, scaleWithMap: bool, fadeDays: int, speed: int)

  /**
   * `render(ctx)`. `groups` is the (location, day) query for one species
   * name and `template` the animation page.
   */
  method Render(ctx: Core.ModuleContext, store: Option<seq<string>>, cache: map<string, int>,
                groups: string -> seq<Row>, template: Template)
    returns (view: View)
    ensures view.NoData? <==> (if store.Some? then store.value == [] else cache == map[])
    ensures view.SpreadView? ==>
      && Core.IsSpeciesList(view.allSpecies, store, cache)
      && view.speciesCounts == cache
      && view.selected == Get(ctx.request, "species")
      && view.pointSize == Core.IntParam(Get(ctx.request, "point_size"), 6, 2, 20)
      && (view.scaleWithMap <==> Get(ctx.request, "scale_with_map") == Some("on"))
      && view.fadeDays == ParseFadeDays(ctx.request)
      && view.speed == ParseSpeed(ctx.request)
    ensures view.SpreadView? && !Core.Truthy(view.selected) ==>
      view.mapHtml == "" && view.resultCount == 0 && view.cellCount == 0
    ensures view.SpreadView? && Core.Truthy(view.selected) ==>
      var rows := groups(view.selected.value);
      && view.cellCount == |rows|
      && view.resultCount == Core.SumOf(rows, RowCount)
      && view.mapHtml == template(Points(rows), view.pointSize, view.scaleWithMap, view.fadeDays, view.speed)
  {
    var allSpecies, speciesCounts := ctx.SpeciesList(store, cache);
    if allSpecies == [] {
      if store.Some? {
        assert |store.value| == |multiset(store.value)| == |multiset(allSpecies)| == 0;
      }
      return NoData;
    }
    var selected := Get(ctx.request, "species");
    var pointSize, scaleWithMap := ctx.ParseMapControls();
    var fadeDays := ParseFadeDays(ctx.request);
    var speed := ParseSpeed(ctx.request);
    var totalRecords := 0;
    var pointCount := 0;
    var mapHtml := "";
    if Core.Truthy(selected) {
      var rows := groups(selected.value);
      var points;
      points, totalRecords := CollectPoints(rows);
      pointCount := |points|;
      mapHtml := template(points, pointSize, scaleWithMap, fadeDays, speed);
    }
    view := SpreadView(mapHtml, allSpecies, selected, speciesCounts, totalRecords, pointCount,
      pointSize, scaleWithMap, fadeDays, speed);
  }
}
