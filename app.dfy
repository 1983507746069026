/**
 * The monolithic index page: per-species colours from a golden-ratio hue
 * walk, the request's display parameters, the species filter, the
 * grid-cell assembly loop, the weekly histogram and the sidebar ordering.
 */
module App {
  import opened Wrappers
  import Numerals
  import Strings
  import Dates
  import Color
  import Histogram
  import Core

  /** Golden ratio conjugate, the hue step between consecutive species. */
  const GoldenRatioConjugate: real := 0.618033988749895

  /** Lightness and saturation handed to `hls_to_rgb`. */
  const Lightness: real := 0.6
  const Saturation: real := 0.9

  const Orange: Color.Rgb := Color.Rgb(255, 140, 0)
  const White: Color.Rgb := Color.Rgb(255, 255, 255)

  // ---------------------------------------------------------------------------
  // Species colours

  /** `hue = (hue + golden_ratio_conjugate) % 1.0`. */
  function NextHue(hue: real): (h: real)
    ensures 0.0 <= h < 1.0
  {
    Color.Frac(hue + GoldenRatioConjugate)
  }

  /** The hue given to the species at position `i` of the sorted list. */
  function HueAt(i: nat): (h: real)
    ensures 0.0 <= h < 1.0
    ensures i == 0 ==> h == 0.0
  {
    if i == 0 then 0.0 else NextHue(HueAt(i - 1))
  }

  /** Each step adds the golden-ratio conjugate and wraps around at most once. */
  lemma HueStep(i: nat)
    ensures HueAt(i + 1) == HueAt(i) + GoldenRatioConjugate
         || HueAt(i + 1) == HueAt(i) + GoldenRatioConjugate - 1.0
    ensures HueAt(i) + GoldenRatioConjugate < 1.0 ==> HueAt(i + 1) == HueAt(i) + GoldenRatioConjugate
  {
    var x := HueAt(i) + GoldenRatioConjugate;
    var r := Color.Frac(x);
    var n := (x - r).Floor;
    assert n as real == x - r;
    assert -1 < n < 2;
    if x < 1.0 {
      assert n == 0;
    }
  }

  /** `tuple(int(c * 255) for c in hls_to_rgb(hue, 0.6, 0.9))`. */
  function HueColor(hls: Color.HlsToRgb, hue: real): (c: Color.Rgb)
    ensures c.InRange()
  {
    Color.ToRgb(hls(hue, Lightness, Saturation))
  }

  /** The colours assigned to `s` walked in order, a later entry overwriting an earlier one. */
  function AssignColors(s: seq<string>, hls: Color.HlsToRgb): (m: map<string, Color.Rgb>)
    ensures forall x :: x in m <==> x in s
    ensures forall x :: x in m ==> m[x].InRange()
  {
    if s == [] then map[]
    else AssignColors(s[..|s| - 1], hls)[s[|s| - 1] := HueColor(hls, HueAt(|s| - 1))]
  }

  /** The result of `generate_species_colors(species_list)`. */
  function SpeciesColors(speciesList: seq<string>, hls: Color.HlsToRgb): map<string, Color.Rgb>
  {
    AssignColors(Strings.Sort(speciesList), hls)
  }

  /** `generate_species_colors`: walks the sorted species, one hue step each. */
  method GenerateSpeciesColors(speciesList: seq<string>, hls: Color.HlsToRgb)
    returns (colors: map<string, Color.Rgb>)
    ensures colors == SpeciesColors(speciesList, hls)
  {
    var sorted := Strings.Sort(speciesList);
    colors := map[];
    var hue := 0.0;
    var i := 0;
    while i < |sorted|
      invariant 0 <= i <= |sorted|
      invariant colors == AssignColors(sorted[..i], hls)
      invariant hue == HueAt(i)
    {
      AssignColorsPrefix(sorted, hls, i);
      colors := colors[sorted[i] := HueColor(hls, hue)];
      hue := NextHue(hue);
      i := i + 1;
    }
    assert sorted[..i] == sorted;
  }

  lemma AssignColorsPrefix(s: seq<string>, hls: Color.HlsToRgb, i: nat)
    requires i < |s|
    ensures AssignColors(s[..i + 1], hls) == AssignColors(s[..i], hls)[s[i] := HueColor(hls, HueAt(i))]
  {
    assert s[..i + 1][..i] == s[..i];
  }

  /** Exactly the input species get a colour, and every colour is a valid RGB triple. */
  lemma SpeciesColorsKeys(speciesList: seq<string>, hls: Color.HlsToRgb)
    ensures forall s :: s in SpeciesColors(speciesList, hls) <==> s in speciesList
    ensures forall s :: s in SpeciesColors(speciesList, hls) ==> SpeciesColors(speciesList, hls)[s].InRange()
  {
    Strings.SortCorrect(speciesList);
    var sorted := Strings.Sort(speciesList);
    assert forall s :: s in sorted <==> s in multiset(speciesList);
  }

  /** The colours depend only on which species are listed, not on their order. */
  lemma SpeciesColorsOrderIndependent(a: seq<string>, b: seq<string>, hls: Color.HlsToRgb)
    requires multiset(a) == multiset(b)
    ensures SpeciesColors(a, hls) == SpeciesColors(b, hls)
  {
    Strings.SortIgnoresOrder(a, b);
  }

  lemma {:induction false} AssignColorsAt(s: seq<string>, hls: Color.HlsToRgb, k: nat)
    requires Strings.Distinct(s) && k < |s|
    ensures AssignColors(s, hls)[s[k]] == HueColor(hls, HueAt(k))
  {
    var last := |s| - 1;
    if k < last {
      var init := s[..last];
      assert Strings.Distinct(init) by {
        forall i, j | 0 <= i < j < |init| ensures init[i] != init[j] {
          assert init[i] == s[i] && init[j] == s[j];
        }
      }
      assert init[k] == s[k] && s[k] != s[last];
      AssignColorsAt(init, hls, k);
    }
  }

  /**
   * For distinct species (as the store's DISTINCT query returns them), the
   * species at position `k` of the sorted list has the colour of the `k`-th
   * hue of the walk.
   */
  lemma SpeciesColorAtRank(speciesList: seq<string>, hls: Color.HlsToRgb, k: nat)
    requires Strings.Distinct(speciesList) && k < |speciesList|
    ensures var sorted := Strings.Sort(speciesList);
      |sorted| == |speciesList| && SpeciesColors(speciesList, hls)[sorted[k]] == HueColor(hls, HueAt(k))
  {
    var sorted := Strings.Sort(speciesList);
    Strings.SortCorrect(speciesList);
    assert |sorted| == |multiset(sorted)| == |multiset(speciesList)| == |speciesList|;
    Strings.DistinctPermutation(speciesList, sorted);
    AssignColorsAt(sorted, hls, k);
  }

  // ---------------------------------------------------------------------------
  // Tooltip

  /**
   * `format_tooltip(count, species_list, earliest, latest)`: a count and
   * species header, the sorted species joined by ", ", and the date range.
   */
  function FormatTooltip(count: int, speciesList: seq<string>, earliest: Dates.Date, latest: Dates.Date): string
  {
    Header(count, |speciesList|) + "\n" + Strings.Join(Strings.Sort(speciesList), ", ") + "\n"
    + Core.DateRange(earliest, latest)
  }

  function Header(count: int, nSpecies: int): string
  {
    Numerals.IntToString(count) + " records | " + Numerals.IntToString(nSpecies) + " species"
  }

  lemma NumeralHasNoNewline(i: int)
    ensures '\n' !in Numerals.IntToString(i)
  {
    Core.IntStringIsNumeral(i);
    var s := Numerals.IntToString(i);
    assert forall k :: 0 <= k < |s| ==> s[k] != '\n';
  }

  lemma HeaderHasNoNewline(count: int, n: int)
    ensures '\n' !in Header(count, n)
  {
    NumeralHasNoNewline(count);
    NumeralHasNoNewline(n);
  }

  lemma DateRangeHasNoNewline(earliest: Dates.Date, latest: Dates.Date)
    ensures '\n' !in Core.DateRange(earliest, latest)
  {
    var e, l := Dates.FormatIso(earliest), Dates.FormatIso(latest);
    assert forall k :: 0 <= k < |e| ==> e[k] != '\n';
    assert forall k :: 0 <= k < |l| ==> l[k] != '\n';
  }

  lemma SpeciesLineHasNoNewline(speciesList: seq<string>)
    requires forall k :: 0 <= k < |speciesList| ==> '\n' !in speciesList[k]
    ensures '\n' !in Strings.Join(Strings.Sort(speciesList), ", ")
  {
    var sorted := Strings.Sort(speciesList);
    Strings.SortCorrect(speciesList);
    forall k | 0 <= k < |sorted| ensures '\n' !in sorted[k] {
      assert sorted[k] in multiset(speciesList);
    }
    Strings.JoinAvoids(sorted, ", ", '\n');
  }

  lemma JoinThree(a: string, b: string, c: string, sep: string)
    ensures Strings.Join([a, b, c], sep) == a + sep + b + sep + c
  {
    var parts := [a, b, c];
    assert parts[1..] == [b, c] && parts[1..][1..] == [c];
    assert Strings.Join([b, c], sep) == b + sep + Strings.Join([c], sep);
  }

  /**
   * The tooltip always has three lines: the header, the sorted species
   * list, and the date range (species names being free of line breaks).
   */
  lemma {:induction false} TooltipLines(count: int, speciesList: seq<string>, earliest: Dates.Date, latest: Dates.Date)
    requires forall k :: 0 <= k < |speciesList| ==> '\n' !in speciesList[k]
    ensures Strings.Split(FormatTooltip(count, speciesList, earliest, latest), '\n')
      == [Header(count, |speciesList|), Strings.Join(Strings.Sort(speciesList), ", "), Core.DateRange(earliest, latest)]
  {
    var header, names, dates := Header(count, |speciesList|), Strings.Join(Strings.Sort(speciesList), ", "), Core.DateRange(earliest, latest);
    HeaderHasNoNewline(count, |speciesList|);
    SpeciesLineHasNoNewline(speciesList);
    DateRangeHasNoNewline(earliest, latest);
    JoinThree(header, names, dates, "\n");
    Strings.SplitJoin([header, names, dates], '\n');
  }

  /** The tooltip does not depend on the order `groupUniqArray` lists the species in. */
  lemma TooltipOrderIndependent(count: int, a: seq<string>, b: seq<string>, earliest: Dates.Date, latest: Dates.Date)
    requires multiset(a) == multiset(b)
    ensures FormatTooltip(count, a, earliest, latest) == FormatTooltip(count, b, earliest, latest)
  {
    Strings.SortIgnoresOrder(a, b);
    assert |a| == |multiset(a)| == |multiset(b)| == |b|;
  }

  // ---------------------------------------------------------------------------
  // Request parameters

  datatype ColorMode = Single | BySpecies

  /** `color_mode`: "single" unless the argument is exactly "species". */
  function ParseColorMode(arg: Option<string>): (m: ColorMode)
    ensures m == BySpecies <==> arg == Some("species")
  {
    match arg
    case Some(s) => if s == "species" then BySpecies else Single
    case None => Single
  }

  /** `base_opacity`: a float clamped to [0,1], 0.5 when absent or unparsable. */
  function ParseOpacity(arg: Option<string>): (o: real)
    ensures 0.0 <= o <= 1.0
    ensures arg.None? ==> o == 0.5
    ensures arg.Some? && Numerals.ParseReal(arg.value).None? ==> o == 0.5
    ensures arg.Some? && Numerals.ParseReal(arg.value).Some? ==>
      var x := Numerals.ParseReal(arg.value).value;
      (0.0 <= x <= 1.0 ==> o == x) && (x < 0.0 ==> o == 0.0) && (x > 1.0 ==> o == 1.0)
  {
    Core.RealParam(arg, 0.5, 0.0, 1.0)
  }

  /** `point_size`: an int clamped to [2,20], 6 when absent or unparsable. */
  function ParsePointSize(arg: Option<string>): (p: int)
    ensures 2 <= p <= 20
    ensures arg.None? ==> p == 6
    ensures arg.Some? && Numerals.ParseInt(arg.value).None? ==> p == 6
    ensures arg.Some? && Numerals.ParseInt(arg.value).Some? ==>
      var n := Numerals.ParseInt(arg.value).value;
      (2 <= n <= 20 ==> p == n) && (n < 2 ==> p == 2) && (n > 20 ==> p == 20)
  {
    Core.IntParam(arg, 6, 2, 20)
  }

  /** The species the page shows: those requested, or all when none is. */
  function Selection(requested: seq<string>, all: seq<string>): (r: seq<string>)
    ensures requested == [] ==> r == all
    ensures requested != [] ==> r == requested
  {
    if requested == [] then all else requested
  }

  /** `", ".join(["%s"] * n)`. */
  function Placeholders(n: nat): string
  {
    Strings.Join(seq(n, _ => "%s"), ", ")
  }

  /** The placeholder list holds `n` markers "%s" separated by ", ", and nothing else. */
  lemma {:induction false} PlaceholdersShape(n: nat)
    ensures n == 0 ==> Placeholders(n) == ""
    ensures n >= 1 ==> |Placeholders(n)| == 4 * n - 2
    ensures forall k :: 0 <= k < n ==> Placeholders(n)[4 * k..4 * k + 2] == "%s"
    ensures forall k :: 0 <= k < n - 1 ==> Placeholders(n)[4 * k + 2..4 * k + 4] == ", "
  {
    if n >= 2 {
      PlaceholdersShape(n - 1);
      var rest := Placeholders(n - 1);
      PlaceholdersStep(n);
      var p := Placeholders(n);
      forall k | 0 <= k < n ensures p[4 * k..4 * k + 2] == "%s" {
        if k > 0 {
          var j := k - 1;
          assert rest[4 * j..4 * j + 2] == "%s";
          SliceAfter("%s, ", rest, 4 * k, 4 * k + 2);
        }
      }
      forall k | 0 <= k < n - 1 ensures p[4 * k + 2..4 * k + 4] == ", " {
        if k > 0 {
          var j := k - 1;
          assert rest[4 * j + 2..4 * j + 4] == ", ";
          SliceAfter("%s, ", rest, 4 * k + 2, 4 * k + 4);
        }
      }
    }
  }

  lemma PlaceholdersStep(n: nat)
    requires n >= 2
    ensures Placeholders(n) == "%s, " + Placeholders(n - 1)
  {
    var parts := seq(n, _ => "%s");
    assert parts[1..] == seq(n - 1, _ => "%s");
  }

  /** A slice lying wholly in the second part of a concatenation. */
  lemma SliceAfter(a: string, b: string, lo: int, hi: int)
    requires |a| <= lo <= hi <= |a| + |b|
    ensures (a + b)[lo..hi] == b[lo - |a|..hi - |a|]
  {
  }

  /** Which rows the two aggregation queries range over. */
  datatype SpeciesFilter = Unfiltered | Only(placeholders: string, species: seq<string>)

  /** Filter in the store only when fewer species are selected than exist. */
  function ChooseFilter(selected: seq<string>, all: seq<string>): (f: SpeciesFilter)
    ensures f.Only? <==> |selected| < |all|
    ensures f.Only? ==> f.species == selected && f.placeholders == Placeholders(|selected|)
  {
    if |selected| < |all| then Only(Placeholders(|selected|), selected) else Unfiltered
  }

  // ---------------------------------------------------------------------------
  // Grid cells

  datatype CellRowData = CellRow(
    latitude: real, longitude: real, count: int, species: seq<string>,
    earliest: Dates.DateTime, latest: Dates.DateTime)

  /** A row of the aggregation query: `COUNT(*)` of a group is at least 1. */
  type CellRow = r: CellRowData | r.count >= 1
    witness CellRow(0.0, 0.0, 1, [], Dates.DateTime(Dates.CalDate(2025, 1, 1), 0, 0, 0, 0),
      Dates.DateTime(Dates.CalDate(2025, 1, 1), 0, 0, 0, 0))

  function RowCount(r: CellRow): int { r.count }

  /** The fill colour of a cell before its alpha. */
  function CellColor(mode: ColorMode, species: seq<string>, colors: map<string, Color.Rgb>): (c: Color.Rgb)
    ensures mode == Single ==> c == Orange
    ensures mode == BySpecies && |species| == 1 ==> c == GetOr(colors, species[0], Orange)
    ensures mode == BySpecies && |species| != 1 ==> c == White
    ensures (forall s :: s in colors ==> colors[s].InRange()) ==> c.InRange()
  {
    match mode
    case BySpecies => if |species| == 1 then GetOr(colors, species[0], Orange) else White
    case Single => Orange
  }

  /** The point drawn for one aggregated cell. */
  function CellPoint(row: CellRow, opacity: real, mode: ColorMode, colors: map<string, Color.Rgb>, pointSize: int): (p: Core.MapPoint)
    requires 0.0 <= opacity <= 1.0
    ensures p.latitude == row.latitude && p.longitude == row.longitude && p.radius == pointSize
    ensures var c := CellColor(mode, row.species, colors);
      p.color.r == c.r && p.color.g == c.g && p.color.b == c.b
    ensures p.color.a == Color.Alpha(opacity, row.count)
    ensures (forall s :: s in colors ==> colors[s].InRange()) ==> p.color.InRange()
    ensures p.tooltip == FormatTooltip(row.count, row.species, row.earliest.date, row.latest.date)
  {
    Color.ScaledCountNonNegative(opacity, row.count);
    Core.MapPoint(row.latitude, row.longitude,
      Color.WithAlpha(CellColor(mode, row.species, colors), Color.Alpha(opacity, row.count)),
      FormatTooltip(row.count, row.species, row.earliest.date, row.latest.date),
      pointSize)
  }

  /** The points of all cells, in row order. */
  function CellPoints(rows: seq<CellRow>, opacity: real, mode: ColorMode, colors: map<string, Color.Rgb>, pointSize: int): (ps: seq<Core.MapPoint>)
    requires 0.0 <= opacity <= 1.0
    ensures |ps| == |rows|
    ensures forall i :: 0 <= i < |rows| ==> ps[i] == CellPoint(rows[i], opacity, mode, colors, pointSize)
  {
    seq(|rows|, i requires 0 <= i < |rows| => CellPoint(rows[i], opacity, mode, colors, pointSize))
  }

  lemma CellPointsPrefix(rows: seq<CellRow>, i: int, opacity: real, mode: ColorMode, colors: map<string, Color.Rgb>, pointSize: int)
    requires 0 <= i < |rows| && 0.0 <= opacity <= 1.0
    ensures CellPoints(rows[..i + 1], opacity, mode, colors, pointSize)
      == CellPoints(rows[..i], opacity, mode, colors, pointSize) + [CellPoint(rows[i], opacity, mode, colors, pointSize)]
  {
    var a := CellPoints(rows[..i + 1], opacity, mode, colors, pointSize);
    var b := CellPoints(rows[..i], opacity, mode, colors, pointSize) + [CellPoint(rows[i], opacity, mode, colors, pointSize)];
    forall k | 0 <= k <= i ensures a[k] == b[k] {
      if k < i {
        assert rows[..i + 1][k] == rows[..i][k];
      } else {
        assert rows[..i + 1][k] == rows[i];
      }
    }
    assert |a| == |b|;
  }

  /** The cell loop of `index`: one point per row, and the total of the rows' counts. */
  method AssembleCells(rows: seq<CellRow>, opacity: real, mode: ColorMode, colors: map<string, Color.Rgb>, pointSize: int)
    returns (data: seq<Core.MapPoint>, totalRecords: int)
    requires 0.0 <= opacity <= 1.0
    ensures data == CellPoints(rows, opacity, mode, colors, pointSize)
    ensures totalRecords == Core.SumOf(rows, RowCount)
    ensures totalRecords >= |rows|
  {
    data := [];
    totalRecords := 0;
    var i := 0;
    while i < |rows|
      invariant 0 <= i <= |rows|
      invariant data == CellPoints(rows[..i], opacity, mode, colors, pointSize)
      invariant totalRecords == Core.SumOf(rows[..i], RowCount)
      invariant totalRecords >= i
    {
      var row := rows[i];
      totalRecords := totalRecords + row.count;
      data := data + [CellPoint(row, opacity, mode, colors, pointSize)];
      CellPointsPrefix(rows, i, opacity, mode, colors, pointSize);
      Core.SumOfPrefix(rows, i, RowCount);
      i := i + 1;
    }
    assert rows[..i] == rows;
  }

  // ---------------------------------------------------------------------------
  // Weekly histogram

  datatype Bar = Bar(week: string, weekLabel: string, count: int, heightPct: real)

  /** `histogram_data`: one bar per week, its height relative to the busiest week. */
  function HistogramBars(rows: seq<Histogram.WeekRow>): (bars: seq<Bar>)
    ensures |bars| == |rows|
    ensures forall i :: 0 <= i < |rows| ==>
      bars[i].week == Dates.FormatIso(rows[i].week) && bars[i].weekLabel == Dates.FormatMonthDay(rows[i].week)
      && bars[i].count == rows[i].count
      && bars[i].heightPct == Histogram.HeightPct(rows[i].count, Histogram.MaxCount(Histogram.WeekCounts(rows)))
  {
    var maxCount := Histogram.MaxCount(Histogram.WeekCounts(rows));
    seq(|rows|, i requires 0 <= i < |rows| =>
      Bar(Dates.FormatIso(rows[i].week), Dates.FormatMonthDay(rows[i].week), rows[i].count,
        Histogram.HeightPct(rows[i].count, maxCount)))
  }

  /** Bar heights lie in (0,100] the busiest week's bar is 100, and taller bars have more records. */
  lemma HistogramNormalised(rows: seq<Histogram.WeekRow>)
    ensures var bars := HistogramBars(rows);
      && (forall i :: 0 <= i < |bars| ==> 0.0 < bars[i].heightPct <= 100.0)
      && (forall i :: 0 <= i < |bars| && bars[i].count == Histogram.MaxCount(Histogram.WeekCounts(rows)) ==> bars[i].heightPct == 100.0)
      && (forall i, j :: 0 <= i < |bars| && 0 <= j < |bars| && bars[i].count <= bars[j].count ==> bars[i].heightPct <= bars[j].heightPct)
  {
    Histogram.HeightsNormalised(Histogram.WeekCounts(rows));
  }

  // ---------------------------------------------------------------------------
  // The page

  datatype Page =
    | NoData
    | IndexPage(
        mapHtml: string, allSpecies: seq<string>, selected: seq<string>,
        resultCount: int, cellCount: int, speciesCounts: map<string, int>,
        histogram: seq<Bar>, opacity: real, colorMode: ColorMode, pointSize: int)

  /**
   * `index()`. `args` are the request's single-valued arguments and
   * `requested` its `species` list; `store` is the distinct-species query
   * (`None` when it raised), `cache` the counts cache, `cellQuery` and
   * `weekQuery` the two aggregation queries, `deck` the renderer. `all` is
   * the species list the page worked from.
   */
  method Index(
    args: map<string, string>, requested: seq<string>,
    store: Option<seq<string>>, cache: map<string, int>,
    cellQuery: SpeciesFilter -> seq<CellRow>, weekQuery: SpeciesFilter -> seq<Histogram.WeekRow>,
    hls: Color.HlsToRgb, deck: Core.Deck)
    returns (page: Page, all: seq<string>)
    ensures store.Some? ==> all == store.value
    ensures store.None? ==> Strings.Sorted(all) && |all| == |cache| && forall s :: s in all <==> s in cache
    ensures page.NoData? <==> all == []
    ensures page.IndexPage? ==>
      && page.opacity == ParseOpacity(Get(args, "opacity"))
      && page.colorMode == ParseColorMode(Get(args, "color_mode"))
      && page.pointSize == ParsePointSize(Get(args, "point_size"))
      && page.speciesCounts == cache
      && multiset(page.allSpecies) == multiset(all)
      && Core.ByCountDescending(page.allSpecies, cache)
      && (forall k :: Core.WithCount(page.allSpecies, cache, k) == Core.WithCount(all, cache, k))
      && (store.None? || Strings.Sorted(all) ==> Core.TiesAscending(page.allSpecies, cache))
      && page.selected == Selection(requested, all)
    ensures page.IndexPage? ==>
      var filter := ChooseFilter(page.selected, all);
      && page.cellCount == |cellQuery(filter)|
      && page.resultCount == Core.SumOf(cellQuery(filter), RowCount)
      && page.histogram == HistogramBars(weekQuery(filter))
      && page.mapHtml == Core.InjectDarkBackground(deck(
           CellPoints(cellQuery(filter), page.opacity, page.colorMode, SpeciesColors(all, hls), page.pointSize),
           false, page.pointSize))
  {
    var species := Core.AllSpecies(store, cache);
    all := species;
    if species == [] {
      page := NoData;
      return;
    }
    var selected := Selection(requested, species);
    var opacity := ParseOpacity(Get(args, "opacity"));
    var mode := ParseColorMode(Get(args, "color_mode"));
    var pointSize := ParsePointSize(Get(args, "point_size"));
    var colors := GenerateSpeciesColors(species, hls);
    var filter := ChooseFilter(selected, species);
    var rows := cellQuery(filter);
    var data, total := AssembleCells(rows, opacity, mode, colors, pointSize);
    var mapHtml := Core.InjectDarkBackground(deck(data, false, pointSize));
    var histogram := HistogramBars(weekQuery(filter));
    var sorted := Core.SortByCount(species, cache);
    Core.SortByCountCorrect(species, cache);
    if Strings.Sorted(species) {
      Core.SortByCountTiesAscending(species, cache);
    }
    page := IndexPage(mapHtml, sorted, selected, total, |data|, cache, histogram, opacity, mode, pointSize);
  }
}
