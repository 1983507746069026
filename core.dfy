/**
 * The plugin context shared by every visualization module: tooltip text,
 * parsing of the shared display parameters, the species list with its
 * display ordering, and the dark-background injection applied to rendered
 * maps.
 */
module Core {
  import opened Wrappers
  import Numerals
  import Strings
  import Dates
  import Color

  /** The page a module returns when no species is known at all. */
  const NoDataHtml: string :=
    "<h1>No data yet!</h1><p>Run the seed script to populate data:</p>"
    + "<pre>docker compose exec app python scripts/seed_data.py</pre>"

  const HeadTag: string := "<head>"

  const DarkBackgroundStyle: string := "<style>html, body { background: #121212 !important; }</style>"

  /** Real-world radius of a point when it scales with the map. */
  const ScaledRadius: int := 500

  /** The date-range separator as app/core.py spells it: an em dash whose UTF-8 bytes were read as Windows-1252. */
  const MisencodedDash: string := " \U{E2}\U{20AC}\U{201D} "

  /** The date-range separator intended, a spaced em dash. */
  const EmDash: string := " \U{2014} "

  /** One point handed to the map renderer. */
  datatype MapPoint = MapPoint(latitude: real, longitude: real, color: Color.Rgba, tooltip: string, radius: int)

  /** pydeck's `Deck(...).to_html()` for a point layer: the renderer, not modelled. */
  type Deck = (seq<MapPoint>, bool, int) -> string

  // ---------------------------------------------------------------------------
  // Tooltips

  predicate NumeralOrDate(s: string)
  {
    forall k :: 0 <= k < |s| ==> s[k] == '-' || Numerals.IsDigit(s[k])
  }

  lemma IntStringIsNumeral(i: int)
    ensures NumeralOrDate(Numerals.IntToString(i))
  {
    var s := Numerals.IntToString(i);
    if i < 0 {
      forall k | 1 <= k < |s| ensures Numerals.IsDigit(s[k]) {
        assert s[k] == s[1..][k - 1];
      }
    }
  }

  /** `f"{earliest:%Y-%m-%d} — {latest:%Y-%m-%d}"`. */
  function DateRange(earliest: Dates.Date, latest: Dates.Date): string
  {
    Dates.FormatIso(earliest) + EmDash + Dates.FormatIso(latest)
  }

  /** `format_tooltip` exactly as app/core.py writes it, with the mis-encoded dash. */
  function FormatTooltipAsWritten(count: int, earliest: Dates.Date, latest: Dates.Date): string
  {
    Numerals.IntToString(count) + " records\n"
    + Dates.FormatIso(earliest) + MisencodedDash + Dates.FormatIso(latest)
  }

  /** `format_tooltip(count, earliest, latest)` with the em dash intended. */
  function FormatTooltip(count: int, earliest: Dates.Date, latest: Dates.Date): (r: string)
    ensures Strings.Split(r, '\n') == [Numerals.IntToString(count) + " records", DateRange(earliest, latest)]
  {
    var first, second := Numerals.IntToString(count) + " records", DateRange(earliest, latest);
    IntStringIsNumeral(count);
    assert '\n' !in first by {
      assert forall k :: 0 <= k < |first| ==> first[k] != '\n';
    }
    assert '\n' !in second by {
      assert forall k :: 0 <= k < |second| ==> second[k] != '\n';
    }
    Strings.SplitJoin([first, second], '\n');
    first + "\n" + second
  }

  /** The tooltip can be read back: its first line gives the count, its second the two dates. */
  lemma {:induction false} TooltipReadBack(count: int, earliest: Dates.Date, latest: Dates.Date)
    ensures var lines := Strings.Split(FormatTooltip(count, earliest, latest), '\n');
      && |lines| == 2
      && |lines[0]| > 8 && Numerals.ParseInt(lines[0][..|lines[0]| - 8]) == Some(count)
      && |lines[1]| == 23
      && Dates.ParseIso(lines[1][..10]) == earliest
      && Dates.ParseIso(lines[1][13..]) == latest
  {
    var first := Numerals.IntToString(count) + " records";
    assert first[..|first| - 8] == Numerals.IntToString(count);
    Numerals.ParseIntRoundTrip(count);
    var second := DateRange(earliest, latest);
    assert second[..10] == Dates.FormatIso(earliest);
    assert second[13..] == Dates.FormatIso(latest);
    Dates.IsoRoundTrip(earliest);
    Dates.IsoRoundTrip(latest);
  }

  /** As written, the separator is never the em dash: the tooltip shows "â€”" where "—" was meant. */
  lemma {:induction false} TooltipSeparatorMisencoded(count: int, earliest: Dates.Date, latest: Dates.Date)
    ensures '\U{2014}' !in FormatTooltipAsWritten(count, earliest, latest)
    ensures '\U{2014}' in FormatTooltip(count, earliest, latest)
    ensures FormatTooltipAsWritten(count, earliest, latest) != FormatTooltip(count, earliest, latest)
  {
    var n, e, l := Numerals.IntToString(count), Dates.FormatIso(earliest), Dates.FormatIso(latest);
    IntStringIsNumeral(count);
    var written := FormatTooltipAsWritten(count, earliest, latest);
    assert written == n + " records\n" + e + MisencodedDash + l;
    assert forall k :: 0 <= k < |written| ==> written[k] != '\U{2014}' by {
      forall k | 0 <= k < |written| ensures written[k] != '\U{2014}' {
        var p := |n| + 9 + |e|;
        if k < |n| {
          assert written[k] == n[k];
        } else if k < |n| + 9 {
        } else if k < |n| + 9 + |e| {
          assert written[k] == e[k - |n| - 9];
        } else if k < p + |MisencodedDash| {
        } else {
          assert written[k] == l[k - p - |MisencodedDash|];
        }
      }
    }
    var fixed := FormatTooltip(count, earliest, latest);
    assert fixed[|n| + 9 + |e| + 1] == '\U{2014}';
  }

  // ---------------------------------------------------------------------------
  // Shared display parameters

  function MinInt(a: int, b: int): int { if a <= b then a else b }

  function MaxInt(a: int, b: int): int { if a >= b then a else b }

  /**
   * `int(args.get(name, default))` clamped with `max(lo, min(hi, _))`,
   * falling back to `default` when `int()` raises.
   */
  function IntParam(arg: Option<string>, default: int, lo: int, hi: int): (r: int)
    requires lo <= default <= hi
    ensures lo <= r <= hi
    ensures arg.None? ==> r == default
    ensures arg.Some? && Numerals.ParseInt(arg.value).None? ==> r == default
    ensures arg.Some? && Numerals.ParseInt(arg.value).Some? ==>
      var n := Numerals.ParseInt(arg.value).value;
      (lo <= n <= hi ==> r == n) && (n < lo ==> r == lo) && (n > hi ==> r == hi)
  {
    match arg
    case None => MaxInt(lo, MinInt(hi, default))
    case Some(s) =>
      match Numerals.ParseInt(s)
      case None => default
      case Some(n) => MaxInt(lo, MinInt(hi, n))
  }

  /**
   * `float(args.get(name, default))` clamped with `max(lo, min(hi, _))`,
   * falling back to `default` when `float()` raises.
   */
  function RealParam(arg: Option<string>, default: real, lo: real, hi: real): (r: real)
    requires lo <= default <= hi
    ensures lo <= r <= hi
    ensures arg.None? ==> r == default
    ensures arg.Some? && Numerals.ParseReal(arg.value).None? ==> r == default
    ensures arg.Some? && Numerals.ParseReal(arg.value).Some? ==>
      var x := Numerals.ParseReal(arg.value).value;
      (lo <= x <= hi ==> r == x) && (x < lo ==> r == lo) && (x > hi ==> r == hi)
  {
    match arg
    case None => Color.Max(lo, Color.Min(hi, default))
    case Some(s) =>
      match Numerals.ParseReal(s)
      case None => default
      case Some(x) => Color.Max(lo, Color.Min(hi, x))
  }

  /** Python truthiness of an optional request argument: present and non-empty. */
  predicate Truthy(arg: Option<string>)
  {
    arg.Some? && arg.value != ""
  }

  /** `500 if scale_with_map else point_size`. */
  function PointRadius(scaleWithMap: bool, pointSize: int): (r: int)
    ensures scaleWithMap ==> r == ScaledRadius
    ensures !scaleWithMap ==> r == pointSize
  {
    if scaleWithMap then ScaledRadius else pointSize
  }

  /** The sum of `f` over `s`, as the render loops accumulate `total_records`. */
  function SumOf<T>(s: seq<T>, f: T -> int): int
  {
    if s == [] then 0 else SumOf(s[..|s| - 1], f) + f(s[|s| - 1])
  }

  /** Extending a prefix by one element adds that element's value. */
  lemma SumOfPrefix<T>(s: seq<T>, i: int, f: T -> int)
    requires 0 <= i < |s|
    ensures SumOf(s[..i + 1], f) == SumOf(s[..i], f) + f(s[i])
  {
    assert s[..i + 1][..i] == s[..i];
  }

  // ---------------------------------------------------------------------------
  // Dark background

  /** `html.replace("<head>", "<head>" + style, 1)`. */
  function InjectDarkBackground(html: string): (r: string)
    ensures Strings.Find(html, HeadTag).None? ==> r == html
    ensures Strings.Find(html, HeadTag).Some? ==>
      var i := Strings.Find(html, HeadTag).value;
      r == html[..i + |HeadTag|] + DarkBackgroundStyle + html[i + |HeadTag|..]
  {
    Strings.ReplaceFirstExtends(html, HeadTag, DarkBackgroundStyle);
    Strings.ReplaceFirst(html, HeadTag, HeadTag + DarkBackgroundStyle)
  }

  /** Cutting the style back out of an injected page gives the page as rendered. */
  lemma InjectionRemovable(html: string)
    ensures var r := InjectDarkBackground(html);
      match Strings.Find(html, HeadTag)
      case None => r == html
      case Some(i) =>
        var at := i + |HeadTag|;
        r[..at] + r[at + |DarkBackgroundStyle|..] == html
        && r[at..at + |DarkBackgroundStyle|] == DarkBackgroundStyle
  {
    match Strings.Find(html, HeadTag)
    case None =>
    case Some(i) =>
      var at := i + |HeadTag|;
      Strings.CutInserted(html[..at], DarkBackgroundStyle, html[at..]);
      assert html[..at] + html[at..] == html;
  }

  // ---------------------------------------------------------------------------
  // Species ordering

  /** `species_counts.get(s, 0)`. */
  function CountOf(counts: map<string, int>, s: string): int
  {
    GetOr(counts, s, 0)
  }

  ghost predicate ByCountDescending(s: seq<string>, counts: map<string, int>)
  {
    forall i, j :: 0 <= i < j < |s| ==> CountOf(counts, s[i]) >= CountOf(counts, s[j])
  }

  /** Species of equal count appear in ascending name order. */
  ghost predicate TiesAscending(s: seq<string>, counts: map<string, int>)
  {
    forall i, j :: 0 <= i < j < |s| && CountOf(counts, s[i]) == CountOf(counts, s[j]) ==> Strings.Le(s[i], s[j])
  }

  /**
   * `sorted` is what `species_list()` makes of the store's answer `store`
   * (`None` when the query raised) and the counts cache `cache`: every
   * species once, most observed first, species of equal count in the order
   * the store listed them (alphabetical when it listed them so, and always
   * when the list fell back to the cache's keys).
   */
  ghost predicate IsSpeciesList(sorted: seq<string>, store: Option<seq<string>>, cache: map<string, int>)
  {
    && ByCountDescending(sorted, cache)
    && (store.Some? ==> multiset(sorted) == multiset(store.value))
    && (store.Some? ==> forall k :: WithCount(sorted, cache, k) == WithCount(store.value, cache, k))
    && (store.None? ==> |sorted| == |cache| && forall s :: s in sorted <==> s in cache)
    && (store.None? || Strings.Sorted(store.value) ==> TiesAscending(sorted, cache))
  }

  /** The species of `s` whose count is `k`, in their order in `s`. */
  function WithCount(s: seq<string>, counts: map<string, int>, k: int): seq<string>
  {
    if s == [] then []
    else (if CountOf(counts, s[0]) == k then [s[0]] else []) + WithCount(s[1..], counts, k)
  }

  /** Places `x` before the first species whose count is not above its own. */
  function InsertByCount(x: string, t: seq<string>, counts: map<string, int>): seq<string>
  {
    if t == [] then [x]
    else if CountOf(counts, x) >= CountOf(counts, t[0]) then [x] + t
    else [t[0]] + InsertByCount(x, t[1..], counts)
  }

  /** `sorted(species, key=lambda s: counts.get(s, 0), reverse=True)`. */
  function SortByCount(species: seq<string>, counts: map<string, int>): seq<string>
  {
    if species == [] then [] else InsertByCount(species[0], SortByCount(species[1..], counts), counts)
  }

  lemma {:induction false} InsertByCountMultiset(x: string, t: seq<string>, counts: map<string, int>)
    ensures multiset(InsertByCount(x, t, counts)) == multiset(t) + multiset{x}
  {
    if t != [] {
      assert t == [t[0]] + t[1..];
      if CountOf(counts, x) < CountOf(counts, t[0]) {
        InsertByCountMultiset(x, t[1..], counts);
      }
    }
  }

  lemma {:induction false} InsertByCountGroups(x: string, t: seq<string>, counts: map<string, int>, k: int)
    ensures WithCount(InsertByCount(x, t, counts), counts, k)
      == (if CountOf(counts, x) == k then [x] else []) + WithCount(t, counts, k)
  {
    var r := InsertByCount(x, t, counts);
    if t == [] {
      assert [x][1..] == [];
    } else if CountOf(counts, x) >= CountOf(counts, t[0]) {
      assert r[1..] == t;
    } else {
      InsertByCountGroups(x, t[1..], counts, k);
      assert r[1..] == InsertByCount(x, t[1..], counts);
    }
  }

  lemma ByCountDescendingTail(t: seq<string>, counts: map<string, int>)
    requires t != [] && ByCountDescending(t, counts)
    ensures ByCountDescending(t[1..], counts)
    ensures forall y :: y in t[1..] ==> CountOf(counts, t[0]) >= CountOf(counts, y)
  {
    forall i, j | 0 <= i < j < |t[1..]| ensures CountOf(counts, t[1..][i]) >= CountOf(counts, t[1..][j]) {
      assert t[1..][i] == t[i + 1] && t[1..][j] == t[j + 1];
    }
    forall y | y in t[1..] ensures CountOf(counts, t[0]) >= CountOf(counts, y) {
      var m :| 0 <= m < |t[1..]| && t[1..][m] == y;
      assert t[m + 1] == y;
    }
  }

  lemma DescendingCons(h: string, t: seq<string>, counts: map<string, int>)
    requires ByCountDescending(t, counts)
    requires forall y :: y in t ==> CountOf(counts, h) >= CountOf(counts, y)
    ensures ByCountDescending([h] + t, counts)
  {
    var r := [h] + t;
    forall i, j | 0 <= i < j < |r| ensures CountOf(counts, r[i]) >= CountOf(counts, r[j]) {
      assert r[j] == t[j - 1];
      if i > 0 {
        assert r[i] == t[i - 1];
      }
    }
  }

  lemma {:induction false} InsertByCountOrdered(x: string, t: seq<string>, counts: map<string, int>)
    requires ByCountDescending(t, counts)
    ensures ByCountDescending(InsertByCount(x, t, counts), counts)
  {
    if t == [] {
    } else if CountOf(counts, x) >= CountOf(counts, t[0]) {
      ByCountDescendingTail(t, counts);
      assert t == [t[0]] + t[1..];
      DescendingCons(x, t, counts);
    } else {
      var rest := InsertByCount(x, t[1..], counts);
      ByCountDescendingTail(t, counts);
      InsertByCountOrdered(x, t[1..], counts);
      InsertByCountMultiset(x, t[1..], counts);
      forall y | y in rest ensures CountOf(counts, t[0]) >= CountOf(counts, y) {
        assert y in multiset(rest);
        assert y == x || y in multiset(t[1..]);
      }
      DescendingCons(t[0], rest, counts);
    }
  }

  /** The count ordering returns the same species, by descending count, keeping input order among ties. */
  lemma {:induction false} SortByCountCorrect(species: seq<string>, counts: map<string, int>)
    ensures ByCountDescending(SortByCount(species, counts), counts)
    ensures multiset(SortByCount(species, counts)) == multiset(species)
    ensures forall k :: WithCount(SortByCount(species, counts), counts, k) == WithCount(species, counts, k)
  {
    if species != [] {
      var t := SortByCount(species[1..], counts);
      SortByCountCorrect(species[1..], counts);
      InsertByCountOrdered(species[0], t, counts);
      InsertByCountMultiset(species[0], t, counts);
      forall k ensures WithCount(SortByCount(species, counts), counts, k) == WithCount(species, counts, k) {
        InsertByCountGroups(species[0], t, counts, k);
      }
      assert species == [species[0]] + species[1..];
    }
  }

  lemma TiesCons(h: string, t: seq<string>, counts: map<string, int>)
    requires TiesAscending(t, counts)
    requires forall y :: y in t && CountOf(counts, h) == CountOf(counts, y) ==> Strings.Le(h, y)
    ensures TiesAscending([h] + t, counts)
  {
    var r := [h] + t;
    forall i, j | 0 <= i < j < |r| && CountOf(counts, r[i]) == CountOf(counts, r[j])
      ensures Strings.Le(r[i], r[j])
    {
      assert r[j] == t[j - 1];
      if i > 0 {
        assert r[i] == t[i - 1];
      }
    }
  }

  lemma TiesTail(t: seq<string>, counts: map<string, int>)
    requires t != [] && TiesAscending(t, counts)
    ensures TiesAscending(t[1..], counts)
    ensures forall y :: y in t[1..] && CountOf(counts, t[0]) == CountOf(counts, y) ==> Strings.Le(t[0], y)
  {
    forall i, j | 0 <= i < j < |t[1..]| ensures t[1..][i] == t[i + 1] && t[1..][j] == t[j + 1] {
    }
    forall y | y in t[1..] && CountOf(counts, t[0]) == CountOf(counts, y) ensures Strings.Le(t[0], y) {
      var m :| 0 <= m < |t[1..]| && t[1..][m] == y;
      assert t[m + 1] == y;
    }
  }

  lemma {:induction false} InsertByCountTies(x: string, t: seq<string>, counts: map<string, int>)
    requires ByCountDescending(t, counts) && TiesAscending(t, counts)
    requires forall y :: y in t ==> Strings.Le(x, y)
    ensures TiesAscending(InsertByCount(x, t, counts), counts)
  {
    if t == [] {
    } else if CountOf(counts, x) >= CountOf(counts, t[0]) {
      assert t == [t[0]] + t[1..];
      TiesCons(x, t, counts);
    } else {
      var rest := InsertByCount(x, t[1..], counts);
      ByCountDescendingTail(t, counts);
      TiesTail(t, counts);
      InsertByCountTies(x, t[1..], counts);
      InsertByCountMultiset(x, t[1..], counts);
      forall y | y in rest && CountOf(counts, t[0]) == CountOf(counts, y) ensures Strings.Le(t[0], y) {
        assert y in multiset(rest);
        assert y in multiset(t[1..]);
      }
      TiesCons(t[0], rest, counts);
    }
  }

  /** Ordering an alphabetical list by count leaves species of equal count alphabetical. */
  lemma {:induction false} SortByCountTiesAscending(species: seq<string>, counts: map<string, int>)
    requires Strings.Sorted(species)
    ensures TiesAscending(SortByCount(species, counts), counts)
  {
    if species != [] {
      var tail := species[1..];
      assert Strings.Sorted(tail) by {
        forall i, j | 0 <= i < j < |tail| ensures Strings.Le(tail[i], tail[j]) {
          assert tail[i] == species[i + 1] && tail[j] == species[j + 1];
        }
      }
      SortByCountTiesAscending(tail, counts);
      SortByCountCorrect(tail, counts);
      var t := SortByCount(tail, counts);
      forall y | y in t ensures Strings.Le(species[0], y) {
        assert y in multiset(tail);
        var m :| 0 <= m < |tail| && tail[m] == y;
        assert species[m + 1] == y;
      }
      InsertByCountTies(species[0], t, counts);
    }
  }

  /**
   * `sorted(cache.keys())`: the fallback species list when the store cannot
   * be queried.
   */
  method SortedKeys(cache: map<string, int>) returns (keys: seq<string>)
    ensures Strings.Sorted(keys)
    ensures |keys| == |cache|
    ensures forall s :: s in keys <==> s in cache
  {
    var rest := cache.Keys;
    var acc: seq<string> := [];
    while rest != {}
      invariant |acc| + |rest| == |cache.Keys|
      invariant forall s :: s in cache <==> s in acc || s in rest
      invariant forall s :: s in acc ==> s !in rest
      decreases |rest|
    {
      var x :| x in rest;
      acc := acc + [x];
      rest := rest - {x};
    }
    keys := Strings.Sort(acc);
    Strings.SortCorrect(acc);
    assert |multiset(keys)| == |multiset(acc)|;
    assert forall s :: s in keys <==> s in multiset(acc);
  }

  /**
   * The species known to the page: the store's distinct species when it
   * answers, otherwise the sorted keys of the counts cache.
   */
  method AllSpecies(store: Option<seq<string>>, cache: map<string, int>) returns (all: seq<string>)
    ensures store.Some? ==> all == store.value
    ensures store.None? ==> Strings.Sorted(all) && |all| == |cache| && forall s :: s in all <==> s in cache
  {
    match store
    case Some(rows) => all := rows;
    case None => all := SortedKeys(cache);
  }

  // ---------------------------------------------------------------------------
  // The context handed to each module's render

  /**
   * `ModuleContext`: built per request from the request arguments, the
   * module's name and the registry of loaded modules.
   */
  class ModuleContext {
    const request: map<string, string>
    const moduleName: string
    const modules: seq<string>

    constructor (moduleName: string, request: map<string, string>, modules: seq<string>)
      ensures this.request == request && this.moduleName == moduleName && this.modules == modules
    {
      this.request := request;
      this.moduleName := moduleName;
      this.modules := modules;
    }

    /**
     * `species_list()`: every species known, most observed first, and the
     * counts cache the ordering used. `store` is the store's answer to the
     * distinct-species query (`None` when it raised); `cache` is the counts
     * cache file's content.
     */
    method SpeciesList(store: Option<seq<string>>, cache: map<string, int>)
      returns (allSpeciesSorted: seq<string>, speciesCounts: map<string, int>)
      ensures speciesCounts == cache
      ensures IsSpeciesList(allSpeciesSorted, store, cache)
    {
      var all := AllSpecies(store, cache);
      speciesCounts := cache;
      allSpeciesSorted := SortByCount(all, speciesCounts);
      SortByCountCorrect(all, speciesCounts);
      if Strings.Sorted(all) {
        SortByCountTiesAscending(all, speciesCounts);
      }
      if store.None? {
        assert forall s :: s in allSpeciesSorted <==> s in multiset(all);
        assert |multiset(allSpeciesSorted)| == |multiset(all)|;
      }
    }

    /** `parse_map_controls()`: the point size in pixels and whether points scale with the map. */
    method ParseMapControls() returns (pointSize: int, scaleWithMap: bool)
      ensures 2 <= pointSize <= 20
      ensures pointSize == IntParam(Get(request, "point_size"), 6, 2, 20)
      ensures scaleWithMap <==> "scale_with_map" in request && request["scale_with_map"] == "on"
    {
      var parsed := match Get(request, "point_size")
        case None => Some(6)
        case Some(s) => Numerals.ParseInt(s);
      if parsed.Some? {
        pointSize := parsed.value;
        pointSize := MaxInt(2, MinInt(20, pointSize));
      } else {
        pointSize := 6;
      }
      scaleWithMap := Get(request, "scale_with_map") == Some("on");
    }

    /**
     * `render_map(data, scale_with_map, point_size)`: the renderer's page
     * with the dark style placed right after its first `<head>`.
     */
    function RenderMap(data: seq<MapPoint>, scaleWithMap: bool, pointSize: int, deck: Deck): (r: string)
      ensures var html := deck(data, scaleWithMap, pointSize);
        match Strings.Find(html, HeadTag)
        case None => r == html
        case Some(i) =>
          |r| == |html| + |DarkBackgroundStyle|
          && r[..i + |HeadTag|] == html[..i + |HeadTag|]
          && Strings.OccursAt(r, DarkBackgroundStyle, i + |HeadTag|)
          && r[i + |HeadTag| + |DarkBackgroundStyle|..] == html[i + |HeadTag|..]
    {
      InjectionRemovable(deck(data, scaleWithMap, pointSize));
      InjectDarkBackground(deck(data, scaleWithMap, pointSize))
    }
  }
}
