# Bird sightings map viewer: a Dafny model

This project models the core of a small web application that shows bird
sightings on a dark map. A tab-separated export of detections is loaded
into a column store by a seed script. A second script computes each
species' share of all records. A web app then draws one page per request:
- the monolithic index page: grid cells coloured by a golden-ratio hue walk,
  a weekly histogram, and a sidebar ordered by species count;
- four visualization modules: species, temporal, proportion and spread maps.

Each module is handed a `ModuleContext` that parses the shared display
controls, orders the species list and injects a dark background into the
rendered map.

The model is split into these modules:
- `Core` covers the context and the helpers the modules share.
- `App` covers the index page.
- `SpeciesMap`, `TemporalMap`, `ProportionMap` and `SpreadMap` each cover one visualization module.
- `SeedData` covers the ingestion generator.
- `CalculateProportions` covers the tally script.
- `Color`, `Histogram`, `Numerals`, `Dates`, `Strings` and `Wrappers` hold the library behaviour the source relies on:
  - colour channels, and `int()` truncation of a float;
  - bar heights;
  - Python's `int()`/`float()` on text and `str()` of an int;
  - ISO dates and the day of the year;
  - `sorted`, `join`, `split`, `rstrip` and `str.replace`;
  - `dict.get`.

The code's loops are modelled as methods with loop invariants:
- the colour walk;
- the cell, location and point assembly loops;
- the histogram loop;
- the seed generator's batching loop;
- the tally loop.

Each method is proved against a specification function. Properties of those functions are proved as lemmas.

These things are parameters of the model:
- the column store's query answers (`None` where the query raises);
- the counts cache and proportions files;
- `colorsys`;
- the pydeck renderer;
- the animation template;
- `datetime.fromisoformat`;
- float formatting.

Exceptions that end a run are a `raised` flag or a `None` result.

## Model

| member | source | states |
|---|---|---|
| Core.FormatTooltip | app/core.py:24-27 | the tooltip splits into exactly two lines: "<count> records" and the date range "<earliest> — <latest>" |
| Core.TooltipReadBack | app/core.py:24-27 | the count and both dates can be parsed back out of the tooltip unchanged |
| Core.TooltipSeparatorMisencoded | app/core.py:26 | the separator as written never contains an em dash, so the tooltip differs from the intended one |
| Core.IntParam | app/core.py:57-62 | `int(arg)` clamped to [lo,hi]: the default when the argument is absent or `int()` raises, the value itself inside the range, the nearer bound outside it |
| Core.RealParam | app/app.py:84-88 | the same clamping for `float(arg)` |
| Core.PointRadius | app/modules/species_map/module.py:51 | the radius is 500 when points scale with the map, else the point size |
| Core.InjectDarkBackground | app/core.py:108-109 | with no `<head>` the page is unchanged; otherwise the style is inserted right after the first `<head>` and nothing else changes |
| Core.InjectionRemovable | app/core.py:108-109 | the injected style sits right after the first `<head>`, and cutting it out gives back the rendered page |
| Core.SortByCountCorrect | app/core.py:51-53 | ordering by count gives a permutation, in descending count, that keeps the input order among species of equal count (a stable sort) |
| Core.SortByCountTiesAscending | app/core.py:51-53 | when the input is alphabetical, species of equal count stay alphabetical |
| Core.SortedKeys | app/core.py:47-48 | the fallback list is sorted and holds each cached species exactly once |
| Core.AllSpecies | app/core.py:42-48 | the store's distinct species when the query answers, otherwise the sorted cache keys |
| Core.ModuleContext.constructor | app/core.py:30-34 | the context keeps the request, the module name and the module registry |
| Core.ModuleContext.SpeciesList | app/core.py:40-54 | returns the cache unchanged and `Core.IsSpeciesList`: a permutation of the species sorted by descending count, stable within equal counts; ties are alphabetical when the list is |
| Core.ModuleContext.ParseMapControls | app/core.py:56-64 | the point size is `int()` clamped to [2,20] with default 6, and points scale exactly when `scale_with_map` is "on" |
| Core.ModuleContext.RenderMap | app/core.py:66-111 | the renderer's page with the dark style inserted after its first `<head>`, and everything before and after it kept |
| App.GenerateSpeciesColors | app/app.py:17-30 | the hue walk over the sorted species builds exactly the colour map `SpeciesColors` |
| App.HueAt | app/app.py:24-29 | every hue of the walk lies in [0,1) and the first is 0 |
| App.HueStep | app/app.py:29 | each step adds the golden-ratio conjugate, wrapping around at most once |
| App.SpeciesColorsKeys | app/app.py:23-30 | exactly the listed species get a colour, and every colour is a valid RGB triple |
| App.SpeciesColorsOrderIndependent | app/app.py:25 | the colours depend only on which species are listed, not on their order |
| App.SpeciesColorAtRank | app/app.py:24-29 | for distinct species, the k-th species in sorted order gets the colour of the k-th hue |
| App.TooltipLines | app/app.py:49-55 | the cell tooltip has three lines: the count/species header, the sorted species joined by ", ", and the date range |
| App.TooltipOrderIndependent | app/app.py:49-51 | the tooltip does not depend on the order in which the query lists the species |
| App.ParseOpacity | app/app.py:84-88 | opacity is `float()` clamped to [0,1]; 0.5 when absent or unparsable |
| App.ParseColorMode | app/app.py:91-93 | colouring is per species exactly when `color_mode` is "species" |
| App.ParsePointSize | app/app.py:96-100 | point size is `int()` clamped to [2,20]; 6 when absent or unparsable |
| App.Selection | app/app.py:79-81 | the requested species, or all species when none are requested |
| App.ChooseFilter | app/app.py:107-109 | the queries are filtered exactly when fewer species are selected than exist, with one placeholder per selected species |
| App.PlaceholdersShape | app/app.py:109 | the placeholder list is n markers "%s" separated by ", " and nothing else |
| App.CellColor | app/app.py:147-156 | orange in single mode; in species mode the species' colour for a one-species cell (orange if it has none) and white otherwise |
| App.CellPoint | app/app.py:140-165 | the point keeps the cell's position and has the point size as radius; its red, green and blue are the cell's colour for the colour mode, its alpha is the opacity-and-count alpha, the colour is valid when the palette is, and its tooltip is the shared count-and-date-range tooltip |
| App.AssembleCells | app/app.py:137-165 | one point per row in row order, and a total that is the sum of the row counts and at least the number of rows |
| App.HistogramBars | app/app.py:220-229 | one bar per week carrying the week, its label, its count and the height `100 * count / max_count` over the weeks' largest count |
| Histogram.HeightTimesMax | app/app.py:226 | a bar's height times the largest count is 100 times its count |
| App.HistogramNormalised | app/app.py:220-229 | bar heights lie in (0,100], the busiest week is exactly 100, and more records never give a lower bar |
| App.Index | app/app.py:58-250 | the species list is the store's answer, or when the query fails the sorted cache keys, each once; "no data" exactly when it is empty; otherwise the page's parameters, filter, cell points, totals and histogram are those stated by the functions above, and the sidebar lists the species by descending count, species of equal count in the store's order (a stable sort), alphabetical when the list is |
| Color.Trunc | app/app.py:28 | Python's `int()` of a float truncates toward zero |
| Color.Alpha | app/app.py:143-144 | alpha is in [0,255], is 255 once opacity × count reaches 1, and is otherwise the truncation of opacity × count × 255 |
| Color.AlphaMonotone | app/app.py:143-144 | cells with more records are never more transparent |
| Color.Frac | app/app.py:29 | Python's `x % 1.0` lies in [0,1) and differs from x by an integer |
| Histogram.MaxCount | app/app.py:220 | `max(..., default=1)`: 1 for no rows, otherwise a count that is at least every other count |
| Histogram.HeightsNormalised | app/app.py:226 | with positive counts every height is in (0,100], the maximum is 100, and heights keep the order of their counts |
| SpeciesMap.ParseOpacity | app/modules/species_map/module.py:21-25 | opacity is `float()` clamped to [0,1]; 0.5 when absent or unparsable |
| SpeciesMap.CellPoint | app/modules/species_map/module.py:48-60 | the fixed light-blue colour with alpha from opacity and count (opaque once opacity × count reaches 1), the cell's position, the shared tooltip and radius |
| SpeciesMap.AssembleCells | app/modules/species_map/module.py:47-60 | one point per row in row order, and a total that is the sum of the counts |
| SpeciesMap.Render | app/modules/species_map/module.py:7-77 | "no data" exactly when no species is known; no map and zero counts without a selected species; otherwise the rendered points of the species' cells and their totals; the sidebar is `species_list()`'s answer (`Core.IsSpeciesList`): a permutation of the known species, by descending count, species of equal count in the store's order |
| TemporalMap.DayHueRange | app/modules/temporal_map/module.py:17 | day 1 is hue 0, day 181 is hue 0.83, and the hue never decreases with the day |
| TemporalMap.DayOfYearToRgb | app/modules/temporal_map/module.py:9-19 | white after day 181, otherwise the rainbow colour of the day's hue |
| TemporalMap.CellPoint | app/modules/temporal_map/module.py:57-70 | colour from the cell's earliest day with alpha 200 (white from day 182 on: from 1 July, and on 30 June in a leap year), the cell's position, the shared tooltip and radius |
| TemporalMap.AssembleCells | app/modules/temporal_map/module.py:57-70 | one point per row in row order, and a total that is the sum of the counts |
| TemporalMap.WeekBar | app/modules/temporal_map/module.py:88-98 | a week's bar carries its dates, count, normalised height and the colour of its day of the year |
| TemporalMap.BuildHistogram | app/modules/temporal_map/module.py:86-99 | one bar per week in query order, heights against the busiest week |
| TemporalMap.HistogramNormalised | app/modules/temporal_map/module.py:86-99 | bar heights lie in (0,100], the busiest week is exactly 100, and heights keep the order of counts |
| TemporalMap.LateWeeksWhite | app/modules/temporal_map/module.py:89-97 | a week starting in July or later is drawn white |
| TemporalMap.Render | app/modules/temporal_map/module.py:22-116 | "no data" exactly when no species is known; without a selection no map and an empty histogram; otherwise the cells' points, totals and the weekly bars; the sidebar is `species_list()`'s answer (`Core.IsSpeciesList`): a permutation of the known species, by descending count, species of equal count in the store's order |
| ProportionMap.Expected | app/modules/proportion_map/module.py:52-55 | the expected share is at least 0.005, and is 0.005 for a species missing from the file |
| ProportionMap.RatioHue | app/modules/proportion_map/module.py:27-28 | hue 0.667 (blue) at ratio 0, 0 (red) at or above the cap, and in between otherwise |
| ProportionMap.RatioHueMonotone | app/modules/proportion_map/module.py:27-28 | a higher ratio never moves the hue back towards blue |
| ProportionMap.RatioClamped | app/modules/proportion_map/module.py:27 | every ratio at or above the cap of 5 gets the same colour |
| ProportionMap.RatioToRainbow | app/modules/proportion_map/module.py:21-30 | a valid RGB triple from the HSV conversion of the ratio's hue |
| ProportionMap.Proportion | app/modules/proportion_map/module.py:75 | the local share lies in (0,1] |
| ProportionMap.Ratio | app/modules/proportion_map/module.py:76 | the ratio is positive, at most 1 / expected, and times the expected share gives the local share |
| ProportionMap.LocationPoint | app/modules/proportion_map/module.py:77-90 | the location's point has alpha 200, the ratio's rainbow colour (capped), and the shared radius |
| ProportionMap.AssembleLocations | app/modules/proportion_map/module.py:72-91 | one point per location, and a total of the species' own records: at least one per location and at most all records there |
| ProportionMap.Render | app/modules/proportion_map/module.py:33-109 | "no data" exactly when no species is known; with a selection, the expected share, location points and totals above; the sidebar is `species_list()`'s answer (`Core.IsSpeciesList`): a permutation of the known species, by descending count, species of equal count in the store's order |
| SpreadMap.ParseFadeDays | app/modules/spread_map/module.py:23-27 | fade days are `int()` clamped to [1,60]; 14 when absent or unparsable |
| SpreadMap.ParseSpeed | app/modules/spread_map/module.py:29-33 | speed is `int()` clamped to [5,100]; 20 when absent or unparsable |
| SpreadMap.Points | app/modules/spread_map/module.py:57-62 | one `[lat, lon, day]` point per row, in row order |
| SpreadMap.PointsKeepDayOrder | app/modules/spread_map/module.py:52-62 | rows in day order give points in day order |
| SpreadMap.CollectPoints | app/modules/spread_map/module.py:57-62 | the points of the rows, and a total that is the sum of the counts |
| SpreadMap.Render | app/modules/spread_map/module.py:9-86 | "no data" exactly when no species is known; otherwise the controls, and with a selection the animation of the species' points; the sidebar is `species_list()`'s answer (`Core.IsSpeciesList`): a permutation of the known species, by descending count, species of equal count in the store's order |
| SeedData.ClassifyFilters | scripts/seed_data.py:61-98 | a line is skipped without a prediction of at least 0.8 or without all five required fields; otherwise it raises exactly when the timestamp does not parse, or the year is in range and a coordinate does not parse; a parsed timestamp out of the year range skips; a line is kept only with everything parsed and the year in range |
| SeedData.ScanTakesFirst | scripts/seed_data.py:57-99 | the cap keeps exactly the first `max_rows` accepted records, and a bad line after the cap is never read |
| SeedData.ScanCapped | scripts/seed_data.py:58-59 | never more than `max_rows` records |
| SeedData.EffectiveBatchSize | scripts/seed_data.py:101 | a batch size below 1 acts as 1 |
| SeedData.BatchesFlatten | scripts/seed_data.py:101-107 | the batches concatenate back to the records in order |
| SeedData.BatchesSized | scripts/seed_data.py:101-107 | every batch is non-empty and at most `batch_size`, and all but the last are full |
| SeedData.BatchesOfSplit | scripts/seed_data.py:101-107 | full batches already handed out plus the open batch are what the batching of their records gives |
| SeedData.HeaderIgnored | scripts/seed_data.py:56 | the header line never affects the output |
| SeedData.SeedBatchesPartition | scripts/seed_data.py:36-107 | without an exception the batches partition the first `max_rows` accepted records in order, each of at most `batch_size` |
| SeedData.Append | scripts/seed_data.py:90-103 | a record goes to the end of the open batch, which is handed out when full |
| SeedData.IterDataBatches | scripts/seed_data.py:36-107 | the generator's output is the batching of the capped scan, and only full batches when a line raises |
| SeedData.BatchLines | scripts/seed_data.py:56-107 | the line loop yields exactly `SeedOutcome` for any per-line rule |
| CalculateProportions.SeedRecordsAreCounted | scripts/calculate_proportions.py:38-60 | every record the seed script loads is counted under the same species, and a line the count raises on is never loaded |
| CalculateProportions.CountedButNotSeeded | scripts/calculate_proportions.py:50-54 | a line with no result id is counted but never loaded |
| CalculateProportions.ScanCapped | scripts/calculate_proportions.py:35-36 | never more than `max_rows` records are counted |
| CalculateProportions.TallyCounts | scripts/calculate_proportions.py:62 | the tally holds exactly the counted species, each with its number of occurrences |
| CalculateProportions.TallyTotal | scripts/calculate_proportions.py:62-63 | the tally's values add up to the number of records counted |
| CalculateProportions.CountLines | scripts/calculate_proportions.py:33-65 | the line loop gives the tally of the capped scan, or nothing when a line raises |
| CalculateProportions.CountSpecies | scripts/calculate_proportions.py:23-65 | `count_species` with the script's own line rule |
| CalculateProportions.CountedTotal | scripts/calculate_proportions.py:73 | a completed tally has positive counts summing to the records counted, never more than `max_rows` |
| CalculateProportions.Proportions | scripts/calculate_proportions.py:77-80 | one share per species, each in (0,1], equal to count / total and ordered as the counts are |
| CalculateProportions.ProportionsSumToOne | scripts/calculate_proportions.py:73-80 | the shares of a non-empty tally add up to one |
| Numerals.ParseIntRoundTrip | app/core.py:59 | `int(str(i)) == i` |
| Numerals.ParseRealOfIntString | app/app.py:85 | `float(str(i)) == i` |
| Dates.IsoRoundTrip | app/core.py:26 | a date formatted as `%Y-%m-%d` parses back to itself |
| Dates.DayOfYearIncreasing | app/modules/temporal_map/module.py:89-90 | a later date in the same year has a larger day of the year |
| Strings.SortCorrect | app/app.py:25 | `sorted` gives an ordered permutation |
| Strings.SortIgnoresOrder | app/app.py:51 | `sorted` of two permutations of each other is the same list |
| Strings.JoinSplit | scripts/seed_data.py:61 | joining the fields of a split with the separator gives back the line |
| Strings.SplitJoin | app/app.py:49-55 | splitting a join of separator-free parts gives back the parts |

## Left out

- HTTP handling, Flask routing, `render_template` and the HTML templates are left out. Pages are modelled as values that carry what would be handed to the template.
- SQL is left out: the queries' answers are parameters. Only the guarantees the queries give are assumed, as subset types on rows:
  - `COUNT(*)` is at least 1;
  - `HAVING species_count > 0`;
  - `countIf` never exceeds `COUNT(*)`;
  - `toDayOfYear` lies in 1..366.
  The `ORDER BY` clauses enter only as preconditions, as in `SpreadMap.PointsKeepDayOrder`.
- pydeck is left out. The rendered HTML is a function parameter (`Core.Deck`).
- `colorsys.hsv_to_rgb` and `colorsys.hls_to_rgb` are parameters that return fractions in [0,1], because their internals do not matter to the colour policy.
- Floating point is modelled by exact reals. Rounding is left out: `int(c * 255)` truncates the exact product.
- `str.format` of floats (`:.1%`, `:.1f`) is a parameter (`ProportionMap.FloatFormat`). JSON formatting of numbers is left out.
- Numerals.ParseReal: accepts an optional `+` or `-` followed by ASCII digits with at most one `.`. Python's `float()` also accepts exponents (`1e3`), `inf`, `infinity` and `nan`, underscores between digits and non-ASCII decimal digits; on such inputs the seeding and counting scripts skip or raise where Python parses, and for request parameters (`Core.RealParam`, `App.ParseOpacity`, `SpeciesMap.ParseOpacity`) the model returns the default where Python clamps the parsed value (`opacity=1e-1` gives 0.5 instead of 0.1; `nan` and `inf` give 0.5 instead of 1.0).
- Numerals.ParseInt: accepts an optional `+` or `-` followed by ASCII digits. Python's `int()` also accepts underscores between digits and non-ASCII decimal digits.
- Numerals.Trim: strips the six ASCII whitespace characters only, where Python's `str.strip()` also strips Unicode whitespace such as U+00A0 and U+2003.
- `datetime.fromisoformat` is a parameter (`SeedData.IsoParser`). Time zones play no part.
- File reading (`open`, `json.load`, the counts and proportions caches) is left out. The file contents are parameters. A missing file's fallback is the empty map given as the parameter.
- The `main` functions, progress `print`s, the client connection, table creation and inserts of the scripts are left out. `ModuleContext.db` and `get_client` are left out as well.
- The module registry and the plugin discovery that builds `ModuleContext` are left out. The registry is kept as an opaque list.
- The JSON field `count` of the index page's cell dicts is not modelled, because only the tooltip and colour use it.
- CalculateProportions.Proportions: does not round each share to 4 decimal places, because rounding of floats is outside the exact-real model. `ProportionsSumToOne` therefore holds for the unrounded shares only.
- CalculateProportions.Proportions: the key order of the written JSON, `sorted(counts.items())`, is not modelled, since a map has no order.
- SpeciesMap.CellPoint: the tooltip uses the corrected separator (`Core.FormatTooltip`, a spaced em dash). `app/core.py:26` as written emits the mis-encoded "â€”", which `Core.TooltipSeparatorMisencoded` exhibits (see Findings).
- TemporalMap.CellPoint: the tooltip uses the corrected separator (`Core.FormatTooltip`), not the mis-encoded "â€”" that `app/core.py:26` emits as written (see Findings).
- SeedData.IterDataBatches: an exception is modelled as a flag. The batches yielded before it are kept, and the exception's type is not.

## Findings

| source | as written | input that shows it | evidently intended | confidence | as-written member | corrected member |
|---|---|---|---|---|---|---|
| app/core.py:26 | the date-range separator is the three characters "â€”", the UTF-8 bytes of an em dash read as Windows-1252 | any count and dates: the tooltip contains no U+2014 | a spaced em dash " — " as in `app/app.py` | not executed | Core.TooltipSeparatorMisencoded | Core.FormatTooltip |
