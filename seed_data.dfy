/**
 * The ingestion stream of the seed script: lines of the tab-separated
 * export are filtered (prediction threshold, required fields, year range),
 * capped at a maximum number of records and handed out in batches.
 */
module SeedData {
  import opened Wrappers
  import Numerals
  import Strings
  import Dates

  const MaxRows: int := 10000000
  const StartYear: int := 2025
  const EndYear: int := 2025
  const PredictionThreshold: real := 0.8
  const BatchSize: int := 100000

  /** Column positions in the export. */
  const ColSpecies: nat := 0
  const ColPrediction: nat := 1
  const ColResultId: nat := 5
  const ColTime: nat := 10
  const ColLat: nat := 17
  const ColLon: nat := 18

  /** `(id, species, time, lat, lon, day_of_year, year)`. */
  datatype Record = Record(
    resultId: string, species: string, time: Dates.DateTime,
    latitude: real, longitude: real, dayOfYear: int, year: int)

  /** `datetime.fromisoformat`, `None` where it raises. */
  type IsoParser = string -> Option<Dates.DateTime>

  /** What one data line does to the stream. */
  datatype LineOutcome = Skip | Accept(rec: Record) | Raise

  /** `fields[i] if len(fields) > i else ""`. */
  function Field(fields: seq<string>, i: nat): (f: string)
    ensures i < |fields| ==> f == fields[i]
    ensures i >= |fields| ==> f == ""
  {
    if |fields| > i then fields[i] else ""
  }

  /** `line.rstrip("\n").split("\t")`. */
  function Fields(line: string): seq<string>
  {
    Strings.Split(Strings.RStrip(line, '\n'), '\t')
  }

  /** All five required fields are non-empty. */
  predicate HasRequiredFields(fields: seq<string>)
  {
    Field(fields, ColSpecies) != "" && Field(fields, ColResultId) != "" && Field(fields, ColTime) != ""
    && Field(fields, ColLat) != "" && Field(fields, ColLon) != ""
  }

  /** The prediction column parses and reaches the threshold. */
  predicate ConfidentPrediction(fields: seq<string>)
  {
    |fields| > ColPrediction
    && Numerals.ParseReal(fields[ColPrediction]).Some?
    && Numerals.ParseReal(fields[ColPrediction]).value >= PredictionThreshold
  }

  predicate InYearRange(year: int)
  {
    StartYear <= year <= EndYear
  }

  /**
   * The body of the line loop: skip on a short line, an unparsable or low
   * prediction, a missing field or a year out of range; raise where the
   * timestamp or a coordinate does not parse.
   */
  function Classify(line: string, iso: IsoParser): LineOutcome
  {
    var fields := Fields(line);
    if |fields| <= ColPrediction then Skip
    else match Numerals.ParseReal(fields[ColPrediction])
      case None => Skip
      case Some(prediction) =>
        if prediction < PredictionThreshold then Skip
        else
          var species, resultId, timeStr := Field(fields, ColSpecies), Field(fields, ColResultId), Field(fields, ColTime);
          var lat, lon := Field(fields, ColLat), Field(fields, ColLon);
          if species == "" || resultId == "" || timeStr == "" || lat == "" || lon == "" then Skip
          else match iso(timeStr)
            case None => Raise
            case Some(ts) =>
              if ts.date.year < StartYear || ts.date.year > EndYear then Skip
              else match (Numerals.ParseReal(lat), Numerals.ParseReal(lon))
                case (Some(latitude), Some(longitude)) =>
                  Accept(Record(resultId, species, ts, latitude, longitude, Dates.DayOfYear(ts.date), ts.date.year))
                case _ => Raise
  }

  /** The filter rules of the line loop, as the script states them. */
  lemma ClassifyFilters(line: string, iso: IsoParser)
    ensures var fields, r := Fields(line), Classify(line, iso);
      && (!ConfidentPrediction(fields) ==> r == Skip)
      && (!HasRequiredFields(fields) ==> r == Skip)
      && (r.Raise? <==>
            && ConfidentPrediction(fields) && HasRequiredFields(fields)
            && (|| iso(fields[ColTime]).None?
                || (&& InYearRange(iso(fields[ColTime]).value.date.year)
                    && (Numerals.ParseReal(fields[ColLat]).None? || Numerals.ParseReal(fields[ColLon]).None?))))
      && ((&& ConfidentPrediction(fields) && HasRequiredFields(fields) && iso(fields[ColTime]).Some?
           && !InYearRange(iso(fields[ColTime]).value.date.year))
          ==> r == Skip)
    ensures var fields, r := Fields(line), Classify(line, iso);
      r.Accept? ==>
      && ConfidentPrediction(fields) && HasRequiredFields(fields)
      && iso(fields[ColTime]) == Some(r.rec.time)
      && InYearRange(r.rec.year) && r.rec.year == r.rec.time.date.year
      && r.rec.species == fields[ColSpecies] && r.rec.resultId == fields[ColResultId]
      && Numerals.ParseReal(fields[ColLat]) == Some(r.rec.latitude)
      && Numerals.ParseReal(fields[ColLon]) == Some(r.rec.longitude)
      && r.rec.dayOfYear == Dates.DayOfYear(r.rec.time.date)
    ensures var fields := Fields(line);
      ConfidentPrediction(fields) && HasRequiredFields(fields) && iso(fields[ColTime]).Some?
      && InYearRange(iso(fields[ColTime]).value.date.year)
      && Numerals.ParseReal(fields[ColLat]).Some? && Numerals.ParseReal(fields[ColLon]).Some?
      ==> Classify(line, iso).Accept?
  {
  }

  /** A per-line rule; the script's own is `ScriptRule`. */
  type LineRule = string -> LineOutcome

  function ScriptRule(iso: IsoParser): LineRule
  {
    line => Classify(line, iso)
  }

  /** What each line of `lines` does under `rule`, in order. */
  function Outcomes(lines: seq<string>, rule: LineRule): (os: seq<LineOutcome>)
    ensures |os| == |lines|
    ensures forall i :: 0 <= i < |lines| ==> os[i] == rule(lines[i])
  {
    seq(|lines|, i requires 0 <= i < |lines| => rule(lines[i]))
  }

  /**
   * What the capped line loop of `iter_data_batches` produced. The counting
   * loop of `calculate_proportions.py` has the same shape over its own
   * outcomes (`CalculateProportions.Scan`); each script keeps its own copy.
   */
  datatype Scanned = Scanned(records: seq<Record>, raised: bool)

  /**
   * The records the line loop accepts from the line outcomes `os` while
   * `budget` more are allowed, stopping at a line that raises.
   */
  function Scan(os: seq<LineOutcome>, budget: int): Scanned
  {
    if os == [] || budget <= 0 then Scanned([], false)
    else match os[0]
      case Skip => Scan(os[1..], budget)
      case Raise => Scanned([], true)
      case Accept(r) =>
        var rest := Scan(os[1..], budget - 1);
        Scanned([r] + rest.records, rest.raised)
  }

  /** Every record the filter accepts, with no cap, stopping at a line that raises. */
  function AcceptedAll(os: seq<LineOutcome>): Scanned
  {
    if os == [] then Scanned([], false)
    else match os[0]
      case Skip => AcceptedAll(os[1..])
      case Raise => Scanned([], true)
      case Accept(r) =>
        var rest := AcceptedAll(os[1..]);
        Scanned([r] + rest.records, rest.raised)
  }

  /**
   * The cap keeps exactly the first `maxRows` accepted records, and a line
   * that would raise after the cap is reached is never read.
   */
  lemma {:induction false} ScanTakesFirst(os: seq<LineOutcome>, maxRows: int)
    requires maxRows >= 0
    ensures var all := AcceptedAll(os).records;
      Scan(os, maxRows).records == all[..if |all| < maxRows then |all| else maxRows]
    ensures Scan(os, maxRows).raised ==> AcceptedAll(os).raised
    ensures |AcceptedAll(os).records| < maxRows ==> Scan(os, maxRows) == AcceptedAll(os)
  {
    if os != [] && maxRows > 0 {
      match os[0]
      case Skip => ScanTakesFirst(os[1..], maxRows);
      case Raise =>
      case Accept(r) => ScanTakesFirst(os[1..], maxRows - 1);
    }
  }

  /** At most `budget` records are ever produced. */
  lemma {:induction false} ScanCapped(os: seq<LineOutcome>, budget: int)
    ensures |Scan(os, budget).records| <= (if budget < 0 then 0 else budget)
  {
    if os != [] && budget > 0 {
      match os[0]
      case Skip => ScanCapped(os[1..], budget);
      case Raise =>
      case Accept(r) => ScanCapped(os[1..], budget - 1);
    }
  }

  // ---------------------------------------------------------------------------
  // Batching

  function Flatten(batches: seq<seq<Record>>): seq<Record>
  {
    if batches == [] then [] else batches[0] + Flatten(batches[1..])
  }

  /** The batches handed out for `rs`: full batches of `k`, then the remainder if any. */
  function Batches(rs: seq<Record>, k: int): seq<seq<Record>>
    requires k >= 1
    decreases |rs|
  {
    if rs == [] then []
    else if |rs| <= k then [rs]
    else [rs[..k]] + Batches(rs[k..], k)
  }

  /** Only the full batches of `rs`: what has been handed out when a later line raises. */
  function FullBatches(rs: seq<Record>, k: int): seq<seq<Record>>
    requires k >= 1
    decreases |rs|
  {
    if |rs| < k then [] else [rs[..k]] + FullBatches(rs[k..], k)
  }

  /** The batch size the loop effectively uses: `len(batch) >= batch_size` holds after every append when `batch_size < 1`. */
  function EffectiveBatchSize(batchSize: int): (k: int)
    ensures k >= 1
    ensures batchSize >= 1 ==> k == batchSize
  {
    if batchSize < 1 then 1 else batchSize
  }

  /** Concatenating the batches gives back the records in order. */
  lemma {:induction false} BatchesFlatten(rs: seq<Record>, k: int)
    requires k >= 1
    ensures Flatten(Batches(rs, k)) == rs
    decreases |rs|
  {
    var bs := Batches(rs, k);
    if |rs| > k {
      var tail := Batches(rs[k..], k);
      assert bs == [rs[..k]] + tail;
      assert bs[1..] == tail;
      BatchesFlatten(rs[k..], k);
      calc {
        Flatten(bs);
        bs[0] + Flatten(bs[1..]);
        rs[..k] + rs[k..];
        rs;
      }
    } else if rs != [] {
      assert bs == [rs];
      assert Flatten(bs) == rs + Flatten([]);
    }
  }

  /** Every batch is non-empty and at most `k` long, and all but the last are exactly `k`. */
  lemma {:induction false} BatchesSized(rs: seq<Record>, k: int)
    requires k >= 1
    ensures var bs := Batches(rs, k);
      && (forall i :: 0 <= i < |bs| ==> 1 <= |bs[i]| <= k)
      && (forall i :: 0 <= i < |bs| - 1 ==> |bs[i]| == k)
    decreases |rs|
  {
    if |rs| > k {
      BatchesSized(rs[k..], k);
      var bs := Batches(rs, k);
      assert forall i :: 1 <= i < |bs| ==> bs[i] == Batches(rs[k..], k)[i - 1];
    }
  }

  /** Batches already handed out, `done`, plus the open batch `open` account for `rs`. */
  lemma {:induction false} BatchesOfSplit(done: seq<seq<Record>>, open: seq<Record>, k: int)
    requires k >= 1 && |open| < k
    requires forall i :: 0 <= i < |done| ==> |done[i]| == k
    ensures FullBatches(Flatten(done) + open, k) == done
    ensures Batches(Flatten(done) + open, k) == done + (if open == [] then [] else [open])
  {
    var rs := Flatten(done) + open;
    var last := if open == [] then [] else [open];
    if done == [] {
      assert rs == open;
    } else {
      var rest := done[1..];
      forall i | 0 <= i < |rest| ensures |rest[i]| == k { assert rest[i] == done[i + 1]; }
      BatchesOfSplit(rest, open, k);
      var tail := Flatten(rest) + open;
      assert rs == done[0] + tail;
      assert rs[..k] == done[0] && rs[k..] == tail;
      assert done == [done[0]] + rest;
      assert FullBatches(rs, k) == [done[0]] + FullBatches(tail, k);
      if tail == [] {
        assert rest == [];
        assert Batches(rs, k) == [rs];
      } else {
        assert Batches(rs, k) == [done[0]] + Batches(tail, k);
      }
    }
  }

  // ---------------------------------------------------------------------------
  // The generator

  /** What `iter_data_batches` hands out before it ends, and whether it ended by raising. */
  datatype Outcome = Outcome(batches: seq<seq<Record>>, raised: bool)

  /**
   * The generator's whole output for the file `lines`: `next(f)` raises on a
   * file without a header line; otherwise the header is dropped and the rest
   * scanned.
   */
  function SeedOutcome(lines: seq<string>, maxRows: int, batchSize: int, rule: LineRule): Outcome
  {
    if lines == [] then Outcome([], true)
    else
      var s := Scan(Outcomes(lines[1..], rule), maxRows);
      var k := EffectiveBatchSize(batchSize);
      Outcome(if s.raised then FullBatches(s.records, k) else Batches(s.records, k), s.raised)
  }

  /** The header line never contributes a record, whatever it holds. */
  lemma HeaderIgnored(h1: string, h2: string, rest: seq<string>, maxRows: int, batchSize: int, rule: LineRule)
    ensures SeedOutcome([h1] + rest, maxRows, batchSize, rule) == SeedOutcome([h2] + rest, maxRows, batchSize, rule)
  {
    assert ([h1] + rest)[1..] == rest && ([h2] + rest)[1..] == rest;
  }

  /**
   * Without an exception, the batches partition the first `maxRows`
   * accepted records in input order, each of size at most `batch_size`.
   */
  lemma SeedBatchesPartition(lines: seq<string>, maxRows: int, batchSize: int, rule: LineRule)
    requires lines != [] && maxRows >= 0 && batchSize >= 1
    requires !SeedOutcome(lines, maxRows, batchSize, rule).raised
    ensures var bs := SeedOutcome(lines, maxRows, batchSize, rule).batches;
      var all := AcceptedAll(Outcomes(lines[1..], rule)).records;
      && Flatten(bs) == all[..if |all| < maxRows then |all| else maxRows]
      && (forall i :: 0 <= i < |bs| ==> 1 <= |bs[i]| <= batchSize)
      && (forall i :: 0 <= i < |bs| - 1 ==> |bs[i]| == batchSize)
  {
    var s := Scan(Outcomes(lines[1..], rule), maxRows);
    ScanTakesFirst(Outcomes(lines[1..], rule), maxRows);
    BatchesFlatten(s.records, batchSize);
    BatchesSized(s.records, batchSize);
  }

  /**
   * `iter_data_batches(lines, max_rows, batch_size)`, its yielded batches
   * collected in order; `raised` tells whether it ended with an exception.
   */
  method IterDataBatches(lines: seq<string>, maxRows: int, batchSize: int, iso: IsoParser)
    returns (batches: seq<seq<Record>>, raised: bool)
    ensures Outcome(batches, raised) == SeedOutcome(lines, maxRows, batchSize, ScriptRule(iso))
  {
    batches, raised := BatchLines(lines, maxRows, batchSize, ScriptRule(iso));
  }

  /** The loop of `iter_data_batches`, with the per-line rule as a parameter. */
  method BatchLines(lines: seq<string>, maxRows: int, batchSize: int, rule: LineRule)
    returns (batches: seq<seq<Record>>, raised: bool)
    ensures Outcome(batches, raised) == SeedOutcome(lines, maxRows, batchSize, rule)
  {
    if lines == [] {
      return [], true;
    }
    ghost var os := Outcomes(lines[1..], rule);
    ghost var whole := Scan(os, maxRows);
    var k := EffectiveBatchSize(batchSize);
    var batch: seq<Record> := [];
    batches := [];
    var totalCount := 0;
    raised := false;
    ghost var accepted: seq<Record> := [];
    var i := 0;
    var stopped := false;
    while i + 1 < |lines| && !stopped
      invariant 0 <= i <= |os|
      invariant totalCount == |accepted|
      invariant Flatten(batches) + batch == accepted
      invariant |batch| < k && forall j :: 0 <= j < |batches| ==> |batches[j]| == k
      invariant !stopped ==> !raised && Prepend(accepted, Scan(os[i..], maxRows - totalCount)) == whole
      invariant stopped ==> whole == Scanned(accepted, raised)
      decreases |os| - i, if stopped then 0 else 1
    {
      if totalCount >= maxRows {
        stopped := true;
      } else {
        var outcome := rule(lines[i + 1]);
        assert outcome == os[i];
        ScanAdvance(os, i, maxRows - totalCount, accepted, whole);
        match outcome
        case Skip =>
          i := i + 1;
        case Raise =>
          raised := true;
          stopped := true;
        case Accept(rec) =>
          batches, batch := Append(batches, batch, rec, k);
          accepted := accepted + [rec];
          totalCount := totalCount + 1;
          i := i + 1;
      }
    }
    if !stopped {
      assert os[i..] == [];
    }
    OutcomeOfScan(lines, maxRows, batchSize, rule, batches, batch, raised);
    if !raised && batch != [] {
      batches := batches + [batch];
    }
  }

  /**
   * `batch.append(record)`, then yielding the batch once it holds `k`
   * records: the records handed out plus the open batch gain `rec` at the end.
   */
  method Append(batches: seq<seq<Record>>, batch: seq<Record>, rec: Record, k: int)
    returns (batches': seq<seq<Record>>, batch': seq<Record>)
    requires k >= 1 && |batch| < k
    requires forall j :: 0 <= j < |batches| ==> |batches[j]| == k
    ensures Flatten(batches') + batch' == Flatten(batches) + batch + [rec]
    ensures |batch'| < k && forall j :: 0 <= j < |batches'| ==> |batches'[j]| == k
    ensures |batch| + 1 < k ==> batches' == batches && batch' == batch + [rec]
    ensures |batch| + 1 == k ==> batches' == batches + [batch + [rec]] && batch' == []
  {
    batch' := batch + [rec];
    batches' := batches;
    if |batch'| >= k {
      FlattenAppend(batches, batch');
      batches' := batches + [batch'];
      batch' := [];
    }
  }

  /** The generator's output once the scan has produced `done` batches and the open batch `open`. */
  lemma OutcomeOfScan(lines: seq<string>, maxRows: int, batchSize: int, rule: LineRule,
                      done: seq<seq<Record>>, open: seq<Record>, raised: bool)
    requires lines != []
    requires Scan(Outcomes(lines[1..], rule), maxRows) == Scanned(Flatten(done) + open, raised)
    requires |open| < EffectiveBatchSize(batchSize)
    requires forall j :: 0 <= j < |done| ==> |done[j]| == EffectiveBatchSize(batchSize)
    ensures SeedOutcome(lines, maxRows, batchSize, rule)
      == Outcome(if raised then done else done + (if open == [] then [] else [open]), raised)
  {
    BatchesOfSplit(done, open, EffectiveBatchSize(batchSize));
  }

  /** The records `acc` already accepted, followed by the scan of the rest. */
  function Prepend(acc: seq<Record>, rest: Scanned): Scanned
  {
    Scanned(acc + rest.records, rest.raised)
  }

  /** One step of the scan: what the next line's outcome does to the rest. */
  lemma ScanAdvance(os: seq<LineOutcome>, j: int, budget: int, acc: seq<Record>, whole: Scanned)
    requires 0 <= j < |os| && budget > 0
    requires Prepend(acc, Scan(os[j..], budget)) == whole
    ensures os[j].Skip? ==> Prepend(acc, Scan(os[j + 1..], budget)) == whole
    ensures os[j].Raise? ==> whole == Scanned(acc, true)
    ensures os[j].Accept? ==> Prepend(acc + [os[j].rec], Scan(os[j + 1..], budget - 1)) == whole
  {
    assert os[j..][0] == os[j] && os[j..][1..] == os[j + 1..];
    if os[j].Accept? {
      var rest := Scan(os[j + 1..], budget - 1);
      assert acc + ([os[j].rec] + rest.records) == (acc + [os[j].rec]) + rest.records;
    } else if os[j].Raise? {
      assert acc + [] == acc;
    }
  }

  lemma {:induction false} FlattenAppend(bs: seq<seq<Record>>, b: seq<Record>)
    ensures Flatten(bs + [b]) == Flatten(bs) + b
  {
    if bs != [] {
      FlattenAppend(bs[1..], b);
      assert (bs + [b])[1..] == bs[1..] + [b];
    }
  }
}
