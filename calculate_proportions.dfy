/**
 * The proportions script: the same line filter as the seed script, but
 * requiring only the species and the timestamp, tallies records per species
 * and turns the tally into each species' share of all counted records.
 */
module CalculateProportions {
  import opened Wrappers
  import Numerals
  import SeedData

  const MaxRows: int := 10000000

  /** What one data line does to the tally. */
  datatype CountOutcome = Ignore | Count(species: string) | Fail

  /**
   * The body of the line loop of `count_species`: the prediction and year
   * filters of the seed script, with only the species and time required.
   */
  function ClassifyCount(line: string, iso: SeedData.IsoParser): CountOutcome
  {
    var fields := SeedData.Fields(line);
    if |fields| <= SeedData.ColPrediction then Ignore
    else match Numerals.ParseReal(fields[SeedData.ColPrediction])
      case None => Ignore
      case Some(prediction) =>
        if prediction < SeedData.PredictionThreshold then Ignore
        else
          var species := SeedData.Field(fields, SeedData.ColSpecies);
          var timeStr := SeedData.Field(fields, SeedData.ColTime);
          if species == "" || timeStr == "" then Ignore
          else match iso(timeStr)
            case None => Fail
            case Some(ts) =>
              if ts.date.year < SeedData.StartYear || ts.date.year > SeedData.EndYear then Ignore
              else Count(species)
  }

  /**
   * Every record the seed script loads is counted here under the same
   * species, and a line this loop fails on is never loaded.
   */
  lemma SeedRecordsAreCounted(line: string, iso: SeedData.IsoParser)
    ensures SeedData.Classify(line, iso).Accept? ==>
      ClassifyCount(line, iso) == Count(SeedData.Classify(line, iso).rec.species)
    ensures ClassifyCount(line, iso).Fail? ==> !SeedData.Classify(line, iso).Accept?
  {
  }

  /**
   * The converse does not hold: a line with no result id is counted here
   * but never loaded, so the expected shares are over a larger population.
   */
  lemma CountedButNotSeeded(line: string, iso: SeedData.IsoParser)
    requires SeedData.ConfidentPrediction(SeedData.Fields(line))
    requires var fields := SeedData.Fields(line);
      && SeedData.Field(fields, SeedData.ColSpecies) != ""
      && SeedData.Field(fields, SeedData.ColTime) != ""
      && SeedData.Field(fields, SeedData.ColResultId) == ""
    requires var t := iso(SeedData.Field(SeedData.Fields(line), SeedData.ColTime));
      t.Some? && SeedData.InYearRange(t.value.date.year)
    ensures ClassifyCount(line, iso) == Count(SeedData.Fields(line)[SeedData.ColSpecies])
    ensures SeedData.Classify(line, iso) == SeedData.Skip
  {
  }

  /** A per-line rule; the script's own is `ScriptRule`. */
  type CountRule = string -> CountOutcome

  function ScriptRule(iso: SeedData.IsoParser): CountRule
  {
    line => ClassifyCount(line, iso)
  }

  function Outcomes(lines: seq<string>, rule: CountRule): (os: seq<CountOutcome>)
    ensures |os| == |lines|
    ensures forall i :: 0 <= i < |lines| ==> os[i] == rule(lines[i])
  {
    seq(|lines|, i requires 0 <= i < |lines| => rule(lines[i]))
  }

  /**
   * What the capped line loop of `count_species` produced; the seeding
   * script's loop has the same shape (`SeedData.Scan`).
   */
  datatype Scanned = Scanned(species: seq<string>, failed: bool)

  /** The species of the counted lines while `budget` more may be counted, stopping at a failing line. */
  function Scan(os: seq<CountOutcome>, budget: int): Scanned
  {
    if os == [] || budget <= 0 then Scanned([], false)
    else match os[0]
      case Ignore => Scan(os[1..], budget)
      case Fail => Scanned([], true)
      case Count(s) =>
        var rest := Scan(os[1..], budget - 1);
        Scanned([s] + rest.species, rest.failed)
  }

  function Prepend(acc: seq<string>, rest: Scanned): Scanned
  {
    Scanned(acc + rest.species, rest.failed)
  }

  lemma ScanAdvance(os: seq<CountOutcome>, j: int, budget: int, acc: seq<string>, whole: Scanned)
    requires 0 <= j < |os| && budget > 0
    requires Prepend(acc, Scan(os[j..], budget)) == whole
    ensures os[j].Ignore? ==> Prepend(acc, Scan(os[j + 1..], budget)) == whole
    ensures os[j].Fail? ==> whole == Scanned(acc, true)
    ensures os[j].Count? ==> Prepend(acc + [os[j].species], Scan(os[j + 1..], budget - 1)) == whole
  {
    assert os[j..][0] == os[j] && os[j..][1..] == os[j + 1..];
    if os[j].Count? {
      var rest := Scan(os[j + 1..], budget - 1);
      assert acc + ([os[j].species] + rest.species) == (acc + [os[j].species]) + rest.species;
    } else if os[j].Fail? {
      assert acc + [] == acc;
    }
  }

  /** No more than `max_rows` records are counted. */
  lemma {:induction false} ScanCapped(os: seq<CountOutcome>, budget: int)
    ensures |Scan(os, budget).species| <= (if budget < 0 then 0 else budget)
  {
    if os != [] && budget > 0 {
      match os[0]
      case Ignore => ScanCapped(os[1..], budget);
      case Fail =>
      case Count(s) => ScanCapped(os[1..], budget - 1);
    }
  }

  // ---------------------------------------------------------------------------
  // The tally

  /** A `Counter`'s guarantee: every species present has been counted at least once. */
  predicate Positive(m: map<string, int>)
  {
    forall k :: k in m ==> m[k] >= 1
  }

  /** `counts[species] += 1` on a `Counter`. */
  function Increment(m: map<string, int>, x: string): map<string, int>
  {
    m[x := GetOr(m, x, 0) + 1]
  }

  /** The `Counter` of `s`: each species of `s` mapped to its number of occurrences. */
  function TallyOf(s: seq<string>): map<string, int>
  {
    if s == [] then map[]
    else Increment(TallyOf(s[..|s| - 1]), s[|s| - 1])
  }

  /** The tally holds exactly the species of `s`, each with its number of occurrences. */
  lemma {:induction false} TallyCounts(s: seq<string>)
    ensures forall x :: x in TallyOf(s) <==> x in s
    ensures forall x :: x in TallyOf(s) ==> TallyOf(s)[x] == multiset(s)[x] >= 1
  {
    if s != [] {
      var init, x := s[..|s| - 1], s[|s| - 1];
      assert s == init + [x];
      TallyCounts(init);
    }
  }

  /** Counting one more occurrence of `x`. */
  lemma TallyAppend(s: seq<string>, x: string)
    ensures TallyOf(s + [x]) == Increment(TallyOf(s), x)
  {
    assert (s + [x])[..|s|] == s;
  }

  /** `sum(m.values())`. */
  ghost function SumValues(m: map<string, int>): int
    decreases |m|
  {
    if m == map[] then 0
    else
      var k :| k in m;
      m[k] + SumValues(m - {k})
  }

  /** The sum does not depend on which key is taken first. */
  lemma {:induction false} SumValuesRemove(m: map<string, int>, k: string)
    requires k in m
    ensures SumValues(m) == m[k] + SumValues(m - {k})
    decreases |m|
  {
    var j :| j in m && SumValues(m) == m[j] + SumValues(m - {j});
    if j != k {
      var mj, mk := m - {j}, m - {k};
      assert |mj| < |m| && |mk| < |m| by {
        assert mj.Keys < m.Keys && mk.Keys < m.Keys;
      }
      SumValuesRemove(mj, k);
      SumValuesRemove(mk, j);
      assert mj - {k} == mk - {j};
    }
  }

  /** One more count adds one to the sum. */
  lemma SumValuesIncrement(m: map<string, int>, x: string)
    ensures SumValues(Increment(m, x)) == SumValues(m) + 1
  {
    var m' := Increment(m, x);
    SumValuesRemove(m', x);
    if x in m {
      SumValuesRemove(m, x);
      assert m' - {x} == m - {x};
    } else {
      assert m' - {x} == m;
    }
  }

  /** The values of the tally of `s` add up to `|s|`: `sum(counts.values()) == total_valid`. */
  lemma {:induction false} TallyTotal(s: seq<string>)
    ensures SumValues(TallyOf(s)) == |s|
  {
    if s != [] {
      var init, x := s[..|s| - 1], s[|s| - 1];
      assert s == init + [x];
      TallyTotal(init);
      TallyAppend(init, x);
      SumValuesIncrement(TallyOf(init), x);
    }
  }

  /** The tally's outcome for a whole file: `None` where `count_species` raises. */
  function CountOutcomeOf(lines: seq<string>, maxRows: int, rule: CountRule): Option<map<string, int>>
  {
    if lines == [] then None
    else
      var s := Scan(Outcomes(lines[1..], rule), maxRows);
      if s.failed then None else Some(TallyOf(s.species))
  }

  /** `count_species(lines, max_rows)`; `None` where it raises. */
  method CountSpecies(lines: seq<string>, maxRows: int, iso: SeedData.IsoParser)
    returns (counts: Option<map<string, int>>)
    ensures counts == CountOutcomeOf(lines, maxRows, ScriptRule(iso))
  {
    counts := CountLines(lines, maxRows, ScriptRule(iso));
  }

  /** The loop of `count_species`, with the per-line rule as a parameter. */
  method CountLines(lines: seq<string>, maxRows: int, rule: CountRule) returns (result: Option<map<string, int>>)
    ensures result == CountOutcomeOf(lines, maxRows, rule)
  {
    if lines == [] {
      return None;
    }
    ghost var os := Outcomes(lines[1..], rule);
    ghost var whole := Scan(os, maxRows);
    var counts: map<string, int> := map[];
    var totalValid := 0;
    ghost var counted: seq<string> := [];
    var failed := false;
    var i := 0;
    var stopped := false;
    while i + 1 < |lines| && !stopped
      invariant 0 <= i <= |os|
      invariant counts == TallyOf(counted) && totalValid == |counted|
      invariant !stopped ==> !failed && Prepend(counted, Scan(os[i..], maxRows - totalValid)) == whole
      invariant stopped ==> whole == Scanned(counted, failed)
      decreases |os| - i, if stopped then 0 else 1
    {
      if totalValid >= maxRows {
        stopped := true;
      } else {
        var outcome := rule(lines[i + 1]);
        assert outcome == os[i];
        ScanAdvance(os, i, maxRows - totalValid, counted, whole);
        match outcome
        case Ignore =>
          i := i + 1;
        case Fail =>
          failed := true;
          stopped := true;
        case Count(species) =>
          TallyAppend(counted, species);
          counts := Increment(counts, species);
          ghost var budget := maxRows - totalValid - 1;
          counted := counted + [species];
          totalValid := totalValid + 1;
          i := i + 1;
          assert maxRows - totalValid == budget;
      }
    }
    if !stopped {
      assert os[i..] == [];
    }
    if failed {
      return None;
    }
    assert counted + [] == counted;
    return Some(counts);
  }

  /**
   * A completed tally: every species counted at least once, the counts
   * adding up to the records counted, never more than `max_rows`.
   */
  lemma CountedTotal(lines: seq<string>, maxRows: int, rule: CountRule)
    requires CountOutcomeOf(lines, maxRows, rule).Some?
    ensures var t := CountOutcomeOf(lines, maxRows, rule).value;
      var s := Scan(Outcomes(lines[1..], rule), maxRows).species;
      Positive(t) && SumValues(t) == |s| <= (if maxRows < 0 then 0 else maxRows)
  {
    var s := Scan(Outcomes(lines[1..], rule), maxRows).species;
    TallyCounts(s);
    TallyTotal(s);
    ScanCapped(Outcomes(lines[1..], rule), maxRows);
  }

  // ---------------------------------------------------------------------------
  // Proportions

  lemma {:induction false} SumValuesPositive(m: map<string, int>)
    requires Positive(m)
    ensures SumValues(m) >= |m|
    decreases |m|
  {
    if m != map[] {
      var k :| k in m;
      SumValuesRemove(m, k);
      assert |m - {k}| < |m| by { assert (m - {k}).Keys < m.Keys; }
      SumValuesPositive(m - {k});
    }
  }

  /** Every count lies between 1 and the total. */
  lemma CountsBelowTotal(m: map<string, int>)
    requires Positive(m)
    ensures forall k :: k in m ==> 1 <= m[k] <= SumValues(m)
  {
    forall k | k in m ensures m[k] <= SumValues(m) {
      SumValuesRemove(m, k);
      SumValuesPositive(m - {k});
    }
  }

  /**
   * `main`'s `{species: count / total for species, count in counts}` with
   * `total = sum(counts.values())`: each species' share of all counted
   * records; an empty tally gives an empty file and no division.
   */
  ghost function Proportions(counts: map<string, int>): (p: map<string, real>)
    requires Positive(counts)
    ensures p.Keys == counts.Keys
    ensures SumValues(counts) >= |counts|
    ensures forall k :: k in p ==> 0.0 < p[k] <= 1.0
    ensures forall k :: k in p ==> p[k] == counts[k] as real / SumValues(counts) as real
    ensures forall j, k :: j in p && k in p ==> (p[j] <= p[k] <==> counts[j] <= counts[k])
  {
    CountsBelowTotal(counts);
    SumValuesPositive(counts);
    var total := SumValues(counts) as real;
    ShareFacts(counts, total);
    var p := map j | j in counts :: counts[j] as real / total;
    assert forall k :: k in p ==> p[k] == counts[k] as real / total;
    p
  }

  /** Dividing counts between 1 and `total` by `total`. */
  lemma ShareFacts(counts: map<string, int>, total: real)
    requires forall k :: k in counts ==> 1 <= counts[k] && counts[k] as real <= total
    ensures forall k :: k in counts ==> 0.0 < counts[k] as real / total <= 1.0
    ensures forall j, k :: j in counts && k in counts ==>
      (counts[j] as real / total <= counts[k] as real / total <==> counts[j] <= counts[k])
  {
    forall k | k in counts
      ensures 0.0 < counts[k] as real / total <= 1.0
    {
      Share(counts[k] as real, total);
    }
    forall j, k | j in counts && k in counts
      ensures counts[j] as real / total <= counts[k] as real / total <==> counts[j] <= counts[k]
    {
      DivOrder(counts[j] as real, counts[k] as real, total);
    }
  }

  lemma Share(c: real, t: real)
    requires 1.0 <= c <= t
    ensures 0.0 < c / t <= 1.0 && (c / t) * t == c
  {
    assert c / t <= t / t;
  }

  lemma DivOrder(a: real, b: real, t: real)
    requires t > 0.0
    ensures a / t <= b / t <==> a <= b
  {
    assert a / t * t == a && b / t * t == b;
    if a / t <= b / t {
      assert (a / t) * t <= (b / t) * t;
    }
  }

  /** The sum of the values of a map of reals. */
  ghost function SumReals(m: map<string, real>): real
    decreases |m|
  {
    if m == map[] then 0.0
    else
      var k :| k in m;
      m[k] + SumReals(m - {k})
  }

  lemma {:induction false} SumRealsRemove(m: map<string, real>, k: string)
    requires k in m
    ensures SumReals(m) == m[k] + SumReals(m - {k})
    decreases |m|
  {
    var j :| j in m && SumReals(m) == m[j] + SumReals(m - {j});
    if j != k {
      var mj, mk := m - {j}, m - {k};
      assert |mj| < |m| && |mk| < |m| by {
        assert mj.Keys < m.Keys && mk.Keys < m.Keys;
      }
      SumRealsRemove(mj, k);
      SumRealsRemove(mk, j);
      assert mj - {k} == mk - {j};
    }
  }

  /** Dividing every count by `total` divides their sum by `total`. */
  lemma {:induction false} ScaledSums(counts: map<string, int>, p: map<string, real>, total: real)
    requires total > 0.0 && p.Keys == counts.Keys
    requires forall k :: k in p ==> p[k] == counts[k] as real / total
    ensures SumReals(p) == SumValues(counts) as real / total
    decreases |counts|
  {
    if counts != map[] {
      var k :| k in counts;
      SumValuesRemove(counts, k);
      SumRealsRemove(p, k);
      var c', p' := counts - {k}, p - {k};
      assert |c'| < |counts| by { assert c'.Keys < counts.Keys; }
      ScaledSums(c', p', total);
      var a, b := counts[k] as real, SumValues(c') as real;
      assert SumReals(p) == a / total + b / total;
      DivAdd(a, b, SumValues(counts) as real, total);
    } else {
      assert p == map[];
      assert 0.0 / total == 0.0;
    }
  }

  lemma DivAdd(a: real, b: real, sum: real, t: real)
    requires t > 0.0 && sum == a + b
    ensures a / t + b / t == sum / t
  {
  }

  /** The shares of a non-empty tally add up to one. */
  lemma ProportionsSumToOne(counts: map<string, int>)
    requires Positive(counts) && counts != map[]
    ensures SumReals(Proportions(counts)) == 1.0
  {
    SumValuesPositive(counts);
    var total := SumValues(counts) as real;
    ScaledSums(counts, Proportions(counts), total);
    DivSelf(total);
  }

  lemma DivSelf(t: real)
    requires t > 0.0
    ensures t / t == 1.0
  {
  }
}
