/**
 * The two consumers of the lookups: the missing-GDP diagnostic
 * `check_for_missing_gdp_entries`, and the report builder
 * `write_emotions_gdp_population_csv`, which joins everything per surveyed
 * country into one output row and collects the countries missing GDP or
 * population.
 */
module Report {
  import opened Wrappers
  import opened Collections
  import opened Loaders
  import opened Emotions
  import opened ExperienceIndex

  const UnknownRegion := "Unknown"
  const NoCodeSuffix := " (No country code found)"

  /** `region_data.get(code, 'Unknown')`. */
  function RegionOrUnknown(region: map<string, string>, code: string): (r: string)
    ensures code in region ==> r == region[code]
    ensures code !in region ==> r == UnknownRegion
  {
    if code in region then region[code] else UnknownRegion
  }

  // ---------------------------------------------------------------------------
  // Missing-GDP diagnostic
  // ---------------------------------------------------------------------------

  /** What the diagnostic loop appends for one country. */
  function GdpDiagnostic(name: string, codes: map<string, string>, gdp: map<string, Option<real>>): seq<string> {
    if name in codes then
      if codes[name] !in gdp || gdp[codes[name]].None? then [name] else []
    else [name + NoCodeSuffix]
  }

  /** The list `check_for_missing_gdp_entries` returns for the survey countries, in their order. */
  function MissingGdpEntries(names: seq<string>, codes: map<string, string>, gdp: map<string, Option<real>>): seq<string> {
    if names == [] then []
    else MissingGdpEntries(names[..|names| - 1], codes, gdp) + GdpDiagnostic(names[|names| - 1], codes, gdp)
  }

  /** The classification loop of `check_for_missing_gdp_entries`. */
  method CheckMissingGdp(names: seq<string>, codes: map<string, string>, gdp: map<string, Option<real>>)
    returns (missing: seq<string>)
    ensures missing == MissingGdpEntries(names, codes, gdp)
  {
    missing := [];
    for i := 0 to |names|
      invariant missing == MissingGdpEntries(names[..i], codes, gdp)
    {
      var country := names[i];
      assert names[..i + 1][..i] == names[..i];
      if country in codes {
        var code := codes[country];
        if code !in gdp || gdp[code].None? {
          missing := missing + [country];
        }
      } else {
        missing := missing + [country + NoCodeSuffix];
      }
    }
    assert names[..|names|] == names;
  }

  /** A country is reported, and reported as what, exactly as the three cases say. */
  lemma {:induction false} MissingGdpMembers(names: seq<string>, codes: map<string, string>, gdp: map<string, Option<real>>)
    ensures forall entry :: entry in MissingGdpEntries(names, codes, gdp) <==>
              exists i :: 0 <= i < |names| &&
                ((names[i] !in codes && entry == names[i] + NoCodeSuffix) ||
                 (names[i] in codes && GetOrAbsent(gdp, codes[names[i]]).None? && entry == names[i]))
  {
    if names != [] {
      var n := |names| - 1;
      MissingGdpMembers(names[..n], codes, gdp);
      assert forall i :: 0 <= i < n ==> names[..n][i] == names[i];
    }
  }

  /** The diagnostic keeps survey order: the entries of earlier countries come first. */
  lemma {:induction false} MissingGdpSplit(front: seq<string>, back: seq<string>, codes: map<string, string>, gdp: map<string, Option<real>>)
    ensures MissingGdpEntries(front + back, codes, gdp) ==
              MissingGdpEntries(front, codes, gdp) + MissingGdpEntries(back, codes, gdp)
  {
    if back == [] {
      assert front + back == front;
    } else {
      var m := |back| - 1;
      MissingGdpSplit(front, back[..m], codes, gdp);
      assert (front + back)[..|front + back| - 1] == front + back[..m];
      assert (front + back)[|front + back| - 1] == back[m];
    }
  }

  // ---------------------------------------------------------------------------
  // Report builder
  // ---------------------------------------------------------------------------

  /** One output row; `indicators` holds the five positive emotions in `PositiveEmotions` order. */
  datatype ReportRow = ReportRow(
    country: string,
    region: string,
    gdp: Option<real>,
    population: Option<int>,
    indicators: seq<Option<real>>,
    index: real)

  /**
   * A run of the report loop: the rows written to the file (after its header
   * row), the `missing_entries` list, and the exception that ended the loop
   * early, if one did. Rows written before an exception stay in the file.
   */
  datatype ReportRun = ReportRun(rows: seq<ReportRow>, missing: seq<string>, failure: Option<Error>)

  /** `emotions[emotion]`. */
  function IndicatorValue(record: EmotionRecord, emotion: string): Result<Option<real>, Error> {
    if emotion in record then Success(record[emotion]) else Failure(KeyNotFound(emotion))
  }

  function IndicatorStep(record: EmotionRecord): string -> Result<Option<real>, Error> {
    emotion => IndicatorValue(record, emotion)
  }

  /** The five indicator fields of a row, read from the country's record. */
  function Indicators(record: EmotionRecord): Result<seq<Option<real>>, Error> {
    Traverse(PositiveEmotions, IndicatorStep(record))
  }

  /** The loop `for emotion in positive_emotions: row[emotion] = emotions[emotion]`. */
  method ReadIndicators(record: EmotionRecord) returns (r: Result<seq<Option<real>>, Error>)
    ensures r == Indicators(record)
  {
    var values: seq<Option<real>> := [];
    for i := 0 to |PositiveEmotions|
      invariant Traverse(PositiveEmotions[..i], IndicatorStep(record)) == Success(values)
    {
      var emotion := PositiveEmotions[i];
      assert PositiveEmotions[..i + 1][..i] == PositiveEmotions[..i];
      if emotion !in record {
        TraverseStops(PositiveEmotions, i + 1, IndicatorStep(record));
        return Failure(KeyNotFound(emotion));
      }
      values := values + [record[emotion]];
    }
    assert PositiveEmotions[..|PositiveEmotions|] == PositiveEmotions;
    return Success(values);
  }

  /** The indicators are read exactly when the record has all five, and are then the record's values. */
  lemma IndicatorsShape(record: EmotionRecord)
    ensures Indicators(record).Success? <==> forall k :: 0 <= k < 5 ==> PositiveEmotions[k] in record
    ensures Indicators(record).Success? ==>
              |Indicators(record).value| == 5 &&
              forall k :: 0 <= k < 5 ==> Indicators(record).value[k] == record[PositiveEmotions[k]]
  {
    TraverseElements(PositiveEmotions, IndicatorStep(record));
  }

  /** One iteration of the report loop, from a run that has not failed. */
  function JoinCountry(run: ReportRun, country: string, record: EmotionRecord, codes: map<string, string>,
                       gdp: map<string, Option<real>>, population: map<string, Option<int>>,
                       region: map<string, string>): ReportRun
  {
    if country !in codes then ReportRun(run.rows, run.missing, Some(KeyNotFound(country)))
    else
      var code := codes[country];
      var gdpValue := GetOrAbsent(gdp, code);
      var populationValue := GetOrAbsent(population, code);
      var missing := if gdpValue.None? || populationValue.None? then run.missing + [country] else run.missing;
      match Indicators(record)
      case Failure(e) => ReportRun(run.rows, missing, Some(e))
      case Success(indicators) =>
        match PositiveExperienceIndex(indicators)
        case Failure(e) => ReportRun(run.rows, missing, Some(e))
        case Success(index) =>
          var row := ReportRow(country, RegionOrUnknown(region, code), gdpValue, populationValue, indicators, index);
          ReportRun(run.rows + [row], missing, None)
  }

  /** The report loop over the survey countries in the table's order. */
  function ReportOf(names: seq<string>, records: map<string, EmotionRecord>, codes: map<string, string>,
                    gdp: map<string, Option<real>>, population: map<string, Option<int>>,
                    region: map<string, string>): ReportRun
    requires forall name :: name in names ==> name in records
  {
    if names == [] then ReportRun([], [], None)
    else
      var n := |names| - 1;
      assert forall name :: name in names[..n] ==> name in names;
      var run := ReportOf(names[..n], records, codes, gdp, population, region);
      if run.failure.Some? then run
      else JoinCountry(run, names[n], records[names[n]], codes, gdp, population, region)
  }

  /** The report loop over one more country. */
  lemma ReportOfStep(names: seq<string>, i: nat, records: map<string, EmotionRecord>, codes: map<string, string>,
                     gdp: map<string, Option<real>>, population: map<string, Option<int>>,
                     region: map<string, string>)
    requires forall name :: name in names ==> name in records
    requires i < |names|
    ensures forall name :: name in names[..i] ==> name in records
    ensures forall name :: name in names[..i + 1] ==> name in records
    ensures var run := ReportOf(names[..i], records, codes, gdp, population, region);
            ReportOf(names[..i + 1], records, codes, gdp, population, region) ==
              if run.failure.Some? then run else JoinCountry(run, names[i], records[names[i]], codes, gdp, population, region)
  {
    assert forall name :: name in names[..i] ==> name in names;
    assert forall name :: name in names[..i + 1] ==> name in names;
    assert names[..i + 1][..i] == names[..i];
  }

  /** What one join does to the rows: appends the country's row exactly when the country joins. */
  lemma JoinCountryOutcome(run: ReportRun, country: string, record: EmotionRecord, codes: map<string, string>,
                           gdp: map<string, Option<real>>, population: map<string, Option<int>>,
                           region: map<string, string>)
    ensures var next := JoinCountry(run, country, record, codes, gdp, population, region);
            (next.failure.None? <==> Joins(country, record, codes)) &&
            (next.failure.None? ==> |next.rows| == |run.rows| + 1 && next.rows[..|run.rows|] == run.rows &&
                                    next.rows[|run.rows|].country == country) &&
            (next.failure.Some? ==> next.rows == run.rows) &&
            (country !in codes ==> next.failure == Some(KeyNotFound(country)))
  {
  }

  /** The join of `write_emotions_gdp_population_csv`, after the lookups are loaded. */
  method WriteReport(table: EmotionsTable, codes: map<string, string>, gdp: map<string, Option<real>>,
                     population: map<string, Option<int>>, region: map<string, string>)
    returns (run: ReportRun)
    requires table.Valid()
    ensures run == ReportOf(table.names, table.records, codes, gdp, population, region)
  {
    var names := table.names;
    run := ReportRun([], [], None);
    for i := 0 to |names|
      invariant ReportOf(names[..i], table.records, codes, gdp, population, region) == run
      invariant run.failure.None?
    {
      ReportOfStep(names, i, table.records, codes, gdp, population, region);
      run := JoinOne(run, names[i], table.records[names[i]], codes, gdp, population, region);
      if run.failure.Some? {
        ReportStops(names, i + 1, table.records, codes, gdp, population, region);
        return;
      }
    }
    assert names[..|names|] == names;
  }

  /** The body of the report loop for one country. */
  method JoinOne(run: ReportRun, country: string, emotions: EmotionRecord, codes: map<string, string>,
                 gdp: map<string, Option<real>>, population: map<string, Option<int>>,
                 region: map<string, string>)
    returns (next: ReportRun)
    ensures next == JoinCountry(run, country, emotions, codes, gdp, population, region)
  {
    if country !in codes {
      return ReportRun(run.rows, run.missing, Some(KeyNotFound(country)));
    }
    var code := codes[country];
    var gdpValue := GetOrAbsent(gdp, code);
    var populationValue := GetOrAbsent(population, code);
    var regionName := RegionOrUnknown(region, code);
    var missing := run.missing;
    if gdpValue.None? || populationValue.None? {
      missing := missing + [country];
    }
    var indicators := ReadIndicators(emotions);
    if indicators.Failure? {
      return ReportRun(run.rows, missing, Some(indicators.error));
    }
    var present := PresentValues(indicators.value);
    if |present| == 0 {
      return ReportRun(run.rows, missing, Some(DivisionByZero));
    }
    var index := Sum(present) / |present| as real;
    next := ReportRun(run.rows + [ReportRow(country, regionName, gdpValue, populationValue, indicators.value, index)], missing, None);
  }

  /** Once the loop has raised, the remaining countries change nothing. */
  lemma {:induction false} ReportStops(names: seq<string>, n: nat, records: map<string, EmotionRecord>,
                                       codes: map<string, string>, gdp: map<string, Option<real>>,
                                       population: map<string, Option<int>>, region: map<string, string>)
    requires forall name :: name in names ==> name in records
    requires n <= |names|
    requires forall name :: name in names[..n] ==> name in records
    requires ReportOf(names[..n], records, codes, gdp, population, region).failure.Some?
    ensures ReportOf(names, records, codes, gdp, population, region) ==
              ReportOf(names[..n], records, codes, gdp, population, region)
    decreases |names|
  {
    if n < |names| {
      var m := |names| - 1;
      assert names[..m][..n] == names[..n];
      assert forall name :: name in names[..m] ==> name in names;
      ReportStops(names[..m], n, records, codes, gdp, population, region);
    } else {
      assert names[..n] == names;
    }
  }

  /** A country the report loop gets through: it has a code, all five indicators, and one present. */
  ghost predicate Joins(country: string, record: EmotionRecord, codes: map<string, string>) {
    country in codes && Indicators(record).Success? && PositiveExperienceIndex(Indicators(record).value).Success?
  }

  /** The rows are those of a prefix of the survey countries, each of which joins; the run completes exactly when all do. */
  lemma {:induction false} ReportRowsFollowSurvey(names: seq<string>, records: map<string, EmotionRecord>,
                                                  codes: map<string, string>, gdp: map<string, Option<real>>,
                                                  population: map<string, Option<int>>, region: map<string, string>)
    requires forall name :: name in names ==> name in records
    ensures var run := ReportOf(names, records, codes, gdp, population, region);
            |run.rows| <= |names| &&
            (forall i :: 0 <= i < |run.rows| ==> run.rows[i].country == names[i] && Joins(names[i], records[names[i]], codes)) &&
            (run.failure.None? <==> |run.rows| == |names|)
  {
    if names != [] {
      var n := |names| - 1;
      ReportOfStep(names, n, records, codes, gdp, population, region);
      assert names[..n + 1] == names;
      ReportRowsFollowSurvey(names[..n], records, codes, gdp, population, region);
      var run := ReportOf(names[..n], records, codes, gdp, population, region);
      assert forall i :: 0 <= i < |run.rows| ==> names[..n][i] == names[i];
      if run.failure.None? {
        JoinCountryOutcome(run, names[n], records[names[n]], codes, gdp, population, region);
      }
    }
  }

  /** A run that raises stops at a country that does not join; one without a code raises KeyError. */
  lemma {:induction false} ReportFailsAtCountry(names: seq<string>, records: map<string, EmotionRecord>,
                                                codes: map<string, string>, gdp: map<string, Option<real>>,
                                                population: map<string, Option<int>>, region: map<string, string>)
    requires forall name :: name in names ==> name in records
    ensures var run := ReportOf(names, records, codes, gdp, population, region);
            run.failure.Some? ==>
              |run.rows| < |names| &&
              !Joins(names[|run.rows|], records[names[|run.rows|]], codes) &&
              (names[|run.rows|] !in codes ==> run.failure == Some(KeyNotFound(names[|run.rows|])))
  {
    if names != [] {
      var n := |names| - 1;
      ReportOfStep(names, n, records, codes, gdp, population, region);
      assert names[..n + 1] == names;
      ReportRowsFollowSurvey(names[..n], records, codes, gdp, population, region);
      var run := ReportOf(names[..n], records, codes, gdp, population, region);
      if run.failure.None? {
        JoinCountryOutcome(run, names[n], records[names[n]], codes, gdp, population, region);
      } else {
        ReportFailsAtCountry(names[..n], records, codes, gdp, population, region);
        assert names[..n][|run.rows|] == names[|run.rows|];
      }
    }
  }

  /**
   * One row per survey country, in survey order, up to the first country that
   * cannot be joined; the run completes exactly when every country joins, and
   * a country without a code ends it with KeyError.
   */
  lemma ReportFollowsSurvey(names: seq<string>, records: map<string, EmotionRecord>,
                            codes: map<string, string>, gdp: map<string, Option<real>>,
                            population: map<string, Option<int>>, region: map<string, string>)
    requires forall name :: name in names ==> name in records
    ensures var run := ReportOf(names, records, codes, gdp, population, region);
            |run.rows| <= |names| &&
            (forall i :: 0 <= i < |run.rows| ==> run.rows[i].country == names[i] && Joins(names[i], records[names[i]], codes)) &&
            (run.failure.None? <==> |run.rows| == |names|) &&
            (run.failure.Some? ==> !Joins(names[|run.rows|], records[names[|run.rows|]], codes)) &&
            (run.failure.Some? && names[|run.rows|] !in codes ==> run.failure == Some(KeyNotFound(names[|run.rows|])))
  {
    ReportRowsFollowSurvey(names, records, codes, gdp, population, region);
    ReportFailsAtCountry(names, records, codes, gdp, population, region);
  }

  /** The report completes exactly when every survey country joins. */
  lemma ReportCompletesIff(names: seq<string>, records: map<string, EmotionRecord>,
                           codes: map<string, string>, gdp: map<string, Option<real>>,
                           population: map<string, Option<int>>, region: map<string, string>)
    requires forall name :: name in names ==> name in records
    ensures ReportOf(names, records, codes, gdp, population, region).failure.None? <==>
              forall i :: 0 <= i < |names| ==> Joins(names[i], records[names[i]], codes)
  {
    ReportFollowsSurvey(names, records, codes, gdp, population, region);
  }

  /** The fields of a written row: lookups by the country's code, the region defaulting to "Unknown", the record's indicators and their mean. */
  ghost predicate RowFields(row: ReportRow, record: EmotionRecord, codes: map<string, string>,
                            gdp: map<string, Option<real>>, population: map<string, Option<int>>,
                            region: map<string, string>)
  {
    row.country in codes &&
    var code := codes[row.country];
    row.gdp == GetOrAbsent(gdp, code) &&
    row.population == GetOrAbsent(population, code) &&
    row.region == (if code in region then region[code] else UnknownRegion) &&
    |row.indicators| == 5 &&
    (forall k :: 0 <= k < 5 ==> PositiveEmotions[k] in record && row.indicators[k] == record[PositiveEmotions[k]]) &&
    |PresentValues(row.indicators)| > 0 &&
    row.index == Mean(PresentValues(row.indicators))
  }

  /** Every written row is the join of its country's lookups and record. */
  lemma {:induction false} ReportRowContents(names: seq<string>, records: map<string, EmotionRecord>,
                                             codes: map<string, string>, gdp: map<string, Option<real>>,
                                             population: map<string, Option<int>>, region: map<string, string>)
    requires forall name :: name in names ==> name in records
    ensures var run := ReportOf(names, records, codes, gdp, population, region);
            forall row :: row in run.rows ==>
              row.country in records && RowFields(row, records[row.country], codes, gdp, population, region)
  {
    if names != [] {
      var n := |names| - 1;
      assert forall name :: name in names[..n] ==> name in names;
      ReportRowContents(names[..n], records, codes, gdp, population, region);
      var run := ReportOf(names[..n], records, codes, gdp, population, region);
      if run.failure.None? {
        IndicatorsShape(records[names[n]]);
      }
    }
  }

  /** Whether the report counts a country as missing GDP or population. */
  predicate IsMissing(country: string, codes: map<string, string>, gdp: map<string, Option<real>>,
                      population: map<string, Option<int>>)
  {
    country in codes && (GetOrAbsent(gdp, codes[country]).None? || GetOrAbsent(population, codes[country]).None?)
  }

  function MissingStep(codes: map<string, string>, gdp: map<string, Option<real>>,
                       population: map<string, Option<int>>): string -> bool
  {
    country => IsMissing(country, codes, gdp, population)
  }

  /** A completed report's `missing_entries` are the survey countries lacking GDP or population, in survey order. */
  lemma {:induction false} ReportMissing(names: seq<string>, records: map<string, EmotionRecord>,
                                         codes: map<string, string>, gdp: map<string, Option<real>>,
                                         population: map<string, Option<int>>, region: map<string, string>)
    requires forall name :: name in names ==> name in records
    requires ReportOf(names, records, codes, gdp, population, region).failure.None?
    ensures ReportOf(names, records, codes, gdp, population, region).missing ==
              Filter(names, MissingStep(codes, gdp, population))
  {
    if names != [] {
      var n := |names| - 1;
      assert forall name :: name in names[..n] ==> name in names;
      ReportMissing(names[..n], records, codes, gdp, population, region);
    }
  }

  /** Each survey country is in a completed report's missing list exactly when it lacks GDP or population, and at most once. */
  lemma ReportMissingMembers(table: EmotionsTable, codes: map<string, string>, gdp: map<string, Option<real>>,
                             population: map<string, Option<int>>, region: map<string, string>)
    requires table.Valid()
    requires ReportOf(table.names, table.records, codes, gdp, population, region).failure.None?
    ensures var missing := ReportOf(table.names, table.records, codes, gdp, population, region).missing;
            (forall country :: country in missing <==> country in table.names && IsMissing(country, codes, gdp, population)) &&
            (forall p, q :: 0 <= p < q < |missing| ==> missing[p] != missing[q])
  {
    ReportMissing(table.names, table.records, codes, gdp, population, region);
    FilterMembers(table.names, MissingStep(codes, gdp, population));
    FilterDistinct(table.names, MissingStep(codes, gdp, population));
  }

  // ---------------------------------------------------------------------------
  // The two top-level functions, over already-parsed inputs
  // ---------------------------------------------------------------------------

  /** The four parsed input tables and the country-code document. */
  datatype Inputs = Inputs(
    gdpHeaders: seq<string>, gdpRows: seq<Row>,
    populationHeaders: seq<string>, populationRows: seq<Row>,
    survey: Survey,
    regionRows: seq<RegionRow>,
    countryCodes: map<string, string>)

  /** What `check_for_missing_gdp_entries` returns: loading GDP, then the survey, then the diagnostic. */
  function MissingGdpCheck(inputs: Inputs, parseFloat: string -> real): Result<seq<string>, Error> {
    var gdp :- LatestYearLookup(inputs.gdpHeaders, inputs.gdpRows, parseFloat);
    var table :- EmotionsData(inputs.survey, parseFloat);
    Success(MissingGdpEntries(table.names, inputs.countryCodes, gdp))
  }

  /** `check_for_missing_gdp_entries`. */
  method CheckForMissingGdpEntries(inputs: Inputs, parseFloat: string -> real) returns (r: Result<seq<string>, Error>)
    ensures r == MissingGdpCheck(inputs, parseFloat)
  {
    var gdp := GetGdpLookup(inputs.gdpHeaders, inputs.gdpRows, parseFloat);
    if gdp.Failure? {
      return Failure(gdp.error);
    }
    var table := GetGallupEmotionsData(inputs.survey, parseFloat);
    if table.Failure? {
      return Failure(table.error);
    }
    var missing := CheckMissingGdp(table.value.names, inputs.countryCodes, gdp.value);
    return Success(missing);
  }

  /**
   * What `write_emotions_gdp_population_csv` produces: loading GDP, the
   * survey, population and regions in that order, then the report loop.
   */
  function CsvReport(inputs: Inputs, parseFloat: string -> real): Result<ReportRun, Error> {
    var gdp :- LatestYearLookup(inputs.gdpHeaders, inputs.gdpRows, parseFloat);
    var table :- EmotionsData(inputs.survey, parseFloat);
    var population :- LatestYearLookup(inputs.populationHeaders, inputs.populationRows, ParsePopulation(parseFloat));
    var region :- RegionLookup(inputs.regionRows);
    TableNames(inputs.survey, parseFloat, table);
    Success(ReportOf(table.names, table.records, inputs.countryCodes, gdp, population, region))
  }

  /** `write_emotions_gdp_population_csv`. */
  method WriteEmotionsGdpPopulationCsv(inputs: Inputs, parseFloat: string -> real) returns (r: Result<ReportRun, Error>)
    ensures r == CsvReport(inputs, parseFloat)
  {
    var gdp := GetGdpLookup(inputs.gdpHeaders, inputs.gdpRows, parseFloat);
    if gdp.Failure? {
      return Failure(gdp.error);
    }
    var table := GetGallupEmotionsData(inputs.survey, parseFloat);
    if table.Failure? {
      return Failure(table.error);
    }
    var population := GetPopulationLookup(inputs.populationHeaders, inputs.populationRows, parseFloat);
    if population.Failure? {
      return Failure(population.error);
    }
    var region := GetRegionLookup(inputs.regionRows);
    if region.Failure? {
      return Failure(region.error);
    }
    var run := WriteReport(table.value, inputs.countryCodes, gdp.value, population.value, region.value);
    return Success(run);
  }
}
