/**
 * The table loaders: the GDP-per-capita and population lookups, which keep the
 * 2023 figure, else the 2022 figure, else nothing, for each country code, and
 * the code-to-continent lookup.
 * Rows arrive already split into cells; number parsing is a caller-supplied
 * function from a non-empty cell to its value.
 */
module Loaders {
  import opened Wrappers
  import opened Collections

  /** A data row of a World Bank time-series table, one string per cell. */
  type Row = seq<string>

  /** A row of the country-continent table, keyed by its header names. */
  type RegionRow = map<string, string>

  const CodeColumn := "Country Code"
  const LatestYear := "2023"
  const PriorYear := "2022"
  const IsoColumn := "iso3"
  const ContinentColumn := "continent"

  /** `row[headers.index(column)]`: ValueError when the header lacks the column, IndexError when the row is too short. */
  function ReadColumn(headers: seq<string>, row: Row, column: string): (r: Result<string, Error>)
    ensures r.Success? <==> column in headers && IndexOf(headers, column).value < |row|
    ensures column !in headers ==> r == Failure(ColumnNotInHeader(column))
    ensures column in headers && r.Failure? ==> r == Failure(CellOutOfRange(column))
    ensures r.Success? ==> r.value == row[IndexOf(headers, column).value]
  {
    match IndexOf(headers, column)
    case None => Failure(ColumnNotInHeader(column))
    case Some(i) => if i < |row| then Success(row[i]) else Failure(CellOutOfRange(column))
  }

  /** The cell a row holds under a column, or "" when it cannot be read; used to state properties. */
  ghost function CellOf(headers: seq<string>, row: Row, column: string): string {
    match ReadColumn(headers, row, column)
    case Success(cell) => cell
    case Failure(_) => ""
  }

  /** All three columns the loaders read exist in the header and in the row. */
  ghost predicate RowReadable(headers: seq<string>, row: Row) {
    ReadColumn(headers, row, CodeColumn).Success? &&
    ReadColumn(headers, row, LatestYear).Success? &&
    ReadColumn(headers, row, PriorYear).Success?
  }

  /** Latest year with fallback: the latest cell if non-empty, else the prior one if non-empty, else absent. */
  function SelectLatest<V>(latest: string, prior: string, parse: string -> V): (r: Option<V>)
    ensures latest != "" ==> r == Some(parse(latest))
    ensures latest == "" && prior != "" ==> r == Some(parse(prior))
    ensures r.None? <==> latest == "" && prior == ""
  {
    if latest != "" then Some(parse(latest))
    else if prior != "" then Some(parse(prior))
    else None
  }

  /**
   * What one iteration of the loading loop assigns: nothing for an empty row,
   * otherwise the selected value under the row's country code. The three cells
   * are read in the order the script reads them, so the first unreadable one
   * decides the error.
   */
  function RowEntry<V>(headers: seq<string>, row: Row, parse: string -> V): (r: Result<Option<(string, Option<V>)>, Error>)
    ensures row == [] ==> r == Success(None)
    ensures row != [] ==> (r.Success? <==> RowReadable(headers, row))
    ensures row != [] && r.Success? ==>
              r.value == Some((CellOf(headers, row, CodeColumn),
                               SelectLatest(CellOf(headers, row, LatestYear), CellOf(headers, row, PriorYear), parse)))
  {
    if row == [] then Success(None)
    else
      var code :- ReadColumn(headers, row, CodeColumn);
      var latest :- ReadColumn(headers, row, LatestYear);
      var prior :- ReadColumn(headers, row, PriorYear);
      Success(Some((code, SelectLatest(latest, prior, parse))))
  }

  function RowStep<V>(headers: seq<string>, parse: string -> V): Row -> Result<Option<(string, Option<V>)>, Error> {
    row => RowEntry(headers, row, parse)
  }

  /** The lookup a latest-year loader builds from the data rows after the header row. */
  function LatestYearLookup<V>(headers: seq<string>, rows: seq<Row>, parse: string -> V): Result<map<string, Option<V>>, Error> {
    var entries :- Traverse(rows, RowStep(headers, parse));
    Success(Upsert(entries))
  }

  /** The loading loop shared by `get_gdp_lookup` and `get_population_lookup`. */
  method BuildLatestYearLookup<V>(headers: seq<string>, rows: seq<Row>, parse: string -> V)
    returns (r: Result<map<string, Option<V>>, Error>)
    ensures r == LatestYearLookup(headers, rows, parse)
  {
    var lookup: map<string, Option<V>> := map[];
    ghost var entries: seq<Option<(string, Option<V>)>> := [];
    for i := 0 to |rows|
      invariant Traverse(rows[..i], RowStep(headers, parse)) == Success(entries)
      invariant lookup == Upsert(entries)
    {
      var row := rows[i];
      assert rows[..i + 1][..i] == rows[..i];
      if row != [] {
        var code := ReadColumn(headers, row, CodeColumn);
        if code.Failure? {
          TraverseStops(rows, i + 1, RowStep(headers, parse));
          return Failure(code.error);
        }
        var latest := ReadColumn(headers, row, LatestYear);
        if latest.Failure? {
          TraverseStops(rows, i + 1, RowStep(headers, parse));
          return Failure(latest.error);
        }
        var prior := ReadColumn(headers, row, PriorYear);
        if prior.Failure? {
          TraverseStops(rows, i + 1, RowStep(headers, parse));
          return Failure(prior.error);
        }
        var value := SelectLatest(latest.value, prior.value, parse);
        lookup := lookup[code.value := value];
        assert (entries + [Some((code.value, value))])[..|entries|] == entries;
        entries := entries + [Some((code.value, value))];
      } else {
        assert (entries + [None])[..|entries|] == entries;
        entries := entries + [None];
      }
    }
    assert rows[..|rows|] == rows;
    return Success(lookup);
  }

  /** Python's `int()` on a float: truncation toward zero. */
  function TruncateTowardZero(x: real): (n: int)
    ensures 0.0 <= x ==> n as real <= x < n as real + 1.0
    ensures x < 0.0 ==> n as real - 1.0 < x <= n as real
  {
    if 0.0 <= x then x.Floor else -((-x).Floor)
  }

  /** The population cell conversion `int(float(cell))`. */
  function ParsePopulation(parseFloat: string -> real): string -> int {
    cell => TruncateTowardZero(parseFloat(cell))
  }

  /** `get_gdp_lookup`: country code to GDP per capita of 2023, else 2022, else absent. */
  method GetGdpLookup(headers: seq<string>, rows: seq<Row>, parseFloat: string -> real)
    returns (r: Result<map<string, Option<real>>, Error>)
    ensures r == LatestYearLookup(headers, rows, parseFloat)
  {
    r := BuildLatestYearLookup(headers, rows, parseFloat);
  }

  /** `get_population_lookup`: country code to the truncated population of 2023, else 2022, else absent. */
  method GetPopulationLookup(headers: seq<string>, rows: seq<Row>, parseFloat: string -> real)
    returns (r: Result<map<string, Option<int>>, Error>)
    ensures r == LatestYearLookup(headers, rows, ParsePopulation(parseFloat))
  {
    r := BuildLatestYearLookup(headers, rows, ParsePopulation(parseFloat));
  }

  /** Loading succeeds exactly when every non-empty row can be read in all three columns. */
  lemma LookupSucceedsIff<V>(headers: seq<string>, rows: seq<Row>, parse: string -> V)
    ensures LatestYearLookup(headers, rows, parse).Success? <==>
              forall j :: 0 <= j < |rows| && rows[j] != [] ==> RowReadable(headers, rows[j])
  {
    TraverseElements(rows, RowStep(headers, parse));
  }

  /** A failed load reports the error of the first unreadable non-empty row. */
  lemma LookupFirstFailure<V>(headers: seq<string>, rows: seq<Row>, parse: string -> V)
    requires LatestYearLookup(headers, rows, parse).Failure?
    ensures exists j :: 0 <= j < |rows| && rows[j] != [] && !RowReadable(headers, rows[j]) &&
                        RowEntry(headers, rows[j], parse) == Failure(LatestYearLookup(headers, rows, parse).error) &&
                        forall j' :: 0 <= j' < j && rows[j'] != [] ==> RowReadable(headers, rows[j'])
  {
    TraverseFirstFailure(rows, RowStep(headers, parse));
  }

  /** A header without the needed columns only fails the load once a non-empty row is read. */
  lemma LookupWithoutDataRows<V>(headers: seq<string>, rows: seq<Row>, parse: string -> V)
    requires forall j :: 0 <= j < |rows| ==> rows[j] == []
    ensures LatestYearLookup(headers, rows, parse) == Success(map[])
  {
    var step := RowStep(headers, parse);
    TraverseElements(rows, step);
    var entries := Traverse(rows, step).value;
    UpsertKeys(entries);
    assert forall j :: 0 <= j < |rows| ==> step(rows[j]) == Success(None);
  }

  /** The keys are exactly the country codes of the non-empty rows, even when both years are empty. */
  lemma LookupKeys<V>(headers: seq<string>, rows: seq<Row>, parse: string -> V, lookup: map<string, Option<V>>)
    requires LatestYearLookup(headers, rows, parse) == Success(lookup)
    ensures forall code :: code in lookup <==>
              exists j :: 0 <= j < |rows| && rows[j] != [] && CellOf(headers, rows[j], CodeColumn) == code
  {
    var step := RowStep(headers, parse);
    TraverseElements(rows, step);
    var entries := Traverse(rows, step).value;
    UpsertKeys(entries);
    assert forall j :: 0 <= j < |rows| ==> step(rows[j]) == Success(entries[j]);
  }

  /** A duplicated code keeps the selection of its last row. */
  lemma LookupLastWins<V>(headers: seq<string>, rows: seq<Row>, parse: string -> V, lookup: map<string, Option<V>>, j: nat)
    requires LatestYearLookup(headers, rows, parse) == Success(lookup)
    requires j < |rows| && rows[j] != []
    requires forall j' :: j < j' < |rows| && rows[j'] != [] ==>
               CellOf(headers, rows[j'], CodeColumn) != CellOf(headers, rows[j], CodeColumn)
    ensures CellOf(headers, rows[j], CodeColumn) in lookup
    ensures lookup[CellOf(headers, rows[j], CodeColumn)] ==
              SelectLatest(CellOf(headers, rows[j], LatestYear), CellOf(headers, rows[j], PriorYear), parse)
  {
    var step := RowStep(headers, parse);
    TraverseElements(rows, step);
    var entries := Traverse(rows, step).value;
    assert forall j' :: 0 <= j' < |rows| ==> step(rows[j']) == Success(entries[j']);
    UpsertLastWins(entries, j);
  }

  /** An empty row adds nothing to the lookup. */
  lemma LookupIgnoresEmptyRow<V>(headers: seq<string>, rows: seq<Row>, parse: string -> V)
    ensures LatestYearLookup(headers, rows + [[]], parse) == LatestYearLookup(headers, rows, parse)
  {
    assert (rows + [[]])[..|rows|] == rows;
  }

  /** A further readable row stores its selection under its code, replacing any earlier value. */
  lemma LookupOverwrites<V>(headers: seq<string>, rows: seq<Row>, row: Row, parse: string -> V, lookup: map<string, Option<V>>)
    requires LatestYearLookup(headers, rows, parse) == Success(lookup)
    requires row != [] && RowReadable(headers, row)
    ensures LatestYearLookup(headers, rows + [row], parse) ==
              Success(lookup[CellOf(headers, row, CodeColumn) :=
                             SelectLatest(CellOf(headers, row, LatestYear), CellOf(headers, row, PriorYear), parse)])
  {
    assert (rows + [row])[..|rows|] == rows;
    var entries := Traverse(rows, RowStep(headers, parse)).value;
    var e := RowEntry(headers, row, parse).value;
    assert (entries + [e])[..|entries|] == entries;
  }

  /**
   * One row of `get_region_lookup`: `region_lookup[row['iso3']] = row['continent']`.
   * Python evaluates the assigned value before the key, so a row lacking both
   * columns raises KeyError for 'continent'.
   */
  function RegionEntry(row: RegionRow): (r: Result<Option<(string, string)>, Error>)
    ensures r.Success? <==> IsoColumn in row && ContinentColumn in row
    ensures ContinentColumn !in row ==> r == Failure(KeyNotFound(ContinentColumn))
    ensures r.Success? ==> r.value == Some((row[IsoColumn], row[ContinentColumn]))
  {
    if ContinentColumn !in row then Failure(KeyNotFound(ContinentColumn))
    else if IsoColumn !in row then Failure(KeyNotFound(IsoColumn))
    else Success(Some((row[IsoColumn], row[ContinentColumn])))
  }

  /** The code-to-continent lookup built from the rows of the country-continent table. */
  function RegionLookup(rows: seq<RegionRow>): Result<map<string, string>, Error> {
    var entries :- Traverse(rows, RegionEntry);
    Success(Upsert(entries))
  }

  /** `get_region_lookup`. */
  method GetRegionLookup(rows: seq<RegionRow>) returns (r: Result<map<string, string>, Error>)
    ensures r == RegionLookup(rows)
  {
    var lookup: map<string, string> := map[];
    ghost var entries: seq<Option<(string, string)>> := [];
    for i := 0 to |rows|
      invariant Traverse(rows[..i], RegionEntry) == Success(entries)
      invariant lookup == Upsert(entries)
    {
      var row := rows[i];
      assert rows[..i + 1][..i] == rows[..i];
      if ContinentColumn !in row || IsoColumn !in row {
        TraverseStops(rows, i + 1, RegionEntry);
        return Failure(KeyNotFound(if ContinentColumn !in row then ContinentColumn else IsoColumn));
      }
      lookup := lookup[row[IsoColumn] := row[ContinentColumn]];
      assert (entries + [Some((row[IsoColumn], row[ContinentColumn]))])[..|entries|] == entries;
      entries := entries + [Some((row[IsoColumn], row[ContinentColumn]))];
    }
    assert rows[..|rows|] == rows;
    return Success(lookup);
  }

  /** The region lookup loads exactly when every row has both columns. */
  lemma RegionLookupSucceedsIff(rows: seq<RegionRow>)
    ensures RegionLookup(rows).Success? <==>
              forall j :: 0 <= j < |rows| ==> IsoColumn in rows[j] && ContinentColumn in rows[j]
  {
    TraverseElements(rows, RegionEntry);
  }

  /** The region lookup holds exactly the codes seen. */
  lemma RegionLookupKeys(rows: seq<RegionRow>, lookup: map<string, string>)
    requires RegionLookup(rows) == Success(lookup)
    ensures forall code :: code in lookup <==>
              exists j :: 0 <= j < |rows| && IsoColumn in rows[j] && rows[j][IsoColumn] == code
  {
    TraverseElements(rows, RegionEntry);
    var entries := Traverse(rows, RegionEntry).value;
    UpsertKeys(entries);
    assert forall j :: 0 <= j < |rows| ==> RegionEntry(rows[j]) == Success(entries[j]);
  }

  /** Each code is mapped to the continent of its last row. */
  lemma RegionLookupLastWins(rows: seq<RegionRow>, lookup: map<string, string>, j: nat)
    requires RegionLookup(rows) == Success(lookup)
    requires j < |rows|
    requires forall j' :: j < j' < |rows| ==> IsoColumn in rows[j'] && IsoColumn in rows[j] ==>
               rows[j'][IsoColumn] != rows[j][IsoColumn]
    ensures IsoColumn in rows[j] && ContinentColumn in rows[j]
    ensures rows[j][IsoColumn] in lookup && lookup[rows[j][IsoColumn]] == rows[j][ContinentColumn]
  {
    TraverseElements(rows, RegionEntry);
    var entries := Traverse(rows, RegionEntry).value;
    assert forall j' :: 0 <= j' < |rows| ==> RegionEntry(rows[j']) == Success(entries[j']);
    UpsertLastWins(entries, j);
  }
}
