# Positive Experience Index report: a Dafny model

`main.py` joins three reference tables with a survey of emotions:

- the World Bank GDP-per-capita and population tables;
- a code-to-continent table;
- the Gallup global emotions survey.

It joins them by country and writes one CSV row per surveyed country. Each row holds:

- the country's GDP per capita and population: the 2023 figure, else the 2022 figure, else nothing;
- its region;
- five positive indicators;
- their mean, the Positive Experience Index.

A second function, defined but not called by the script's `__main__` block, lists the surveyed countries that have no GDP figure.

This project models that logic over inputs that are already parsed:

- a table's rows are sequences of cell strings under a header row;
- a JSON document is a map;
- a Python `dict` filled in a loop is a Dafny `map`, plus its key order where the code iterates over it.

Python exceptions are `Failure` values of `Collections.Error`:

- `ValueError` from `list.index` becomes `ColumnNotInHeader`;
- `IndexError` becomes `CellOutOfRange`;
- `KeyError` becomes `KeyNotFound`;
- `ZeroDivisionError` becomes `DivisionByZero`.

A loop that raises ends with the first failing iteration (`Collections.Traverse`).

Modules:

- `Wrappers`: `Option` and `Result`.
- `Collections`: the built-in behaviour the script relies on:
  - `list.index`;
  - `dict.get`;
  - a dict's contents and key order after successive `d[k] = v` (`Upsert`, `InsertionOrder`);
  - an order-preserving filter;
  - a loop that stops at its first exception.
- `Loaders`: `get_gdp_lookup`, `get_population_lookup` and `get_region_lookup`. The first two share `BuildLatestYearLookup`, which is specified by `LatestYearLookup`.
- `Emotions`: `get_gallup_emotions_data`. The document's `qInfo` and `data` arrive as a `Survey`. The result is an `EmotionsTable`: the records, plus the dict's iteration order.
- `ExperienceIndex`: the index expression of line 141.
- `Report`: `check_for_missing_gdp_entries` and `write_emotions_gdp_population_csv`, and the per-country join inside the latter.
  - A `ReportRun` records three things: the rows written, the `missing_entries` list, and the exception that ended the loop, if one did.
  - Rows written before an exception stay in the file, so they stay in the run.

Every loop of the script is a method with loop invariants. Each method is proved equal to a specification function, and the lemmas state the script's rules about those functions. Examples:

- `Loaders.BuildLatestYearLookup` is proved equal to `Loaders.LatestYearLookup`;
- `Emotions.FillTable` to `Emotions.TableOf`;
- `Report.WriteReport` to `Report.ReportOf`, through `Report.JoinCountry`.

The number conversion `float(cell)` is a total function `parseFloat: string -> real` supplied by the caller. `int(float(cell))` is `TruncateTowardZero` of it, written out.

Three behaviours of the code the model keeps:

- A surveyed country without an entry in the country-code document gets no row. `country_codes[country]` at main.py:127 raises `KeyError`, which ends the report. The rows already written stay in the file. `Report.ReportFollowsSurvey` states this.
- A country with none of the five indicators present gets no row either. The division at main.py:141 raises `ZeroDivisionError`, which also ends the report.
- The region lookup's assignment evaluates `row['continent']` before `row['iso3']`. So a `KeyError` names `continent` whenever both columns are missing (`Loaders.RegionEntry`).

## Model

| member | source | states |
|---|---|---|
| Collections.IndexOf | main.py:18-20 | `headers.index(column)`: None exactly when the column is not in the header, otherwise its first position |
| Collections.GetOrAbsent | main.py:128-129 | `d.get(code)`: present exactly when the key is in the dict with a non-None value, and then that value |
| Collections.InsertionOrder | main.py:66 | the dict's key order contains exactly the keys assigned, each once |
| Collections.InsertionOrderFollowsFirstAssignment | main.py:66 | of two keys, the one earlier in the key order was assigned before the other was first assigned, including when keys are assigned repeatedly |
| Loaders.ReadColumn | main.py:18-20 | a cell is read exactly when the header has the column and the row reaches it. A missing column raises ValueError, a short row IndexError, and otherwise the result is the cell at the column's first position |
| Loaders.SelectLatest | main.py:22-27 | the 2023 cell when non-empty, else the 2022 cell when non-empty, and absent exactly when both are empty |
| Loaders.RowEntry | main.py:17-27 | an empty row assigns nothing. A non-empty row succeeds exactly when all three columns can be read, and then assigns the year selection under its country code |
| Loaders.BuildLatestYearLookup | main.py:16-27 | the loading loop returns exactly `LatestYearLookup`, including the first row's error |
| Loaders.GetGdpLookup | main.py:16-29 | the GDP lookup is the latest-year lookup with the values parsed as floats |
| Loaders.GetPopulationLookup | main.py:42-56 | the population lookup is the latest-year lookup with values `int(float(cell))` |
| Loaders.TruncateTowardZero | main.py:50 | `int()` of a float truncates toward zero: floor for non-negative values, ceiling for negative ones |
| Loaders.LookupSucceedsIff | main.py:17-20 | loading succeeds exactly when every non-empty row can be read in Country Code, 2023 and 2022 |
| Loaders.LookupFirstFailure | main.py:16-20 | a failed load reports the error of the first unreadable non-empty row, and every earlier non-empty row is readable |
| Loaders.LookupWithoutDataRows | main.py:16-20 | with no non-empty rows, the load gives the empty lookup even when the header lacks the columns |
| Loaders.LookupKeys | main.py:16-27 | the keys are exactly the codes of the non-empty rows, including rows whose two years are both empty |
| Loaders.LookupLastWins | main.py:18-27 | a code holds the year selection of its last row |
| Loaders.LookupIgnoresEmptyRow | main.py:17 | appending an empty row leaves the load unchanged |
| Loaders.LookupOverwrites | main.py:22-27 | a further readable row replaces any earlier value under its code with its own selection |
| Loaders.RegionEntry | main.py:78 | a row is read exactly when it has both columns, a missing `continent` is reported first, and the row assigns its continent to its `iso3` code |
| Loaders.GetRegionLookup | main.py:74-79 | the loading loop returns exactly `RegionLookup` |
| Loaders.RegionLookupSucceedsIff | main.py:77-78 | the region table loads exactly when every row has `iso3` and `continent` |
| Loaders.RegionLookupKeys | main.py:77-78 | the region lookup's keys are exactly the `iso3` codes seen |
| Loaders.RegionLookupLastWins | main.py:77-78 | each code maps to the continent of its last row |
| Emotions.LabelMapShape | main.py:63 | the label map exists exactly when each of q1..q10 has a label, and then lists the ten keys in order with their labels |
| Emotions.CellValue | main.py:69 | a response is absent exactly when it is `''`, and otherwise is the parsed number |
| Emotions.EntryRecord | main.py:66-69 | an entry yields its name and record exactly when it has a name and its record can be built |
| Emotions.BuildRecord | main.py:67-69 | the inner loop returns exactly `RecordOf`, including a KeyError for a missing question or `yes` field |
| Emotions.FillTable | main.py:65-69 | the outer loop returns exactly `TableOf`, and a table whose key order lists every name once |
| Emotions.GetGallupEmotionsData | main.py:62-71 | the loader returns exactly `EmotionsData`, and a table whose key order lists every name once |
| Emotions.RecordSucceedsIff | main.py:67-68 | a record is built exactly when the entry has every labelled question with a `yes` field |
| Emotions.RecordLabels | main.py:67-69 | a record's keys are exactly the labels of the label map |
| Emotions.RecordValue | main.py:67-69 | under a label, the record holds the converted response of the last question with that label |
| Emotions.EmotionsDataSucceedsIff | main.py:63-68 | loading succeeds exactly when every question has a label, and every entry has a name and a complete record |
| Emotions.TableRecordsHaveAllLabels | main.py:63-69 | every surveyed country's record has exactly the labels of q1..q10 |
| Emotions.TableNames | main.py:65-66 | the table's names are exactly the names of the entries, each listed once |
| Emotions.TableLastWins | main.py:65-69 | a name that occurs twice keeps the record of its last entry |
| Emotions.TableOrderFollowsDocument | main.py:65-66 | with distinct names, the table iterates in the document's order |
| Emotions.TableOrderByFirstEntry | main.py:65-66 | with repeated names, a name comes before another in the table when its first entry comes before the other's first entry |
| ExperienceIndex.PositiveExperienceIndex | main.py:141 | the index is the mean of the present indicators, and fails with ZeroDivisionError only when none is present |
| ExperienceIndex.PresentValuesMembers | main.py:141 | the values averaged are exactly the present indicators, each value as many times as there are indicators holding it, so the sum and the count are those of the present indicators |
| ExperienceIndex.IndexDefinedIff | main.py:141 | the index is defined exactly when at least one indicator is present |
| ExperienceIndex.MeanBetween | main.py:141 | a mean lies within any bounds on its terms |
| ExperienceIndex.IndexBetweenPresentValues | main.py:141 | the index lies between the smallest and the largest present indicator |
| ExperienceIndex.IndexOfFivePresent | main.py:135-141 | 0.5, 0.6, 0.7, 0.8 and 0.9 give 0.7 |
| ExperienceIndex.IndexOfTwoPresent | main.py:135-141 | 1.0 and 0.0, with three absent, give 0.5 |
| ExperienceIndex.IndexOfNonePresent | main.py:135-141 | five absent indicators give ZeroDivisionError |
| Report.RegionOrUnknown | main.py:130 | the stored continent for a code in the region lookup, and "Unknown" otherwise |
| Report.CheckMissingGdp | main.py:88-96 | the classification loop returns exactly `MissingGdpEntries` |
| Report.MissingGdpMembers | main.py:90-96 | an entry is listed exactly when it is a country without a code plus the suffix, or a country whose GDP is missing or None. Nothing else is listed |
| Report.MissingGdpSplit | main.py:90-96 | the diagnostic keeps survey order: the entries of earlier countries come first |
| Report.ReadIndicators | main.py:137-138 | the indicator loop returns exactly `Indicators` |
| Report.IndicatorsShape | main.py:135-138 | the five indicators are read exactly when the record has all five labels, and are then its values in order |
| Report.JoinOne | main.py:124-143 | one iteration of the report loop is exactly `JoinCountry` |
| Report.WriteReport | main.py:116-143 | the report loop returns exactly `ReportOf` over the table's key order |
| Report.ReportStops | main.py:123-143 | after the loop raises, the remaining countries change nothing |
| Report.ReportFollowsSurvey | main.py:123-143 | the i-th row is the i-th surveyed country, up to the first country that cannot be joined. The run completes exactly when there is one row per country. A country without a code ends it with KeyError |
| Report.ReportCompletesIff | main.py:123-141 | the report completes exactly when every surveyed country has a code, all five indicators and at least one present |
| Report.ReportRowContents | main.py:124-141 | every row holds the lookups of its country's code, the stored region or "Unknown", the record's five indicators in order, and the mean of the present ones |
| Report.ReportMissing | main.py:131-132 | a completed report's `missing_entries` are the surveyed countries lacking GDP or population, in survey order |
| Report.ReportMissingMembers | main.py:131-132 | a surveyed country is in the missing list exactly when its GDP or population is absent, and at most once |
| Report.CheckForMissingGdpEntries | main.py:81-105 | `check_for_missing_gdp_entries` loads GDP, then the survey, then returns the diagnostic list |
| Report.WriteEmotionsGdpPopulationCsv | main.py:107-143 | `write_emotions_gdp_population_csv` loads GDP, survey, population and regions in that order, then runs the report loop |

## Left out

- Opening files, the fixed paths, and the four metadata rows skipped before each World Bank header (main.py:8-15, 34-41) are file I/O. The header row and the data rows are inputs.
- `csv.reader`, `csv.DictReader` and `json.load` are library parsing. Their results are the inputs `Row`, `RegionRow`, `Survey` and the country-code map.
- The shape of the JSON: the model does not cover a missing top-level `qInfo` or `data` key, non-string codes, or non-string `yes` values such as `null`.
- `DictReader` fills a short row's missing columns with `None`. The model's region rows map column names to strings.
- `float()` on a cell is a foreign conversion, and so is the `ValueError` it raises on text that is not a number. The model uses a total caller-supplied `parseFloat`.
- IEEE floating-point rounding in the sum and the division is not modelled. Both are over Dafny `real`.
- The `print` output (main.py:98-103, 145-152) is console diagnostics. The functions return the lists that would be printed.
- `csv.DictWriter` serialises the header and rows as library formatting (main.py:117-121, 143). The model keeps the rows as values.
- Report.ReportMissing: the missing list is characterised for a completed report only. A run that raises has the same list up to the failing country, which includes that country when its own lookups are absent. `Report.JoinCountry` defines this, but no separate lemma states it.
