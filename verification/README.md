# Dataset preparation for the StatAtlas charts, in Dafny

This project models the offline pipeline that prepares the per-metric JSON
datasets the charts read. It is written in the scripts' own terms.

- **Extraction** (`scripts/extract_raw_data.py`). It reads a World Bank CSV export and
  keeps the rows of one indicator code. Each kept row becomes a
  `{country, code, values}` record. Its `values` holds the all-digit year columns
  that have a non-empty cell, each parsed with `float()`. The records are then
  wrapped with the indicator's `name` and `unit` from `indicator_map`, the
  source `"World Bank"` and the `metric_id`.
- **Annotation** (`scripts/clean_data.py`). It runs on a dataset document:
  - `find_max_value` scans every numeric year value of every entry, starting from `-inf`.
  - `filter_only_countries` keeps the entries whose `code` is in `REAL_COUNTRY_CODES`.
    - That set holds 193 current codes, those of the UN member states, plus twelve historical codes.
    - The filter drops regional and income-group aggregates such as `WLD`.
    - It also drops the other economies the World Bank reports, such as Puerto Rico (`PRI`), Hong Kong (`HKG`), Macao (`MAC`), West Bank and Gaza (`PSE`), Greenland (`GRL`) and Kosovo (`XKX`).
  - `find_max_value_only_countries` scans the kept entries.
  - `update_json_file` stores `max_value`, `only_countries_max_value` and `only_countries` in the document.

Modules:

| module | file | content |
|---|---|---|
| `Wrappers` | wrappers.dfy | `Option` and `Result` |
| `Extended` | extended.dfy | `NegInf \| Fin(v)`: a finite number or the `-inf` sentinel; Python's `max`; the "is the maximum of" relation |
| `Dicts` | dicts.dfy | Python dicts as insertion-ordered association lists: `d[k]`, `d.get`, `d[k] = v` |
| `Sequences` | sequences.dfy | order-preserving filter and the positions of the kept elements |
| `Json` | json.dfy | the values `json.load` returns |
| `Countries` | countries.dfy | `REAL_COUNTRY_CODES` and `is_real_country` |
| `CleanData` | clean_data.dfy | the scans, the filter and the document update |
| `CleanDataProperties` | clean_data_properties.dfy | properties that relate several annotation operations |
| `ExtractRawData` | extract_raw_data.dfy | the guards, the row loop, the `values` comprehension and the output wrapper |
| `ExtractRawDataProperties` | extract_raw_data_properties.dfy | properties of the extraction |
| `Pipeline` | pipeline.dfy | annotation applied to what extraction writes |

Modelling choices:
- A JSON object is a sequence of key/value pairs in insertion order.
  - `json.dump` writes keys in that order.
  - Assigning an existing key keeps its position; assigning a new key appends it.
- Python's exceptions on a malformed document are `Result` failures:
  - `AttributeError` on `.get` or `.values` of a non-dict;
  - `TypeError` for a `for` over a number, boolean or null;
  - `TypeError` for an unhashable list or dict looked up with `in` in the code set.
- A `for` over a dict visits its keys, and a `for` over a string visits its characters, as in Python.
- A CSV row is the sequence of (column, cell) pairs `csv.DictReader` yields, in header order.
  - A cell missing from a short row is `None`.
  - `float()` is a parameter `parse: string -> Option<real>`. `None` means `float()` raises `ValueError`.
- The current codes are grouped by initial letter. `IsRealCountry` looks a code up in the group of its own initial. `Countries.SameCodesAsTheScript` shows this is the script's membership test.

The output file for `NY.GDP.MKTP.CD` is `public/data/gdp_per_capita.json`, but that
indicator is total GDP in current US$, not a per-capita figure
(scripts/extract_raw_data.py:8-12). The model keeps the script's path.

## Model

| member | source | states |
|---|---|---|
| Extended.Max | scripts/clean_data.py:32 | `max(a, b)` returns one of its arguments, and the result is at least both |
| Extended.IsMaxSentinel | scripts/clean_data.py:27 | starting a scan from `-inf` does not change which value is the maximum |
| Extended.IsMaxChain | scripts/clean_data.py:27-32 | the scan invariant: chaining two partial scans gives the maximum over both parts |
| Extended.IsMaxUnique | scripts/clean_data.py:26-33 | a list of values has at most one maximum (with `-inf` for no values) |
| Dicts.Lookup | scripts/clean_data.py:29 | a lookup finds a value exactly when the key is present, and the value found is bound to the key |
| Dicts.Get | scripts/clean_data.py:29 | `d.get(k, default)` is the value bound to `k` when `k` is present, and `default` otherwise |
| Dicts.Assign | scripts/clean_data.py:57 | after `d[k] = v`, `k` maps to `v` and every other key is unchanged. An existing key keeps its position and a new key is appended; assigning the value already there changes nothing |
| Sequences.Positions | scripts/clean_data.py:36-39 | the selected indices are in range, strictly increasing, all satisfy the condition, and include every index that satisfies it |
| Sequences.FilterAtPositions | scripts/clean_data.py:36-39 | the order-preserving filter returns exactly the elements at the selected positions, in order |
| Countries.IsRealCountry | scripts/clean_data.py:23-24 | `is_real_country` holds for every historical code, and only for three-letter upper-case codes, so `""` is never real |
| Countries.SameCodesAsTheScript | scripts/clean_data.py:4-24 | a code is real exactly when it is historical or in one of the lists of current codes |
| Countries.FiledUnderItsInitial | scripts/clean_data.py:5-18 | every current code is three upper-case letters and is filed under its own initial |
| Countries.HistoricalCodesAreReal | scripts/clean_data.py:20-24 | "SUN", "YUG", "CSK" and every other historical code count as real |
| Countries.AggregatesAreNotReal | scripts/clean_data.py:4-24 | World Bank aggregates such as "WLD" (World) and "EUU" (European Union) are not real countries |
| Countries.NonMemberEconomiesAreNotReal | scripts/clean_data.py:4-24 | economies outside the UN member states, such as "PRI", "HKG", "MAC", "PSE", "GRL" and "XKX", are not real either |
| CleanData.Iterate | scripts/clean_data.py:28 | a `for` loop succeeds exactly on a list, dict or string. It visits a list's elements, each key of a dict in order, or each character of a string as a one-character string |
| CleanData.DataEntries | scripts/clean_data.py:28 | `data.get("data", [])` fails on a non-dict, gives no entries when the key is missing, and gives the list when `data` holds one |
| CleanData.YearValues | scripts/clean_data.py:29-30 | `entry.get("values", {}).values()` succeeds exactly when the entry and its `values` are dicts, and yields the `values` dict's values in order, one per year |
| CleanData.Numerics | scripts/clean_data.py:31 | a number passes the `isinstance` test exactly when it occurs as a numeric year value |
| CleanData.AllNumerics | scripts/clean_data.py:28-31 | collecting the numeric values succeeds exactly when every entry's `values` can be read |
| CleanData.MaxOverValues | scripts/clean_data.py:30-32 | the inner loop leaves the maximum of the running value and the numeric year values |
| CleanData.MaxOverEntries | scripts/clean_data.py:28-32 | the outer loop succeeds exactly when every entry is well-formed, fails with the same error, and leaves the maximum of the running value and all numeric values |
| CleanData.FindMaxValue | scripts/clean_data.py:26-33 | `find_max_value` is `-inf` when there is no numeric value; otherwise it is one of the numeric values and at least all of them. It fails exactly when reading the entries fails |
| CleanData.FindMaxValueOnlyCountries | scripts/clean_data.py:41-48 | the same maximum property over a list of entries handed over directly |
| CleanData.CodeIsReal | scripts/clean_data.py:23-24 | `code in REAL_COUNTRY_CODES` raises exactly for a list or dict, and is true exactly for a string in the set |
| CleanData.KeepEntry | scripts/clean_data.py:38 | the condition raises exactly for a non-dict entry or a list or dict `code`. It keeps an entry exactly when its `code` is a real-country string, and drops an entry without `code` |
| CleanData.FilterEntries | scripts/clean_data.py:36-39 | the comprehension succeeds exactly when every entry's code can be looked up, and keeps only input entries whose code is real |
| CleanData.FilterOnlyCountries | scripts/clean_data.py:35-39 | `filter_only_countries` fails on a non-dict document, returns `[]` without `data`, succeeds exactly when the entries can be read and every code looked up, and keeps only real-country entries of `data` |
| CleanData.StoreResults | scripts/clean_data.py:57-67 | after the three assignments each key holds its result, every other key is unchanged, and the key set grows by exactly those three |
| CleanData.UpdateDocument | scripts/clean_data.py:55-67 | the update fails on a non-dict document. On success `max_value` holds `find_max_value` of the original document, every other key except the three written ones is unchanged, and exactly those three are added |
| CleanDataProperties.FilterEntriesIsFilter | scripts/clean_data.py:36-39 | the comprehension is the order-preserving filter on entries with a real code |
| CleanDataProperties.FilterKeepsExactlyTheCountries | scripts/clean_data.py:35-39 | the kept entries are exactly the input entries at the positions with a real code, in input order |
| CleanDataProperties.MissingCodeIsDropped | scripts/clean_data.py:38 | an entry without a `code` key is looked up as `""` and dropped |
| CleanDataProperties.MissingDataIsEmpty | scripts/clean_data.py:28-38 | without a `data` key the maximum stays `-inf` and the filter returns `[]` |
| CleanDataProperties.NumericsIgnoreNonNumbers | scripts/clean_data.py:31 | replacing or removing a non-numeric year value leaves the numbers the scans see unchanged |
| CleanDataProperties.NonNumericYearIgnored | scripts/clean_data.py:31-32 | a non-numeric year value, replaced or removed, never changes the inner scan's result |
| CleanDataProperties.FindMaxDependsOnlyOnNumbers | scripts/clean_data.py:26-33 | two documents with the same numeric year values have the same `find_max_value` |
| CleanDataProperties.AllNumericsAreEntryNumerics | scripts/clean_data.py:28-31 | a number is seen by the scan over a list of entries exactly when it is a numeric year value of one of the entries |
| CleanDataProperties.EntryNumericsAreItsYearValues | scripts/clean_data.py:29-31 | a number passes the `isinstance` test for an entry exactly when some year of its `values` dict holds it |
| CleanDataProperties.ScanIsMaxOfYearValues | scripts/clean_data.py:41-48 | the scan over a list of entries is at least every numeric year value of every entry and, unless it is `-inf`, is the value of some year of some entry |
| CleanDataProperties.MaxValueIsMaxOfYearValues | scripts/clean_data.py:26-33 | `find_max_value` is at least every numeric year value of every entry of `data` and, unless it is `-inf`, is the value of some year of some entry |
| CleanDataProperties.OnlyCountriesScanIsFindMax | scripts/clean_data.py:26-48 | `find_max_value_only_countries(L)` equals `find_max_value({"data": L})` |
| CleanDataProperties.FilterKeepsNumerics | scripts/clean_data.py:35-48 | every numeric value of a kept entry is a numeric value of the whole list |
| CleanDataProperties.OnlyCountriesMaxBounded | scripts/clean_data.py:56-64 | `only_countries_max_value <= max_value`, and the second scan cannot fail once the first succeeded |
| CleanDataProperties.DataEntriesFrame | scripts/clean_data.py:57-60 | storing `max_value` does not change the entries `filter_only_countries` then reads |
| CleanDataProperties.UpdateSucceedsIff | scripts/clean_data.py:55-67 | the update succeeds exactly when both `find_max_value` and `filter_only_countries` succeed on the original document, and stores results computed from it |
| CleanDataProperties.UpdateFrame | scripts/clean_data.py:55-67 | the update changes no key except `max_value`, `only_countries_max_value` and `only_countries` (`data` is untouched), and adds exactly those keys |
| CleanDataProperties.UpdateStoresResults | scripts/clean_data.py:55-67 | the stored `max_value` and `only_countries_max_value` are the maxima of all numeric values and of the kept entries' values, in that order of size. `only_countries` is the filtered list |
| CleanDataProperties.StoreResultsTwice | scripts/clean_data.py:57-67 | storing the same three results twice is storing them once |
| CleanDataProperties.UpdateIdempotent | scripts/clean_data.py:55-67 | running the update on its own output gives the same document |
| ExtractRawData.Column | scripts/extract_raw_data.py:44-47 | `row[name]` succeeds exactly when the header has the column, returns its cell, and otherwise raises `KeyError` |
| ExtractRawData.ParseYears | scripts/extract_raw_data.py:49 | the comprehension succeeds exactly when every non-empty all-digit column parses, and otherwise fails with `ValueError` |
| ExtractRawData.RecordOf | scripts/extract_raw_data.py:46-54 | a record copies the "Country Name" and "Country Code" cells verbatim, and its `values` is the row's year-column comprehension. It is built exactly when both columns exist and the years parse |
| ExtractRawData.SelectsRow | scripts/extract_raw_data.py:44-45 | a row is kept exactly when its "Indicator Code" cell is the requested code; reading it fails exactly when the column is missing |
| ExtractRawData.ExtractRecords | scripts/extract_raw_data.py:43-54 | the row loop succeeds exactly when every row has an "Indicator Code" column and every row of the requested indicator yields a record |
| ExtractRawData.Run | scripts/extract_raw_data.py:22-62 | fewer than two arguments gives the usage error. An unknown indicator gives its own error. On success `name`, `unit` and the output path come from `indicator_map`, `source` is "World Bank", `metric_id` is the requested code and `data` is the records of the row loop. With valid arguments the script succeeds exactly when the row loop does, and otherwise raises the loop's error |
| ExtractRawDataProperties.GuardStopsBeforeRows | scripts/extract_raw_data.py:22-31 | the two guards end the script whatever the CSV holds |
| ExtractRawDataProperties.KnownIndicators | scripts/extract_raw_data.py:7-19 | the two known indicators, with their names, units and output files |
| ExtractRawDataProperties.ParseYearsIsFilter | scripts/extract_raw_data.py:49 | `values` lists the non-empty year columns in column order, each mapped to the parse of its cell |
| ExtractRawDataProperties.YearValuesAreTheYearColumns | scripts/extract_raw_data.py:49 | the keys of `values` are exactly the all-digit column names whose cell is neither "" nor None, in column order |
| ExtractRawDataProperties.RecordsAreSelectedRows | scripts/extract_raw_data.py:43-54 | one record per selected row, in row order, each built from its row |
| ExtractRawDataProperties.RecordsFollowRows | scripts/extract_raw_data.py:43-54 | record `k` comes from the `k`-th row of the requested indicator, copies its country name and code, and holds that row's parsed year columns |
| ExtractRawDataProperties.LoopRaisesFirstRowError | scripts/extract_raw_data.py:43-54 | when the loop raises, it raises the `KeyError` or `ValueError` of the first row that does not go through, and every earlier row goes through |
| ExtractRawDataProperties.OtherIndicatorRowIgnored | scripts/extract_raw_data.py:44-45 | removing a row of another indicator changes neither the records nor the error |
| Pipeline.RecordsNumerics | scripts/clean_data.py:28-31 | in an extracted document the numbers the scans see are exactly the parsed CSV values, record by record |
| Pipeline.CleaningAcceptsExtractedOutput | scripts/clean_data.py:55-67 | annotation never fails on what extraction writes, and the stored `max_value` is the largest parsed value (`-inf` if none) |

## Left out

- File reading and writing, `json.load` and `json.dump`, `print`, `argparse` and `sys.exit`. The guards of the extraction script are error results; the annotation works on the loaded value and returns the value to be written.
- CSV tokenising by `csv.DictReader`, and BOM stripping by the `utf-8-sig` codec that `open` uses: rows arrive already split into (column, cell) pairs.
- An over-long CSV row, whose extra cells `csv.DictReader` files under the key None. In the script `None.isdigit()` would then raise; the model's column names are always strings.
- Duplicate CSV header names and duplicate JSON object keys: the script sees one value per key, and the model assumes well-formed input.
- IEEE floating point: finite numbers are reals. NaN, `+inf`, rounding and the text `float()` accepts are not modelled; `float()` is a parameter.
- The Python quirk that `True` and `False` pass `isinstance(..., (int, float))`: the model treats booleans as non-numeric.
- `str.isdigit` accepts non-ASCII digits as well; the model accepts only `0`-`9`.
- Pipeline.CleaningAcceptsExtractedOutput: stated for documents whose numbers are finite, which is what `float()` returns for the finite cells the World Bank exports carry; a NaN or infinite cell is outside the model.
- The TypeScript chart front-end that consumes the annotated documents is not part of this model.
