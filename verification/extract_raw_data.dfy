/** The extraction step of scripts/extract_raw_data.py: from the rows of a
    World Bank CSV export, keep the rows of one indicator and turn each into a
    `{country, code, values}` record, then wrap the records with the
    indicator's metadata. Reading the CSV and writing the JSON are left out:
    rows arrive as `csv.DictReader` hands them over, and the result names the
    file the script would write. */
module ExtractRawData {
  import opened Wrappers
  import opened Dicts
  import opened Sequences

  /** A CSV cell; `csv.DictReader` fills the cells missing from a short row
      with None. */
  type Cell = Option<string>

  /** One CSV row: column name to cell, in header order. */
  type Row = Dict<Cell>

  datatype Indicator = Indicator(name: string, unit: string, outputJson: string)

  /** `indicator_map`: the indicators the script knows. */
  const IndicatorMap: map<string, Indicator> := map[
    "NY.GDP.MKTP.CD" := Indicator("GDP (current US$)", "USD", "public/data/gdp_per_capita.json"),
    "SP.POP.TOTL" := Indicator("Population", "people", "public/data/population.json")
  ]

  const Source: string := "World Bank"

  /** One output record; the year values keep the CSV's column order. */
  datatype CountryRecord = CountryRecord(country: Cell, code: Cell, values: Dict<real>)

  /** The document the script writes. */
  datatype Output = Output(name: string, unit: string, source: string, metricId: string,
                           data: seq<CountryRecord>)

  /** The output document and the path it is written to. */
  datatype Extracted = Extracted(path: string, output: Output)

  datatype ExtractError =
    | Usage                          // fewer than two command-line arguments
    | UnknownIndicator(code: string) // an indicator code not in `indicator_map`
    | MissingColumn(column: string)  // KeyError: the CSV header lacks a column the script reads
    | InvalidNumber(text: string)    // ValueError: `float()` rejects a cell

  /** `s.isdigit()`, restricted to the ASCII digits. */
  predicate IsDigits(s: string) {
    |s| > 0 && forall i :: 0 <= i < |s| ==> '0' <= s[i] <= '9'
  }

  /** A column the `values` comprehension keeps: an all-digit name and a
      cell that is neither "" nor None. */
  predicate IsYearCell(column: (string, Cell)) {
    IsDigits(column.0) && column.1.Some? && column.1.value != ""
  }

  /** `row[name]`. */
  function Column(row: Row, name: string): (r: Result<Cell, ExtractError>)
    ensures r.Success? <==> name in KeySet(row)
    ensures r.Success? ==> Lookup(row, name) == Some(r.value)
    ensures r.Failure? ==> r.error == MissingColumn(name)
  {
    match Lookup(row, name)
    case Some(cell) => Success(cell)
    case None => Failure(MissingColumn(name))
  }

  /** The `values` comprehension: each year column with a non-empty cell,
      mapped to `float()` of the cell (`parse`, which fails on text `float()`
      rejects); stops at the first cell that does not parse. */
  function ParseYears(row: Row, parse: string -> Option<real>): (r: Result<Dict<real>, ExtractError>)
    ensures r.Success? <==> forall i :: 0 <= i < |row| && IsYearCell(row[i]) ==> parse(row[i].1.value).Some?
    ensures r.Failure? ==> r.error.InvalidNumber?
  {
    if |row| == 0 then Success([])
    else
      assert forall i :: 1 <= i < |row| ==> row[i] == row[1..][i - 1];
      if IsYearCell(row[0]) then
        match parse(row[0].1.value)
        case None => Failure(InvalidNumber(row[0].1.value))
        case Some(v) =>
          var rest :- ParseYears(row[1..], parse);
          Success([(row[0].0, v)] + rest)
      else
        ParseYears(row[1..], parse)
  }

  /** The record the loop body builds for a selected row. */
  function RecordOf(row: Row, parse: string -> Option<real>): (r: Result<CountryRecord, ExtractError>)
    ensures r.Success? ==> Lookup(row, "Country Name") == Some(r.value.country)
    ensures r.Success? ==> Lookup(row, "Country Code") == Some(r.value.code)
    ensures r.Success? ==> ParseYears(row, parse) == Success(r.value.values)
    ensures r.Success? <==> "Country Name" in KeySet(row) && "Country Code" in KeySet(row)
                            && ParseYears(row, parse).Success?
  {
    var country :- Column(row, "Country Name");
    var code :- Column(row, "Country Code");
    var values :- ParseYears(row, parse);
    Success(CountryRecord(country, code, values))
  }

  /** The loop's guard `row["Indicator Code"] != indicator_code`, negated: the
      row belongs to the requested indicator. A None cell never matches. */
  function SelectsRow(code: string, row: Row): (r: Result<bool, ExtractError>)
    ensures r.Success? <==> "Indicator Code" in KeySet(row)
    ensures r == Success(true) <==> Lookup(row, "Indicator Code") == Some(Some(code))
  {
    var indicator :- Column(row, "Indicator Code");
    Success(indicator == Some(code))
  }

  /** The rows of one indicator, as a predicate on rows. */
  function Selector(code: string): Row -> bool {
    row => SelectsRow(code, row) == Success(true)
  }

  /** A row the loop gets through without raising: its "Indicator Code" can
      be read and, when it is the requested indicator, its record can be
      built. */
  predicate RowExtracts(code: string, row: Row, parse: string -> Option<real>) {
    && SelectsRow(code, row).Success?
    && (SelectsRow(code, row).value ==> RecordOf(row, parse).Success?)
  }

  /** The exception a row that does not go through raises. */
  function RowError(code: string, row: Row, parse: string -> Option<real>): ExtractError
    requires !RowExtracts(code, row, parse)
  {
    if SelectsRow(code, row).Failure? then SelectsRow(code, row).error else RecordOf(row, parse).error
  }

  /** The loop over the rows: one record per selected row, in row order.
      It raises exactly when some row does not go through. */
  function ExtractRecords(code: string, rows: seq<Row>, parse: string -> Option<real>)
    : (r: Result<seq<CountryRecord>, ExtractError>)
    ensures r.Success? <==> forall i :: 0 <= i < |rows| ==> RowExtracts(code, rows[i], parse)
    ensures r.Success? ==> |r.value| <= |rows|
  {
    if |rows| == 0 then Success([])
    else
      assert forall i :: 1 <= i < |rows| ==> rows[i] == rows[1..][i - 1];
      var selected :- SelectsRow(code, rows[0]);
      if selected then
        var record :- RecordOf(rows[0], parse);
        var rest :- ExtractRecords(code, rows[1..], parse);
        Success([record] + rest)
      else
        ExtractRecords(code, rows[1..], parse)
  }

  /** The whole script, given `sys.argv` and the CSV rows: the argument and
      indicator guards, the loop, and the output wrapper. */
  function Run(argv: seq<string>, rows: seq<Row>, parse: string -> Option<real>)
    : (r: Result<Extracted, ExtractError>)
    ensures |argv| < 3 ==> r == Failure(Usage)
    ensures |argv| >= 3 && argv[2] !in IndicatorMap ==> r == Failure(UnknownIndicator(argv[2]))
    ensures r.Success? ==>
              && |argv| >= 3 && argv[2] in IndicatorMap
              && r.value.path == IndicatorMap[argv[2]].outputJson
              && r.value.output.name == IndicatorMap[argv[2]].name
              && r.value.output.unit == IndicatorMap[argv[2]].unit
              && r.value.output.source == "World Bank"
              && r.value.output.metricId == argv[2]
              && ExtractRecords(argv[2], rows, parse) == Success(r.value.output.data)
    ensures |argv| >= 3 && argv[2] in IndicatorMap ==>
              && (r.Success? <==> ExtractRecords(argv[2], rows, parse).Success?)
              && (r.Failure? ==> r.error == ExtractRecords(argv[2], rows, parse).error)
  {
    if |argv| < 3 then Failure(Usage)
    else
      var code := argv[2];
      if code !in IndicatorMap then Failure(UnknownIndicator(code))
      else
        var indicator := IndicatorMap[code];
        var data :- ExtractRecords(code, rows, parse);
        Success(Extracted(indicator.outputJson, Output(indicator.name, indicator.unit, Source, code, data)))
  }
}
