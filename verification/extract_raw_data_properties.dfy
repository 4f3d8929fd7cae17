/** Properties of the extraction step of scripts/extract_raw_data.py: the
    guards stop the script before any row matters, rows of other indicators
    contribute nothing, the records follow the selected rows one for one and
    in order, and `values` holds exactly the non-empty year columns. */
module ExtractRawDataProperties {
  import opened Wrappers
  import opened Dicts
  import opened Sequences
  import opened ExtractRawData

  /** Too few arguments, or an unknown indicator code, ends the script
      whatever the CSV holds and however its cells would parse. */
  lemma GuardStopsBeforeRows(argv: seq<string>, rows1: seq<Row>, parse1: string -> Option<real>,
                             rows2: seq<Row>, parse2: string -> Option<real>)
    requires |argv| < 3 || argv[2] !in IndicatorMap
    ensures Run(argv, rows1, parse1).Failure?
    ensures Run(argv, rows1, parse1) == Run(argv, rows2, parse2)
  {
  }

  /** The indicators the script knows, with their names, units and output
      files. */
  lemma KnownIndicators()
    ensures IndicatorMap.Keys == {"NY.GDP.MKTP.CD", "SP.POP.TOTL"}
    ensures IndicatorMap["NY.GDP.MKTP.CD"] == Indicator("GDP (current US$)", "USD", "public/data/gdp_per_capita.json")
    ensures IndicatorMap["SP.POP.TOTL"] == Indicator("Population", "people", "public/data/population.json")
  {
  }

  // ---------------------------------------------------------------------------
  // The `values` comprehension

  /** `values` lists the year columns with a non-empty cell, in column order,
      each mapped to the parse of its cell. */
  lemma {:induction false} ParseYearsIsFilter(row: Row, parse: string -> Option<real>)
    requires ParseYears(row, parse).Success?
    ensures var years := Filter(row, IsYearCell);
            var values := ParseYears(row, parse).value;
            && |values| == |years|
            && forall k :: 0 <= k < |values| ==>
                 && IsYearCell(years[k])
                 && values[k].0 == years[k].0
                 && parse(years[k].1.value) == Some(values[k].1)
  {
    if |row| > 0 {
      assert ParseYears(row[1..], parse).Success?;
      ParseYearsIsFilter(row[1..], parse);
      var years := Filter(row, IsYearCell);
      var values := ParseYears(row, parse).value;
      var rest := ParseYears(row[1..], parse).value;
      var yearsRest := Filter(row[1..], IsYearCell);
      if IsYearCell(row[0]) {
        var v := parse(row[0].1.value).value;
        assert years == [row[0]] + yearsRest;
        assert values == [(row[0].0, v)] + rest;
        forall k | 1 <= k < |values|
          ensures values[k] == rest[k - 1] && years[k] == yearsRest[k - 1]
        {
        }
      } else {
        assert years == yearsRest && values == rest;
      }
    }
  }

  /** The keys of `values` are exactly the row's all-digit column names whose
      cell is neither "" nor None, in column order; each value is the parse of
      that cell. */
  lemma YearValuesAreTheYearColumns(row: Row, parse: string -> Option<real>)
    requires ParseYears(row, parse).Success?
    ensures var idx := Positions(row, IsYearCell);
            var values := ParseYears(row, parse).value;
            && |values| == |idx|
            && forall k :: 0 <= k < |values| ==>
                 && IsYearCell(row[idx[k]])
                 && values[k].0 == row[idx[k]].0
                 && parse(row[idx[k]].1.value) == Some(values[k].1)
  {
    ParseYearsIsFilter(row, parse);
    FilterAtPositions(row, IsYearCell);
  }

  // ---------------------------------------------------------------------------
  // The row loop

  /** The records are those of the selected rows, one per row, in order. */
  lemma {:induction false} RecordsAreSelectedRows(code: string, rows: seq<Row>, parse: string -> Option<real>)
    requires ExtractRecords(code, rows, parse).Success?
    ensures var selected := Filter(rows, Selector(code));
            var records := ExtractRecords(code, rows, parse).value;
            && |records| == |selected|
            && forall k :: 0 <= k < |records| ==> RecordOf(selected[k], parse) == Success(records[k])
  {
    if |rows| > 0 {
      assert ExtractRecords(code, rows[1..], parse).Success?;
      RecordsAreSelectedRows(code, rows[1..], parse);
      var selected := Filter(rows, Selector(code));
      var records := ExtractRecords(code, rows, parse).value;
      var rest := ExtractRecords(code, rows[1..], parse).value;
      var selectedRest := Filter(rows[1..], Selector(code));
      if Selector(code)(rows[0]) {
        assert selected == [rows[0]] + selectedRest;
        assert records == [RecordOf(rows[0], parse).value] + rest;
        forall k | 0 <= k < |records|
          ensures RecordOf(selected[k], parse) == Success(records[k])
        {
          if k > 0 {
            assert selected[k] == selectedRest[k - 1] && records[k] == rest[k - 1];
          }
        }
      } else {
        assert selected == selectedRest && records == rest;
      }
    }
  }

  /** Output records appear in the order of their rows, exactly one for each
      row of the requested indicator, and each copies its row's
      "Country Name" and "Country Code" cells verbatim and holds its row's
      parsed year columns. */
  lemma RecordsFollowRows(code: string, rows: seq<Row>, parse: string -> Option<real>)
    requires ExtractRecords(code, rows, parse).Success?
    ensures var idx := Positions(rows, Selector(code));
            var records := ExtractRecords(code, rows, parse).value;
            && |records| == |idx|
            && forall k :: 0 <= k < |records| ==>
                 && Lookup(rows[idx[k]], "Indicator Code") == Some(Some(code))
                 && Lookup(rows[idx[k]], "Country Name") == Some(records[k].country)
                 && Lookup(rows[idx[k]], "Country Code") == Some(records[k].code)
                 && ParseYears(rows[idx[k]], parse) == Success(records[k].values)
                 && RecordOf(rows[idx[k]], parse) == Success(records[k])
  {
    RecordsAreSelectedRows(code, rows, parse);
    FilterAtPositions(rows, Selector(code));
  }

  /** When the loop raises, it raises the exception of the first row that
      does not go through; every row before it does. */
  lemma {:induction false} LoopRaisesFirstRowError(code: string, rows: seq<Row>, parse: string -> Option<real>)
    requires ExtractRecords(code, rows, parse).Failure?
    ensures exists i :: && 0 <= i < |rows|
                        && (forall j :: 0 <= j < i ==> RowExtracts(code, rows[j], parse))
                        && !RowExtracts(code, rows[i], parse)
                        && ExtractRecords(code, rows, parse).error == RowError(code, rows[i], parse)
  {
    if RowExtracts(code, rows[0], parse) {
      assert ExtractRecords(code, rows[1..], parse).Failure?;
      assert ExtractRecords(code, rows, parse).error == ExtractRecords(code, rows[1..], parse).error;
      LoopRaisesFirstRowError(code, rows[1..], parse);
      var i :| && 0 <= i < |rows[1..]|
               && (forall j :: 0 <= j < i ==> RowExtracts(code, rows[1..][j], parse))
               && !RowExtracts(code, rows[1..][i], parse)
               && ExtractRecords(code, rows[1..], parse).error == RowError(code, rows[1..][i], parse);
      assert forall j :: 1 <= j <= i ==> rows[j] == rows[1..][j - 1];
      assert rows[i + 1] == rows[1..][i];
    }
  }

  /** A row of another indicator contributes nothing: removing it changes
      neither the records nor the error. */
  lemma {:induction false} OtherIndicatorRowIgnored(code: string, rows: seq<Row>, parse: string -> Option<real>,
                                                    i: nat)
    requires i < |rows| && SelectsRow(code, rows[i]) == Success(false)
    ensures ExtractRecords(code, rows[..i] + rows[i + 1..], parse) == ExtractRecords(code, rows, parse)
  {
    var without := rows[..i] + rows[i + 1..];
    if i == 0 {
      assert without == rows[1..];
    } else {
      OtherIndicatorRowIgnored(code, rows[1..], parse, i - 1);
      assert without[0] == rows[0];
      assert without[1..] == rows[1..][..i - 1] + rows[1..][i..];
    }
  }
}
