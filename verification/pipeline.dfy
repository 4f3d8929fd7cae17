/** The two scripts in sequence: the document extract_raw_data.py writes is
    the document clean_data.py annotates. Writing JSON and reading it back is
    modelled as the obvious conversion, with each parsed number becoming a
    finite float. */
module Pipeline {
  import opened Wrappers
  import opened Extended
  import opened Dicts
  import opened Json
  import opened CleanData
  import opened ExtractRawData
  import CleanDataProperties

  function CellToJson(cell: Cell): Value {
    match cell
    case Some(s) => Str(s)
    case None => Null
  }

  function YearsToJson(values: Dict<real>): (r: Dict<Value>)
    ensures |r| == |values|
  {
    seq(|values|, i requires 0 <= i < |values| => (values[i].0, Num(Fin(values[i].1))))
  }

  function RecordToJson(record: CountryRecord): Value {
    Obj([("country", CellToJson(record.country)),
         ("code", CellToJson(record.code)),
         ("values", Obj(YearsToJson(record.values)))])
  }

  function RecordsToJson(records: seq<CountryRecord>): (r: seq<Value>)
    ensures |r| == |records|
  {
    seq(|records|, i requires 0 <= i < |records| => RecordToJson(records[i]))
  }

  /** The document `json.dump(output)` writes, as `json.load` reads it back. */
  function OutputToJson(output: Output): Value {
    Obj([("name", Str(output.name)),
         ("unit", Str(output.unit)),
         ("source", Str(output.source)),
         ("metric_id", Str(output.metricId)),
         ("data", Arr(RecordsToJson(output.data)))])
  }

  /** Every parsed value of every record, record by record. */
  function ParsedValues(records: seq<CountryRecord>): (r: seq<ExtReal>)
    ensures forall x :: x in r ==> x.Fin?
  {
    if |records| == 0 then []
    else
      var values := records[0].values;
      seq(|values|, i requires 0 <= i < |values| => Fin(values[i].1)) + ParsedValues(records[1..])
  }

  /** The numbers the maximum scans see in an extracted document are exactly
      the parsed CSV values. */
  lemma {:induction false} RecordsNumerics(records: seq<CountryRecord>)
    ensures AllNumerics(RecordsToJson(records)) == Success(ParsedValues(records))
  {
    if |records| > 0 {
      RecordsNumerics(records[1..]);
      var values := records[0].values;
      var json := RecordsToJson(records);
      assert json[1..] == RecordsToJson(records[1..]);
      var fields := RecordToJson(records[0]).fields;
      assert json[0].fields == fields && fields[2..] == [("values", Obj(YearsToJson(values)))];
      assert Lookup(fields, "values") == Lookup(fields[1..], "values") == Lookup(fields[2..], "values");
      var vals := YearValues(json[0]).value;
      assert forall i :: 0 <= i < |vals| ==> vals[i] == Num(Fin(values[i].1));
      NumericsOfNumbers(vals, values);
    }
  }

  lemma {:induction false} NumericsOfNumbers(vals: seq<Value>, values: Dict<real>)
    requires |vals| == |values|
    requires forall i :: 0 <= i < |vals| ==> vals[i] == Num(Fin(values[i].1))
    ensures Numerics(vals) == seq(|values|, i requires 0 <= i < |values| => Fin(values[i].1))
  {
    if |vals| > 0 {
      NumericsOfNumbers(vals[1..], values[1..]);
    }
  }

  /** Every record of an extracted document passes the real-country test
      without raising: its code is a string or null. */
  lemma RecordsFilterable(records: seq<CountryRecord>)
    ensures FilterEntries(RecordsToJson(records)).Success?
  {
    var json := RecordsToJson(records);
    forall i | 0 <= i < |json|
      ensures KeepEntry(json[i]).Success?
    {
      assert Lookup(json[i].fields, "code") == Some(CellToJson(records[i].code));
    }
  }

  /** The `data` entries of an extracted document are its records. */
  lemma OutputEntries(output: Output)
    ensures DataEntries(OutputToJson(output)) == Success(RecordsToJson(output.data))
  {
    var f := OutputToJson(output).fields;
    assert f[4..] == [("data", Arr(RecordsToJson(output.data)))];
    assert Lookup(f, "data") == Lookup(f[1..], "data") == Lookup(f[2..], "data")
        == Lookup(f[3..], "data") == Lookup(f[4..], "data");
  }

  /** Whatever extract_raw_data.py writes, clean_data.py annotates without
      raising, and the `max_value` it stores is the largest parsed value
      (`-inf` when no cell held a number). */
  lemma CleaningAcceptsExtractedOutput(output: Output)
    ensures UpdateDocument(OutputToJson(output)).Success?
    ensures FindMaxValue(OutputToJson(output)).Success?
    ensures IsMax(FindMaxValue(OutputToJson(output)).value, ParsedValues(output.data))
  {
    var doc := OutputToJson(output);
    OutputEntries(output);
    RecordsNumerics(output.data);
    assert DocNumerics(doc) == Success(ParsedValues(output.data));
    RecordsFilterable(output.data);
    assert FilterOnlyCountries(doc).Success?;
    CleanDataProperties.UpdateSucceedsIff(doc);
  }
}
