/** The annotation step of scripts/clean_data.py: the two maximum scans, the
    real-country filter, and the update that adds their results to a dataset
    document. File reading and writing are left out; a document is the value
    `json.load` returned, and the update returns the value `json.dump` writes.
 */
module CleanData {
  import opened Wrappers
  import opened Extended
  import opened Dicts
  import opened Json
  import opened Sequences
  import Countries

  /** The exceptions the script raises on a document of the wrong shape. */
  datatype Error =
    | NotADict     // AttributeError: `.get` or `.values` on something that is not a dict
    | NotIterable  // TypeError: a `for` over a number, a boolean or null
    | Unhashable   // TypeError: a list or dict as the left operand of `in` on a set

  /** The items a Python `for` loop visits: the elements of a list, the keys
      of a dict, the one-character strings of a string. */
  function Iterate(v: Value): (r: Result<seq<Value>, Error>)
    ensures r.Success? <==> v.Arr? || v.Obj? || v.Str?
    ensures v.Arr? ==> r == Success(v.items)
    ensures v.Obj? ==> |r.value| == |v.fields| && forall i :: 0 <= i < |v.fields| ==> r.value[i] == Str(v.fields[i].0)
    ensures v.Str? ==> |r.value| == |v.s| && forall i :: 0 <= i < |v.s| ==> r.value[i] == Str([v.s[i]])
  {
    match v
    case Arr(items) => Success(items)
    case Obj(fields) => Success(seq(|fields|, i requires 0 <= i < |fields| => Str(fields[i].0)))
    case Str(s) => Success(seq(|s|, i requires 0 <= i < |s| => Str([s[i]])))
    case _ => Failure(NotIterable)
  }

  /** The entries `for entry in data.get("data", [])` visits. */
  function DataEntries(doc: Value): (r: Result<seq<Value>, Error>)
    ensures !doc.Obj? ==> r == Failure(NotADict)
    ensures doc.Obj? && "data" !in KeySet(doc.fields) ==> r == Success([])
    ensures doc.Obj? && Lookup(doc.fields, "data").Some? && Lookup(doc.fields, "data").value.Arr?
            ==> r == Success(Lookup(doc.fields, "data").value.items)
  {
    if doc.Obj? then Iterate(Get(doc.fields, "data", Arr([]))) else Failure(NotADict)
  }

  /** The year values `entry.get("values", {}).values()` visits. */
  function YearValues(entry: Value): (r: Result<seq<Value>, Error>)
    ensures r.Success? <==> entry.Obj? && Get(entry.fields, "values", Obj([])).Obj?
    ensures r.Success? ==> |r.value| == |Get(entry.fields, "values", Obj([])).fields|
    ensures r.Success? ==> forall i :: 0 <= i < |r.value| ==> r.value[i] == Get(entry.fields, "values", Obj([])).fields[i].1
    ensures entry.Obj? && "values" !in KeySet(entry.fields) ==> r == Success([])
  {
    if !entry.Obj? then Failure(NotADict)
    else
      var values := Get(entry.fields, "values", Obj([]));
      if !values.Obj? then Failure(NotADict)
      else Success(seq(|values.fields|, i requires 0 <= i < |values.fields| => values.fields[i].1))
  }

  /** The values that pass `isinstance(year_val, (int, float))`, in order. */
  function Numerics(vals: seq<Value>): (r: seq<ExtReal>)
    ensures |r| <= |vals|
    ensures forall x :: x in r <==> Num(x) in vals
  {
    if |vals| == 0 then []
    else
      assert forall v :: v in vals <==> v == vals[0] || v in vals[1..];
      (if vals[0].Num? then [vals[0].x] else []) + Numerics(vals[1..])
  }

  /** All numeric year values of all entries, entry by entry; fails as the
      scan fails on the first malformed entry. */
  function AllNumerics(entries: seq<Value>): (r: Result<seq<ExtReal>, Error>)
    ensures r.Success? <==> forall i :: 0 <= i < |entries| ==> YearValues(entries[i]).Success?
  {
    if |entries| == 0 then Success([])
    else
      var vals :- YearValues(entries[0]);
      var rest :- AllNumerics(entries[1..]);
      assert forall i :: 1 <= i < |entries| ==> entries[i] == entries[1..][i - 1];
      Success(Numerics(vals) + rest)
  }

  /** All numeric year values of a document's `data` entries. */
  function DocNumerics(doc: Value): Result<seq<ExtReal>, Error> {
    var entries :- DataEntries(doc);
    AllNumerics(entries)
  }

  /** The inner loop: `max_val = max(max_val, year_val)` over one entry's
      year values, skipping the ones that are not numbers. */
  function MaxOverValues(acc: ExtReal, vals: seq<Value>): (r: ExtReal)
    ensures IsMax(r, [acc] + Numerics(vals))
    decreases |vals|
  {
    if |vals| == 0 then acc
    else
      NumericsCons(vals);
      if vals[0].Num? then
        var r := MaxOverValues(Max(acc, vals[0].x), vals[1..]);
        MaxStep(acc, vals[0].x, r, Numerics(vals[1..]));
        r
      else
        assert Numerics(vals) == Numerics(vals[1..]);
        MaxOverValues(acc, vals[1..])
  }

  /** One unfolding of `Numerics`. */
  lemma NumericsCons(vals: seq<Value>)
    requires |vals| > 0
    ensures Numerics(vals) == (if vals[0].Num? then [vals[0].x] else []) + Numerics(vals[1..])
  {
  }

  /** One step of the scan: `max(acc, x)` followed by a scan of `rest` is a
      scan of `x` and `rest` from `acc`. */
  lemma MaxStep(acc: ExtReal, x: ExtReal, r: ExtReal, rest: seq<ExtReal>)
    requires IsMax(r, [Max(acc, x)] + rest)
    ensures IsMax(r, [acc] + ([x] + rest))
  {
    assert IsMax(Max(acc, x), [acc] + [x]);
    IsMaxChain(acc, Max(acc, x), r, [x], rest);
    assert [acc] + [x] + rest == [acc] + ([x] + rest);
  }

  /** The outer loop over the entries, carrying `max_val` from one entry to
      the next. */
  function MaxOverEntries(acc: ExtReal, entries: seq<Value>): (r: Result<ExtReal, Error>)
    ensures r.Success? <==> AllNumerics(entries).Success?
    ensures r.Failure? ==> r.error == AllNumerics(entries).error
    ensures r.Success? ==> IsMax(r.value, [acc] + AllNumerics(entries).value)
    decreases |entries|
  {
    if |entries| == 0 then Success(acc)
    else
      var vals :- YearValues(entries[0]);
      var next := MaxOverValues(acc, vals);
      var r := MaxOverEntries(next, entries[1..]);
      if r.Success? then
        IsMaxChain(acc, next, r.value, Numerics(vals), AllNumerics(entries[1..]).value);
        assert [acc] + Numerics(vals) + AllNumerics(entries[1..]).value
            == [acc] + AllNumerics(entries).value;
        r
      else
        r
  }

  /** `find_max_value(data)`: the largest numeric year value over all entries
      of `data["data"]`, or `-inf` when there is none. */
  function FindMaxValue(doc: Value): (r: Result<ExtReal, Error>)
    ensures r.Success? <==> DocNumerics(doc).Success?
    ensures r.Failure? ==> r.error == DocNumerics(doc).error
    ensures r.Success? ==> IsMax(r.value, DocNumerics(doc).value)
  {
    var entries :- DataEntries(doc);
    var r := MaxOverEntries(NegInf, entries);
    if r.Success? then
      IsMaxSentinel(r.value, AllNumerics(entries).value);
      r
    else
      r
  }

  /** `find_max_value_only_countries(data)`: the same scan over a list of
      entries handed over directly. */
  function FindMaxValueOnlyCountries(entries: seq<Value>): (r: Result<ExtReal, Error>)
    ensures r.Success? <==> AllNumerics(entries).Success?
    ensures r.Success? ==> IsMax(r.value, AllNumerics(entries).value)
  {
    var r := MaxOverEntries(NegInf, entries);
    if r.Success? then
      IsMaxSentinel(r.value, AllNumerics(entries).value);
      r
    else
      r
  }

  /** `is_real_country(code)` for whatever value the `code` key holds: a
      string is looked up, other scalars are never members, and a list or a
      dict cannot be looked up in a set at all. */
  function CodeIsReal(code: Value): (r: Result<bool, Error>)
    ensures r.Failure? <==> code.Arr? || code.Obj?
    ensures r == Success(true) <==> code.Str? && Countries.IsRealCountry(code.s)
  {
    match code
    case Str(s) => Success(Countries.IsRealCountry(s))
    case Arr(_) => Failure(Unhashable)
    case Obj(_) => Failure(Unhashable)
    case _ => Success(false)
  }

  /** The comprehension's condition `is_real_country(entry.get("code", ""))`. */
  function KeepEntry(entry: Value): (r: Result<bool, Error>)
    ensures !entry.Obj? ==> r == Failure(NotADict)
    ensures entry.Obj? && "code" !in KeySet(entry.fields) ==> r == Success(false)
    ensures r.Failure? <==> !entry.Obj? || (match Lookup(entry.fields, "code")
                                             case Some(c) => c.Arr? || c.Obj?
                                             case None => false)
    ensures r == Success(true) <==> entry.Obj? && exists s :: Lookup(entry.fields, "code") == Some(Str(s))
                                                              && Countries.IsRealCountry(s)
  {
    if entry.Obj? then CodeIsReal(Get(entry.fields, "code", Str(""))) else Failure(NotADict)
  }

  /** An entry the filter keeps. */
  predicate IsCountryEntry(entry: Value) {
    KeepEntry(entry) == Success(true)
  }

  /** The list comprehension of `filter_only_countries` over the entries. */
  function FilterEntries(entries: seq<Value>): (r: Result<seq<Value>, Error>)
    ensures r.Success? <==> forall i :: 0 <= i < |entries| ==> KeepEntry(entries[i]).Success?
    ensures r.Success? ==> |r.value| <= |entries|
    ensures r.Success? ==> forall e :: e in r.value ==> e in entries && IsCountryEntry(e)
  {
    if |entries| == 0 then Success([])
    else
      var keep :- KeepEntry(entries[0]);
      var rest :- FilterEntries(entries[1..]);
      assert forall i :: 1 <= i < |entries| ==> entries[i] == entries[1..][i - 1];
      Success(if keep then [entries[0]] + rest else rest)
  }

  /** `filter_only_countries(data)`: fails as reading the entries or looking
      a code up fails, and otherwise keeps some of the entries, all real. */
  function FilterOnlyCountries(doc: Value): (r: Result<seq<Value>, Error>)
    ensures !doc.Obj? ==> r == Failure(NotADict)
    ensures doc.Obj? && "data" !in KeySet(doc.fields) ==> r == Success([])
    ensures r.Success? <==> DataEntries(doc).Success?
                            && forall i :: 0 <= i < |DataEntries(doc).value| ==> KeepEntry(DataEntries(doc).value[i]).Success?
    ensures r.Success? ==> forall e :: e in r.value ==> e in DataEntries(doc).value && IsCountryEntry(e)
  {
    var entries :- DataEntries(doc);
    FilterEntries(entries)
  }

  /** The keys `update_json_file` writes. */
  const UpdatedKeys: set<string> := {"max_value", "only_countries_max_value", "only_countries"}

  /** The three assignments of `update_json_file`, in the script's order:
      each key then holds its result, and every other key is as it was. */
  function StoreResults(fields: Dict<Value>, maxValue: ExtReal, onlyCountries: seq<Value>,
                        onlyMax: ExtReal): (r: Dict<Value>)
    ensures Lookup(r, "max_value") == Some(Num(maxValue))
    ensures Lookup(r, "only_countries_max_value") == Some(Num(onlyMax))
    ensures Lookup(r, "only_countries") == Some(Arr(onlyCountries))
    ensures forall k :: k !in UpdatedKeys ==> Lookup(r, k) == Lookup(fields, k)
    ensures KeySet(r) == KeySet(fields) + UpdatedKeys
  {
    var withMax := Assign(fields, "max_value", Num(maxValue));
    var withOnlyMax := Assign(withMax, "only_countries_max_value", Num(onlyMax));
    Assign(withOnlyMax, "only_countries", Arr(onlyCountries))
  }

  /** The map update inside `update_json_file`: store `max_value`, then
      filter the document that now holds it, then store
      `only_countries_max_value` and `only_countries`. */
  function UpdateDocument(doc: Value): (r: Result<Value, Error>)
    ensures !doc.Obj? ==> r == Failure(NotADict)
    ensures r.Success? ==> && doc.Obj? && r.value.Obj?
                           && FindMaxValue(doc).Success?
                           && Lookup(r.value.fields, "max_value") == Some(Num(FindMaxValue(doc).value))
                           && (forall k :: k !in UpdatedKeys ==> Lookup(r.value.fields, k) == Lookup(doc.fields, k))
                           && KeySet(r.value.fields) == KeySet(doc.fields) + UpdatedKeys
  {
    var maxValue :- FindMaxValue(doc);
    match doc
    case Obj(fields) =>
      var onlyCountries :- FilterOnlyCountries(Obj(Assign(fields, "max_value", Num(maxValue))));
      var onlyMax :- FindMaxValueOnlyCountries(onlyCountries);
      Success(Obj(StoreResults(fields, maxValue, onlyCountries, onlyMax)))
    case _ => Failure(NotADict)
  }
}
