/** Properties of the annotation step of scripts/clean_data.py that relate
    several of its operations: the filter keeps exactly the real-country
    entries in order, the maxima ignore everything but numbers, the
    real-country maximum never exceeds the overall one, and the document
    update touches three keys only and is idempotent. */
module CleanDataProperties {
  import opened Wrappers
  import opened Extended
  import opened Dicts
  import opened Json
  import opened Sequences
  import opened CleanData
  import Countries

  // ---------------------------------------------------------------------------
  // The real-country filter

  /** The script's comprehension is the plain order-preserving filter on
      the entries whose code is real, whenever no entry makes it raise. */
  lemma {:induction false} FilterEntriesIsFilter(entries: seq<Value>)
    requires FilterEntries(entries).Success?
    ensures FilterEntries(entries).value == Filter(entries, IsCountryEntry)
  {
    if |entries| > 0 {
      assert FilterEntries(entries[1..]).Success?;
      FilterEntriesIsFilter(entries[1..]);
    }
  }

  /** The filter returns exactly the entries at the positions whose code is
      real, in their original order; with the contract of `Positions` this
      says every kept entry is real and every dropped one is not. */
  lemma FilterKeepsExactlyTheCountries(entries: seq<Value>)
    requires FilterEntries(entries).Success?
    ensures var kept := FilterEntries(entries).value;
            var idx := Positions(entries, IsCountryEntry);
            && |kept| == |idx|
            && forall k :: 0 <= k < |kept| ==> kept[k] == entries[idx[k]]
  {
    FilterEntriesIsFilter(entries);
    FilterAtPositions(entries, IsCountryEntry);
  }

  /** An entry without a `code` key is looked up as the empty string, which is
      not a real-country code, so the filter drops it. */
  lemma MissingCodeIsDropped(entry: Value)
    requires entry.Obj? && "code" !in KeySet(entry.fields)
    ensures KeepEntry(entry) == Success(false)
  {
  }

  /** A document without a `data` key has no entries: the scan stays at the
      sentinel and the filter returns the empty list. */
  lemma MissingDataIsEmpty(doc: Value)
    requires doc.Obj? && "data" !in KeySet(doc.fields)
    ensures FindMaxValue(doc) == Success(NegInf)
    ensures FilterOnlyCountries(doc) == Success([])
  {
    assert DataEntries(doc) == Success([]);
  }

  // ---------------------------------------------------------------------------
  // The maximum scans

  /** Overwriting a non-numeric year value with another non-numeric value, or
      removing it, leaves the numbers the scans see unchanged. */
  lemma {:induction false} NumericsIgnoreNonNumbers(vals: seq<Value>, k: nat, v: Value)
    requires k < |vals| && !vals[k].Num? && !v.Num?
    ensures Numerics(vals[k := v]) == Numerics(vals)
    ensures Numerics(vals[..k] + vals[k + 1..]) == Numerics(vals)
  {
    if k == 0 {
      assert vals[k := v][1..] == vals[1..];
      assert vals[..k] + vals[k + 1..] == vals[1..];
    } else {
      NumericsIgnoreNonNumbers(vals[1..], k - 1, v);
      assert vals[k := v][0] == vals[0];
      assert vals[k := v][1..] == vals[1..][k - 1 := v];
      var removed := vals[..k] + vals[k + 1..];
      assert removed[0] == vals[0];
      assert removed[1..] == vals[1..][..k - 1] + vals[1..][k..];
    }
  }

  /** A non-numeric year value (null, a string, a boolean, a list, a dict)
      never affects the inner scan, whether it is replaced or removed. */
  lemma NonNumericYearIgnored(acc: ExtReal, vals: seq<Value>, k: nat, v: Value)
    requires k < |vals| && !vals[k].Num? && !v.Num?
    ensures MaxOverValues(acc, vals[k := v]) == MaxOverValues(acc, vals)
    ensures MaxOverValues(acc, vals[..k] + vals[k + 1..]) == MaxOverValues(acc, vals)
  {
    NumericsIgnoreNonNumbers(vals, k, v);
    IsMaxUnique(MaxOverValues(acc, vals[k := v]), MaxOverValues(acc, vals), [acc] + Numerics(vals));
    IsMaxUnique(MaxOverValues(acc, vals[..k] + vals[k + 1..]), MaxOverValues(acc, vals),
                [acc] + Numerics(vals));
  }

  /** `find_max_value` depends on nothing but the numbers it finds: two
      documents with the same numeric year values, in the same order, have the
      same maximum (and fail alike). */
  lemma FindMaxDependsOnlyOnNumbers(doc1: Value, doc2: Value)
    requires DocNumerics(doc1) == DocNumerics(doc2)
    ensures FindMaxValue(doc1) == FindMaxValue(doc2)
  {
    if FindMaxValue(doc1).Success? {
      IsMaxUnique(FindMaxValue(doc1).value, FindMaxValue(doc2).value, DocNumerics(doc1).value);
    }
  }

  /** The numbers the scans see over a list of entries are exactly the
      numeric year values of its entries. */
  lemma AllNumericsAreEntryNumerics(entries: seq<Value>, x: ExtReal)
    requires AllNumerics(entries).Success?
    ensures x in AllNumerics(entries).value <==>
            exists i :: 0 <= i < |entries| && x in Numerics(YearValues(entries[i]).value)
  {
    if i :| 0 <= i < |entries| && x in Numerics(YearValues(entries[i]).value) {
      EntryNumericsInAll(entries, i, x);
    }
    if x in AllNumerics(entries).value {
      AllNumericsFromAnEntry(entries, x);
    }
  }

  lemma {:induction false} EntryNumericsInAll(entries: seq<Value>, i: nat, x: ExtReal)
    requires AllNumerics(entries).Success? && i < |entries|
    requires x in Numerics(YearValues(entries[i]).value)
    ensures x in AllNumerics(entries).value
  {
    assert AllNumerics(entries[1..]).Success?;
    if i > 0 {
      assert entries[1..][i - 1] == entries[i];
      EntryNumericsInAll(entries[1..], i - 1, x);
    }
  }

  lemma {:induction false} AllNumericsFromAnEntry(entries: seq<Value>, x: ExtReal)
    requires AllNumerics(entries).Success? && x in AllNumerics(entries).value
    ensures exists i :: 0 <= i < |entries| && x in Numerics(YearValues(entries[i]).value)
  {
    assert AllNumerics(entries[1..]).Success?;
    if x !in Numerics(YearValues(entries[0]).value) {
      AllNumericsFromAnEntry(entries[1..], x);
      var j :| 0 <= j < |entries[1..]| && x in Numerics(YearValues(entries[1..][j]).value);
      assert entries[j + 1] == entries[1..][j];
    }
  }

  /** A number is a numeric year value of an entry exactly when some year of
      the entry's `values` dict holds it. */
  lemma EntryNumericsAreItsYearValues(entry: Value, x: ExtReal)
    requires YearValues(entry).Success?
    ensures x in Numerics(YearValues(entry).value) <==>
            exists year :: (year, Num(x)) in Get(entry.fields, "values", Obj([])).fields
  {
    var fields := Get(entry.fields, "values", Obj([])).fields;
    if x in Numerics(YearValues(entry).value) {
      var j :| 0 <= j < |fields| && YearValues(entry).value[j] == Num(x);
      assert (fields[j].0, Num(x)) in fields;
    }
    if year :| (year, Num(x)) in fields {
      var j :| 0 <= j < |fields| && fields[j] == (year, Num(x));
      assert YearValues(entry).value[j] == Num(x);
    }
  }

  /** The scan over a list of entries (`find_max_value_only_countries`)
      bounds every numeric year value of every entry, and, unless no entry
      holds a number, returns one held by some entry under some year. */
  lemma ScanIsMaxOfYearValues(entries: seq<Value>)
    requires AllNumerics(entries).Success?
    ensures var m := FindMaxValueOnlyCountries(entries).value;
            && (forall i, year, x :: 0 <= i < |entries| && (year, Num(x)) in Get(entries[i].fields, "values", Obj([])).fields
                  ==> Le(x, m))
            && (m != NegInf ==> exists i, year :: 0 <= i < |entries|
                                  && (year, Num(m)) in Get(entries[i].fields, "values", Obj([])).fields)
  {
    var m := FindMaxValueOnlyCountries(entries).value;
    var all := AllNumerics(entries).value;
    forall i, year, x | 0 <= i < |entries| && (year, Num(x)) in Get(entries[i].fields, "values", Obj([])).fields
      ensures Le(x, m)
    {
      EntryNumericsAreItsYearValues(entries[i], x);
      AllNumericsAreEntryNumerics(entries, x);
      var k :| 0 <= k < |all| && all[k] == x;
    }
    if m != NegInf {
      AllNumericsAreEntryNumerics(entries, m);
      var i :| 0 <= i < |entries| && m in Numerics(YearValues(entries[i]).value);
      EntryNumericsAreItsYearValues(entries[i], m);
    }
  }

  /** `max_value` bounds every numeric year value of every entry of the
      document's `data`, and, unless it is `-inf`, is held by one of them. */
  lemma MaxValueIsMaxOfYearValues(doc: Value)
    requires FindMaxValue(doc).Success?
    ensures DataEntries(doc).Success?
    ensures var entries := DataEntries(doc).value;
            var m := FindMaxValue(doc).value;
            && (forall i, year, x :: 0 <= i < |entries| && (year, Num(x)) in Get(entries[i].fields, "values", Obj([])).fields
                  ==> Le(x, m))
            && (m != NegInf ==> exists i, year :: 0 <= i < |entries|
                                  && (year, Num(m)) in Get(entries[i].fields, "values", Obj([])).fields)
  {
    var entries := DataEntries(doc).value;
    assert AllNumerics(entries).Success?;
    IsMaxUnique(FindMaxValue(doc).value, FindMaxValueOnlyCountries(entries).value, AllNumerics(entries).value);
    ScanIsMaxOfYearValues(entries);
  }

  /** `find_max_value_only_countries(L)` is `find_max_value({"data": L})`. */
  lemma OnlyCountriesScanIsFindMax(entries: seq<Value>)
    ensures FindMaxValueOnlyCountries(entries) == FindMaxValue(Obj([("data", Arr(entries))]))
  {
    var doc := Obj([("data", Arr(entries))]);
    assert DataEntries(doc) == Success(entries);
  }

  /** Every numeric value of a kept entry is a numeric value of the whole
      list, and the kept entries are well-formed when all entries are. */
  lemma {:induction false} FilterKeepsNumerics(entries: seq<Value>)
    requires FilterEntries(entries).Success? && AllNumerics(entries).Success?
    ensures AllNumerics(FilterEntries(entries).value).Success?
    ensures forall x :: x in AllNumerics(FilterEntries(entries).value).value ==> x in AllNumerics(entries).value
  {
    if |entries| > 0 {
      assert forall i :: 1 <= i < |entries| ==> entries[i] == entries[1..][i - 1];
      FilterKeepsNumerics(entries[1..]);
      var rest := FilterEntries(entries[1..]).value;
      var vals := YearValues(entries[0]).value;
      assert AllNumerics(entries).value == Numerics(vals) + AllNumerics(entries[1..]).value;
      if KeepEntry(entries[0]) == Success(true) {
        var kept := [entries[0]] + rest;
        assert kept[0] == entries[0] && kept[1..] == rest;
        assert AllNumerics(kept).value == Numerics(vals) + AllNumerics(rest).value;
      }
    }
  }

  /** `only_countries_max_value <= max_value`: the real-country scan runs over
      a sub-list of the entries, so it never exceeds the overall maximum, and
      it cannot fail once the overall scan succeeded. */
  lemma OnlyCountriesMaxBounded(doc: Value)
    requires FindMaxValue(doc).Success? && FilterOnlyCountries(doc).Success?
    ensures FindMaxValueOnlyCountries(FilterOnlyCountries(doc).value).Success?
    ensures Le(FindMaxValueOnlyCountries(FilterOnlyCountries(doc).value).value, FindMaxValue(doc).value)
  {
    var entries := DataEntries(doc).value;
    FilterKeepsNumerics(entries);
    var kept := FilterOnlyCountries(doc).value;
    var only := FindMaxValueOnlyCountries(kept).value;
    var all := AllNumerics(entries).value;
    if only != NegInf {
      assert only in all;
      var i :| 0 <= i < |all| && all[i] == only;
    }
  }

  // ---------------------------------------------------------------------------
  // The document update

  /** Assigning a key other than `data` does not change the entries. */
  lemma DataEntriesFrame(fields: Dict<Value>, k: string, v: Value)
    requires k != "data"
    ensures DataEntries(Obj(Assign(fields, k, v))) == DataEntries(Obj(fields))
  {
    assert Lookup(Assign(fields, k, v), "data") == Lookup(fields, "data");
  }

  /** The update succeeds exactly when both `find_max_value` and
      `filter_only_countries` do on the original document; it then stores
      results computed from the original document alone. */
  lemma UpdateSucceedsIff(doc: Value)
    ensures UpdateDocument(doc).Success? <==> FindMaxValue(doc).Success? && FilterOnlyCountries(doc).Success?
    ensures UpdateDocument(doc).Success? ==>
              && doc.Obj?
              && FindMaxValueOnlyCountries(FilterOnlyCountries(doc).value).Success?
              && UpdateDocument(doc) == Success(Obj(StoreResults(
                   doc.fields, FindMaxValue(doc).value, FilterOnlyCountries(doc).value,
                   FindMaxValueOnlyCountries(FilterOnlyCountries(doc).value).value)))
  {
    if FindMaxValue(doc).Success? {
      var withMax := Obj(Assign(doc.fields, "max_value", Num(FindMaxValue(doc).value)));
      DataEntriesFrame(doc.fields, "max_value", Num(FindMaxValue(doc).value));
      assert FilterOnlyCountries(withMax) == FilterOnlyCountries(doc);
      if FilterOnlyCountries(doc).Success? {
        OnlyCountriesMaxBounded(doc);
      }
    }
  }

  /** The update leaves every key but the three it writes as it was (`data`
      in particular), and afterwards the document has exactly its old keys
      plus those three. */
  lemma UpdateFrame(doc: Value)
    ensures UpdateDocument(doc).Success? ==>
              && doc.Obj? && UpdateDocument(doc).value.Obj?
              && (forall k :: k !in UpdatedKeys ==>
                    Lookup(UpdateDocument(doc).value.fields, k) == Lookup(doc.fields, k))
              && KeySet(UpdateDocument(doc).value.fields) == KeySet(doc.fields) + UpdatedKeys
  {
    UpdateSucceedsIff(doc);
  }

  /** What the update stores: the overall maximum of the numeric year values,
      the real-country entries, and their maximum, which is at most the
      overall one. */
  lemma UpdateStoresResults(doc: Value)
    ensures UpdateDocument(doc).Success? ==> FindMaxValue(doc).Success? && FilterOnlyCountries(doc).Success?
    ensures UpdateDocument(doc).Success? ==>
            var f := UpdateDocument(doc).value.fields;
            var kept := FilterOnlyCountries(doc).value;
            && Lookup(f, "only_countries") == Some(Arr(kept))
            && Lookup(f, "max_value").Some? && Lookup(f, "max_value").value.Num?
            && Lookup(f, "only_countries_max_value").Some? && Lookup(f, "only_countries_max_value").value.Num?
            && IsMax(Lookup(f, "max_value").value.x, DocNumerics(doc).value)
            && AllNumerics(kept).Success?
            && IsMax(Lookup(f, "only_countries_max_value").value.x, AllNumerics(kept).value)
            && Le(Lookup(f, "only_countries_max_value").value.x, Lookup(f, "max_value").value.x)
  {
    UpdateSucceedsIff(doc);
    if UpdateDocument(doc).Success? {
      OnlyCountriesMaxBounded(doc);
    }
  }

  /** Storing the same three results twice is storing them once. */
  lemma StoreResultsTwice(fields: Dict<Value>, maxValue: ExtReal, onlyCountries: seq<Value>, onlyMax: ExtReal)
    ensures var stored := StoreResults(fields, maxValue, onlyCountries, onlyMax);
            StoreResults(stored, maxValue, onlyCountries, onlyMax) == stored
  {
    var stored := StoreResults(fields, maxValue, onlyCountries, onlyMax);
    assert Assign(stored, "max_value", Num(maxValue)) == stored;
    assert Assign(stored, "only_countries_max_value", Num(onlyMax)) == stored;
    assert Assign(stored, "only_countries", Arr(onlyCountries)) == stored;
  }

  /** Running the update on its own output changes nothing: all three stored
      results are computed from `data`, which the update does not touch. */
  lemma UpdateIdempotent(doc: Value)
    ensures UpdateDocument(doc).Success? ==> UpdateDocument(UpdateDocument(doc).value) == UpdateDocument(doc)
  {
    UpdateSucceedsIff(doc);
    if UpdateDocument(doc).Failure? {
      return;
    }
    var m := FindMaxValue(doc).value;
    var kept := FilterOnlyCountries(doc).value;
    var om := FindMaxValueOnlyCountries(kept).value;
    var stored := StoreResults(doc.fields, m, kept, om);
    var doc' := Obj(stored);
    assert Lookup(stored, "data") == Lookup(doc.fields, "data");
    assert DataEntries(doc') == DataEntries(doc);
    assert FindMaxValue(doc') == FindMaxValue(doc);
    assert FilterOnlyCountries(doc') == FilterOnlyCountries(doc);
    UpdateSucceedsIff(doc');
    StoreResultsTwice(doc.fields, m, kept, om);
  }
}
