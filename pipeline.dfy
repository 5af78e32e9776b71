/**
 * The stages of `loadData` once both files have been read: the geo join
 * (when geolocation is asked for), numeric coercion of the domain columns
 * (and of the coordinates), then the per-listing-per-month average. A
 * TypeError thrown by the coercion rejects the promise.
 */
module Pipeline {
  import opened JsValues
  import opened Columns
  import opened GeoJoin
  import opened NumericCoercion
  import opened Aggregation
  import opened AggregationProperties

  /** How the promise of `loadData` settles. */
  datatype Outcome = Resolved(records: seq<Row>) | Rejected

  /** `col_list` of lines 107-111. */
  function ColumnList(hasGeo: bool): (cols: seq<string>)
    ensures NoDup(cols)
    ensures hasGeo <==> LatKey in cols
    ensures hasGeo <==> LonKey in cols
    ensures IdKey !in cols && MonthKey !in cols && CountKey !in cols
  {
    if hasGeo then DomainColumns + [LatKey, LonKey] else DomainColumns
  }

  /** The rows handed to `convertToNum` (lines 106 and 112). */
  function Staged(hasGeo: bool, mart: seq<Row>, geo: seq<Row>): (rows: seq<Row>)
    ensures !hasGeo ==> rows == mart
    ensures hasGeo ==> |rows| <= |mart| && forall i :: 0 <= i < |rows| ==> HasCoordinates(rows[i])
  {
    if hasGeo then Join(mart, GeoIndex(geo)) else mart
  }

  /** What the promise of `loadData(hasGeo)` settles to, for the rows read from the two files. */
  function LoadDataSpec(hasGeo: bool, mart: seq<Row>, geo: seq<Row>, parse: ParseFloat, fmt: NumberFormat): (o: Outcome)
    ensures o.Resolved? ==> |o.records| <= |mart|
  {
    var (converted, ok) := ConvertRows(Staged(hasGeo, mart, geo), ColumnList(hasGeo), parse);
    if ok then Resolved(AvgNumColsSpec(converted, fmt)) else Rejected
  }

  /**
   * Lines 106-118. With geolocation, the geo rows lose their month and the
   * market rows are left alone (the join builds new objects); without it,
   * the market rows are converted in place and the geo rows are untouched.
   */
  method LoadData(hasGeo: bool, mart: array<Row>, geo: array<Row>, parse: ParseFloat, fmt: NumberFormat)
    returns (result: Outcome)
    requires mart != geo
    modifies mart, geo
    ensures result == LoadDataSpec(hasGeo, old(mart[..]), old(geo[..]), parse, fmt)
    ensures hasGeo ==> geo[..] == StripMonths(old(geo[..])) && mart[..] == old(mart[..])
    ensures !hasGeo ==> geo[..] == old(geo[..]) && mart[..] == ConvertRows(old(mart[..]), ColumnList(false), parse).0
  {
    var cols := DomainColumns;
    var finalData: array<Row>;
    if hasGeo {
      cols := cols + [LatKey, LonKey];
      var merged := AddGeoData(mart[..], geo);
      finalData := new Row[|merged|](i requires 0 <= i < |merged| => merged[i]);
      assert finalData[..] == Staged(hasGeo, old(mart[..]), old(geo[..]));
    } else {
      finalData := mart;
    }
    var ok := ConvertToNum(finalData, cols, parse);
    if !ok {
      result := Rejected;
      return;
    }
    var avg := AvgNumCols(finalData[..], fmt);
    result := Resolved(avg);
  }

  // ---------------------------------------------------------------------
  // Properties of the whole pipeline

  /**
   * The promise resolves exactly when every staged row holds text in
   * every listed column; otherwise `val.indexOf` throws and it is rejected.
   */
  lemma LoadDataResolvesIff(hasGeo: bool, mart: seq<Row>, geo: seq<Row>, parse: ParseFloat, fmt: NumberFormat)
    ensures LoadDataSpec(hasGeo, mart, geo, parse, fmt).Resolved? <==>
      forall i, c :: 0 <= i < |Staged(hasGeo, mart, geo)| && c in ColumnList(hasGeo) ==>
        c in Staged(hasGeo, mart, geo)[i] && Staged(hasGeo, mart, geo)[i][c].Str?
  {
    ConvertRowsSucceedIff(Staged(hasGeo, mart, geo), ColumnList(hasGeo), parse);
  }

  /** A market file whose rows lack any one domain column rejects the promise (without geolocation). */
  lemma MissingColumnRejects(mart: seq<Row>, geo: seq<Row>, parse: ParseFloat, fmt: NumberFormat, i: nat, c: string)
    requires i < |mart| && c in DomainColumns && c !in mart[i]
    ensures LoadDataSpec(false, mart, geo, parse, fmt) == Rejected
  {
    LoadDataResolvesIff(false, mart, geo, parse, fmt);
  }

  /** Rows with only an id, a month and a revenue cannot get through the coercion. */
  lemma RevenueOnlyRowsReject(geo: seq<Row>, parse: ParseFloat, fmt: NumberFormat)
    ensures LoadDataSpec(false, [map[IdKey := Str("A"), MonthKey := Str("2019-01"), "revenue" := Str("100")],
                                 map[IdKey := Str("A"), MonthKey := Str("2019-01"), "revenue" := Str("300")]],
                         geo, parse, fmt) == Rejected
  {
    var mart := [map[IdKey := Str("A"), MonthKey := Str("2019-01"), "revenue" := Str("100")],
                 map[IdKey := Str("A"), MonthKey := Str("2019-01"), "revenue" := Str("300")]];
    assert "bathrooms" in DomainColumns;
    MissingColumnRejects(mart, geo, parse, fmt, 0, "bathrooms");
  }

  /** Coercion leaves the id and the month alone, so the rows keep their aggregation keys. */
  lemma {:induction false} ConvertKeepsKeys(rows: seq<Row>, cols: seq<string>, parse: ParseFloat, fmt: NumberFormat)
    requires ConvertRows(rows, cols, parse).1
    requires IdKey !in cols && MonthKey !in cols
    ensures KeysOf(ConvertRows(rows, cols, parse).0, fmt) == KeysOf(rows, fmt)
  {
    var conv := ConvertRows(rows, cols, parse).0;
    ConvertRowsResult(rows, cols, parse);
    forall i | 0 <= i < |rows| ensures GroupKey(conv[i], fmt) == GroupKey(rows[i], fmt) {
      assert Get(conv[i], IdKey) == Get(rows[i], IdKey);
      assert Get(conv[i], MonthKey) == Get(rows[i], MonthKey);
    }
  }

  /** One record per distinct `${unified_id}_${month}` among the staged rows. */
  lemma RecordsPerKey(hasGeo: bool, mart: seq<Row>, geo: seq<Row>, parse: ParseFloat, fmt: NumberFormat)
    requires LoadDataSpec(hasGeo, mart, geo, parse, fmt).Resolved?
    ensures |LoadDataSpec(hasGeo, mart, geo, parse, fmt).records| ==
      |set k | k in KeysOf(Staged(hasGeo, mart, geo), fmt)|
  {
    var rows := Staged(hasGeo, mart, geo);
    ConvertKeepsKeys(rows, ColumnList(hasGeo), parse, fmt);
    OneRecordPerKey(ConvertRows(rows, ColumnList(hasGeo), parse).0, fmt);
  }

  /** Every listed column is a number in every converted row. */
  lemma ConvertedColumnsNumeric(rows: seq<Row>, cols: seq<string>, parse: ParseFloat, c: string)
    requires ConvertRows(rows, cols, parse).1 && c in cols
    ensures forall r :: r in ConvertRows(rows, cols, parse).0 ==> c in r && IsNumber(r[c])
  {
    var conv := ConvertRows(rows, cols, parse).0;
    ConvertRowsResult(rows, cols, parse);
    forall r | r in conv ensures c in r && IsNumber(r[c]) {
      var i :| 0 <= i < |conv| && conv[i] == r;
    }
  }

  /**
   * Every domain column is a number in every record, and with geolocation
   * so are both coordinates.
   */
  lemma RecordsNumeric(hasGeo: bool, mart: seq<Row>, geo: seq<Row>, parse: ParseFloat, fmt: NumberFormat, c: string)
    requires LoadDataSpec(hasGeo, mart, geo, parse, fmt).Resolved?
    requires c in ColumnList(hasGeo)
    ensures forall i :: 0 <= i < |LoadDataSpec(hasGeo, mart, geo, parse, fmt).records| ==>
      c in LoadDataSpec(hasGeo, mart, geo, parse, fmt).records[i] &&
      IsNumber(LoadDataSpec(hasGeo, mart, geo, parse, fmt).records[i][c])
  {
    var rows := Staged(hasGeo, mart, geo);
    ConvertedColumnsNumeric(rows, ColumnList(hasGeo), parse, c);
    NumericFieldStaysNumeric(ConvertRows(rows, ColumnList(hasGeo), parse).0, fmt, c);
  }

  // ---------------------------------------------------------------------
  // Rows as the delimited-file reader delivers them

  /** Every field holds text. */
  predicate AllText(rows: seq<Row>) {
    forall i, k :: 0 <= i < |rows| && k in rows[i] ==> rows[i][k].Str?
  }

  lemma {:induction false} GeoIndexAllText(geo: seq<Row>)
    requires AllText(geo)
    ensures forall id, k :: id in GeoIndex(geo) && k in GeoIndex(geo)[id] ==> GeoIndex(geo)[id][k].Str?
  {
    if geo != [] {
      var init := geo[..|geo| - 1];
      assert AllText(init) by {
        forall i, k | 0 <= i < |init| && k in init[i] ensures init[i][k].Str? {
          assert init[i] == geo[i];
        }
      }
      GeoIndexAllText(init);
    }
  }

  /** Staged rows built from text rows hold text only. */
  lemma StagedAllText(hasGeo: bool, mart: seq<Row>, geo: seq<Row>)
    requires AllText(mart) && AllText(geo)
    ensures AllText(Staged(hasGeo, mart, geo))
  {
    if hasGeo {
      var index := GeoIndex(geo);
      GeoIndexAllText(geo);
      var all := OverlayAll(mart, index);
      assert AllText(all);
      KeepLocatedMembers(all);
      var out: seq<Row> := Join(mart, index);
      forall i: int, k: string | 0 <= i < |out| && k in out[i] ensures out[i][k].Str? {
        assert out[i] in all;
        var j :| 0 <= j < |all| && all[j] == out[i];
      }
    }
  }

  /**
   * For rows read from the files, a `count` column is still text after
   * coercion, so the mean lemmas (`GroupMean`, `AveragedField`) apply to
   * the rows that `avgNumCols` receives.
   */
  lemma ConvertedCountIsText(hasGeo: bool, mart: seq<Row>, geo: seq<Row>, parse: ParseFloat)
    requires AllText(mart) && AllText(geo)
    requires ConvertRows(Staged(hasGeo, mart, geo), ColumnList(hasGeo), parse).1
    ensures forall r :: r in ConvertRows(Staged(hasGeo, mart, geo), ColumnList(hasGeo), parse).0 && CountKey in r ==>
      !IsNumber(r[CountKey])
  {
    var rows := Staged(hasGeo, mart, geo);
    var cols := ColumnList(hasGeo);
    StagedAllText(hasGeo, mart, geo);
    ConvertRowsResult(rows, cols, parse);
    var conv := ConvertRows(rows, cols, parse).0;
    forall r | r in conv && CountKey in r ensures !IsNumber(r[CountKey]) {
      var i :| 0 <= i < |conv| && conv[i] == r;
    }
  }

  /**
   * For rows read from the files, each record carries the key of its
   * group, so no two records share a listing and month.
   */
  lemma DistinctRecords(hasGeo: bool, mart: seq<Row>, geo: seq<Row>, parse: ParseFloat, fmt: NumberFormat)
    requires AllText(mart) && AllText(geo)
    requires LoadDataSpec(hasGeo, mart, geo, parse, fmt).Resolved?
    ensures var out := LoadDataSpec(hasGeo, mart, geo, parse, fmt).records;
      forall i, j :: 0 <= i < j < |out| ==> GroupKey(out[i], fmt) != GroupKey(out[j], fmt)
  {
    var rows := Staged(hasGeo, mart, geo);
    var cols := ColumnList(hasGeo);
    StagedAllText(hasGeo, mart, geo);
    ConvertRowsResult(rows, cols, parse);
    var conv := ConvertRows(rows, cols, parse).0;
    forall r | r in conv ensures (IdKey in r ==> !IsNumber(r[IdKey])) && (MonthKey in r ==> !IsNumber(r[MonthKey])) {
      var i :| 0 <= i < |conv| && conv[i] == r;
    }
    KeysIdentifyRecords(conv, fmt);
  }
}
