/**
 * Concrete runs of `avgNumCols`, including the behaviours that come from
 * the running sum `(group[k] || 0) + val`, from the counter sharing the
 * accumulator object with the fields, and from the key being one string.
 */
module AggregationExamples {
  import opened JsValues
  import opened Columns
  import opened Aggregation
  import opened AggregationProperties

  function Listing(id: string, month: string, revenue: Value): Row {
    map[IdKey := Str(id), MonthKey := Str(month), "revenue" := revenue]
  }

  lemma SeedListing(id: string, month: string, v: Value)
    ensures Seed(Listing(id, month, v)) == Listing(id, month, v)[CountKey := Num(1.0)]
  {
  }

  lemma BumpListing(id: string, month: string, sum: Value, n: real, fmt: NumberFormat)
    ensures Bump(Listing(id, month, sum)[CountKey := Num(n)], fmt) == Listing(id, month, sum)[CountKey := Num(n + 1.0)]
  {
  }

  lemma NumericFieldsListing(id: string, month: string, v: Value)
    requires IsNumber(v)
    ensures NumericFields(Listing(id, month, v), Listing(id, month, v).Keys) == {"revenue"}
  {
  }

  /** A later row with a single numeric field adds to that field only (and bumps the counter). */
  lemma AbsorbOneField(g: Row, d: Row, f: string, fmt: NumberFormat)
    requires HasNumericCount(g) && f != CountKey
    requires NumericFields(d, d.Keys) == {f}
    ensures Absorb(g, d, fmt) == Bump(g, fmt)[f := Add(Some(OrZero(Get(g, f))), d[f], fmt)]
  {
    var b := Bump(g, fmt);
    var r := Absorb(g, d, fmt);
    var t := b[f := Add(Some(OrZero(Get(g, f))), d[f], fmt)];
    assert Get(b, f) == Get(g, f);
    assert r.Keys == t.Keys;
    forall k | k in r ensures r[k] == t[k] {
      if k != f {
        assert !(k in d.Keys && IsNumber(d[k]));
      }
    }
  }

  lemma AbsorbListing(id: string, month: string, sum: Value, n: real, v: Value, fmt: NumberFormat)
    requires IsNumber(sum) && IsNumber(v)
    ensures Absorb(Listing(id, month, sum)[CountKey := Num(n)], Listing(id, month, v), fmt)
         == Listing(id, month, Add(Some(OrZero(Some(sum))), v, fmt))[CountKey := Num(n + 1.0)]
  {
    var g := Listing(id, month, sum)[CountKey := Num(n)];
    var d := Listing(id, month, v);
    BumpListing(id, month, sum, n, fmt);
    NumericFieldsListing(id, month, v);
    AbsorbOneField(g, d, "revenue", fmt);
    assert Get(g, "revenue") == Some(sum);
    var x := Add(Some(OrZero(Some(sum))), v, fmt);
    var m := map[IdKey := Str(id), MonthKey := Str(month)];
    assert Listing(id, month, sum) == m["revenue" := sum] && Listing(id, month, x) == m["revenue" := x];
    UpdateSwap(m["revenue" := sum], CountKey, Num(n + 1.0), "revenue", x);
    UpdateTwice(m, "revenue", sum, x);
  }

  lemma UpdateTwice<K, V>(m: map<K, V>, k: K, a: V, b: V)
    ensures m[k := a][k := b] == m[k := b]
  {
  }

  lemma UpdateSwap<K, V>(m: map<K, V>, j: K, a: V, k: K, b: V)
    requires j != k
    ensures m[j := a][k := b] == m[k := b][j := a]
  {
  }

  lemma FinalizeListing(id: string, month: string, sum: Value, n: real)
    requires IsNumber(sum)
    ensures Finalize(Listing(id, month, sum)[CountKey := Num(n)]) == Listing(id, month, Div(sum, Num(n)))
  {
  }

  lemma AggregateOne(d: Row, fmt: NumberFormat)
    ensures Aggregate([d], fmt) == Groups([GroupKey(d, fmt)], map[GroupKey(d, fmt) := Seed(d)])
  {
    assert [d][..0] == [];
  }

  lemma EmitOne(key: string, g: Row)
    requires HasNumericCount(g)
    ensures Emit(Groups([key], map[key := g])) == [Finalize(g)]
  {
  }

  /** The running sum of two values of one field, as line 76 computes it. */
  function SumOfTwo(v1: Value, v2: Value, fmt: NumberFormat): Value {
    Add(Some(OrZero(Some(v1))), v2, fmt)
  }

  /** Two rows with one key: the second is absorbed into the accumulator seeded by the first. */
  lemma AggregateTwo(r1: Row, r2: Row, fmt: NumberFormat)
    requires GroupKey(r2, fmt) == GroupKey(r1, fmt)
    ensures Aggregate([r1, r2], fmt) == Groups([GroupKey(r1, fmt)], map[GroupKey(r1, fmt) := Absorb(Seed(r1), r2, fmt)])
  {
    AggregateOne(r1, fmt);
    assert [r1, r2][..1] == [r1];
    AggregateKnownKey([r1, r2], fmt);
    UpdateTwice(map[], GroupKey(r1, fmt), Seed(r1), Absorb(Seed(r1), r2, fmt));
  }

  /** Two rows of the same listing and month: one record, the accumulated value divided by 2. */
  lemma TwoRows(id: string, month: string, v1: Value, v2: Value, fmt: NumberFormat)
    requires IsNumber(v1) && IsNumber(v2)
    ensures AvgNumColsSpec([Listing(id, month, v1), Listing(id, month, v2)], fmt)
         == [Listing(id, month, Div(SumOfTwo(v1, v2, fmt), Num(2.0)))]
  {
    var r1, r2 := Listing(id, month, v1), Listing(id, month, v2);
    assert GroupKey(r2, fmt) == GroupKey(r1, fmt);
    AggregateTwo(r1, r2, fmt);
    SeedListing(id, month, v1);
    AbsorbListing(id, month, v1, 1.0, v2, fmt);
    var sum := SumOfTwo(v1, v2, fmt);
    AddOrZeroIsNumber(Some(v1), v2, fmt);
    EmitOne(GroupKey(r1, fmt), Listing(id, month, sum)[CountKey := Num(2.0)]);
    FinalizeListing(id, month, sum, 2.0);
  }

  /**
   * Two rows of listing "A" in January 2019 with revenue 100 and 300
   * average to one record with revenue 200.
   */
  lemma MeanOfTwo(fmt: NumberFormat)
    ensures AvgNumColsSpec([Listing("A", "2019-01", Num(100.0)), Listing("A", "2019-01", Num(300.0))], fmt)
         == [Listing("A", "2019-01", Num(200.0))]
  {
    TwoRows("A", "2019-01", Num(100.0), Num(300.0), fmt);
    assert SumOfTwo(Num(100.0), Num(300.0), fmt) == Num(400.0);
    assert Div(Num(400.0), Num(2.0)) == Num(200.0);
  }

  /**
   * A NaN already summed is forgotten when the next number arrives (NaN
   * is falsy, so `|| 0` restarts the sum), but a NaN arriving last makes
   * the sum NaN (`NaNKept`): the mean depends on the order of the rows.
   */
  lemma NaNForgotten(fmt: NumberFormat)
    ensures AvgNumColsSpec([Listing("A", "2019-01", NaN), Listing("A", "2019-01", Num(100.0))], fmt)
         == [Listing("A", "2019-01", Num(50.0))]
  {
    TwoRows("A", "2019-01", NaN, Num(100.0), fmt);
    assert SumOfTwo(NaN, Num(100.0), fmt) == Num(100.0);
    assert Div(Num(100.0), Num(2.0)) == Num(50.0);
  }

  lemma NaNKept(fmt: NumberFormat)
    ensures AvgNumColsSpec([Listing("A", "2019-01", Num(100.0)), Listing("A", "2019-01", NaN)], fmt)
         == [Listing("A", "2019-01", NaN)]
  {
    TwoRows("A", "2019-01", Num(100.0), NaN, fmt);
    assert SumOfTwo(Num(100.0), NaN, fmt) == NaN;
    assert Div(NaN, Num(2.0)) == NaN;
  }

  /**
   * A numeric `count` column overwrites the accumulator's counter: a row
   * seen once comes back with its numbers divided by that column, and
   * without the column.
   */
  lemma CountColumnOverwritesCounter(fmt: NumberFormat)
    ensures AvgNumColsSpec([Listing("A", "2019-01", Num(10.0))[CountKey := Num(5.0)]], fmt)
         == [Listing("A", "2019-01", Num(2.0))]
  {
    var d := Listing("A", "2019-01", Num(10.0))[CountKey := Num(5.0)];
    assert Seed(d) == d;
    AggregateOne(d, fmt);
    EmitOne(GroupKey(d, fmt), d);
    FinalizeListing("A", "2019-01", Num(10.0), 5.0);
    assert Div(Num(10.0), Num(5.0)) == Num(2.0);
  }

  /**
   * A `count` field holding text is shadowed by the counter when the group
   * is seeded, skipped by the sum, and left out of the record, which keeps
   * the true mean.
   */
  lemma TextCountColumnDropped(fmt: NumberFormat)
    ensures AvgNumColsSpec([Listing("A", "2019-01", Num(10.0))[CountKey := Str("7")]], fmt)
         == [Listing("A", "2019-01", Num(10.0))]
  {
    var d := Listing("A", "2019-01", Num(10.0))[CountKey := Str("7")];
    var g := Listing("A", "2019-01", Num(10.0))[CountKey := Num(1.0)];
    assert Seed(d) == g;
    AggregateOne(d, fmt);
    EmitOne(GroupKey(d, fmt), g);
    FinalizeListing("A", "2019-01", Num(10.0), 1.0);
  }

  /**
   * `(group[k] || 0) + val` starts from 0 only when the stored value is
   * falsy: a non-empty text in the first row is kept, and a later number
   * is appended to it as text.
   */
  lemma TextThenNumberConcatenates(fmt: NumberFormat)
    ensures Absorb(Seed(map["f" := Str("ab")]), map["f" := Num(1.0)], fmt)["f"] == Str("ab" + fmt(1.0))
  {
    var g := Seed(map["f" := Str("ab")]);
    assert g["f"] == Str("ab");
    AbsorbOneField(g, map["f" := Num(1.0)], "f", fmt);
  }

  /**
   * The key is one string, so listing "a_b" in month "c" and listing "a"
   * in month "b_c" share the key "a_b_c" and are averaged into one record.
   */
  lemma KeysCollide(fmt: NumberFormat)
    ensures |AvgNumColsSpec([Listing("a_b", "c", Num(1.0)), Listing("a", "b_c", Num(3.0))], fmt)| == 1
  {
    var x, y := Listing("a_b", "c", Num(1.0)), Listing("a", "b_c", Num(3.0));
    assert GroupKey(x, fmt) == "a_b_c" == GroupKey(y, fmt);
    assert [x, y][..1] == [x] && [x][..0] == [];
    assert Aggregate([x], fmt).order == ["a_b_c"];
  }
}
