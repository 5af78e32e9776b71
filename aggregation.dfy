/**
 * `avgNumCols`: one record per key `${unified_id}_${month}`. A first row
 * seeds an accumulator object `{count: 1, ...}` with all its fields; each
 * later row of the same key bumps `count` and adds its numeric fields with
 * `(group[k] || 0) + val`; at the end every numeric field is divided by
 * `count`, and `count` itself is left out. The accumulator is one JavaScript
 * object, so a row field named `count` lands on the counter.
 */
module Aggregation {
  import opened JsValues
  import opened Columns

  /** The template literal `${d.unified_id}_${d.month}` (line 53). */
  function GroupKey(d: Row, fmt: NumberFormat): (key: string)
    ensures IdKey in d && MonthKey in d && d[IdKey].Str? && d[MonthKey].Str? ==> key == d[IdKey].s + "_" + d[MonthKey].s
    ensures IdKey !in d ==> |key| > 9 && key[..9] == "undefined"
  {
    Text(Get(d, IdKey), fmt) + "_" + Text(Get(d, MonthKey), fmt)
  }

  predicate HasNumericCount(g: Row) {
    CountKey in g && IsNumber(g[CountKey])
  }

  /**
   * The accumulator of lines 57-66 after the fields `ks` of the first row
   * `d` have been visited: `count` starts at 1 and is overwritten only by a
   * numeric `count` field; every other field is copied.
   */
  function SeedOver(d: Row, ks: set<string>): Row
    requires ks <= d.Keys
  {
    map k | k in ks + {CountKey} ::
      if k == CountKey then
        (if CountKey in ks && IsNumber(d[CountKey]) then d[CountKey] else Num(1.0))
      else d[k]
  }

  function Seed(d: Row): (g: Row)
    ensures HasNumericCount(g)
    ensures g.Keys == d.Keys + {CountKey}
  {
    SeedOver(d, d.Keys)
  }

  /** `group.count += 1` (line 71). */
  function Bump(g: Row, fmt: NumberFormat): (g': Row)
    ensures g'.Keys == g.Keys + {CountKey}
    ensures forall k :: k in g && k != CountKey ==> g'[k] == g[k]
    ensures HasNumericCount(g) ==> HasNumericCount(g')
    ensures CountKey in g && g[CountKey].Num? ==> g'[CountKey] == Num(g[CountKey].x + 1.0)
  {
    g[CountKey := Add(Get(g, CountKey), Num(1.0), fmt)]
  }

  /** The numeric fields among `ks`. */
  function NumericFields(d: Row, ks: set<string>): set<string>
    requires ks <= d.Keys
  {
    set k | k in ks && IsNumber(d[k])
  }

  /** The accumulator after the loop of lines 73-78 has visited the fields `ks` of row `d`. */
  function AbsorbOver(g: Row, d: Row, ks: set<string>, fmt: NumberFormat): Row
    requires ks <= d.Keys
  {
    map k | k in g.Keys + NumericFields(d, ks) ::
      if k in ks && IsNumber(d[k]) then Add(Some(OrZero(Get(g, k))), d[k], fmt) else g[k]
  }

  /** Lines 71-78: a later row of an existing group. */
  function Absorb(g: Row, d: Row, fmt: NumberFormat): (g': Row)
    requires HasNumericCount(g)
    ensures HasNumericCount(g')
    ensures g'.Keys == g.Keys + NumericFields(d, d.Keys)
  {
    AbsorbOver(Bump(g, fmt), d, d.Keys, fmt)
  }

  /** The record of lines 87-94 after the fields `ks` of the accumulator have been visited. */
  function FinalizeOver(g: Row, ks: set<string>): Row
    requires ks <= g.Keys && HasNumericCount(g)
  {
    map k | k in ks && k != CountKey :: if IsNumber(g[k]) then Div(g[k], g[CountKey]) else g[k]
  }

  function Finalize(g: Row): (r: Row)
    requires HasNumericCount(g)
    ensures r.Keys == g.Keys - {CountKey}
  {
    FinalizeOver(g, g.Keys)
  }

  /** The Map `groupedDataMap`: its keys in insertion order and the accumulator of each. */
  datatype Groups = Groups(order: seq<string>, table: map<string, Row>)

  predicate NoDupKeys(s: seq<string>) {
    forall i, j :: 0 <= i < j < |s| ==> s[i] != s[j]
  }

  /** The Map lists each key once, and every accumulator carries a numeric `count`. */
  ghost predicate WellFormed(gs: Groups) {
    && NoDupKeys(gs.order)
    && (forall k :: k in gs.order <==> k in gs.table)
    && (forall k :: k in gs.table ==> HasNumericCount(gs.table[k]))
  }

  /** The Map after the loop of lines 52-80 has read the rows `data`. */
  function Aggregate(data: seq<Row>, fmt: NumberFormat): (gs: Groups)
    ensures WellFormed(gs)
  {
    if data == [] then Groups([], map[])
    else
      var gs := Aggregate(data[..|data| - 1], fmt);
      var d := data[|data| - 1];
      var key := GroupKey(d, fmt);
      if key !in gs.table then Groups(gs.order + [key], gs.table[key := Seed(d)])
      else Groups(gs.order, gs.table[key := Absorb(gs.table[key], d, fmt)])
  }

  /** Lines 83-97: one record per Map entry, in insertion order. */
  function Emit(gs: Groups): (avg: seq<Row>)
    requires WellFormed(gs)
    ensures |avg| == |gs.order|
  {
    seq(|gs.order|, i requires 0 <= i < |gs.order| => Finalize(gs.table[gs.order[i]]))
  }

  /** What `avgNumCols(data)` returns. */
  function AvgNumColsSpec(data: seq<Row>, fmt: NumberFormat): (avg: seq<Row>)
    ensures |avg| <= |data|
  {
    AggregateSize(data, fmt);
    Emit(Aggregate(data, fmt))
  }

  /** Each row opens at most one new Map entry. */
  lemma {:induction false} AggregateSize(data: seq<Row>, fmt: NumberFormat)
    ensures |Aggregate(data, fmt).order| <= |data|
  {
    if data != [] {
      AggregateSize(data[..|data| - 1], fmt);
    }
  }

  // ---------------------------------------------------------------------
  // The loops of avgNumCols

  /** Lines 57-66. */
  method NewGroup(d: Row) returns (group: Row)
    ensures group == Seed(d)
  {
    group := map[CountKey := Num(1.0)];
    var ks := d.Keys;
    ghost var done: set<string> := {};
    while ks != {}
      invariant ks + done == d.Keys && ks !! done
      invariant group == SeedOver(d, done)
      decreases ks
    {
      var k :| k in ks;
      var val := d[k];
      if IsNumber(val) {
        group := group[k := val];
      } else if k !in group {
        // `group[k] ??= val`
        group := group[k := val];
      }
      ks := ks - {k};
      done := done + {k};
      assert group == SeedOver(d, done) by {
        assert group.Keys == (done + {CountKey});
      }
    }
  }

  /** Lines 71-78. */
  method AddToGroup(group0: Row, d: Row, fmt: NumberFormat) returns (group: Row)
    requires HasNumericCount(group0)
    ensures group == Absorb(group0, d, fmt)
  {
    group := group0[CountKey := Add(Get(group0, CountKey), Num(1.0), fmt)];
    ghost var bumped := group;
    var ks := d.Keys;
    ghost var done: set<string> := {};
    while ks != {}
      invariant ks + done == d.Keys && ks !! done
      invariant group == AbsorbOver(bumped, d, done, fmt)
      decreases ks
    {
      var k :| k in ks;
      var val := d[k];
      if IsNumber(val) {
        group := group[k := Add(Some(OrZero(Get(group, k))), val, fmt)];
      }
      AbsorbOverStep(bumped, d, done, k, fmt);
      ks := ks - {k};
      done := done + {k};
    }
  }

  /** One more field of the row visited by the loop of lines 73-78. */
  lemma AbsorbOverStep(g: Row, d: Row, done: set<string>, k: string, fmt: NumberFormat)
    requires done <= d.Keys && k in d && k !in done
    ensures var r := AbsorbOver(g, d, done, fmt);
      AbsorbOver(g, d, done + {k}, fmt) ==
        if IsNumber(d[k]) then r[k := Add(Some(OrZero(Get(r, k))), d[k], fmt)] else r
  {
    var r := AbsorbOver(g, d, done, fmt);
    var r' := AbsorbOver(g, d, done + {k}, fmt);
    var t := if IsNumber(d[k]) then r[k := Add(Some(OrZero(Get(r, k))), d[k], fmt)] else r;
    assert Get(r, k) == Get(g, k);
    assert r'.Keys == t.Keys;
  }

  /** Lines 86-94. */
  method AverageGroup(group: Row) returns (avgGroup: Row)
    requires HasNumericCount(group)
    ensures avgGroup == Finalize(group)
  {
    var count := group[CountKey];
    avgGroup := map[];
    var ks := group.Keys;
    ghost var done: set<string> := {};
    while ks != {}
      invariant ks + done == group.Keys && ks !! done
      invariant avgGroup == FinalizeOver(group, done)
      decreases ks
    {
      var key :| key in ks;
      if key != CountKey {
        var val := group[key];
        avgGroup := avgGroup[key := if IsNumber(val) then Div(val, count) else val];
      }
      ks := ks - {key};
      done := done + {key};
    }
  }

  /** Lines 50-80: the grouping pass, in input order. */
  method GroupRows(data: seq<Row>, fmt: NumberFormat) returns (order: seq<string>, table: map<string, Row>)
    ensures Groups(order, table) == Aggregate(data, fmt)
  {
    order, table := [], map[];
    for i := 0 to |data|
      invariant Groups(order, table) == Aggregate(data[..i], fmt)
    {
      assert data[..i + 1][..i] == data[..i];
      var d := data[i];
      var key := GroupKey(d, fmt);
      if key !in table {
        var group := NewGroup(d);
        table := table[key := group];
        order := order + [key];
      } else {
        var group := AddToGroup(table[key], d, fmt);
        table := table[key := group];
      }
    }
    assert data[..|data|] == data;
  }

  /** Lines 83-97: the averaging pass over the Map's values, in insertion order. */
  method EmitGroups(order: seq<string>, table: map<string, Row>) returns (avg: seq<Row>)
    requires WellFormed(Groups(order, table))
    ensures avg == Emit(Groups(order, table))
  {
    avg := [];
    for j := 0 to |order|
      invariant avg == Emit(Groups(order, table))[..j]
    {
      var group := AverageGroup(table[order[j]]);
      avg := avg + [group];
    }
  }

  /** `avgNumCols(data)` (lines 48-100). */
  method AvgNumCols(data: seq<Row>, fmt: NumberFormat) returns (avg: seq<Row>)
    ensures avg == AvgNumColsSpec(data, fmt)
  {
    var order, table := GroupRows(data, fmt);
    avg := EmitGroups(order, table);
  }
}
