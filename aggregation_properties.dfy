/**
 * What `avgNumCols` promises, stated against independent definitions:
 * the rows of one key taken on their own (`RowsWithKey`) and folded
 * (`GroupFold`), and plain real sums of a field (`SumOf`).
 */
module AggregationProperties {
  import opened JsValues
  import opened Columns
  import opened Aggregation

  /** The rows of `data` whose key is `key`, in input order. */
  function RowsWithKey(data: seq<Row>, key: string, fmt: NumberFormat): seq<Row> {
    if data == [] then []
    else
      var rest := RowsWithKey(data[..|data| - 1], key, fmt);
      if GroupKey(data[|data| - 1], fmt) == key then rest + [data[|data| - 1]] else rest
  }

  /** The accumulator of one group on its own: seeded by its first row, then absorbing the others in order. */
  function GroupFold(rows: seq<Row>, fmt: NumberFormat): (g: Row)
    requires rows != []
    ensures HasNumericCount(g)
  {
    if |rows| == 1 then Seed(rows[0])
    else Absorb(GroupFold(rows[..|rows| - 1], fmt), rows[|rows| - 1], fmt)
  }

  /** The real sum of field `f` over the rows (a row without a finite value there adds nothing). */
  function SumOf(rows: seq<Row>, f: string): real {
    if rows == [] then 0.0
    else
      var last := rows[|rows| - 1];
      SumOf(rows[..|rows| - 1], f) + (if f in last && last[f].Num? then last[f].x else 0.0)
  }

  /** The key of every row, in input order. */
  function KeysOf(data: seq<Row>, fmt: NumberFormat): (keys: seq<string>)
    ensures |keys| == |data|
  {
    seq(|data|, i requires 0 <= i < |data| => GroupKey(data[i], fmt))
  }

  lemma KeysOfSnoc(data: seq<Row>, fmt: NumberFormat)
    requires data != []
    ensures KeysOf(data, fmt) == KeysOf(data[..|data| - 1], fmt) + [GroupKey(data[|data| - 1], fmt)]
  {
  }

  // ---------------------------------------------------------------------
  // Keys and their order

  /** One row's effect on the Map's keys: a new key is appended, a known one changes nothing. */
  lemma AggregateStep(data: seq<Row>, fmt: NumberFormat)
    requires data != []
    ensures var gs := Aggregate(data[..|data| - 1], fmt);
      var key := GroupKey(data[|data| - 1], fmt);
      && Aggregate(data, fmt).order == (if key in gs.table then gs.order else gs.order + [key])
      && Aggregate(data, fmt).table.Keys == gs.table.Keys + {key}
  {
  }

  /** A row whose key is already in the Map is absorbed into its accumulator, and the order stays. */
  lemma AggregateKnownKey(data: seq<Row>, fmt: NumberFormat)
    requires data != []
    requires GroupKey(data[|data| - 1], fmt) in Aggregate(data[..|data| - 1], fmt).table
    ensures var gs, d := Aggregate(data[..|data| - 1], fmt), data[|data| - 1];
      Aggregate(data, fmt) == Groups(gs.order, gs.table[GroupKey(d, fmt) := Absorb(gs.table[GroupKey(d, fmt)], d, fmt)])
  {
  }

  /** The Map holds exactly the keys that occur in the data. */
  lemma {:induction false} AggregateKeySet(data: seq<Row>, fmt: NumberFormat)
    ensures forall k :: k in Aggregate(data, fmt).table <==> k in KeysOf(data, fmt)
  {
    if data != [] {
      var init := data[..|data| - 1];
      AggregateKeySet(init, fmt);
      AggregateStep(data, fmt);
      KeysOfSnoc(data, fmt);
    }
  }

  /** Every occurrence in `keys` of a later entry of `order` comes after some occurrence of each earlier entry. */
  predicate FirstAppearance(order: seq<string>, keys: seq<string>) {
    forall a, b, i :: 0 <= a < b < |order| && 0 <= i < |keys| && keys[i] == order[b] ==> order[a] in keys[..i]
  }

  /** Appending a key keeps the order of first appearance: a new key goes to the end, a known one changes nothing. */
  lemma FirstAppearanceSnoc(order: seq<string>, keys: seq<string>, key: string)
    requires FirstAppearance(order, keys)
    requires forall k :: k in order ==> k in keys
    ensures FirstAppearance(if key in keys then order else order + [key], keys + [key])
  {
    var order' := if key in keys then order else order + [key];
    var keys' := keys + [key];
    var n := |keys|;
    forall a, b, i | 0 <= a < b < |order'| && 0 <= i < n && keys'[i] == order'[b]
      ensures order'[a] in keys'[..i]
    {
      assert keys'[i] == keys[i] && keys'[..i] == keys[..i];
    }
    forall a, b | 0 <= a < b < |order'| && keys'[n] == order'[b]
      ensures order'[a] in keys'[..n]
    {
      assert keys'[..n] == keys;
      assert order'[a] == order[a];
    }
  }

  /**
   * The Map's keys are in first-appearance order: every occurrence of a
   * later key comes after some occurrence of each earlier key.
   */
  lemma {:induction false} AggregateKeyOrder(data: seq<Row>, fmt: NumberFormat)
    ensures var order := Aggregate(data, fmt).order;
      forall a, b, i :: 0 <= a < b < |order| && 0 <= i < |data| && KeysOf(data, fmt)[i] == order[b] ==>
        order[a] in KeysOf(data, fmt)[..i]
  {
    if data != [] {
      var init := data[..|data| - 1];
      AggregateKeyOrder(init, fmt);
      AggregateKeySet(init, fmt);
      AggregateStep(data, fmt);
      KeysOfSnoc(data, fmt);
      FirstAppearanceSnoc(Aggregate(init, fmt).order, KeysOf(init, fmt), GroupKey(data[|data| - 1], fmt));
    }
  }

  /** A sequence without repeated elements has as many distinct elements as it is long. */
  lemma {:induction false} DistinctCount(s: seq<string>)
    requires NoDupKeys(s)
    ensures |set x | x in s| == |s|
  {
    if s != [] {
      var init := s[..|s| - 1];
      DistinctCount(init);
      assert (set x | x in s) == (set x | x in init) + {s[|s| - 1]};
      assert s[|s| - 1] !in init;
    }
  }

  /** One emitted record per distinct key: the output is as long as there are distinct keys in the data. */
  lemma {:induction false} OneRecordPerKey(data: seq<Row>, fmt: NumberFormat)
    ensures |AvgNumColsSpec(data, fmt)| == |set k | k in KeysOf(data, fmt)|
  {
    var gs := Aggregate(data, fmt);
    AggregateKeySet(data, fmt);
    DistinctCount(gs.order);
    assert (set x | x in gs.order) == (set k | k in KeysOf(data, fmt));
  }

  // ---------------------------------------------------------------------
  // Each key's accumulator is the fold of that key's rows

  /** What the Map holds under a key is the fold of exactly the rows with that key. */
  lemma {:induction false} AggregateGroup(data: seq<Row>, key: string, fmt: NumberFormat)
    ensures key in Aggregate(data, fmt).table <==> RowsWithKey(data, key, fmt) != []
    ensures key in Aggregate(data, fmt).table ==>
      Aggregate(data, fmt).table[key] == GroupFold(RowsWithKey(data, key, fmt), fmt)
  {
    if data != [] {
      var init := data[..|data| - 1];
      var d := data[|data| - 1];
      AggregateGroup(init, key, fmt);
      var rows := RowsWithKey(init, key, fmt);
      if GroupKey(d, fmt) == key && rows != [] {
        assert (rows + [d])[..|rows + [d]| - 1] == rows;
      }
    }
  }

  /** The rows gathered for a key all have that key. */
  lemma {:induction false} RowsWithKeyHaveKey(data: seq<Row>, key: string, fmt: NumberFormat)
    ensures forall r :: r in RowsWithKey(data, key, fmt) ==> r in data && GroupKey(r, fmt) == key
  {
    if data != [] {
      RowsWithKeyHaveKey(data[..|data| - 1], key, fmt);
      assert data == data[..|data| - 1] + [data[|data| - 1]];
    }
  }

  /** Record `i` of the output is the finalised fold of the rows of the `i`-th key. */
  lemma AvgRecord(data: seq<Row>, fmt: NumberFormat, i: nat)
    requires i < |AvgNumColsSpec(data, fmt)|
    ensures var key := Aggregate(data, fmt).order[i];
      && RowsWithKey(data, key, fmt) != []
      && AvgNumColsSpec(data, fmt)[i] == Finalize(GroupFold(RowsWithKey(data, key, fmt), fmt))
  {
    AggregateGroup(data, Aggregate(data, fmt).order[i], fmt);
  }

  // ---------------------------------------------------------------------
  // The fold of one group

  /**
   * When no row holds a number in a `count` field (a text `count` is
   * shadowed by the counter), the counter ends at the number of rows.
   */
  lemma {:induction false} GroupCount(rows: seq<Row>, fmt: NumberFormat)
    requires rows != []
    requires forall r :: r in rows && CountKey in r ==> !IsNumber(r[CountKey])
    ensures GroupFold(rows, fmt)[CountKey] == Num(|rows| as real)
  {
    if |rows| > 1 {
      var init := rows[..|rows| - 1];
      assert forall r :: r in init ==> r in rows;
      GroupCount(init, fmt);
      var d := rows[|rows| - 1];
      assert CountKey !in NumericFields(d, d.Keys);
      var b := Bump(GroupFold(init, fmt), fmt);
      assert b[CountKey] == Num(|init| as real + 1.0);
      assert AbsorbOver(b, d, d.Keys, fmt)[CountKey] == b[CountKey];
    }
  }

  /**
   * A field that holds a finite number in every row of the group holds
   * their real sum: `(group[k] || 0) + val` adds exactly, since `|| 0`
   * only replaces a stored 0 by 0.
   */
  lemma {:induction false} GroupSum(rows: seq<Row>, f: string, fmt: NumberFormat)
    requires rows != [] && f != CountKey
    requires forall r: Row :: r in rows ==> f in r && r[f].Num?
    ensures GroupFold(rows, fmt)[f] == Num(SumOf(rows, f))
  {
    var d := rows[|rows| - 1];
    if |rows| == 1 {
      assert rows[..0] == [];
    } else {
      var init := rows[..|rows| - 1];
      assert forall r :: r in init ==> r in rows;
      GroupSum(init, f, fmt);
      var b := Bump(GroupFold(init, fmt), fmt);
      assert b[f] == Num(SumOf(init, f));
      assert f in NumericFields(d, d.Keys);
      assert AbsorbOver(b, d, d.Keys, fmt)[f] == Add(Some(OrZero(Get(b, f))), d[f], fmt);
    }
  }

  /**
   * A field that no row of the group holds a number in keeps the first
   * row's value, and is present only when the first row has it: later
   * rows never write it.
   */
  lemma {:induction false} GroupFirstSeen(rows: seq<Row>, f: string, fmt: NumberFormat)
    requires rows != [] && f != CountKey
    requires forall r :: r in rows && f in r ==> !IsNumber(r[f])
    ensures Get(GroupFold(rows, fmt), f) == Get(rows[0], f)
  {
    if |rows| > 1 {
      var init := rows[..|rows| - 1];
      assert forall r :: r in init ==> r in rows;
      GroupFirstSeen(init, f, fmt);
      var d := rows[|rows| - 1];
      assert f !in NumericFields(d, d.Keys);
    }
  }

  /** A field that is a number in every row of the group is a number in the accumulator. */
  lemma {:induction false} GroupNumeric(rows: seq<Row>, f: string, fmt: NumberFormat)
    requires rows != []
    requires forall r :: r in rows ==> f in r && IsNumber(r[f])
    ensures f in GroupFold(rows, fmt) && IsNumber(GroupFold(rows, fmt)[f])
  {
    if |rows| > 1 {
      var init := rows[..|rows| - 1];
      assert forall r :: r in init ==> r in rows;
      GroupNumeric(init, f, fmt);
      var d := rows[|rows| - 1];
      var b := Bump(GroupFold(init, fmt), fmt);
      assert f in b && IsNumber(b[f]);
      AddOrZeroIsNumber(Get(b, f), d[f], fmt);
    }
  }

  // ---------------------------------------------------------------------
  // The emitted records

  /** `count` is bookkeeping: no emitted record has it. */
  lemma CountNotEmitted(data: seq<Row>, fmt: NumberFormat)
    ensures forall i :: 0 <= i < |AvgNumColsSpec(data, fmt)| ==> CountKey !in AvgNumColsSpec(data, fmt)[i]
  {
  }

  /** Sum-then-divide on one group: the finalised field is the real sum over the row count. */
  lemma GroupMean(rows: seq<Row>, f: string, fmt: NumberFormat)
    requires rows != [] && f != CountKey
    requires forall r :: r in rows && CountKey in r ==> !IsNumber(r[CountKey])
    requires forall r: Row :: r in rows ==> f in r && r[f].Num?
    ensures f in Finalize(GroupFold(rows, fmt))
    ensures Finalize(GroupFold(rows, fmt))[f] == Num(SumOf(rows, f) / |rows| as real)
  {
    GroupCount(rows, fmt);
    GroupSum(rows, f, fmt);
    var g := GroupFold(rows, fmt);
    assert Finalize(g)[f] == Div(g[f], g[CountKey]);
  }

  /**
   * Sum-then-divide: when no row holds a number in a `count` field and
   * every row of the key has a finite number in `f`, the record holds the
   * arithmetic mean.
   */
  lemma AveragedField(data: seq<Row>, fmt: NumberFormat, i: nat, f: string)
    requires i < |AvgNumColsSpec(data, fmt)| && f != CountKey
    requires forall r :: r in data && CountKey in r ==> !IsNumber(r[CountKey])
    requires var rows := RowsWithKey(data, Aggregate(data, fmt).order[i], fmt);
      forall r: Row :: r in rows ==> f in r && r[f].Num?
    ensures var rows := RowsWithKey(data, Aggregate(data, fmt).order[i], fmt);
      && rows != []
      && f in AvgNumColsSpec(data, fmt)[i]
      && AvgNumColsSpec(data, fmt)[i][f] == Num(SumOf(rows, f) / |rows| as real)
  {
    var key := Aggregate(data, fmt).order[i];
    var rows := RowsWithKey(data, key, fmt);
    AvgRecord(data, fmt, i);
    RowsWithKeyHaveKey(data, key, fmt);
    GroupMean(rows, f, fmt);
  }

  /** A field that no row of the key holds a number in takes the first row's value (or stays absent). */
  lemma FirstSeenField(data: seq<Row>, fmt: NumberFormat, i: nat, f: string)
    requires i < |AvgNumColsSpec(data, fmt)| && f != CountKey
    requires var rows := RowsWithKey(data, Aggregate(data, fmt).order[i], fmt);
      forall r :: r in rows && f in r ==> !IsNumber(r[f])
    ensures var rows := RowsWithKey(data, Aggregate(data, fmt).order[i], fmt);
      && rows != []
      && Get(AvgNumColsSpec(data, fmt)[i], f) == Get(rows[0], f)
  {
    var key := Aggregate(data, fmt).order[i];
    var rows := RowsWithKey(data, key, fmt);
    AvgRecord(data, fmt, i);
    RowsWithKeyHaveKey(data, key, fmt);
    GroupFirstSeen(rows, f, fmt);
  }

  /** A key seen once reproduces its row exactly (when the row has no `count` field). */
  lemma SingletonGroup(data: seq<Row>, fmt: NumberFormat, i: nat)
    requires i < |AvgNumColsSpec(data, fmt)|
    requires var rows := RowsWithKey(data, Aggregate(data, fmt).order[i], fmt);
      |rows| == 1 && CountKey !in rows[0]
    ensures AvgNumColsSpec(data, fmt)[i] == RowsWithKey(data, Aggregate(data, fmt).order[i], fmt)[0]
  {
    var key := Aggregate(data, fmt).order[i];
    var d := RowsWithKey(data, key, fmt)[0];
    AvgRecord(data, fmt, i);
    FinalizeSeed(d);
  }

  /** Seeding and finalizing a row without a `count` field gives the row back. */
  lemma FinalizeSeed(d: Row)
    requires CountKey !in d
    ensures Finalize(Seed(d)) == d
  {
    var g := Seed(d);
    assert g[CountKey] == Num(1.0);
    assert Finalize(g).Keys == d.Keys;
  }

  /** A field that is a number in every row stays a number in every record. */
  lemma NumericFieldStaysNumeric(data: seq<Row>, fmt: NumberFormat, f: string)
    requires f != CountKey
    requires forall r :: r in data ==> f in r && IsNumber(r[f])
    ensures forall i :: 0 <= i < |AvgNumColsSpec(data, fmt)| ==>
      f in AvgNumColsSpec(data, fmt)[i] && IsNumber(AvgNumColsSpec(data, fmt)[i][f])
  {
    forall i | 0 <= i < |AvgNumColsSpec(data, fmt)|
      ensures f in AvgNumColsSpec(data, fmt)[i] && IsNumber(AvgNumColsSpec(data, fmt)[i][f])
    {
      var key := Aggregate(data, fmt).order[i];
      AvgRecord(data, fmt, i);
      RowsWithKeyHaveKey(data, key, fmt);
      GroupNumeric(RowsWithKey(data, key, fmt), f, fmt);
    }
  }

  /**
   * When ids and months are text (as the loader delivers them), each
   * record carries the key of its group, so the records' keys are
   * pairwise distinct: the key identifies exactly one record.
   */
  lemma KeysIdentifyRecords(data: seq<Row>, fmt: NumberFormat)
    requires forall r :: r in data && IdKey in r ==> !IsNumber(r[IdKey])
    requires forall r :: r in data && MonthKey in r ==> !IsNumber(r[MonthKey])
    ensures forall i :: 0 <= i < |AvgNumColsSpec(data, fmt)| ==>
      GroupKey(AvgNumColsSpec(data, fmt)[i], fmt) == Aggregate(data, fmt).order[i]
    ensures forall i, j :: 0 <= i < j < |AvgNumColsSpec(data, fmt)| ==>
      GroupKey(AvgNumColsSpec(data, fmt)[i], fmt) != GroupKey(AvgNumColsSpec(data, fmt)[j], fmt)
  {
    forall i | 0 <= i < |AvgNumColsSpec(data, fmt)|
      ensures GroupKey(AvgNumColsSpec(data, fmt)[i], fmt) == Aggregate(data, fmt).order[i]
    {
      var key := Aggregate(data, fmt).order[i];
      var rows := RowsWithKey(data, key, fmt);
      RowsWithKeyHaveKey(data, key, fmt);
      FirstSeenField(data, fmt, i, IdKey);
      FirstSeenField(data, fmt, i, MonthKey);
      assert rows[0] in rows;
    }
  }
}
