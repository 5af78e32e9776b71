/**
 * `convertToNum`: turns the listed columns of every row into numbers, in
 * place. An empty text becomes 0; any other text has its first comma
 * replaced by a point and goes to `parseFloat`. A cell that is missing or
 * already a number makes `val.indexOf` throw a TypeError, which stops the
 * conversion with the rows before it converted and the current row
 * converted up to that column.
 */
module NumericCoercion {
  import opened JsValues

  /** `parseFloat`, which the model does not look inside. */
  type ParseFloat = string -> Number

  predicate NoDup(cols: seq<string>) {
    forall i, j :: 0 <= i < j < |cols| ==> cols[i] != cols[j]
  }

  /** `s.replace(from, to)` with a one-character pattern: only the first occurrence is replaced. */
  function ReplaceFirst(s: string, from: char, to: char): (t: string)
    ensures |t| == |s|
    ensures from !in s ==> t == s
    ensures from in s ==> to in t
  {
    if s == [] then []
    else if s[0] == from then [to] + s[1..]
    else [s[0]] + ReplaceFirst(s[1..], from, to)
  }

  /** Lines 33-40 for a text value. */
  function NormalizeText(s: string, parse: ParseFloat): (r: Number)
    ensures s == "" ==> r == Num(0.0)
    ensures s != "" && ',' !in s ==> r == parse(s)
  {
    if s == "" then Num(0.0)
    else parse(if ',' in s then ReplaceFirst(s, ',', '.') else s)
  }

  /** One cell: None is the TypeError that `val.indexOf` raises on a value that is not text. */
  function ConvertCell(v: Option<Value>, parse: ParseFloat): (r: Option<Number>)
    ensures r.None? <==> v.None? || !v.value.Str?
    ensures v == Some(Str("")) ==> r == Some(Num(0.0))
  {
    if v.Some? && v.value.Str? then Some(NormalizeText(v.value.s, parse)) else None
  }

  /** The inner loop of lines 29-42 over one row: the row it leaves, and whether it ran to the end. */
  function ConvertRow(row: Row, cols: seq<string>, parse: ParseFloat): (Row, bool)
  {
    if cols == [] then (row, true)
    else
      var (r, ok) := ConvertRow(row, cols[..|cols| - 1], parse);
      var col := cols[|cols| - 1];
      if !ok then (r, false)
      else match ConvertCell(Get(r, col), parse)
        case None => (r, false)
        case Some(v) => (r[col := v], true)
  }

  /** The outer loop of lines 27-43: the rows it leaves, and whether no TypeError was thrown. */
  function ConvertRows(rows: seq<Row>, cols: seq<string>, parse: ParseFloat): (r: (seq<Row>, bool))
    ensures |r.0| == |rows|
  {
    if rows == [] then ([], true)
    else
      var (done, ok) := ConvertRows(rows[..|rows| - 1], cols, parse);
      var last := rows[|rows| - 1];
      if !ok then (done + [last], false)
      else
        var (r, ok') := ConvertRow(last, cols, parse);
        (done + [r], ok')
  }

  lemma {:induction false} ConvertRowFailSticks(row: Row, cols: seq<string>, parse: ParseFloat, j: nat)
    requires j <= |cols|
    requires !ConvertRow(row, cols[..j], parse).1
    ensures ConvertRow(row, cols, parse) == ConvertRow(row, cols[..j], parse)
    decreases |cols|
  {
    if j < |cols| {
      assert cols[..|cols| - 1][..j] == cols[..j];
      ConvertRowFailSticks(row, cols[..|cols| - 1], parse, j);
    } else {
      assert cols[..j] == cols;
    }
  }

  lemma {:induction false} ConvertRowsFailSticks(rows: seq<Row>, cols: seq<string>, parse: ParseFloat, n: nat)
    requires n <= |rows|
    requires !ConvertRows(rows[..n], cols, parse).1
    ensures ConvertRows(rows, cols, parse) == (ConvertRows(rows[..n], cols, parse).0 + rows[n..], false)
    decreases |rows|
  {
    if n < |rows| {
      var init := rows[..|rows| - 1];
      assert init[..n] == rows[..n];
      ConvertRowsFailSticks(init, cols, parse, n);
      var pre := ConvertRows(rows[..n], cols, parse).0;
      assert ConvertRows(init, cols, parse) == (pre + init[n..], false);
      assert (pre + init[n..]) + [rows[|rows| - 1]] == pre + rows[n..];
    } else {
      assert rows[..n] == rows;
      var (out, ok) := ConvertRows(rows, cols, parse);
      assert out + rows[n..] == out;
    }
  }

  /** One more column of the inner loop of lines 29-42. */
  lemma ConvertRowStep(row0: Row, cols: seq<string>, j: nat, parse: ParseFloat)
    requires j < |cols| && ConvertRow(row0, cols[..j], parse).1
    ensures var (row, _) := ConvertRow(row0, cols[..j], parse);
      ConvertRow(row0, cols[..j + 1], parse) ==
        match ConvertCell(Get(row, cols[j]), parse)
        case None => (row, false)
        case Some(v) => (row[cols[j] := v], true)
  {
    assert cols[..j + 1][..j] == cols[..j];
  }

  /**
   * The inner loop of lines 29-42 on the row object `row0`: it converts the
   * listed columns in order and stops at the first cell that is not text.
   */
  method ConvertRowInPlace(row0: Row, cols: seq<string>, parse: ParseFloat) returns (row: Row, ok: bool)
    ensures (row, ok) == ConvertRow(row0, cols, parse)
  {
    row, ok := row0, true;
    var j := 0;
    while j < |cols|
      invariant 0 <= j <= |cols|
      invariant ConvertRow(row0, cols[..j], parse) == (row, true)
    {
      ConvertRowStep(row0, cols, j, parse);
      var col := cols[j];
      var val := Get(row, col);
      if val == Some(Str("")) {
        row := row[col := Num(0.0)];
      } else {
        if !(val.Some? && val.value.Str?) {
          // `val.indexOf(',')` throws a TypeError
          ok := false;
          ConvertRowFailSticks(row0, cols, parse, j + 1);
          return;
        }
        var text := val.value.s;
        if ',' in text {
          text := ReplaceFirst(text, ',', '.');
        }
        row := row[col := parse(text)];
      }
      j := j + 1;
    }
    assert cols[..j] == cols;
  }

  /**
   * `convertToNum(data, col_list)` (lines 26-46). It changes the rows of
   * `data` in place and hands back the same array; `ok` is false when a
   * TypeError escaped, and the array then holds the partly converted rows.
   */
  method ConvertToNum(data: array<Row>, cols: seq<string>, parse: ParseFloat) returns (ok: bool)
    modifies data
    ensures (data[..], ok) == ConvertRows(old(data[..]), cols, parse)
  {
    ghost var orig := data[..];
    ghost var done: seq<Row> := [];
    var i := 0;
    while i < data.Length
      invariant 0 <= i <= data.Length && |done| == i
      invariant data[..] == done + orig[i..]
      invariant ConvertRows(orig[..i], cols, parse) == (done, true)
    {
      assert data[i] == orig[i] by { assert data[..][i] == (done + orig[i..])[i]; }
      // the row object `data[i]` is converted where it stands
      var row;
      row, ok := ConvertRowInPlace(data[i], cols, parse);
      ConvertRowsNext(orig, i, done, row, ok, cols, parse);
      ghost var before := data[..];
      data[i] := row;
      assert data[..] == before[i := row];
      SplicePrefix(done, orig, row);
      done := done + [row];
      if !ok {
        ConvertRowsFailSticks(orig, cols, parse, i + 1);
        assert ConvertRows(orig, cols, parse) == (data[..], false);
        return;
      }
      i := i + 1;
    }
    ok := true;
    assert orig[..i] == orig && orig[i..] == [];
    assert data[..] == done;
  }

  /** Overwriting the first unconverted row extends the converted prefix. */
  lemma SplicePrefix(done: seq<Row>, rows: seq<Row>, row: Row)
    requires |done| < |rows|
    ensures (done + rows[|done|..])[|done| := row] == (done + [row]) + rows[|done| + 1..]
  {
  }

  /** One more row through the outer loop. */
  lemma ConvertRowsNext(rows: seq<Row>, i: nat, done: seq<Row>, row: Row, ok: bool, cols: seq<string>, parse: ParseFloat)
    requires i < |rows|
    requires ConvertRows(rows[..i], cols, parse) == (done, true)
    requires ConvertRow(rows[i], cols, parse) == (row, ok)
    ensures ConvertRows(rows[..i + 1], cols, parse) == (done + [row], ok)
  {
    assert rows[..i + 1][..i] == rows[..i];
  }

  // ---------------------------------------------------------------------
  // The first comma

  /** Text without a comma reaches `parseFloat` unchanged. */
  lemma {:induction false} ReplaceFirstWithoutComma(s: string)
    requires ',' !in s
    ensures ReplaceFirst(s, ',', '.') == s
  {
    if s != [] {
      assert ',' !in s[1..] by { assert forall c :: c in s[1..] ==> c in s; }
      ReplaceFirstWithoutComma(s[1..]);
    }
  }

  /** Only the first comma becomes a point; everything after it is kept. */
  lemma {:induction false} ReplaceFirstComma(a: string, b: string)
    requires ',' !in a
    ensures ReplaceFirst(a + [','] + b, ',', '.') == a + ['.'] + b
  {
    var s := a + [','] + b;
    if a == [] {
      assert s == [','] + b;
    } else {
      assert s[0] == a[0] != ',';
      assert s[1..] == a[1..] + [','] + b;
      assert ',' !in a[1..] by { assert forall c :: c in a[1..] ==> c in a; }
      ReplaceFirstComma(a[1..], b);
      assert a + ['.'] + b == [a[0]] + (a[1..] + ['.'] + b);
    }
  }

  /** `"1,5"` is read as `"1.5"`, and `"1,234,5"` as `"1.234,5"`. */
  lemma CommaExamples()
    ensures ReplaceFirst("1,5", ',', '.') == "1.5"
    ensures ReplaceFirst("1,234,5", ',', '.') == "1.234,5"
  {
  }

  /** What a text cell becomes: 0 for `''`, otherwise `parseFloat` of the text with its first comma made a point. */
  lemma {:induction false} NormalizeTextCases(s: string, parse: ParseFloat)
    ensures s == "" ==> NormalizeText(s, parse) == Num(0.0)
    ensures s != "" && ',' !in s ==> NormalizeText(s, parse) == parse(s)
    ensures forall a, b :: s == a + [','] + b && ',' !in a ==> NormalizeText(s, parse) == parse(a + ['.'] + b)
  {
    forall a, b | s == a + [','] + b && ',' !in a ensures NormalizeText(s, parse) == parse(a + ['.'] + b) {
      ReplaceFirstComma(a, b);
      assert s[|a|] == ',';
    }
  }

  // ---------------------------------------------------------------------
  // One row

  /**
   * When the loop over the columns runs to the end, the columns are
   * distinct text cells of the row, each listed column holds the
   * converted text, and every other field is unchanged.
   */
  lemma {:induction false} ConvertRowResult(row: Row, cols: seq<string>, parse: ParseFloat)
    requires ConvertRow(row, cols, parse).1
    ensures NoDup(cols)
    ensures forall c :: c in cols ==> c in row && row[c].Str?
    ensures ConvertRow(row, cols, parse).0.Keys == row.Keys
    ensures forall c :: c in cols ==> ConvertRow(row, cols, parse).0[c] == NormalizeText(row[c].s, parse)
    ensures forall k :: k in row && k !in cols ==> ConvertRow(row, cols, parse).0[k] == row[k]
  {
    if cols != [] {
      var init := cols[..|cols| - 1];
      var c := cols[|cols| - 1];
      assert cols == init + [c];
      ConvertRowResult(row, init, parse);
      var r := ConvertRow(row, init, parse).0;
      assert c !in init;
    }
  }

  /** A row whose listed columns are distinct and all hold text converts without a TypeError. */
  lemma {:induction false} ConvertRowSucceeds(row: Row, cols: seq<string>, parse: ParseFloat)
    requires NoDup(cols)
    requires forall c :: c in cols ==> c in row && row[c].Str?
    ensures ConvertRow(row, cols, parse).1
  {
    if cols != [] {
      var init := cols[..|cols| - 1];
      var c := cols[|cols| - 1];
      assert cols == init + [c];
      ConvertRowSucceeds(row, init, parse);
      ConvertRowResult(row, init, parse);
      assert c !in init;
    }
  }

  // ---------------------------------------------------------------------
  // All rows

  /** The rows convert without a TypeError exactly when each row does on its own. */
  lemma {:induction false} ConvertRowsOk(rows: seq<Row>, cols: seq<string>, parse: ParseFloat)
    ensures ConvertRows(rows, cols, parse).1 <==> forall i :: 0 <= i < |rows| ==> ConvertRow(rows[i], cols, parse).1
  {
    if rows != [] {
      var init := rows[..|rows| - 1];
      ConvertRowsOk(init, cols, parse);
      assert forall i :: 0 <= i < |init| ==> init[i] == rows[i];
    }
  }

  /** Without a TypeError the rows are converted one by one: same count, same order. */
  lemma {:induction false} ConvertRowsPointwise(rows: seq<Row>, cols: seq<string>, parse: ParseFloat)
    ensures ConvertRows(rows, cols, parse).1 <==> forall i :: 0 <= i < |rows| ==> ConvertRow(rows[i], cols, parse).1
    ensures ConvertRows(rows, cols, parse).1 ==>
      && |ConvertRows(rows, cols, parse).0| == |rows|
      && forall i :: 0 <= i < |rows| ==> ConvertRows(rows, cols, parse).0[i] == ConvertRow(rows[i], cols, parse).0
  {
    ConvertRowsOk(rows, cols, parse);
    if rows != [] && ConvertRows(rows, cols, parse).1 {
      var init, last := rows[..|rows| - 1], rows[|rows| - 1];
      ConvertRowsPointwise(init, cols, parse);
      var done := ConvertRows(init, cols, parse).0;
      var out := done + [ConvertRow(last, cols, parse).0];
      assert ConvertRows(rows, cols, parse).0 == out;
      forall i | 0 <= i < |init| ensures out[i] == ConvertRow(rows[i], cols, parse).0 {
        assert init[i] == rows[i];
      }
    }
  }

  /**
   * The conversion succeeds exactly when there are no rows, or the
   * columns are distinct and every row holds text in every listed column.
   */
  lemma {:induction false} ConvertRowsSucceedIff(rows: seq<Row>, cols: seq<string>, parse: ParseFloat)
    ensures ConvertRows(rows, cols, parse).1 <==>
      && (rows == [] || NoDup(cols))
      && forall i, c :: 0 <= i < |rows| && c in cols ==> c in rows[i] && rows[i][c].Str?
  {
    ConvertRowsPointwise(rows, cols, parse);
    if ConvertRows(rows, cols, parse).1 {
      forall i | 0 <= i < |rows| ensures NoDup(cols) && forall c :: c in cols ==> c in rows[i] && rows[i][c].Str? {
        ConvertRowResult(rows[i], cols, parse);
      }
      if rows != [] {
        ConvertRowResult(rows[0], cols, parse);
      }
    } else if (rows == [] || NoDup(cols)) && forall i, c :: 0 <= i < |rows| && c in cols ==> c in rows[i] && rows[i][c].Str? {
      forall i | 0 <= i < |rows| ensures ConvertRow(rows[i], cols, parse).1 {
        ConvertRowSucceeds(rows[i], cols, parse);
      }
    }
  }

  /**
   * When row `i` is the first to throw, the rows before it are converted,
   * row `i` is converted up to the failing column, and the rest are untouched.
   */
  lemma {:induction false} ConvertRowsFailure(rows: seq<Row>, cols: seq<string>, parse: ParseFloat, i: nat)
    requires i < |rows|
    requires forall k :: 0 <= k < i ==> ConvertRow(rows[k], cols, parse).1
    requires !ConvertRow(rows[i], cols, parse).1
    ensures !ConvertRows(rows, cols, parse).1
    ensures ConvertRows(rows, cols, parse).0 ==
      seq(i, k requires 0 <= k < i => ConvertRow(rows[k], cols, parse).0) + [ConvertRow(rows[i], cols, parse).0] + rows[i + 1..]
  {
    var pre := rows[..i];
    ConvertRowsPointwise(pre, cols, parse);
    assert rows[..i + 1][..i] == pre;
    ConvertRowsFailSticks(rows, cols, parse, i + 1);
    assert ConvertRows(pre, cols, parse).0 == seq(i, k requires 0 <= k < i => ConvertRow(rows[k], cols, parse).0);
  }

  /**
   * After a conversion without TypeError, every listed column of every row
   * is a number: 0 for `''`, `parseFloat` of the comma-fixed text
   * otherwise; unlisted fields, the row count and the order are unchanged.
   */
  lemma {:induction false} ConvertRowsResult(rows: seq<Row>, cols: seq<string>, parse: ParseFloat)
    requires ConvertRows(rows, cols, parse).1
    ensures |ConvertRows(rows, cols, parse).0| == |rows|
    ensures forall i :: 0 <= i < |rows| ==> ConvertRows(rows, cols, parse).0[i].Keys == rows[i].Keys
    ensures forall i, c :: 0 <= i < |rows| && c in cols ==>
      && c in rows[i] && rows[i][c].Str?
      && ConvertRows(rows, cols, parse).0[i][c] == NormalizeText(rows[i][c].s, parse)
    ensures forall i, k :: 0 <= i < |rows| && k in rows[i] && k !in cols ==>
      ConvertRows(rows, cols, parse).0[i][k] == rows[i][k]
  {
    ConvertRowsPointwise(rows, cols, parse);
    forall i | 0 <= i < |rows|
      ensures ConvertRows(rows, cols, parse).0[i].Keys == rows[i].Keys
      ensures forall c :: c in cols ==> c in rows[i] && rows[i][c].Str? && ConvertRows(rows, cols, parse).0[i][c] == NormalizeText(rows[i][c].s, parse)
      ensures forall k :: k in rows[i] && k !in cols ==> ConvertRows(rows, cols, parse).0[i][k] == rows[i][k]
    {
      ConvertRowResult(rows[i], cols, parse);
    }
  }
}
