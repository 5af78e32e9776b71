/**
 * The geo left-join of `addGeoData`: an index of geo rows by listing id
 * (first row per id wins, its `month` deleted), an overlay of each market
 * row by the geo row of its id, and a filter that keeps the rows whose
 * latitude and longitude are both defined.
 */
module GeoJoin {
  import opened JsValues
  import opened Columns

  /** The join key `d.unified_id`; None is `undefined`, which the JavaScript Map accepts as a key too. */
  function IdOf(r: Row): Option<Value> { Get(r, IdKey) }

  /** `delete d.month` */
  function StripMonth(r: Row): (s: Row)
    ensures s.Keys == r.Keys - {MonthKey}
    ensures forall k :: k in s ==> s[k] == r[k]
  {
    r - {MonthKey}
  }

  function StripMonths(s: seq<Row>): (t: seq<Row>)
    ensures |t| == |s|
  {
    seq(|s|, i requires 0 <= i < |s| => StripMonth(s[i]))
  }

  type GeoIndexMap = map<Option<Value>, Row>

  /** The Map that the `forEach` over the geo rows leaves behind. */
  function GeoIndex(geo: seq<Row>): (index: GeoIndexMap)
    ensures forall k :: k in index ==> IdOf(index[k]) == k
  {
    if geo == [] then map[]
    else
      var m := GeoIndex(geo[..|geo| - 1]);
      var d := geo[|geo| - 1];
      if IdOf(d) in m then m else m[IdOf(d) := StripMonth(d)]
  }

  /** The object spread `{...d1, ...(d2 || {})}`: fields of the geo row win. */
  function Overlay(d1: Row, index: GeoIndexMap): (r: Row)
    ensures IdOf(d1) in index ==> r.Keys == d1.Keys + index[IdOf(d1)].Keys
    ensures IdOf(d1) !in index ==> r == d1
  {
    if IdOf(d1) in index then d1 + index[IdOf(d1)] else d1
  }

  /** `d['latitude'] !== undefined && d['longitude'] !== undefined` */
  predicate HasCoordinates(r: Row) { LatKey in r && LonKey in r }

  /** `merged_data.filter(...)` with the coordinate test, in input order. */
  function KeepLocated(s: seq<Row>): (t: seq<Row>)
    ensures |t| <= |s|
    ensures forall i :: 0 <= i < |t| ==> HasCoordinates(t[i])
  {
    if s == [] then []
    else
      var rest := KeepLocated(s[..|s| - 1]);
      if HasCoordinates(s[|s| - 1]) then rest + [s[|s| - 1]] else rest
  }

  function OverlayAll(mart: seq<Row>, index: GeoIndexMap): (t: seq<Row>)
    ensures |t| == |mart|
  {
    seq(|mart|, i requires 0 <= i < |mart| => Overlay(mart[i], index))
  }

  /** What `addGeoData` returns for market rows and an index. */
  function Join(mart: seq<Row>, index: GeoIndexMap): seq<Row> {
    KeepLocated(OverlayAll(mart, index))
  }

  /**
   * Lines 3-9: builds the index in one pass over the geo rows, deleting
   * `month` from every geo row (the caller's rows are changed too) and
   * keeping the first row seen for each id.
   */
  method BuildGeoIndex(geo: array<Row>) returns (index: GeoIndexMap)
    modifies geo
    ensures geo[..] == StripMonths(old(geo[..]))
    ensures index == GeoIndex(old(geo[..]))
  {
    index := map[];
    var i := 0;
    while i < geo.Length
      invariant 0 <= i <= geo.Length
      invariant geo[..i] == StripMonths(old(geo[..i]))
      invariant geo[i..] == old(geo[i..])
      invariant index == GeoIndex(old(geo[..i]))
    {
      ghost var pre := old(geo[..i + 1]);
      assert pre[..i] == old(geo[..i]);
      var d := geo[i];
      d := StripMonth(d);
      geo[i] := d;
      if IdOf(d) !in index {
        index := index[IdOf(d) := d];
      }
      i := i + 1;
      assert geo[i..] == old(geo[i..]) by {
        assert forall k :: i <= k < geo.Length ==> geo[k] == old(geo[k]);
      }
    }
    assert geo[..] == geo[..geo.Length];
    assert old(geo[..]) == old(geo[..geo.Length]);
  }

  /** `addGeoData(mart_data, geo_data)` (lines 1-24). */
  method AddGeoData(mart: seq<Row>, geo: array<Row>) returns (merged: seq<Row>)
    modifies geo
    ensures geo[..] == StripMonths(old(geo[..]))
    ensures merged == Join(mart, GeoIndex(old(geo[..])))
  {
    var index := BuildGeoIndex(geo);
    merged := OverlayAll(mart, index);
    merged := KeepLocated(merged);
  }

  // ---------------------------------------------------------------------
  // Properties of the index

  /** Stripping never changes the id, so it does not matter which copy the key is read from. */
  lemma StripMonthKeepsId(r: Row)
    ensures IdOf(StripMonth(r)) == IdOf(r)
    ensures MonthKey !in StripMonth(r)
  {
  }

  /** The index has exactly one key per id that occurs among the geo rows. */
  lemma {:induction false} GeoIndexKeys(geo: seq<Row>)
    ensures forall k :: k in GeoIndex(geo) <==> exists i :: 0 <= i < |geo| && IdOf(geo[i]) == k
  {
    if geo != [] {
      var init := geo[..|geo| - 1];
      GeoIndexKeys(init);
      forall k ensures k in GeoIndex(geo) <==> exists i :: 0 <= i < |geo| && IdOf(geo[i]) == k {
        if k in GeoIndex(geo) && k != IdOf(geo[|geo| - 1]) {
          assert k in GeoIndex(init);
          var i :| 0 <= i < |init| && IdOf(init[i]) == k;
          assert IdOf(geo[i]) == k;
        }
        if exists i :: 0 <= i < |geo| && IdOf(geo[i]) == k {
          var i :| 0 <= i < |geo| && IdOf(geo[i]) == k;
          if i < |init| {
            assert IdOf(init[i]) == k;
          }
        }
      }
    }
  }

  /**
   * First-wins: the row stored under an id is the first geo row with
   * that id, with its month deleted; later rows with the same id are ignored.
   */
  lemma {:induction false} GeoIndexFirstWins(geo: seq<Row>, j: nat)
    requires j < |geo|
    requires forall i :: 0 <= i < j ==> IdOf(geo[i]) != IdOf(geo[j])
    ensures IdOf(geo[j]) in GeoIndex(geo)
    ensures GeoIndex(geo)[IdOf(geo[j])] == StripMonth(geo[j])
    ensures MonthKey !in GeoIndex(geo)[IdOf(geo[j])]
  {
    var init := geo[..|geo| - 1];
    if j < |geo| - 1 {
      GeoIndexFirstWins(init, j);
    } else {
      GeoIndexKeys(init);
      forall i | 0 <= i < |init| ensures IdOf(init[i]) != IdOf(geo[j]) {
        assert init[i] == geo[i];
      }
    }
  }

  /** No row of the index carries a month. */
  lemma {:induction false} GeoIndexHasNoMonth(geo: seq<Row>)
    ensures forall k :: k in GeoIndex(geo) ==> MonthKey !in GeoIndex(geo)[k]
  {
    if geo != [] {
      GeoIndexHasNoMonth(geo[..|geo| - 1]);
    }
  }

  // ---------------------------------------------------------------------
  // Properties of the overlay

  /**
   * A market row with a geo match becomes the union of both rows, geo
   * values winning where both have a field; a row without a match is
   * copied field for field.
   */
  lemma OverlayPrecedence(d1: Row, index: GeoIndexMap)
    ensures IdOf(d1) !in index ==> Overlay(d1, index) == d1
    ensures IdOf(d1) in index ==>
      var d2 := index[IdOf(d1)];
      && Overlay(d1, index).Keys == d1.Keys + d2.Keys
      && (forall f :: f in d2 ==> Overlay(d1, index)[f] == d2[f])
      && (forall f :: f in d1 && f !in d2 ==> Overlay(d1, index)[f] == d1[f])
  {
  }

  /** Because `month` is deleted from the geo rows, the market row's month always survives the overlay. */
  lemma {:induction false} OverlayKeepsMarketMonth(d1: Row, geo: seq<Row>)
    ensures Get(Overlay(d1, GeoIndex(geo)), MonthKey) == Get(d1, MonthKey)
  {
    GeoIndexHasNoMonth(geo);
  }

  // ---------------------------------------------------------------------
  // Properties of the coordinate filter

  /** The filter keeps exactly the rows with both coordinates defined and never adds rows. */
  lemma {:induction false} KeepLocatedMembers(s: seq<Row>)
    ensures |KeepLocated(s)| <= |s|
    ensures forall r :: r in KeepLocated(s) <==> r in s && HasCoordinates(r)
  {
    if s != [] {
      KeepLocatedMembers(s[..|s| - 1]);
      assert s == s[..|s| - 1] + [s[|s| - 1]];
    }
  }

  /** The filter keeps the input order: it distributes over concatenation. */
  lemma {:induction false} KeepLocatedAppend(s: seq<Row>, t: seq<Row>)
    ensures KeepLocated(s + t) == KeepLocated(s) + KeepLocated(t)
    decreases |t|
  {
    if t == [] {
      assert s + t == s;
    } else {
      var t' := t[..|t| - 1];
      assert (s + t)[..|s + t| - 1] == s + t';
      KeepLocatedAppend(s, t');
    }
  }

  /** The filter looks only for absence: a row whose coordinates are present keeps them, whatever they hold. */
  lemma KeepLocatedSingle(r: Row)
    ensures KeepLocated([r]) == if HasCoordinates(r) then [r] else []
  {
    assert [r][..0] == [];
  }

  /** Every joined row has coordinates, and there are at most as many as market rows. */
  lemma {:induction false} JoinProperties(mart: seq<Row>, index: GeoIndexMap)
    ensures |Join(mart, index)| <= |mart|
    ensures forall r :: r in Join(mart, index) <==>
      exists i :: 0 <= i < |mart| && r == Overlay(mart[i], index) && HasCoordinates(r)
  {
    var all := OverlayAll(mart, index);
    KeepLocatedMembers(all);
    forall r ensures r in Join(mart, index) <==>
      exists i :: 0 <= i < |mart| && r == Overlay(mart[i], index) && HasCoordinates(r)
    {
      if r in Join(mart, index) {
        var i :| 0 <= i < |all| && all[i] == r;
        assert r == Overlay(mart[i], index);
      }
      if exists i :: 0 <= i < |mart| && r == Overlay(mart[i], index) && HasCoordinates(r) {
        var i :| 0 <= i < |mart| && r == Overlay(mart[i], index) && HasCoordinates(r);
        assert all[i] == r;
      }
    }
  }
}
