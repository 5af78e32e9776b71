# Short-term-rental dashboard: the ingestion pipeline in Dafny

This project models the data preparation behind the rental-market
dashboard, as `dataset_processing.js` does it, and proves properties of it.
The market file and the geolocation file are read into lists of rows. The
pipeline then runs these stages:

1. With geolocation asked for, `addGeoData` left-joins each market row with
   the first geo row of the same `unified_id`. It deletes the geo rows'
   `month` first. It drops every row without both `latitude` and `longitude`.
   The filter tests only absence and runs before the coercion, so a
   coordinate that `parseFloat` later turns into NaN is kept
   (`GeoJoin.KeepLocatedSingle`, `Pipeline.RecordsNumeric`).
2. `convertToNum` turns the nine domain columns into numbers in place, plus
   the two coordinates when geolocation is on. Empty text becomes 0. Any
   other text has its first comma replaced by a point and goes to
   `parseFloat`.
3. `avgNumCols` groups the rows by the string `${unified_id}_${month}`. It
   sums every numeric field with `(group[k] || 0) + val` and divides by the
   group's row count. Every other field keeps its first-seen value.

How the model represents the JavaScript:

- A row is a `map<string, Value>`; a field missing from the map is `undefined`.
  That is exact for the rows' own fields. The accumulator objects of
  `avgNumCols` also inherit the members of `Object.prototype`, which the
  model does not represent (see "## Left out").
- A value is text or a JavaScript number, written `Num(x)` for a finite
  number, `NaN` or `Inf(negative)`.
- The model spells out every JavaScript operation the code relies on:
  - truthiness and `|| 0`;
  - `+`, which concatenates as soon as one side is text;
  - division, including division by zero;
  - `typeof val === 'number'`;
  - the template literal.
- `parseFloat` is a parameter `parse: string -> Number`.
- Printing a finite number as text is a parameter `fmt: real -> string`.

What is imperative in the source is imperative in the model. The geo index
build and `convertToNum` are methods over an `array<Row>`, and they change
the rows in place as the source does. The loops of `avgNumCols` are methods
too: `GroupRows` loops over the rows, `EmitGroups` over the Map's entries in
insertion order, and `NewGroup`, `AddToGroup` and `AverageGroup` over the
fields of one row or accumulator. Each method is proved equal to a
specification function (`GeoIndex`, `ConvertRows`, `Aggregate`, `Emit`,
`LoadDataSpec`), and the properties are lemmas about those functions.

The arrays that `addGeoData` and `convertToNum` change are the ones
`loadData` reads from the two files on each call (lines 104-105). Deleting
`month` from the geo rows (line 5) and writing the converted cells (lines
34 and 40) change only that per-call data, and the records of `avgNumCols`
are new objects (line 87). In the model the two loaded row lists are
parameters of `Pipeline.LoadData`, so its ensures say exactly which array
changes in each branch: with geolocation the geo rows lose their `month`
and the market rows are unchanged; without it the market rows are
converted in place and the geo rows are unchanged.

Modules:

- `JsValues`: values, truthiness, `+` and `/`.
- `Columns`: the column names in use.
- `GeoJoin`: `addGeoData`.
- `NumericCoercion`: `convertToNum`.
- `Aggregation`: `avgNumCols`.
- `AggregationProperties`: lemmas about the averaged records.
- `AggregationExamples`: concrete runs of `avgNumCols`.
- `Pipeline`: the stage sequence of `loadData`.

## Model

| member | source | states |
|---|---|---|
| `JsValues.IsNumber` | dataset_processing.js:75 | `typeof val === 'number'` (the same test as lines 61 and 92) holds for finite numbers, NaN and the infinities, and for no string |
| `JsValues.Truthy` | dataset_processing.js:76 | A value is falsy exactly when it is the empty string, 0 or NaN |
| `JsValues.OrZero` | dataset_processing.js:76 | The fallback to 0 on the running sum gives the stored value when it is truthy and 0 when it is absent or falsy, so never NaN or the empty string |
| `JsValues.Text` | dataset_processing.js:53 | A value as the template literal prints it: absent is "undefined", text is itself, a finite number is its printed form |
| `JsValues.Add` | dataset_processing.js:76 | `+` concatenates exactly when one side is text, and then joins both printed forms; `undefined` plus a number is NaN; two finite numbers add as reals |
| `JsValues.NumAdd` | dataset_processing.js:76 | Number plus number is a number; finite operands add as reals; the sum is NaN exactly when an operand is NaN or the operands are opposite infinities |
| `JsValues.Div` | dataset_processing.js:92 | `val / count` on numbers is a number; dividing by 1 gives `val` back; finite by nonzero finite is the real quotient |
| `JsValues.AddOrZeroIsNumber` | dataset_processing.js:76 | The running sum (stored value, or 0 when it is falsy, plus `val`) is a number whenever `val` is a number and the stored value is a number or absent |
| `GeoJoin.BuildGeoIndex` | dataset_processing.js:3-9 | The caller's geo rows lose their `month` field, and the returned index equals `GeoIndex` of the original rows |
| `GeoJoin.AddGeoData` | dataset_processing.js:1-24 | The geo rows are stripped of `month` in place, and the result equals the filtered overlay of the market rows by the index of the original geo rows |
| `GeoJoin.GeoIndex` | dataset_processing.js:3-9 | Every entry of the index is keyed by the id of the row it holds |
| `GeoJoin.StripMonth` | dataset_processing.js:5 | `delete d['month']` leaves exactly the other fields, with their values |
| `GeoJoin.StripMonthKeepsId` | dataset_processing.js:5-7 | Deleting `month` does not change the id used as the index key, and leaves no `month` field |
| `GeoJoin.GeoIndexKeys` | dataset_processing.js:4-8 | The index holds a key exactly when some geo row has that `unified_id` (an absent id is the key `undefined`) |
| `GeoJoin.GeoIndexFirstWins` | dataset_processing.js:4-9 | For the first geo row with a given id, the index maps that id to that row with `month` deleted; later rows with the same id are ignored |
| `GeoJoin.GeoIndexHasNoMonth` | dataset_processing.js:5 | No row in the index has a `month` field |
| `GeoJoin.Overlay` | dataset_processing.js:12-18 | A matched market row gets the union of its fields and its geo row's; an unmatched one is returned unchanged |
| `GeoJoin.OverlayPrecedence` | dataset_processing.js:12-18 | A matched row has the union of both rows' fields, geo values winning on a clash and market values kept elsewhere; an unmatched row is copied unchanged |
| `GeoJoin.OverlayKeepsMarketMonth` | dataset_processing.js:5-18 | After the overlay, a row's `month` is always the market row's `month` (or absent if that was absent) |
| `GeoJoin.KeepLocated` | dataset_processing.js:21 | The filter never lengthens the list, and every row it keeps satisfies `HasCoordinates` (both `latitude` and `longitude` present) |
| `GeoJoin.KeepLocatedMembers` | dataset_processing.js:21 | The filter keeps exactly the rows that have both coordinates and never lengthens the list |
| `GeoJoin.KeepLocatedAppend` | dataset_processing.js:21 | The filter distributes over concatenation, so it keeps the input order |
| `GeoJoin.KeepLocatedSingle` | dataset_processing.js:21 | A single row is kept exactly when both coordinate fields are present, whatever values they hold |
| `GeoJoin.JoinProperties` | dataset_processing.js:12-21 | There are at most as many joined rows as market rows, and a row is joined exactly when it is the overlay of some market row and has both coordinates |
| `NumericCoercion.ConvertRowInPlace` | dataset_processing.js:29-42 | The inner loop over one row object leaves the row and the success flag that `ConvertRow` specifies |
| `NumericCoercion.ConvertRowStep` | dataset_processing.js:31-40 | One more column converts its cell if it is text and otherwise stops the row with a TypeError |
| `NumericCoercion.ConvertToNum` | dataset_processing.js:26-46 | The array afterwards holds exactly the rows `ConvertRows` specifies for its old contents, and `ok` says whether no TypeError escaped |
| `NumericCoercion.ConvertRowsNext` | dataset_processing.js:27-43 | After the first `i` rows converted without error, one more row appends its converted form and its success flag |
| `NumericCoercion.ConvertRowFailSticks` | dataset_processing.js:29-42 | Once a column throws, the later columns of the row change nothing more |
| `NumericCoercion.ConvertRowsFailSticks` | dataset_processing.js:27-43 | Once a row throws, the rows after it are left as they were |
| `NumericCoercion.ReplaceFirst` | dataset_processing.js:38 | `replace(',', '.')` keeps the length, changes nothing when there is no comma, and otherwise puts a point in the text |
| `NumericCoercion.NormalizeText` | dataset_processing.js:33-40 | Empty text becomes 0, and text without a comma goes to `parseFloat` unchanged |
| `NumericCoercion.ConvertCell` | dataset_processing.js:33-40 | A cell is rewritten exactly when it holds text; empty text is rewritten to 0 |
| `NumericCoercion.ReplaceFirstWithoutComma` | dataset_processing.js:37 | Text without a comma is left unchanged |
| `NumericCoercion.ReplaceFirstComma` | dataset_processing.js:38 | Only the first comma becomes a point; everything after it is kept as it was |
| `NumericCoercion.CommaExamples` | dataset_processing.js:38 | `"1,5"` becomes `"1.5"` and `"1,234,5"` becomes `"1.234,5"` |
| `NumericCoercion.NormalizeTextCases` | dataset_processing.js:33-40 | `''` becomes 0; text without a comma goes to `parseFloat` as it is; other text goes to `parseFloat` with its first comma made a point |
| `NumericCoercion.ConvertRowResult` | dataset_processing.js:29-42 | After a row is converted without error: its listed columns are distinct text cells, each now holding its normalized number, and its other fields and keys are unchanged |
| `NumericCoercion.ConvertRowSucceeds` | dataset_processing.js:29-42 | A row with text in every one of a list of distinct columns converts without error |
| `NumericCoercion.ConvertRows` | dataset_processing.js:27-43 | The outer loop leaves as many rows as it was given, whether or not it throws |
| `NumericCoercion.ConvertRowsPointwise` | dataset_processing.js:27-43 | The conversion succeeds exactly when every row converts on its own; on success the rows are converted one by one, same count and order |
| `NumericCoercion.ConvertRowsOk` | dataset_processing.js:27-43 | The rows convert without a TypeError exactly when each row does on its own |
| `NumericCoercion.ConvertRowsSucceedIff` | dataset_processing.js:31-37 | The conversion succeeds exactly when there are no rows, or the columns are distinct and every row has text in every listed column |
| `NumericCoercion.ConvertRowsFailure` | dataset_processing.js:27-43 | When row `i` is the first to throw, the rows before it are converted, row `i` is converted up to the failing column, and the rest are untouched |
| `NumericCoercion.ConvertRowsResult` | dataset_processing.js:26-45 | After a conversion without error: the row count and each row's fields are unchanged, every listed cell holds its normalized number, and unlisted fields keep their values |
| `Aggregation.GroupKey` | dataset_processing.js:53 | With text id and month the key is `id` + "_" + `month`; a missing id prints as "undefined" at the front |
| `Aggregation.Bump` | dataset_processing.js:71 | `group.count += 1` adds `count` and keeps every other field; a numeric counter goes up by one |
| `Aggregation.Seed` | dataset_processing.js:56-66 | A new accumulator has a numeric `count` and exactly the first row's fields plus `count` (field names inherited from `Object.prototype` aside) |
| `Aggregation.Absorb` | dataset_processing.js:70-78 | A later row leaves a numeric `count` and adds to the accumulator exactly the fields where that row holds a number |
| `Aggregation.Finalize` | dataset_processing.js:86-94 | The emitted record has every field of the accumulator except `count` |
| `Aggregation.Aggregate` | dataset_processing.js:50-80 | The Map lists each key once, in the insertion order, with exactly the keys of its table, and every accumulator has a numeric `count` |
| `Aggregation.Emit` | dataset_processing.js:83-97 | One record is emitted per Map entry |
| `Aggregation.NewGroup` | dataset_processing.js:57-66 | The for-in loop over the first row builds `Seed` of that row |
| `Aggregation.AddToGroup` | dataset_processing.js:71-78 | Bumping `count` and the for-in loop over a later row build `Absorb` of the accumulator and the row |
| `Aggregation.AbsorbOverStep` | dataset_processing.js:73-78 | Visiting one more field of the later row adds its number to the running sum when it is a number, and changes nothing otherwise |
| `Aggregation.AverageGroup` | dataset_processing.js:86-94 | The for-in loop over an accumulator builds `Finalize` of it |
| `Aggregation.GroupRows` | dataset_processing.js:50-80 | The grouping pass leaves the insertion order and the accumulators that `Aggregate` specifies |
| `Aggregation.EmitGroups` | dataset_processing.js:83-97 | The averaging pass over the Map's values yields `Emit` of the Map |
| `Aggregation.AvgNumCols` | dataset_processing.js:48-100 | `avgNumCols(data)` returns `AvgNumColsSpec(data)` |
| `Aggregation.AvgNumColsSpec` | dataset_processing.js:48-100 | `avgNumCols` returns at most one record per input row |
| `Aggregation.AggregateSize` | dataset_processing.js:52-68 | Each row opens at most one new Map entry, so the Map has at most as many keys as there are rows |
| `AggregationProperties.GroupFold` | dataset_processing.js:56-78 | The fold of one group's rows, seeded by the first and absorbing the rest, has a numeric `count` |
| `AggregationProperties.AggregateStep` | dataset_processing.js:53-70 | One more row appends its key to the order unless the key is already known, and adds the key to the table |
| `AggregationProperties.AggregateKnownKey` | dataset_processing.js:54-78 | A row whose key is already in the Map leaves the order alone and replaces that key's accumulator by the accumulator absorbing the row |
| `AggregationProperties.AggregateKeySet` | dataset_processing.js:53-68 | The Map holds a key exactly when some row has that key |
| `AggregationProperties.FirstAppearanceSnoc` | dataset_processing.js:68 | Inserting only unseen keys at the end keeps keys in order of first appearance |
| `AggregationProperties.AggregateKeyOrder` | dataset_processing.js:53-68 | The Map's keys are in first-appearance order: wherever a later key occurs, every earlier key has already occurred |
| `AggregationProperties.OneRecordPerKey` | dataset_processing.js:52-97 | There are exactly as many records as distinct keys among the rows |
| `AggregationProperties.AggregateGroup` | dataset_processing.js:52-80 | A key's accumulator exists exactly when some row has that key, and it is the fold of that key's rows in input order |
| `AggregationProperties.AvgRecord` | dataset_processing.js:52-97 | Record `i` is the finalized fold of the rows whose key is the `i`-th inserted key, and there is at least one such row |
| `AggregationProperties.RowsWithKeyHaveKey` | dataset_processing.js:53-54 | The rows gathered for a key are rows of the data, and each has that key |
| `AggregationProperties.GroupCount` | dataset_processing.js:57-71 | When no row holds a number in a `count` field (absent or text), the counter equals the group's row count |
| `AggregationProperties.GroupSum` | dataset_processing.js:62-76 | When every row of a group has a finite number in a field, the accumulator holds the real sum of those numbers |
| `AggregationProperties.GroupFirstSeen` | dataset_processing.js:63-78 | A field that is never numeric in the group keeps the first row's value, or stays absent with it |
| `AggregationProperties.GroupNumeric` | dataset_processing.js:61-76 | A field that is numeric in every row of the group is numeric in the accumulator |
| `AggregationProperties.CountNotEmitted` | dataset_processing.js:90 | No record has a `count` field |
| `AggregationProperties.GroupMean` | dataset_processing.js:86-93 | For one group with finite values and no numeric `count` column, the finalized field is the sum divided by the number of rows |
| `AggregationProperties.AveragedField` | dataset_processing.js:73-93 | When no row holds a number in a `count` field and every row of record `i`'s key has a finite number in `f`, the record holds the arithmetic mean of those numbers |
| `AggregationProperties.FinalizeSeed` | dataset_processing.js:56-94 | A row without a `count` field, seeded and then finalized, comes back unchanged |
| `AggregationProperties.FirstSeenField` | dataset_processing.js:59-66 | A field that no row of the key holds a number in takes the value of the key's first row (or stays absent with it) |
| `AggregationProperties.SingletonGroup` | dataset_processing.js:56-93 | A key seen once reproduces its row exactly, when the row has no `count` field (and no field named after an `Object.prototype` member) |
| `AggregationProperties.NumericFieldStaysNumeric` | dataset_processing.js:75-92 | A field that is a number in every row is present and a number in every record |
| `AggregationProperties.KeysIdentifyRecords` | dataset_processing.js:53-66 | With text ids and months, each record carries its group's key, and no two records share a key |
| `AggregationExamples.SeedListing` | dataset_processing.js:57-66 | A first row of id, month and a revenue seeds the accumulator with those fields and `count` 1 |
| `AggregationExamples.BumpListing` | dataset_processing.js:71 | Bumping such an accumulator raises only its `count`, by one |
| `AggregationExamples.NumericFieldsListing` | dataset_processing.js:75 | In a row of text id, text month and numeric revenue, only the revenue is numeric |
| `AggregationExamples.AbsorbListing` | dataset_processing.js:71-78 | Absorbing such a row adds its revenue to the running sum and raises `count` by one |
| `AggregationExamples.FinalizeListing` | dataset_processing.js:86-94 | The record of such an accumulator holds the revenue divided by `count` and no `count` |
| `AggregationExamples.AggregateOne` | dataset_processing.js:52-68 | One row gives a Map with its key only, holding the accumulator it seeds |
| `AggregationExamples.EmitOne` | dataset_processing.js:83-97 | A Map with one entry emits exactly that entry's record |
| `AggregationExamples.TwoRows` | dataset_processing.js:71-92 | Two rows of one listing and month give one record whose value is the running sum of `v1` and `v2` divided by 2 |
| `AggregationExamples.MeanOfTwo` | dataset_processing.js:48-100 | Revenue 100 and 300 of listing "A" in "2019-01" average to one record with revenue 200 |
| `AggregationExamples.NaNForgotten` | dataset_processing.js:76 | A NaN stored from the first row is falsy and dropped: NaN then 100 averages to 50 |
| `AggregationExamples.NaNKept` | dataset_processing.js:76 | A NaN in the last row makes the sum NaN: 100 then NaN averages to NaN |
| `AggregationExamples.CountColumnOverwritesCounter` | dataset_processing.js:57-62 | A row with a numeric `count` column of 5 and revenue 10 comes out with revenue 2 and without `count` |
| `AggregationExamples.TextCountColumnDropped` | dataset_processing.js:57-92 | A row with revenue 10 and a text `count` of "7" comes out as the same row without `count`: the text is shadowed by the counter, skipped by the sum and not emitted |
| `AggregationExamples.TextThenNumberConcatenates` | dataset_processing.js:76 | A first row's text `"ab"` followed by a later number 1 gives the text `"ab"` followed by the printed 1, not a sum |
| `AggregationExamples.KeysCollide` | dataset_processing.js:53 | Listing "a_b" in month "c" and listing "a" in month "b_c" share one key and give one record |
| `AggregationExamples.AggregateTwo` | dataset_processing.js:52-78 | Two rows with one key give one Map entry: the accumulator seeded by the first row, absorbing the second |
| `AggregationExamples.AbsorbOneField` | dataset_processing.js:71-78 | A later row with exactly one numeric field (not `count`) adds to that field only and bumps the counter |
| `Pipeline.ColumnList` | dataset_processing.js:107-111 | The column list has no duplicates and never lists the id, the month or `count`; it holds the coordinates exactly when geolocation is on |
| `Pipeline.Staged` | dataset_processing.js:106-113 | Without geolocation the market rows go to the coercion as they are; with it, the joined rows, no more of them than the market rows, all with both coordinates |
| `Pipeline.LoadDataSpec` | dataset_processing.js:106-118 | A resolved run has at most as many records as there are market rows |
| `Pipeline.LoadData` | dataset_processing.js:106-118 | The outcome equals `LoadDataSpec`. With geolocation, the geo rows lose `month` and the market rows are untouched. Without it, the market rows are converted in place and the geo rows are untouched |
| `Pipeline.LoadDataResolvesIff` | dataset_processing.js:110-115 | The promise resolves exactly when every row reaching the coercion has text in every listed column |
| `Pipeline.MissingColumnRejects` | dataset_processing.js:107-115 | Without geolocation, a market row missing any domain column rejects the promise |
| `Pipeline.RevenueOnlyRowsReject` | dataset_processing.js:106-115 | Rows holding only an id, a month and a revenue are rejected |
| `Pipeline.ConvertKeepsKeys` | dataset_processing.js:31-40 | A conversion that lists neither the id nor the month leaves every row's key as it was |
| `Pipeline.RecordsPerKey` | dataset_processing.js:106-118 | A resolved run holds one record per distinct key among the rows that reach the coercion (the market rows themselves without geolocation) |
| `Pipeline.ConvertedColumnsNumeric` | dataset_processing.js:33-40 | After a successful conversion, every listed column is a number in every row |
| `Pipeline.RecordsNumeric` | dataset_processing.js:110-118 | In a resolved run, every listed column is a number in every record, which includes both coordinates with geolocation on |
| `Pipeline.GeoIndexAllText` | dataset_processing.js:3-9 | An index built from text-only geo rows holds text-only rows |
| `Pipeline.StagedAllText` | dataset_processing.js:12-21 | Joining text-only rows gives text-only rows |
| `Pipeline.ConvertedCountIsText` | dataset_processing.js:106-113 | For rows read from the files, every `count` field is still text after coercion, so no converted row holds a numeric `count` |
| `Pipeline.DistinctRecords` | dataset_processing.js:106-118 | For rows read from the files (all text), no two records of a resolved run share a listing and month |

## Left out

- Reading the files is left out: `d3.dsv` and the nested Promise plumbing
  (dataset_processing.js:103-105, 123-127), and the `window.loadData`
  global (line 130). The two row lists are parameters of `LoadData`. A
  rejection is the `Rejected` outcome.
- `parseFloat` is a parameter, and nothing beyond its type is assumed about
  it. IEEE-754 rounding and signed zero are not modelled: finite numbers are
  reals and sums are exact.
- Printing a number as text, as in the template literal of line 53 and a
  string `+`, is the parameter `fmt`.
- Rows are values, not shared objects. Writing to a row object in place is
  modelled as writing a new row into the same array slot. The geo index
  holds copies, so the aliasing between the index and the caller's geo rows
  is not captured. That aliasing is never observed, because the index rows
  are only read.
- The JavaScript Map of `avgNumCols` is a key order plus a table. ECMAScript
  fixes the order in which `for...in` visits a row's fields: integer-like
  keys ascending, then the others in insertion order. The model does not
  track insertion order, so it leaves the visiting order open. Instead,
  `Aggregation.NewGroup`, `Aggregation.AddToGroup` and
  `Aggregation.AverageGroup` pick each next field arbitrarily, so their
  contracts hold whatever order is used.
- The chart modules are not part of this model. They only draw and
  interact; their data shaping is done with d3 helpers.
- `Aggregation.Seed`, `Aggregation.Absorb`: field names inherited from
  `Object.prototype` (`constructor`, `toString`, `valueOf`,
  `hasOwnProperty`, `__proto__` and the like) are not modelled; the model
  reads such a name on the accumulator as absent. In the source, the
  accumulator `{ count: 1 }` (line 57) inherits them, with two effects the
  model does not show:
  - a first row's text field of such a name is not written by `??=`
    (line 64), because the inherited member is not nullish, and the
    `for...in` of line 89 skips it, so the record lacks that field; `Seed`
    copies it;
  - a later row's numeric field of such a name, not yet an own field of
    the accumulator, makes `(group[k] || 0) + val` (line 76) concatenate
    the inherited member's text with the number; `Absorb` stores the number.
  The same caveat applies to `AggregationProperties.SingletonGroup` and to
  every lemma about records built from such rows. None of the column names
  the code itself uses (module `Columns`) is such a name.
- `AggregationProperties.GroupMean`, `AggregationProperties.AveragedField`: the
  real mean is stated only when every row of the group has a finite number in
  the field. With NaN or an infinity the record is still exactly
  `Finalize(GroupFold(...))` (`AggregationProperties.AvgRecord`), and
  `AggregationExamples.NaNForgotten`/`NaNKept` show what that gives.

## Code versus intended behaviour

The pipeline's stated intent and its code differ in the places below. Each
bullet quotes the intended behaviour; the model follows the code.

- A listed column that is absent, or not text, makes `val.indexOf` throw
  (line 37). The code has no guard against this, so the model follows the
  throw through to a rejected promise rather than ruling it out with a
  precondition.
  `Pipeline.RevenueOnlyRowsReject` shows that rows with only an id, a month
  and a revenue are rejected: the other eight domain columns are missing.
  The intended end-to-end example reads: "primary rows
  `{id:"A", period:"2019-01", revenue:"100"}` and
  `{id:"A", period:"2019-01", revenue:"300"}` aggregate to one record
  `{id:"A", period:"2019-01", revenue:200}`". The code gets there only
  when the rows carry all nine domain columns
  (`AggregationExamples.MeanOfTwo` shows the averaging half).
- The intent is that "a single bad cell must not abort the pipeline, but the
  anomaly must remain visible in later arithmetic". That does not hold for
  the running sum of line 76. `(group[k] || 0)` treats a stored NaN as falsy and
  restarts from 0. So a mean over the same numbers depends on row order:
  NaN then 100 gives 50 but 100 then NaN gives NaN.
- The intent is to group "by composite key (entity id, period)". The code's
  key is one string, so ids or months containing `_` can collide
  (`AggregationExamples.KeysCollide`).
- The intent is that numeric fields are "averaged across duplicates". The
  counter lives in the same object as the fields, so a field named `count`
  interferes with it, in one of two ways:
  - A numeric `count` replaces the counter: line 62 copies it over the
    initial 1 and line 76 adds to it
    (`AggregationExamples.CountColumnOverwritesCounter`).
  - A text `count` is shadowed. `??=` keeps the counter (line 64), line 75
    skips it because it is not a number, and line 90 leaves it out of the
    record. The mean stays correct (`AggregationExamples.TextCountColumnDropped`).
    This is the only case the loader can produce: `count` is never a coerced
    column, so it stays text (`Pipeline.ConvertedCountIsText`).
- The intent is that later rows add to a running sum, "initializing the
  running sum to 0 first if that field was not present/numeric on the first
  row". Line 76 starts from 0 only when the stored value is falsy. When the
  first row held non-empty text in the field and a later row a number,
  `(group[k] || 0) + val` concatenates the text with the printed number
  (`AggregationExamples.TextThenNumberConcatenates`). The model does the
  same. Through `loadData` this cannot happen: each column is either
  converted in every row or left as text in every row.
