/** The column names the pipeline treats specially (dataset_processing.js). */
module Columns {
  const IdKey := "unified_id"
  const MonthKey := "month"
  const LatKey := "latitude"
  const LonKey := "longitude"

  /** The accumulator's row counter in `avgNumCols`, kept in the same object as the fields. */
  const CountKey := "count"

  /** The numeric columns of the market dataset that `loadData` always converts (lines 107-108). */
  const DomainColumns: seq<string> := ["bathrooms", "bedrooms", "guests", "occupancy", "openness",
                                       "lead time", "revenue", "length stay", "nightly rate"]
}
