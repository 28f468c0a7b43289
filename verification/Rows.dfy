/** Rows on their way into or out of a database. */
module Rows {
  import opened Wrappers

  /** One entry for each column; None is NULL. */
  type Row = seq<Option<string>>

  /** How many rows are handed to the database at a time. */
  const BATCH_SIZE: nat := 50000
}
