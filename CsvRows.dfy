/**
 * One decoded row of the puzzle CSV. The decoder maps header names to strings; a
 * column missing from a row is `undefined` in the scripts, here `None`.
 */
module CsvRows {
  import opened Wrappers

  datatype Row = Row(fen: Option<string>, moves: Option<string>, rating: Option<string>, themes: Option<string>)
}
