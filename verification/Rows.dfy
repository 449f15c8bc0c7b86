/** Rows of a statement, one at a time. */
module Rows {
  // The next row, in whatever order the rows come.
  method Pick<T(==)>(rows: set<T>) returns (row: T)
    requires rows != {}
    ensures row in rows
  {
    row :| row in rows;
  }
}
