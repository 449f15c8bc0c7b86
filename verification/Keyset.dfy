/** Keyset pagination: rows in (sort key, card id) order, read from a cursor on
    (internal/db/reviews.sql.go). */
module Keyset {
  import opened Wrappers

  // A queue row by the pair its query orders on.
  datatype Row = Row(key: int, id: int)

  predicate Less(a: Row, b: Row) {
    a.key < b.key || (a.key == b.key && a.id < b.id)
  }

  ghost predicate Queue(rows: seq<Row>) {
    forall i, j :: 0 <= i < j < |rows| ==> Less(rows[i], rows[j])
  }

  // The rows past a cursor: WHERE (sort_key, card_id) > cursor, None being the start sentinel.
  function After(rows: seq<Row>, cur: Option<Row>): seq<Row> {
    if rows == [] then []
    else if cur.None? || Less(cur.value, rows[0]) then [rows[0]] + After(rows[1..], cur)
    else After(rows[1..], cur)
  }

  function Fetch(rows: seq<Row>, cur: Option<Row>, limit: nat): seq<Row> {
    var left := After(rows, cur);
    if |left| <= limit then left else left[..limit]
  }

  // The cursor stands just behind the first n rows.
  ghost predicate Behind(rows: seq<Row>, cur: Option<Row>, n: nat) {
    n <= |rows| && cur == if n == 0 then None else Some(rows[n - 1])
  }

  lemma {:induction false} AfterAll(rows: seq<Row>, cur: Option<Row>)
    requires forall i :: 0 <= i < |rows| ==> cur.None? || Less(cur.value, rows[i])
    ensures After(rows, cur) == rows
  {
    if rows != [] { AfterAll(rows[1..], cur); }
  }

  lemma {:induction false} AfterSkips(rows: seq<Row>, cur: Option<Row>, n: nat)
    requires n <= |rows| && cur.Some?
    requires forall i :: 0 <= i < n ==> !Less(cur.value, rows[i])
    requires forall i :: n <= i < |rows| ==> Less(cur.value, rows[i])
    ensures After(rows, cur) == rows[n..]
  {
    if n == 0 {
      AfterAll(rows, cur);
    } else {
      AfterSkips(rows[1..], cur, n - 1);
    }
  }

  // Keyset pagination resumes exactly where it stopped.
  lemma AfterBehind(rows: seq<Row>, cur: Option<Row>, n: nat)
    requires Queue(rows) && Behind(rows, cur, n)
    ensures After(rows, cur) == rows[n..]
  {
    if n == 0 {
      AfterAll(rows, cur);
    } else {
      AfterSkips(rows, cur, n);
    }
  }
}
