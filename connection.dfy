/**
 * The database as `BiocatDatabase` sees it. Nothing about MySQL itself is
 * modelled: each kind of query the core issues is answered by an oracle.
 */
module Connection {
  import opened Wrappers

  /**
   * What one probe of the availability scan gives: rows, `None` (the
   * connection layer caught a database error), or an exception that reaches
   * the scan's own handlers.
   */
  datatype Outcome<T> = Rows(rows: seq<T>) | NoResult | Raises

  /** A row of the statistics probe: `sequence_count` and `avg_length`. */
  datatype StatsRow = StatsRow(sequenceCount: int, avgLength: int)

  /** A cell of a result row: SQL NULL or text (other column types are rendered as text). */
  datatype Value = Null | Text(text: string)

  /** A result row of a dictionary cursor: its columns in SELECT order. */
  type Row = seq<(string, Value)>

  /**
   * The database: whether `is_connected()` holds; the rows `fetchall()` gives
   * for a query text, or `None` when executing it raised a database error; and,
   * for the availability scan, the answers to its statistics probe per
   * (table, column), to `DESCRIBE table` as the list of `Field` names, and to
   * its non-empty-count probe per (table, field).
   */
  datatype Database = Database(
    connected: bool,
    run: string -> Option<seq<Row>>,
    stats: (string, string) -> Outcome<StatsRow>,
    describe: string -> Outcome<string>,
    nonEmptyCount: (string, string) -> Outcome<int>)

  /** `[results] if results else []` over `fetchone()`: the first row, unless there is none or it is empty. */
  function FetchOne(rows: seq<Row>): (r: seq<Row>)
    ensures |r| <= 1
    ensures r == [] <==> rows == [] || rows[0] == []
    ensures r != [] ==> r[0] == rows[0]
  {
    if rows == [] || rows[0] == [] then [] else [rows[0]]
  }

  /** `execute_query(query, fetch_all=...)`: `None` on a database error, else all rows or at most one. */
  function ExecuteQuery(db: Database, query: string, fetchAll: bool): (r: Option<seq<Row>>)
    ensures fetchAll ==> r == db.run(query)
    ensures !fetchAll ==>
      (r.None? <==> db.run(query).None?) &&
      (r.Some? ==> |r.value| <= 1 &&
                   (r.value == [] <==> db.run(query).value == [] || db.run(query).value[0] == []) &&
                   (r.value != [] ==> r.value[0] == db.run(query).value[0]))
  {
    match db.run(query)
    case None => None
    case Some(rows) => Some(if fetchAll then rows else FetchOne(rows))
  }

  /** `row[column]`: the first cell under that name, or `None` where Python raises KeyError. */
  function Lookup(row: Row, column: string): (r: Option<Value>)
    ensures r.Some? <==> exists i :: 0 <= i < |row| && row[i].0 == column
    ensures r.Some? ==> exists i :: 0 <= i < |row| && row[i] == (column, r.value)
  {
    if row == [] then None
    else if row[0].0 == column then Some(row[0].1)
    else
      var r := Lookup(row[1..], column);
      assert forall i :: 1 <= i < |row| ==> row[i] == row[1..][i - 1];
      r
  }
}
