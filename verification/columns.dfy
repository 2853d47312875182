/**
 * The table built from the parsed records (app.py:75) and the loop that
 * makes sure every required column exists (app.py:77-81). A table is a map
 * from column name to its cells, one per record; `None` stands for Python's
 * `None` and for the missing value pandas puts where a record lacks a key.
 */
module Columns {
  import opened Wrappers

  type Cell = Option<string>
  /** A record: field name to value, as `groupdict()` gives it and `pd.DataFrame` reads it. */
  type Row = map<string, Cell>
  type Table = map<string, seq<Cell>>

  /** The columns the table must have, in the order the loop visits them. */
  const REQUIRED_COLUMNS: seq<string> := ["name", "title", "company", "location", "industry"]

  /** The value written into a column that was missing. */
  const NOT_AVAILABLE: string := "Not Available"

  /** A column holding `NOT_AVAILABLE` in each of `height` rows (`df[col] = "Not Available"`). */
  function Placeholder(height: nat): (column: seq<Cell>)
    ensures |column| == height
    ensures forall k :: 0 <= k < height ==> column[k] == Some(NOT_AVAILABLE)
  {
    seq(height, _ => Some(NOT_AVAILABLE))
  }

  /** The keys present in some record. */
  function KeysOf(rows: seq<Row>): set<string> {
    set k, c | 0 <= k < |rows| && c in rows[k] :: c
  }

  /**
   * `pd.DataFrame(rows)`: one column per key of any record; row `k` of a
   * column holds record `k`'s value, or `None` where record `k` lacks the key.
   */
  function TableOf(rows: seq<Row>): (t: Table)
    ensures t.Keys == KeysOf(rows)
    ensures forall c :: c in t ==> |t[c]| == |rows|
    ensures forall c, k :: c in t && 0 <= k < |rows| ==> t[c][k] == (if c in rows[k] then rows[k][c] else None)
  {
    map c | c in KeysOf(rows) :: seq(|rows|, k requires 0 <= k < |rows| => if c in rows[k] then rows[k][c] else None)
  }

  /**
   * The loop over the required columns: each one missing from the table is
   * added, filled with `NOT_AVAILABLE` in every row. Columns already present
   * keep their cells, and no other column appears. Like the scalar pandas
   * broadcasts, an added column has one cell per row of the table.
   */
  method FillMissing(table: Table, height: nat) returns (filled: Table)
    requires forall c :: c in table ==> |table[c]| == height
    ensures filled.Keys == table.Keys + set c | c in REQUIRED_COLUMNS
    ensures forall c :: c in table ==> filled[c] == table[c]
    ensures forall c :: c in filled && c !in table ==> filled[c] == Placeholder(height)
    ensures forall c :: c in filled ==> |filled[c]| == height
  {
    filled := table;
    for i := 0 to |REQUIRED_COLUMNS|
      invariant filled.Keys == table.Keys + set c | c in REQUIRED_COLUMNS[..i]
      invariant forall c :: c in table ==> filled[c] == table[c]
      invariant forall c :: c in filled && c !in table ==> filled[c] == Placeholder(height)
    {
      var column := REQUIRED_COLUMNS[i];
      if column !in filled {
        filled := filled[column := Placeholder(height)];
      }
      assert REQUIRED_COLUMNS[..i + 1] == REQUIRED_COLUMNS[..i] + [column];
    }
    assert REQUIRED_COLUMNS[..|REQUIRED_COLUMNS|] == REQUIRED_COLUMNS;
  }

  /**
   * When every record has exactly the required keys, the table built from a
   * non-empty list of them already has every required column and no other,
   * so the fill loop adds nothing.
   */
  lemma {:induction false} TableOfUniformRows(rows: seq<Row>)
    requires |rows| > 0
    requires forall k :: 0 <= k < |rows| ==> rows[k].Keys == set c | c in REQUIRED_COLUMNS
    ensures TableOf(rows).Keys == set c | c in REQUIRED_COLUMNS
  {
    var t := TableOf(rows);
    forall c | c in REQUIRED_COLUMNS
      ensures c in t
    {
      assert c in rows[0];
    }
  }
}
