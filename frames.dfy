/**
 * The slice of pandas that the backend relies on: table cells, timestamps,
 * `Series.to_dict` and a DataFrame whose columns and rows are updated in place.
 */
module Frames {

  /** A pandas Timestamp, kept as nanoseconds since the Unix epoch. */
  datatype Instant = Instant(nanos: int)

  /** One table cell: `None`, a float NaN, a number, text, or a parsed timestamp. */
  datatype Cell = Null | NaN | Num(x: real) | Text(s: string) | Time(t: Instant)

  /** What `dropna` treats as missing (NaT is stored as `Null`). */
  predicate IsMissing(c: Cell) {
    c.Null? || c.NaN?
  }

  /** A table row, aligned with the table's column names. */
  type Row = seq<Cell>

  /** A Python dict of column name to value, as built by `row.to_dict()`. */
  type Payload = map<string, Cell>

  /** Every row has exactly one cell per column. */
  predicate Shaped(columns: seq<string>, rows: seq<Row>) {
    forall i :: 0 <= i < |rows| ==> |rows[i]| == |columns|
  }

  /**
   * `row.to_dict()`: one key per column name; when a name repeats, the
   * later column wins, as in building a dict left to right.
   */
  function RowDict(columns: seq<string>, row: Row): (d: Payload)
    requires |row| == |columns|
    ensures d.Keys == set c | c in columns
    decreases |columns|
  {
    if |columns| == 0 then map[]
    else map[columns[0] := row[0]] + RowDict(columns[1..], row[1..])
  }

  /** The value under a column name is the cell of that name's last column. */
  lemma {:induction false} RowDictAt(columns: seq<string>, row: Row, j: int)
    requires |row| == |columns| && 0 <= j < |columns|
    requires columns[j] !in columns[j + 1..]
    ensures RowDict(columns, row)[columns[j]] == row[j]
    decreases |columns|
  {
    if j > 0 {
      assert columns[1..][j - 1] == columns[j];
      assert columns[1..][j..] == columns[j + 1..];
      RowDictAt(columns[1..], row[1..], j - 1);
    } else {
      assert columns[0] !in RowDict(columns[1..], row[1..]);
    }
  }

  /** The first column called `name`. */
  function IndexOf(columns: seq<string>, name: string): (i: nat)
    requires name in columns
    ensures i < |columns| && columns[i] == name && name !in columns[..i]
  {
    if columns[0] == name then 0
    else
      var i := 1 + IndexOf(columns[1..], name);
      assert columns[..i] == [columns[0]] + columns[1..][..i - 1];
      i
  }

  /** A pandas DataFrame: column names, index labels and rows. */
  class Frame {
    var columns: seq<string>
    var index: seq<int>
    var rows: seq<Row>

    ghost predicate Valid()
      reads this
    {
      |index| == |rows| && Shaped(columns, rows)
    }

    constructor (columns: seq<string>, index: seq<int>, rows: seq<Row>)
      requires |index| == |rows| && Shaped(columns, rows)
      ensures Valid()
      ensures this.columns == columns && this.index == index && this.rows == rows
    {
      this.columns := columns;
      this.index := index;
      this.rows := rows;
    }

    /**
     * `df[name] = values`: overwrite the first column called `name`, or add
     * the column at the right when there is none; index and row count stay.
     */
    method SetColumn(name: string, values: seq<Cell>)
      requires Valid() && |values| == |rows|
      modifies this
      ensures Valid() && index == old(index) && |rows| == |old(rows)|
      ensures name in old(columns) ==>
        && columns == old(columns)
        && forall i :: 0 <= i < |rows| ==> rows[i] == old(rows[i])[IndexOf(columns, name) := values[i]]
      ensures name !in old(columns) ==>
        && columns == old(columns) + [name]
        && forall i :: 0 <= i < |rows| ==> rows[i] == old(rows[i]) + [values[i]]
    {
      var before := rows;
      if name in columns {
        var j := IndexOf(columns, name);
        rows := seq(|before|, i requires 0 <= i < |before| => before[i][j := values[i]]);
      } else {
        columns := columns + [name];
        rows := seq(|before|, i requires 0 <= i < |before| => before[i] + [values[i]]);
      }
    }
  }
}
