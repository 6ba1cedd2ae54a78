/**
 * Replay of a loaded table as "live" readings: each call to `stream()`
 * walks the rows from the first to the last, yielding one payload per row,
 * and then stops.
 */
module SensorSimulator {
  import opened Wrappers
  import opened Frames

  /** The payload key that carries the row's timestamp. */
  const TimestampKey := "timestamp"

  /**
   * The payload of one row: the row as a dict, with "timestamp" set to the
   * ISO text of the row's index label (replacing any column of that name).
   */
  function PayloadOf(columns: seq<string>, at: int, row: Row, iso: Instant -> string): (p: Payload)
    requires |row| == |columns|
    ensures p.Keys == (set c | c in columns) + {TimestampKey}
    ensures p[TimestampKey] == Text(iso(Instant(at)))
    ensures forall j :: 0 <= j < |columns| && columns[j] != TimestampKey && columns[j] !in columns[j + 1..] ==> p[columns[j]] == row[j]
  {
    forall j | 0 <= j < |columns| && columns[j] !in columns[j + 1..] {
      RowDictAt(columns, row, j);
    }
    RowDict(columns, row)[TimestampKey := Text(iso(Instant(at)))]
  }

  /** The payloads of a whole table, in row order. */
  function Payloads(columns: seq<string>, index: seq<int>, rows: seq<Row>, iso: Instant -> string): (ps: seq<Payload>)
    requires |index| == |rows| && Shaped(columns, rows)
    ensures |ps| == |rows|
    ensures forall i :: 0 <= i < |rows| ==> ps[i] == PayloadOf(columns, index[i], rows[i], iso)
  {
    seq(|rows|, i requires 0 <= i < |rows| => PayloadOf(columns, index[i], rows[i], iso))
  }

  /** `SimulatedStream`: a path, a delay, and the table read from the path. */
  class SimulatedStream {
    const path: string
    const delayS: real
    const df: Frame

    /** `loaded` stands for `pd.read_parquet(path)`; the delay defaults to one second. */
    constructor (path: string, loaded: Frame, delayS: real := 1.0)
      ensures this.path == path && this.delayS == delayS && this.df == loaded
    {
      this.path := path;
      this.delayS := delayS;
      this.df := loaded;
    }

    /** `stream()`: a new generator positioned at the first row. */
    method Stream(iso: Instant -> string) returns (g: PayloadStream)
      requires df.Valid()
      ensures fresh(g) && g.Valid()
      ensures g.source == df && g.iso == iso && g.position == 0 && g.Yielded == []
    {
      g := new PayloadStream(df, iso);
    }
  }

  /** The generator returned by `stream()`: a cursor over the rows of its table. */
  class PayloadStream {
    const source: Frame
    const iso: Instant -> string
    var position: nat
    /** The payloads yielded so far. */
    ghost var Yielded: seq<Payload>

    ghost predicate Valid()
      reads this, source
    {
      && source.Valid()
      && position <= |source.rows|
      && Yielded == Payloads(source.columns, source.index, source.rows, iso)[..position]
    }

    constructor (source: Frame, iso: Instant -> string)
      requires source.Valid()
      ensures Valid()
      ensures this.source == source && this.iso == iso && position == 0 && Yielded == []
    {
      this.source := source;
      this.iso := iso;
      position := 0;
      Yielded := [];
    }

    /**
     * One step of the generator: the payload of the row at the cursor, after
     * which the cursor moves on; once past the last row, nothing, for ever.
     * The table itself is never changed.
     */
    method Next() returns (p: Option<Payload>)
      requires Valid()
      modifies this
      ensures Valid() && unchanged(source)
      ensures old(position) < |source.rows| ==>
        && p == Some(PayloadOf(source.columns, source.index[old(position)], source.rows[old(position)], iso))
        && position == old(position) + 1
        && Yielded == old(Yielded) + [p.value]
      ensures old(position) == |source.rows| ==>
        p == None && position == old(position) && Yielded == old(Yielded)
    {
      if position < |source.rows| {
        ghost var all := Payloads(source.columns, source.index, source.rows, iso);
        var x := PayloadOf(source.columns, source.index[position], source.rows[position], iso);
        assert all[..position + 1] == all[..position] + [x];
        p := Some(x);
        position := position + 1;
        Yielded := Yielded + [x];
      } else {
        p := None;
      }
    }
  }

  /**
   * Draining one `stream()` call yields exactly one payload per row, in
   * table order, and a further pull after the last row yields nothing: the
   * replay does not wrap around.
   */
  method ReplayAll(s: SimulatedStream, iso: Instant -> string) returns (out: seq<Payload>, after: Option<Payload>)
    requires s.df.Valid()
    ensures out == Payloads(s.df.columns, s.df.index, s.df.rows, iso)
    ensures after == None
  {
    var g := s.Stream(iso);
    out := [];
    var done := false;
    while !done
      invariant fresh(g) && g.Valid() && g.source == s.df && g.iso == iso
      invariant out == g.Yielded
      invariant done ==> g.position == |s.df.rows|
      decreases |s.df.rows| - g.position, if done then 0 else 1
    {
      var p := g.Next();
      match p {
        case Some(x) => out := out + [x];
        case None => done := true;
      }
    }
    assert out == Payloads(s.df.columns, s.df.index, s.df.rows, iso)[..|s.df.rows|];
    after := g.Next();
  }
}
