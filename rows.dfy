/**
 * Rows of the wide-column table as the storage client returns them: a list
 * of attribute columns (name, value, type tag, write timestamp), and the
 * fold that the driver's read path runs over such a list.
 */
module Rows {
  import opened Codec

  /** Value-type tags of an attribute column. */
  datatype ColumnType = ConstString | ConstBinary | ConstInteger

  /** What a PHP variable holds after reading a column: null (no such
      column), false (a failed decompression), a byte string or an integer. */
  datatype Cell = Null | False | Bytes(blob: Blob) | Integer(n: int)

  datatype Column = Column(name: string, cell: Cell, kind: ColumnType, ts: int)

  type Row = seq<Column>

  /** True when no column after position i has the name of column i. */
  predicate LastOfName(cols: Row, i: int)
    requires 0 <= i < |cols|
  {
    forall j :: i < j < |cols| ==> cols[j].name != cols[i].name
  }

  /** The names the columns carry. */
  function Names(cols: Row): set<string>
  {
    if cols == [] then {} else Names(cols[..|cols| - 1]) + {cols[|cols| - 1].name}
  }

  /** A name is carried iff some column has it. */
  lemma {:induction false} NamesPresent(cols: Row, n: string)
    ensures n in Names(cols) <==> exists i :: 0 <= i < |cols| && cols[i].name == n
  {
    if cols != [] {
      var init := cols[..|cols| - 1];
      NamesPresent(init, n);
      if n in Names(init) {
        var i :| 0 <= i < |init| && init[i].name == n;
        assert cols[i].name == n;
      }
      if i :| 0 <= i < |cols| - 1 && cols[i].name == n {
        assert init[i].name == n;
      }
    }
  }

  /** The name -> value map built from the columns, later columns
      overriding earlier ones of the same name. */
  function ColumnMap(cols: Row): map<string, Cell>
  {
    if cols == [] then map[]
    else ColumnMap(cols[..|cols| - 1])[cols[|cols| - 1].name := cols[|cols| - 1].cell]
  }

  /** The timestamp of the last column named "value", or 0 when there is
      none. */
  function ValueTimestamp(cols: Row): int
  {
    if cols == [] then 0
    else if cols[|cols| - 1].name == "value" then cols[|cols| - 1].ts
    else ValueTimestamp(cols[..|cols| - 1])
  }

  /** The column map holds exactly the names present, each with the value
      of the last column carrying it. */
  lemma {:induction false} ColumnMapLastWins(cols: Row)
    ensures ColumnMap(cols).Keys == Names(cols)
    ensures forall i :: 0 <= i < |cols| ==> cols[i].name in ColumnMap(cols)
    ensures forall i :: 0 <= i < |cols| && LastOfName(cols, i) ==> ColumnMap(cols)[cols[i].name] == cols[i].cell
  {
    if cols != [] {
      var init, last := cols[..|cols| - 1], cols[|cols| - 1];
      ColumnMapLastWins(init);
      assert forall i :: 0 <= i < |init| ==> init[i] == cols[i];
      forall i | 0 <= i < |init| && LastOfName(cols, i)
        ensures ColumnMap(cols)[cols[i].name] == cols[i].cell
      {
        assert init[i] == cols[i];
        assert cols[i].name != last.name;
        assert LastOfName(init, i);
      }
    }
  }

  /** The timestamp picked is that of the last column named "value", and 0
      when no column has that name. */
  lemma {:induction false} ValueTimestampOfLast(cols: Row)
    ensures "value" !in Names(cols) ==> ValueTimestamp(cols) == 0
    ensures forall i :: 0 <= i < |cols| && cols[i].name == "value" && LastOfName(cols, i) ==> ValueTimestamp(cols) == cols[i].ts
  {
    if cols != [] {
      var init, last := cols[..|cols| - 1], cols[|cols| - 1];
      ValueTimestampOfLast(init);
      forall i | 0 <= i < |cols| && cols[i].name == "value" && LastOfName(cols, i)
        ensures ValueTimestamp(cols) == cols[i].ts
      {
        if i < |init| {
          assert init[i] == cols[i];
          assert LastOfName(init, i);
        }
      }
    }
  }

  /** The read path's loop over the attribute columns: collects them into a
      map and picks the timestamp of the value column. */
  method FoldColumns(cols: Row) returns (columns: map<string, Cell>, timestamp: int)
    ensures columns == ColumnMap(cols)
    ensures timestamp == ValueTimestamp(cols)
  {
    columns, timestamp := map[], 0;
    for i := 0 to |cols|
      invariant columns == ColumnMap(cols[..i])
      invariant timestamp == ValueTimestamp(cols[..i])
    {
      assert cols[..i + 1][..i] == cols[..i];
      columns := columns[cols[i].name := cols[i].cell];
      if cols[i].name == "value" {
        timestamp := cols[i].ts;
      }
    }
    assert cols[..|cols|] == cols;
  }

  /** `$columns[name]`: null when the column is missing. */
  function Lookup(columns: map<string, Cell>, name: string): Cell
  {
    if name in columns then columns[name] else Null
  }

  /** The `(int)` cast applied to the expire column. */
  function IntCast(c: Cell): int
  {
    if c.Integer? then c.n else 0
  }
}
