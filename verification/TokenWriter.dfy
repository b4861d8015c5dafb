/**
 writetoken() of every token, as loops of adds on a buffer.  A writer is safe exactly
 when each of its adds is, at the size that the storage has by then.
 */
module TokenWriter {
  import opened DynBuffer
  import opened Results
  import opened Tokens

  method WriteColumn(b: DynBuffer, c: Column, version: nat)
    requires b.Open() && AllSafe(ColumnScript(c, version), b.Look())
    modifies b`tails, b`len, b`buf, b`off, b`size, b`pos
    modifies b.Parent()`buf, b.Parent()`off, b.Parent()`size, b.buf
    ensures b.Steady() && b.Look() == DoAll(ColumnScript(c, version), old(b.Look()))
    ensures b.Contents() == old(b.Contents()) + EncodeColumn(c, version)
  {
    ColumnScriptBytes(c, version);
    DoAllContents(ColumnScript(c, version), b.Look());
    b.Replay(ColumnScript(c, version));
  }

  method WriteCell(b: DynBuffer, c: Column, d: Datum, version: nat)
    requires WellTyped(c, d) && b.Open() && AllSafe(CellScript(c, d, version), b.Look())
    modifies b`tails, b`len, b`buf, b`off, b`size, b`pos
    modifies b.Parent()`buf, b.Parent()`off, b.Parent()`size, b.buf
    ensures b.Steady() && b.Look() == DoAll(CellScript(c, d, version), old(b.Look()))
    ensures b.Contents() == old(b.Contents()) + EncodeCell(c, d, version)
  {
    CellScriptBytes(c, d, version);
    DoAllContents(CellScript(c, d, version), b.Look());
    b.Replay(CellScript(c, d, version));
  }

  method WriteColumns(b: DynBuffer, cols: seq<Column>, version: nat)
    requires b.Open() && AllSafe(ColumnsScript(cols, version), b.Look())
    modifies b`tails, b`len, b`buf, b`off, b`size, b`pos
    modifies b.Parent()`buf, b.Parent()`off, b.Parent()`size, b.buf
    ensures b.Steady() && b.Look() == DoAll(ColumnsScript(cols, version), old(b.Look()))
  {
    hide ColumnScript, AllSafe, EncodeColumn, DoAll;
    var i := 0;
    assert cols[0..] == cols;
    while i < |cols|
      invariant i <= |cols| && b.Steady()
      invariant AllSafe(ColumnsScript(cols[i..], version), b.Look())
      invariant DoAll(ColumnsScript(cols[i..], version), b.Look()) == DoAll(ColumnsScript(cols, version), old(b.Look()))
    {
      assert cols[i..][0] == cols[i] && cols[i..][1..] == cols[i + 1..];
      DoJoin(ColumnScript(cols[i], version), ColumnsScript(cols[i + 1..], version), b.Look());
      WriteColumn(b, cols[i], version);
      i := i + 1;
    }
    DoNothing(b.Look());
  }

  method WriteCells(b: DynBuffer, cols: seq<Column>, row: Row, version: nat)
    requires WellTypedRow(cols, row) && b.Open() && AllSafe(CellsScript(cols, row, version), b.Look())
    modifies b`tails, b`len, b`buf, b`off, b`size, b`pos
    modifies b.Parent()`buf, b.Parent()`off, b.Parent()`size, b.buf
    ensures b.Steady() && b.Look() == DoAll(CellsScript(cols, row, version), old(b.Look()))
  {
    hide CellScript, AllSafe, EncodeCell, WellTyped, DoAll;
    var j := 0;
    assert cols[0..] == cols && row[0..] == row;
    while j < |cols|
      invariant j <= |cols| && b.Steady()
      invariant AllSafe(CellsScript(cols[j..], row[j..], version), b.Look())
      invariant DoAll(CellsScript(cols[j..], row[j..], version), b.Look())
             == DoAll(CellsScript(cols, row, version), old(b.Look()))
    {
      assert cols[j..][0] == cols[j] && cols[j..][1..] == cols[j + 1..];
      assert row[j..][0] == row[j] && row[j..][1..] == row[j + 1..];
      DoJoin(CellScript(cols[j], row[j], version), CellsScript(cols[j + 1..], row[j + 1..], version), b.Look());
      WriteCell(b, cols[j], row[j], version);
      j := j + 1;
    }
    DoNothing(b.Look());
  }

  method WriteRow(b: DynBuffer, cols: seq<Column>, row: Row, version: nat)
    requires WellTypedRow(cols, row) && b.Open() && AllSafe(ROW_MARK + CellsScript(cols, row, version), b.Look())
    modifies b`tails, b`len, b`buf, b`off, b`size, b`pos
    modifies b.Parent()`buf, b.Parent()`off, b.Parent()`size, b.buf
    ensures b.Steady() && b.Look() == DoAll(ROW_MARK + CellsScript(cols, row, version), old(b.Look()))
  {
    hide CellsScript, AllSafe;
    DoJoin(ROW_MARK, CellsScript(cols, row, version), b.Look());
    b.Replay(ROW_MARK);
    WriteCells(b, cols, row, version);
  }

  method WriteRows(b: DynBuffer, cols: seq<Column>, rows: seq<Row>, version: nat)
    requires forall row :: row in rows ==> WellTypedRow(cols, row)
    requires b.Open() && AllSafe(RowsScript(cols, rows, version), b.Look())
    modifies b`tails, b`len, b`buf, b`off, b`size, b`pos
    modifies b.Parent()`buf, b.Parent()`off, b.Parent()`size, b.buf
    ensures b.Steady() && b.Look() == DoAll(RowsScript(cols, rows, version), old(b.Look()))
    ensures b.Contents() == old(b.Contents()) + EncodeRows(cols, rows, version)
  {
    hide CellsScript, AllSafe, WellTypedRow, EncodeRows, DoAll;
    RowsScriptBytes(cols, rows, version);
    DoAllContents(RowsScript(cols, rows, version), b.Look());
    var i := 0;
    assert rows[0..] == rows;
    while i < |rows|
      invariant i <= |rows| && b.Steady()
      invariant AllSafe(RowsScript(cols, rows[i..], version), b.Look())
      invariant DoAll(RowsScript(cols, rows[i..], version), b.Look())
             == DoAll(RowsScript(cols, rows, version), old(b.Look()))
    {
      assert rows[i..][0] == rows[i] && rows[i..][1..] == rows[i + 1..];
      DoJoin(ROW_MARK + CellsScript(cols, rows[i], version), RowsScript(cols, rows[i + 1..], version), b.Look());
      WriteRow(b, cols, rows[i], version);
      i := i + 1;
    }
    DoNothing(b.Look());
  }

  method WriteResults(b: DynBuffer, cols: seq<Column>, rows: seq<Row>, version: nat)
    requires Writable(ResultSetToken(cols, rows))
    requires b.Open() && AllSafe(TokenScript(ResultSetToken(cols, rows), version), b.Look())
    modifies b`tails, b`len, b`buf, b`off, b`size, b`pos
    modifies b.Parent()`buf, b.Parent()`off, b.Parent()`size, b.buf
    ensures b.Steady() && b.Look() == DoAll(TokenScript(ResultSetToken(cols, rows), version), old(b.Look()))
  {
    hide ColumnsScript, RowsScript, AllSafe, DoAll, WellTypedRow;
    ghost var columns, all := ColumnsScript(cols, version), RowsScript(cols, rows, version);
    DoJoin(HeadScript(|cols|) + columns, all, b.Look());
    DoJoin(HeadScript(|cols|), columns, b.Look());
    b.Replay(HeadScript(|cols|));
    WriteColumns(b, cols, version);
    WriteRows(b, cols, rows, version);
  }

  /** type byte, blank length, body: finalise() will fill in the length. */
  method WriteFramed(b: DynBuffer, t: Token, version: nat)
    requires Framed(t) && b.Open() && AllSafe(TokenScript(t, version), b.Look())
    modifies b`tails, b`len, b`buf, b`off, b`size, b`pos
    modifies b.Parent()`buf, b.Parent()`off, b.Parent()`size, b.buf
    ensures b.Steady() && b.Look() == DoAll(TokenScript(t, version), old(b.Look()))
  {
    hide BodyScript, AllSafe, DoAll;
    DoJoin(FrameScript(t), BodyScript(t, version), b.Look());
    b.Replay(FrameScript(t));
    b.Replay(BodyScript(t, version));
  }

  method WriteDone(b: DynBuffer, status: DoneStatus, curcmd: nat, rowcount: nat, version: nat)
    requires b.Open() && AllSafe(DoneScript(status, curcmd, rowcount, version), b.Look())
    modifies b`tails, b`len, b`buf, b`off, b`size, b`pos
    modifies b.Parent()`buf, b.Parent()`off, b.Parent()`size, b.buf
    ensures b.Steady() && b.Look() == DoAll(DoneScript(status, curcmd, rowcount, version), old(b.Look()))
    ensures b.Contents() == old(b.Contents()) + DoneBytes(status, curcmd, rowcount, version)
  {
    DoneScriptBytes(status, curcmd, rowcount, version);
    DoAllContents(DoneScript(status, curcmd, rowcount, version), b.Look());
    b.Replay(DoneScript(status, curcmd, rowcount, version));
  }

  /** writetoken() of any token into its own fresh child buffer; finalise() makes it the encoded token. */
  method WriteToken(b: DynBuffer, t: Token, version: nat)
    requires Writable(t) && b.Open() && b.pos == 0 && b.tails == [] && b.len == NoLength
    requires AllSafe(TokenScript(t, version), b.Look())
    modifies b`tails, b`len, b`buf, b`off, b`size, b`pos
    modifies b.Parent()`buf, b.Parent()`off, b.Parent()`size, b.buf
    ensures b.Steady() && b.Look() == DoAll(TokenScript(t, version), old(b.Look()))
    ensures b.tails == [] && Seal(b.Contents(), b.tails, b.len) == Encode(t, version)
    ensures b.off + b.pos == old(b.off) + |Encode(t, version)|
  {
    hide AllSafe, DoAll, DoneScript, ColumnsScript, RowsScript, BodyScript, Encode, Seal, WellTypedRow;
    assert b.Look() == ChildView(b.buf.Length, b.off);
    TokenSealed(t, version, b.buf.Length, b.off);
    if t.Done? {
      WriteDone(b, t.status, t.curcmd, t.rowcount, version);
    } else if t.ResultSetToken? {
      WriteResults(b, t.cols, t.rows, version);
    } else {
      WriteFramed(b, t, version);
    }
  }
}
