/**
 The response tokens of tds/tdstoken_*.cc: their bytes, and the writers that append
 them to a buffer one add at a time.
 */
module Tokens {
  import opened Bytes
  import opened DynBuffer
  import opened Results

  /** The flags of a DONE token that the server ever sets. */
  datatype DoneStatus = DoneStatus(more: bool, error: bool, count: bool)

  datatype Token =
    | Done(status: DoneStatus, curcmd: nat, rowcount: nat)
    | Error(number: nat, state: nat, severity: nat, line: nat, message: Text)
    | Info(number: nat, state: nat, severity: nat, line: nat, message: Text)
    | LoginAck(interface: nat, version: nat, product: Text)
    | EnvDatabase(newName: Text, oldName: Text)
    | EnvCollation
    | ResultSetToken(cols: seq<Column>, rows: seq<Row>)

  function StatusWord(s: DoneStatus): nat {
    (if s.more then 1 else 0) + (if s.error then 2 else 0) + (if s.count then 16 else 0)
  }

  /** The type byte that get_type() gives; for a result set it is not the byte written. */
  function TokenType(t: Token): byte {
    match t
    case Done(_, _, _) => 0xFD
    case Error(_, _, _, _, _) => 0xAA
    case Info(_, _, _, _, _) => 0xAB
    case LoginAck(_, _, _) => 0xAD
    case EnvDatabase(_, _) | EnvCollation => 0xE3
    case ResultSetToken(_, _) => 0xFF
  }

  predicate Framed(t: Token) {
    !t.Done? && !t.ResultSetToken?
  }

  const EMPTY_TEXT := Text(0, [])

  function MessageBody(number: nat, state: nat, severity: nat, line: nat, message: Text, version: nat): seq<byte> {
    LE(number, 4) + LE(state, 1) + LE(severity, 1)
    + (LE(|message.ucs2| / 2, 2) + message.ucs2)
    + CountedName(EMPTY_TEXT) + CountedName(EMPTY_TEXT)
    + LE(line, if version >= TDS_7_2 then 4 else 2)
  }

  /** What follows the length field. */
  function Body(t: Token, version: nat): seq<byte>
    requires Framed(t)
  {
    match t
    case Error(number, state, severity, line, message) => MessageBody(number, state, severity, line, message, version)
    case Info(number, state, severity, line, message) => MessageBody(number, state, severity, line, message, version)
    case LoginAck(interface, v, product) =>
      LE(interface, 1) + BE(v, 4) + CountedName(product) + [10, 50, 0, 0]
    case EnvDatabase(newName, oldName) => [1] + CountedName(newName) + CountedName(oldName)
    case EnvCollation => [7, 5] + LE(1033, 2) + LE(0xD0, 2) + [0, 0]
  }

  /** The high word of the row count is the truth value of rowcount > 32, in network order. */
  function DoneBytes(status: DoneStatus, curcmd: nat, rowcount: nat, version: nat): seq<byte> {
    [0xFD] + LE(StatusWord(status), 2) + LE(curcmd, 2) + LE(rowcount, 4)
    + (if version >= TDS_7_2 then BE(if rowcount > 32 then 1 else 0, 4) else [])
  }

  ghost predicate Writable(t: Token) {
    t.ResultSetToken? ==> forall row :: row in t.rows ==> WellTypedRow(t.cols, row)
  }

  /** The finished token: framed tokens carry the 16-bit length of what follows it. */
  function Encode(t: Token, version: nat): seq<byte>
    requires Writable(t)
  {
    match t
    case Done(status, curcmd, rowcount) => DoneBytes(status, curcmd, rowcount, version)
    case ResultSetToken(cols, rows) => EncodeResults(cols, rows, version)
    case _ => [TokenType(t)] + LE(|Body(t, version)|, 2) + Body(t, version)
  }

  // ----- the adds that each token makes -----

  function BodyScript(t: Token, version: nat): seq<Add>
    requires Framed(t)
  {
    match t
    case Error(number, state, severity, line, message) => MessageScript(number, state, severity, line, message, version)
    case Info(number, state, severity, line, message) => MessageScript(number, state, severity, line, message, version)
    case LoginAck(interface, v, product) =>
      [Bytes(LE(interface, 1)), Bytes(BE(v, 4)), Cc1(product), Bytes([10]), Bytes([50]), Bytes([0]), Bytes([0])]
    case EnvDatabase(newName, oldName) => [Bytes([1]), Cc1(newName), Cc1(oldName)]
    case EnvCollation =>
      [Bytes([7]), Bytes([5]), Bytes(LE(1033, 2)), Bytes(LE(0xD0, 2)), Bytes([0]), Bytes([0])]
  }

  function MessageScript(number: nat, state: nat, severity: nat, line: nat, message: Text, version: nat): seq<Add> {
    [Bytes(LE(number, 4)), Bytes(LE(state, 1)), Bytes(LE(severity, 1)), Cch2(message),
     Cc1(EMPTY_TEXT), Cc1(EMPTY_TEXT), Bytes(LE(line, if version >= TDS_7_2 then 4 else 2))]
  }

  function DoneScript(status: DoneStatus, curcmd: nat, rowcount: nat, version: nat): seq<Add> {
    [Bytes([0xFD]), Bytes(LE(StatusWord(status), 2)), Bytes(LE(curcmd, 2)), Bytes(LE(rowcount, 4))]
    + (if version >= TDS_7_2 then [Bytes(BE(if rowcount > 32 then 1 else 0, 4))] else [])
  }

  function TypeInfoScript(c: Column, version: nat): seq<Add> {
    match c.xtype
    case Char | Varchar | Nvarchar =>
      [Bytes(LE(HeaderLength(c, version), 2)), Bytes(LE(1033, 2)), Bytes(LE(0xd0, 2)), Bytes([0])]
    case Varbinary => [Bytes(LE(HeaderLength(c, version), 2))]
    case Decimal =>
      [Bytes([0x11]), Bytes([c.typmod / 0x1_0000 % 0x100]), Bytes([(c.typmod % 0x1_0000 - 4) % 0x100])]
    case _ => [Bytes(LE(Width(c.xtype), 1))]
  }

  function ColumnScript(c: Column, version: nat): seq<Add> {
    [Bytes(LE(0, UserTypeSize(version))), Bytes(LE(Flags(c.xtype), 2)), Bytes([TypeByte(c.xtype)])]
    + TypeInfoScript(c, version) + [Cc1(c.name)]
  }

  function CellScript(c: Column, d: Datum, version: nat): seq<Add>
    requires WellTyped(c, d)
  {
    if c.xtype.Char? || c.xtype.Decimal? then []
    else if LongForm(c, version) then
      if d.Null? then [Bytes(LE(0xFFFF_FFFF, 4)), Bytes(LE(0xFFFF_FFFF, 4))]
      else [Bytes(LE(|d.bytes|, 4)), Bytes(LE(0, 4)), Bytes(LE(|d.bytes|, 4)), Bytes(d.bytes), Bytes(LE(0, 4))]
    else if VariableLength(c.xtype) then
      if d.Null? then [Bytes(LE(0xFFFF, 2))] else [Bytes(LE(|d.bytes|, 2)), Bytes(d.bytes)]
    else if d.Null? then [Bytes([0])]
    else [Bytes(LE(Width(c.xtype), 1)), Bytes(FixedBytes(c.xtype, d.bytes))]
  }

  // Whole result sets and tokens.

  function ColumnsScript(cols: seq<Column>, version: nat): seq<Add> {
    if cols == [] then [] else ColumnScript(cols[0], version) + ColumnsScript(cols[1..], version)
  }

  function CellsScript(cols: seq<Column>, row: Row, version: nat): seq<Add>
    requires WellTypedRow(cols, row)
  {
    if cols == [] then []
    else CellScript(cols[0], row[0], version) + CellsScript(cols[1..], row[1..], version)
  }

  const ROW_MARK: seq<Add> := [Bytes([0xd1])]

  function RowsScript(cols: seq<Column>, rows: seq<Row>, version: nat): seq<Add>
    requires forall row :: row in rows ==> WellTypedRow(cols, row)
  {
    if rows == [] then []
    else ROW_MARK + CellsScript(cols, rows[0], version) + RowsScript(cols, rows[1..], version)
  }

  function HeadScript(columnCount: nat): seq<Add> {
    [Bytes([0x81]), Bytes(LE(columnCount, 2))]
  }

  function FrameScript(t: Token): seq<Add> {
    [Bytes([TokenType(t)]), LengthHu16(-3)]
  }

  /** All the adds of writetoken(), in their order. */
  function TokenScript(t: Token, version: nat): seq<Add>
    requires Writable(t)
  {
    match t
    case Done(status, curcmd, rowcount) => DoneScript(status, curcmd, rowcount, version)
    case ResultSetToken(cols, rows) =>
      HeadScript(|cols|) + ColumnsScript(cols, version) + RowsScript(cols, rows, version)
    case _ => FrameScript(t) + BodyScript(t, version)
  }

  // ----- the bytes that the adds make -----

  lemma {:induction false} ScriptAppend(a: seq<Add>, b: seq<Add>)
    ensures ScriptBytes(a + b) == ScriptBytes(a) + ScriptBytes(b)
    decreases |a|
  {
    if a == [] {
      assert a + b == b && [] + ScriptBytes(b) == ScriptBytes(b);
    } else {
      assert (a + b)[0] == a[0] && (a + b)[1..] == a[1..] + b;
      ScriptAppend(a[1..], b);
      Assoc(AddedBytes(a[0]), ScriptBytes(a[1..]), ScriptBytes(b));
    }
  }

  lemma ScriptOne(a: Add)
    ensures ScriptBytes([a]) == AddedBytes(a)
  {
    assert [a][1..] == [] && AddedBytes(a) + [] == AddedBytes(a);
  }

  /** A script of plain adds is the concatenation of its chunks. */
  lemma ScriptCons(a: Add, rest: seq<Add>)
    ensures ScriptBytes([a] + rest) == AddedBytes(a) + ScriptBytes(rest)
  {
    ScriptOne(a);
    ScriptAppend([a], rest);
  }

  lemma Script3(a: Add, b: Add, c: Add)
    ensures ScriptBytes([a, b, c]) == AddedBytes(a) + AddedBytes(b) + AddedBytes(c)
  {
    assert [a, b, c] == [a] + ([b] + [c]);
    ScriptCons(a, [b] + [c]);
    ScriptCons(b, [c]);
    ScriptOne(c);
  }

  lemma Script4(a: Add, b: Add, c: Add, d: Add)
    ensures ScriptBytes([a, b, c, d]) == AddedBytes(a) + AddedBytes(b) + AddedBytes(c) + AddedBytes(d)
  {
    assert [a, b, c, d] == [a, b, c] + [d];
    Script3(a, b, c);
    ScriptAppend([a, b, c], [d]);
    ScriptOne(d);
  }

  lemma Script5(a: Add, b: Add, c: Add, d: Add, e: Add)
    ensures ScriptBytes([a, b, c, d, e])
         == AddedBytes(a) + AddedBytes(b) + AddedBytes(c) + AddedBytes(d) + AddedBytes(e)
  {
    assert [a, b, c, d, e] == [a, b, c, d] + [e];
    Script4(a, b, c, d);
    ScriptAppend([a, b, c, d], [e]);
    ScriptOne(e);
  }

  lemma Script6(a: Add, b: Add, c: Add, d: Add, e: Add, f: Add)
    ensures ScriptBytes([a, b, c, d, e, f])
         == AddedBytes(a) + AddedBytes(b) + AddedBytes(c) + AddedBytes(d) + AddedBytes(e) + AddedBytes(f)
  {
    assert [a, b, c, d, e, f] == [a, b, c, d, e] + [f];
    Script5(a, b, c, d, e);
    ScriptAppend([a, b, c, d, e], [f]);
    ScriptOne(f);
  }

  lemma Script7(a: Add, b: Add, c: Add, d: Add, e: Add, f: Add, g: Add)
    ensures ScriptBytes([a, b, c, d, e, f, g])
         == AddedBytes(a) + AddedBytes(b) + AddedBytes(c) + AddedBytes(d)
            + AddedBytes(e) + AddedBytes(f) + AddedBytes(g)
  {
    assert [a, b, c, d, e, f, g] == [a, b, c, d, e, f] + [g];
    Script6(a, b, c, d, e, f);
    ScriptAppend([a, b, c, d, e, f], [g]);
    ScriptOne(g);
  }

  lemma TypeInfoScriptBytes(c: Column, version: nat)
    ensures ScriptBytes(TypeInfoScript(c, version)) == TypeInfo(c, version)
  {
    hide ScriptBytes, LE;
    match c.xtype
    case Char | Varchar | Nvarchar =>
      Script4(Bytes(LE(HeaderLength(c, version), 2)), Bytes(LE(1033, 2)), Bytes(LE(0xd0, 2)), Bytes([0]));
      assert CollationBytes(c.xtype) == LE(1033, 2) + LE(0xd0, 2) + [0];
    case Varbinary => ScriptOne(Bytes(LE(HeaderLength(c, version), 2)));
    case Decimal =>
      Script3(Bytes([0x11]), Bytes([c.typmod / 0x1_0000 % 0x100]), Bytes([(c.typmod % 0x1_0000 - 4) % 0x100]));
    case _ => ScriptOne(Bytes(LE(Width(c.xtype), 1)));
  }

  lemma ColumnScriptBytes(c: Column, version: nat)
    ensures ScriptBytes(ColumnScript(c, version)) == EncodeColumn(c, version)
  {
    var u, f, t := Bytes(LE(0, UserTypeSize(version))), Bytes(LE(Flags(c.xtype), 2)), Bytes([TypeByte(c.xtype)]);
    Script3(u, f, t);
    TypeInfoScriptBytes(c, version);
    ScriptAppend([u, f, t], TypeInfoScript(c, version));
    ScriptAppend([u, f, t] + TypeInfoScript(c, version), [Cc1(c.name)]);
    ScriptOne(Cc1(c.name));
  }

  lemma CellScriptBytes(c: Column, d: Datum, version: nat)
    requires WellTyped(c, d)
    ensures ScriptBytes(CellScript(c, d, version)) == EncodeCell(c, d, version)
  {
    var script := CellScript(c, d, version);
    if |script| == 1 {
      ScriptOne(script[0]);
    } else if |script| == 2 {
      ScriptCons(script[0], [script[1]]);
      ScriptOne(script[1]);
      assert script == [script[0]] + [script[1]];
    } else if |script| == 5 {
      Script5(script[0], script[1], script[2], script[3], script[4]);
    }
  }

  lemma DoneScriptBytes(status: DoneStatus, curcmd: nat, rowcount: nat, version: nat)
    ensures ScriptBytes(DoneScript(status, curcmd, rowcount, version)) == DoneBytes(status, curcmd, rowcount, version)
  {
    var fixed := [Bytes([0xFD]), Bytes(LE(StatusWord(status), 2)), Bytes(LE(curcmd, 2)), Bytes(LE(rowcount, 4))];
    Script4(fixed[0], fixed[1], fixed[2], fixed[3]);
    if version >= TDS_7_2 {
      var high := Bytes(BE(if rowcount > 32 then 1 else 0, 4));
      ScriptAppend(fixed, [high]);
      ScriptOne(high);
    } else {
      assert fixed + [] == fixed;
    }
  }

  lemma MessageScriptBytes(number: nat, state: nat, severity: nat, line: nat, message: Text, version: nat)
    ensures ScriptBytes(MessageScript(number, state, severity, line, message, version))
         == MessageBody(number, state, severity, line, message, version)
  {
    var script := MessageScript(number, state, severity, line, message, version);
    Script7(script[0], script[1], script[2], script[3], script[4], script[5], script[6]);
  }

  lemma LoginAckScriptBytes(t: Token, version: nat)
    requires t.LoginAck?
    ensures ScriptBytes(BodyScript(t, version)) == Body(t, version)
  {
    hide ScriptBytes, LE, BE;
    var script := BodyScript(t, version);
    Script7(script[0], script[1], script[2], script[3], script[4], script[5], script[6]);
    LoginAckAssoc(LE(t.interface, 1) + BE(t.version, 4) + CountedName(t.product));
  }

  lemma BodyScriptBytes(t: Token, version: nat)
    requires Framed(t)
    ensures ScriptBytes(BodyScript(t, version)) == Body(t, version)
  {
    hide ScriptBytes;
    var script := BodyScript(t, version);
    match t
    case Error(number, state, severity, line, message) =>
      MessageScriptBytes(number, state, severity, line, message, version);
    case Info(number, state, severity, line, message) =>
      MessageScriptBytes(number, state, severity, line, message, version);
    case LoginAck(_, _, _) => LoginAckScriptBytes(t, version);
    case EnvDatabase(_, _) => Script3(script[0], script[1], script[2]);
    case EnvCollation => Script6(script[0], script[1], script[2], script[3], script[4], script[5]);
  }

  lemma LoginAckAssoc(s: seq<byte>)
    ensures s + [10] + [50] + [0] + [0] == s + [10, 50, 0, 0]
  {
  }

  lemma {:induction false} ColumnsScriptBytes(cols: seq<Column>, version: nat)
    ensures ScriptBytes(ColumnsScript(cols, version)) == EncodeColumns(cols, version)
  {
    hide ColumnScript, EncodeColumn;
    if cols != [] {
      ColumnScriptBytes(cols[0], version);
      ColumnsScriptBytes(cols[1..], version);
      ScriptAppend(ColumnScript(cols[0], version), ColumnsScript(cols[1..], version));
    }
  }

  lemma {:induction false} CellsScriptBytes(cols: seq<Column>, row: Row, version: nat)
    requires WellTypedRow(cols, row)
    ensures ScriptBytes(CellsScript(cols, row, version)) == EncodeCells(cols, row, version)
  {
    hide CellScript, EncodeCell;
    if cols != [] {
      CellScriptBytes(cols[0], row[0], version);
      CellsScriptBytes(cols[1..], row[1..], version);
      ScriptAppend(CellScript(cols[0], row[0], version), CellsScript(cols[1..], row[1..], version));
    }
  }

  lemma {:induction false} RowsScriptBytes(cols: seq<Column>, rows: seq<Row>, version: nat)
    requires forall row :: row in rows ==> WellTypedRow(cols, row)
    ensures ScriptBytes(RowsScript(cols, rows, version)) == EncodeRows(cols, rows, version)
  {
    hide CellsScript, EncodeCells, WellTypedRow;
    if rows != [] {
      var cells := CellsScript(cols, rows[0], version);
      CellsScriptBytes(cols, rows[0], version);
      RowsScriptBytes(cols, rows[1..], version);
      ScriptOne(Bytes([0xd1]));
      ScriptAppend(ROW_MARK, cells);
      ScriptAppend(ROW_MARK + cells, RowsScript(cols, rows[1..], version));
    }
  }

  lemma ResultsScriptBytes(cols: seq<Column>, rows: seq<Row>, version: nat)
    requires Writable(ResultSetToken(cols, rows))
    ensures ScriptBytes(TokenScript(ResultSetToken(cols, rows), version)) == EncodeResults(cols, rows, version)
  {
    hide ColumnsScript, RowsScript, EncodeColumns, EncodeRows, WellTypedRow;
    var head, middle, last := HeadScript(|cols|), ColumnsScript(cols, version), RowsScript(cols, rows, version);
    HeadScriptBytes(|cols|);
    ColumnsScriptBytes(cols, version);
    RowsScriptBytes(cols, rows, version);
    ScriptAppend(head, middle);
    ScriptAppend(head + middle, last);
    ResultsGrouping(LE(|cols|, 2), EncodeColumns(cols, version), EncodeRows(cols, rows, version));
  }

  lemma HeadScriptBytes(columnCount: nat)
    ensures ScriptBytes(HeadScript(columnCount)) == [0x81] + LE(columnCount, 2)
  {
    ScriptCons(Bytes([0x81]), [Bytes(LE(columnCount, 2))]);
    ScriptOne(Bytes(LE(columnCount, 2)));
    assert HeadScript(columnCount) == [Bytes([0x81])] + [Bytes(LE(columnCount, 2))];
  }

  lemma ResultsGrouping(count: seq<byte>, cols: seq<byte>, rows: seq<byte>)
    ensures [0x81] + count + cols + rows == [0x81] + (count + cols + rows)
  {
    Assoc3([0x81], count, cols, rows);
    Assoc(count, cols, rows);
  }

  lemma FrameScriptBytes(t: Token)
    ensures ScriptBytes(FrameScript(t)) == [TokenType(t), 0xFF, 0xFF]
  {
    ScriptCons(Bytes([TokenType(t)]), [LengthHu16(-3)]);
    ScriptOne(LengthHu16(-3));
    assert FrameScript(t) == [Bytes([TokenType(t)])] + [LengthHu16(-3)];
  }

  // ----- no lengths and no tails but the frame's -----

  ghost predicate Plain(script: seq<Add>) {
    forall i :: 0 <= i < |script| ==> script[i].Bytes? || script[i].Cc1? || script[i].Cch2?
  }

  lemma {:induction false} PlainKeeps(script: seq<Add>, v: Snapshot)
    requires Plain(script)
    ensures DoAll(script, v).tails == v.tails && DoAll(script, v).len == v.len
    decreases |script|
  {
    if script != [] {
      PlainKeeps(script[1..], Do(script[0], v));
    }
  }

  lemma {:induction false} ColumnsPlain(cols: seq<Column>, version: nat)
    ensures Plain(ColumnsScript(cols, version))
  {
    if cols != [] {
      ColumnsPlain(cols[1..], version);
    }
  }

  lemma {:induction false} CellsPlain(cols: seq<Column>, row: Row, version: nat)
    requires WellTypedRow(cols, row)
    ensures Plain(CellsScript(cols, row, version))
  {
    if cols != [] {
      CellsPlain(cols[1..], row[1..], version);
    }
  }

  lemma {:induction false} RowsPlain(cols: seq<Column>, rows: seq<Row>, version: nat)
    requires forall row :: row in rows ==> WellTypedRow(cols, row)
    ensures Plain(RowsScript(cols, rows, version))
  {
    if rows != [] {
      CellsPlain(cols, rows[0], version);
      RowsPlain(cols, rows[1..], version);
    }
  }

  /** What a child holds when a token has made its adds, and what finalise() makes of it. */
  lemma TokenSealed(t: Token, version: nat, capacity: nat, used: nat)
    requires Writable(t)
    ensures var c := DoAll(TokenScript(t, version), ChildView(capacity, used));
            && c.tails == [] && LengthIn(c.len, |c.contents|)
            && Seal(c.contents, c.tails, c.len) == Encode(t, version)
            && c.used == used + |Encode(t, version)|
  {
    hide DoAll, ColumnsScript, RowsScript, BodyScript, DoneScript, WellTypedRow, EncodeResults, Body, AppendTails;
    var v := ChildView(capacity, used);
    DoAllContents(TokenScript(t, version), v);
    match t
    case Done(status, curcmd, rowcount) =>
      DoneScriptBytes(status, curcmd, rowcount, version);
      DonePlain(status, curcmd, rowcount, version);
      PlainKeeps(DoneScript(status, curcmd, rowcount, version), v);
      SealPlain(Encode(t, version));
      assert [] + Encode(t, version) == Encode(t, version);
    case ResultSetToken(cols, rows) =>
      ResultsScriptBytes(cols, rows, version);
      ColumnsPlain(cols, version);
      RowsPlain(cols, rows, version);
      PlainKeeps(TokenScript(t, version), v);
      SealPlain(Encode(t, version));
      assert [] + Encode(t, version) == Encode(t, version);
    case _ => FramedSealed(t, version, v);
  }

  lemma DonePlain(status: DoneStatus, curcmd: nat, rowcount: nat, version: nat)
    ensures Plain(DoneScript(status, curcmd, rowcount, version))
  {
  }

  lemma FramedSealed(t: Token, version: nat, v: Snapshot)
    requires Framed(t) && v == ChildView(v.capacity, v.used)
    ensures var c := DoAll(FrameScript(t) + BodyScript(t, version), v);
            && c.tails == [] && LengthIn(c.len, |c.contents|)
            && Seal(c.contents, c.tails, c.len) == Encode(t, version)
            && c.used == v.used + |Encode(t, version)|
  {
    hide BodyScript, Body, AppendTails;
    var frame, body := FrameScript(t), BodyScript(t, version);
    DoJoin(frame, body, v);
    DoAllContents(frame + body, v);
    FrameScriptBytes(t);
    BodyScriptBytes(t, version);
    ScriptAppend(frame, body);
    var raw := [TokenType(t), 0xFF, 0xFF] + Body(t, version);
    assert [] + raw == raw;
    var mid := DoAll(frame, v);
    FrameLength(t, v);
    BodyPlain(t, version);
    PlainKeeps(body, mid);
    SealFramed(t, version);
  }

  lemma FrameLength(t: Token, v: Snapshot)
    requires v == ChildView(v.capacity, v.used)
    ensures DoAll(FrameScript(t), v).len == HU16(1, -3) && DoAll(FrameScript(t), v).tails == []
  {
    assert FrameScript(t)[1..] == [LengthHu16(-3)];
    var next := Do(Bytes([TokenType(t)]), v);
    assert |next.contents| == 1;
    assert DoAll([LengthHu16(-3)], next) == DoAll([], Do(LengthHu16(-3), next));
  }

  lemma BodyPlain(t: Token, version: nat)
    requires Framed(t)
    ensures Plain(BodyScript(t, version))
  {
  }

  lemma SealPlain(s: seq<byte>)
    ensures Seal(s, [], NoLength) == s
  {
    assert AppendTails(s, [], 0) == s;
  }

  /** finalise() turns it into the finished token. */
  lemma SealFramed(t: Token, version: nat)
    requires Framed(t)
    ensures Seal([TokenType(t), 0xFF, 0xFF] + Body(t, version), [], HU16(1, -3)) == Encode(t, version)
  {
    var body := Body(t, version);
    var raw := [TokenType(t), 0xFF, 0xFF] + body;
    assert AppendTails(raw, [], 0) == raw;
    var field := LE((|raw| - 3) % 0x1_0000, 2);
    LEMod(|body|);
    assert Patch(raw, 1, field) == [TokenType(t)] + field + body;
  }

  lemma LEMod(n: nat)
    ensures LE(n % 0x1_0000, 2) == LE(n, 2)
  {
    var lo, hi := n % 256, n / 256 % 256;
    ModSplit(n, 256);
    ModUnique(n % 0x1_0000, 256, hi, lo);
    LETwo(n);
    LETwo(n % 0x1_0000);
  }

  lemma LETwo(n: nat)
    ensures LE(n, 2) == [n % 256, n / 256 % 256]
  {
    assert LE(n, 2) == [n % 256] + LE(n / 256, 1);
    assert LE(n / 256, 1) == [n / 256 % 256] + LE(n / 256 / 256, 0);
  }
}
