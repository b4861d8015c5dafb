/**
 The result-set token of tds/tdstoken_results.cc, and a decoder that knows nothing
 but the emitted column metadata (section 2.2.7.4 of MS-TDS; layouts in docs/versions).
 */
module Results {
  import opened Bytes
  import DynBuffer
  import opened Options

  const TDS_7_2: nat := 0x7200_0000

  datatype XType =
    | Char | Varchar | Nvarchar | Varbinary
    | Bit | Tinyint | Smallint | Int | Bigint | Real | Float | Datetime | Decimal

  datatype Column = Column(xtype: XType, typmod: int, name: DynBuffer.Text)

  /**
   A field: NULL, the bytes of a variable-length value, or the eight bytes of a
   PostgreSQL Datum word (or of the eight bytes that it points to).
   */
  datatype Datum = Null | Value(bytes: seq<byte>)

  predicate VariableLength(t: XType) {
    t.Varchar? || t.Nvarchar? || t.Varbinary?
  }

  /** The types whose rows carry a length byte and that many bytes. */
  predicate FixedLength(t: XType) {
    !VariableLength(t) && !t.Char? && !t.Decimal?
  }

  function Width(t: XType): nat {
    match t
    case Bit | Tinyint => 1
    case Smallint => 2
    case Int | Real => 4
    case _ => 8
  }

  function TypeByte(t: XType): byte {
    match t
    case Char => 175
    case Varchar => 167
    case Nvarchar => 231
    case Varbinary => 165
    case Bit => 104
    case Tinyint | Smallint | Int | Bigint => 0x26
    case Real | Float => 0x6d
    case Datetime => 111
    case Decimal => 106
  }

  function Flags(t: XType): nat {
    match t
    case Char | Varchar | Varbinary | Datetime => 0x21
    case Nvarchar | Decimal => 0
    case _ => 1
  }

  /** The 16-bit length in the metadata: a narrowed typmod, or 8000 for an old client. */
  function HeaderLength(c: Column, version: nat): (n: nat)
    ensures n < 0x1_0000
  {
    if version < TDS_7_2 && c.typmod == -1 then 8000 else c.typmod % 0x1_0000
  }

  function CollationBytes(t: XType): seq<byte> {
    if t.Char? || t.Varchar? || t.Nvarchar? then LE(1033, 2) + LE(0xd0, 2) + [0] else []
  }

  function TypeInfo(c: Column, version: nat): seq<byte> {
    if VariableLength(c.xtype) || c.xtype.Char? then LE(HeaderLength(c, version), 2) + CollationBytes(c.xtype)
    else if c.xtype.Decimal? then [0x11, c.typmod / 0x1_0000 % 0x100, (c.typmod % 0x1_0000 - 4) % 0x100]
    else LE(Width(c.xtype), 1)
  }

  function UserTypeSize(version: nat): nat {
    if version >= TDS_7_2 then 4 else 2
  }

  function CountedName(t: DynBuffer.Text): seq<byte> {
    LE(|t.ucs2| / 2, 1) + t.ucs2
  }

  function EncodeColumn(c: Column, version: nat): seq<byte> {
    LE(0, UserTypeSize(version)) + LE(Flags(c.xtype), 2) + [TypeByte(c.xtype)]
    + TypeInfo(c, version) + CountedName(c.name)
  }

  /** The long form is chosen by the typmod itself, not by the length in the metadata. */
  predicate LongForm(c: Column, version: nat) {
    VariableLength(c.xtype) && version >= TDS_7_2 && c.typmod == -1
  }

  function FixedBytes(t: XType, bytes: seq<byte>): seq<byte>
    requires |bytes| == 8
  {
    if t.Real? then [bytes[0], 0, 0, 0] else bytes[..Width(t)]
  }

  predicate WellTyped(c: Column, d: Datum) {
    FixedLength(c.xtype) && d.Value? ==> |d.bytes| == 8
  }

  /** The NULL of the long form. */
  function NullHead(): (r: seq<byte>)
    ensures |r| == 8
  {
    LE(0xFFFF_FFFF, 4) + LE(0xFFFF_FFFF, 4)
  }

  function EncodeCell(c: Column, d: Datum, version: nat): seq<byte>
    requires WellTyped(c, d)
  {
    if c.xtype.Char? || c.xtype.Decimal? then []
    else if LongForm(c, version) then
      if d.Null? then NullHead()
      else LE(|d.bytes|, 4) + LE(0, 4) + LE(|d.bytes|, 4) + d.bytes + LE(0, 4)
    else if VariableLength(c.xtype) then
      if d.Null? then LE(0xFFFF, 2) else LE(|d.bytes|, 2) + d.bytes
    else if d.Null? then [0]
    else LE(Width(c.xtype), 1) + FixedBytes(c.xtype, d.bytes)
  }

  type Row = seq<Datum>

  predicate WellTypedRow(cols: seq<Column>, row: Row) {
    |row| == |cols| && forall j :: 0 <= j < |cols| ==> WellTyped(cols[j], row[j])
  }

  function EncodeColumns(cols: seq<Column>, version: nat): seq<byte> {
    if cols == [] then [] else EncodeColumn(cols[0], version) + EncodeColumns(cols[1..], version)
  }

  function EncodeCells(cols: seq<Column>, row: Row, version: nat): seq<byte>
    requires WellTypedRow(cols, row)
  {
    if cols == [] then [] else EncodeCell(cols[0], row[0], version) + EncodeCells(cols[1..], row[1..], version)
  }

  function EncodeRows(cols: seq<Column>, rows: seq<Row>, version: nat): seq<byte>
    requires forall row :: row in rows ==> WellTypedRow(cols, row)
  {
    if rows == [] then [] else [0xd1] + EncodeCells(cols, rows[0], version) + EncodeRows(cols, rows[1..], version)
  }

  function EncodeResults(cols: seq<Column>, rows: seq<Row>, version: nat): seq<byte>
    requires forall row :: row in rows ==> WellTypedRow(cols, row)
  {
    [0x81] + ResultsBody(cols, rows, version)
  }

  function ResultsBody(cols: seq<Column>, rows: seq<Row>, version: nat): seq<byte>
    requires forall row :: row in rows ==> WellTypedRow(cols, row)
  {
    LE(|cols|, 2) + EncodeColumns(cols, version) + EncodeRows(cols, rows, version)
  }

  // ----- the decoder -----

  /**
   A column as the metadata describes it; the details are the collation of a text, the
   precision and the scale of a decimal, and nothing for the other types.
   */
  datatype WireColumn =
    WireColumn(userType: nat, flags: nat, typeByte: byte, size: nat, details: seq<byte>, name: seq<byte>)

  /** A cell as a client sees it: NULL or bytes. */
  type Cell = Option<seq<byte>>

  type Parse<T> = Option<(T, seq<byte>)>

  function Take(s: seq<byte>, n: nat): Parse<seq<byte>> {
    if |s| < n then None else Some((s[..n], s[n..]))
  }

  function TakeNumber(s: seq<byte>, width: nat): Parse<nat> {
    match Take(s, width)
    case None => None
    case Some((bytes, rest)) => Some((FromLE(bytes), rest))
  }

  /** A little-endian count, then that many bytes. */
  function TakeCounted(s: seq<byte>, width: nat): Parse<seq<byte>> {
    match TakeNumber(s, width)
    case None => None
    case Some((n, rest)) => Take(rest, n)
  }

  /** A count byte, then that many two-byte characters. */
  function TakeName(s: seq<byte>): Parse<seq<byte>> {
    match TakeNumber(s, 1)
    case None => None
    case Some((n, rest)) => Take(rest, 2 * n)
  }

  predicate HasLongLength(typeByte: byte) {
    typeByte == 167 || typeByte == 231 || typeByte == 165 || typeByte == 175
  }

  /** How many bytes the size and the details of a type take. */
  function SizeWidth(typeByte: byte): nat {
    if HasLongLength(typeByte) then 2 else 1
  }

  function DetailSize(typeByte: byte): nat {
    if typeByte == 167 || typeByte == 231 || typeByte == 175 then 5 else if typeByte == 106 then 2 else 0
  }

  /** The type-dependent part of the metadata, after the type byte. */
  function DecodeSize(typeByte: byte, s: seq<byte>): Parse<(nat, seq<byte>)> {
    match TakeNumber(s, SizeWidth(typeByte))
    case None => None
    case Some((n, rest)) =>
      match Take(rest, DetailSize(typeByte))
      case None => None
      case Some((details, rest')) => Some(((n, details), rest'))
  }

  /** From 7.2 on the user type has four bytes. */
  function DecodeColumn(s: seq<byte>, version: nat): Parse<WireColumn> {
    match TakeNumber(s, if version >= 0x7200_0000 then 4 else 2)
    case None => None
    case Some((userType, s0)) =>
      match TakeNumber(s0, 2)
      case None => None
      case Some((flags, s1)) =>
        match Take(s1, 1)
        case None => None
        case Some((t, s2)) =>
          match DecodeSize(t[0], s2)
          case None => None
          case Some(((size, details), s3)) =>
            match TakeName(s3)
            case None => None
            case Some((name, s4)) => Some((WireColumn(userType, flags, t[0], size, details, name), s4))
  }

  function DecodeLong(s: seq<byte>): Parse<Cell> {
    match Take(s, 8)
    case None => None
    case Some((head, s1)) =>
      if head == [0xFF, 0xFF, 0xFF, 0xFF, 0xFF, 0xFF, 0xFF, 0xFF] then Some((None, s1))
      else
        match TakeCounted(s1, 4)
        case None => None
        case Some((bytes, s2)) =>
          match Take(s2, 4)
          case None => None
          case Some((_, s3)) => Some((Some(bytes), s3))
  }

  function DecodeShort(s: seq<byte>): Parse<Cell> {
    match TakeNumber(s, 2)
    case None => None
    case Some((n, s1)) =>
      if n == 0xFFFF then Some((None, s1))
      else
        match Take(s1, n)
        case None => None
        case Some((bytes, s2)) => Some((Some(bytes), s2))
  }

  function DecodeFixed(s: seq<byte>): Parse<Cell> {
    match TakeNumber(s, 1)
    case None => None
    case Some((n, s1)) =>
      if n == 0 then Some((None, s1))
      else
        match Take(s1, n)
        case None => None
        case Some((bytes, s2)) => Some((Some(bytes), s2))
  }

  function DecodeCell(w: WireColumn, s: seq<byte>, version: nat): Parse<Cell> {
    if HasLongLength(w.typeByte) then
      if version >= 0x7200_0000 && w.size == 0xFFFF then DecodeLong(s) else DecodeShort(s)
    else DecodeFixed(s)
  }

  function DecodeColumns(n: nat, s: seq<byte>, version: nat): Parse<seq<WireColumn>> {
    if n == 0 then Some(([], s))
    else
      match DecodeColumn(s, version)
      case None => None
      case Some((w, s1)) =>
        match DecodeColumns(n - 1, s1, version)
        case None => None
        case Some((ws, s2)) => Some(([w] + ws, s2))
  }

  function DecodeCells(ws: seq<WireColumn>, s: seq<byte>, version: nat): (r: Parse<seq<Cell>>)
    ensures r.Some? ==> |r.value.1| <= |s|
  {
    if ws == [] then Some(([], s))
    else
      match DecodeCell(ws[0], s, version)
      case None => None
      case Some((cell, s1)) =>
        match DecodeCells(ws[1..], s1, version)
        case None => None
        case Some((cells, s2)) => Some(([cell] + cells, s2))
  }

  /** Rows go on as long as the next byte is the row marker. */
  function DecodeRows(ws: seq<WireColumn>, s: seq<byte>, version: nat): (r: Parse<seq<seq<Cell>>>)
    ensures r.Some? ==> |r.value.1| <= |s|
    decreases |s|
  {
    if s == [] || s[0] != 0xd1 then Some(([], s))
    else
      match DecodeCells(ws, s[1..], version)
      case None => None
      case Some((cells, s1)) =>
        match DecodeRows(ws, s1, version)
        case None => None
        case Some((rows, s2)) => Some(([cells] + rows, s2))
  }

  datatype ResultSet = ResultSet(cols: seq<WireColumn>, rows: seq<seq<Cell>>)

  /** Decodes what follows the 0x81 token byte. */
  function DecodeResults(s: seq<byte>, version: nat): (r: Parse<ResultSet>) {
    match TakeNumber(s, 2)
    case None => None
    case Some((n, s1)) =>
      match DecodeColumns(n, s1, version)
      case None => None
      case Some((cols, s2)) =>
        match DecodeRows(cols, s2, version)
        case None => None
        case Some((rows, s3)) => Some((ResultSet(cols, rows), s3))
  }

  // ----- what the decoder should give back -----

  /** The size that a variable-length column announces: 8000 for max before 7.2, and 0xFFFF from then on. */
  function DeclaredSize(typmod: int, version: nat): nat {
    if typmod != -1 then typmod % 0x1_0000 else if version < 0x7200_0000 then 8000 else 0xFFFF
  }

  /** Locale 1033, sort flags 0xD0, charset 0. */
  const COLLATION: seq<byte> := [0x09, 0x04, 0xD0, 0x00, 0x00]

  /** What the metadata says of each type: flags, type byte, size and details. */
  function WireOf(c: Column, version: nat): WireColumn {
    var name := c.name.ucs2;
    match c.xtype
    case Char => WireColumn(0, 0x21, 175, DeclaredSize(c.typmod, version), COLLATION, name)
    case Varchar => WireColumn(0, 0x21, 167, DeclaredSize(c.typmod, version), COLLATION, name)
    case Nvarchar => WireColumn(0, 0, 231, DeclaredSize(c.typmod, version), COLLATION, name)
    case Varbinary => WireColumn(0, 0x21, 165, DeclaredSize(c.typmod, version), [], name)
    case Bit => WireColumn(0, 1, 104, 1, [], name)
    case Tinyint => WireColumn(0, 1, 0x26, 1, [], name)
    case Smallint => WireColumn(0, 1, 0x26, 2, [], name)
    case Int => WireColumn(0, 1, 0x26, 4, [], name)
    case Bigint => WireColumn(0, 1, 0x26, 8, [], name)
    case Real => WireColumn(0, 1, 0x6D, 4, [], name)
    case Float => WireColumn(0, 1, 0x6D, 8, [], name)
    case Datetime => WireColumn(0, 0x21, 111, 8, [], name)
    case Decimal =>
      WireColumn(0, 0, 106, 0x11, [c.typmod / 0x1_0000 % 0x100, (c.typmod % 0x1_0000 - 4) % 0x100], name)
  }

  /** A column declared as decimal(p, s) has the typmod p * 65536 + s + 4; the client is told p and s. */
  lemma DecimalTold(p: nat, scale: nat, name: DynBuffer.Text, version: nat)
    requires 1 <= p <= 38 && scale <= p
    ensures WireOf(Column(Decimal, p * 0x1_0000 + scale + 4, name), version).details == [p, scale]
  {
    var typmod := p * 0x1_0000 + scale + 4;
    assert typmod / 0x1_0000 == p && typmod % 0x1_0000 == scale + 4;
  }

  /** The column type that the type byte and the size stand for. */
  function TypeOf(w: WireColumn): XType {
    match w.typeByte
    case 175 => Char
    case 167 => Varchar
    case 231 => Nvarchar
    case 165 => Varbinary
    case 104 => Bit
    case 0x26 => if w.size == 1 then Tinyint else if w.size == 2 then Smallint else if w.size == 4 then Int else Bigint
    case 0x6d => if w.size == 4 then Real else Float
    case 106 => Decimal
    case _ => Datetime
  }

  function CellOf(c: Column, d: Datum): Cell
    requires WellTyped(c, d)
  {
    if d.Null? then None
    else if FixedLength(c.xtype) then Some(d.bytes[..Width(c.xtype)])
    else Some(d.bytes)
  }

  /**
   Exactly when a cell comes back: the metadata announces the form that the row
   uses, the length fits its field, and a REAL has only its low byte set.
   */
  predicate Recoverable(c: Column, d: Datum, version: nat)
    requires WellTyped(c, d)
  {
    && (VariableLength(c.xtype) && version >= TDS_7_2 ==> (c.typmod % 0x1_0000 == 0xFFFF <==> c.typmod == -1))
    && (VariableLength(c.xtype) && d.Value? ==> |d.bytes| < if LongForm(c, version) then 0x1_0000_0000 else 0xFFFF)
    && (c.xtype.Real? && d.Value? ==> d.bytes[1] == d.bytes[2] == d.bytes[3] == 0)
  }

  /** A column whose name fits its count byte. */
  predicate Named(c: Column) {
    |c.name.ucs2| % 2 == 0 && |c.name.ucs2| <= 510
  }

  predicate Sendable(c: Column) {
    !c.xtype.Char? && !c.xtype.Decimal? && Named(c)
  }

  lemma Split(a: seq<byte>, b: seq<byte>)
    ensures Take(a + b, |a|) == Some((a, b))
  {
    assert (a + b)[..|a|] == a && (a + b)[|a|..] == b;
  }

  lemma TakeWritten(n: nat, width: nat, rest: seq<byte>)
    ensures Pow(256, width) > 0
    ensures TakeNumber(LE(n, width) + rest, width) == Some((n % Pow(256, width), rest))
  {
    Split(LE(n, width), rest);
    FromLEOfLE(n, width);
  }

  /** The metadata of any column, CHAR and DECIMAL included, tells a client exactly what WireOf says. */
  lemma ColumnRoundTrip(c: Column, version: nat, rest: seq<byte>)
    requires Named(c)
    ensures DecodeColumn(EncodeColumn(c, version) + rest, version) == Some((WireOf(c, version), rest))
  {
    hide CountedName, TypeInfo, DecodeSize, DecodeColumn, WireOf, LE;
    var user, flags := LE(0, UserTypeSize(version)), LE(Flags(c.xtype), 2);
    var info, w := TypeInfo(c, version), WireOf(c, version);
    SizeRoundTrip(c, version, CountedName(c.name) + rest);
    HeadTold(c, version);
    PartsRoundTrip(Flags(c.xtype), TypeByte(c.xtype), info, w.size, w.details, c.name, version, rest);
    assert EncodeColumn(c, version) == user + flags + [TypeByte(c.xtype)] + info + CountedName(c.name);
  }

  lemma HeadTold(c: Column, version: nat)
    ensures var w := WireOf(c, version);
            w == WireColumn(0, Flags(c.xtype), TypeByte(c.xtype), w.size, w.details, c.name.ucs2)
  {
  }

  lemma PartsRoundTrip(flags: nat, t: byte, info: seq<byte>, size: nat, details: seq<byte>,
                       name: DynBuffer.Text, version: nat, rest: seq<byte>)
    requires flags < 0x1_0000 && |name.ucs2| % 2 == 0 && |name.ucs2| <= 510
    requires DecodeSize(t, info + (CountedName(name) + rest)) == Some(((size, details), CountedName(name) + rest))
    ensures DecodeColumn(LE(0, UserTypeSize(version)) + LE(flags, 2) + [t] + info + CountedName(name) + rest, version)
         == Some((WireColumn(0, flags, t, size, details, name.ucs2), rest))
  {
    hide CountedName, DecodeSize, TakeName, LE;
    var user, head := LE(0, UserTypeSize(version)), LE(flags, 2);
    var s2 := info + (CountedName(name) + rest);
    Assoc4(user + head, [t], info, CountedName(name), rest);
    Assoc(user, head, [t] + s2);
    Widths();
    TakeWritten(0, UserTypeSize(version), head + ([t] + s2));
    TakeWritten(flags, 2, [t] + s2);
    Split([t], s2);
    NameRoundTrip(name, rest);
  }

  lemma NameRoundTrip(name: DynBuffer.Text, rest: seq<byte>)
    requires |name.ucs2| % 2 == 0 && |name.ucs2| <= 510
    ensures TakeName(CountedName(name) + rest) == Some((name.ucs2, rest))
  {
    Widths();
    Assoc(LE(|name.ucs2| / 2, 1), name.ucs2, rest);
    TakeWritten(|name.ucs2| / 2, 1, name.ucs2 + rest);
    Split(name.ucs2, rest);
  }

  lemma SizeRoundTrip(c: Column, version: nat, rest: seq<byte>)
    ensures var w := WireOf(c, version);
            DecodeSize(TypeByte(c.xtype), TypeInfo(c, version) + rest) == Some(((w.size, w.details), rest))
  {
    var w := WireOf(c, version);
    Widths();
    CollationTold();
    InfoTold(c, version);
    var n := LE(w.size, SizeWidth(TypeByte(c.xtype)));
    Assoc(n, w.details, rest);
    TakeWritten(w.size, SizeWidth(TypeByte(c.xtype)), w.details + rest);
    Split(w.details, rest);
  }

  lemma CollationTold()
    ensures LE(1033, 2) + LE(0xd0, 2) + [0] == COLLATION && LE(0x11, 1) == [0x11]
  {
    assert LE(1033, 2) == [0x09, 0x04] && LE(0xd0, 2) == [0xD0, 0x00];
    assert [0x09, 0x04] + [0xD0, 0x00] + [0] == COLLATION;
  }

  lemma InfoTold(c: Column, version: nat)
    ensures var w := WireOf(c, version);
            && TypeInfo(c, version) == LE(w.size, SizeWidth(TypeByte(c.xtype))) + w.details
            && |w.details| == DetailSize(TypeByte(c.xtype))
            && w.size < (if HasLongLength(TypeByte(c.xtype)) then 0x1_0000 else 0x100)
  {
    hide LE;
    CollationTold();
    var w := WireOf(c, version);
    if w.details == [] {
      assert LE(w.size, SizeWidth(TypeByte(c.xtype))) + [] == LE(w.size, SizeWidth(TypeByte(c.xtype)));
    }
  }

  /** The cell form agrees with the metadata exactly under Recoverable. */
  lemma CellExact(c: Column, d: Datum, version: nat, rest: seq<byte>)
    requires Sendable(c) && WellTyped(c, d)
    ensures DecodeCell(WireOf(c, version), EncodeCell(c, d, version) + rest, version) == Some((CellOf(c, d), rest))
       <==> Recoverable(c, d, version)
  {
    if !VariableLength(c.xtype) {
      FixedExact(c, d, version, rest);
    } else if version >= TDS_7_2 && c.typmod % 0x1_0000 == 0xFFFF {
      if LongForm(c, version) {
        LongExact(d, rest);
      } else {
        Misread(d, rest);
      }
    } else {
      ShortExact(d, rest);
    }
  }

  lemma FixedExact(c: Column, d: Datum, version: nat, rest: seq<byte>)
    requires FixedLength(c.xtype) && WellTyped(c, d)
    ensures DecodeFixed(EncodeCell(c, d, version) + rest) == Some((CellOf(c, d), rest)) <==> Recoverable(c, d, version)
  {
    Widths();
    if d.Null? {
      assert LE(0, 1) == [0];
      TakeWritten(0, 1, rest);
    } else {
      var w, bytes := Width(c.xtype), FixedBytes(c.xtype, d.bytes);
      Assoc(LE(w, 1), bytes, rest);
      TakeWritten(w, 1, bytes + rest);
      Split(bytes, rest);
      assert DecodeFixed(EncodeCell(c, d, version) + rest) == Some((Some(bytes), rest));
      if c.xtype.Real? {
        assert d.bytes[..4] == [d.bytes[0], d.bytes[1], d.bytes[2], d.bytes[3]];
      }
    }
  }

  lemma ShortExact(d: Datum, rest: seq<byte>)
    ensures var s := if d.Null? then LE(0xFFFF, 2) else LE(|d.bytes|, 2) + d.bytes;
            DecodeShort(s + rest) == Some((if d.Null? then None else Some(d.bytes), rest))
            <==> (d.Value? ==> |d.bytes| < 0xFFFF)
  {
    Widths();
    if d.Null? {
      TakeWritten(0xFFFF, 2, rest);
    } else {
      var n := |d.bytes|;
      Assoc(LE(n, 2), d.bytes, rest);
      TakeWritten(n, 2, d.bytes + rest);
      if n < 0x1_0000 {
        Split(d.bytes, rest);
      } else {
        assert n % 0x1_0000 < n;
      }
    }
  }

  lemma LongExact(d: Datum, rest: seq<byte>)
    ensures var s := if d.Null? then NullHead()
                     else LE(|d.bytes|, 4) + LE(0, 4) + LE(|d.bytes|, 4) + d.bytes + LE(0, 4);
            DecodeLong(s + rest) == Some((if d.Null? then None else Some(d.bytes), rest))
            <==> (d.Value? ==> |d.bytes| < 0x1_0000_0000)
  {
    if d.Null? {
      Split(NullHead(), rest);
    } else {
      var n := |d.bytes|;
      var s := LE(n, 4) + LE(0, 4) + LE(n, 4) + d.bytes + LE(0, 4) + rest;
      Assoc4(LE(n, 4) + LE(0, 4), LE(n, 4), d.bytes, LE(0, 4), rest);
      LongValueExact(s, d.bytes, rest);
    }
  }

  lemma LongValueExact(s: seq<byte>, bytes: seq<byte>, rest: seq<byte>)
    requires s == (LE(|bytes|, 4) + LE(0, 4)) + (LE(|bytes|, 4) + (bytes + (LE(0, 4) + rest)))
    ensures DecodeLong(s) == Some((Some(bytes), rest)) <==> |bytes| < 0x1_0000_0000
  {
    var n := |bytes|;
    HeadIsNotNull(n);
    FitsExactly(n, 4);
    Widths();
    LongPartsExact(s, LE(n, 4) + LE(0, 4), LE(n, 4), bytes, LE(0, 4), rest);
  }

  /** With any count in front, the value comes back exactly when the count is its length. */
  lemma LongPartsExact(s: seq<byte>, head: seq<byte>, count: seq<byte>,
                       bytes: seq<byte>, end: seq<byte>, rest: seq<byte>)
    requires s == head + (count + (bytes + (end + rest)))
    requires |head| == 8 && |count| == 4 && |end| == 4 && head != NullHead()
    ensures DecodeLong(s) == Some((Some(bytes), rest)) <==> FromLE(count) == |bytes|
  {
    var m, s2 := FromLE(count), bytes + (end + rest);
    Split(head, count + s2);
    Split(count, s2);
    DecodeLongSteps(s, head, count + s2, m, s2);
    if m == |bytes| {
      Split(bytes, end + rest);
      Split(end, rest);
    } else if |s2| >= m {
      assert |s2[..m]| == m;
    }
  }

  lemma DecodeLongSteps(s: seq<byte>, head: seq<byte>, s1: seq<byte>, m: nat, s2: seq<byte>)
    requires Take(s, 8) == Some((head, s1)) && head != NullHead()
    requires TakeNumber(s1, 4) == Some((m, s2))
    ensures |s2| >= m && |s2| >= m + 4 ==> DecodeLong(s) == Some((Some(s2[..m]), s2[m..][4..]))
    ensures |s2| < m || |s2| < m + 4 ==> DecodeLong(s) == None
  {
  }

  lemma HeadIsNotNull(n: nat)
    ensures LE(n, 4) + LE(0, 4) != NullHead()
  {
    assert (LE(n, 4) + LE(0, 4))[4] == LE(0, 4)[0] == 0;
    assert (LE(0xFFFF_FFFF, 4) + LE(0xFFFF_FFFF, 4))[4] == LE(0xFFFF_FFFF, 4)[0] == 255;
  }

  /** A short cell under metadata that announces the long form is never read correctly. */
  lemma Misread(d: Datum, rest: seq<byte>)
    ensures var s := if d.Null? then LE(0xFFFF, 2) else LE(|d.bytes|, 2) + d.bytes;
            DecodeLong(s + rest) != Some((if d.Null? then None else Some(d.bytes), rest))
  {
    var s := if d.Null? then LE(0xFFFF, 2) else LE(|d.bytes|, 2) + d.bytes;
    var r := DecodeLong(s + rest);
    if r.Some? {
      if r.value.0.None? {
        assert |r.value.1| == |s + rest| - 8;
      } else {
        assert |r.value.1| == |s + rest| - 16 - |r.value.0.value|;
      }
    }
  }

  // ----- whole result sets -----

  ghost predicate Encodable(cols: seq<Column>, rows: seq<Row>, version: nat) {
    && |cols| < 0x1_0000
    && (forall c :: c in cols ==> Sendable(c))
    && (forall row :: row in rows ==> EncodableRow(cols, row, version))
  }

  ghost predicate EncodableRow(cols: seq<Column>, row: Row, version: nat) {
    && WellTypedRow(cols, row)
    && forall j :: 0 <= j < |cols| ==> Recoverable(cols[j], row[j], version)
  }

  function WiresOf(cols: seq<Column>, version: nat): (ws: seq<WireColumn>)
    ensures |ws| == |cols|
  {
    if cols == [] then [] else [WireOf(cols[0], version)] + WiresOf(cols[1..], version)
  }

  function CellsOf(cols: seq<Column>, row: Row): seq<Cell>
    requires WellTypedRow(cols, row)
  {
    if cols == [] then [] else [CellOf(cols[0], row[0])] + CellsOf(cols[1..], row[1..])
  }

  function RowsOf(cols: seq<Column>, rows: seq<Row>): seq<seq<Cell>>
    requires forall row :: row in rows ==> WellTypedRow(cols, row)
  {
    if rows == [] then [] else [CellsOf(cols, rows[0])] + RowsOf(cols, rows[1..])
  }

  lemma {:induction false} ColumnsRoundTrip(cols: seq<Column>, version: nat, rest: seq<byte>)
    requires forall c :: c in cols ==> Named(c)
    ensures DecodeColumns(|cols|, EncodeColumns(cols, version) + rest, version) == Some((WiresOf(cols, version), rest))
  {
    if cols == [] {
      assert EncodeColumns(cols, version) + rest == rest;
    } else {
      var tail := EncodeColumns(cols[1..], version) + rest;
      Assoc(EncodeColumn(cols[0], version), EncodeColumns(cols[1..], version), rest);
      assert Named(cols[0]);
      ColumnRoundTrip(cols[0], version, tail);
      ColumnsRoundTrip(cols[1..], version, rest);
    }
  }

  lemma {:induction false} CellsRoundTrip(cols: seq<Column>, row: Row, version: nat, rest: seq<byte>)
    requires (forall c :: c in cols ==> Sendable(c)) && EncodableRow(cols, row, version)
    ensures DecodeCells(WiresOf(cols, version), EncodeCells(cols, row, version) + rest, version)
         == Some((CellsOf(cols, row), rest))
  {
    if cols == [] {
      assert EncodeCells(cols, row, version) + rest == rest;
    } else {
      var ws := WiresOf(cols, version);
      var cell, tail := EncodeCell(cols[0], row[0], version), EncodeCells(cols[1..], row[1..], version);
      CellExact(cols[0], row[0], version, tail + rest);
      CellsRoundTrip(cols[1..], row[1..], version, rest);
      assert ws[0] == WireOf(cols[0], version) && ws[1..] == WiresOf(cols[1..], version);
      assert EncodeCells(cols, row, version) == cell + tail;
      Assoc(cell, tail, rest);
      CellStep(ws, cell + tail + rest, CellOf(cols[0], row[0]), tail + rest,
               CellsOf(cols[1..], row[1..]), rest, version);
    }
  }

  lemma CellStep(ws: seq<WireColumn>, s: seq<byte>, cell: Cell, s1: seq<byte>, cells: seq<Cell>,
                 rest: seq<byte>, version: nat)
    requires ws != [] && DecodeCell(ws[0], s, version) == Some((cell, s1))
    requires DecodeCells(ws[1..], s1, version) == Some((cells, rest))
    ensures DecodeCells(ws, s, version) == Some(([cell] + cells, rest))
  {
  }

  lemma {:induction false} RowsRoundTrip(cols: seq<Column>, rows: seq<Row>, version: nat, rest: seq<byte>)
    requires Encodable(cols, rows, version) && (rest == [] || rest[0] != 0xd1)
    ensures DecodeRows(WiresOf(cols, version), EncodeRows(cols, rows, version) + rest, version)
         == Some((RowsOf(cols, rows), rest))
  {
    if rows == [] {
      assert EncodeRows(cols, rows, version) + rest == rest;
    } else {
      assert forall row :: row in rows[1..] ==> row in rows;
      assert EncodableRow(cols, rows[0], version);
      var cellBytes, rowBytes := EncodeCells(cols, rows[0], version), EncodeRows(cols, rows[1..], version);
      RowsRoundTrip(cols, rows[1..], version, rest);
      CellsRoundTrip(cols, rows[0], version, rowBytes + rest);
      RowStep(WiresOf(cols, version), cellBytes, rowBytes + rest,
              CellsOf(cols, rows[0]), RowsOf(cols, rows[1..]), rest, version);
      assert EncodeRows(cols, rows, version) == [0xd1] + cellBytes + rowBytes;
      Assoc3([0xd1], cellBytes, rowBytes, rest);
    }
  }

  lemma RowStep(ws: seq<WireColumn>, cellBytes: seq<byte>, s1: seq<byte>, cells: seq<Cell>,
                rows: seq<seq<Cell>>, rest: seq<byte>, version: nat)
    requires DecodeCells(ws, cellBytes + s1, version) == Some((cells, s1))
    requires DecodeRows(ws, s1, version) == Some((rows, rest))
    ensures DecodeRows(ws, [0xd1] + (cellBytes + s1), version) == Some(([cells] + rows, rest))
  {
    var s := [0xd1] + (cellBytes + s1);
    assert s[0] == 0xd1 && s[1..] == cellBytes + s1;
  }

  lemma TypeRecovered(c: Column, version: nat)
    ensures TypeOf(WireOf(c, version)) == c.xtype
  {
  }

  lemma {:induction false} TypesRecovered(cols: seq<Column>, version: nat)
    requires forall c :: c in cols ==> Sendable(c)
    ensures forall j :: 0 <= j < |cols| ==>
              var w := WiresOf(cols, version)[j];
              TypeOf(w) == cols[j].xtype && w.name == cols[j].name.ucs2
  {
    if cols != [] {
      TypesRecovered(cols[1..], version);
      TypeRecovered(cols[0], version);
      var ws := WiresOf(cols, version);
      assert ws[1..] == WiresOf(cols[1..], version);
      forall j | 0 <= j < |cols|
        ensures TypeOf(ws[j]) == cols[j].xtype && ws[j].name == cols[j].name.ucs2
      {
        if j > 0 {
          assert ws[j] == ws[1..][j - 1] && cols[j] == cols[1..][j - 1];
        }
      }
    }
  }

  /**
   A decoder driven by the metadata alone recovers every column with its type and name
   and every cell, and stops exactly where the token ends.
   */
  lemma ResultsRoundTrip(cols: seq<Column>, rows: seq<Row>, version: nat, rest: seq<byte>)
    requires Encodable(cols, rows, version) && (rest == [] || rest[0] != 0xd1)
    ensures DecodeResults(ResultsBody(cols, rows, version) + rest, version)
         == Some((ResultSet(WiresOf(cols, version), RowsOf(cols, rows)), rest))
    ensures forall j :: 0 <= j < |cols| ==>
              var w := WiresOf(cols, version)[j];
              TypeOf(w) == cols[j].xtype && w.name == cols[j].name.ucs2
  {
    assert forall c :: c in cols ==> Sendable(c) && Named(c);
    TypesRecovered(cols, version);
    var colBytes, rowBytes := EncodeColumns(cols, version), EncodeRows(cols, rows, version);
    var s := ResultsBody(cols, rows, version) + rest;
    ColumnsRoundTrip(cols, version, rowBytes + rest);
    RowsRoundTrip(cols, rows, version, rest);
    CountThen(s, |cols|, colBytes, rowBytes, rest);
  }

  lemma CountThen(s: seq<byte>, n: nat, a: seq<byte>, b: seq<byte>, rest: seq<byte>)
    requires n < 0x1_0000 && s == LE(n, 2) + a + b + rest
    ensures TakeNumber(s, 2) == Some((n, a + (b + rest)))
  {
    Widths();
    Assoc3(LE(n, 2), a, b, rest);
    TakeWritten(n, 2, a + (b + rest));
  }

  /** CHAR and DECIMAL rows emit nothing, so no decoder at all can tell two values apart. */
  lemma NoDecoderForSilentTypes(c: Column, d: Datum, d': Datum, version: nat, decode: seq<byte> -> Cell)
    requires c.xtype.Char? || c.xtype.Decimal?
    requires CellOf(c, d) != CellOf(c, d')
    ensures decode(EncodeCell(c, d, version)) != CellOf(c, d) || decode(EncodeCell(c, d', version)) != CellOf(c, d')
  {
    assert EncodeCell(c, d, version) == EncodeCell(c, d', version);
  }

  /** varchar(max) declared with typmod 0x7FFFFFFF announces the long form and sends the short one. */
  lemma MaxTypmodMisread(bytes: seq<byte>, name: DynBuffer.Text, rest: seq<byte>)
    requires |name.ucs2| % 2 == 0 && |name.ucs2| <= 510
    ensures var c := Column(Varchar, 0x7FFF_FFFF, name);
            DecodeCell(WireOf(c, TDS_7_2), EncodeCell(c, Value(bytes), TDS_7_2) + rest, TDS_7_2)
            != Some((Some(bytes), rest))
  {
    CellExact(Column(Varchar, 0x7FFF_FFFF, name), Value(bytes), TDS_7_2, rest);
  }
}
