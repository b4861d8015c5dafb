/**
 A client's walk over a response: length-prefixed tokens by their 16-bit length,
 DONE by the size its version gives it (section 2.2.7.6 of MS-TDS), result sets by
 the metadata decoder.
 */
module Walk {
  import opened Bytes
  import opened Results
  import opened Tokens
  import TokenStream
  import Packet
  import opened Options

  datatype Record =
    | DoneRecord(status: nat, curcmd: nat, rowcount: nat)
    | FrameRecord(tokenType: byte, body: seq<byte>)
    | ResultRecord(results: ResultSet)

  predicate IsFramedType(t: byte) {
    t == 0xAA || t == 0xAB || t == 0xAD || t == 0xE3
  }

  /** The bytes of a DONE after its type byte. */
  function DoneSize(version: nat): nat {
    if version >= 0x7200_0000 then 12 else 8
  }

  function WalkOne(s: seq<byte>, version: nat): Parse<Record>
    requires s != []
  {
    if s[0] == 0xFD then
      match Take(s[1..], DoneSize(version))
      case None => None
      case Some((bytes, rest)) =>
        Some((DoneRecord(FromLE(bytes[..2]), FromLE(bytes[2..4]), FromLE(bytes[4..])), rest))
    else if s[0] == 0x81 then
      match DecodeResults(s[1..], version)
      case None => None
      case Some((results, rest)) => Some((ResultRecord(results), rest))
    else if IsFramedType(s[0]) then
      match TakeCounted(s[1..], 2)
      case None => None
      case Some((body, rest)) => Some((FrameRecord(s[0], body), rest))
    else None
  }

  function WalkAll(s: seq<byte>, version: nat): Option<seq<Record>>
    decreases |s|
  {
    if s == [] then Some([])
    else
      match WalkOne(s, version)
      case None => None
      case Some((record, rest)) =>
        if |rest| >= |s| then None
        else
          match WalkAll(rest, version)
          case None => None
          case Some(records) => Some([record] + records)
  }

  // ----- what the walk should find -----

  /** What a client reads as the row count of a DONE. */
  function RowCountRead(rowcount: nat, version: nat): nat {
    rowcount % 0x1_0000_0000
    + (if version >= TDS_7_2 && rowcount > 32 then 0x0100_0000_0000_0000 else 0)
  }

  function RecordOf(t: Token, version: nat): Record {
    match t
    case Done(status, curcmd, rowcount) =>
      DoneRecord(StatusWord(status), curcmd % 0x1_0000, RowCountRead(rowcount, version))
    case ResultSetToken(cols, rows) =>
      if (forall row :: row in rows ==> WellTypedRow(cols, row))
      then ResultRecord(ResultSet(WiresOf(cols, version), RowsOf(cols, rows)))
      else ResultRecord(ResultSet([], []))
    case _ => FrameRecord(TokenType(t), Body(t, version))
  }

  ghost predicate Walkable(t: Token, version: nat) {
    && Writable(t)
    && (Framed(t) ==> |Body(t, version)| < 0x1_0000)
    && (t.ResultSetToken? ==> Encodable(t.cols, t.rows, version))
  }

  ghost predicate AllWalkable(tokens: seq<Token>, version: nat) {
    forall i :: 0 <= i < |tokens| ==> Walkable(tokens[i], version)
  }

  function RecordsOf(tokens: seq<Token>, version: nat): (r: seq<Record>)
    ensures |r| == |tokens|
  {
    if tokens == [] then [] else [RecordOf(tokens[0], version)] + RecordsOf(tokens[1..], version)
  }

  lemma FirstByte(t: Token, version: nat)
    requires Writable(t)
    ensures Encode(t, version) != []
    ensures Encode(t, version)[0] == if t.ResultSetToken? then 0x81 else TokenType(t)
  {
  }

  /** A framed token is read back exactly when its body fits the 16-bit length. */
  lemma FrameExact(t: Token, version: nat, rest: seq<byte>)
    requires Framed(t)
    ensures WalkOne(Encode(t, version) + rest, version) == Some((FrameRecord(TokenType(t), Body(t, version)), rest))
       <==> |Body(t, version)| < 0x1_0000
  {
    var body := Body(t, version);
    var s := Encode(t, version) + rest;
    Assoc3([TokenType(t)], LE(|body|, 2), body, rest);
    assert s[0] == TokenType(t);
    assert s[1..] == LE(|body|, 2) + (body + rest);
    CountedExact(body, rest);
  }

  lemma CountedExact(body: seq<byte>, rest: seq<byte>)
    ensures TakeCounted(LE(|body|, 2) + (body + rest), 2) == Some((body, rest)) <==> |body| < 0x1_0000
  {
    var count := LE(|body|, 2);
    Split(count, body + rest);
    FitsExactly(|body|, 2);
    Widths();
    if FromLE(count) == |body| {
      Split(body, rest);
    } else if FromLE(count) <= |body + rest| {
      assert |(body + rest)[..FromLE(count)]| == FromLE(count);
    }
  }

  lemma DoneRoundTrip(status: DoneStatus, curcmd: nat, rowcount: nat, version: nat, rest: seq<byte>)
    ensures WalkOne(DoneBytes(status, curcmd, rowcount, version) + rest, version)
         == Some((RecordOf(Done(status, curcmd, rowcount), version), rest))
  {
    var high := if version >= TDS_7_2 then BE(if rowcount > 32 then 1 else 0, 4) else [];
    var word, cmd, low := LE(StatusWord(status), 2), LE(curcmd, 2), LE(rowcount, 4);
    var bytes := word + cmd + (low + high);
    var s := DoneBytes(status, curcmd, rowcount, version) + rest;
    DoneAssoc([0xFD], word, cmd, low, high);
    Assoc([0xFD], bytes, rest);
    assert s[0] == 0xFD && s[1..] == bytes + rest;
    Split(bytes, rest);
    assert bytes[..2] == word && bytes[2..4] == cmd && bytes[4..] == low + high;
    DoneFields(status, curcmd, rowcount, version, high);
  }

  lemma DoneAssoc(t: seq<byte>, a: seq<byte>, b: seq<byte>, c: seq<byte>, d: seq<byte>)
    ensures t + a + b + c + d == t + (a + b + (c + d))
  {
  }

  lemma DoneFields(status: DoneStatus, curcmd: nat, rowcount: nat, version: nat, high: seq<byte>)
    requires high == if version >= TDS_7_2 then BE(if rowcount > 32 then 1 else 0, 4) else []
    ensures FromLE(LE(StatusWord(status), 2)) == StatusWord(status)
    ensures FromLE(LE(curcmd, 2)) == curcmd % 0x1_0000
    ensures FromLE(LE(rowcount, 4) + high) == RowCountRead(rowcount, version)
  {
    Widths();
    FitsExactly(StatusWord(status), 2);
    FromLEOfLE(curcmd, 2);
    FromLEOfLE(rowcount, 4);
    FromLEAppend(LE(rowcount, 4), high);
    HighWord();
  }

  lemma {:induction false} FromLEAppend(a: seq<byte>, b: seq<byte>)
    ensures FromLE(a + b) == FromLE(a) + Pow(256, |a|) * FromLE(b)
  {
    if a == [] {
      assert a + b == b;
    } else {
      FromLEAppend(a[1..], b);
      assert (a + b)[1..] == a[1..] + b;
      assert 256 * (Pow(256, |a| - 1) * FromLE(b)) == Pow(256, |a|) * FromLE(b);
    }
  }

  lemma HighWord()
    ensures FromLE([]) == 0 && FromLE(BE(0, 4)) == 0 && FromLE(BE(1, 4)) == 0x0100_0000
  {
    assert BE(0, 4) == [0, 0, 0, 0];
    assert BE(1, 4) == [0, 0, 0, 1];
    assert FromLE([1]) == 1;
    assert [0, 1][1..] == [1] && FromLE([0, 1]) == 256;
    assert [0, 0, 1][1..] == [0, 1] && FromLE([0, 0, 1]) == 65536;
    assert [0, 0, 0, 1][1..] == [0, 0, 1];
    assert FromLE([0]) == 0;
    assert [0, 0][1..] == [0] && FromLE([0, 0]) == 0;
    assert [0, 0, 0][1..] == [0, 0] && FromLE([0, 0, 0]) == 0;
    assert [0, 0, 0, 0][1..] == [0, 0, 0];
  }

  // The bits of a status (section 2.2.7.6 of MS-TDS): DONE_MORE 0x1, DONE_ERROR 0x2, DONE_COUNT 0x10.

  predicate SaysMore(r: Record) {
    r.DoneRecord? && r.status % 2 == 1
  }

  predicate SaysError(r: Record) {
    r.DoneRecord? && r.status / 2 % 2 == 1
  }

  predicate SaysCount(r: Record) {
    r.DoneRecord? && r.status / 16 % 2 == 1
  }

  /** None of the other bits: not in a transaction, attention, server error, or one of those that are reserved. */
  predicate SaysNothingElse(r: Record) {
    r.DoneRecord? && r.status / 4 % 4 == 0 && r.status < 32
  }

  /** A client finds each flag in its bit. */
  lemma StatusRead(status: DoneStatus, curcmd: nat, rowcount: nat, version: nat, rest: seq<byte>)
    ensures var read := WalkOne(DoneBytes(status, curcmd, rowcount, version) + rest, version);
            read.Some? &&
              var (r, left) := read.value;
              && left == rest && SaysNothingElse(r)
              && (SaysMore(r) <==> status.more) && (SaysError(r) <==> status.error) && (SaysCount(r) <==> status.count)
              && r.rowcount == RowCountRead(rowcount, version)
  {
    hide WalkOne, DoneBytes, RowCountRead;
    DoneRoundTrip(status, curcmd, rowcount, version, rest);
    DoneFlags(Done(status, curcmd, rowcount), version);
  }

  lemma DoneFlags(t: Token, version: nat)
    requires t.Done?
    ensures var r := RecordOf(t, version);
            && SaysNothingElse(r)
            && (SaysMore(r) <==> t.status.more) && (SaysError(r) <==> t.status.error)
            && (SaysCount(r) <==> t.status.count)
  {
  }

  /**
   The 64-bit row count of TDS 7.2 arrives intact only up to 32 rows, or when its
   high word happens to be the byte-swapped 1 that is sent for everything above.
   */
  lemma RowCountExact(rowcount: nat, version: nat)
    ensures version >= TDS_7_2 ==>
              (RowCountRead(rowcount, version) == rowcount <==>
                 rowcount <= 32 || rowcount / 0x1_0000_0000 == 0x0100_0000)
    ensures version < TDS_7_2 ==> (RowCountRead(rowcount, version) == rowcount <==> rowcount < 0x1_0000_0000)
  {
    assert rowcount == 0x1_0000_0000 * (rowcount / 0x1_0000_0000) + rowcount % 0x1_0000_0000;
  }

  lemma OneRoundTrip(t: Token, version: nat, rest: seq<byte>)
    requires Walkable(t, version) && (rest == [] || rest[0] != 0xd1)
    ensures WalkOne(Encode(t, version) + rest, version) == Some((RecordOf(t, version), rest))
  {
    match t
    case Done(status, curcmd, rowcount) => DoneRoundTrip(status, curcmd, rowcount, version, rest);
    case ResultSetToken(cols, rows) =>
      ResultsRoundTrip(cols, rows, version, rest);
      Assoc([0x81], ResultsBody(cols, rows, version), rest);
      var s := Encode(t, version) + rest;
      assert s[0] == 0x81 && s[1..] == ResultsBody(cols, rows, version) + rest;
    case _ => FrameExact(t, version, rest);
  }

  /** The walk visits exactly the tokens that were sent, and nothing is left over. */
  lemma {:induction false} WalkRoundTrip(tokens: seq<Token>, version: nat)
    requires AllWalkable(tokens, version)
    ensures TokenStream.AllWritable(tokens)
    ensures WalkAll(TokenStream.EncodeAll(tokens, version), version) == Some(RecordsOf(tokens, version))
  {
    if tokens != [] {
      var first, rest := Encode(tokens[0], version), TokenStream.EncodeAll(tokens[1..], version);
      WalkRoundTrip(tokens[1..], version);
      assert Walkable(tokens[0], version);
      if |tokens| > 1 {
        FirstByte(tokens[1], version);
        assert tokens[1..][0] == tokens[1];
        assert rest[0] == Encode(tokens[1], version)[0];
      }
      OneRoundTrip(tokens[0], version, rest);
      FirstByte(tokens[0], version);
    }
  }

  // ----- how a response ends -----

  lemma {:induction false} RecordAt(tokens: seq<Token>, version: nat, i: nat)
    requires i < |tokens|
    ensures RecordsOf(tokens, version)[i] == RecordOf(tokens[i], version)
  {
    if i > 0 {
      RecordAt(tokens[1..], version, i - 1);
    }
  }

  lemma SaysMoreExact(t: Token, version: nat)
    ensures SaysMore(RecordOf(t, version)) <==> t.Done? && t.status.more
  {
  }

  /**
   Whatever tokens were added, the client finds a last record that is a DONE, and
   every DONE before it says MORE.  The last one does not, unless the list itself
   ended in a DONE that already said so.
   */
  lemma ResponseEnds(tokens: seq<Token>, version: nat)
    ensures var records := RecordsOf(TokenStream.Sent(tokens), version);
            var last := |records| - 1;
            && (forall i :: 0 <= i < last && records[i].DoneRecord? ==> SaysMore(records[i]))
            && records[last].DoneRecord?
            && (SaysMore(records[last]) <==>
                  tokens != [] && tokens[|tokens| - 1].Done? && tokens[|tokens| - 1].status.more)
  {
    var sent := TokenStream.Sent(tokens);
    var records, last := RecordsOf(sent, version), |sent| - 1;
    forall i | 0 <= i < last && records[i].DoneRecord?
      ensures SaysMore(records[i])
    {
      RecordAt(sent, version, i);
      TokenStream.ChainedAt(tokens, i);
      SaysMoreExact(sent[i], version);
    }
    RecordAt(sent, version, last);
    SaysMoreExact(sent[last], version);
    if tokens != [] && tokens[|tokens| - 1].Done? {
      TokenStream.ChainedAt(tokens, last);
    }
  }

  /**
   The whole way: whatever tokens a response was built from, a client that joins
   the packets and walks the message finds exactly the tokens that were sent, and
   what follows on the connection is untouched.
   */
  lemma ClientSeesResponse(tokens: seq<Token>, version: nat, rest: seq<byte>)
    requires AllWalkable(TokenStream.Sent(tokens), version)
    ensures TokenStream.AllWritable(TokenStream.Sent(tokens))
    ensures |TokenStream.EncodeAll(TokenStream.Sent(tokens), version)| <= Packet.READ_BUFFER ==>
              var wire := Packet.Wire(Packet.MESSAGE_TYPE_RESPONSE,
                                      TokenStream.EncodeAll(TokenStream.Sent(tokens), version));
              var read := Packet.Reassemble(wire + rest, [], -1);
              && read.Message? && read.packetType == Packet.MESSAGE_TYPE_RESPONSE && read.rest == rest
              && WalkAll(read.msg, version) == Some(RecordsOf(TokenStream.Sent(tokens), version))
  {
    WalkRoundTrip(TokenStream.Sent(tokens), version);
    FirstByte(TokenStream.Sent(tokens)[0], version);
    Packet.SplitJoin(Packet.MESSAGE_TYPE_RESPONSE, TokenStream.EncodeAll(TokenStream.Sent(tokens), version), rest);
  }
}
