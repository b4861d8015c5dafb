/**
 From a batch of text to what a client reads from the wire: the messages of a run as
 tokens, their bytes, the packets, and the client's walk.
 */
module Answer {
  import Bodies
  import Bytes
  import DynBuffer
  import Effects
  import Tokens
  import opened TokenStream
  import opened Walk
  import Opening
  import Packet
  import Results
  import Rpc
  import Translate
  import Values
  import Exec
  import Connection
  import Executor
  import TdsMain
  import opened Options

  /** The conversions that the model does not look into: text to UCS-2, rows to a result-set token. */
  datatype Conversions = Conversions(ucs: string -> DynBuffer.Text, sheet: seq<seq<Values.Value>> -> Tokens.Token)

  /** Texts have two bytes a character, and a result set has one row for each that was selected. */
  ghost predicate Proper(v: Conversions) {
    && (forall s :: |v.ucs(s).ucs2| % 2 == 0)
    && forall rows :: v.sheet(rows).ResultSetToken? && |v.sheet(rows).rows| == |rows|
  }

  /** The severity that each error is raised with. */
  function Severity(number: nat): nat {
    if number == 102 then 15 else 16
  }

  function TokenOf(m: Exec.Message, v: Conversions): Tokens.Token {
    match m
    case ErrorMessage(number, text) => Tokens.Error(number, 1, Severity(number), 1, v.ucs(text))
    case InfoMessage(text) => Tokens.Info(0, 1, 0, 1, v.ucs(text))
    case DoneMessage(error, counted, count) => Tokens.Done(Tokens.DoneStatus(false, error, counted), 0, count)
    case ResultsMessage(rows) => v.sheet(rows)
    case EnvDatabaseMessage(old_, new_) => Tokens.EnvDatabase(v.ucs(new_), v.ucs(old_))
    case EnvCollationMessage => Tokens.EnvCollation
    case LoginAckMessage(version) => Tokens.LoginAck(1, version, v.ucs("Microsoft SQL Server"))
  }

  function TokensOf(ms: seq<Exec.Message>, v: Conversions): (r: seq<Tokens.Token>)
    ensures |r| == |ms|
  {
    seq(|ms|, i requires 0 <= i < |ms| => TokenOf(ms[i], v))
  }

  // ----- what the client makes of it -----

  predicate IsErrorRecord(r: Record) {
    r.FrameRecord? && r.tokenType == 0xAA
  }

  ghost predicate SeesError(records: seq<Record>) {
    exists i :: 0 <= i < |records| && IsErrorRecord(records[i])
  }

  lemma ErrorRecords(m: Exec.Message, v: Conversions, version: nat)
    requires Proper(v)
    ensures IsErrorRecord(RecordOf(TokenOf(m, v), version)) <==> m.ErrorMessage?
    ensures IsErrorRecord(RecordOf(WithMore(TokenOf(m, v)), version)) <==> m.ErrorMessage?
    ensures TokenOf(m, v).Done? ==> !TokenOf(m, v).status.more
  {
  }

  /** Chaining the DONE tokens hides and adds no error. */
  lemma SentErrors(ms: seq<Exec.Message>, v: Conversions, version: nat)
    requires Proper(v)
    ensures SeesError(RecordsOf(Sent(TokensOf(ms, v)), version)) <==> Exec.HasError(ms)
  {
    hide RecordOf;
    var tokens := TokensOf(ms, v);
    var sent := Sent(tokens);
    var records := RecordsOf(sent, version);
    forall i | 0 <= i < |records|
      ensures IsErrorRecord(records[i]) <==> i < |ms| && ms[i].ErrorMessage?
    {
      RecordAt(sent, version, i);
      if i < |ms| {
        ChainedAt(tokens, i);
        ErrorRecords(ms[i], v, version);
      } else {
        DefaultDoneIsNoError(version);
      }
    }
    if Exec.HasError(ms) {
      var i :| 0 <= i < |ms| && ms[i].ErrorMessage?;
      assert IsErrorRecord(records[i]);
    }
  }

  lemma DefaultDoneIsNoError(version: nat)
    ensures !IsErrorRecord(RecordOf(DEFAULT_DONE, version))
  {
  }

  // ----- each message as the client reads it -----

  /** ERROR (0xAA) or INFO (0xAB): the number, severity and text, raised in line 1 with state 1, under no names. */
  ghost predicate ShowsNotice(r: Record, tokenType: Bytes.byte, number: nat, severity: nat, text: seq<Bytes.byte>,
                              version: nat) {
    && r.FrameRecord? && r.tokenType == tokenType
    && (number < 0x1_0000_0000 ==>
          Bodies.DecodeNotice(r.body, version) == Some(Bodies.Notice(number, 1, severity, text, [], [], 1)))
  }

  ghost predicate ShowsDone(r: Record, error: bool, counted: bool, count: nat, version: nat) {
    && r.DoneRecord? && SaysNothingElse(r)
    && (SaysError(r) <==> error) && (SaysCount(r) <==> counted)
    && (count <= 32 || (version < 0x7200_0000 && count < 0x1_0000_0000) ==> r.rowcount == count)
  }

  /** An ENVCHANGE (0xE3): the names of both databases, or the collation of locale 1033. */
  ghost predicate ShowsChange(r: Record, change: Bodies.Change) {
    && r.FrameRecord? && r.tokenType == 0xE3
    && (change.CollationChange? || (|change.newName| < 0x200 && |change.oldName| < 0x200) ==>
          Bodies.DecodeChange(r.body) == Some(change))
  }

  ghost predicate ShowsAck(r: Record, version: nat, product: seq<Bytes.byte>) {
    && r.FrameRecord? && r.tokenType == 0xAD
    && (version < 0x1_0000_0000 && |product| < 0x200 ==>
          Bodies.DecodeAck(r.body) == Some(Bodies.Ack(1, version, product, [10, 50, 0, 0])))
  }

  /** The result set of `rows`: its columns and a row for each. */
  ghost predicate ShowsRows(r: Record, sheet: Tokens.Token, count: nat, version: nat)
    requires sheet.ResultSetToken?
  {
    && r.ResultRecord? && |r.results.rows| == count
    && (forall row :: row in sheet.rows ==> Results.WellTypedRow(sheet.cols, row))
    && r.results == Results.ResultSet(Results.WiresOf(sheet.cols, version), Results.RowsOf(sheet.cols, sheet.rows))
  }

  ghost predicate Shows(r: Record, m: Exec.Message, v: Conversions, version: nat)
    requires Proper(v)
  {
    match m
    case ErrorMessage(number, text) =>
      ShowsNotice(r, 0xAA, number, if number == 102 then 15 else 16, v.ucs(text).ucs2, version)
    case InfoMessage(text) => ShowsNotice(r, 0xAB, 0, 0, v.ucs(text).ucs2, version)
    case DoneMessage(error, counted, count) => ShowsDone(r, error, counted, count, version)
    case ResultsMessage(rows) => ShowsRows(r, v.sheet(rows), |rows|, version)
    case EnvDatabaseMessage(old_, new_) => ShowsChange(r, Bodies.DatabaseChange(v.ucs(new_).ucs2, v.ucs(old_).ucs2))
    case EnvCollationMessage => ShowsChange(r, Bodies.CollationChange([0x09, 0x04, 0xD0, 0x00, 0x00], []))
    case LoginAckMessage(product) => ShowsAck(r, product, v.ucs("Microsoft SQL Server").ucs2)
  }

  lemma MessageShown(m: Exec.Message, v: Conversions, version: nat)
    requires Proper(v) && Walkable(TokenOf(m, v), version)
    ensures Shows(RecordOf(TokenOf(m, v), version), m, v, version)
  {
    hide Tokens.Body, Tokens.MessageBody, Bodies.DecodeNotice, Bodies.DecodeChange, Bodies.DecodeAck, RowCountRead;
    match m
    case ErrorMessage(number, text) =>
      NoticeShown(number, Severity(number), v.ucs(text), version, true);
    case InfoMessage(text) => NoticeShown(0, 0, v.ucs(text), version, false);
    case DoneMessage(_, _, count) =>
      DoneFlags(TokenOf(m, v), version);
      CountShown(count, version);
    case ResultsMessage(rows) => RowsCounted(v.sheet(rows).cols, v.sheet(rows).rows);
    case EnvDatabaseMessage(old_, new_) => Bodies.DatabaseExact(v.ucs(new_), v.ucs(old_), version);
    case EnvCollationMessage => CollationShown(version);
    case LoginAckMessage(product) => Bodies.AckExact(1, product, v.ucs("Microsoft SQL Server"), version);
  }

  function NoticeToken(number: nat, severity: nat, text: DynBuffer.Text, error: bool): Tokens.Token {
    if error then Tokens.Error(number, 1, severity, 1, text) else Tokens.Info(number, 1, severity, 1, text)
  }

  lemma NoticeShown(number: nat, severity: nat, text: DynBuffer.Text, version: nat, error: bool)
    requires |text.ucs2| % 2 == 0 && severity < 0x100
    requires Walkable(NoticeToken(number, severity, text, error), version)
    ensures ShowsNotice(RecordOf(NoticeToken(number, severity, text, error), version), if error then 0xAA else 0xAB,
                        number, severity, text.ucs2, version)
  {
    hide Bodies.DecodeNotice, Bytes.LE;
    Bodies.NoticeExact(number, 1, severity, 1, text, version);
    Bodies.NoticeBytes(number, 1, severity, 1, text, version);
  }

  lemma CountShown(count: nat, version: nat)
    ensures count <= 32 || (version < 0x7200_0000 && count < 0x1_0000_0000) ==> RowCountRead(count, version) == count
  {
    RowCountExact(count, version);
  }

  lemma {:induction false} RowsCounted(cols: seq<Results.Column>, rows: seq<Results.Row>)
    requires forall row :: row in rows ==> Results.WellTypedRow(cols, row)
    ensures |Results.RowsOf(cols, rows)| == |rows|
  {
    if rows != [] {
      RowsCounted(cols, rows[1..]);
    }
  }

  lemma CollationShown(version: nat)
    ensures Bodies.DecodeChange(Tokens.Body(Tokens.EnvCollation, version))
         == Some(Bodies.CollationChange([0x09, 0x04, 0xD0, 0x00, 0x00], []))
  {
    hide Tokens.Body, Bodies.DecodeChange;
    Bodies.CollationRead(version);
    assert Bytes.LE(1033, 2) == [0x09, 0x04] && Bytes.LE(0xD0, 2) == [0xD0, 0x00];
    assert [0x09, 0x04] + [0xD0, 0x00] + [0] == [0x09, 0x04, 0xD0, 0x00, 0x00];
  }

  /** The client finds every message in its order, and behind them one more DONE unless the last is one. */
  ghost predicate ShowsAll(records: seq<Record>, ms: seq<Exec.Message>, v: Conversions, version: nat)
    requires Proper(v)
  {
    && |ms| <= |records| && (forall i :: 0 <= i < |ms| ==> Shows(records[i], ms[i], v, version))
    && |records| == (if ms != [] && ms[|ms| - 1].DoneMessage? then |ms| else |ms| + 1)
    && (|records| > |ms| ==> ShowsDone(records[|ms|], false, false, 0, version))
  }

  lemma MessagesShown(ms: seq<Exec.Message>, v: Conversions, version: nat)
    requires Proper(v) && AllWalkable(Sent(TokensOf(ms, v)), version)
    ensures ShowsAll(RecordsOf(Sent(TokensOf(ms, v)), version), ms, v, version)
  {
    hide Shows, RecordOf, Walkable, TokenOf, WithMore, ShowsDone;
    var tokens := TokensOf(ms, v);
    var sent := Sent(tokens);
    var records := RecordsOf(sent, version);
    LastDone(ms, v);
    forall i | 0 <= i < |ms|
      ensures Shows(records[i], ms[i], v, version)
    {
      RecordAt(sent, version, i);
      ChainedAt(tokens, i);
      assert Walkable(sent[i], version);
      SentShown(sent[i], ms[i], v, version);
    }
    if |records| > |ms| {
      RecordAt(sent, version, |ms|);
      DefaultShown(version);
    }
  }

  lemma LastDone(ms: seq<Exec.Message>, v: Conversions)
    requires Proper(v)
    ensures forall i :: 0 <= i < |ms| ==> (TokensOf(ms, v)[i].Done? <==> ms[i].DoneMessage?)
  {
  }

  lemma DefaultShown(version: nat)
    ensures ShowsDone(RecordOf(DEFAULT_DONE, version), false, false, 0, version)
  {
    DoneFlags(DEFAULT_DONE, version);
  }

  lemma SentShown(t: Tokens.Token, m: Exec.Message, v: Conversions, version: nat)
    requires Proper(v) && Walkable(t, version) && (t == TokenOf(m, v) || t == WithMore(TokenOf(m, v)))
    ensures Shows(RecordOf(t, version), m, v, version)
  {
    hide Walkable, RecordOf, RowCountRead;
    if m.DoneMessage? {
      DoneFlags(t, version);
      CountShown(m.count, version);
      CountRead(t, version);
    } else {
      MessageShown(m, v, version);
    }
  }

  lemma CountRead(t: Tokens.Token, version: nat)
    requires t.Done?
    ensures RecordOf(t, version).DoneRecord? && RecordOf(t, version).rowcount == RowCountRead(t.rowcount, version)
  {
  }

  /** Every ERROR that a client reads is followed by a DONE with the error bit, and no other DONE has it. */
  ghost predicate ErrorsAnnounced(records: seq<Record>) {
    && (forall i :: 0 <= i < |records| && IsErrorRecord(records[i]) ==>
          i + 1 < |records| && SaysError(records[i + 1]) && !SaysCount(records[i + 1]))
    && forall i :: 0 <= i < |records| && SaysError(records[i]) ==> i > 0 && IsErrorRecord(records[i - 1])
  }

  lemma FlagsReach(records: seq<Record>, ms: seq<Exec.Message>, v: Conversions, version: nat)
    requires Proper(v) && ShowsAll(records, ms, v, version) && Exec.ErrorsFlagged(ms)
    ensures ErrorsAnnounced(records)
  {
    forall i | 0 <= i < |records|
      ensures IsErrorRecord(records[i]) <==> i < |ms| && ms[i].ErrorMessage?
      ensures SaysError(records[i]) <==> i < |ms| && ms[i].DoneMessage? && ms[i].error
    {
      if i < |ms| {
        OneFlag(records[i], ms[i], v, version);
      }
    }
    forall i | 0 <= i < |records| && IsErrorRecord(records[i])
      ensures i + 1 < |records| && SaysError(records[i + 1]) && !SaysCount(records[i + 1])
    {
      OneFlag(records[i + 1], ms[i + 1], v, version);
    }
  }

  lemma OneFlag(r: Record, m: Exec.Message, v: Conversions, version: nat)
    requires Proper(v) && Shows(r, m, v, version)
    ensures IsErrorRecord(r) <==> m.ErrorMessage?
    ensures SaysError(r) <==> m.DoneMessage? && m.error
    ensures m.DoneMessage? ==> (SaysCount(r) <==> m.counted)
  {
  }

  /** No token of a program says MORE of its own. */
  lemma NoMore(ms: seq<Exec.Message>, v: Conversions)
    requires Proper(v)
    ensures var tokens := TokensOf(ms, v);
            tokens != [] && tokens[|tokens| - 1].Done? ==> !tokens[|tokens| - 1].status.more
  {
    if ms != [] {
      ErrorRecords(ms[|ms| - 1], v, 0);
    }
  }

  /**
   Every token can be written into a buffer that starts at 1024 bytes, a client can
   walk the tokens, and they fit the buffer that packets are joined in.
   */
  ghost predicate Deliverable(ms: seq<Exec.Message>, v: Conversions, version: nat) {
    var sent := Sent(TokensOf(ms, v));
    && AllWritable(sent) && AllFit(sent, version, 1024, 0)
    && AllWalkable(sent, version) && |EncodeAll(sent, version)| <= Packet.READ_BUFFER
  }

  /** A response as it reaches the client, in front of whatever else is on the connection. */
  ghost predicate Reads(ms: seq<Exec.Message>, v: Conversions, version: nat, rest: seq<Bytes.byte>,
                         records: seq<Record>) {
    var sent := Sent(TokensOf(ms, v));
    AllWritable(sent) &&
      var read := Packet.Reassemble(Packet.Wire(Packet.MESSAGE_TYPE_RESPONSE, EncodeAll(sent, version)) + rest, [], -1);
      && read.Message? && read.packetType == 0x04 && read.rest == rest
      && WalkAll(read.msg, version) == Some(records)
  }

  /** A batch that parses and whose program returns 0. */
  ghost predicate Good(db: Exec.Db, front: Connection.Front, fuel: nat, c: Connection.Conn, text: string) {
    && front.program(text).Program?
    && Exec.RunAll(front.program(text).statements, fuel, db, Connection.Underway(c, map[])).exit == Exec.Return(false)
  }

  /** Every DONE but the last record says MORE, and the last record is a DONE that does not. */
  ghost predicate EndsOnce(records: seq<Record>) {
    && records != []
    && (forall i :: 0 <= i < |records| - 1 && records[i].DoneRecord? ==> SaysMore(records[i]))
    && records[|records| - 1].DoneRecord? && !SaysMore(records[|records| - 1])
  }

  /**
   The whole way of a batch.  If its answer can be delivered, the client reads exactly
   the tokens that were sent and nothing behind them; it finds an ERROR exactly when the
   batch did not parse, threw, or returned 1; and it knows where the answer ends.
   */
  lemma BatchReachesClient(db: Exec.Db, front: Connection.Front, fuel: nat, c: Connection.Conn, text: string,
                           v: Conversions, rest: seq<Bytes.byte>)
    requires Proper(v) && c.alive && c.phase.Connected?
    ensures var r := Connection.StepSql(db, front, fuel, c, text);
            var ms := r.exec.messages;
            var records := RecordsOf(Sent(TokensOf(ms, v)), c.version);
            r.alive && Deliverable(ms, v, c.version) ==>
              && Reads(ms, v, c.version, rest, records)
              && (SeesError(records) <==>
                   !Good(db, front, fuel, c, text))
              && ShowsAll(records, ms, v, c.version) && ErrorsAnnounced(records)
              && EndsOnce(records)
  {
    hide Exec.RunAll, Connection.StepSql, RecordsOf, Sent, TokensOf, Reads, ShowsAll, ErrorsAnnounced, EndsOnce,
         SeesError, Deliverable;
    var ms := Connection.StepSql(db, front, fuel, c, text).exec.messages;
    if Connection.StepSql(db, front, fuel, c, text).alive && Deliverable(ms, v, c.version) {
      Connection.BatchAnswered(db, front, fuel, c, text);
      MessagesReach(ms, v, c.version, rest);
    }
  }

  /** The same for a call of sp_executesql, from the bytes that the client sent to the records that it reads. */
  lemma CallReachesClient(db: Exec.Db, front: Connection.Front, fuel: nat, c: Connection.Conn,
                          headers: seq<Bytes.byte>, flags: nat, ps: seq<Rpc.Sent>, cs: seq<Translate.Code>,
                          vars: map<string, Values.Value>, v: Conversions, rest: seq<Bytes.byte>)
    requires Proper(v) && c.alive && c.phase.Connected?
    requires Connection.CanSend(headers, ps) && Connection.Carries(front, ps, vars)
    requires Connection.RunFor(front.program("DECLARE " + front.text(ps[1].value) + "\n" + front.text(ps[0].value)), cs)
    ensures var r := Connection.Step(db, front, fuel, c,
                                     Connection.RpcIn(Connection.CallBytes(headers, flags, ps, c.version)));
            var ms := r.exec.messages;
            var records := RecordsOf(Sent(TokensOf(ms, v)), c.version);
            r.alive && Deliverable(ms, v, c.version) ==>
              && Reads(ms, v, c.version, rest, records)
              && (SeesError(records) <==>
                   Exec.RunAll(cs, fuel, db, Connection.Underway(c, vars)).exit == Exec.Return(true))
              && ShowsAll(records, ms, v, c.version) && ErrorsAnnounced(records)
              && EndsOnce(records)
  {
    hide Exec.RunAll, Connection.Step, Connection.CallBytes, Connection.Carries, Packet.Wire, Packet.Reassemble;
    hide WalkAll, EncodeAll, RecordsOf, Sent, ShowsAll, ErrorsAnnounced;
    Connection.CallAnswered(db, front, fuel, c, headers, flags, ps, cs, vars);
    var r := Connection.Step(db, front, fuel, c,
                             Connection.RpcIn(Connection.CallBytes(headers, flags, ps, c.version)));
    var ms := r.exec.messages;
    if r.alive && Deliverable(ms, v, c.version) {
      MessagesReach(ms, v, c.version, rest);
    }
  }

  /** What any messages of a run that can be delivered look like to the client. */
  lemma MessagesReach(ms: seq<Exec.Message>, v: Conversions, version: nat, rest: seq<Bytes.byte>)
    requires Proper(v) && Deliverable(ms, v, version) && Exec.ErrorsFlagged(ms)
    ensures var records := RecordsOf(Sent(TokensOf(ms, v)), version);
            && Reads(ms, v, version, rest, records)
            && (SeesError(records) <==> Exec.HasError(ms))
            && ShowsAll(records, ms, v, version) && ErrorsAnnounced(records)
            && EndsOnce(records)
  {
    hide Packet.Wire, Packet.Reassemble, WalkAll, EncodeAll, RecordsOf, Sent, ShowsAll, ErrorsAnnounced;
    var tokens := TokensOf(ms, v);
    ClientSeesResponse(tokens, version, rest);
    SentErrors(ms, v, version);
    MessagesShown(ms, v, version);
    FlagsReach(RecordsOf(Sent(tokens), version), ms, v, version);
    NoMore(ms, v);
    ResponseEnds(tokens, version);
  }

  /** A login that comes through: the client finds the version, the database, the collation and a DONE, each once. */
  lemma LoginReachesClient(db: Exec.Db, front: Connection.Front, fuel: nat, c: Connection.Conn, p: Connection.Incoming,
                           v: Conversions, rest: seq<Bytes.byte>)
    requires Proper(v) && Opening.InTurn(c, p)
    requires Opening.GetsTo(db, c, Opening.Asks(Opening.Home(p)), 4)
    ensures var r := Connection.Step(db, front, fuel, c, p);
            var ms := r.exec.messages;
            var records := RecordsOf(Sent(TokensOf(ms, v)), r.version);
            var home := v.ucs(if p.database == "" then "master" else p.database).ucs2;
            && r.alive && r.version == (if p.version <= 0x730B0003 then p.version else 0x730B0003)
            && (Deliverable(ms, v, r.version) ==>
                  && Reads(ms, v, r.version, rest, records) && |records| == 4
                  && ShowsAck(records[0], r.version, v.ucs("Microsoft SQL Server").ucs2)
                  && ShowsChange(records[1], Bodies.DatabaseChange(home, home))
                  && ShowsChange(records[2], Bodies.CollationChange([0x09, 0x04, 0xD0, 0x00, 0x00], []))
                  && ShowsDone(records[3], false, false, 0, r.version))
  {
    hide *;
    Opening.LoginOpens(db, front, fuel, c, p, 4);
    var r := Connection.Step(db, front, fuel, c, p);
    var ms := r.exec.messages;
    assert Opening.Home(p) == if p.database == "" then "master" else p.database by { HomeTold(c, p); }
    assert Exec.ErrorsFlagged(ms) by { NoErrors(ms); }
    if Deliverable(ms, v, r.version) {
      MessagesReach(ms, v, r.version, rest);
      LoginShown(RecordsOf(Sent(TokensOf(ms, v)), r.version), r.version, Opening.Home(p), v);
    }
  }

  lemma HomeTold(c: Connection.Conn, p: Connection.Incoming)
    requires Opening.InTurn(c, p)
    ensures p.LoginIn? && Opening.Home(p) == if p.database == "" then "master" else p.database
  {
  }

  lemma NoErrors(ms: seq<Exec.Message>)
    requires forall i :: 0 <= i < |ms| ==> !ms[i].ErrorMessage? && (ms[i].DoneMessage? ==> !ms[i].error)
    ensures Exec.ErrorsFlagged(ms)
  {
  }

  lemma LoginShown(records: seq<Record>, version: nat, home: string, v: Conversions)
    requires Proper(v)
    requires ShowsAll(records, [Exec.LoginAckMessage(version), Exec.EnvDatabaseMessage(home, home),
                                Exec.EnvCollationMessage, Exec.DoneMessage(false, false, 0)], v, version)
    ensures && |records| == 4
            && ShowsAck(records[0], version, v.ucs("Microsoft SQL Server").ucs2)
            && ShowsChange(records[1], Bodies.DatabaseChange(v.ucs(home).ucs2, v.ucs(home).ucs2))
            && ShowsChange(records[2], Bodies.CollationChange([0x09, 0x04, 0xD0, 0x00, 0x00], []))
            && ShowsDone(records[3], false, false, 0, version)
  {
    hide ShowsAck, ShowsChange, ShowsDone;
    var ms := [Exec.LoginAckMessage(version), Exec.EnvDatabaseMessage(home, home), Exec.EnvCollationMessage,
               Exec.DoneMessage(false, false, 0)];
    assert Shows(records[0], ms[0], v, version) && Shows(records[1], ms[1], v, version);
    assert Shows(records[2], ms[2], v, version) && Shows(records[3], ms[3], v, version);
  }

  // ----- batches of SQL statements -----

  /** For each answer: its rows and a DONE that counts them, or a DONE that counts none; `left` records follow. */
  ghost predicate Finds(records: seq<Record>, replies: seq<Exec.Response>, left: nat, v: Conversions, version: nat)
    requires Proper(v)
    decreases |replies|
  {
    if replies == [] then |records| == left
    else if replies[0].Reply? && replies[0].code == Exec.Selected then
      && |records| >= 2
      && ShowsRows(records[0], v.sheet(replies[0].rows), |replies[0].rows|, version)
      && ShowsDone(records[1], false, true, |replies[0].rows|, version)
      && Finds(records[2..], replies[1..], left, v, version)
    else
      && |records| >= 1 && ShowsDone(records[0], false, true, 0, version)
      && Finds(records[1..], replies[1..], left, v, version)
  }

  lemma {:induction false} AnswersFound(records: seq<Record>, replies: seq<Exec.Response>, left: nat, v: Conversions,
                                        version: nat)
    requires Proper(v) && |Effects.Reported(replies)| + left == |records|
    requires forall i :: 0 <= i < |Effects.Reported(replies)| ==>
               Shows(records[i], Effects.Reported(replies)[i], v, version)
    ensures Finds(records, replies, left, v, version)
    decreases |replies|
  {
    hide ShowsDone, ShowsRows;
    if replies != [] {
      var ms := Effects.Reported(replies);
      var n := if replies[0].Reply? && replies[0].code == Exec.Selected then 2 else 1;
      var rest := Effects.Reported(replies[1..]);
      assert ms[n..] == rest;
      forall i | 0 <= i < |rest|
        ensures Shows(records[n..][i], rest[i], v, version)
      {
        assert rest[i] == ms[n + i] && records[n..][i] == records[n + i];
      }
      AnswersFound(records[n..], replies[1..], left, v, version);
      assert Shows(records[0], ms[0], v, version);
      if n == 2 {
        assert Shows(records[1], ms[1], v, version);
      }
    }
  }

  /** What PostgreSQL answers to the statements of a batch. */
  function Replies(db: Exec.Db, c: Connection.Conn, cs: seq<Translate.Code>): seq<Exec.Response>
    requires Effects.AllSql(cs)
  {
    var st := Exec.State(Values.Env(c.exec.env.sess, map[]), c.exec.database, [], c.exec.asked);
    Effects.Replies(db, c.exec.asked, Effects.Questions(cs, st))
  }

  /** An ERROR and its DONE behind n answers, or the DONE of an empty program. */
  function Left(n: nat, all: nat): nat {
    if n < all then 2 else if n == 0 then 1 else 0
  }

  /**
   A batch of SQL statements, under any PostgreSQL: for each one in turn that is accepted
   the client finds its rows with their number, or a DONE that counts none; at the first
   that is not, it finds an ERROR and a DONE with the error bit, and nothing behind them.
   */
  lemma SqlReachesClient(db: Exec.Db, front: Connection.Front, fuel: nat, c: Connection.Conn, text: string,
                         cs: seq<Translate.Code>, n: nat, v: Conversions, rest: seq<Bytes.byte>)
    requires Proper(v) && c.alive && c.phase.Connected?
    requires front.program(text) == Connection.Program(cs) && Effects.AllSql(cs)
    requires Effects.AcceptsFirst(Replies(db, c, cs), n)
    ensures var r := Connection.Step(db, front, fuel, c, Connection.SqlIn(text));
            var ms := r.exec.messages;
            var records := RecordsOf(Sent(TokensOf(ms, v)), c.version);
            && r.alive
            && (Deliverable(ms, v, c.version) ==>
                  && Reads(ms, v, c.version, rest, records) && EndsOnce(records)
                  && Finds(records, Replies(db, c, cs)[..n], Left(n, |cs|), v, c.version)
                  && (SeesError(records) <==> n < |cs|)
                  && (n < |cs| ==> |records| >= 2 && IsErrorRecord(records[|records| - 2])
                                   && SaysError(records[|records| - 1])))
  {
    hide Connection.StepSql, Deliverable, EndsOnce, SeesError, Reads, Good, ShowsAll, ErrorsAnnounced, Finds, RecordsOf,
         Sent, TokensOf, Effects.Reported, Effects.AcceptsFirst, Replies;
    SqlMessages(db, front, fuel, c, text, cs, n);
    BatchReachesClient(db, front, fuel, c, text, v, rest);
    var r := Connection.StepSql(db, front, fuel, c, text);
    var ms := r.exec.messages;
    if Deliverable(ms, v, c.version) {
      var records := RecordsOf(Sent(TokensOf(ms, v)), c.version);
      PrefixFound(records, ms, Replies(db, c, cs)[..n], n, |cs|, v, c.version);
      if n < |cs| {
        ErrorLast(records, ms, v, c.version);
      }
    }
  }

  lemma SqlMessages(db: Exec.Db, front: Connection.Front, fuel: nat, c: Connection.Conn, text: string,
                    cs: seq<Translate.Code>, n: nat)
    requires c.alive && c.phase.Connected?
    requires front.program(text) == Connection.Program(cs) && Effects.AllSql(cs)
    requires Effects.AcceptsFirst(Replies(db, c, cs), n)
    ensures n <= |Replies(db, c, cs)| == |cs|
    ensures var r := Connection.StepSql(db, front, fuel, c, text);
            var ms := r.exec.messages;
            var said := Effects.Reported(Replies(db, c, cs)[..n]);
            && r.alive && Connection.Step(db, front, fuel, c, Connection.SqlIn(text)) == r
            && (Good(db, front, fuel, c, text) <==> n == |cs|)
            && said <= ms && |ms| == |said| + (if n < |cs| then 2 else 0)
            && (n < |cs| ==>
                  |ms| >= 2 && ms[|ms| - 2].ErrorMessage? && ms[|ms| - 1] == Exec.DoneMessage(true, false, 1))
  {
    hide Connection.StepSql, Exec.RunAll, Effects.Reported, Effects.Replies, Effects.Questions;
    Connection.BatchRuns(db, front, fuel, c, text);
    Effects.SqlProgram(cs, n, fuel, db, Connection.Underway(c, map[]));
  }

  lemma PrefixFound(records: seq<Record>, ms: seq<Exec.Message>, replies: seq<Exec.Response>, n: nat, all: nat,
                    v: Conversions, version: nat)
    requires Proper(v) && ShowsAll(records, ms, v, version) && Effects.Reported(replies) <= ms && |replies| == n <= all
    requires |ms| == |Effects.Reported(replies)| + (if n < all then 2 else 0)
    requires n < all ==> ms[|ms| - 1].DoneMessage?
    ensures Finds(records, replies, Left(n, all), v, version)
  {
    hide Shows, Finds, Effects.Reported;
    ReportedEnd(replies);
    AnswersFound(records, replies, Left(n, all), v, version);
  }

  /** Every answer ends in a DONE. */
  lemma {:induction false} ReportedEnd(replies: seq<Exec.Response>)
    ensures var ms := Effects.Reported(replies);
            (replies == [] <==> ms == []) && (ms != [] ==> ms[|ms| - 1].DoneMessage?)
  {
    if replies != [] {
      ReportedEnd(replies[1..]);
    }
  }

  lemma ErrorLast(records: seq<Record>, ms: seq<Exec.Message>, v: Conversions, version: nat)
    requires Proper(v) && ShowsAll(records, ms, v, version)
    requires |ms| >= 2 && ms[|ms| - 2].ErrorMessage? && ms[|ms| - 1].DoneMessage? && ms[|ms| - 1].error
    ensures |records| >= 2 && IsErrorRecord(records[|records| - 2]) && SaysError(records[|records| - 1])
  {
    hide Shows;
    OneFlag(records[|ms| - 2], ms[|ms| - 2], v, version);
    OneFlag(records[|ms| - 1], ms[|ms| - 1], v, version);
  }

  /**
   The same, done: the batch runs, its messages become tokens, the tokens go through child
   buffers into the root, the root into packets, and a client joins and walks them.
   */
  method DeliverBatch(main: TdsMain.Main, exec: Executor.Session, text: string, version: nat, instance: string,
                      front: Connection.Front, fuel: nat, v: Conversions, rest: seq<Bytes.byte>)
    returns (alive: bool, records: seq<Record>, left: seq<Bytes.byte>)
    requires Proper(v) && main.phase.Connected?
    requires var r := Connection.StepSql(exec.db, front, fuel, main.Seen(true, version, instance, exec), text);
             r.alive ==> Deliverable(r.exec.messages, v, version)
    modifies main, exec
    ensures main.Seen(alive, version, instance, exec)
         == Connection.StepSql(exec.db, front, fuel, old(main.Seen(true, version, instance, exec)), text)
    ensures alive ==>
              && left == rest
              && records == RecordsOf(Sent(TokensOf(exec.messages, v)), version)
              && (SeesError(records) <==>
                   !Good(exec.db, front, fuel, old(main.Seen(true, version, instance, exec)), text))
              && ShowsAll(records, exec.messages, v, version) && ErrorsAnnounced(records)
              && EndsOnce(records)
  {
    hide Connection.StepSql, Deliverable, Good, EndsOnce, SeesError, Reads, Exec.RunCode, ShowsAll, ErrorsAnnounced;
    ghost var c := main.Seen(true, version, instance, exec);
    alive := main.Batch(exec, text, version, instance, front, fuel);
    records, left := [], [];
    if alive {
      records, left := ClientSide(exec.messages, v, version, rest);
      BatchReachesClient(exec.db, front, fuel, c, text, v, rest);
    }
  }

  /** The wire, and what a client makes of it. */
  method ClientSide(ms: seq<Exec.Message>, v: Conversions, version: nat, rest: seq<Bytes.byte>)
    returns (records: seq<Record>, left: seq<Bytes.byte>)
    requires Deliverable(ms, v, version)
    ensures left == rest && records == RecordsOf(Sent(TokensOf(ms, v)), version)
  {
    hide AllFit, AllWalkable, EncodeAll, Sent, RecordsOf, WalkAll, Packet.Wire, Packet.Reassemble;
    var tokens := TokensOf(ms, v);
    var wire := Transmit(tokens, version);
    ClientSeesResponse(tokens, version, rest);
    var read := Packet.ReadPacket(wire + rest);
    left := read.rest;
    records := WalkAll(read.msg, version).value;
  }
}
