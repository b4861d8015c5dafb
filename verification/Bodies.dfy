/**
 What a client reads in the bodies of the framed tokens (section 2.2.7 of MS-TDS):
 counted texts, numbers by their width, and nothing left over.
 */
module Bodies {
  import opened Bytes
  import DynBuffer
  import opened Options
  import opened Results
  import Tokens

  /** A count of `width` bytes, then that many two-byte characters. */
  function TakeText(s: seq<byte>, width: nat): Parse<seq<byte>> {
    match TakeNumber(s, width)
    case None => None
    case Some((n, rest)) => Take(rest, 2 * n)
  }

  /** A text comes back exactly when the number of its characters fits the count. */
  lemma TextExact(text: seq<byte>, width: nat, rest: seq<byte>)
    requires |text| % 2 == 0
    ensures TakeText(LE(|text| / 2, width) + (text + rest), width) == Some((text, rest))
       <==> |text| / 2 < Pow(256, width)
  {
    hide LE, FromLE;
    var n := |text| / 2;
    TakeWritten(n, width, text + rest);
    FitsExactly(n, width);
    FromLEOfLE(n, width);
    Split(text, rest);
  }

  /** One that does not fit comes back shorter, or not at all. */
  lemma TextCut(text: seq<byte>, width: nat, rest: seq<byte>)
    requires |text| % 2 == 0 && |text| / 2 >= Pow(256, width)
    ensures var r := TakeText(LE(|text| / 2, width) + (text + rest), width);
            r.Some? ==> |r.value.0| < |text|
  {
    hide LE, FromLE;
    TakeWritten(|text| / 2, width, text + rest);
  }

  // ----- ERROR and INFO -----

  datatype Notice = Notice(number: nat, state: nat, severity: nat, message: seq<byte>,
                           server: seq<byte>, process: seq<byte>, line: nat)

  function LineWidth(version: nat): nat {
    if version >= 0x7200_0000 then 4 else 2
  }

  /** The two empty names and the line number, up to the end. */
  function DecodeEnd(s: seq<byte>, version: nat): Option<(seq<byte>, seq<byte>, nat)> {
    match TakeText(s, 1)
    case None => None
    case Some((server, s1)) =>
      match TakeText(s1, 1)
      case None => None
      case Some((process, s2)) =>
        match TakeNumber(s2, LineWidth(version))
        case None => None
        case Some((line, s3)) => if s3 == [] then Some((server, process, line)) else None
  }

  function DecodeNotice(body: seq<byte>, version: nat): Option<Notice> {
    match TakeNumber(body, 4)
    case None => None
    case Some((number, s1)) =>
      match TakeNumber(s1, 1)
      case None => None
      case Some((state, s2)) =>
        match TakeNumber(s2, 1)
        case None => None
        case Some((severity, s3)) =>
          match TakeText(s3, 2)
          case None => None
          case Some((message, s4)) =>
            match DecodeEnd(s4, version)
            case None => None
            case Some((server, process, line)) =>
              Some(Notice(number, state, severity, message, server, process, line))
  }

  function EndBytes(line: nat, version: nat): seq<byte> {
    [0] + ([0] + LE(line, LineWidth(version)))
  }

  lemma EndRead(line: nat, version: nat)
    ensures Pow(256, LineWidth(version)) > 0
    ensures DecodeEnd(EndBytes(line, version), version) == Some(([], [], line % Pow(256, LineWidth(version))))
  {
    hide FromLE;
    var tail := LE(line, LineWidth(version));
    EmptyText([0] + tail);
    EmptyText(tail);
    TakeWritten(line, LineWidth(version), []);
    assert tail + [] == tail;
  }

  lemma EmptyText(rest: seq<byte>)
    ensures TakeText([0] + rest, 1) == Some(([], rest))
  {
    Widths();
    TextExact([], 1, rest);
    assert LE(0, 1) == [0] && [] + rest == rest;
  }

  lemma NoticeBytes(number: nat, state: nat, severity: nat, line: nat, message: DynBuffer.Text, version: nat)
    ensures Tokens.MessageBody(number, state, severity, line, message, version)
         == LE(number, 4) + (LE(state, 1) + (LE(severity, 1)
            + (LE(|message.ucs2| / 2, 2) + (message.ucs2 + EndBytes(line, version)))))
  {
    hide LE;
    var a, b, c, d := LE(number, 4), LE(state, 1), LE(severity, 1), LE(|message.ucs2| / 2, 2);
    var u, l := message.ucs2, LE(line, LineWidth(version));
    assert CountedName(Tokens.EMPTY_TEXT) == [0] by { EmptyCount(); }
    Assoc3(a + b + c + (d + u), [0], [0], l);
    Assoc3(a, b, c, (d + u) + EndBytes(line, version));
    Assoc(a + b + c, d + u, EndBytes(line, version));
    Assoc(d, u, EndBytes(line, version));
  }

  lemma EmptyCount()
    ensures CountedName(Tokens.EMPTY_TEXT) == [0]
  {
    assert LE(0, 1) == [0];
  }

  lemma NoticeHead(number: nat, state: nat, severity: nat, s: seq<byte>, version: nat)
    ensures var body := LE(number, 4) + (LE(state, 1) + (LE(severity, 1) + s));
            && (TakeText(s, 2).None? ==> DecodeNotice(body, version).None?)
            && (TakeText(s, 2).Some? ==>
                  var (message, s4) := TakeText(s, 2).value;
                  DecodeNotice(body, version)
                  == match DecodeEnd(s4, version)
                     case None => None
                     case Some((server, process, line)) =>
                       Some(Notice(number % 0x1_0000_0000, state % 0x100, severity % 0x100, message,
                                   server, process, line)))
  {
    hide LE, FromLE, TakeText, DecodeEnd, Take;
    Widths();
    TakeWritten(number, 4, LE(state, 1) + (LE(severity, 1) + s));
    TakeWritten(state, 1, LE(severity, 1) + s);
    TakeWritten(severity, 1, s);
  }

  /**
   ERROR and INFO come back as they were exactly when each number fits its field - the
   line number's is two bytes wide before 7.2 - and the text has less than 65536 characters.
   */
  lemma NoticeExact(number: nat, state: nat, severity: nat, line: nat, message: DynBuffer.Text, version: nat)
    requires |message.ucs2| % 2 == 0
    ensures DecodeNotice(Tokens.MessageBody(number, state, severity, line, message, version), version)
         == Some(Notice(number, state, severity, message.ucs2, [], [], line))
       <==> && number < 0x1_0000_0000 && state < 0x100 && severity < 0x100
            && line < (if version >= 0x7200_0000 then 0x1_0000_0000 else 0x1_0000)
            && |message.ucs2| / 2 < 0x1_0000
  {
    hide LE, FromLE, TakeText, DecodeEnd, Take, EndBytes, DecodeNotice;
    var text := message.ucs2;
    Widths();
    NoticeBytes(number, state, severity, line, message, version);
    NoticeHead(number, state, severity, LE(|text| / 2, 2) + (text + EndBytes(line, version)), version);
    TextExact(text, 2, EndBytes(line, version));
    EndRead(line, version);
    if |text| / 2 >= 0x1_0000 {
      TextCut(text, 2, EndBytes(line, version));
    }
  }

  // ----- LOGINACK -----

  datatype Ack = Ack(interface: nat, version: nat, product: seq<byte>, release: seq<byte>)

  function DecodeAck(body: seq<byte>): Option<Ack> {
    match TakeNumber(body, 1)
    case None => None
    case Some((interface, s1)) =>
      match Take(s1, 4)
      case None => None
      case Some((version, s2)) =>
        match TakeText(s2, 1)
        case None => None
        case Some((product, s3)) => Some(Ack(interface, FromBE(version), product, s3))
  }

  /** The version is in network order; the product name has one count byte. */
  lemma AckExact(interface: nat, v: nat, product: DynBuffer.Text, version: nat)
    requires |product.ucs2| % 2 == 0
    ensures DecodeAck(Tokens.Body(Tokens.LoginAck(interface, v, product), version))
         == Some(Ack(interface, v, product.ucs2, [10, 50, 0, 0]))
       <==> interface < 0x100 && v < 0x1_0000_0000 && |product.ucs2| / 2 < 0x100
  {
    hide LE, FromLE, BE, FromBE, TakeText;
    var text, end: seq<byte> := product.ucs2, [10, 50, 0, 0];
    var count := LE(|text| / 2, 1);
    var tail := count + (text + end);
    Widths();
    Assoc3(LE(interface, 1), BE(v, 4), CountedName(product), end);
    Assoc(count, text, end);
    TakeWritten(interface, 1, BE(v, 4) + tail);
    Split(BE(v, 4), tail);
    BEFits(v);
    TextExact(text, 1, end);
    if |text| / 2 >= 0x100 {
      TextCut(text, 1, end);
    }
  }

  lemma BEFits(v: nat)
    ensures FromBE(BE(v, 4)) == v <==> v < 0x1_0000_0000
  {
    Widths();
    FromBEOfBE(v, 4);
  }

  // ----- ENVCHANGE -----

  datatype Change =
    | DatabaseChange(newName: seq<byte>, oldName: seq<byte>)
    | CollationChange(newValue: seq<byte>, oldValue: seq<byte>)

  function DecodeChange(body: seq<byte>): Option<Change> {
    if body == [] then None
    else if body[0] == 1 then
      match TakeText(body[1..], 1)
      case None => None
      case Some((newName, s1)) =>
        match TakeText(s1, 1)
        case None => None
        case Some((oldName, s2)) => if s2 == [] then Some(DatabaseChange(newName, oldName)) else None
    else if body[0] == 7 then
      match TakeCounted(body[1..], 1)
      case None => None
      case Some((newValue, s1)) =>
        match TakeCounted(s1, 1)
        case None => None
        case Some((oldValue, s2)) => if s2 == [] then Some(CollationChange(newValue, oldValue)) else None
    else None
  }

  /** Both database names come back exactly when each has less than 256 characters. */
  lemma DatabaseExact(newName: DynBuffer.Text, oldName: DynBuffer.Text, version: nat)
    requires |newName.ucs2| % 2 == 0 && |oldName.ucs2| % 2 == 0
    ensures DecodeChange(Tokens.Body(Tokens.EnvDatabase(newName, oldName), version))
         == Some(DatabaseChange(newName.ucs2, oldName.ucs2))
       <==> |newName.ucs2| / 2 < 0x100 && |oldName.ucs2| / 2 < 0x100
  {
    hide LE, FromLE, TakeText;
    var a, b := newName.ucs2, oldName.ucs2;
    var tail := LE(|b| / 2, 1) + b;
    var body := Tokens.Body(Tokens.EnvDatabase(newName, oldName), version);
    Widths();
    Assoc([1], CountedName(newName), CountedName(oldName));
    Assoc(LE(|a| / 2, 1), a, tail);
    assert body[0] == 1 && body[1..] == LE(|a| / 2, 1) + (a + tail);
    assert b + [] == b;
    TextExact(a, 1, tail);
    TextExact(b, 1, []);
    if |a| / 2 >= 0x100 {
      TextCut(a, 1, tail);
    }
    if |b| / 2 >= 0x100 {
      TextCut(b, 1, []);
    }
  }

  /** The collation is always the five bytes of locale 1033, and there is no old one. */
  lemma CollationRead(version: nat)
    ensures DecodeChange(Tokens.Body(Tokens.EnvCollation, version))
         == Some(CollationChange(LE(1033, 2) + LE(0xD0, 2) + [0], []))
  {
    hide FromLE;
    var value := LE(1033, 2) + LE(0xD0, 2) + [0];
    var body := Tokens.Body(Tokens.EnvCollation, version);
    Widths();
    assert body[0] == 7 && body[1..] == [5] + (value + [0]);
    assert LE(5, 1) == [5] && LE(0, 1) == [0] && [0] + [] == [0];
    TakeWritten(5, 1, value + [0]);
    Split(value, [0]);
    TakeWritten(0, 1, []);
  }
}
