/**
 tds/tdspacket.cc: splitting a message into packets, and the loop that puts packets
 together again (section 2.2.3.1 of MS-TDS).
 */
module Packet {
  import opened Bytes
  import opened Options

  const HEADER_SIZE: nat := 8
  const MAX_PACKET_SIZE: nat := 4096
  const MAX_PAYLOAD: nat := MAX_PACKET_SIZE - HEADER_SIZE
  const READ_BUFFER: nat := 1024 * 1024
  const MESSAGE_TYPE_RESPONSE: byte := 0x04

  // ----- writing -----

  function Header(packetType: byte, eom: bool, payload: nat): (h: seq<byte>)
    ensures |h| == HEADER_SIZE
  {
    [packetType, if eom then 1 else 0] + BE(payload + 8, 2) + BE(0, 2) + [1, 0]
  }

  /** The payloads, in order. */
  function Fragments(msg: seq<byte>): seq<seq<byte>> {
    if msg == [] then []
    else if |msg| <= MAX_PAYLOAD then [msg]
    else [msg[..MAX_PAYLOAD]] + Fragments(msg[MAX_PAYLOAD..])
  }

  /** The packets that carry the payloads; the last one says end-of-message. */
  function Frame(packetType: byte, fragments: seq<seq<byte>>): seq<byte> {
    if fragments == [] then []
    else Header(packetType, |fragments| == 1, |fragments[0]|) + fragments[0] + Frame(packetType, fragments[1..])
  }

  function Concat(fragments: seq<seq<byte>>): seq<byte> {
    if fragments == [] then [] else fragments[0] + Concat(fragments[1..])
  }

  function Wire(packetType: byte, msg: seq<byte>): seq<byte> {
    Frame(packetType, Fragments(msg))
  }

  /** Every payload is within the limit and none is empty, and together they are the message. */
  lemma {:induction false} FragmentsCover(msg: seq<byte>)
    ensures forall f :: f in Fragments(msg) ==> 0 < |f| <= MAX_PAYLOAD
    ensures Concat(Fragments(msg)) == msg
    ensures msg == [] <==> Fragments(msg) == []
  {
    if |msg| > MAX_PAYLOAD {
      FragmentsCover(msg[MAX_PAYLOAD..]);
    } else if msg != [] {
      assert [msg][1..] == [];
    }
  }

  /** tdspacket::writepacket(int sock): the loop that sends packet after packet. */
  method WritePacket(packetType: byte, msg: seq<byte>) returns (wire: seq<byte>)
    ensures wire == Wire(packetType, msg)
  {
    wire := [];
    var remaining, writePos := |msg|, 0;
    var eom := false;
    while remaining > 0
      invariant 0 <= writePos <= |msg| && remaining == |msg| - writePos
      invariant eom ==> remaining == 0
      invariant wire + Wire(packetType, msg[writePos..]) == Wire(packetType, msg)
    {
      var packetSize;
      if remaining > MAX_PAYLOAD {
        packetSize := MAX_PAYLOAD;
      } else {
        packetSize := remaining;
        eom := true;
      }
      ghost var left := msg[writePos..];
      assert left[packetSize..] == msg[writePos + packetSize..]
          && left[..packetSize] == msg[writePos..writePos + packetSize];
      WireStep(packetType, left, packetSize);
      var header := Header(packetType, eom, packetSize);
      Assoc3(wire, header, left[..packetSize], Wire(packetType, left[packetSize..]));
      Assoc(header, left[..packetSize], Wire(packetType, left[packetSize..]));
      wire := wire + header + msg[writePos..writePos + packetSize];
      writePos := writePos + packetSize;
      remaining := remaining - packetSize;
    }
  }

  lemma WireStep(packetType: byte, msg: seq<byte>, n: nat)
    requires msg != [] && n == if |msg| > MAX_PAYLOAD then MAX_PAYLOAD else |msg|
    ensures Wire(packetType, msg)
         == Header(packetType, |msg| <= MAX_PAYLOAD, n) + msg[..n] + Wire(packetType, msg[n..])
  {
    if |msg| > MAX_PAYLOAD {
      FragmentsCover(msg[n..]);
      assert Fragments(msg)[1..] == Fragments(msg[n..]);
    } else {
      assert msg[n..] == [] && msg[..n] == msg;
      assert [msg][1..] == [];
    }
  }

  // ----- reading -----

  datatype ReadResult =
    | Message(packetType: byte, msg: seq<byte>, rest: seq<byte>)
    | Closed       // no complete header: readpacket() gives NULL
    | Stuck        // the payload never completes: recv() keeps returning 0
    | Malformed    // a length below the header's own size
    | Overrun      // more than the read buffer holds

  function Min(a: nat, b: nat): nat {
    if a < b then a else b
  }

  /** One packet after `got` has been collected; `packetType` is that of the first packet. */
  function Reassemble(stream: seq<byte>, got: seq<byte>, packetType: int): ReadResult
    requires -1 <= packetType < 256
    decreases |stream|
  {
    if |stream| < HEADER_SIZE then Closed
    else
      var t := if packetType == -1 then stream[0] else packetType;
      var length := FromBE(stream[2..4]);
      var body := stream[HEADER_SIZE..];
      if length < HEADER_SIZE then Malformed
      else
        var n := length - HEADER_SIZE;
        var here := Min(n, |body|);
        if |got| + here > READ_BUFFER then Overrun
        else if here < n then Stuck
        else if stream[1] % 2 == 1 then Message(t, got + body[..n], body[n..])
        else Reassemble(body[n..], got + body[..n], t)
  }

  /**
   tdspacket::readpacket(): the reassembly loop up to the choice of the packet class.
   However recv() cuts the payloads into pieces, the result is the same.
   */
  method ReadPacket(stream: seq<byte>) returns (r: ReadResult)
    ensures r == Reassemble(stream, [], -1)
  {
    var rest, got := stream, [];
    var packetType: int := -1;
    while true
      invariant -1 <= packetType < 256
      invariant Reassemble(rest, got, packetType) == Reassemble(stream, [], -1)
      invariant |got| <= READ_BUFFER
      decreases |rest|
    {
      if |rest| < HEADER_SIZE {
        return Closed;
      }
      if packetType == -1 {
        packetType := rest[0];
      }
      var status := rest[1];
      var length := FromBE(rest[2..4]);
      rest := rest[HEADER_SIZE..];
      if length < HEADER_SIZE {
        return Malformed;
      }
      var remaining := length - HEADER_SIZE;
      ghost var body, before, n := rest, got, remaining;
      while remaining > 0
        invariant 0 <= remaining <= n && n - remaining <= |body| && |got| <= READ_BUFFER
        invariant got == before + body[..n - remaining] && rest == body[n - remaining..]
        decreases remaining
      {
        if rest == [] {
          return Stuck;
        }
        // recv() gives some of the bytes that are there
        assert 0 < 1 <= remaining;
        var res: nat :| 0 < res <= remaining && res <= |rest|;
        if |got| + res > READ_BUFFER {
          return Overrun;
        }
        Received(body, before, n - remaining, res);
        got := got + rest[..res];
        rest := rest[res..];
        remaining := remaining - res;
      }
      if status % 2 == 1 {
        return Message(packetType, got, rest);
      }
    }
  }

  lemma Received(body: seq<byte>, before: seq<byte>, k: nat, res: nat)
    requires k + res <= |body|
    ensures before + body[..k] + body[k..][..res] == before + body[..k + res] && body[k..][res..] == body[k + res..]
  {
  }

  // ----- the two are inverse -----

  lemma HeaderFields(packetType: byte, eom: bool, payload: nat, tail: seq<byte>)
    requires payload <= MAX_PAYLOAD
    ensures var s := Header(packetType, eom, payload) + tail;
            && s[0] == packetType && s[1] % 2 == (if eom then 1 else 0)
            && FromBE(s[2..4]) == payload + HEADER_SIZE
            && s[HEADER_SIZE..] == tail
  {
    Widths();
    RoundTrip(payload + 8, 2);
    assert (Header(packetType, eom, payload) + tail)[2..4] == BE(payload + 8, 2);
  }

  /** What reading does with the packets of a message, wherever it starts. */
  lemma {:induction false} ReadFragments(packetType: byte, msg: seq<byte>, got: seq<byte>, t: int, rest: seq<byte>)
    requires msg != [] && (t == -1 || t == packetType)
    ensures Reassemble(Wire(packetType, msg) + rest, got, t)
         == if |got| + |msg| <= READ_BUFFER then Message(packetType, got + msg, rest) else Overrun
    decreases |msg|
  {
    var n := if |msg| > MAX_PAYLOAD then MAX_PAYLOAD else |msg|;
    var next := Wire(packetType, msg[n..]);
    WireStep(packetType, msg, n);
    var tail := msg[..n] + (next + rest);
    Assoc3(Header(packetType, |msg| <= MAX_PAYLOAD, n), msg[..n], next, rest);
    HeaderFields(packetType, |msg| <= MAX_PAYLOAD, n, tail);
    assert tail[..n] == msg[..n] && tail[n..] == next + rest;
    if |msg| > MAX_PAYLOAD {
      if |got| + n <= READ_BUFFER {
        ReadFragments(packetType, msg[n..], got + msg[..n], packetType, rest);
        Assoc(got, msg[..n], msg[n..]);
        assert msg[..n] + msg[n..] == msg;
      }
    } else {
      assert msg[..n] == msg && next + rest == rest;
    }
  }

  lemma {:induction false} ReadConsumes(stream: seq<byte>, got: seq<byte>, t: int)
    requires -1 <= t < 256
    ensures Reassemble(stream, got, t).Message? ==> |Reassemble(stream, got, t).rest| < |stream|
    decreases |stream|
  {
    if |stream| >= HEADER_SIZE {
      var length := FromBE(stream[2..4]);
      if HEADER_SIZE <= length <= |stream| {
        var n := length - HEADER_SIZE;
        var body := stream[HEADER_SIZE..];
        ReadConsumes(body[n..], got + body[..n], if t == -1 then stream[0] else t);
      }
    }
  }

  /**
   Reading what was written, followed by anything at all, gives back exactly the
   message and leaves exactly what followed - if and only if there was something to
   send and it fits the read buffer.
   */
  lemma SplitJoin(packetType: byte, msg: seq<byte>, rest: seq<byte>)
    ensures Reassemble(Wire(packetType, msg) + rest, [], -1) == Message(packetType, msg, rest)
       <==> 0 < |msg| <= 0x10_0000
  {
    if msg == [] {
      assert Wire(packetType, msg) + rest == rest;
      ReadConsumes(rest, [], -1);
    } else {
      ReadFragments(packetType, msg, [], -1, rest);
      assert [] + msg == msg;
    }
  }

  // ----- the packets as they go over the wire -----

  /** A packet with the fields of its header (section 2.2.3.1 of MS-TDS). */
  datatype Seen = Seen(packetType: byte, status: byte, spid: nat, id: byte, window: byte, payload: seq<byte>)

  /** A stream cut into packets by their own lengths. */
  function PacketsIn(s: seq<byte>): Option<seq<Seen>>
    decreases |s|
  {
    if s == [] then Some([])
    else if |s| < 8 then None
    else
      var length := FromBE(s[2..4]);
      if length < 8 || length > |s| then None
      else
        match PacketsIn(s[length..])
        case None => None
        case Some(more) => Some([Seen(s[0], s[1], FromBE(s[4..6]), s[6], s[7], s[8..length])] + more)
  }

  function Payloads(ps: seq<Seen>): seq<byte> {
    if ps == [] then [] else ps[0].payload + Payloads(ps[1..])
  }

  /** 4096 bytes with the header in every packet but the last, which is not empty and alone says end-of-message. */
  ghost predicate WellSent(ps: seq<Seen>, packetType: byte) {
    forall i :: 0 <= i < |ps| ==>
      var p := ps[i];
      && p.packetType == packetType && p.spid == 0 && p.id == 1 && p.window == 0
      && (if i < |ps| - 1 then p.status == 0 && |p.payload| == 4088 else p.status == 1 && 0 < |p.payload| <= 4088)
  }

  lemma OnePacket(packetType: byte, eom: bool, payload: seq<byte>, tail: seq<byte>)
    requires |payload| <= 4088
    ensures var s := Header(packetType, eom, |payload|) + payload + tail;
            && |s| >= 8 && FromBE(s[2..4]) == 8 + |payload| <= |s| && s[8 + |payload|..] == tail
            && Seen(s[0], s[1], FromBE(s[4..6]), s[6], s[7], s[8..8 + |payload|])
               == Seen(packetType, if eom then 1 else 0, 0, 1, 0, payload)
  {
    var header := Header(packetType, eom, |payload|);
    var s := header + payload + tail;
    Widths();
    RoundTrip(|payload| + 8, 2);
    RoundTrip(0, 2);
    Assoc(header, payload, tail);
    assert s[2..4] == header[2..4] == BE(|payload| + 8, 2) && s[4..6] == header[4..6] == BE(0, 2);
    Cut(header + payload, tail);
    Middle(header, payload, tail);
  }

  /** Whatever the message, its packets are well-formed, numbered and filled so, and carry it. */
  lemma {:induction false} PacketsSeen(packetType: byte, msg: seq<byte>)
    ensures var ps := PacketsIn(Wire(packetType, msg));
            ps.Some? && WellSent(ps.value, packetType) && Payloads(ps.value) == msg
            && (msg == [] <==> ps.value == [])
    decreases |msg|
  {
    hide Header, FromBE;
    if msg != [] {
      var n := if |msg| > 4088 then 4088 else |msg|;
      WireStep(packetType, msg, n);
      PacketsSeen(packetType, msg[n..]);
      OnePacket(packetType, |msg| <= 4088, msg[..n], Wire(packetType, msg[n..]));
      var ps := PacketsIn(Wire(packetType, msg)).value;
      var more := PacketsIn(Wire(packetType, msg[n..])).value;
      assert ps[1..] == more;
      assert forall i :: 0 < i < |ps| ==> ps[i] == more[i - 1];
      assert msg[..n] + msg[n..] == msg;
    }
  }
}
