/**
 tds/tdspacket_rpc.cc: decoding a remote procedure call and its parameters
 (section 2.2.6.6 of MS-TDS).
 */
module Rpc {
  import opened Bytes
  import opened Results
  import opened Options

  const NVARCHAR: byte := 231

  /** One parameter as the loop reads it; only nvarchar parameters have a value. */
  datatype Param = Param(name: seq<byte>, paramType: byte, value: Option<seq<byte>>)

  /** One round of the loop: the parameter and the position behind it; None outside the message. */
  function NextParam(s: seq<byte>, pos: nat): (r: Option<(Param, nat)>)
    ensures r.Some? ==> r.value.1 <= |s| && r.value.1 >= pos + (if r.value.0.paramType == NVARCHAR then 12 else 3)
    ensures r.Some? ==> (r.value.0.value.Some? <==> r.value.0.paramType == NVARCHAR)
  {
    if pos >= |s| then None
    else
      var n := 2 * (s[pos] as int);
      var typeAt := pos + 1 + n + 1;
      if typeAt >= |s| then None
      else
        var name, t := s[pos + 1..pos + 1 + n], s[typeAt];
        if t != NVARCHAR then Some((Param(name, t, None), typeAt + 1))
        else
          var lengthAt := typeAt + 1 + 7;
          if lengthAt + 2 > |s| then None
          else
            var length := FromLE(s[lengthAt..lengthAt + 2]);
            var end := lengthAt + 2 + length;
            if end > |s| then None
            else Some((Param(name, t, Some(s[lengthAt + 2..end])), end))
  }

  /** The parameters from `pos` to the end of the message. */
  function Params(s: seq<byte>, pos: nat): Option<seq<Param>>
    decreases |s| - pos
  {
    if pos >= |s| then Some([])
    else
      match NextParam(s, pos)
      case None => None
      case Some((p, next)) =>
        match Params(s, next)
        case None => None
        case Some(ps) => Some([p] + ps)
  }

  function NamesOf(ps: seq<Param>): seq<seq<byte>> {
    if ps == [] then [] else [ps[0].name] + NamesOf(ps[1..])
  }

  /** Only parameters of a known type contribute a value. */
  function ValuesOf(ps: seq<Param>): seq<seq<byte>> {
    if ps == [] then []
    else (if ps[0].value.Some? then [ps[0].value.value] else []) + ValuesOf(ps[1..])
  }

  datatype Call = Call(procId: int, procName: seq<byte>, names: seq<seq<byte>>, values: seq<seq<byte>>)

  /** Where the parameters start, with the procedure: by number behind 0xFFFF, or by name. */
  function Procedure(s: seq<byte>, version: nat): Option<(int, seq<byte>, nat)> {
    if version >= TDS_7_2 && |s| < 4 then None
    else
      var pos := if version >= TDS_7_2 then FromLE(s[..4]) else 0;
      if pos + 4 > |s| then None
      else
        var length := FromLE(s[pos..pos + 2]);
        if length == 0xFFFF then
          if pos + 6 > |s| then None else Some((FromLE(s[pos + 2..pos + 4]), [], pos + 6))
        else if pos + 2 + length + 2 > |s| then None
        else Some((-1, s[pos + 2..pos + 2 + length], pos + 2 + length + 2))
  }

  function Decode(s: seq<byte>, version: nat): Option<Call> {
    match Procedure(s, version)
    case None => None
    case Some((procId, procName, pos)) =>
      match Params(s, pos)
      case None => None
      case Some(ps) => Some(Call(procId, procName, NamesOf(ps), ValuesOf(ps)))
  }

  /** The decoding constructor. */
  method ReadPacket(s: seq<byte>, version: nat) returns (r: Option<Call>)
    ensures r == Decode(s, version)
  {
    var procedure := Procedure(s, version);
    if procedure.None? {
      return None;
    }
    var (procId, procName, bufpos) := procedure.value;
    var names, values := [], [];
    ghost var seen: seq<Param> := [];
    PrependNone(Params(s, bufpos));
    while bufpos < |s|
      invariant Prepend(seen, Params(s, bufpos)) == Params(s, procedure.value.2)
      invariant names == NamesOf(seen) && values == ValuesOf(seen)
      decreases |s| - bufpos
    {
      var next := NextParam(s, bufpos);
      if next.None? {
        return None;
      }
      var (p, pos) := next.value;
      names := names + [p.name];
      if p.value.Some? {
        values := values + [p.value.value];
      }
      NamesSnoc(seen, p);
      PrependOne(seen, p, Params(s, pos));
      seen := seen + [p];
      bufpos := pos;
    }
    assert seen + [] == seen;
    return Some(Call(procId, procName, names, values));
  }

  ghost function Prepend(ps: seq<Param>, rest: Option<seq<Param>>): Option<seq<Param>> {
    if rest.None? then None else Some(ps + rest.value)
  }

  lemma PrependNone(rest: Option<seq<Param>>)
    ensures Prepend([], rest) == rest
  {
    if rest.Some? {
      assert [] + rest.value == rest.value;
    }
  }

  lemma PrependOne(ps: seq<Param>, p: Param, rest: Option<seq<Param>>)
    ensures Prepend(ps, Prepend([p], rest)) == Prepend(ps + [p], rest)
  {
    if rest.Some? {
      assert ps + ([p] + rest.value) == ps + [p] + rest.value;
    }
  }

  lemma {:induction false} NamesSnoc(ps: seq<Param>, p: Param)
    ensures NamesOf(ps + [p]) == NamesOf(ps) + [p.name]
    ensures ValuesOf(ps + [p]) == ValuesOf(ps) + (if p.value.Some? then [p.value.value] else [])
  {
    if ps == [] {
      assert [p][1..] == [] && ps + [p] == [p];
    } else {
      NamesSnoc(ps[1..], p);
      assert (ps + [p])[1..] == ps[1..] + [p] && (ps + [p])[0] == ps[0];
    }
  }

  // ----- what a client sends -----

  /** An nvarchar parameter: name, status, type 0xE7, its 7 bytes of type information, length, value. */
  datatype Sent = Sent(name: seq<byte>, status: byte, typeInfo: seq<byte>, value: seq<byte>)

  predicate Sendable(p: Sent) {
    |p.name| % 2 == 0 && |p.name| <= 510 && |p.typeInfo| == 7 && |p.value| < 0x1_0000
  }

  function EncodeParam(p: Sent): seq<byte> {
    LE(|p.name| / 2, 1) + p.name + ([p.status, 0xE7] + p.typeInfo + LE(|p.value|, 2)) + p.value
  }

  function EncodeParams(ps: seq<Sent>): seq<byte> {
    if ps == [] then [] else EncodeParam(ps[0]) + EncodeParams(ps[1..])
  }

  /** From 7.2 on a request starts with the ALL_HEADERS block. */
  function Head(headers: seq<byte>, version: nat): seq<byte> {
    if version >= TDS_7_2 then LE(|headers| + 4, 4) + headers else []
  }

  /** The request by procedure number. */
  function EncodeCall(headers: seq<byte>, procId: nat, flags: nat, ps: seq<Sent>, version: nat): seq<byte> {
    Head(headers, version)
    + (LE(0xFFFF, 2) + LE(procId, 2) + LE(flags, 2)) + EncodeParams(ps)
  }

  function ReceivedOf(ps: seq<Sent>): seq<Param> {
    if ps == [] then [] else [Param(ps[0].name, NVARCHAR, Some(ps[0].value))] + ReceivedOf(ps[1..])
  }

  lemma ParamRoundTrip(before: seq<byte>, p: Sent, after: seq<byte>)
    requires Sendable(p)
    ensures NextParam(before + EncodeParam(p) + after, |before|)
         == Some((Param(p.name, NVARCHAR, Some(p.value)), |before| + |EncodeParam(p)|))
  {
    hide LE, FromLE;
    var s := before + EncodeParam(p) + after;
    var count, fixed := LE(|p.name| / 2, 1), [p.status, 0xE7] + p.typeInfo + LE(|p.value|, 2);
    var n, at := |p.name|, |before|;
    assert EncodeParam(p) == count + p.name + fixed + p.value;
    Middle(before, EncodeParam(p), after);
    var e := s[at..at + |EncodeParam(p)|];
    assert e == count + p.name + fixed + p.value;
    ParamFields(p);
    SliceOfSlice(s, at, |e|, 0, 1);
    SliceOfSlice(s, at, |e|, 1, n);
    SliceOfSlice(s, at, |e|, n + 2, 1);
    SliceOfSlice(s, at, |e|, n + 10, 2);
    SliceOfSlice(s, at, |e|, n + 12, |p.value|);
    assert s[at] == s[at..at + 1][0];
    assert s[at + n + 2] == s[at + n + 2..at + n + 3][0];
  }

  /** Where the pieces of an encoded parameter lie. */
  lemma ParamFields(p: Sent)
    requires Sendable(p)
    ensures var e, n := EncodeParam(p), |p.name|;
            && |e| == n + 12 + |p.value|
            && e[0..1] == [n / 2] && e[1..1 + n] == p.name && e[n + 2..n + 3] == [NVARCHAR]
            && FromLE(e[n + 10..n + 12]) == |p.value| && e[n + 12..] == p.value
  {
    hide LE, FromLE;
    var e, n := EncodeParam(p), |p.name|;
    var count, fixed := LE(n / 2, 1), [p.status, 0xE7] + p.typeInfo + LE(|p.value|, 2);
    CountByte(n / 2);
    Middle(count, p.name, fixed + p.value);
    Assoc3(count, p.name, fixed, p.value);
    Middle(count + p.name, fixed, p.value);
    Cut(count + p.name + fixed, p.value);
    assert e[n + 1..n + 12] == fixed;
    FixedFields(p);
    SliceOfSlice(e, n + 1, 11, 1, 1);
    SliceOfSlice(e, n + 1, 11, 9, 2);
  }

  lemma CountByte(n: nat)
    requires n < 256
    ensures LE(n, 1) == [n]
  {
  }

  lemma FixedFields(p: Sent)
    requires Sendable(p)
    ensures var fixed := [p.status, 0xE7] + p.typeInfo + LE(|p.value|, 2);
            |fixed| == 11 && fixed[1..2] == [NVARCHAR] && FromLE(fixed[9..11]) == |p.value|
  {
    var fixed := [p.status, 0xE7] + p.typeInfo + LE(|p.value|, 2);
    assert fixed[9..11] == LE(|p.value|, 2);
    Widths();
    FitsExactly(|p.value|, 2);
  }

  lemma {:induction false} ParamsRoundTrip(before: seq<byte>, ps: seq<Sent>)
    requires forall p :: p in ps ==> Sendable(p)
    ensures Params(before + EncodeParams(ps), |before|) == Some(ReceivedOf(ps))
    decreases |ps|
  {
    if ps == [] {
      assert before + EncodeParams(ps) == before;
    } else {
      var e, rest := EncodeParam(ps[0]), EncodeParams(ps[1..]);
      Assoc(before, e, rest);
      ParamRoundTrip(before, ps[0], rest);
      ParamsRoundTrip(before + e, ps[1..]);
      ParamsStep(before + e + rest, |before|, Param(ps[0].name, NVARCHAR, Some(ps[0].value)), |before + e|);
    }
  }

  lemma ParamsStep(s: seq<byte>, pos: nat, p: Param, next: nat)
    requires pos < |s| && NextParam(s, pos) == Some((p, next)) && Params(s, next).Some?
    ensures Params(s, pos) == Some([p] + Params(s, next).value)
  {
  }

  /** Names and values come out pairwise aligned. */
  lemma {:induction false} ReceivedAligned(ps: seq<Sent>)
    ensures |NamesOf(ReceivedOf(ps))| == |ValuesOf(ReceivedOf(ps))| == |ps|
    ensures forall i :: 0 <= i < |ps| ==>
              NamesOf(ReceivedOf(ps))[i] == ps[i].name && ValuesOf(ReceivedOf(ps))[i] == ps[i].value
  {
    if ps != [] {
      ReceivedAligned(ps[1..]);
      assert ReceivedOf(ps)[1..] == ReceivedOf(ps[1..]);
    }
  }

  /**
   Decoding inverts encoding for every list of nvarchar parameters and both header
   versions: the same names and values, pairwise, and nothing beyond the message.
   */
  lemma CallRoundTrip(headers: seq<byte>, procId: nat, flags: nat, ps: seq<Sent>, version: nat)
    requires |headers| + 4 < 0x1_0000_0000 && procId < 0x1_0000
    requires forall p :: p in ps ==> Sendable(p)
    ensures Decode(EncodeCall(headers, procId, flags, ps, version), version)
         == Some(Call(procId, [], NamesOf(ReceivedOf(ps)), ValuesOf(ReceivedOf(ps))))
  {
    var fixed := LE(0xFFFF, 2) + LE(procId, 2) + LE(flags, 2);
    ProcedureRoundTrip(headers, procId, flags, EncodeParams(ps), version);
    ParamsRoundTrip(Head(headers, version) + fixed, ps);
  }

  /** Where the procedure starts. */
  lemma HeadRead(headers: seq<byte>, tail: seq<byte>, version: nat)
    requires |headers| + 4 < 0x1_0000_0000
    ensures version >= TDS_7_2 ==>
              var s := Head(headers, version) + tail;
              |s| >= 4 && FromLE(s[..4]) == |Head(headers, version)|
  {
    hide FromLE;
    if version >= TDS_7_2 {
      Widths();
      FitsExactly(|headers| + 4, 4);
      assert (Head(headers, version) + tail)[..4] == LE(|headers| + 4, 4);
    }
  }

  lemma ProcedureRoundTrip(headers: seq<byte>, procId: nat, flags: nat, tail: seq<byte>, version: nat)
    requires |headers| + 4 < 0x1_0000_0000 && procId < 0x1_0000
    ensures var head := Head(headers, version);
            Procedure(head + (LE(0xFFFF, 2) + LE(procId, 2) + LE(flags, 2)) + tail, version)
            == Some((procId, [], |head| + 6))
  {
    hide LE, FromLE;
    var head, fixed := Head(headers, version), LE(0xFFFF, 2) + LE(procId, 2) + LE(flags, 2);
    HeadRead(headers, fixed + tail, version);
    Assoc(head, fixed, tail);
    ProcedureFields(head, procId, flags, tail);
  }

  lemma ProcedureFields(head: seq<byte>, procId: nat, flags: nat, tail: seq<byte>)
    requires procId < 0x1_0000
    ensures var s, n := head + (LE(0xFFFF, 2) + LE(procId, 2) + LE(flags, 2)) + tail, |head|;
            FromLE(s[n..n + 2]) == 0xFFFF && FromLE(s[n + 2..n + 4]) == procId
  {
    var fixed := LE(0xFFFF, 2) + LE(procId, 2) + LE(flags, 2);
    var s, n := head + fixed + tail, |head|;
    Middle(head, fixed, tail);
    assert fixed[0..2] == LE(0xFFFF, 2) && fixed[2..4] == LE(procId, 2);
    SliceOfSlice(s, n, 6, 0, 2);
    SliceOfSlice(s, n, 6, 2, 2);
    Widths();
    FitsExactly(0xFFFF, 2);
    FitsExactly(procId, 2);
  }

  // ----- a call by name -----

  /** The request by procedure name: its count of characters, the name, the flags, the parameters. */
  function EncodeNamed(headers: seq<byte>, name: seq<byte>, flags: nat, ps: seq<Sent>, version: nat): seq<byte> {
    Head(headers, version) + (LE(|name| / 2, 2) + name + LE(flags, 2)) + EncodeParams(ps)
  }

  /** The count is taken for one of bytes: half of the name is read, and the parameters are sought in its other half. */
  lemma NamedProcedure(headers: seq<byte>, name: seq<byte>, flags: nat, tail: seq<byte>, version: nat)
    requires |headers| + 4 < 0x1_0000_0000 && |name| % 2 == 0 && |name| / 2 < 0xFFFF
    ensures var head := Head(headers, version);
            Procedure(head + (LE(|name| / 2, 2) + name + LE(flags, 2)) + tail, version)
            == Some((-1, name[..|name| / 2], |head| + |name| / 2 + 4))
  {
    hide LE, FromLE;
    var head, half := Head(headers, version), |name| / 2;
    var fixed := LE(half, 2) + name + LE(flags, 2);
    var s, n := head + fixed + tail, |head|;
    HeadRead(headers, fixed + tail, version);
    Assoc(head, fixed, tail);
    Middle(head, fixed, tail);
    assert fixed[0..2] == LE(half, 2) && fixed[2..2 + half] == name[..half];
    SliceOfSlice(s, n, |fixed|, 0, 2);
    SliceOfSlice(s, n, |fixed|, 2, half);
    Widths();
    FitsExactly(half, 2);
  }

  /** So a call by name is decoded as it was sent exactly when the name is empty. */
  lemma NamedExact(headers: seq<byte>, name: seq<byte>, flags: nat, ps: seq<Sent>, version: nat)
    requires |headers| + 4 < 0x1_0000_0000 && |name| % 2 == 0 && |name| / 2 < 0xFFFF
    requires forall p :: p in ps ==> Sendable(p)
    ensures Decode(EncodeNamed(headers, name, flags, ps, version), version)
         == Some(Call(-1, name, NamesOf(ReceivedOf(ps)), ValuesOf(ReceivedOf(ps))))
       <==> name == []
  {
    hide EncodeParams, Params, Procedure;
    var head, fixed := Head(headers, version), LE(|name| / 2, 2) + name + LE(flags, 2);
    NamedProcedure(headers, name, flags, EncodeParams(ps), version);
    if name == [] {
      ParamsRoundTrip(head + fixed, ps);
    } else {
      assert |name[..|name| / 2]| < |name|;
    }
  }

  // ----- any message at all -----

  /** Whatever the message, the lists are aligned exactly when every parameter is an nvarchar. */
  lemma {:induction false} AlignedExact(ps: seq<Param>)
    requires forall p :: p in ps ==> (p.value.Some? <==> p.paramType == NVARCHAR)
    ensures |NamesOf(ps)| == |ps| && |ValuesOf(ps)| <= |ps|
    ensures |ValuesOf(ps)| == |NamesOf(ps)| <==> forall p :: p in ps ==> p.paramType == NVARCHAR
  {
    if ps != [] {
      assert forall p :: p in ps[1..] ==> p in ps;
      AlignedExact(ps[1..]);
      assert forall p :: p in ps ==> p == ps[0] || p in ps[1..];
    }
  }

  lemma {:induction false} ParamsTyped(s: seq<byte>, pos: nat)
    requires Params(s, pos).Some?
    ensures forall p :: p in Params(s, pos).value ==> (p.value.Some? <==> p.paramType == NVARCHAR)
    decreases |s| - pos
  {
    if pos < |s| {
      ParamsTyped(s, NextParam(s, pos).value.1);
    }
  }
}
