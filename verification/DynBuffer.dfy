/**
 The growable byte buffer of tds/dynbuffer.cc.

 A root buffer owns its storage.  A child buffer writes straight into the free
 part of its parent's storage, behind the parent's own contents, and hands its
 bytes over when it is finalised.  `buf` and `off` together are the C++ pointer
 `buffer`: for a child it points into the parent's storage.
 */
module DynBuffer {
  import opened Bytes

  const POINTER_TYPE_NU16: int := 1

  /** The storage of a buffer that is not told a size. */
  const INITIAL_SIZE: nat := 1024

  /** The back-patched length field of add_length_nu16 and add_length_hu16. */
  datatype LengthField = NoLength | NU16(at: nat, delta: int) | HU16(at: nat, delta: int)

  /** A tail entry: data moved to the end, and where to put the pointer to it. */
  datatype Tail = Tail(at: nat, data: seq<byte>, delta: int)

  function Patch(s: seq<byte>, at: nat, bytes: seq<byte>): (r: seq<byte>)
    requires at + |bytes| <= |s|
    ensures |r| == |s|
    ensures r[at..at + |bytes|] == bytes
    ensures forall i :: 0 <= i < |s| && !(at <= i < at + |bytes|) ==> r[i] == s[i]
  {
    seq(|s|, i requires 0 <= i < |s| => if at <= i < at + |bytes| then bytes[i - at] else s[i])
  }

  lemma BlankField()
    ensures BE(0xFFFF, 2) == [0xFF, 0xFF]
  {
  }

  /** Filling a gap between two stretches of bytes. */
  lemma PatchGap(before: seq<byte>, gap: seq<byte>, bytes: seq<byte>, after: seq<byte>)
    requires |gap| == |before| + |bytes| && gap[..|before|] == before
    ensures Patch(gap + after, |before|, bytes) == before + (bytes + after)
  {
    var s := gap + after;
    assert s[..|before|] == before;
    assert s[|before| + |bytes|..] == after;
  }

  ghost predicate TailsIn(tails: seq<Tail>, n: nat) {
    forall i :: 0 <= i < |tails| ==> tails[i].at + 2 <= n
  }

  function TailSize(tails: seq<Tail>, i: nat): nat
    requires i <= |tails|
    decreases |tails| - i
  {
    if i == |tails| then 0 else |tails[i].data| + TailSize(tails, i + 1)
  }

  /** finalise(): append the tails from the i-th on in order, pointing each one's field at it. */
  ghost function AppendTails(s: seq<byte>, tails: seq<Tail>, i: nat): (r: seq<byte>)
    requires i <= |tails|
    ensures |r| == |s| + TailSize(tails, i)
    decreases |tails| - i
  {
    if i == |tails| then s else AppendTails(AppendTail(s, tails[i]), tails, i + 1)
  }

  /** (A pointer field is always inside the contents: TailsIn is part of Open.) */
  ghost function AppendTail(s: seq<byte>, tail: Tail): (r: seq<byte>)
    ensures |r| == |s| + |tail.data|
  {
    (if tail.at + 2 <= |s| then Patch(s, tail.at, BE((|s| + tail.delta) % 0x10000, 2)) else s) + tail.data
  }

  /** Each tail in turn fits into one doubling. */
  ghost predicate TailsFit(capacity: nat, used: nat, tails: seq<Tail>, i: nat)
    requires i <= |tails|
    decreases |tails| - i
  {
    i < |tails| ==>
      var n := |tails[i].data|;
      used + n <= 2 * capacity && TailsFit(Grow(capacity, used, n), used + n, tails, i + 1)
  }

  ghost predicate LengthIn(len: LengthField, n: nat) {
    len.NoLength? || len.at + 2 <= n
  }

  /** finalise(): fill in the length, a 16-bit value that wraps. */
  ghost function FillLength(s: seq<byte>, len: LengthField): (r: seq<byte>)
    requires LengthIn(len, |s|)
    ensures |r| == |s|
  {
    match len
    case NoLength => s
    case NU16(at, delta) => Patch(s, at, BE((|s| + delta) % 0x10000, 2))
    case HU16(at, delta) => Patch(s, at, LE((|s| + delta) % 0x10000, 2))
  }

  ghost function Seal(s: seq<byte>, tails: seq<Tail>, len: LengthField): (r: seq<byte>)
    requires LengthIn(len, |s|)
    ensures |r| == |s| + TailSize(tails, 0)
  {
    FillLength(AppendTails(s, tails, 0), len)
  }

  /**
   A text argument of add_cc1_ucs2 and add_cch2_ucs2: the number of bytes of its
   UTF-8 form, and the UCS-2 bytes that iconv makes of it.
   */
  datatype Text = Text(utf8Length: nat, ucs2: seq<byte>)

  ghost predicate IconvText(t: Text) {
    && |t.ucs2| % 2 == 0
    && |t.ucs2| <= 2 * t.utf8Length
  }

  /** make_room(): the capacity after a request for n more bytes behind `used`. */
  function Grow(capacity: nat, used: nat, n: nat): nat {
    if used + n <= capacity then capacity else 2 * capacity
  }

  /** The capacity after a counted text: room for `reserved` of the count bytes, then for the text if there is any. */
  function CountedGrow(capacity: nat, used: nat, width: nat, reserved: nat, utf8Length: nat): nat {
    var first := Grow(capacity, used, reserved);
    if utf8Length == 0 then first else Grow(first, used + width, 2 * utf8Length)
  }

  /** The capacity when the tails from the i-th on have been placed. */
  function TailsGrow(capacity: nat, used: nat, tails: seq<Tail>, i: nat): nat
    requires i <= |tails|
    decreases |tails| - i
  {
    if i == |tails| then capacity
    else TailsGrow(Grow(capacity, used, |tails[i].data|), used + |tails[i].data|, tails, i + 1)
  }

  // ----- scripts of adds -----

  /** One add of a client, in the order in which the source makes them. */
  datatype Add =
    | Bytes(bytes: seq<byte>)                 // add_u8 .. add_hu32, add_bytes
    | Cc1(text: Text)                         // add_cc1_ucs2
    | Cch2(text: Text)                        // add_cch2_ucs2
    | LengthNu16(delta: int)                  // add_length_nu16
    | LengthHu16(delta: int)                  // add_length_hu16
    | AtTail(bytes: seq<byte>, delta: int)    // add_bytes with a pointer

  function AddedBytes(a: Add): seq<byte> {
    match a
    case Bytes(bytes) => bytes
    case Cc1(text) => LE(|text.ucs2| / 2, 1) + text.ucs2
    case Cch2(text) => LE(|text.ucs2| / 2, 2) + text.ucs2
    case _ => [0xFF, 0xFF]
  }

  /** The capacity after the requests of an add. */
  function AddGrow(a: Add, capacity: nat, used: nat): nat {
    match a
    case Bytes(bytes) => Grow(capacity, used, |bytes|)
    case Cc1(text) => CountedGrow(capacity, used, 1, 1, text.utf8Length)
    case Cch2(text) => CountedGrow(capacity, used, 2, 1, text.utf8Length)
    case _ => Grow(capacity, used, 2)
  }

  /** What there is to see of a buffer; `used` counts from the start of the storage. */
  datatype Snapshot = Snapshot(contents: seq<byte>, capacity: nat, used: nat, tails: seq<Tail>, len: LengthField)

  /** A new child of a buffer with that much storage in use. */
  function ChildView(capacity: nat, used: nat): Snapshot {
    Snapshot([], capacity, used, [], NoLength)
  }

  function Do(a: Add, v: Snapshot): Snapshot {
    var at := |v.contents|;
    Snapshot(v.contents + AddedBytes(a),
         AddGrow(a, v.capacity, v.used),
         v.used + |AddedBytes(a)|,
         if a.AtTail? then v.tails + [Tail(at, a.bytes, a.delta)] else v.tails,
         match a case LengthNu16(delta) => NU16(at, delta) case LengthHu16(delta) => HU16(at, delta) case _ => v.len)
  }

  function DoAll(script: seq<Add>, v: Snapshot): Snapshot {
    if script == [] then v else DoAll(script[1..], Do(script[0], v))
  }

  /** The bytes of an add stay inside the storage that there is once it has asked for room. */
  ghost predicate Safe(a: Add, v: Snapshot) {
    && v.used + |AddedBytes(a)| <= AddGrow(a, v.capacity, v.used)
    && (a.Cc1? || a.Cch2? ==> IconvText(a.text))
  }

  /** An add that is safe fits into one doubling; a counted text satisfies its own condition. */
  lemma SafeRoom(a: Add, v: Snapshot)
    requires Safe(a, v)
    ensures !a.Cc1? && !a.Cch2? ==> v.used + |AddedBytes(a)| <= 2 * v.capacity
    ensures a.Cc1? ==> v.used + 1 + |a.text.ucs2| <= CountedGrow(v.capacity, v.used, 1, 1, a.text.utf8Length)
    ensures a.Cch2? ==> v.used + 2 + |a.text.ucs2| <= CountedGrow(v.capacity, v.used, 2, 1, a.text.utf8Length)
    ensures a.Cc1? || a.Cch2? ==> IconvText(a.text)
  {
  }

  /** Every add of the script is safe where its turn comes. */
  ghost predicate AllSafe(script: seq<Add>, v: Snapshot)
    decreases |script|
  {
    script != [] ==> Safe(script[0], v) && AllSafe(script[1..], Do(script[0], v))
  }

  function ScriptBytes(script: seq<Add>): seq<byte> {
    if script == [] then [] else AddedBytes(script[0]) + ScriptBytes(script[1..])
  }

  lemma DoNothing(v: Snapshot)
    ensures DoAll([], v) == v
  {
  }

  /** A script in two parts. */
  lemma {:induction false} DoJoin(a: seq<Add>, b: seq<Add>, v: Snapshot)
    ensures DoAll(a + b, v) == DoAll(b, DoAll(a, v))
    ensures AllSafe(a + b, v) <==> AllSafe(a, v) && AllSafe(b, DoAll(a, v))
    decreases |a|
  {
    if a == [] {
      assert a + b == b;
    } else {
      assert (a + b)[0] == a[0] && (a + b)[1..] == a[1..] + b;
      DoJoin(a[1..], b, Do(a[0], v));
    }
  }

  lemma {:induction false} DoAllContents(script: seq<Add>, v: Snapshot)
    ensures DoAll(script, v).contents == v.contents + ScriptBytes(script)
    ensures DoAll(script, v).used == v.used + |ScriptBytes(script)|
    decreases |script|
  {
    if script == [] {
      assert v.contents + [] == v.contents;
    } else {
      DoAllContents(script[1..], Do(script[0], v));
      Assoc(v.contents, AddedBytes(script[0]), ScriptBytes(script[1..]));
    }
  }

  class DynBuffer {
    const parent: DynBuffer?
    var buf: array<byte>
    var off: nat
    var size: nat
    var pos: nat
    var tails: seq<Tail>
    var len: LengthField
    var finalised: bool

    ghost function Parent(): set<DynBuffer> {
      if parent == null then {} else {parent}
    }

    /** The pointers are in order: a child points just behind its parent's contents. */
    ghost predicate Linked()
      reads this, parent
    {
      && (parent == null ==> off == 0 && size == buf.Length)
      && (parent != null ==>
            && parent != this && parent.parent == null
            && parent.off == 0 && parent.size == parent.buf.Length && parent.pos <= parent.size
            && buf == parent.buf && off == parent.pos)
    }

    /** Ready for writing. */
    ghost predicate Open()
      reads this, parent
    {
      && Linked()
      && off + pos <= buf.Length
      && TailsIn(tails, pos)
      && LengthIn(len, pos)
      && (parent != null ==> !finalised)
    }

    ghost function Contents(): seq<byte>
      reads this, buf
      requires off + pos <= buf.Length
    {
      buf[off..off + pos]
    }

    ghost function Look(): Snapshot
      reads this, buf
      requires off + pos <= buf.Length
    {
      Snapshot(Contents(), buf.Length, off + pos, tails, len)
    }

    ghost function Room(): int
      reads this, buf
    {
      buf.Length - off - pos
    }

    /** The request that one doubling can serve. */
    ghost predicate Fits(n: nat)
      reads this, buf
    {
      off + pos + n <= 2 * buf.Length
    }

    constructor (initialSize: nat)
      ensures Open() && parent == null && fresh(buf) && buf.Length == initialSize
      ensures Contents() == [] && tails == [] && len == NoLength && !finalised
    {
      parent := null;
      buf := new byte[initialSize];
      off, size, pos, tails, len, finalised := 0, initialSize, 0, [], NoLength, false;
    }

    constructor Child(parent: DynBuffer)
      requires parent.parent == null && parent.Open()
      ensures Open() && this.parent == parent && buf == parent.buf
      ensures Contents() == [] && tails == [] && len == NoLength && !finalised
    {
      this.parent := parent;
      buf := parent.buf;
      off := parent.pos;
      size, pos, tails, len, finalised := 0, 0, [], NoLength, false;
    }

    /**
     Doubles the storage once when the request does not fit.  A child asks its
     parent and then follows the parent's storage to wherever it went.
     */
    method MakeRoom(n: nat)
      requires Linked()
      modifies this`buf, this`off, this`size, Parent()`buf, Parent()`off, Parent()`size, buf
      ensures Linked() && (buf == old(buf) || fresh(buf)) && off == old(off)
      ensures buf.Length == Grow(old(buf.Length), old(off + pos), n)
      ensures buf[..old(buf.Length)] == old(buf[..])
      ensures Room() >= n <==> old(Fits(n))
      decreases if parent == null then 0 else 1
    {
      if parent != null {
        parent.MakeRoom(pos + n);
        buf := parent.buf;
        off := parent.pos;
        return;
      }
      if pos + n > size {
        var newBuf := new byte[2 * size];
        forall i | 0 <= i < size {
          newBuf[i] := buf[i];
        }
        size := 2 * size;
        buf := newBuf;
      }
    }

    method AddBytes(bytes: seq<byte>)
      requires Open() && Fits(|bytes|)
      modifies this`buf, this`off, this`size, this`pos, Parent()`buf, Parent()`off, Parent()`size, buf
      ensures Appended(bytes)
      ensures buf.Length == Grow(old(buf.Length), old(off + pos), |bytes|)
    {
      MakeRoom(|bytes|);
      assert buf[..off + pos] == old(buf[..off + pos]);
      PutBytes(bytes);
    }

    /** What every add promises: the bytes follow the old contents, and nothing in front of them moves. */
    twostate predicate Appended(bytes: seq<byte>)
      reads this, buf, parent
    {
      && old(off + pos <= buf.Length)
      && Steady()
      && Contents() == old(Contents()) + bytes
      && pos == old(pos) + |bytes|
    }

    /** Still writable, and nothing in front of this buffer's own bytes has moved. */
    twostate predicate Steady()
      reads this, buf, parent
    {
      && Open()
      && (buf == old(buf) || fresh(buf))
      && off == old(off) <= old(buf.Length) <= buf.Length
      && buf[..off] == old(buf[..off])
    }

    method AddU8(value: nat)
      requires Open() && Fits(1)
      modifies this`buf, this`off, this`size, this`pos, Parent()`buf, Parent()`off, Parent()`size, buf
      ensures Appended(LE(value, 1))
      ensures buf.Length == Grow(old(buf.Length), old(off + pos), 1)
    {
      AddBytes(LE(value, 1));
    }

    method AddHU16(value: nat)
      requires Open() && Fits(2)
      modifies this`buf, this`off, this`size, this`pos, Parent()`buf, Parent()`off, Parent()`size, buf
      ensures Appended(LE(value, 2))
      ensures buf.Length == Grow(old(buf.Length), old(off + pos), 2)
    {
      AddBytes(LE(value, 2));
    }

    method AddNU16(value: nat)
      requires Open() && Fits(2)
      modifies this`buf, this`off, this`size, this`pos, Parent()`buf, Parent()`off, Parent()`size, buf
      ensures Appended(BE(value, 2))
      ensures buf.Length == Grow(old(buf.Length), old(off + pos), 2)
    {
      AddBytes(BE(value, 2));
    }

    method AddHU32(value: nat)
      requires Open() && Fits(4)
      modifies this`buf, this`off, this`size, this`pos, Parent()`buf, Parent()`off, Parent()`size, buf
      ensures Appended(LE(value, 4))
      ensures buf.Length == Grow(old(buf.Length), old(off + pos), 4)
    {
      AddBytes(LE(value, 4));
    }

    method AddNU32(value: nat)
      requires Open() && Fits(4)
      modifies this`buf, this`off, this`size, this`pos, Parent()`buf, Parent()`off, Parent()`size, buf
      ensures Appended(BE(value, 4))
      ensures buf.Length == Grow(old(buf.Length), old(off + pos), 4)
    {
      AddBytes(BE(value, 4));
    }

    /** add_length_hu16: reserve a field that finalise() fills with the length plus `delta`. */
    method AddLengthHU16(delta: int)
      requires Open() && Fits(2)
      modifies this`len, this`buf, this`off, this`size, this`pos, Parent()`buf, Parent()`off, Parent()`size, buf
      ensures Appended([0xFF, 0xFF])
      ensures len == HU16(old(pos), delta)
      ensures buf.Length == Grow(old(buf.Length), old(off + pos), 2)
    {
      var at := pos;
      BlankField();
      AddNU16(0xFFFF);
      len := HU16(at, delta);
    }

    method AddLengthNU16(delta: int)
      requires Open() && Fits(2)
      modifies this`len, this`buf, this`off, this`size, this`pos, Parent()`buf, Parent()`off, Parent()`size, buf
      ensures Appended([0xFF, 0xFF])
      ensures len == NU16(old(pos), delta)
      ensures buf.Length == Grow(old(buf.Length), old(off + pos), 2)
    {
      var at := pos;
      BlankField();
      AddNU16(0xFFFF);
      len := NU16(at, delta);
    }

    /** add_bytes with a pointer: only the pointer is written now, the data waits for finalise(). */
    method AddBytesAtTail(bytes: seq<byte>, pointerType: int, delta: int) returns (ok: bool)
      requires Open() && Fits(2)
      modifies this`tails, this`buf, this`off, this`size, this`pos, Parent()`buf, Parent()`off, Parent()`size, buf
      ensures ok == (pointerType == POINTER_TYPE_NU16)
      ensures Appended(if ok then [0xFF, 0xFF] else [])
      ensures tails == old(tails) + (if ok then [Tail(old(pos), bytes, delta)] else [])
      ensures ok ==> buf.Length == Grow(old(buf.Length), old(off + pos), 2)
    {
      if pointerType != POINTER_TYPE_NU16 {
        return false;
      }
      var tail := Tail(pos, bytes, delta);
      AddBlankPointer();
      tails := tails + [tail];
      return true;
    }

    /** Room is asked for twice: by the caller's case, and by add_nu16 again. */
    method AddBlankPointer()
      requires Open() && Fits(2)
      modifies this`buf, this`off, this`size, this`pos, Parent()`buf, Parent()`off, Parent()`size, buf
      ensures Appended([0xFF, 0xFF])
      ensures buf.Length == Grow(old(buf.Length), old(off + pos), 2)
    {
      hide BE;
      BlankField();
      KeepRoom(2, off + pos);
      AddNU16(0xFFFF);
    }

    /**
     The exact condition under which a counted text stays inside the storage: the
     first request covers only `reserved` of the count bytes, and the text asks
     for room only when there is some.
     */
    ghost predicate CountedFits(width: nat, reserved: nat, text: Text)
      reads this, buf
    {
      off + pos + width + |text.ucs2| <= CountedGrow(buf.Length, off + pos, width, reserved, text.utf8Length)
    }

    /** add_cc1_ucs2: one count byte, then the text.  The count wraps at 256. */
    method AddCc1Ucs2(text: Text)
      requires Open() && IconvText(text) && CountedFits(1, 1, text)
      modifies this`buf, this`off, this`size, this`pos, Parent()`buf, Parent()`off, Parent()`size, buf
      ensures Appended(LE(|text.ucs2| / 2, 1) + text.ucs2)
      ensures buf.Length == CountedGrow(old(buf.Length), old(off + pos), 1, 1, text.utf8Length)
    {
      AddCounted(text, 1, 1);
    }

    /**
     add_cch2_ucs2: two count bytes, but only one byte of room is asked for them.
     With an empty text nothing asks for the second one.
     */
    method AddCch2Ucs2(text: Text)
      requires Open() && IconvText(text) && CountedFits(2, 1, text)
      modifies this`buf, this`off, this`size, this`pos, Parent()`buf, Parent()`off, Parent()`size, buf
      ensures Appended(LE(|text.ucs2| / 2, 2) + text.ucs2)
      ensures buf.Length == CountedGrow(old(buf.Length), old(off + pos), 2, 1, text.utf8Length)
    {
      AddCounted(text, 2, 1);
    }

    /**
     The common body of the two: `width` count bytes, of which `reserved` are asked
     for, and the text behind them; the count is written last.
     */
    method AddCounted(text: Text, width: nat, reserved: nat)
      requires Open() && IconvText(text) && 1 <= reserved <= width <= 2
      requires CountedFits(width, reserved, text)
      modifies this`buf, this`off, this`size, this`pos, Parent()`buf, Parent()`off, Parent()`size, buf
      ensures Appended(LE(|text.ucs2| / 2, width) + text.ucs2)
      ensures buf.Length == CountedGrow(old(buf.Length), old(off + pos), width, reserved, text.utf8Length)
    {
      hide CountedGrow, Grow, LE, IconvText;
      var at := pos;
      ghost var before := Contents();
      ReserveCounted(width, reserved, text.utf8Length, |text.ucs2|);
      assert Contents()[..at] == before;
      FillCounted(at, LE(|text.ucs2| / 2, width), text.ucs2);
    }

    /** The text behind the reserved count bytes, then the count itself. */
    method FillCounted(at: nat, count: seq<byte>, text: seq<byte>)
      requires Open() && pos == at + |count| && Room() >= |text|
      modifies this`pos, buf
      ensures Open() && Contents() == old(Contents()[..at]) + (count + text)
      ensures buf[..off] == old(buf[..off])
    {
      ghost var gap := Contents();
      PutBytes(text);
      WriteAt(at, count);
      PatchGap(gap[..at], gap, count, text);
    }

    /** The requests of a counted text; the count bytes are left unwritten. */
    method ReserveCounted(width: nat, reserved: nat, utf8Length: nat, ghost n: nat)
      requires Open()
      requires off + pos + width + n <= CountedGrow(buf.Length, off + pos, width, reserved, utf8Length)
      modifies this`buf, this`off, this`size, this`pos, Parent()`buf, Parent()`off, Parent()`size, buf
      ensures Steady()
      ensures pos == old(pos) + width && off + pos + n <= buf.Length
      ensures buf.Length == CountedGrow(old(buf.Length), old(off + pos), width, reserved, utf8Length)
      ensures buf[..off + old(pos)] == old(buf[..off + pos])
    {
      hide Grow;
      KeepRoom(reserved, off + pos);
      ghost var used := off + pos;
      pos := pos + width;
      if utf8Length > 0 {
        KeepRoom(2 * utf8Length, used);
      }
    }

    /** MakeRoom, for a writer that cares about the first `used` bytes of the storage. */
    method KeepRoom(n: nat, ghost used: nat)
      requires Linked() && used <= buf.Length
      modifies this`buf, this`off, this`size, Parent()`buf, Parent()`off, Parent()`size, buf
      ensures Linked() && (buf == old(buf) || fresh(buf)) && off == old(off)
      ensures buf.Length == Grow(old(buf.Length), old(off + pos), n)
      ensures used <= buf.Length && buf[..used] == old(buf[..used])
      ensures old(buf.Length) <= buf.Length && (old(Fits(n)) ==> Room() >= n)
    {
      ghost var before := buf[..];
      MakeRoom(n);
      assert buf[..used] == buf[..|before|][..used];
    }

    /** memcpy behind the contents, into room that is already there. */
    method PutBytes(bytes: seq<byte>)
      requires Open() && Room() >= |bytes|
      modifies this`pos, buf
      ensures Open() && Contents() == old(Contents()) + bytes
      ensures buf[..off] == old(buf[..off])
    {
      forall i | 0 <= i < |bytes| {
        buf[off + pos + i] := bytes[i];
      }
      pos := pos + |bytes|;
    }

    /**
     Any sequence of adds, with any number of reallocations in between, appends
     exactly the bytes of the adds and records their lengths and tails.
     */
    method Replay(script: seq<Add>)
      requires Open() && AllSafe(script, Look())
      modifies this`tails, this`len, this`buf, this`off, this`size, this`pos
      modifies Parent()`buf, Parent()`off, Parent()`size, buf
      ensures Steady()
      ensures Look() == DoAll(script, old(Look()))
    {
      hide Safe, Do;
      var i := 0;
      assert script[0..] == script;
      while i < |script|
        invariant i <= |script|
        invariant Steady()
        invariant AllSafe(script[i..], Look())
        invariant DoAll(script[i..], Look()) == DoAll(script, old(Look()))
      {
        assert script[i..][0] == script[i] && script[i..][1..] == script[i + 1..];
        Perform(script[i]);
        i := i + 1;
      }
    }

    method Perform(a: Add)
      requires Open() && Safe(a, Look())
      modifies this`tails, this`len, this`buf, this`off, this`size, this`pos
      modifies Parent()`buf, Parent()`off, Parent()`size, buf
      ensures Steady()
      ensures Look() == Do(a, old(Look()))
    {
      hide BE, LE, IconvText, Grow, CountedGrow, Safe;
      SafeRoom(a, Look());
      match a
      case Bytes(bytes) => AddBytes(bytes);
      case Cc1(text) => AddCc1Ucs2(text);
      case Cch2(text) => AddCch2Ucs2(text);
      case _ => PerformField(a);
    }

    /** The adds that leave a field to be filled in by finalise(). */
    method PerformField(a: Add)
      requires Open() && !a.Bytes? && !a.Cc1? && !a.Cch2? && Fits(2)
      modifies this`tails, this`len, this`buf, this`off, this`size, this`pos
      modifies Parent()`buf, Parent()`off, Parent()`size, buf
      ensures Steady()
      ensures Look() == Do(a, old(Look()))
    {
      hide Grow;
      match a
      case LengthNu16(delta) => AddLengthNU16(delta);
      case LengthHu16(delta) => AddLengthHU16(delta);
      case AtTail(bytes, delta) =>
        var ok := AddBytesAtTail(bytes, POINTER_TYPE_NU16, delta);
    }

    /** One round of the tail loop of finalise(). */
    method PlaceTail(tail: Tail)
      requires Open() && tail.at + 2 <= pos && Fits(|tail.data|)
      modifies this`buf, this`off, this`size, this`pos, Parent()`buf, Parent()`off, Parent()`size, buf
      ensures Steady()
      ensures Contents() == AppendTail(old(Contents()), tail)
      ensures buf.Length == Grow(old(buf.Length), old(off + pos), |tail.data|)
      ensures pos == old(pos) + |tail.data|
    {
      hide Patch, BE, Grow;
      KeepRoom(|tail.data|, off + pos);
      ghost var before := Contents();
      assert before == old(Contents());
      var pointer := BE((pos + tail.delta) % 0x10000, 2);
      assert AppendTail(before, tail) == Patch(before, tail.at, pointer) + tail.data;
      PutPointer(tail.at, pointer, tail.data);
    }

    method PutPointer(at: nat, pointer: seq<byte>, data: seq<byte>)
      requires Open() && at + |pointer| <= pos && Room() >= |data|
      modifies this`pos, buf
      ensures Open() && Contents() == Patch(old(Contents()), at, pointer) + data
      ensures buf[..off] == old(buf[..off])
    {
      WriteAt(at, pointer);
      PutBytes(data);
    }

    /** PUT_NU16 and friends: overwrite bytes inside the contents. */
    method WriteAt(at: nat, bytes: seq<byte>)
      requires Open() && at + |bytes| <= pos
      modifies buf
      ensures Open() && Contents() == Patch(old(Contents()), at, bytes)
      ensures buf[..off] == old(buf[..off])
    {
      forall i | 0 <= i < |bytes| {
        buf[off + at + i] := bytes[i];
      }
    }

    /**
     Places the tails, fills in the length and, for a child, lets the parent take
     over the bytes.  Only the first call does anything.
     */
    method Finalise()
      requires finalised || (Open() && TailsFit(buf.Length, off + pos, tails, 0))
      modifies this`finalised, Parent()`pos, this`buf, this`off, this`size, this`pos
      modifies Parent()`buf, Parent()`off, Parent()`size, buf
      ensures finalised
      ensures old(finalised) ==> unchanged(this) && unchanged(buf) && (parent != null ==> unchanged(parent))
      ensures !old(finalised) ==> Sealed(old(Seal(Contents(), tails, len)))
      ensures !old(finalised) ==> buf.Length == old(TailsGrow(buf.Length, off + pos, tails, 0))
      ensures !old(finalised) && parent == null ==> Open()
      ensures !old(finalised) && parent != null ==> TakenOver() && (old(parent.Open()) ==> parent.Open())
    {
      if !finalised {
        FinaliseOnce();
      }
    }

    method FinaliseOnce()
      requires !finalised && Open() && TailsFit(buf.Length, off + pos, tails, 0)
      modifies this`finalised, Parent()`pos, this`buf, this`off, this`size, this`pos
      modifies Parent()`buf, Parent()`off, Parent()`size, buf
      ensures finalised && Sealed(old(Seal(Contents(), tails, len)))
      ensures buf.Length == old(TailsGrow(buf.Length, off + pos, tails, 0))
      ensures parent == null ==> Open()
      ensures parent != null ==> TakenOver() && (old(parent.Open()) ==> parent.Open())
    {
      hide Seal, FillLength, AppendTails, TailsFit, TailsGrow, TailSize;
      SealContents();
      finalised := true;
      if parent != null {
        HandOver();
      }
    }

    /** After the first finalise(): the contents are sealed. */
    twostate predicate Sealed(sealed: seq<byte>)
      reads this, buf
    {
      && (buf == old(buf) || fresh(buf))
      && off == old(off) <= old(buf.Length) <= buf.Length
      && off + pos <= buf.Length
      && Contents() == sealed
    }

    /** After the first finalise() of a child: the parent ends with the child's bytes. */
    twostate predicate TakenOver()
      requires parent != null && off + pos <= buf.Length
      reads this, buf, parent, if parent == null then {} else {parent.buf}
    {
      && parent.buf == buf
      && old(parent.off + parent.pos <= parent.buf.Length)
      && parent.off + parent.pos <= parent.buf.Length
      && parent.Contents() == old(parent.Contents()) + Contents()
    }

    method SealContents()
      requires Open() && TailsFit(buf.Length, off + pos, tails, 0)
      modifies this`buf, this`off, this`size, this`pos, Parent()`buf, Parent()`off, Parent()`size, buf
      ensures Steady()
      ensures Contents() == old(Seal(Contents(), tails, len))
      ensures buf.Length == old(TailsGrow(buf.Length, off + pos, tails, 0))
    {
      PlaceTails();
      FillLengthField();
    }

    /** The parent takes over the bytes of its child. */
    method HandOver()
      requires parent != null && Linked() && off + pos <= buf.Length && parent.off == 0
      modifies parent`pos
      ensures parent.pos == old(parent.pos) + pos
      ensures parent.off + parent.pos <= parent.buf.Length
      ensures parent.Contents() == old(parent.Contents()) + Contents()
      ensures old(parent.Open()) ==> parent.Open()
    {
      parent.pos := parent.pos + pos;
    }

    method PlaceTails()
      requires Open() && TailsFit(buf.Length, off + pos, tails, 0)
      modifies this`buf, this`off, this`size, this`pos, Parent()`buf, Parent()`off, Parent()`size, buf
      ensures Steady()
      ensures Contents() == old(AppendTails(Contents(), tails, 0))
      ensures buf.Length == old(TailsGrow(buf.Length, off + pos, tails, 0))
    {
      hide AppendTail, Patch;
      var i := 0;
      while i < |tails|
        invariant i <= |tails|
        invariant Steady()
        invariant TailsFit(buf.Length, off + pos, tails, i)
        invariant AppendTails(Contents(), tails, i) == old(AppendTails(Contents(), tails, 0))
        invariant TailsGrow(buf.Length, off + pos, tails, i) == old(TailsGrow(buf.Length, off + pos, tails, 0))
      {
        ghost var capacity, used, n := buf.Length, off + pos, |tails[i].data|;
        assert TailsFit(Grow(capacity, used, n), used + n, tails, i + 1);
        PlaceTail(tails[i]);
        assert buf.Length == Grow(capacity, used, n) && off + pos == used + n;
        i := i + 1;
      }
    }

    method FillLengthField()
      requires Open()
      modifies buf
      ensures Open() && Contents() == old(FillLength(Contents(), len))
      ensures buf[..off] == old(buf[..off])
    {
      match len
      case NoLength =>
      case NU16(at, delta) => WriteAt(at, BE((pos + delta) % 0x10000, 2));
      case HU16(at, delta) => WriteAt(at, LE((pos + delta) % 0x10000, 2));
    }
  }

  /** The view of the root when a child has made its adds and been finalised. */
  ghost function AfterChild(script: seq<Add>, v: Snapshot): Snapshot
    requires var c := DoAll(script, ChildView(v.capacity, v.used)); LengthIn(c.len, |c.contents|)
  {
    var c := DoAll(script, ChildView(v.capacity, v.used));
    var sealed := Seal(c.contents, c.tails, c.len);
    Snapshot(v.contents + sealed, TailsGrow(c.capacity, c.used, c.tails, 0), v.used + |sealed|, v.tails, v.len)
  }

  /** The child's adds are safe, and so are its tails. */
  ghost predicate ChildSafe(script: seq<Add>, capacity: nat, used: nat) {
    var c := DoAll(script, ChildView(capacity, used));
    AllSafe(script, ChildView(capacity, used)) && TailsFit(c.capacity, c.used, c.tails, 0)
  }

  lemma {:induction false} LengthStaysIn(script: seq<Add>, v: Snapshot)
    requires LengthIn(v.len, |v.contents|)
    ensures LengthIn(DoAll(script, v).len, |DoAll(script, v).contents|)
    decreases |script|
  {
    if script != [] {
      LengthStaysIn(script[1..], Do(script[0], v));
    }
  }

  /**
   The life of a child on its root: any adds, lengths and tails that the storage can
   take, with any number of reallocations, then finalise() twice.  The root ends with its
   old contents and the child's sealed bytes, once.
   */
  method WriteThroughChild(root: DynBuffer, script: seq<Add>) returns (child: DynBuffer)
    requires root.parent == null && root.Open() && ChildSafe(script, root.buf.Length, root.pos)
    modifies root`buf, root`off, root`size, root`pos, root.buf
    ensures fresh(child) && child.parent == root && child.finalised
    ensures root.Open() && (root.buf == old(root.buf) || fresh(root.buf))
    ensures var c := DoAll(script, ChildView(old(root.buf.Length), old(root.pos))); LengthIn(c.len, |c.contents|)
    ensures root.Look() == AfterChild(script, old(root.Look()))
  {
    hide AllSafe, DoAll, Seal, TailsFit, TailsGrow;
    child := new DynBuffer.Child(root);
    assert child.Look() == ChildView(root.buf.Length, root.pos);
    LengthStaysIn(script, child.Look());
    child.Replay(script);
    assert root.Open() && root.Contents() == old(root.Contents());
    FinaliseTwice(child, root);
  }

  method FinaliseTwice(child: DynBuffer, root: DynBuffer)
    requires child.parent == root && child.Open() && !child.finalised && root.Open()
    requires TailsFit(child.buf.Length, child.off + child.pos, child.tails, 0)
    modifies child`finalised, child`buf, child`off, child`size, child`pos
    modifies root`buf, root`off, root`size, root`pos, root.buf
    ensures child.finalised && root.Open() && (root.buf == old(root.buf) || fresh(root.buf))
    ensures root.Contents() == old(root.Contents() + Seal(child.Contents(), child.tails, child.len))
    ensures root.buf.Length == old(TailsGrow(child.buf.Length, child.off + child.pos, child.tails, 0))
  {
    hide Seal, TailsFit, TailsGrow;
    child.Finalise();
    child.Finalise();
  }
}
