/**
 tds/tdspacket_prelogin.cc: the option table of a PRELOGIN message, written through
 tail pointers, and the loop that reads one (section 2.2.6.5 of MS-TDS).
 */
module Prelogin {
  import opened Bytes
  import opened DynBuffer
  import opened Options

  const VERSION: byte := 0
  const ENCRYPTION: byte := 1
  const INSTANCE: byte := 2
  const THREADID: byte := 3
  const MARS: byte := 4
  const TERMINATOR: byte := 0xFF

  /** An option: its token and the bytes it stands for. */
  datatype Entry = Entry(id: byte, data: seq<byte>)

  /** The options that have been set. */
  datatype Fields = Fields(
    version: Option<seq<byte>>, encryption: Option<byte>, instance: Option<byte>, threadid: bool, mars: Option<byte>)

  predicate ValidFields(f: Fields) {
    f.version.Some? ==> |f.version.value| == 6
  }

  function OptionByte(id: byte, o: Option<byte>): seq<Entry> {
    if o.Some? then [Entry(id, [o.value])] else []
  }

  /** The options in the order in which they are written; THREADID is always sent empty. */
  function Entries(f: Fields): seq<Entry> {
    (if f.version.Some? then [Entry(VERSION, f.version.value)] else [])
    + OptionByte(ENCRYPTION, f.encryption)
    + OptionByte(INSTANCE, f.instance)
    + (if f.threadid then [Entry(THREADID, [])] else [])
    + OptionByte(MARS, f.mars)
  }

  // ----- before finalise(): blank pointers, waiting tails -----

  function RawEntry(e: Entry): (r: seq<byte>)
    ensures |r| == 5
  {
    [e.id] + [0xFF, 0xFF] + BE(|e.data|, 2)
  }

  function RawEntries(es: seq<Entry>): (r: seq<byte>)
    ensures |r| == 5 * |es|
  {
    if es == [] then [] else RawEntry(es[0]) + RawEntries(es[1..])
  }

  /** The whole raw table. */
  function RawTable(es: seq<Entry>): (r: seq<byte>)
    ensures |r| == 5 * |es| + 1
  {
    if es == [] then [TERMINATOR] else RawEntry(es[0]) + RawTable(es[1..])
  }

  lemma {:induction false} RawTableEnds(es: seq<Entry>)
    ensures RawTable(es) == RawEntries(es) + [TERMINATOR]
  {
    if es != [] {
      RawTableEnds(es[1..]);
      Assoc(RawEntry(es[0]), RawEntries(es[1..]), [TERMINATOR]);
    }
  }

  /** The tails of entries whose first pointer field is at `at`. */
  function TailsOf(es: seq<Entry>, at: nat): (r: seq<Tail>)
    ensures |r| == |es|
    ensures forall i :: 0 <= i < |r| ==> r[i] == Tail(at + 5 * i, es[i].data, 0)
  {
    if es == [] then [] else [Tail(at, es[0].data, 0)] + TailsOf(es[1..], at + 5)
  }

  // ----- after finalise(): every pointer at its own data -----

  function DataSize(es: seq<Entry>): nat {
    if es == [] then 0 else |es[0].data| + DataSize(es[1..])
  }

  function DataArea(es: seq<Entry>): (r: seq<byte>)
    ensures |r| == DataSize(es)
  {
    if es == [] then [] else es[0].data + DataArea(es[1..])
  }

  function DirectoryEntry(e: Entry, offset: nat): (r: seq<byte>)
    ensures |r| == 5
  {
    [e.id] + BE(offset % 0x1_0000, 2) + BE(|e.data|, 2)
  }

  /** The directory and its terminator. */
  function Directory(es: seq<Entry>, offset: nat): (r: seq<byte>)
    ensures |r| == 5 * |es| + 1
  {
    if es == [] then [TERMINATOR] else DirectoryEntry(es[0], offset) + Directory(es[1..], offset + |es[0].data|)
  }

  function Finished(es: seq<Entry>): seq<byte> {
    Directory(es, 5 * |es| + 1) + DataArea(es)
  }

  /** One tail placed: the next blank pointer is filled in, and its data goes to the end. */
  lemma PlaceOne(front: seq<byte>, e: Entry, raw: seq<byte>, data: seq<byte>)
    ensures var s := front + (RawEntry(e) + raw) + data;
            AppendTail(s, Tail(|front| + 1, e.data, 0))
            == (front + DirectoryEntry(e, |s|)) + raw + (data + e.data)
  {
    var s := front + (RawEntry(e) + raw) + data;
    var pointer := BE(|s| % 0x1_0000, 2);
    var patched := Patch(s, |front| + 1, pointer);
    var goal := (front + DirectoryEntry(e, |s|)) + raw + data;
    assert |patched| == |goal|;
    forall i | 0 <= i < |s|
      ensures patched[i] == goal[i]
    {
      if |front| + 1 <= i < |front| + 3 {
        assert patched[|front| + 1..|front| + 3][i - |front| - 1] == pointer[i - |front| - 1];
      }
    }
    assert patched == goal;
    Assoc((front + DirectoryEntry(e, |s|)) + raw, data, e.data);
  }

  /** From the i-th on, the tails are those of the entries whose first pointer field is at `at`. */
  ghost predicate Awaiting(tails: seq<Tail>, i: nat, es: seq<Entry>, at: nat) {
    && |tails| == i + |es|
    && forall k :: i <= k < |tails| ==> tails[k] == Tail(at + 5 * (k - i), es[k - i].data, 0)
  }

  lemma AwaitingNext(tails: seq<Tail>, i: nat, es: seq<Entry>, at: nat)
    requires es != [] && Awaiting(tails, i, es, at)
    ensures tails[i] == Tail(at, es[0].data, 0)
    ensures Awaiting(tails, i + 1, es[1..], at + 5)
  {
  }

  /** A half-finished table: `front` is done and `data` is already at the end. */
  ghost function HalfWay(front: seq<byte>, es: seq<Entry>, data: seq<byte>): (s: seq<byte>)
    ensures |s| == |front| + 5 * |es| + 1 + |data|
  {
    front + RawTable(es) + data
  }

  /** What it is to become, when the next data goes to `offset`. */
  ghost function AllTheWay(front: seq<byte>, es: seq<Entry>, data: seq<byte>, offset: nat): seq<byte> {
    front + Directory(es, offset) + (data + DataArea(es))
  }

  /** The half-finished table after all remaining entries have been placed one by one. */
  ghost function PlacedAll(front: seq<byte>, es: seq<Entry>, data: seq<byte>): seq<byte>
    decreases |es|
  {
    var s := HalfWay(front, es, data);
    if es == [] then s else PlacedAll(front + DirectoryEntry(es[0], |s|), es[1..], data + es[0].data)
  }

  /** From any half-finished state, the remaining tails are placed entry by entry. */
  lemma {:induction false} PlaceAll(front: seq<byte>, es: seq<Entry>, data: seq<byte>, tails: seq<Tail>, i: nat)
    requires Awaiting(tails, i, es, |front| + 1)
    ensures AppendTails(HalfWay(front, es, data), tails, i) == PlacedAll(front, es, data)
    decreases |es|
  {
    if es != [] {
      var entry := DirectoryEntry(es[0], |HalfWay(front, es, data)|);
      PlaceStep(front, es, data, tails, i);
      AwaitingNext(tails, i, es, |front| + 1);
      PlaceAll(front + entry, es[1..], data + es[0].data, tails, i + 1);
    }
  }

  /** That completes the directory and the data area. */
  lemma {:induction false} PlacedAllCompletes(front: seq<byte>, es: seq<Entry>, data: seq<byte>)
    ensures PlacedAll(front, es, data) == AllTheWay(front, es, data, |HalfWay(front, es, data)|)
    decreases |es|
  {
    if es == [] {
      PlaceNone(front, data);
    } else {
      var offset := |HalfWay(front, es, data)|;
      PlacedAllCompletes(front + DirectoryEntry(es[0], offset), es[1..], data + es[0].data);
      AllTheWayStep(front, es, data, offset);
    }
  }

  lemma PlaceNone(front: seq<byte>, data: seq<byte>)
    ensures AllTheWay(front, [], data, |HalfWay(front, [], data)|) == HalfWay(front, [], data)
  {
    assert data + DataArea([]) == data;
  }

  lemma PlaceStep(front: seq<byte>, es: seq<Entry>, data: seq<byte>, tails: seq<Tail>, i: nat)
    requires es != [] && Awaiting(tails, i, es, |front| + 1)
    ensures var s := HalfWay(front, es, data);
            var next := HalfWay(front + DirectoryEntry(es[0], |s|), es[1..], data + es[0].data);
            AppendTails(s, tails, i) == AppendTails(next, tails, i + 1)
  {
    AwaitingNext(tails, i, es, |front| + 1);
    PlaceOne(front, es[0], RawTable(es[1..]), data);
  }

  lemma AllTheWayStep(front: seq<byte>, es: seq<Entry>, data: seq<byte>, offset: nat)
    requires es != []
    ensures AllTheWay(front, es, data, offset)
         == AllTheWay(front + DirectoryEntry(es[0], offset), es[1..], data + es[0].data, offset + |es[0].data|)
  {
    var rest, e := es[1..], es[0];
    Assoc(front, DirectoryEntry(e, offset), Directory(rest, offset + |e.data|));
    Assoc(data, e.data, DataArea(rest));
  }

  /**
   Tail pointers are right for every list of options: finalising the raw table gives
   the directory whose offsets run through the data area that follows it.
   */
  lemma TailsComplete(es: seq<Entry>)
    ensures Seal(RawTable(es), TailsOf(es, 1), NoLength) == Finished(es)
  {
    hide RawTable, Finished, HalfWay, AllTheWay, PlacedAll, AppendTails;
    PlaceAll([], es, [], TailsOf(es, 1), 0);
    PlacedAllCompletes([], es, []);
    WayStarts(es);
    WayEnds(es);
  }

  lemma WayStarts(es: seq<Entry>)
    ensures HalfWay([], es, []) == RawTable(es)
  {
    hide RawTable;
  }

  lemma WayEnds(es: seq<Entry>)
    ensures AllTheWay([], es, [], 5 * |es| + 1) == Finished(es)
  {
    hide Directory, DataArea;
    assert [] + DataArea(es) == DataArea(es);
    assert [] + Directory(es, 5 * |es| + 1) == Directory(es, 5 * |es| + 1);
  }

  // ----- where things are in the finished table -----

  function OffsetOf(es: seq<Entry>, i: nat): nat
    requires i <= |es|
  {
    5 * |es| + 1 + DataSize(es[..i])
  }

  lemma SliceAfter(a: seq<byte>, b: seq<byte>, at: nat, n: nat)
    requires at + n <= |b|
    ensures (a + b)[|a| + at..|a| + at + n] == b[at..at + n]
  {
  }

  lemma SliceBefore(a: seq<byte>, b: seq<byte>, at: nat, n: nat)
    requires at + n <= |a|
    ensures (a + b)[at..at + n] == a[at..at + n]
  {
  }

  lemma {:induction false} DirectoryEnds(es: seq<Entry>, offset: nat)
    ensures Directory(es, offset)[5 * |es|] == TERMINATOR
  {
    if es != [] {
      DirectoryEnds(es[1..], offset + |es[0].data|);
    }
  }

  lemma {:induction false} DirectoryAt(es: seq<Entry>, offset: nat, i: nat)
    requires i < |es|
    ensures Directory(es, offset)[5 * i..5 * i + 5] == DirectoryEntry(es[i], offset + DataSize(es[..i]))
  {
    var entry, tail := DirectoryEntry(es[0], offset), Directory(es[1..], offset + |es[0].data|);
    if i == 0 {
      assert (entry + tail)[0..5] == entry;
    } else {
      DirectoryAt(es[1..], offset + |es[0].data|, i - 1);
      assert es[..i][1..] == es[1..][..i - 1];
      SliceAfter(entry, tail, 5 * (i - 1), 5);
    }
  }

  lemma {:induction false} DataWithin(es: seq<Entry>, i: nat)
    requires i < |es|
    ensures DataSize(es[..i]) + |es[i].data| <= DataSize(es)
  {
    if i > 0 {
      DataWithin(es[1..], i - 1);
      assert es[..i][1..] == es[1..][..i - 1];
    }
  }

  lemma DataAreaStep(es: seq<Entry>)
    requires es != []
    ensures DataArea(es) == es[0].data + DataArea(es[1..])
  {
  }

  lemma {:induction false} DataAt(es: seq<Entry>, i: nat)
    requires i < |es| && DataSize(es[..i]) + |es[i].data| <= DataSize(es)
    ensures DataArea(es)[DataSize(es[..i])..DataSize(es[..i]) + |es[i].data|] == es[i].data
  {
    hide DataArea;
    var rest := DataArea(es[1..]);
    assert DataArea(es) == es[0].data + rest by { DataAreaStep(es); }
    if i == 0 {
      SliceBefore(es[0].data, rest, 0, |es[0].data|);
    } else {
      assert es[..i][1..] == es[1..][..i - 1];
      DataAt(es[1..], i - 1);
      SliceAfter(es[0].data, rest, DataSize(es[1..][..i - 1]), |es[i].data|);
    }
  }

  /** Each entry carries its own token, length and the offset of its own bytes, inside the message. */
  lemma EntryAt(es: seq<Entry>, i: nat)
    requires i < |es| && |Finished(es)| < 0x1_0000
    ensures var s, offset, n := Finished(es), OffsetOf(es, i), |es[i].data|;
            && s[5 * i] == es[i].id
            && FromBE(s[5 * i + 1..5 * i + 3]) == offset
            && FromBE(s[5 * i + 3..5 * i + 5]) == n
            && 5 * |es| < offset && offset + n <= |s|
            && s[offset..offset + n] == es[i].data
  {
    var offset, n := OffsetOf(es, i), |es[i].data|;
    var base := 5 * |es| + 1;
    DirectoryAt(es, base, i);
    DataWithin(es, i);
    DataAt(es, i);
    DirectoryPart(es, 5 * i);
    DataPart(es, offset, offset - base, n);
    EntryFields(es[i], offset);
    var entry := DirectoryEntry(es[i], offset);
    assert Finished(es)[5 * i..5 * i + 5] == entry;
    SliceOfSlice(Finished(es), 5 * i, 5, 1, 2);
    SliceOfSlice(Finished(es), 5 * i, 5, 3, 2);
  }

  lemma DirectoryPart(es: seq<Entry>, at: nat)
    requires at + 5 <= 5 * |es|
    ensures Finished(es)[at..at + 5] == Directory(es, 5 * |es| + 1)[at..at + 5]
  {
    SliceBefore(Directory(es, 5 * |es| + 1), DataArea(es), at, 5);
  }

  lemma FinishedParts(es: seq<Entry>)
    ensures Finished(es) == Directory(es, 5 * |es| + 1) + DataArea(es)
  {
  }

  lemma DataPart(es: seq<Entry>, from: nat, at: nat, n: nat)
    requires at + n <= DataSize(es) && from == 5 * |es| + 1 + at
    ensures from + n <= |Finished(es)| && Finished(es)[from..from + n] == DataArea(es)[at..at + n]
  {
    hide Directory, DataArea, DataSize, Finished;
    FinishedParts(es);
    SliceFrom(Finished(es), Directory(es, 5 * |es| + 1), DataArea(es), from, at, n);
  }

  lemma SliceFrom(s: seq<byte>, a: seq<byte>, b: seq<byte>, from: nat, at: nat, n: nat)
    requires s == a + b && from == |a| + at && at + n <= |b|
    ensures s[from..from + n] == b[at..at + n]
  {
    SliceAfter(a, b, at, n);
  }

  lemma EntryFields(e: Entry, offset: nat)
    requires offset < 0x1_0000 && |e.data| < 0x1_0000
    ensures var s := DirectoryEntry(e, offset);
            s[0] == e.id && FromBE(s[1..3]) == offset && FromBE(s[3..5]) == |e.data|
  {
    var s := DirectoryEntry(e, offset);
    assert s[1..3] == BE(offset % 0x1_0000, 2) && s[3..5] == BE(|e.data|, 2);
    Widths();
    ModUnique(offset, 0x1_0000, 0, offset);
    RoundTrip(offset, 2);
    RoundTrip(|e.data|, 2);
  }

  /** The data areas follow one another without gap or overlap and fill the rest of the message. */
  lemma AreasTile(es: seq<Entry>, i: nat)
    requires i < |es|
    ensures OffsetOf(es, 0) == 5 * |es| + 1
    ensures OffsetOf(es, i + 1) == OffsetOf(es, i) + |es[i].data|
    ensures OffsetOf(es, |es|) == |Finished(es)|
  {
    assert es[..|es|] == es && es[..0] == [];
    DataSizeSnoc(es[..i], es[i]);
    assert es[..i + 1] == es[..i] + [es[i]];
  }

  lemma {:induction false} DataSizeSnoc(es: seq<Entry>, e: Entry)
    ensures DataSize(es + [e]) == DataSize(es) + |e.data|
  {
    if es == [] {
      assert [e][1..] == [] && [] + [e] == [e];
    } else {
      DataSizeSnoc(es[1..], e);
      assert (es + [e])[1..] == es[1..] + [e];
    }
  }

  // ----- the writer -----

  lemma {:induction false} RawSnoc(es: seq<Entry>, e: Entry)
    ensures RawEntries(es + [e]) == RawEntries(es) + RawEntry(e)
    ensures TailsOf(es + [e], 1) == TailsOf(es, 1) + [Tail(5 * |es| + 1, e.data, 0)]
  {
    hide RawEntry, TailsOf;
    if es == [] {
      assert [] + [e] == [e] && [e][1..] == [];
    } else {
      RawSnoc(es[1..], e);
      assert (es + [e])[1..] == es[1..] + [e];
      Assoc(RawEntry(es[0]), RawEntries(es[1..]), RawEntry(e));
    }
  }

  /** The buffer holds the raw table of `es`. */
  ghost predicate Holds(b: DynBuffer, es: seq<Entry>)
    reads b, b.parent, b.buf
  {
    && b.Open() && 6 <= b.buf.Length
    && b.Contents() == RawEntries(es) && b.tails == TailsOf(es, 1)
  }

  method AddOption(b: DynBuffer, id: byte, data: seq<byte>, ghost es: seq<Entry>)
    requires Holds(b, es)
    modifies b`tails, b`buf, b`off, b`size, b`pos, b.Parent()`buf, b.Parent()`off, b.Parent()`size, b.buf
    ensures Holds(b, es + [Entry(id, data)]) && (b.buf == old(b.buf) || fresh(b.buf))
  {
    ghost var start, blank: seq<byte> := b.Contents(), [0xFF, 0xFF];
    RawSnoc(es, Entry(id, data));
    AddPointer(b, id, data);
    b.AddNU16(|data|);
    Assoc(start, [id] + blank, BE(|data|, 2));
  }

  method AddPointer(b: DynBuffer, id: byte, data: seq<byte>)
    requires b.Open() && 6 <= b.buf.Length
    modifies b`tails, b`buf, b`off, b`size, b`pos, b.Parent()`buf, b.Parent()`off, b.Parent()`size, b.buf
    ensures b.Appended([id] + [0xFF, 0xFF])
    ensures b.tails == old(b.tails) + [Tail(old(b.pos) + 1, data, 0)]
  {
    ghost var start, blank: seq<byte> := b.Contents(), [0xFF, 0xFF];
    Assoc(start, [id], blank);
    b.AddBytes([id]);
    var _ := b.AddBytesAtTail(data, POINTER_TYPE_NU16, 0);
  }

  method AddEmptyOption(b: DynBuffer, id: byte, present: bool, ghost es: seq<Entry>)
    requires Holds(b, es)
    modifies b`tails, b`buf, b`off, b`size, b`pos, b.Parent()`buf, b.Parent()`off, b.Parent()`size, b.buf
    ensures Holds(b, es + if present then [Entry(id, [])] else []) && (b.buf == old(b.buf) || fresh(b.buf))
  {
    assert es + [] == es;
    if present {
      AddOption(b, id, [], es);
    }
  }

  method AddByteOption(b: DynBuffer, id: byte, value: Option<byte>, ghost es: seq<Entry>)
    requires Holds(b, es)
    modifies b`tails, b`buf, b`off, b`size, b`pos, b.Parent()`buf, b.Parent()`off, b.Parent()`size, b.buf
    ensures Holds(b, es + OptionByte(id, value)) && (b.buf == old(b.buf) || fresh(b.buf))
  {
    assert es + [] == es;
    if value.Some? {
      AddOption(b, id, [value.value], es);
    }
  }

  /** tdspacket_prelogin::writepacket, followed by the finalise() of its caller. */
  method WritePacket(b: DynBuffer, f: Fields)
    requires ValidFields(f)
    requires b.parent == null && b.Open() && 6 <= b.buf.Length && !b.finalised
    requires b.pos == 0 && b.tails == [] && b.len == NoLength
    modifies b`finalised, b`tails, b`buf, b`off, b`size, b`pos, b.Parent()`buf, b.Parent()`off, b.Parent()`size, b.buf
    ensures b.Open() && b.Contents() == Finished(Entries(f))
  {
    hide RawTable, TailsOf, Seal, Finished, Entries, TailsFit, ValidFields;
    ghost var es := Entries(f);
    WriteRaw(b, f);
    TailsComplete(es);
    EntriesWellFormed(f);
    SmallTails(es, b.buf.Length, b.off + b.pos, 0);
    assert Seal(b.Contents(), b.tails, b.len) == Finished(es);
    b.Finalise();
  }

  /** The packet as writepacket() itself leaves it. */
  method WriteRaw(b: DynBuffer, f: Fields)
    requires ValidFields(f) && Holds(b, [])
    modifies b`tails, b`buf, b`off, b`size, b`pos, b.Parent()`buf, b.Parent()`off, b.Parent()`size, b.buf
    ensures b.Open() && 6 <= b.buf.Length && (b.buf == old(b.buf) || fresh(b.buf))
    ensures b.Contents() == RawTable(Entries(f)) && b.tails == TailsOf(Entries(f), 1)
  {
    WriteTable(b, f);
    RawTableEnds(Entries(f));
    b.AddBytes([TERMINATOR]);
  }

  method WriteTable(b: DynBuffer, f: Fields)
    requires ValidFields(f) && Holds(b, [])
    modifies b`tails, b`buf, b`off, b`size, b`pos, b.Parent()`buf, b.Parent()`off, b.Parent()`size, b.buf
    ensures Holds(b, Entries(f)) && (b.buf == old(b.buf) || fresh(b.buf))
  {
    ghost var v := if f.version.Some? then [Entry(VERSION, f.version.value)] else [];
    ghost var e, i := OptionByte(ENCRYPTION, f.encryption), OptionByte(INSTANCE, f.instance);
    ghost var t := if f.threadid then [Entry(THREADID, [])] else [];
    assert [] + v == v;
    if f.version.Some? {
      AddOption(b, VERSION, f.version.value, []);
    }
    AddByteOption(b, ENCRYPTION, f.encryption, v);
    AddByteOption(b, INSTANCE, f.instance, v + e);
    AddEmptyOption(b, THREADID, f.threadid, v + e + i);
    AddByteOption(b, MARS, f.mars, v + e + i + t);
  }

  lemma {:induction false} SmallTails(es: seq<Entry>, capacity: nat, used: nat, i: nat)
    requires i <= |es| && used <= capacity && 6 <= capacity
    requires forall k :: 0 <= k < |es| ==> |es[k].data| <= 6
    ensures TailsFit(capacity, used, TailsOf(es, 1), i)
    decreases |es| - i
  {
    if i < |es| {
      var n := |es[i].data|;
      SmallTails(es, Grow(capacity, used, n), used + n, i + 1);
    }
  }

  // ----- the reader -----

  /** What the reader keeps; INSTANCE and THREADID are not part of the model of the reader. */
  datatype View = View(version: Option<seq<byte>>, encryption: Option<byte>, mars: Option<byte>)

  /** One option: None when the reader would look outside the message. */
  function ReadOption(s: seq<byte>, id: byte, offset: nat, v: View): Option<View> {
    if id == VERSION then
      if offset + 6 > |s| then None else Some(v.(version := Some(s[offset..offset + 6])))
    else if id == ENCRYPTION then
      if offset >= |s| then None else Some(v.(encryption := Some(s[offset])))
    else if id == MARS then
      if offset >= |s| then None else Some(v.(mars := Some(s[offset])))
    else Some(v)
  }

  function ReadFrom(s: seq<byte>, i: nat, v: View): Option<View>
    decreases 32 - i
  {
    if i >= 32 then Some(v)
    else if 5 * i >= |s| then None
    else if s[5 * i] == TERMINATOR then Some(v)
    else if 5 * i + 3 > |s| then None
    else
      match ReadOption(s, s[5 * i], FromBE(s[5 * i + 1..5 * i + 3]), v)
      case None => None
      case Some(v') => ReadFrom(s, i + 1, v')
  }

  const EMPTY_VIEW := View(None, None, None)

  /** The reading constructor. */
  method ReadPacket(s: seq<byte>) returns (r: Option<View>)
    ensures r == ReadFrom(s, 0, EMPTY_VIEW)
  {
    var v, i := EMPTY_VIEW, 0;
    while i < 32
      invariant 0 <= i <= 32
      invariant ReadFrom(s, i, v) == ReadFrom(s, 0, EMPTY_VIEW)
    {
      if 5 * i >= |s| {
        return None;
      }
      var id := s[5 * i];
      if id == TERMINATOR {
        break;
      }
      if 5 * i + 3 > |s| {
        return None;
      }
      var next := ReadOption(s, id, FromBE(s[5 * i + 1..5 * i + 3]), v);
      if next.None? {
        return None;
      }
      v := next.value;
      i := i + 1;
    }
    return Some(v);
  }

  /** What reading an entry adds to the view. */
  function Seen(v: View, e: Entry): View {
    if e.id == VERSION && |e.data| == 6 then v.(version := Some(e.data))
    else if e.id == ENCRYPTION && |e.data| == 1 then v.(encryption := Some(e.data[0]))
    else if e.id == MARS && |e.data| == 1 then v.(mars := Some(e.data[0]))
    else v
  }

  function SeenAll(v: View, es: seq<Entry>): View
    decreases |es|
  {
    if es == [] then v else SeenAll(Seen(v, es[0]), es[1..])
  }

  predicate WellFormed(e: Entry) {
    && e.id < 5
    && (e.id == VERSION ==> |e.data| == 6)
    && (e.id == ENCRYPTION || e.id == MARS ==> |e.data| == 1)
  }

  lemma {:induction false} ReadFinished(es: seq<Entry>, i: nat, v: View)
    requires i <= |es| < 32 && |Finished(es)| < 0x1_0000
    requires forall k :: 0 <= k < |es| ==> WellFormed(es[k])
    ensures ReadFrom(Finished(es), i, v) == Some(SeenAll(v, es[i..]))
    decreases |es| - i
  {
    var s := Finished(es);
    if i == |es| {
      DirectoryEnds(es, 5 * |es| + 1);
    } else {
      EntryAt(es, i);
      var e, offset := es[i], OffsetOf(es, i);
      assert WellFormed(e);
      if e.data != [] {
        assert s[offset..offset + |e.data|][0] == s[offset];
      }
      assert ReadOption(s, e.id, offset, v) == Some(Seen(v, e));
      ReadFinished(es, i + 1, Seen(v, e));
      assert es[i..][1..] == es[i + 1..];
    }
  }

  /** For every subset of options, the reader gets back the version, encryption and MARS values that were set. */
  lemma PreloginRoundTrip(f: Fields)
    requires ValidFields(f)
    ensures ReadFrom(Finished(Entries(f)), 0, EMPTY_VIEW) == Some(View(f.version, f.encryption, f.mars))
  {
    var es := Entries(f);
    EntriesWellFormed(f);
    SmallData(es);
    ReadFinished(es, 0, EMPTY_VIEW);
    assert es[0..] == es;
    SeenFields(f);
  }

  lemma EntriesWellFormed(f: Fields)
    requires ValidFields(f)
    ensures |Entries(f)| <= 5
    ensures forall k :: 0 <= k < |Entries(f)| ==> WellFormed(Entries(f)[k]) && |Entries(f)[k].data| <= 6
  {
  }

  lemma SeenFields(f: Fields)
    requires ValidFields(f)
    ensures SeenAll(EMPTY_VIEW, Entries(f)) == View(f.version, f.encryption, f.mars)
  {
    var a := if f.version.Some? then [Entry(VERSION, f.version.value)] else [];
    var c, i := OptionByte(ENCRYPTION, f.encryption), OptionByte(INSTANCE, f.instance);
    var d, m := if f.threadid then [Entry(THREADID, [])] else [], OptionByte(MARS, f.mars);
    SeenAppend(EMPTY_VIEW, a, c);
    SeenAppend(EMPTY_VIEW, a + c, i);
    SeenAppend(EMPTY_VIEW, a + c + i, d);
    SeenAppend(EMPTY_VIEW, a + c + i + d, m);
    assert SeenAll(EMPTY_VIEW, a) == View(f.version, None, None);
    assert SeenAll(View(f.version, None, None), c) == View(f.version, f.encryption, None);
    assert SeenAll(View(f.version, f.encryption, None), i) == View(f.version, f.encryption, None);
    assert SeenAll(View(f.version, f.encryption, None), d) == View(f.version, f.encryption, None);
    assert SeenAll(View(f.version, f.encryption, None), m) == View(f.version, f.encryption, f.mars);
  }

  lemma {:induction false} SeenAppend(v: View, a: seq<Entry>, b: seq<Entry>)
    ensures SeenAll(v, a + b) == SeenAll(SeenAll(v, a), b)
    decreases |a|
  {
    if a == [] {
      assert a + b == b;
    } else {
      SeenAppend(Seen(v, a[0]), a[1..], b);
      assert (a + b)[1..] == a[1..] + b;
    }
  }

  lemma {:induction false} SmallData(es: seq<Entry>)
    requires forall k :: 0 <= k < |es| ==> |es[k].data| <= 6
    ensures DataSize(es) <= 6 * |es|
  {
    if es != [] {
      SmallData(es[1..]);
    }
  }

  // ----- a client that looks for an option by its token -----

  /** The bytes that the directory names for a token, up to the terminator 0xFF. */
  function Find(s: seq<byte>, token: byte, i: nat): Option<seq<byte>>
    decreases |s| - 5 * i
  {
    if 5 * i + 5 > |s| || s[5 * i] == 0xFF then None
    else if s[5 * i] != token then Find(s, token, i + 1)
    else
      var offset, n := FromBE(s[5 * i + 1..5 * i + 3]), FromBE(s[5 * i + 3..5 * i + 5]);
      if offset + n <= |s| then Some(s[offset..offset + n]) else None
  }

  function First(es: seq<Entry>, token: byte): Option<seq<byte>> {
    if es == [] then None else if es[0].id == token then Some(es[0].data) else First(es[1..], token)
  }

  lemma {:induction false} FindsFirst(es: seq<Entry>, token: byte, i: nat)
    requires i <= |es| && |Finished(es)| < 0x1_0000 && forall k :: 0 <= k < |es| ==> es[k].id != 0xFF
    ensures Find(Finished(es), token, i) == First(es[i..], token)
    decreases |es| - i
  {
    hide Finished, First, FromBE;
    if i == |es| {
      TableEnds(es);
      assert First([], token) == None by { FirstNone(token); }
      assert es[i..] == [];
    } else {
      EntryAt(es, i);
      FirstStep(es, token, i);
      FindsFirst(es, token, i + 1);
    }
  }

  lemma TableEnds(es: seq<Entry>)
    ensures |Finished(es)| > 5 * |es| && Finished(es)[5 * |es|] == 0xFF
  {
    DirectoryEnds(es, 5 * |es| + 1);
  }

  lemma FirstNone(token: byte)
    ensures First([], token) == None
  {
  }

  lemma FirstStep(es: seq<Entry>, token: byte, i: nat)
    requires i < |es|
    ensures First(es[i..], token) == if es[i].id == token then Some(es[i].data) else First(es[i + 1..], token)
  {
    assert es[i..][1..] == es[i + 1..];
  }

  lemma {:induction false} FirstJoin(a: seq<Entry>, b: seq<Entry>, token: byte)
    ensures First(a + b, token) == if First(a, token).Some? then First(a, token) else First(b, token)
    decreases |a|
  {
    if a == [] {
      assert a + b == b;
    } else {
      assert (a + b)[1..] == a[1..] + b;
      FirstJoin(a[1..], b, token);
    }
  }

  /** The token of an option that is set finds its bytes - none for THREADID - and that of another finds nothing. */
  lemma FieldsFound(f: Fields, token: byte)
    requires ValidFields(f)
    ensures Find(Finished(Entries(f)), token, 0)
         == match token
            case 0 => f.version
            case 1 => if f.encryption.Some? then Some([f.encryption.value]) else None
            case 2 => if f.instance.Some? then Some([f.instance.value]) else None
            case 3 => if f.threadid then Some([]) else None
            case 4 => if f.mars.Some? then Some([f.mars.value]) else None
            case _ => None
  {
    hide Finished, Find, OptionByte;
    var es := Entries(f);
    EntriesWellFormed(f);
    SmallData(es);
    assert |Finished(es)| < 0x1_0000 by { FinishedSize(es); }
    FindsFirst(es, token, 0);
    assert es[0..] == es;
    var a := if f.version.Some? then [Entry(VERSION, f.version.value)] else [];
    var c, i := OptionByte(ENCRYPTION, f.encryption), OptionByte(INSTANCE, f.instance);
    var d, m := if f.threadid then [Entry(THREADID, [])] else [], OptionByte(MARS, f.mars);
    FirstJoin(a + c + i + d, m, token);
    FirstJoin(a + c + i, d, token);
    FirstJoin(a + c, i, token);
    FirstJoin(a, c, token);
    FirstOption(1, f.encryption, token);
    FirstOption(2, f.instance, token);
    FirstOption(4, f.mars, token);
    assert First(a, token) == if token == 0 then f.version else None;
    assert First(d, token) == if token == 3 && f.threadid then Some([]) else None;
  }

  lemma FirstOption(id: byte, o: Option<byte>, token: byte)
    ensures First(OptionByte(id, o), token) == if token == id && o.Some? then Some([o.value]) else None
  {
  }

  lemma FinishedSize(es: seq<Entry>)
    ensures |Finished(es)| == 5 * |es| + 1 + DataSize(es)
  {
  }
}
