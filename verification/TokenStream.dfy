/**
 tds/tdspacket_tokenised.cc: the token list, the chaining of DONE tokens, and the
 response it becomes; and a client's walk over that response.
 */
module TokenStream {
  import Bytes
  import opened DynBuffer
  import opened Tokens
  import TokenWriter
  import Packet

  const DEFAULT_DONE := Done(DoneStatus(false, false, false), 0, 0)

  /** set_status_more(1) */
  function WithMore(t: Token): Token {
    if t.Done? then t.(status := t.status.(more := true)) else t
  }

  /** The list as writepacket() leaves it: every DONE that has a successor says MORE. */
  function Chained(tokens: seq<Token>): (r: seq<Token>)
    ensures |r| == |tokens|
  {
    if |tokens| <= 1 then tokens else [WithMore(tokens[0])] + Chained(tokens[1..])
  }

  /** The tokens that go out: the chained list, and a DONE behind it when it ends otherwise. */
  function Sent(tokens: seq<Token>): (r: seq<Token>)
    ensures r != []
  {
    if tokens != [] && tokens[|tokens| - 1].Done? then Chained(tokens) else Chained(tokens) + [DEFAULT_DONE]
  }

  ghost predicate AllWritable(tokens: seq<Token>) {
    forall i :: 0 <= i < |tokens| ==> Writable(tokens[i])
  }

  /** What a child holds when it has taken a token, behind so much storage in use. */
  function TokenView(t: Token, version: nat, capacity: nat, used: nat): Snapshot
    requires Writable(t)
  {
    DoAll(TokenScript(t, version), ChildView(capacity, used))
  }

  /** Each token in its turn can be written into the storage that there is by then. */
  ghost predicate AllFit(tokens: seq<Token>, version: nat, capacity: nat, used: nat)
    requires AllWritable(tokens)
    decreases |tokens|
  {
    tokens != [] ==>
      var v := TokenView(tokens[0], version, capacity, used);
      && AllSafe(TokenScript(tokens[0], version), ChildView(capacity, used))
      && AllFit(tokens[1..], version, v.capacity, v.used)
  }

  ghost function EncodeAll(tokens: seq<Token>, version: nat): seq<Bytes.byte>
    requires AllWritable(tokens)
  {
    if tokens == [] then [] else Encode(tokens[0], version) + EncodeAll(tokens[1..], version)
  }

  lemma {:induction false} ChainedAt(tokens: seq<Token>, i: nat)
    requires i < |tokens|
    ensures Chained(tokens)[i] == if i + 1 < |tokens| then WithMore(tokens[i]) else tokens[i]
  {
    if |tokens| > 1 && i > 0 {
      ChainedAt(tokens[1..], i - 1);
    }
  }

  lemma {:induction false} EncodeAllSnoc(tokens: seq<Token>, t: Token, version: nat)
    requires AllWritable(tokens) && Writable(t)
    ensures AllWritable(tokens + [t])
    ensures EncodeAll(tokens + [t], version) == EncodeAll(tokens, version) + Encode(t, version)
  {
    hide Encode, Writable;
    if tokens == [] {
      assert [t][1..] == [] && tokens + [t] == [t];
      assert EncodeAll([t], version) == Encode(t, version) + [];
    } else {
      var rest := tokens[1..];
      EncodeAllSnoc(rest, t, version);
      var all := tokens + [t];
      assert all[1..] == rest + [t] && all[0] == tokens[0];
      assert AllWritable(all);
      Bytes.Assoc(Encode(tokens[0], version), EncodeAll(rest, version), Encode(t, version));
    }
  }

  class TokenisedPacket {
    const version: nat
    var tokens: seq<Token>

    constructor (version: nat)
      ensures this.version == version && tokens == []
    {
      this.version := version;
      tokens := [];
    }

    method AddToken(t: Token)
      modifies this
      ensures tokens == old(tokens) + [t]
    {
      tokens := tokens + [t];
    }

    /** One token through a child buffer of its own. */
    method WriteOne(root: DynBuffer, t: Token)
      requires root.parent == null && root.Open()
      requires Writable(t) && AllSafe(TokenScript(t, version), ChildView(root.buf.Length, root.pos))
      modifies root`buf, root`off, root`size, root`pos, root.buf
      ensures root.Open() && (root.buf == old(root.buf) || fresh(root.buf))
      ensures root.Contents() == old(root.Contents()) + Encode(t, version)
      ensures var v := TokenView(t, version, old(root.buf.Length), old(root.pos));
              root.buf.Length == v.capacity && root.pos == v.used
    {
      hide AllSafe, DoAll, TokenScript, Encode, Seal;
      var child := new DynBuffer.Child(root);
      assert child.Look() == ChildView(root.buf.Length, root.pos);
      TokenWriter.WriteToken(child, t, version);
      assert root.Open() && root.Contents() == old(root.Contents());
      FinaliseTwice(child, root);
    }

    /**
     After i rounds: i tokens are marked and written, the others are as they were, and
     the storage can take what is left, with `rest` behind it.
     */
    ghost predicate Written(root: DynBuffer, before: seq<Token>, rest: seq<Token>, start: seq<Bytes.byte>, i: nat)
      reads this, root, root.buf
    {
      && i <= |tokens| == |before|
      && (forall k :: 0 <= k < i ==> tokens[k] == Chained(before)[k])
      && (forall k :: i <= k < |before| ==> tokens[k] == before[k])
      && root.parent == null && root.Open()
      && AllWritable(Chained(before)) && AllWritable(Chained(before)[i..] + rest)
      && AllFit(Chained(before)[i..] + rest, version, root.buf.Length, root.pos)
      && root.Contents() == start + EncodeAll(Chained(before)[..i], version)
    }

    /** The i-th round of the loop; says whether it met a closing DONE. */
    method WriteNext(root: DynBuffer, ghost before: seq<Token>, ghost rest: seq<Token>, ghost start: seq<Bytes.byte>,
                     i: nat)
      returns (closing: bool)
      requires i < |tokens| && root.parent == null && Written(root, before, rest, start, i)
      modifies this`tokens, root`buf, root`off, root`size, root`pos, root.buf
      ensures Written(root, before, rest, start, i + 1)
      ensures root.buf == old(root.buf) || fresh(root.buf)
      ensures closing <==> i + 1 == |before| && before[i].Done?
    {
      hide AllSafe, TokenView, Encode, TokenScript;
      ChainedAt(before, i);
      closing := false;
      if tokens[i].Done? {
        if i + 1 < |tokens| {
          tokens := tokens[i := WithMore(tokens[i])];
        } else {
          closing := true;
        }
      }
      ghost var left := Chained(before)[i..] + rest;
      assert left[0] == tokens[i] && left[1..] == Chained(before)[i + 1..] + rest;
      EncodeAllStep(start, Chained(before), i, version);
      WriteOne(root, tokens[i]);
    }

    /** Every token of the list in turn; `rest` is what is still to follow. */
    method WriteAll(root: DynBuffer, ghost rest: seq<Token>) returns (closing: bool)
      requires root.parent == null && root.Open()
      requires AllWritable(Chained(tokens) + rest) && AllFit(Chained(tokens) + rest, version, root.buf.Length, root.pos)
      modifies this`tokens, root`buf, root`off, root`size, root`pos, root.buf
      ensures tokens == Chained(old(tokens)) && AllWritable(tokens)
      ensures closing <==> tokens != [] && old(tokens)[|tokens| - 1].Done?
      ensures root.Open() && (root.buf == old(root.buf) || fresh(root.buf))
      ensures AllWritable(rest) && AllFit(rest, version, root.buf.Length, root.pos)
      ensures root.Contents() == old(root.Contents()) + EncodeAll(tokens, version)
    {
      hide AllFit, Chained, EncodeAll;
      ghost var before, start := tokens, root.Contents();
      AllWritableParts(Chained(tokens), rest);
      closing := false;
      var i := 0;
      EncodeNothing(version);
      assert start + [] == start && Chained(before)[..0] == [] && Chained(before)[0..] == Chained(before);
      while i < |tokens|
        invariant Written(root, before, rest, start, i)
        invariant closing <==> i == |before| > 0 && before[i - 1].Done?
        invariant root.buf == old(root.buf) || fresh(root.buf)
      {
        closing := WriteNext(root, before, rest, start, i);
        i := i + 1;
      }
      assert Chained(before)[..i] == tokens && Chained(before)[i..] + rest == rest;
    }

    /**
     Every token in turn, DONE tokens with a successor being marked on the way, and
     a closing DONE unless the list ends in one.
     */
    method WritePacket(root: DynBuffer)
      requires root.parent == null && root.Open()
      requires AllWritable(Sent(tokens)) && AllFit(Sent(tokens), version, root.buf.Length, root.pos)
      modifies this`tokens, root`buf, root`off, root`size, root`pos, root.buf
      ensures tokens == Chained(old(tokens))
      ensures root.Open() && (root.buf == old(root.buf) || fresh(root.buf))
      ensures root.Contents() == old(root.Contents()) + EncodeAll(Sent(old(tokens)), version)
    {
      hide EncodeAll, Encode;
      ghost var start, rest := root.Contents(), Sent(tokens)[|tokens|..];
      assert Sent(tokens) == Chained(tokens) + rest;
      var closing := WriteAll(root, rest);
      if !closing {
        assert rest == [DEFAULT_DONE];
        WriteOne(root, DEFAULT_DONE);
        EncodeAllSnoc(tokens, DEFAULT_DONE, version);
        Bytes.Assoc(start, EncodeAll(tokens, version), Encode(DEFAULT_DONE, version));
      }
    }
  }

  /**
   A response on its way: the list is built, its tokens go through child buffers into a
   root of the initial size, the root is finalised and cut into packets.
   */
  method Transmit(tokens: seq<Token>, version: nat) returns (wire: seq<Bytes.byte>)
    requires AllWritable(Sent(tokens)) && AllFit(Sent(tokens), version, INITIAL_SIZE, 0)
    ensures wire == Packet.Wire(Packet.MESSAGE_TYPE_RESPONSE, EncodeAll(Sent(tokens), version))
  {
    hide AllFit, EncodeAll, Sent, Seal, TailsGrow, Encode, Chained, Packet.Wire;
    var packet := new TokenisedPacket(version);
    for i := 0 to |tokens|
      invariant packet.tokens == tokens[..i]
    {
      packet.AddToken(tokens[i]);
    }
    assert tokens[..|tokens|] == tokens;
    var root := new DynBuffer(INITIAL_SIZE);
    packet.WritePacket(root);
    ghost var response := EncodeAll(Sent(tokens), version);
    assert root.Contents() == [] + response == response;
    SealPlain(response);
    root.Finalise();
    wire := Packet.WritePacket(Packet.MESSAGE_TYPE_RESPONSE, root.buf[root.off..root.off + root.pos]);
  }

  lemma EncodeNothing(version: nat)
    ensures EncodeAll([], version) == []
  {
  }

  lemma AllWritableParts(a: seq<Token>, b: seq<Token>)
    requires AllWritable(a + b)
    ensures AllWritable(a) && AllWritable(b)
  {
    assert forall i :: 0 <= i < |a| ==> a[i] == (a + b)[i];
    assert forall i :: 0 <= i < |b| ==> b[i] == (a + b)[|a| + i];
  }

  lemma OneMore(tokens: seq<Token>, i: nat)
    requires i < |tokens|
    ensures tokens[..i + 1] == tokens[..i] + [tokens[i]]
  {
  }

  lemma EncodeAllStep(start: seq<Bytes.byte>, tokens: seq<Token>, i: nat, version: nat)
    requires AllWritable(tokens) && i < |tokens|
    ensures start + EncodeAll(tokens[..i], version) + Encode(tokens[i], version)
         == start + EncodeAll(tokens[..i + 1], version)
  {
    hide EncodeAll, Encode, Writable;
    OneMore(tokens, i);
    EncodeAllSnoc(tokens[..i], tokens[i], version);
    Bytes.Assoc(start, EncodeAll(tokens[..i], version), Encode(tokens[i], version));
  }
}
