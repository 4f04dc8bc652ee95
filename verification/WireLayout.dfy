/** The bytes of messages, buffers and nodes, one by one (src/Msg.h:12-16, src/Msg.cpp:108-163,
    src/Node.cpp:457-497). */
module WireLayout {
  import opened Keys
  import opened Msgs
  import opened TreeModel
  import opened Coding
  import opened WireFormat

  /** A length and the bytes it counts. */
  function StringBytes(s: seq<Byte>): seq<Byte> {
    FourBytesOf(|s|) + s
  }

  /** The type, 1 or 2, in four bytes, the key, and a Put's value. */
  function MsgBytes(m: Msg): seq<Byte> {
    match m
    case Put(key, value) => [1, 0, 0, 0] + StringBytes(key) + StringBytes(value)
    case Del(key) => [2, 0, 0, 0] + StringBytes(key)
  }

  /** Parts one after the other. */
  function Joined(parts: seq<seq<Byte>>): seq<Byte> {
    if parts == [] then [] else parts[0] + Joined(parts[1..])
  }

  /** How many messages, and the messages in order. */
  function BufBytes(l: seq<Msg>): seq<Byte> {
    FourBytesOf(|l|) + Joined(MsgParts(l))
  }

  function MsgParts(l: seq<Msg>): seq<seq<Byte>> {
    seq(|l|, i requires 0 <= i < |l| => MsgBytes(l[i]))
  }

  function PivotBytes(p: Pivot): seq<Byte> {
    FourBytesOf(p.child) + StringBytes(p.leftKey) + BufBytes(p.buf)
  }

  /** Whether it is a leaf in one byte, its id, how many pivots, and the pivots in order. */
  function NodeBytes(n: WireNode): seq<Byte> {
    var ps := n.state.pivots;
    [if n.state.isLeaf then 1 else 0] + FourBytesOf(n.self) + FourBytesOf(|ps|)
    + Joined(PivotParts(ps))
  }

  function PivotParts(ps: seq<Pivot>): seq<seq<Byte>> {
    seq(|ps|, i requires 0 <= i < |ps| => PivotBytes(ps[i]))
  }

  lemma {:induction false} EncodeIntIs(v: nat)
    ensures EncodeInt(v) == FourBytesOf(v)
  {
    FixedInBytes(v);
  }

  lemma {:induction false} EncodeMsgIs(m: Msg)
    ensures EncodeMsg(m) == MsgBytes(m)
  {
    EncodeIntIs(1);
    EncodeIntIs(2);
    assert FourBytesOf(1) == [1, 0, 0, 0] && FourBytesOf(2) == [2, 0, 0, 0];
    EncodeIntIs(|m.key|);
    if m.Put? {
      EncodeIntIs(|m.value|);
    }
    hide EncodeInt, FourBytesOf;
  }

  lemma {:induction false} MsgPartsTail(l: seq<Msg>)
    requires l != []
    ensures |MsgParts(l)| == |l| && MsgParts(l)[0] == MsgBytes(l[0]) && MsgParts(l)[1..] == MsgParts(l[1..])
  {
    hide MsgBytes;
  }

  lemma {:induction false} EncodeMsgsIs(l: seq<Msg>)
    ensures EncodeMsgs(l) == Joined(MsgParts(l))
  {
    if l != [] {
      hide MsgParts, EncodeMsg, MsgBytes;
      EncodeMsgIs(l[0]);
      EncodeMsgsIs(l[1..]);
      MsgPartsTail(l);
    }
  }

  /** A buffer's bytes. */
  lemma {:induction false} EncodeBufIs(l: seq<Msg>)
    ensures EncodeBuf(l) == BufBytes(l)
  {
    EncodeIntIs(|l|);
    EncodeMsgsIs(l);
  }

  lemma {:induction false} PivotPartsTail(ps: seq<Pivot>)
    requires ps != []
    ensures |PivotParts(ps)| == |ps| && PivotParts(ps)[0] == PivotBytes(ps[0])
    ensures PivotParts(ps)[1..] == PivotParts(ps[1..])
  {
    hide PivotBytes;
  }

  lemma {:induction false} EncodePivotsIs(ps: seq<Pivot>)
    ensures EncodePivots(ps) == Joined(PivotParts(ps))
  {
    if ps != [] {
      hide PivotParts, EncodePivot, PivotBytes;
      EncodePivotIs(ps[0]);
      EncodePivotsIs(ps[1..]);
      PivotPartsTail(ps);
    }
  }

  lemma {:induction false} EncodePivotIs(p: Pivot)
    ensures EncodePivot(p) == PivotBytes(p)
  {
    EncodeIntIs(p.child);
    EncodeIntIs(|p.leftKey|);
    EncodeBufIs(p.buf);
    hide EncodeInt, FourBytesOf, EncodeBuf, BufBytes;
  }

  /** A node's bytes. */
  lemma {:induction false} EncodeNodeIs(n: WireNode)
    ensures EncodeNode(n) == NodeBytes(n)
  {
    EncodeIntIs(n.self);
    EncodeIntIs(|n.state.pivots|);
    EncodePivotsIs(n.state.pivots);
    hide EncodeInt, FourBytesOf, EncodePivots, PivotBytes;
  }

  // ---------------------------------------------------------------- what is made of bytes

  /** Four bytes are an integer, the lowest first; fewer are none. */
  lemma {:induction false} DecodeIntIs(b: seq<Byte>)
    ensures DecodeInt(b)
         == if |b| < 4 then None
            else Some((b[0] as int + 0x100 * (b[1] as int) + 0x1_0000 * (b[2] as int) + 0x100_0000 * (b[3] as int),
                       b[4..]))
  {
    if |b| >= 4 {
      FixedValueOfFour(b[..4]);
    }
  }

  /** Bytes that spell a message of type 1 or 2 are that Put or Del, and what follows is left. */
  lemma {:induction false} DecodeMsgIs(m: Msg, rest: seq<Byte>)
    requires MsgFits(m)
    ensures DecodeMsg(MsgBytes(m) + rest) == Some((m, rest))
  {
    EncodeMsgIs(m);
    MsgRoundTrip(m, rest);
  }

  /** No other type is read. */
  lemma {:induction false} DecodeMsgTypes(b: seq<Byte>)
    ensures DecodeMsg(b).Some? ==>
              |b| >= 4 && b[1..4] == [0, 0, 0] && b[0] == if DecodeMsg(b).value.0.Put? then 1 else 2
  {
    DecodeIntIs(b);
    hide DecodeInt, DecodeString;
  }

  /** A buffer's bytes, read as the list they spell, are that list. */
  lemma {:induction false} DecodeBufIs(l: seq<Msg>, rest: seq<Byte>)
    requires BufFits(l)
    ensures DecodeBuf(BufBytes(l) + rest) == Some((l, rest))
  {
    EncodeBufIs(l);
    BufRoundTrip(l, rest);
  }

  /** And so are a node's. */
  lemma {:induction false} DecodeNodeIs(n: WireNode, rest: seq<Byte>)
    requires NodeFits(n)
    ensures DecodeNode(NodeBytes(n) + rest) == Some((n, rest))
  {
    EncodeNodeIs(n);
    NodeRoundTrip(n, rest);
  }
}
