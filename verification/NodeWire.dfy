/** Writing nodes to a buffer and reading them back (src/Node.cpp, src/Msg.cpp). */
module NodeWire {
  import opened Keys
  import opened Msgs
  import opened TreeModel
  import opened NodeObject
  import opened Coding
  import opened ByteBuffer
  import opened WireFormat

  lemma Assoc(a: seq<Byte>, b: seq<Byte>, c: seq<Byte>)
    ensures (a + b) + c == a + (b + c)
  {
  }

  // ---------------------------------------------------------------- integers and strings

  method PutInt(x: nat, writer: ByteBuffer)
    requires writer.Valid() && x < TWO_32
    modifies writer
    ensures writer.Valid() && writer.Readable() == old(writer.Readable()) + EncodeInt(x)
  {
    writer.AppendInt32(x);
  }

  method PutString(s: seq<Byte>, writer: ByteBuffer)
    requires writer.Valid() && StringFits(s)
    modifies writer
    ensures writer.Valid() && writer.Readable() == old(writer.Readable()) + EncodeString(s)
  {
    hide Fixed;
    ghost var start := writer.Readable();
    writer.AppendString(s);
    Assoc(start, EncodeInt(|s|), s);
  }

  method TakeInt(reader: ByteBuffer) returns (x: nat)
    requires reader.Valid() && DecodeInt(reader.Readable()).Some?
    modifies reader
    ensures reader.Valid() && DecodeInt(old(reader.Readable())) == Some((x, reader.Readable()))
  {
    hide FixedValue;
    x := reader.ReadInt32();
  }

  method TakeString(reader: ByteBuffer) returns (s: seq<Byte>)
    requires reader.Valid() && DecodeString(reader.Readable()).Some?
    modifies reader
    ensures reader.Valid() && DecodeString(old(reader.Readable())) == Some((s, reader.Readable()))
  {
    hide FixedValue;
    ghost var b := reader.Readable();
    s := reader.ReadString();
    StringAt(b, |s|);
  }

  lemma StringAt(b: seq<Byte>, n: nat)
    requires 4 + n <= |b|
    ensures b[4..][..n] == b[4..4 + n] && b[4..][n..] == b[4 + n..]
  {
  }

  // ---------------------------------------------------------------- writing

  /** The body of MsgBuf::serialize's loop, with the length of the value before the value; the text
      writes the key's (see WireFormat.SerializeAsWritten). */
  method WriteMsg(m: Msg, writer: ByteBuffer)
    requires writer.Valid() && MsgFits(m)
    modifies writer
    ensures writer.Valid() && writer.Readable() == old(writer.Readable()) + EncodeMsg(m)
  {
    hide writer.Valid, writer.Readable, EncodeInt, EncodeString;
    ghost var start := writer.Readable();
    match m
    case Put(key, value) =>
      PutInt(PUT, writer);
      PutString(key, writer);
      PutString(value, writer);
      FourParts(start, EncodeInt(PUT), EncodeString(key), EncodeString(value));
    case Del(key) =>
      PutInt(DEL, writer);
      PutString(key, writer);
      Assoc(start, EncodeInt(DEL), EncodeString(key));
  }

  lemma FourParts(a: seq<Byte>, b: seq<Byte>, c: seq<Byte>, d: seq<Byte>)
    ensures ((a + b) + c) + d == a + ((b + c) + d)
  {
  }

  method WriteBuf(l: seq<Msg>, writer: ByteBuffer)
    requires writer.Valid() && BufFits(l)
    modifies writer
    ensures writer.Valid() && writer.Readable() == old(writer.Readable()) + EncodeBuf(l)
  {
    hide writer.Valid, writer.Readable, EncodeMsg, EncodeInt, MsgFits;
    ghost var start := writer.Readable();
    PutInt(|l|, writer);
    assert l[0..] == l;
    var i := 0;
    while i < |l|
      invariant 0 <= i <= |l| && writer.Valid()
      invariant writer.Readable() + EncodeMsgs(l[i..]) == start + EncodeInt(|l|) + EncodeMsgs(l)
    {
      assert l[i..][0] == l[i] && l[i..][1..] == l[i + 1..];
      ghost var now := writer.Readable();
      WriteMsg(l[i], writer);
      Assoc(now, EncodeMsg(l[i]), EncodeMsgs(l[i + 1..]));
      i := i + 1;
    }
    assert writer.Readable() + [] == writer.Readable();
    Assoc(start, EncodeInt(|l|), EncodeMsgs(l));
  }

  method WritePivot(p: Pivot, writer: ByteBuffer)
    requires writer.Valid() && PivotFits(p)
    modifies writer
    ensures writer.Valid() && writer.Readable() == old(writer.Readable()) + EncodePivot(p)
  {
    hide writer.Valid, writer.Readable, EncodeInt, EncodeString, EncodeBuf, BufFits;
    ghost var start := writer.Readable();
    PutInt(p.child, writer);
    PutString(p.leftKey, writer);
    WriteBuf(p.buf, writer);
    FourParts(start, EncodeInt(p.child), EncodeString(p.leftKey), EncodeBuf(p.buf));
  }

  /** Node::serialize; its assert is the precondition that there are pivots. */
  method Serialize(node: Node, self: Nid, writer: ByteBuffer)
    requires writer.Valid() && NodeFits(WireNode(self, node.State()))
    modifies writer
    ensures writer.Valid() && writer.Readable() == old(writer.Readable()) + EncodeNode(WireNode(self, node.State()))
  {
    hide writer.Valid, writer.Readable, EncodeInt, EncodePivot, PivotFits;
    ghost var start := writer.Readable();
    var ps := node.pivots;
    writer.AppendInt8(LeafByte(node.isLeaf));
    PutInt(self, writer);
    PutInt(|ps|, writer);
    ghost var header := [LeafByte(node.isLeaf)] + EncodeInt(self) + EncodeInt(|ps|);
    FourParts(start, [LeafByte(node.isLeaf)], EncodeInt(self), EncodeInt(|ps|));
    assert ps[0..] == ps;
    var i := 0;
    while i < |ps|
      invariant 0 <= i <= |ps| && writer.Valid()
      invariant writer.Readable() + EncodePivots(ps[i..]) == start + header + EncodePivots(ps)
    {
      assert ps[i..][0] == ps[i] && ps[i..][1..] == ps[i + 1..];
      ghost var now := writer.Readable();
      WritePivot(ps[i], writer);
      Assoc(now, EncodePivot(ps[i]), EncodePivots(ps[i + 1..]));
      i := i + 1;
    }
    assert writer.Readable() + [] == writer.Readable();
    Assoc(start, header, EncodePivots(ps));
  }

  // ---------------------------------------------------------------- reading

  method ReadMsg(reader: ByteBuffer) returns (m: Msg)
    requires reader.Valid() && DecodeMsg(reader.Readable()).Some?
    modifies reader
    ensures reader.Valid() && DecodeMsg(old(reader.Readable())) == Some((m, reader.Readable()))
  {
    hide reader.Valid, reader.Readable, DecodeInt, DecodeString;
    var kind := TakeInt(reader);
    var key := TakeString(reader);
    if kind == PUT {
      var value := TakeString(reader);
      m := Put(key, value);
    } else {
      m := Del(key);
    }
  }

  /** MsgBuf::deserialize. */
  method ReadBuf(reader: ByteBuffer) returns (list: seq<Msg>)
    requires reader.Valid() && DecodeBuf(reader.Readable()).Some?
    modifies reader
    ensures reader.Valid() && DecodeBuf(old(reader.Readable())) == Some((list, reader.Readable()))
  {
    hide reader.Valid, reader.Readable, DecodeInt, DecodeMsg, InsertMsg, DecodeMsgs, MergeAll;
    DecodeBufParts(reader.Readable());
    var count := TakeInt(reader);
    ghost var all := DecodeMsgs(reader.Readable(), count).value;
    list := [];
    var i := 0;
    while i < count
      invariant 0 <= i <= count && reader.Valid()
      invariant DecodeMsgs(reader.Readable(), count - i).Some?
      invariant DecodeMsgs(reader.Readable(), count - i).value.1 == all.1
      invariant MergeAll(list, DecodeMsgs(reader.Readable(), count - i).value.0) == MergeAll([], all.0)
    {
      NextMsg(reader.Readable(), count - i, list);
      var m := ReadMsg(reader);
      list := InsertMsg(list, m);
      i := i + 1;
    }
    NoMoreMsgs(reader.Readable(), list);
  }

  lemma DecodeBufParts(b: seq<Byte>)
    requires DecodeBuf(b).Some?
    ensures DecodeInt(b).Some?
    ensures var (n, b1) := DecodeInt(b).value;
            DecodeMsgs(b1, n).Some?
                && DecodeBuf(b).value == (MergeAll([], DecodeMsgs(b1, n).value.0), DecodeMsgs(b1, n).value.1)
  {
  }

  lemma NextMsg(b: seq<Byte>, n: nat, list: seq<Msg>)
    requires n > 0 && DecodeMsgs(b, n).Some?
    ensures DecodeMsg(b).Some?
    ensures var (m, b1) := DecodeMsg(b).value;
            && DecodeMsgs(b1, n - 1).Some? && DecodeMsgs(b1, n - 1).value.1 == DecodeMsgs(b, n).value.1
            && MergeAll(InsertMsg(list, m), DecodeMsgs(b1, n - 1).value.0) == MergeAll(list, DecodeMsgs(b, n).value.0)
  {
    hide DecodeMsg, InsertMsg;
    var (m, b1) := DecodeMsg(b).value;
    var left := DecodeMsgs(b, n).value.0;
    assert left == [m] + DecodeMsgs(b1, n - 1).value.0;
    assert left[1..] == DecodeMsgs(b1, n - 1).value.0;
  }

  lemma NoMoreMsgs(b: seq<Byte>, list: seq<Msg>)
    ensures DecodeMsgs(b, 0) == Some(([], b)) && MergeAll(list, []) == list
  {
  }

  method ReadPivot(reader: ByteBuffer) returns (p: Pivot)
    requires reader.Valid() && DecodePivot(reader.Readable()).Some?
    modifies reader
    ensures reader.Valid() && DecodePivot(old(reader.Readable())) == Some((p, reader.Readable()))
  {
    hide reader.Valid, reader.Readable, DecodeInt, DecodeString, DecodeBuf;
    var child := TakeInt(reader);
    var leftKey := TakeString(reader);
    var buf := ReadBuf(reader);
    p := Pivot(leftKey, child, buf);
  }

  /** Node::deserialize into a node without pivots. */
  method Deserialize(node: Node, reader: ByteBuffer) returns (self: Nid)
    requires reader.Valid() && node.pivots == [] && DecodeNode(reader.Readable()).Some?
    modifies node, reader
    ensures reader.Valid()
    ensures DecodeNode(old(reader.Readable())) == Some((WireNode(self, node.State()), reader.Readable()))
  {
    DecodeNodeParts(reader.Readable());
    hide DecodeInt, DecodePivot, DecodePivots, DecodeNode;
    ghost var b := reader.Readable();
    var leaf := reader.ReadInt8();
    assert b[0] == leaf && b[1..] == reader.Readable();
    hide reader.Valid, reader.Readable;
    node.isLeaf := leaf != 0;
    self := TakeInt(reader);
    var count := TakeInt(reader);
    ReadPivots(node, count, reader);
  }

  /** Node::deserialize's loop. */
  method ReadPivots(node: Node, count: nat, reader: ByteBuffer)
    requires reader.Valid() && node.pivots == [] && DecodePivots(reader.Readable(), count).Some?
    modifies node`pivots, reader
    ensures reader.Valid() && DecodePivots(old(reader.Readable()), count) == Some((node.pivots, reader.Readable()))
  {
    hide reader.Valid, reader.Readable, DecodePivot, DecodePivots;
    ghost var all := DecodePivots(reader.Readable(), count).value;
    var i := 0;
    assert [] + all.0 == all.0;
    while i < count
      invariant 0 <= i <= count && reader.Valid()
      invariant DecodePivots(reader.Readable(), count - i).Some?
      invariant DecodePivots(reader.Readable(), count - i).value.1 == all.1
      invariant node.pivots + DecodePivots(reader.Readable(), count - i).value.0 == all.0
    {
      NextPivot(reader.Readable(), count - i, node.pivots);
      var p := ReadPivot(reader);
      node.pivots := node.pivots + [p];
      i := i + 1;
    }
    NoMorePivots(reader.Readable(), node.pivots);
  }

  lemma DecodeNodeParts(b: seq<Byte>)
    requires DecodeNode(b).Some?
    ensures b != [] && DecodeInt(b[1..]).Some?
    ensures var (self, b1) := DecodeInt(b[1..]).value;
            && DecodeInt(b1).Some?
            && var (n, b2) := DecodeInt(b1).value;
            && DecodePivots(b2, n).Some?
            && DecodeNode(b).value
                 == (WireNode(self, NodeState(b[0] != 0, DecodePivots(b2, n).value.0)), DecodePivots(b2, n).value.1)
  {
  }

  lemma NextPivot(b: seq<Byte>, n: nat, done: seq<Pivot>)
    requires n > 0 && DecodePivots(b, n).Some?
    ensures DecodePivot(b).Some?
    ensures var (p, b1) := DecodePivot(b).value;
            && DecodePivots(b1, n - 1).Some? && DecodePivots(b1, n - 1).value.1 == DecodePivots(b, n).value.1
            && (done + [p]) + DecodePivots(b1, n - 1).value.0 == done + DecodePivots(b, n).value.0
  {
    hide DecodePivot;
    var (p, b1) := DecodePivot(b).value;
    assert DecodePivots(b, n).value.0 == [p] + DecodePivots(b1, n - 1).value.0;
  }

  lemma NoMorePivots(b: seq<Byte>, done: seq<Pivot>)
    ensures DecodePivots(b, 0) == Some(([], b)) && done + [] == done
  {
  }

  /** What is written for a node is read back as that node, before whatever else the buffer holds. */
  method WriteThenRead(node: Node, self: Nid, copy: Node, buffer: ByteBuffer, more: seq<Byte>) returns (nid: Nid)
    requires buffer.Valid() && buffer.Readable() == [] && NodeFits(WireNode(self, node.State()))
    requires node != copy && copy.pivots == []
    modifies copy, buffer
    ensures nid == self && copy.State() == node.State() && buffer.Valid() && buffer.Readable() == more
  {
    ghost var n := WireNode(self, node.State());
    hide NodeFits, EncodeNode, DecodeNode;
    Serialize(node, self, buffer);
    assert buffer.Readable() == EncodeNode(n);
    buffer.Append(more);
    NodeRoundTrip(n, more);
    nid := Deserialize(copy, buffer);
  }

  // ---------------------------------------------------------------- writeBackSize

  /** Node::writeBackSize: what the node takes written, and 4 bytes for each Del it holds. */
  method WriteBackSize(node: Node, self: Nid) returns (size: nat)
    ensures size == |EncodeNode(WireNode(self, node.State()))| + 4 * AllDels(node.pivots)
  {
    var ps := node.pivots;
    hide EncodePivot, EncodeBuf, BufSize;
    size := 1 + 4 + 4;
    var i := 0;
    assert ps[0..] == ps;
    while i < |ps|
      invariant 0 <= i <= |ps|
      invariant size + |EncodePivots(ps[i..])| + 4 * AllDels(ps[i..]) == 9 + |EncodePivots(ps)| + 4 * AllDels(ps)
    {
      assert ps[i..][0] == ps[i] && ps[i..][1..] == ps[i + 1..];
      PivotSize(ps[i]);
      size := size + 4;
      size := size + 4 + |ps[i].leftKey|;
      size := size + BufSize(ps[i].buf);
      i := i + 1;
    }
  }

  lemma PivotSize(p: Pivot)
    ensures |EncodePivot(p)| + 4 * Dels(p.buf) == 8 + |p.leftKey| + BufSize(p.buf)
  {
    BufSizeIs(p.buf);
    hide EncodeBuf, BufSize;
  }
}
