/** The growable byte queue nodes are written to and read from (base/Buffer.h). */
module ByteBuffer {
  import opened Keys
  import opened Coding

  const CHEAP_PREPEND := 8
  const INITIAL_SIZE := 1024

  class ByteBuffer {
    var buffer: seq<Byte>
    var readerIndex: nat
    var writerIndex: nat

    ghost predicate Valid()
      reads this
    {
      CHEAP_PREPEND <= readerIndex <= writerIndex <= |buffer|
    }

    /** What is written and not yet read. */
    ghost function Readable(): (q: seq<Byte>)
      reads this
      requires Valid()
      ensures |q| == writerIndex - readerIndex
    {
      buffer[readerIndex..writerIndex]
    }

    constructor ()
      ensures Valid() && Readable() == []
      ensures |buffer| - writerIndex == INITIAL_SIZE && readerIndex == CHEAP_PREPEND
    {
      buffer := seq(CHEAP_PREPEND + INITIAL_SIZE, _ => 0);
      readerIndex := CHEAP_PREPEND;
      writerIndex := CHEAP_PREPEND;
    }

    function ReadableBytes(): nat
      reads this
      requires Valid()
    {
      writerIndex - readerIndex
    }

    function WritableBytes(): nat
      reads this
      requires Valid()
    {
      |buffer| - writerIndex
    }

    /** makeSpace: grow, or move what is readable to the front. */
    method MakeSpace(len: nat)
      requires Valid() && WritableBytes() < len
      modifies this
      ensures Valid() && Readable() == old(Readable()) && WritableBytes() >= len
      ensures if old(WritableBytes() + readerIndex) < len + CHEAP_PREPEND
              then |buffer| == old(writerIndex) + len && readerIndex == old(readerIndex)
              else |buffer| == old(|buffer|) && readerIndex == CHEAP_PREPEND
    {
      if WritableBytes() + readerIndex < len + CHEAP_PREPEND {
        buffer := Resized(buffer, writerIndex + len);
      } else {
        assert CHEAP_PREPEND < readerIndex;
        var readable := ReadableBytes();
        buffer := buffer[..CHEAP_PREPEND] + buffer[readerIndex..writerIndex] + buffer[CHEAP_PREPEND + readable..];
        readerIndex := CHEAP_PREPEND;
        writerIndex := readerIndex + readable;
        assert readable == ReadableBytes();
      }
    }

    method EnsureWritableBytes(len: nat)
      requires Valid()
      modifies this
      ensures Valid() && Readable() == old(Readable()) && WritableBytes() >= len
    {
      if WritableBytes() < len {
        MakeSpace(len);
      }
      assert WritableBytes() >= len;
    }

    method Append(data: seq<Byte>)
      requires Valid()
      modifies this
      ensures Valid() && Readable() == old(Readable()) + data
    {
      EnsureWritableBytes(|data|);
      buffer := buffer[..writerIndex] + data + buffer[writerIndex + |data|..];
      writerIndex := writerIndex + |data|;
    }

    method RetrieveAll()
      requires Valid() && |buffer| >= CHEAP_PREPEND
      modifies this`readerIndex, this`writerIndex
      ensures Valid() && Readable() == [] && readerIndex == CHEAP_PREPEND
    {
      readerIndex := CHEAP_PREPEND;
      writerIndex := CHEAP_PREPEND;
    }

    /** retrieve; its assert is the precondition. */
    method Retrieve(len: nat)
      requires Valid() && len <= |Readable()|
      modifies this`readerIndex, this`writerIndex
      ensures Valid() && Readable() == old(Readable())[len..]
      ensures readerIndex == if len < |old(Readable())| then old(readerIndex) + len else CHEAP_PREPEND
    {
      if len < ReadableBytes() {
        readerIndex := readerIndex + len;
      } else {
        RetrieveAll();
      }
    }

    /** peekString, and what read copies out. */
    method Peek(len: nat) returns (data: seq<Byte>)
      requires Valid() && len <= |Readable()|
      ensures data == Readable()[..len]
    {
      data := buffer[readerIndex..readerIndex + len];
    }

    method Read(len: nat) returns (data: seq<Byte>)
      requires Valid() && len <= |Readable()|
      modifies this`readerIndex, this`writerIndex
      ensures Valid() && data == old(Readable())[..len] && Readable() == old(Readable())[len..]
    {
      data := Peek(len);
      Retrieve(len);
    }

    // -------------------------------------------------------------- integers and strings

    method AppendInt8(x: Byte)
      requires Valid()
      modifies this
      ensures Valid() && Readable() == old(Readable()) + [x]
    {
      Append([x]);
    }

    method AppendInt32(x: nat)
      requires Valid() && x < TWO_32
      modifies this
      ensures Valid() && Readable() == old(Readable()) + Fixed(x, 4)
    {
      Append(Fixed(x, 4));
    }

    method AppendString(s: seq<Byte>)
      requires Valid() && |s| < TWO_32
      modifies this
      ensures Valid() && Readable() == old(Readable()) + Fixed(|s|, 4) + s
    {
      AppendInt32(|s|);
      Append(s);
    }

    method ReadInt8() returns (x: Byte)
      requires Valid() && |Readable()| >= 1
      modifies this`readerIndex, this`writerIndex
      ensures Valid() && [x] + Readable() == old(Readable())
    {
      x := buffer[readerIndex];
      Retrieve(1);
    }

    method ReadInt32() returns (x: nat)
      requires Valid() && |Readable()| >= 4
      modifies this`readerIndex, this`writerIndex
      ensures Valid() && x == FixedValue(old(Readable())[..4]) && Readable() == old(Readable())[4..]
    {
      var bytes := Read(4);
      x := FixedValue(bytes);
    }

    /** readString; a length past the sign bit of an int32_t would trip the assert of peekString. */
    method ReadString() returns (s: seq<Byte>)
      requires Valid() && |Readable()| >= 4
      requires FixedValue(Readable()[..4]) < TWO_31 && 4 + FixedValue(Readable()[..4]) <= |Readable()|
      modifies this`readerIndex, this`writerIndex
      ensures Valid()
      ensures var n := FixedValue(old(Readable())[..4]);
              s == old(Readable())[4..4 + n] && Readable() == old(Readable())[4 + n..]
    {
      var len := ReadInt32();
      s := Read(len);
    }
  }

  /** std::vector::resize, upwards. */
  function Resized(b: seq<Byte>, n: nat): (r: seq<Byte>)
    requires |b| <= n
    ensures |r| == n && r[..|b|] == b
  {
    b + seq(n - |b|, _ => 0)
  }

  // ---------------------------------------------------------------- runs

  datatype BufferOp = Append(data: seq<Byte>) | Read(n: nat) | Retrieve(len: nat)

  /** The queue after an operation, with what came out of it. A length the buffer's asserts refuse is
      not asked for. */
  function Step(q: seq<Byte>, op: BufferOp): (seq<Byte>, seq<Byte>) {
    match op
    case Append(data) => (q + data, [])
    case Read(n) => if n <= |q| then (q[n..], q[..n]) else (q, [])
    case Retrieve(n) => if n <= |q| then (q[n..], q[..n]) else (q, [])
  }

  function Written(ops: seq<BufferOp>): seq<Byte> {
    if ops == [] then [] else (if ops[0].Append? then ops[0].data else []) + Written(ops[1..])
  }

  /** Everything that left the queue, in order, and what is left. */
  function After(q: seq<Byte>, ops: seq<BufferOp>): (seq<Byte>, seq<Byte>)
    decreases |ops|
  {
    if ops == [] then (q, [])
    else
      var (q1, out) := Step(q, ops[0]);
      var (q2, more) := After(q1, ops[1..]);
      (q2, out + more)
  }

  /** First in, first out: over any run, what left the queue and then what is left in it is what was
      there and then what was written. */
  lemma {:induction false} NothingLostOrReordered(q: seq<Byte>, ops: seq<BufferOp>)
    ensures After(q, ops).1 + After(q, ops).0 == q + Written(ops)
    decreases |ops|
  {
    if ops != [] {
      var (q1, out) := Step(q, ops[0]);
      var data := if ops[0].Append? then ops[0].data else [];
      NothingLostOrReordered(q1, ops[1..]);
      assert out + q1 == q + data;
      var (q2, more) := After(q1, ops[1..]);
      assert (out + more) + q2 == out + (more + q2);
      assert out + (q1 + Written(ops[1..])) == (out + q1) + Written(ops[1..]);
      assert (q + data) + Written(ops[1..]) == q + (data + Written(ops[1..]));
    }
  }

  /** The buffer refines the queue over any run of operations. */
  method RunAll(b: ByteBuffer, ops: seq<BufferOp>) returns (out: seq<Byte>)
    requires b.Valid()
    modifies b
    ensures b.Valid() && (b.Readable(), out) == After(old(b.Readable()), ops)
    ensures out + b.Readable() == old(b.Readable()) + Written(ops)
  {
    ghost var q := b.Readable();
    out := [];
    var i := 0;
    assert ops[0..] == ops && [] + After(q, ops).1 == After(q, ops).1;
    while i < |ops|
      invariant 0 <= i <= |ops| && b.Valid()
      invariant var (q2, more) := After(b.Readable(), ops[i..]); After(q, ops) == (q2, out + more)
    {
      assert ops[i..][0] == ops[i] && ops[i..][1..] == ops[i + 1..];
      ghost var now, sofar := b.Readable(), out;
      var piece := RunOp(b, ops[i]);
      out := out + piece;
      assert sofar + (piece + After(b.Readable(), ops[i + 1..]).1) == out + After(b.Readable(), ops[i + 1..]).1;
      i := i + 1;
    }
    assert out + [] == out;
    NothingLostOrReordered(q, ops);
  }

  method RunOp(b: ByteBuffer, op: BufferOp) returns (out: seq<Byte>)
    requires b.Valid()
    modifies b
    ensures b.Valid() && (b.Readable(), out) == Step(old(b.Readable()), op)
  {
    out := [];
    match op
    case Append(data) =>
      b.Append(data);
    case Read(n) =>
      if n <= b.ReadableBytes() {
        out := b.Read(n);
      }
    case Retrieve(n) =>
      if n <= b.ReadableBytes() {
        out := b.Peek(n);
        b.Retrieve(n);
      }
  }
}
