/** Nodes and message buffers as bytes: what is written, and what can be read back. */
module WireFormat {
  import opened Keys
  import opened Msgs
  import opened TreeModel
  import opened Coding

  datatype WireNode = WireNode(self: Nid, state: NodeState)

  const PUT := 1
  const DEL := 2

  // ---------------------------------------------------------------- writing

  function EncodeInt(v: nat): (b: seq<Byte>)
    ensures |b| == 4
  {
    Fixed(v, 4)
  }

  function EncodeString(s: seq<Byte>): (b: seq<Byte>)
    ensures |b| == 4 + |s|
  {
    EncodeInt(|s|) + s
  }

  function EncodeMsg(m: Msg): seq<Byte> {
    match m
    case Put(key, value) => EncodeInt(PUT) + EncodeString(key) + EncodeString(value)
    case Del(key) => EncodeInt(DEL) + EncodeString(key)
  }

  function EncodeMsgs(l: seq<Msg>): seq<Byte> {
    if l == [] then [] else EncodeMsg(l[0]) + EncodeMsgs(l[1..])
  }

  function EncodeBuf(l: seq<Msg>): seq<Byte> {
    EncodeInt(|l|) + EncodeMsgs(l)
  }

  function EncodePivot(p: Pivot): seq<Byte> {
    EncodeInt(p.child) + EncodeString(p.leftKey) + EncodeBuf(p.buf)
  }

  function EncodePivots(ps: seq<Pivot>): seq<Byte> {
    if ps == [] then [] else EncodePivot(ps[0]) + EncodePivots(ps[1..])
  }

  function LeafByte(isLeaf: bool): Byte {
    if isLeaf then 1 else 0
  }

  function EncodeNode(n: WireNode): seq<Byte> {
    [LeafByte(n.state.isLeaf)] + EncodeInt(n.self) + EncodeInt(|n.state.pivots|) + EncodePivots(n.state.pivots)
  }

  // ---------------------------------------------------------------- reading

  type Rest = seq<Byte>

  /** readInt32. */
  function DecodeInt(b: seq<Byte>): (r: Option<(nat, Rest)>)
    ensures r.Some? ==> r.value.0 < TWO_32 && |b| == 4 + |r.value.1|
  {
    if |b| < 4 then None
    else
      FourBytes();
      Some((FixedValue(b[..4]), b[4..]))
  }

  lemma FourBytes()
    ensures Pow256(4) == TWO_32
  {
    assert Pow256(2) == 0x1_0000;
  }

  /** readString; None where its asserts would stop the program. */
  function DecodeString(b: seq<Byte>): (r: Option<(seq<Byte>, Rest)>)
    ensures r.Some? ==> |r.value.1| < |b|
  {
    match DecodeInt(b)
    case Some((n, rest)) => if n < TWO_31 && n <= |rest| then Some((rest[..n], rest[n..])) else None
    case None => None
  }

  /** One message; type numbers that are never stored are not read. */
  function DecodeMsg(b: seq<Byte>): (r: Option<(Msg, Rest)>) {
    match DecodeInt(b)
    case Some((kind, b1)) =>
      (match DecodeString(b1)
       case Some((key, b2)) =>
         if kind == PUT then
           (match DecodeString(b2)
            case Some((value, b3)) => Some((Put(key, value), b3))
            case None => None)
         else if kind == DEL then Some((Del(key), b2))
         else None
       case None => None)
    case None => None
  }

  function DecodeMsgs(b: seq<Byte>, n: nat): Option<(seq<Msg>, Rest)>
    decreases n
  {
    if n == 0 then Some(([], b))
    else
      match DecodeMsg(b)
      case Some((m, b1)) =>
        (match DecodeMsgs(b1, n - 1)
         case Some((ms, b2)) => Some(([m] + ms, b2))
         case None => None)
      case None => None
  }

  /** MsgBuf::deserialize inserts what it reads, one message after the other. */
  function DecodeBuf(b: seq<Byte>): Option<(seq<Msg>, Rest)> {
    match DecodeInt(b)
    case Some((n, b1)) =>
      (match DecodeMsgs(b1, n)
       case Some((ms, b2)) => Some((MergeAll([], ms), b2))
       case None => None)
    case None => None
  }

  function DecodePivot(b: seq<Byte>): Option<(Pivot, Rest)> {
    match DecodeInt(b)
    case Some((child, b1)) =>
      (match DecodeString(b1)
       case Some((leftKey, b2)) =>
         (match DecodeBuf(b2)
          case Some((buf, b3)) => Some((Pivot(leftKey, child, buf), b3))
          case None => None)
       case None => None)
    case None => None
  }

  function DecodePivots(b: seq<Byte>, n: nat): Option<(seq<Pivot>, Rest)>
    decreases n
  {
    if n == 0 then Some(([], b))
    else
      match DecodePivot(b)
      case Some((p, b1)) =>
        (match DecodePivots(b1, n - 1)
         case Some((ps, b2)) => Some(([p] + ps, b2))
         case None => None)
      case None => None
  }

  function DecodeNode(b: seq<Byte>): Option<(WireNode, Rest)> {
    if b == [] then None
    else
      match DecodeInt(b[1..])
      case Some((self, b1)) =>
        (match DecodeInt(b1)
         case Some((n, b2)) =>
           if n == 0 then None
           else
             (match DecodePivots(b2, n)
              case Some((ps, b3)) => Some((WireNode(self, NodeState(b[0] != 0, ps)), b3))
              case None => None)
         case None => None)
      case None => None
  }

  // ---------------------------------------------------------------- what fits the widths

  predicate StringFits(s: seq<Byte>) {
    |s| < TWO_31
  }

  predicate MsgFits(m: Msg) {
    StringFits(m.key) && (m.Put? ==> StringFits(m.value))
  }

  ghost predicate BufFits(l: seq<Msg>) {
    |l| < TWO_32 && Sorted(l) && forall i :: 0 <= i < |l| ==> MsgFits(l[i])
  }

  ghost predicate PivotFits(p: Pivot) {
    p.child < TWO_32 && StringFits(p.leftKey) && BufFits(p.buf)
  }

  ghost predicate NodeFits(n: WireNode) {
    && n.self < TWO_32 && 0 < |n.state.pivots| < TWO_32
    && forall i :: 0 <= i < |n.state.pivots| ==> PivotFits(n.state.pivots[i])
  }

  // ---------------------------------------------------------------- round trips

  lemma {:induction false} IntRoundTrip(v: nat, rest: Rest)
    requires v < TWO_32
    ensures DecodeInt(EncodeInt(v) + rest) == Some((v, rest))
  {
    var b := EncodeInt(v) + rest;
    assert b[..4] == EncodeInt(v) && b[4..] == rest;
    FourBytes();
    FixedRoundTrip(v, 4);
  }

  lemma {:induction false} StringRoundTrip(s: seq<Byte>, rest: Rest)
    requires StringFits(s)
    ensures DecodeString(EncodeString(s) + rest) == Some((s, rest))
  {
    assert EncodeString(s) + rest == EncodeInt(|s|) + (s + rest);
    hide EncodeInt, DecodeInt;
    IntRoundTrip(|s|, s + rest);
    assert (s + rest)[..|s|] == s && (s + rest)[|s|..] == rest;
  }

  lemma {:induction false} MsgRoundTrip(m: Msg, rest: Rest)
    requires MsgFits(m)
    ensures DecodeMsg(EncodeMsg(m) + rest) == Some((m, rest))
  {
    hide EncodeInt, EncodeString, DecodeInt, DecodeString;
    match m
    case Put(key, value) =>
      var b2 := EncodeString(value) + rest;
      assert EncodeMsg(m) + rest == EncodeInt(PUT) + (EncodeString(key) + b2);
      IntRoundTrip(PUT, EncodeString(key) + b2);
      StringRoundTrip(key, b2);
      StringRoundTrip(value, rest);
    case Del(key) =>
      assert EncodeMsg(m) + rest == EncodeInt(DEL) + (EncodeString(key) + rest);
      IntRoundTrip(DEL, EncodeString(key) + rest);
      StringRoundTrip(key, rest);
  }

  lemma {:induction false} MsgsRoundTrip(l: seq<Msg>, rest: Rest)
    requires forall i :: 0 <= i < |l| ==> MsgFits(l[i])
    ensures DecodeMsgs(EncodeMsgs(l) + rest, |l|) == Some((l, rest))
  {
    hide EncodeMsg, DecodeMsg;
    if l == [] {
      assert EncodeMsgs(l) + rest == rest;
    } else {
      assert EncodeMsgs(l) + rest == EncodeMsg(l[0]) + (EncodeMsgs(l[1..]) + rest);
      MsgRoundTrip(l[0], EncodeMsgs(l[1..]) + rest);
      MsgsRoundTrip(l[1..], rest);
      assert l == [l[0]] + l[1..];
    }
  }

  /** Inserting a sorted list message by message rebuilds it. */
  lemma {:induction false} Rebuilt(l: seq<Msg>, i: nat)
    requires Sorted(l) && i <= |l|
    ensures MergeAll(l[..i], l[i..]) == l
    decreases |l| - i
  {
    if i == |l| {
      assert l[..i] == l;
    } else {
      InsertAtEnd(l, 0, i);
      assert l[0..i] == l[..i] && l[0..i + 1] == l[..i + 1];
      assert l[i..][0] == l[i] && l[i..][1..] == l[i + 1..];
      Rebuilt(l, i + 1);
    }
  }

  lemma {:induction false} BufRoundTrip(l: seq<Msg>, rest: Rest)
    requires BufFits(l)
    ensures DecodeBuf(EncodeBuf(l) + rest) == Some((l, rest))
  {
    hide EncodeInt, EncodeMsgs, DecodeInt, DecodeMsgs, MergeAll;
    assert EncodeBuf(l) + rest == EncodeInt(|l|) + (EncodeMsgs(l) + rest);
    IntRoundTrip(|l|, EncodeMsgs(l) + rest);
    MsgsRoundTrip(l, rest);
    Rebuilt(l, 0);
    assert l[..0] == [] && l[0..] == l;
  }

  lemma {:induction false} PivotRoundTrip(p: Pivot, rest: Rest)
    requires PivotFits(p)
    ensures DecodePivot(EncodePivot(p) + rest) == Some((p, rest))
  {
    hide EncodeInt, EncodeString, EncodeBuf, DecodeInt, DecodeString, DecodeBuf, BufFits;
    var b2 := EncodeBuf(p.buf) + rest;
    assert EncodePivot(p) + rest == EncodeInt(p.child) + (EncodeString(p.leftKey) + b2);
    IntRoundTrip(p.child, EncodeString(p.leftKey) + b2);
    StringRoundTrip(p.leftKey, b2);
    BufRoundTrip(p.buf, rest);
  }

  lemma {:induction false} PivotsRoundTrip(ps: seq<Pivot>, rest: Rest)
    requires forall i :: 0 <= i < |ps| ==> PivotFits(ps[i])
    ensures DecodePivots(EncodePivots(ps) + rest, |ps|) == Some((ps, rest))
  {
    hide EncodePivot, DecodePivot, PivotFits;
    if ps == [] {
      assert EncodePivots(ps) + rest == rest;
    } else {
      assert EncodePivots(ps) + rest == EncodePivot(ps[0]) + (EncodePivots(ps[1..]) + rest);
      PivotRoundTrip(ps[0], EncodePivots(ps[1..]) + rest);
      PivotsRoundTrip(ps[1..], rest);
      assert ps == [ps[0]] + ps[1..];
    }
  }

  /** A node comes back from its bytes, and what follows them is left over. */
  lemma {:induction false} NodeRoundTrip(n: WireNode, rest: Rest)
    requires NodeFits(n)
    ensures DecodeNode(EncodeNode(n) + rest) == Some((n, rest))
  {
    hide EncodeInt, EncodePivots, DecodeInt, DecodePivots, PivotFits;
    var ps := n.state.pivots;
    var b := EncodeNode(n) + rest;
    var b2 := EncodePivots(ps) + rest;
    assert b[1..] == EncodeInt(n.self) + (EncodeInt(|ps|) + b2);
    IntRoundTrip(n.self, EncodeInt(|ps|) + b2);
    IntRoundTrip(|ps|, b2);
    PivotsRoundTrip(ps, rest);
  }

  // ---------------------------------------------------------------- sizes

  function Dels(l: seq<Msg>): nat {
    if l == [] then 0 else (if l[0].Del? then 1 else 0) + Dels(l[1..])
  }

  /** A buffer's size is that of its bytes and 4 more for each Del, whose value is not written. */
  lemma {:induction false} BufSizeIs(l: seq<Msg>)
    ensures BufSize(l) == |EncodeBuf(l)| + 4 * Dels(l)
  {
    MsgsSizeIs(l);
  }

  lemma {:induction false} MsgsSizeIs(l: seq<Msg>)
    ensures ListSize(l) == |EncodeMsgs(l)| + 4 * Dels(l)
  {
    if l != [] {
      MsgsSizeIs(l[1..]);
    }
  }

  function AllDels(ps: seq<Pivot>): nat {
    if ps == [] then 0 else Dels(ps[0].buf) + AllDels(ps[1..])
  }

  // ---------------------------------------------------------------- the value length as written

  /** MsgBuf::serialize to the letter: the key's length stands before the value too
      (src/Msg.cpp:154). */
  function EncodeMsgAsWritten(m: Msg): seq<Byte> {
    match m
    case Put(key, value) => EncodeInt(PUT) + EncodeString(key) + EncodeInt(|key|) + value
    case Del(key) => EncodeInt(DEL) + EncodeString(key)
  }

  function EncodeMsgsAsWritten(l: seq<Msg>): seq<Byte> {
    if l == [] then [] else EncodeMsgAsWritten(l[0]) + EncodeMsgsAsWritten(l[1..])
  }

  predicate SameLengths(m: Msg) {
    m.Put? ==> |m.key| == |m.value|
  }

  /** A message read wrongly has the right key all the same. */
  lemma {:induction false} MsgAsWritten(m: Msg, rest: Rest)
    requires MsgFits(m)
    ensures var r := DecodeMsg(EncodeMsgAsWritten(m) + rest);
            && (SameLengths(m) ==> r == Some((m, rest)))
            && (!SameLengths(m) && r.Some? ==> r.value.0 != m && r.value.0.key == m.key)
  {
    if SameLengths(m) {
      LengthsAsMeant(m);
      MsgRoundTrip(m, rest);
    } else {
      WrongLength(m.key, m.value, rest);
    }
  }

  lemma {:induction false} WrongLength(key: Key, value: Value, rest: Rest)
    requires StringFits(key) && |key| != |value|
    ensures var r := DecodeMsg(EncodeMsgAsWritten(Put(key, value)) + rest);
            r.Some? ==> r.value.0 != Put(key, value) && r.value.0.key == key
  {
    hide EncodeInt, EncodeString, DecodeInt;
    var b2 := EncodeInt(|key|) + (value + rest);
    assert EncodeMsgAsWritten(Put(key, value)) + rest == EncodeInt(PUT) + (EncodeString(key) + b2);
    IntRoundTrip(PUT, EncodeString(key) + b2);
    StringRoundTrip(key, b2);
    IntRoundTrip(|key|, value + rest);
  }

  /** MsgBuf::serialize to the letter. */
  function EncodeBufAsWritten(l: seq<Msg>): seq<Byte> {
    EncodeInt(|l|) + EncodeMsgsAsWritten(l)
  }

  /** With the right lengths the text writes what it should. */
  lemma {:induction false} SameAsMeant(l: seq<Msg>)
    requires forall i :: 0 <= i < |l| ==> MsgFits(l[i]) && SameLengths(l[i])
    ensures EncodeMsgsAsWritten(l) == EncodeMsgs(l)
  {
    if l != [] {
      assert EncodeMsgAsWritten(l[0]) == EncodeMsg(l[0]) by {
        LengthsAsMeant(l[0]);
      }
      SameAsMeant(l[1..]);
    }
  }

  lemma LengthsAsMeant(m: Msg)
    requires SameLengths(m)
    ensures EncodeMsgAsWritten(m) == EncodeMsg(m)
  {
    if m.Put? {
      assert EncodeString(m.value) == EncodeInt(|m.key|) + m.value;
      assert EncodeInt(PUT) + EncodeString(m.key) + EncodeInt(|m.key|) + m.value
          == EncodeInt(PUT) + EncodeString(m.key) + (EncodeInt(|m.key|) + m.value);
    }
  }

  lemma {:induction false} InsertLength(l: seq<Msg>, m: Msg)
    requires Sorted(l)
    ensures |InsertMsg(l, m)| == |l| + if Lookup(l, m.key).Some? then 0 else 1
  {
    LookupMember(l, m.key);
  }

  /** Inserts that each make a list longer replace nothing. */
  lemma {:induction false} MergeLength(l: seq<Msg>, ms: seq<Msg>, k: Key)
    requires Sorted(l)
    ensures |MergeAll(l, ms)| <= |l| + |ms|
    ensures |MergeAll(l, ms)| == |l| + |ms| && Lookup(l, k).Some? ==> Lookup(MergeAll(l, ms), k) == Lookup(l, k)
    decreases |ms|
  {
    if ms != [] {
      hide Lookup, InsertMsg;
      InsertLength(l, ms[0]);
      InsertedSorted(l, ms[0]);
      LookupInsert(l, ms[0], k);
      MergeLength(InsertMsg(l, ms[0]), ms[1..], k);
    }
  }

  /** Once one message is read wrongly, no later one makes up for it: the list would be shorter. */
  lemma {:induction false} RebuiltAsWritten(l: seq<Msg>, i: nat, rest: Rest, ms: seq<Msg>, rest': Rest)
    requires BufFits(l) && i <= |l| && MergeAll(l[..i], ms) == l
    requires DecodeMsgs(EncodeMsgsAsWritten(l[i..]) + rest, |l| - i) == Some((ms, rest'))
    ensures forall j :: i <= j < |l| ==> SameLengths(l[j])
    decreases |l| - i
  {
    hide *;
    if i < |l| {
      FitsAt(l, i);
      TailAsWritten(l, i, rest);
      var b1 := EncodeMsgsAsWritten(l[i + 1..]) + rest;
      MsgAsWritten(l[i], b1);
      DecodedFirst(EncodeMsgAsWritten(l[i]) + b1, |l| - i);
      FirstStays(l, i, ms);
      if SameLengths(l[i]) {
        MergedPast(l, i, ms);
        RebuiltAsWritten(l, i + 1, rest, ms[1..], rest');
      }
    }
  }

  lemma FitsAt(l: seq<Msg>, i: nat)
    requires BufFits(l) && i < |l|
    ensures Sorted(l) && MsgFits(l[i])
  {
  }

  lemma {:induction false} TailAsWritten(l: seq<Msg>, i: nat, rest: Rest)
    requires i < |l|
    ensures EncodeMsgsAsWritten(l[i..]) + rest == EncodeMsgAsWritten(l[i]) + (EncodeMsgsAsWritten(l[i + 1..]) + rest)
  {
    hide EncodeMsgAsWritten;
    assert l[i..][0] == l[i] && l[i..][1..] == l[i + 1..];
  }

  lemma {:induction false} DecodedFirst(b: seq<Byte>, n: nat)
    requires n > 0
    ensures var r := DecodeMsgs(b, n);
            r.Some? ==>
              && |r.value.0| == n && DecodeMsg(b).Some? && r.value.0[0] == DecodeMsg(b).value.0
              && DecodeMsgs(DecodeMsg(b).value.1, n - 1) == Some((r.value.0[1..], r.value.1))
  {
    hide DecodeMsg;
    DecodedLength(b, n);
  }

  lemma {:induction false} MergedPast(l: seq<Msg>, i: nat, ms: seq<Msg>)
    requires Sorted(l) && i < |l| && ms != [] && ms[0] == l[i] && MergeAll(l[..i], ms) == l
    ensures MergeAll(l[..i + 1], ms[1..]) == l
  {
    InsertAtEnd(l, 0, i);
    hide Sorted, InsertMsg;
    assert l[0..i] == l[..i] && l[0..i + 1] == l[..i + 1];
  }

  /** If inserting ms makes l[..i] into l, the first of them stays in it. */
  lemma {:induction false} FirstStays(l: seq<Msg>, i: nat, ms: seq<Msg>)
    requires Sorted(l) && i < |l| && |ms| == |l| - i && MergeAll(l[..i], ms) == l
    ensures Lookup(l, ms[0].key) == Some(ms[0])
    ensures ms[0].key == l[i].key ==> ms[0] == l[i]
  {
    var m := ms[0];
    assert Sorted(l[..i]);
    InsertLength(l[..i], m);
    InsertedSorted(l[..i], m);
    LookupInsert(l[..i], m, m.key);
    LookupMember(l, l[i].key);
    hide Lookup, InsertMsg, Sorted;
    MergeLength(InsertMsg(l[..i], m), ms[1..], m.key);
  }

  lemma {:induction false} DecodedLength(b: seq<Byte>, n: nat)
    ensures DecodeMsgs(b, n).Some? ==> |DecodeMsgs(b, n).value.0| == n
    decreases n
  {
    if n > 0 && DecodeMsg(b).Some? {
      DecodedLength(DecodeMsg(b).value.1, n - 1);
    }
  }

  /** A buffer written so comes back exactly when every value is as long as its key. */
  lemma {:induction false} SerializeAsWritten(l: seq<Msg>, rest: Rest)
    requires BufFits(l)
    ensures DecodeBuf(EncodeBufAsWritten(l) + rest) == Some((l, rest)) <==> forall i :: 0 <= i < |l| ==>
              SameLengths(l[i])
  {
    hide EncodeInt, DecodeInt, DecodeMsgs, EncodeMsgsAsWritten, EncodeMsgs, MergeAll, SameLengths, MsgFits;
    var b := EncodeMsgsAsWritten(l) + rest;
    assert EncodeBufAsWritten(l) + rest == EncodeInt(|l|) + b;
    IntRoundTrip(|l|, b);
    assert l[0..] == l && l[..0] == [];
    if forall i :: 0 <= i < |l| ==> SameLengths(l[i]) {
      SameAsMeant(l);
      MsgsRoundTrip(l, rest);
      Rebuilt(l, 0);
    }
    if DecodeBuf(EncodeBufAsWritten(l) + rest) == Some((l, rest)) {
      var r := DecodeMsgs(b, |l|);
      RebuiltAsWritten(l, 0, rest, r.value.0, r.value.1);
    }
  }
}
