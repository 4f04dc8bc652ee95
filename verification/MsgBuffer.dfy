/**
 * A message buffer as an object: a skip list and the running size (src/Msg.cpp). What the tree relies
 * on is proved here about the object: it holds a sorted list, its lookups are that list's, and the size
 * it reports is that list's size after every operation.
 */
module MsgBuffer {
  import opened Keys
  import opened Msgs
  import opened SkipList
  import opened SkipListIterator

  class MsgBuf {
    const list: SkipList
    var bytes: nat

    /** The messages, in key order. */
    ghost function Contents(): (l: seq<Msg>)
      reads list, list.nodes
      requires |list.nodes| > 0
    {
      list.Contents()
    }

    ghost predicate Valid()
      reads this, list, list.nodes
    {
      list.Valid() && bytes == ListSize(Contents())
    }

    constructor ()
      ensures Valid() && Contents() == [] && fresh(list) && fresh(list.nodes)
    {
      list := new SkipList();
      bytes := 0;
    }

    method Count() returns (n: nat)
      requires Valid()
      ensures n == |Contents()|
    {
      list.AtCount(0);
      n := list.count;
    }

    method Size() returns (n: nat)
      requires Valid()
      ensures n == BufSize(Contents())
    {
      n := 4 + bytes;
    }

    method Clear()
      requires Valid()
      modifies this, list, list.nodes
      ensures Valid() && Contents() == []
      ensures forall n :: n in list.nodes ==> n in old(list.nodes)
    {
      HasNodes();
      list.Clear();
      bytes := 0;
    }

    lemma HasNodes()
      requires list.Valid()
      ensures |list.nodes| > 0 && list.head in list.nodes && |Contents()| == list.count
    {
      list.AtCount(0);
    }

    /** find: the stored message for a key, if there is one. */
    method Find(key: Key) returns (msg: Option<Msg>)
      requires Valid()
      ensures msg == Lookup(Contents(), key)
    {
      assert list.Valid();
      hide *;
      HasNodes();
      var iter := new Iterator(list);
      iter.Seek(Msg.Del(key));
      var valid := iter.IsValid();
      Sought(Contents(), key, list.count);
      msg := None;
      if valid {
        var got := iter.Key();
        if got.key == key {
          msg := Some(got);
        }
      }
    }

    /** What a seek says about a lookup. */
    static lemma Sought(l: seq<Msg>, k: Key, count: nat)
      requires count == |l|
      ensures LowerBound(l, k) <= count
      ensures Lookup(l, k) == if LowerBound(l, k) < count && l[LowerBound(l, k)].key == k
                then Some(l[LowerBound(l, k)]) else None
    {
    }

    /** insert, giving back all a replaced message was charged for; the text of src/Msg.cpp:64 gives
        back 8 bytes less (see AsWritten.InsertAsWritten). */
    method Insert(msg: Msg)
      requires Valid()
      modifies this, list, list.nodes
      ensures Valid() && Contents() == InsertMsg(old(Contents()), msg)
      ensures forall n :: n in list.nodes ==> n in old(list.nodes) || fresh(n)
    {
      hide *;
      var got := Find(msg.key);
      InsertedSize(msg);
      if got.Some? {
        bytes := bytes - (MsgSize(got.value) + 8);
      }
      InsertInto(msg);
    }

    /** The rest of insert. */
    method InsertInto(msg: Msg)
      requires list.Valid() && |list.nodes| > 0
      requires bytes + MsgSize(msg) + 8 == ListSize(InsertMsg(list.Contents(), msg))
      modifies this, list, list.nodes
      ensures Valid() && Contents() == InsertMsg(old(list.Contents()), msg)
      ensures forall n :: n in list.nodes ==> n in old(list.nodes) || fresh(n)
    {
      hide *;
      bytes := bytes + MsgSize(msg) + 8;
      list.Insert(msg);
      HasNodes();
      IsValid();
    }

    lemma InsertedSize(msg: Msg)
      requires Valid()
      ensures list.Valid() && |list.nodes| > 0 && Contents() == list.Contents()
      ensures var got := Lookup(Contents(), msg.key);
              var back := if got.Some? then MsgSize(got.value) + 8 else 0;
              back <= bytes && ListSize(InsertMsg(Contents(), msg)) == bytes - back + MsgSize(msg) + 8
    {
      InsertSize(Contents(), msg);
      RemovedSize(Contents(), msg.key);
    }

    static lemma RemovedSize(l: seq<Msg>, k: Key)
      ensures Lookup(l, k).Some? ==> MsgSize(Lookup(l, k).value) + 8 <= ListSize(l)
    {
      if Lookup(l, k).Some? {
        ListSizeAt(l, LowerBound(l, k));
      }
    }

    lemma IsValid()
      requires list.Valid() && |list.nodes| > 0 && bytes == ListSize(list.Contents())
      ensures Valid() && Contents() == list.Contents()
    {
    }

    /** resize: the first messages stay, and the size is summed up again. */
    method Resize(size: nat)
      requires Valid() && size <= |Contents()|
      modifies this, list, list.nodes
      ensures Valid() && size <= |old(Contents())| && Contents() == old(Contents())[..size]
      ensures forall n :: n in list.nodes ==> n in old(list.nodes) || fresh(n)
    {
      HasNodes();
      hide *;
      list.Resize(size);
      HasNodes();
      bytes := SumSizes();
      IsValid();
    }

    /** resize's loop. */
    method SumSizes() returns (sum: nat)
      requires list.Valid()
      ensures |list.nodes| > 0 && sum == ListSize(list.Contents())
    {
      hide *;
      HasNodes();
      list.AtCount(0);
      ghost var l := list.Contents();
      sum := 0;
      var iter := new Iterator(list);
      iter.SeekToFirst();
      NoSize(l);
      var more := iter.IsValid();
      while more
        invariant iter.Valid() && iter.list == list && fresh(iter)
        invariant |list.nodes| > 0 && list.Contents() == l && |l| == list.count
        invariant iter.index <= |l| && sum == ListSize(l[..iter.index]) && more == (iter.index < |l|)
        decreases |l| - iter.index
      {
        SizeOfNext(l, iter.index);
        var msg := iter.Key();
        sum := sum + MsgSize(msg) + 8;
        iter.Next();
        more := iter.IsValid();
      }
      assert l[..iter.index] == l;
    }

    static lemma NoSize(l: seq<Msg>)
      ensures ListSize(l[..0]) == 0
    {
    }

    static lemma SizeOfNext(l: seq<Msg>, i: nat)
      requires i < |l|
      ensures ListSize(l[..i + 1]) == ListSize(l[..i]) + MsgSize(l[i]) + 8
    {
      assert l[..i + 1] == l[..i] + [l[i]] + [];
      ListSizeSplice(l[..i], l[i], []);
    }
  }

  /** What a valid buffer holds, said of its list. */
  lemma Opened(buf: MsgBuf) returns (l: seq<Msg>)
    requires buf.Valid()
    ensures buf.list.Valid() && |buf.list.nodes| > 0 && l == buf.Contents() == buf.list.Contents()
    ensures Sorted(l) && |l| == buf.list.count
  {
    buf.list.AtCount(0);
    l := buf.Contents();
  }

  /** insert, saying which nodes the buffer may have afterwards. */
  method InsertInPlace(buf: MsgBuf, msg: Msg)
    requires buf.Valid() && |buf.list.nodes| > 0
    modifies buf, buf.list, buf.list.nodes
    ensures buf.Valid() && |buf.list.nodes| > 0 && buf.Contents() == InsertMsg(old(buf.Contents()), msg)
    ensures forall j :: 0 <= j < |buf.list.nodes| ==>
              buf.list.nodes[j] in old(buf.list.nodes) || fresh(buf.list.nodes[j])
  {
    hide *;
    buf.Insert(msg);
    ghost var _ := Opened(buf);
    assert forall j :: 0 <= j < |buf.list.nodes| ==> buf.list.nodes[j] in buf.list.nodes;
  }

  method CopyOne(iter: Iterator, buf: MsgBuf)
    requires iter.Valid() && iter.index < iter.list.count && |iter.list.nodes| > 0
    requires buf.Valid() && |buf.list.nodes| > 0 && iter.list != buf.list && iter.index < |iter.list.Contents()|
    requires forall j :: 0 <= j < |buf.list.nodes| ==> buf.list.nodes[j] !in iter.list.nodes
    modifies iter, buf, buf.list, buf.list.nodes
    ensures iter.Valid() && iter.index == old(iter.index) + 1
    ensures buf.Valid() && |buf.list.nodes| > 0
    ensures buf.Contents() == InsertMsg(old(buf.Contents()), old(iter.list.Contents()[iter.index]))
    ensures forall j :: 0 <= j < |buf.list.nodes| ==>
              buf.list.nodes[j] in old(buf.list.nodes) || fresh(buf.list.nodes[j])
  {
    hide *;
    var msg := iter.Key();
    iter.Next();
    InsertInPlace(buf, msg);
  }

  /** The loop of splitBuf: the messages from the middle on are copied into a new buffer. */
  method CopyUpperHalf(buf0: MsgBuf) returns (buf1: MsgBuf, middle: Msg)
    requires buf0.Valid() && |buf0.list.nodes| > 0 && |buf0.Contents()| > 0
    ensures buf1.Valid() && fresh(buf1) && fresh(buf1.list) && |buf1.list.nodes| > 0
    ensures forall j :: 0 <= j < |buf1.list.nodes| ==> fresh(buf1.list.nodes[j])
    ensures var l := buf0.Contents(); middle == l[|l| / 2] && buf1.Contents() == l[|l| / 2..]
  {
    hide *;
    ghost var l := Opened(buf0);
    ghost var m := |l| / 2;
    buf1 := new MsgBuf();
    ghost var _ := Opened(buf1);
    var iter := new Iterator(buf0.list);
    iter.SeekToMiddle();
    middle := iter.Key();
    var more := iter.IsValid();
    assert l[m..m] == [];
    while more
      invariant iter.Valid() && iter.list == buf0.list && fresh(iter)
      invariant |buf0.list.nodes| > 0 && buf0.list.Contents() == l && |l| == buf0.list.count
      invariant buf1.Valid() && |buf1.list.nodes| > 0 && fresh(buf1) && fresh(buf1.list)
      invariant forall j :: 0 <= j < |buf1.list.nodes| ==> fresh(buf1.list.nodes[j])
      invariant m <= iter.index <= |l| && buf1.Contents() == l[m..iter.index] && more == (iter.index < |l|)
      decreases |l| - iter.index
    {
      InsertAtEnd(l, m, iter.index);
      CopyOne(iter, buf1);
      more := iter.IsValid();
    }
    assert l[m..iter.index] == l[m..];
  }

  /** splitBuf's work on the buffers: the upper half moves to a new buffer, the lower half stays, and
      together they are no smaller than before (the assert at src/Node.cpp:180). */
  method SplitBuffer(buf0: MsgBuf) returns (buf1: MsgBuf, middle: Msg)
    requires buf0.Valid() && |buf0.list.nodes| > 0 && |buf0.Contents()| > 0
    modifies buf0, buf0.list, buf0.list.nodes
    ensures buf0.Valid() && buf1.Valid() && |buf0.list.nodes| > 0 && |buf1.list.nodes| > 0
    ensures var l := old(buf0.Contents());
            middle == l[|l| / 2] && buf0.Contents() == l[..|l| / 2] && buf1.Contents() == l[|l| / 2..]
    ensures BufSize(buf0.Contents()) + BufSize(buf1.Contents()) == BufSize(old(buf0.Contents())) + 4
  {
    hide *;
    ghost var l := Opened(buf0);
    buf1, middle := CopyUpperHalf(buf0);
    var n := buf0.Count();
    buf0.Resize(n / 2);
    ghost var _ := Opened(buf0);
    HalvesSize(l, n / 2);
  }
}
