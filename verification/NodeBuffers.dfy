/** Node::pushDownLocked on buffer objects: two iterators over the parent's buffer, and the child's own. */
module NodeBuffers {
  import opened Keys
  import opened Msgs
  import opened TreeModel
  import opened TreeSteps
  import opened SkipListIterator
  import opened MsgBuffer
  import NodeObject

  /** A pivot as the source has it. */
  datatype Slot = Slot(leftKey: Key, child: Nid, buf: MsgBuf)

  /** The objects a buffer is made of. */
  ghost function Parts(b: MsgBuf): set<object>
    reads b.list
  {
    {b, b.list} + set n | n in b.list.nodes
  }

  ghost predicate Well(b: MsgBuf)
    reads Parts(b)
  {
    b.Valid() && |b.list.nodes| > 0
  }

  ghost function Held(b: MsgBuf): seq<Msg>
    reads Parts(b)
  {
    if |b.list.nodes| > 0 then b.Contents() else []
  }

  lemma WellIs(b: MsgBuf)
    requires Well(b)
    ensures b.Valid() && |b.list.nodes| > 0 && Held(b) == b.Contents()
  {
  }

  lemma IsWell(b: MsgBuf)
    requires b.Valid() && |b.list.nodes| > 0
    ensures Well(b) && Held(b) == b.Contents()
  {
  }

  lemma InParts(b: MsgBuf)
    ensures b in Parts(b) && b.list in Parts(b) && forall o :: o in Parts(b) ==> allocated(o)
  {
  }

  method InsertWell(b: MsgBuf, msg: Msg)
    requires Well(b)
    modifies Parts(b)
    ensures Well(b) && Held(b) == InsertMsg(old(Held(b)), msg)
    ensures forall o :: o in Parts(b) ==> o in old(Parts(b)) || fresh(o)
  {
    WellIs(b);
    hide Well, Held, b.Valid, b.Contents;
    InsertInPlace(b, msg);
    IsWell(b);
  }

  /** insert, beside buffers that have no object in common with this one. */
  method InsertBeside(b: MsgBuf, msg: Msg, ghost others: set<MsgBuf>)
    requires Well(b)
    requires forall x :: x in others ==> Well(x) && Parts(x) !! Parts(b)
    modifies Parts(b)
    ensures Well(b) && Held(b) == InsertMsg(old(Held(b)), msg)
    ensures forall o :: o in Parts(b) ==> o in old(Parts(b)) || fresh(o)
    ensures forall x :: x in others ==> Parts(x) == old(Parts(x)) && Parts(x) !! Parts(b)
    ensures forall x :: x in others ==> Well(x) && Held(x) == old(Held(x))
  {
    hide *;
    forall x | x in others
      ensures x.list in Parts(x) && forall o :: o in Parts(x) ==> allocated(o)
    {
      InParts(x);
    }
    InsertWell(b, msg);
    forall x | x in others
      ensures Parts(x) == old(Parts(x))
      ensures Well(x) && Held(x) == old(Held(x))
      ensures Parts(x) !! Parts(b)
    {
      assert x.list in old(Parts(x)) && x.list !in old(Parts(b));
      assert Parts(x) == old(Parts(x));
      assert forall o :: o in old(Parts(x)) ==> o !in old(Parts(b));
      assert forall o :: o in old(Parts(x)) ==> !fresh(o);
      assert forall o :: o in Parts(b) ==> o !in Parts(x);
      assert Well(x);
    }
  }

  // ---------------------------------------------------------------- the child's buffers

  ghost function Lists(slots: seq<Slot>): set<object> {
    set i | 0 <= i < |slots| :: slots[i].buf.list
  }

  ghost function Footprint(slots: seq<Slot>): set<object>
    reads Lists(slots)
  {
    set i, o | 0 <= i < |slots| && o in Parts(slots[i].buf) :: o
  }

  /** The pivots as values. */
  ghost function View(slots: seq<Slot>): (r: seq<Pivot>)
    reads Lists(slots)
    reads Footprint(slots)
    ensures |r| == |slots|
    ensures forall i :: 0 <= i < |slots| ==> r[i] == Pivot(slots[i].leftKey, slots[i].child, Held(slots[i].buf))
  {
    seq(|slots|, i requires 0 <= i < |slots| reads if 0 <= i < |slots| then Parts(slots[i].buf) else {} =>
      Pivot(slots[i].leftKey, slots[i].child, Held(slots[i].buf)))
  }

  /** No two of the buffers share an object. */
  ghost predicate Laid(slots: seq<Slot>, from: MsgBuf)
    reads Lists(slots)
    reads Footprint(slots), Parts(from)
  {
    && Well(from)
    && (forall i :: 0 <= i < |slots| ==> Well(slots[i].buf) && Parts(from) !! Parts(slots[i].buf))
    && (forall i, j :: 0 <= i < |slots| && 0 <= j < |slots| && i != j ==> Parts(slots[i].buf) !! Parts(slots[j].buf))
  }

  /** Node::insertMsg on a buffer object. */
  method InsertSlot(slots: seq<Slot>, i: nat, msg: Msg, from: MsgBuf)
    requires i < |slots| && Laid(slots, from)
    modifies Parts(slots[i].buf)
    ensures Laid(slots, from) && Held(from) == old(Held(from)) && Parts(from) == old(Parts(from))
    ensures View(slots) == old(View(slots))[i := old(View(slots))[i].(buf := InsertMsg(old(View(slots))[i].buf, msg))]
    ensures forall j, o :: 0 <= j < |slots| && o in Parts(slots[j].buf) ==> o in old(Parts(slots[j].buf)) || fresh(o)
  {
    hide Well, Held, Parts;
    ghost var others := {from} + set j | 0 <= j < |slots| && j != i :: slots[j].buf;
    InsertBeside(slots[i].buf, msg, others);
    assert forall j :: 0 <= j < |slots| && j != i ==> slots[j].buf in others;
  }

  // ---------------------------------------------------------------- the two iterators

  /** The iterator walks over the messages ms of `from`. */
  ghost predicate Cursor(iter: Iterator, from: MsgBuf, ms: seq<Msg>)
    reads iter, Parts(from)
  {
    && iter.list == from.list && |from.list.nodes| > 0 && iter.Valid()
    && from.list.Contents() == ms && |ms| == from.list.count
  }

  /** It is no part of any buffer. */
  ghost predicate Aside(iter: Iterator, slots: seq<Slot>, from: MsgBuf)
    reads Lists(slots)
    reads from.list
  {
    iter !in Parts(from) && forall i :: 0 <= i < |slots| ==> iter !in Parts(slots[i].buf)
  }

  lemma CursorIs(iter: Iterator, from: MsgBuf, ms: seq<Msg>)
    requires Cursor(iter, from, ms)
    ensures iter.Valid() && iter.index <= |ms| && |ms| == iter.list.count
    ensures iter.index < |ms| ==>
              iter.index < |iter.list.Contents()| && iter.list.Contents()[iter.index] == ms[iter.index]
  {
  }

  lemma NotInFootprint(iter: Iterator, slots: seq<Slot>, from: MsgBuf)
    requires Aside(iter, slots, from)
    ensures iter !in Footprint(slots) && iter !in Parts(from)
  {
  }

  lemma FromIsApart(slots: seq<Slot>, from: MsgBuf, i: nat)
    requires Laid(slots, from) && i < |slots|
    ensures forall o :: o in Parts(from) ==> o !in Parts(slots[i].buf)
  {
  }

  lemma AllThere(slots: seq<Slot>, from: MsgBuf)
    ensures forall o :: o in Parts(from) ==> allocated(o)
    ensures forall o :: o in Footprint(slots) ==> allocated(o)
    ensures forall o :: o in Lists(slots) ==> o in Footprint(slots)
    ensures from.list in Parts(from)
    ensures forall i, o :: 0 <= i < |slots| && o in Parts(slots[i].buf) ==> o in Footprint(slots)
  {
    forall o | o in Lists(slots)
      ensures o in Footprint(slots)
    {
      var i :| 0 <= i < |slots| && o == slots[i].buf.list;
      assert o in Parts(slots[i].buf);
    }
  }

  /** next, on an iterator over `from`. */
  method Advance(iter: Iterator, from: MsgBuf, ghost ms: seq<Msg>)
    requires Cursor(iter, from, ms) && iter.index < |ms| && iter !in Parts(from)
    modifies iter
    ensures Cursor(iter, from, ms) && iter.index == old(iter.index) + 1
  {
    hide from.Valid, from.list.Valid;
    iter.Next();
  }

  /** key, on an iterator over `from`. */
  method KeyAt(iter: Iterator, from: MsgBuf, ghost ms: seq<Msg>) returns (key: Msg)
    requires Cursor(iter, from, ms) && iter.index < |ms|
    ensures key == ms[iter.index]
  {
    CursorIs(iter, from, ms);
    key := iter.Key();
  }

  /** What both loops do at each message: deliver the one under slow, then move slow on. */
  method DeliverOne(slots: seq<Slot>, i: nat, slow: Iterator, fast: Iterator, from: MsgBuf, ghost ms: seq<Msg>)
    requires i < |slots| && Laid(slots, from) && slow != fast && slow.index < |ms|
    requires Cursor(slow, from, ms) && Cursor(fast, from, ms) && Aside(slow, slots, from) && Aside(fast, slots, from)
    modifies slow, Parts(slots[i].buf)
    ensures Laid(slots, from)
    ensures Cursor(slow, from, ms) && Cursor(fast, from, ms) && Aside(slow, slots, from) && Aside(fast, slots, from)
    ensures slow.index == old(slow.index) + 1 && fast.index == old(fast.index)
    ensures var b := InsertMsg(old(View(slots))[i].buf, ms[old(slow.index)]);
            View(slots) == old(View(slots))[i := old(View(slots))[i].(buf := b)]
    ensures forall j, o :: 0 <= j < |slots| && o in Parts(slots[j].buf) ==> o in old(Parts(slots[j].buf)) || fresh(o)
    ensures Parts(from) == old(Parts(from))
  {
    hide Well, Held, Parts, Lists, View, Cursor, Laid, InsertMsg;
    hide Footprint;
    FromIsApart(slots, from, i);
    AllThere(slots, from);
    var key := KeyAt(slow, from, ms);
    InsertSlot(slots, i, key, from);
    AllThere(slots, from);
    NotInFootprint(slow, slots, from);
    NotInFootprint(fast, slots, from);
    Advance(slow, from, ms);
  }

  // ---------------------------------------------------------------- the loops

  /** slow and fast walk over `from`, beside the child's buffers. */
  ghost predicate Walking(slots: seq<Slot>, slow: Iterator, fast: Iterator, from: MsgBuf, ms: seq<Msg>)
    reads Lists(slots)
    reads Footprint(slots), Parts(from), slow, fast
  {
    && Laid(slots, from) && slow != fast
    && Cursor(slow, from, ms) && Cursor(fast, from, ms) && Aside(slow, slots, from) && Aside(fast, slots, from)
  }

  /** What has been delivered, and what the iterators know (NodeObject.Passed). */
  ghost predicate Delivered(ps: seq<Pivot>, ms: seq<Msg>, lo: Key, hi: Option<Key>, now: seq<Pivot>, idx: nat,
                            slow: nat, fast: nat) {
    && PivotsOk(ps, lo, hi) && BufOk(ms, lo, hi) && slow <= |ms| && fast <= |ms|
    && now == Distribute(ps, ms[..slow]) && NodeObject.Passed(ps, ms, idx, slow, fast)
  }

  lemma {:induction false} DeliveredOne(ps: seq<Pivot>, ms: seq<Msg>, lo: Key, hi: Option<Key>, now: seq<Pivot>,
                                        idx: nat, slow: nat, fast: nat)
    requires Delivered(ps, ms, lo, hi, now, idx, slow, fast) && slow < |ms| && (slow < fast || idx == |ps|)
    ensures 1 <= idx <= |ps| == |now|
    ensures Delivered(ps, ms, lo, hi, now[idx - 1 := now[idx - 1].(buf := InsertMsg(now[idx - 1].buf, ms[slow]))], idx,
                      slow + 1, fast)
  {
    hide PivotsOk, BufOk, Distribute, NodeObject.Passed, InsertMsg;
    NodeObject.DeliveredNext(ps, ms, lo, hi, idx, slow, fast);
  }

  lemma Grown(slots: seq<Slot>)
    ensures forall o :: o in Footprint(slots) ==> exists j :: 0 <= j < |slots| && o in Parts(slots[j].buf)
  {
  }

  /** One message more. */
  method DeliverNext(slots: seq<Slot>, idx: nat, slow: Iterator, fast: Iterator, from: MsgBuf,
                     ghost ms: seq<Msg>, ghost ps: seq<Pivot>, ghost lo: Key, ghost hi: Option<Key>)
    requires Walking(slots, slow, fast, from, ms) && slow.index < |ms| && (slow.index < fast.index || idx == |ps|)
    requires Delivered(ps, ms, lo, hi, View(slots), idx, slow.index, fast.index)
    modifies slow, Footprint(slots)
    ensures Walking(slots, slow, fast, from, ms) && slow.index == old(slow.index) + 1 && fast.index == old(fast.index)
    ensures Delivered(ps, ms, lo, hi, View(slots), idx, slow.index, fast.index)
    ensures forall o :: o in Footprint(slots) ==> o in old(Footprint(slots)) || fresh(o)
    ensures Parts(from) == old(Parts(from))
  {
    hide Well, Held, Parts, Lists, View, Cursor, Laid, Aside, Delivered, InsertMsg, Footprint;
    DeliveredOne(ps, ms, lo, hi, View(slots), idx, slow.index, fast.index);
    AllThere(slots, from);
    DeliverOne(slots, idx - 1, slow, fast, from, ms);
    Grown(slots);
  }

  /** valid, on either iterator. */
  method HasMore(iter: Iterator, slots: seq<Slot>, slow: Iterator, fast: Iterator, from: MsgBuf, ghost ms: seq<Msg>)
    returns (more: bool)
    requires Walking(slots, slow, fast, from, ms) && (iter == slow || iter == fast)
    ensures Walking(slots, slow, fast, from, ms) && View(slots) == old(View(slots))
    ensures Footprint(slots) == old(Footprint(slots))
    ensures Parts(from) == old(Parts(from))
    ensures iter.index <= |ms| && (more <==> iter.index < |ms|)
  {
    hide Well, Held, Parts, Lists, View, Cursor, Laid, Aside, Footprint;
    CursorIs(iter, from, ms);
    AllThere(slots, from);
    more := iter.IsValid();
  }

  /** The inner loop: slow catches up with fast. */
  method DeliverRun(slots: seq<Slot>, idx: nat, i: nat, j: nat, slow: Iterator, fast: Iterator, from: MsgBuf,
                    ghost ms: seq<Msg>, ghost ps: seq<Pivot>, ghost lo: Key, ghost hi: Option<Key>)
    requires Walking(slots, slow, fast, from, ms) && slow.index == i <= j == fast.index
    requires Delivered(ps, ms, lo, hi, View(slots), idx, i, j)
    modifies slow, Footprint(slots)
    ensures Walking(slots, slow, fast, from, ms) && slow.index == j && fast.index == old(fast.index)
    ensures Delivered(ps, ms, lo, hi, View(slots), idx, j, j)
    ensures forall o :: o in Footprint(slots) ==> o in old(Footprint(slots)) || fresh(o)
    ensures Parts(from) == old(Parts(from))
  {
    hide *;
    FastIsWithin(slots, slow, fast, from, ms);
    var n := i;
    while n != j
      invariant i <= n <= j <= |ms| && Walking(slots, slow, fast, from, ms) && slow.index == n && fast.index == j
      invariant Delivered(ps, ms, lo, hi, View(slots), idx, n, j)
      invariant forall o :: o in Footprint(slots) ==> o in old(Footprint(slots)) || fresh(o)
      invariant Parts(from) == old(Parts(from))
    {
      DeliverNext(slots, idx, slow, fast, from, ms, ps, lo, hi);
      n := n + 1;
    }
  }

  lemma FastIsWithin(slots: seq<Slot>, slow: Iterator, fast: Iterator, from: MsgBuf, ms: seq<Msg>)
    requires Walking(slots, slow, fast, from, ms)
    ensures fast.index <= |ms|
  {
  }

  /** The last loop: slow delivers to its end. */
  method DeliverRest(slots: seq<Slot>, idx: nat, slow: Iterator, fast: Iterator, from: MsgBuf,
                     ghost ms: seq<Msg>, ghost ps: seq<Pivot>, ghost lo: Key, ghost hi: Option<Key>)
    requires Walking(slots, slow, fast, from, ms) && (fast.index == |ms| || idx == |ps|) && |ps| > 0
    requires Delivered(ps, ms, lo, hi, View(slots), idx, slow.index, fast.index)
    modifies slow, Footprint(slots)
    ensures Walking(slots, slow, fast, from, ms) && View(slots) == Distribute(ps, ms)
    ensures forall o :: o in Footprint(slots) ==> o in old(Footprint(slots)) || fresh(o)
    ensures Parts(from) == old(Parts(from))
  {
    hide *;
    ghost var j := fast.index;
    var more := HasMore(slow, slots, slow, fast, from, ms);
    while more
      invariant Walking(slots, slow, fast, from, ms) && fast.index == j && slow.index <= |ms|
      invariant more == (slow.index < |ms|)
      invariant Delivered(ps, ms, lo, hi, View(slots), idx, slow.index, j)
      invariant forall o :: o in Footprint(slots) ==> o in old(Footprint(slots)) || fresh(o)
      invariant Parts(from) == old(Parts(from))
      decreases |ms| - slow.index
    {
      DeliverNext(slots, idx, slow, fast, from, ms, ps, lo, hi);
      more := HasMore(slow, slots, slow, fast, from, ms);
    }
    DeliveredAll(ps, ms, lo, hi, View(slots), idx, slow.index, j);
  }

  lemma DeliveredAll(ps: seq<Pivot>, ms: seq<Msg>, lo: Key, hi: Option<Key>, now: seq<Pivot>, idx: nat, slow: nat,
                     fast: nat)
    requires Delivered(ps, ms, lo, hi, now, idx, slow, fast) && slow >= |ms|
    ensures |ps| > 0 && now == Distribute(ps, ms)
  {
    assert ms[..|ms|] == ms;
  }

  /** A new iterator at the first message. */
  method AtFirst(from: MsgBuf) returns (iter: Iterator)
    requires Well(from)
    ensures fresh(iter) && Cursor(iter, from, Held(from)) && iter.index == 0
    ensures Well(from) && Held(from) == old(Held(from)) && Parts(from) == old(Parts(from))
  {
    WellList(from);
    hide Well, Held, from.Valid, from.Contents, from.list.Valid, from.list.Contents;
    iter := new Iterator(from.list);
    iter.SeekToFirst();
    WellList(from);
  }

  lemma WellList(from: MsgBuf)
    requires Well(from)
    ensures from.Valid() && from.list.Valid() && |from.list.nodes| > 0
    ensures Held(from) == from.Contents() == from.list.Contents() && |Held(from)| == from.list.count
  {
    ghost var _ := Opened(from);
  }

  /** The same beside the child's buffers. */
  method FirstBeside(slots: seq<Slot>, from: MsgBuf) returns (iter: Iterator)
    requires Laid(slots, from)
    ensures fresh(iter) && Cursor(iter, from, Held(from)) && iter.index == 0 && Aside(iter, slots, from)
    ensures Laid(slots, from) && View(slots) == old(View(slots)) && Footprint(slots) == old(Footprint(slots))
    ensures Held(from) == old(Held(from)) && Parts(from) == old(Parts(from))
  {
    LaidWell(slots, from);
    AllThere(slots, from);
    hide Well, Held, Parts, Lists, View, Laid, Footprint, Cursor, Aside;
    iter := AtFirst(from);
    NotThereIsAside(iter, slots, from);
  }

  lemma NotThereIsAside(iter: Iterator, slots: seq<Slot>, from: MsgBuf)
    requires iter !in Footprint(slots) && iter !in Parts(from)
    ensures Aside(iter, slots, from)
  {
  }

  /** Both iterators at the first message. */
  method StartBoth(slots: seq<Slot>, from: MsgBuf) returns (slow: Iterator, fast: Iterator)
    requires Laid(slots, from)
    ensures fresh(slow) && fresh(fast) && slow.index == 0 == fast.index
    ensures Walking(slots, slow, fast, from, Held(from))
    ensures View(slots) == old(View(slots)) && Footprint(slots) == old(Footprint(slots))
    ensures Held(from) == old(Held(from)) && Parts(from) == old(Parts(from))
  {
    hide Well, Held, Parts, Lists, View, Laid, Footprint, Cursor, Aside;
    slow := FirstBeside(slots, from);
    AllThere(slots, from);
    fast := FirstBeside(slots, from);
  }

  lemma LaidWell(slots: seq<Slot>, from: MsgBuf)
    requires Laid(slots, from)
    ensures Well(from)
  {
  }

  /** Moving fast on. */
  method FastNext(slots: seq<Slot>, slow: Iterator, fast: Iterator, from: MsgBuf, ghost ms: seq<Msg>)
    requires Walking(slots, slow, fast, from, ms) && fast.index < |ms|
    modifies fast
    ensures Walking(slots, slow, fast, from, ms) && fast.index == old(fast.index) + 1 && slow.index == old(slow.index)
    ensures View(slots) == old(View(slots)) && Footprint(slots) == old(Footprint(slots))
    ensures Parts(from) == old(Parts(from))
  {
    hide Well, Held, Parts, Lists, View, Cursor, Laid, Aside, Footprint;
    AllThere(slots, from);
    NotInFootprint(fast, slots, from);
    Advance(fast, from, ms);
  }

  /** The message under fast. */
  method FastKey(slots: seq<Slot>, slow: Iterator, fast: Iterator, from: MsgBuf, ghost ms: seq<Msg>) returns (msg: Msg)
    requires Walking(slots, slow, fast, from, ms) && fast.index < |ms|
    ensures Walking(slots, slow, fast, from, ms) && msg == ms[fast.index]
    ensures View(slots) == old(View(slots)) && Footprint(slots) == old(Footprint(slots))
    ensures Parts(from) == old(Parts(from))
  {
    hide Well, Held, Parts, Lists, View, Cursor, Laid, Aside, Footprint;
    AllThere(slots, from);
    msg := KeyAt(fast, from, ms);
  }

  method ClearWell(from: MsgBuf)
    requires Well(from)
    modifies Parts(from)
    ensures Well(from) && Held(from) == []
    ensures forall o :: o in Parts(from) ==> o in old(Parts(from))
  {
    WellList(from);
    hide Well, Held, from.Valid, from.Contents, from.list.Valid, from.list.Contents;
    from.Clear();
    ghost var l := Opened(from);
    IsWell(from);
  }

  /** Emptying the parent's buffer. */
  method ClearFrom(slots: seq<Slot>, from: MsgBuf)
    requires Laid(slots, from)
    modifies Parts(from)
    ensures Laid(slots, from) && Held(from) == []
    ensures View(slots) == old(View(slots)) && Footprint(slots) == old(Footprint(slots))
  {
    AllThere(slots, from);
    LaidApart(slots, from);
    hide Well, Held, Parts, Lists, View, Footprint;
    ClearWell(from);
    forall i | 0 <= i < |slots|
      ensures Parts(slots[i].buf) == old(Parts(slots[i].buf)) && Well(slots[i].buf)
      ensures Parts(from) !! Parts(slots[i].buf)
    {
      assert old(allocated(slots[i].buf));
    }
  }

  lemma LaidApart(slots: seq<Slot>, from: MsgBuf)
    requires Laid(slots, from)
    ensures forall o :: o in Footprint(slots) ==> o !in Parts(from)
  {
  }

  /** The number of messages in the parent's buffer. */
  method CountOf(slots: seq<Slot>, from: MsgBuf) returns (n: nat)
    requires Laid(slots, from)
    ensures Laid(slots, from) && n == |Held(from)|
    ensures View(slots) == old(View(slots)) && Footprint(slots) == old(Footprint(slots))
    ensures Held(from) == old(Held(from)) && Parts(from) == old(Parts(from))
  {
    LaidWell(slots, from);
    WellList(from);
    AllThere(slots, from);
    hide Well, Held, Parts, Lists, View, Laid, Footprint, from.Valid, from.Contents;
    n := from.Count();
  }

  lemma NoMessages(ps: seq<Pivot>, lo: Key, hi: Option<Key>)
    requires PivotsOk(ps, lo, hi)
    ensures |ps| > 0 && Distribute(ps, []) == ps
  {
  }

  lemma {:induction false} DeliveredNone(ps: seq<Pivot>, ms: seq<Msg>, lo: Key, hi: Option<Key>)
    requires PivotsOk(ps, lo, hi) && BufOk(ms, lo, hi)
    ensures |ps| > 0 && Delivered(ps, ms, lo, hi, ps, 1, 0, 0)
  {
    NodeObject.FirstPivotTakes(ps, ms, lo, hi);
  }

  lemma {:induction false} DeliveredShape(ps: seq<Pivot>, ms: seq<Msg>, lo: Key, hi: Option<Key>, now: seq<Pivot>,
                                          idx: nat, slow: nat, fast: nat)
    requires Delivered(ps, ms, lo, hi, now, idx, slow, fast)
    ensures SameShape(now, ps)
  {
    hide PivotsOk, BufOk, Distribute, NodeObject.Passed;
    NodeObject.PrefixOk(ms, slow, lo, hi);
    DistributeOk(ps, ms[..slow], lo, hi, []);
  }

  /** The message under fast is still before pivot idx. */
  lemma {:induction false} Passes(ps: seq<Pivot>, ms: seq<Msg>, lo: Key, hi: Option<Key>, now: seq<Pivot>, idx: nat,
                                  slow: nat, fast: nat)
    requires Delivered(ps, ms, lo, hi, now, idx, slow, fast) && fast < |ms| && idx < |now|
    requires Lt(ms[fast].key, now[idx].leftKey)
    ensures Delivered(ps, ms, lo, hi, now, idx, slow, fast + 1)
  {
    hide PivotsOk, BufOk, Distribute, NodeObject.Passed;
    DeliveredShape(ps, ms, lo, hi, now, idx, slow, fast);
    NodeObject.FastMoves(ps, ms, idx, slow, fast, now);
  }

  /** It is not, and everything before it has been delivered. */
  lemma {:induction false} Turns(ps: seq<Pivot>, ms: seq<Msg>, lo: Key, hi: Option<Key>, now: seq<Pivot>, idx: nat,
                                 fast: nat)
    requires Delivered(ps, ms, lo, hi, now, idx, fast, fast) && fast < |ms| && idx < |now|
    requires !Lt(ms[fast].key, now[idx].leftKey)
    ensures Delivered(ps, ms, lo, hi, now, idx + 1, fast, fast)
  {
    hide PivotsOk, BufOk, Distribute, NodeObject.Passed;
    DeliveredShape(ps, ms, lo, hi, now, idx, fast, fast);
    NodeObject.NextPivotTakes(ps, ms, lo, hi, idx, fast, now);
  }

  lemma StillLaid(slots: seq<Slot>, slow: Iterator, fast: Iterator, from: MsgBuf, ms: seq<Msg>)
    requires Walking(slots, slow, fast, from, ms)
    ensures Laid(slots, from)
  {
  }

  /**
   * Node::pushDownLocked: fast looks for the first message past pivot idx - 1, slow follows with the
   * deliveries. The child ends up as if each message had been routed on its own, the parent's buffer empty.
   */
  method PushDownLocked(slots: seq<Slot>, from: MsgBuf, ghost lo: Key, ghost hi: Option<Key>)
    requires Laid(slots, from) && PivotsOk(View(slots), lo, hi) && BufOk(Held(from), lo, hi)
    modifies Footprint(slots), Parts(from)
    ensures Laid(slots, from) && |old(View(slots))| > 0
    ensures View(slots) == Distribute(old(View(slots)), old(Held(from))) && Held(from) == []
  {
    hide *;
    ghost var ps, ms := View(slots), Held(from);
    var count := CountOf(slots, from);
    if count == 0 {
      NoMessages(ps, lo, hi);
      return;
    }
    var slow, fast := StartBoth(slots, from);
    var idx, i, j := 1, 0, 0;
    DeliveredNone(ps, ms, lo, hi);
    var more := HasMore(fast, slots, slow, fast, from, ms);
    while more && idx < |slots|
      invariant Walking(slots, slow, fast, from, ms) && slow.index == i <= j == fast.index <= |ms| && more == (j < |ms|)
      invariant Delivered(ps, ms, lo, hi, View(slots), idx, i, j) && 1 <= idx <= |slots| == |ps|
      invariant forall o :: o in Footprint(slots) ==> o in old(Footprint(slots)) || fresh(o)
      invariant Parts(from) == old(Parts(from))
      decreases |ms| - j + |slots| - idx
    {
      var msg := FastKey(slots, slow, fast, from, ms);
      if Lt(msg.key, slots[idx].leftKey) {
        Passes(ps, ms, lo, hi, View(slots), idx, i, j);
        FastNext(slots, slow, fast, from, ms);
        j := j + 1;
      } else {
        DeliverRun(slots, idx, i, j, slow, fast, from, ms, ps, lo, hi);
        i := j;
        Turns(ps, ms, lo, hi, View(slots), idx, j);
        idx := idx + 1;
      }
      more := HasMore(fast, slots, slow, fast, from, ms);
    }
    DeliverRest(slots, idx, slow, fast, from, ms, ps, lo, hi);
    StillLaid(slots, slow, fast, from, ms);
    ClearFrom(slots, from);
  }
}
