/**
 * Messages and the contents of a message buffer, as values (src/Msg.h, src/Msg.cpp).
 * A buffer is the sorted list its skip list spells at level 0.
 */
module Msgs {
  import opened Keys

  type Value = seq<Byte>

  /** Nop messages only ever carry a key into a lookup and are never stored. */
  datatype Msg = Put(key: Key, value: Value) | Del(key: Key)

  /** Msg::size. */
  function MsgSize(m: Msg): nat {
    4 + |m.key| + if m.Put? then |m.value| else 0
  }

  /** What size_ counts: every message, plus 8 bytes for two string lengths. */
  function ListSize(l: seq<Msg>): nat {
    if l == [] then 0 else MsgSize(l[0]) + 8 + ListSize(l[1..])
  }

  /** MsgBuf::size. */
  function BufSize(l: seq<Msg>): nat {
    4 + ListSize(l)
  }

  ghost predicate Sorted(l: seq<Msg>) {
    forall i, j :: 0 <= i < j < |l| ==> Lt(l[i].key, l[j].key)
  }

  /** The index of the first message whose key is not below k. */
  function LowerBound(l: seq<Msg>, k: Key): (r: nat)
    ensures r <= |l|
    ensures forall j :: 0 <= j < r ==> Lt(l[j].key, k)
    ensures r < |l| ==> !Lt(l[r].key, k)
  {
    if l == [] || !Lt(l[0].key, k) then 0 else 1 + LowerBound(l[1..], k)
  }

  /** MsgBuf::find. */
  function Lookup(l: seq<Msg>, k: Key): Option<Msg> {
    var i := LowerBound(l, k);
    if i < |l| && l[i].key == k then Some(l[i]) else None
  }

  /** MsgBuf::insert: an equal key is replaced in place. */
  function InsertMsg(l: seq<Msg>, m: Msg): seq<Msg> {
    var i := LowerBound(l, m.key);
    if i < |l| && l[i].key == m.key then l[i := m] else l[..i] + [m] + l[i..]
  }

  /** Inserting the messages of ms in order. */
  function MergeAll(l: seq<Msg>, ms: seq<Msg>): seq<Msg>
    decreases |ms|
  {
    if ms == [] then l else MergeAll(InsertMsg(l, ms[0]), ms[1..])
  }

  /** What a read answers, given the first message it meets. */
  function Answer(m: Option<Msg>): Option<Value> {
    if m.Some? && m.value.Put? then Some(m.value.value) else None
  }

  /** One write applied to a plain map. */
  function Applied(m: map<Key, Value>, msg: Msg): map<Key, Value> {
    match msg
    case Put(k, v) => m[k := v]
    case Del(k) => m - {k}
  }

  function ValueIn(m: map<Key, Value>, k: Key): Option<Value> {
    if k in m then Some(m[k]) else None
  }

  /** The newer of two answers to one lookup. */
  function Over<T>(newer: Option<T>, older: Option<T>): Option<T> {
    if newer.Some? then newer else older
  }

  lemma LookupMember(l: seq<Msg>, k: Key)
    requires Sorted(l)
    ensures Lookup(l, k).Some? ==> Lookup(l, k).value in l && Lookup(l, k).value.key == k
    ensures forall m :: m in l && m.key == k ==> Lookup(l, k) == Some(m)
  {
    KeyOrder();
    var r := LowerBound(l, k);
    forall m | m in l && m.key == k
      ensures Lookup(l, k) == Some(m)
    {
      var i :| 0 <= i < |l| && l[i] == m;
      assert !(i < r);
    }
  }

  lemma ReplacedSorted(l: seq<Msg>, m: Msg, i: nat)
    requires Sorted(l) && i < |l| && l[i].key == m.key
    ensures Sorted(l[i := m])
    ensures forall x :: x in l[i := m] <==> x == m || (x in l && x.key != m.key)
  {
    KeyOrder();
    var r := l[i := m];
    forall x | x in r && x != m
      ensures x in l && x.key != m.key
    {
      var j :| 0 <= j < |r| && r[j] == x;
      assert j != i && l[j] == x;
      assert if j < i then Lt(l[j].key, l[i].key) else Lt(l[i].key, l[j].key);
    }
    forall x | x in l && x.key != m.key
      ensures x in r
    {
      var j :| 0 <= j < |l| && l[j] == x;
      assert r[j] == x;
    }
    assert r[i] == m;
  }

  lemma SplicedSorted(l: seq<Msg>, m: Msg, i: nat)
    requires Sorted(l) && i <= |l|
    requires forall j :: 0 <= j < i ==> Lt(l[j].key, m.key)
    requires forall j :: i <= j < |l| ==> Lt(m.key, l[j].key)
    ensures Sorted(l[..i] + [m] + l[i..])
  {
    var r := l[..i] + [m] + l[i..];
    forall a, b | 0 <= a < b < |r|
      ensures Lt(r[a].key, r[b].key)
    {
      if a == i {
        assert r[b] == l[b - 1];
      } else if b == i {
        assert r[a] == l[a];
      } else {
        var a', b' := if a < i then a else a - 1, if b < i then b else b - 1;
        assert Lt(l[a'].key, l[b'].key);
      }
    }
  }

  lemma SplicedMembers(l: seq<Msg>, m: Msg, i: nat)
    requires i <= |l|
    requires forall j :: 0 <= j < |l| ==> l[j].key != m.key
    ensures forall x :: x in l[..i] + [m] + l[i..] <==> x == m || (x in l && x.key != m.key)
  {
    var r := l[..i] + [m] + l[i..];
    forall x | x in l
      ensures x.key != m.key && x in r
    {
      var j :| 0 <= j < |l| && l[j] == x;
      assert r[if j < i then j else j + 1] == x;
    }
    forall x | x in r && x != m
      ensures x in l
    {
      var j :| 0 <= j < |r| && r[j] == x;
      assert l[if j < i then j else j - 1] == x;
    }
    assert r[i] == m;
  }

  lemma InsertedSorted(l: seq<Msg>, m: Msg)
    requires Sorted(l)
    ensures Sorted(InsertMsg(l, m))
    ensures forall x :: x in InsertMsg(l, m) <==> x == m || (x in l && x.key != m.key)
  {
    KeyOrder();
    var i := LowerBound(l, m.key);
    if i < |l| && l[i].key == m.key {
      ReplacedSorted(l, m, i);
    } else {
      forall j | i <= j < |l|
        ensures Lt(m.key, l[j].key)
      {
        assert i < j ==> Lt(l[i].key, l[j].key);
      }
      SplicedSorted(l, m, i);
      SplicedMembers(l, m, i);
    }
  }

  lemma LookupInsert(l: seq<Msg>, m: Msg, k: Key)
    requires Sorted(l)
    ensures Lookup(InsertMsg(l, m), k) == if k == m.key then Some(m) else Lookup(l, k)
  {
    InsertedSorted(l, m);
    LookupMember(l, k);
    LookupMember(InsertMsg(l, m), k);
  }

  lemma LookupTail(ms: seq<Msg>, k: Key)
    requires Sorted(ms) && ms != []
    ensures Sorted(ms[1..])
    ensures k == ms[0].key ==> Lookup(ms[1..], k) == None
    ensures Lookup(ms, k) == if k == ms[0].key then Some(ms[0]) else Lookup(ms[1..], k)
  {
    KeyOrder();
    LookupMember(ms, k);
    LookupMember(ms[1..], k);
    forall m | m in ms[1..]
      ensures m in ms && Lt(ms[0].key, m.key)
    {
      var i :| 0 <= i < |ms| - 1 && ms[1..][i] == m;
      assert ms[i + 1] == m;
    }
    forall m | m in ms
      ensures m == ms[0] || m in ms[1..]
    {
      var i :| 0 <= i < |ms| && ms[i] == m;
      assert i > 0 ==> ms[1..][i - 1] == m;
    }
  }

  /** Merging a buffer into an older one overlays their lookups. */
  lemma {:induction false} MergeAllOverlays(l: seq<Msg>, ms: seq<Msg>, k: Key)
    requires Sorted(l) && Sorted(ms)
    ensures Sorted(MergeAll(l, ms))
    ensures Lookup(MergeAll(l, ms), k) == Over(Lookup(ms, k), Lookup(l, k))
    decreases |ms|
  {
    if ms != [] {
      InsertedSorted(l, ms[0]);
      LookupInsert(l, ms[0], k);
      MergeAllOverlays(InsertMsg(l, ms[0]), ms[1..], k);
      LookupTail(ms, k);
    }
  }

  lemma {:induction false} ListSizeConcat(a: seq<Msg>, b: seq<Msg>)
    ensures ListSize(a + b) == ListSize(a) + ListSize(b)
  {
    if a == [] {
      assert a + b == b;
    } else {
      assert (a + b)[1..] == a[1..] + b;
      ListSizeConcat(a[1..], b);
    }
  }

  lemma HalvesSize(l: seq<Msg>, m: nat)
    requires m <= |l|
    ensures BufSize(l[..m]) + BufSize(l[m..]) == BufSize(l) + 4
  {
    assert l == l[..m] + l[m..];
    ListSizeConcat(l[..m], l[m..]);
  }

  /** Exact accounting: a replaced message leaves with all it was charged for. */
  lemma InsertSize(l: seq<Msg>, m: Msg)
    requires Sorted(l)
    ensures ListSize(InsertMsg(l, m)) + (if Lookup(l, m.key).Some? then MsgSize(Lookup(l, m.key).value) + 8 else 0)
         == ListSize(l) + MsgSize(m) + 8
    ensures |InsertMsg(l, m)| == |l| + if Lookup(l, m.key).Some? then 0 else 1
  {
    var i := LowerBound(l, m.key);
    if i < |l| && l[i].key == m.key {
      ListSizeAt(l, i);
      ListSizeAt(l[i := m], i);
    } else {
      assert l == l[..i] + l[i..];
      ListSizeConcat(l[..i], l[i..]);
      ListSizeSplice(l[..i], m, l[i..]);
    }
  }

  lemma ListSizeAt(l: seq<Msg>, i: nat)
    requires i < |l|
    ensures ListSize(l) == ListSize(l[..i]) + MsgSize(l[i]) + 8 + ListSize(l[i + 1..])
  {
    assert l == l[..i] + [l[i]] + l[i + 1..];
    ListSizeSplice(l[..i], l[i], l[i + 1..]);
  }

  lemma ListSizeSplice(a: seq<Msg>, m: Msg, b: seq<Msg>)
    ensures ListSize(a + [m] + b) == ListSize(a) + MsgSize(m) + 8 + ListSize(b)
  {
    assert a + [m] + b == a + ([m] + b);
    ListSizeConcat(a, [m] + b);
  }

  /** A message past all of a run's goes to its end. */
  lemma {:induction false} InsertAtEnd(l: seq<Msg>, a: nat, b: nat)
    requires Sorted(l) && a <= b < |l|
    ensures InsertMsg(l[a..b], l[b]) == l[a..b + 1]
  {
    var part := l[a..b];
    assert forall j :: 0 <= j < |part| ==> part[j] == l[a + j] && Lt(part[j].key, l[b].key);
    assert part + [l[b]] == l[a..b + 1];
  }
}
