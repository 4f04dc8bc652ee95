/**
 * Places where the text of the repository does something else than the code around it relies on. The
 * rest of this project models the intent; here is what each text does, and exactly when the two agree.
 */
module AsWritten {
  import opened Keys
  import opened Msgs
  import opened TreeModel
  import opened TreeSteps
  import opened TreeSplits
  import opened TreeSplitNode

  // ---------------------------------------------------------------- findPivot

  /** Node::findPivot to the letter: the number of leftKeys not above the key, or the last index. It is
      the pivot the key belongs to exactly when that is the last one. */
  method FindPivotAsWritten(ps: seq<Pivot>, key: Key, ghost hi: Option<Key>) returns (index: nat)
    requires ps != [] ==> Ordered(ps, ps[0].leftKey, hi) && InRange(key, ps[0].leftKey, hi)
    ensures ps == [] ==> index == 0
    ensures ps != [] ==> index == if Route(ps, key) + 1 < |ps| then Route(ps, key) + 1 else |ps| - 1
    ensures ps != [] ==> (index == Route(ps, key) <==> !Lt(key, ps[|ps| - 1].leftKey))
  {
    if |ps| == 0 {
      return 0;
    }
    RouteAtLast(ps, key, hi);
    var pivot: nat := 0;
    for i := 0 to |ps|
      invariant pivot == i
      invariant forall j :: 0 <= j < i ==> !Lt(key, ps[j].leftKey)
    {
      if Lt(key, ps[i].leftKey) {
        RouteIs(ps, ps[0].leftKey, hi, key, i - 1);
        return pivot;
      }
      pivot := pivot + 1;
    }
    RouteIs(ps, ps[0].leftKey, hi, key, |ps| - 1);
    if pivot > |ps| - 1 {
      return |ps| - 1;
    }
    return pivot;
  }

  lemma {:induction false} RouteAtLast(ps: seq<Pivot>, k: Key, hi: Option<Key>)
    requires |ps| > 0 && Ordered(ps, ps[0].leftKey, hi) && InRange(k, ps[0].leftKey, hi)
    ensures Route(ps, k) == |ps| - 1 <==> !Lt(k, ps[|ps| - 1].leftKey)
    ensures !Lt(k, ps[0].leftKey)
  {
    RouteInRange(ps, ps[0].leftKey, hi, k);
  }

  /** addPivot as written puts the new pivot after the index findPivot returns. The pivots stay ordered
      exactly when the new key is not below any of theirs. */
  lemma {:induction false} AddPivotAsWritten(ps: seq<Pivot>, pv: Pivot, hi: Option<Key>)
    requires |ps| > 0 && Ordered(ps, ps[0].leftKey, hi) && InRange(pv.leftKey, ps[0].leftKey, hi) && pv.leftKey != []
    ensures var at := if Route(ps, pv.leftKey) + 1 < |ps| then Route(ps, pv.leftKey) + 1 else |ps| - 1;
            Ordered(InsertAfter(ps, at, pv), ps[0].leftKey, hi) <==> !Lt(pv.leftKey, ps[|ps| - 1].leftKey)
  {
    var r := Route(ps, pv.leftKey);
    RouteAtLast(ps, pv.leftKey, hi);
    RouteInRange(ps, ps[0].leftKey, hi, pv.leftKey);
    if r == |ps| - 1 {
      BelowIsAtMost(pv.leftKey, hi);
      InsertAfterOrdered(ps, r, pv, ps[0].leftKey, hi);
    } else {
      var s := InsertAfter(ps, r + 1, pv);
      assert s[r + 1] == ps[r + 1] && s[r + 2] == pv;
      assert Lt(pv.leftKey, ps[r + 1].leftKey);
      KeyOrder();
    }
  }

  // ---------------------------------------------------------------- node ids

  /** The ids handed out by init on an empty database (src/BufferTree.cpp:36-43) and then by each
      createNode() (src/BufferTree.cpp:86-94): the second repeats the first. */
  method IdsAsWritten(creations: nat) returns (ids: seq<Nid>)
    ensures |ids| == creations + 1
    ensures creations > 0 ==> ids[1] == ids[0]
    ensures forall i :: 1 <= i < |ids| ==> ids[i] == i
    ensures (forall i, j :: 0 <= i < j < |ids| ==> ids[i] != ids[j]) <==> creations == 0
  {
    var nodeCount := 0;
    var rootNid := NID_NIL;
    rootNid := rootNid + 1;
    ids := [rootNid];
    nodeCount := nodeCount + 1;
    for i := 0 to creations
      invariant |ids| == i + 1 && nodeCount == i + 1 && ids[0] == 1
      invariant forall j :: 1 <= j < |ids| ==> ids[j] == j
    {
      ids := ids + [nodeCount];
      nodeCount := nodeCount + 1;
    }
    assert creations > 0 ==> ids[0] == ids[1];
  }

  // ---------------------------------------------------------------- MsgBuf::insert

  /** What one insert as written leaves in size_ (src/Msg.cpp:60-69). */
  function SizeAfter(size: int, l: seq<Msg>, m: Msg): int {
    size - (if Lookup(l, m.key).Some? then MsgSize(Lookup(l, m.key).value) else 0) + MsgSize(m) + 8
  }

  function SizeAfterAll(size: int, l: seq<Msg>, ms: seq<Msg>): int
    decreases |ms|
  {
    if ms == [] then size else SizeAfterAll(SizeAfter(size, l, ms[0]), InsertMsg(l, ms[0]), ms[1..])
  }

  /** How many of the inserts replace a message. */
  function Replacements(l: seq<Msg>, ms: seq<Msg>): nat
    decreases |ms|
  {
    if ms == [] then 0
    else (if Lookup(l, ms[0].key).Some? then 1 else 0) + Replacements(InsertMsg(l, ms[0]), ms[1..])
  }

  /** Every replacement leaves 8 bytes too many, over any run of inserts. */
  lemma {:induction false} InsertAsWritten(size: int, l: seq<Msg>, ms: seq<Msg>)
    requires Sorted(l)
    ensures SizeAfterAll(size, l, ms) == size - ListSize(l) + ListSize(MergeAll(l, ms)) + 8 * Replacements(l, ms)
    decreases |ms|
  {
    if ms != [] {
      InsertSize(l, ms[0]);
      InsertedSorted(l, ms[0]);
      InsertAsWritten(SizeAfter(size, l, ms[0]), InsertMsg(l, ms[0]), ms[1..]);
    }
  }

  /** Copying a run of a sorted list replaces nothing. */
  lemma {:induction false} CopyReplacesNothing(l: seq<Msg>, a: nat, b: nat)
    requires Sorted(l) && a <= b <= |l|
    ensures MergeAll(l[a..b], l[b..]) == l[a..] && Replacements(l[a..b], l[b..]) == 0
    decreases |l| - b
  {
    if b < |l| {
      InsertAtEnd(l, a, b);
      assert l[b..][1..] == l[b + 1..];
      assert Lookup(l[a..b], l[b].key) == None by {
        assert forall j :: 0 <= j < b - a ==> l[a..b][j] == l[a + j] && Lt(l[a + j].key, l[b].key);
      }
      CopyReplacesNothing(l, a, b + 1);
    } else {
      assert l[a..b] == l[a..];
    }
  }

  /** So the assert at src/Node.cpp:180 holds, for a buffer filled since its size was last exact,
      exactly when none of those inserts replaced a message. */
  lemma {:induction false} SplitAssertAsWritten(l: seq<Msg>, ms: seq<Msg>)
    requires Sorted(l)
    ensures var all := MergeAll(l, ms);
            var lower, upper := BufSize(all[..|all| / 2]), 4 + SizeAfterAll(0, [], all[|all| / 2..]);
            lower + upper >= 4 + SizeAfterAll(ListSize(l), l, ms) <==> Replacements(l, ms) == 0
  {
    var all := MergeAll(l, ms);
    var mid := |all| / 2;
    InsertAsWritten(ListSize(l), l, ms);
    MergedSorted(l, ms);
    assert all[mid..mid] == [];
    CopyReplacesNothing(all, mid, mid);
    InsertAsWritten(0, [], all[mid..]);
    assert all == all[..mid] + all[mid..];
    ListSizeConcat(all[..mid], all[mid..]);
  }

  lemma {:induction false} MergedSorted(l: seq<Msg>, ms: seq<Msg>)
    requires Sorted(l)
    ensures Sorted(MergeAll(l, ms))
    decreases |ms|
  {
    if ms != [] {
      InsertedSorted(l, ms[0]);
      MergedSorted(InsertMsg(l, ms[0]), ms[1..]);
    }
  }

  // ---------------------------------------------------------------- get with a stale root

  /** BufferTree::get takes root_ without Node::write's second look (src/BufferTree.cpp:130-132). If the
      root c splits in between, the read started at c answers as it should exactly for keys that stayed
      in c, or that should find no value. */
  lemma {:induction false} GetAsWritten(s: Store, g: Layout, c: Nid, d: Nid, r: Nid, k: Key)
    requires Inv(s, g, c) && |s[c].pivots| >= 2
    requires d !in s && r !in s && d != NID_NIL && r != NID_NIL && d != r
    ensures Answer(Find(GrowUp(s, c, d, r), c, g[c].level, k)) == Answer(View(s, g, c, k))
            <==> Lt(k, MiddleKey(s[c].pivots)) || Answer(View(s, g, c, k)) == None
  {
    var s', mid := GrowUp(s, c, d, r), MiddleKey(s[c].pivots);
    if Lt(k, mid) {
      InWholeRange(k);
      assert InRange(k, g[c].lo, g[c].hi);
      hide Inv, Find, AddPivot;
      FindInHalves(s, g, c, c, d, s', k);
    } else {
      hide Inv, Find, GrowUp;
      GrowUpKeepsInv(s, g, c, d, r);
      FindPastRange(s', GrowLayout(g, c, d, r, mid), r, c, k);
    }
  }
}
