/** Splitting a leaf's buffer, a node below its parent, and the root. */
module TreeSplits {
  import opened Keys
  import opened Msgs
  import opened TreeModel
  import opened TreeSteps

  // ---------------------------------------------------------------- inserting a pivot

  lemma BelowIsAtMost(k: Key, hi: Option<Key>)
    requires Below(k, hi)
    ensures AtMost(k, hi)
  {
    KeyOrder();
  }

  lemma {:induction false} InsertAfterSorted(ps: seq<Pivot>, i: nat, pv: Pivot, lo: Key, hi: Option<Key>)
    requires Ordered(ps, lo, hi) && i < |ps|
    requires Le(ps[i].leftKey, pv.leftKey) && AtMost(pv.leftKey, Hi(ps, i, hi)) && pv.leftKey != []
    ensures var r := InsertAfter(ps, i, pv);
            forall a, b :: 0 <= a < b < |r| ==> Le(r[a].leftKey, r[b].leftKey)
  {
    var r := InsertAfter(ps, i, pv);
    forall a, b | 0 <= a < b < |r|
      ensures Le(r[a].leftKey, r[b].leftKey)
    {
      var a', b' := if a <= i then a else a - 1, if b <= i then b else b - 1;
      if b == i + 1 {
        assert a' == i || Le(ps[a'].leftKey, ps[i].leftKey);
        LtTransitive(ps[a'].leftKey, ps[i].leftKey, pv.leftKey);
      } else if a == i + 1 {
        assert b' == i + 1 || Le(ps[i + 1].leftKey, ps[b'].leftKey);
        LtTransitive(pv.leftKey, ps[i + 1].leftKey, ps[b'].leftKey);
      } else {
        assert Le(ps[a'].leftKey, ps[b'].leftKey);
      }
    }
  }

  lemma {:induction false} InsertAfterOrdered(ps: seq<Pivot>, i: nat, pv: Pivot, lo: Key, hi: Option<Key>)
    requires Ordered(ps, lo, hi) && i < |ps|
    requires Le(ps[i].leftKey, pv.leftKey) && AtMost(pv.leftKey, Hi(ps, i, hi)) && pv.leftKey != []
    ensures Ordered(InsertAfter(ps, i, pv), lo, hi)
  {
    var r := InsertAfter(ps, i, pv);
    InsertAfterSorted(ps, i, pv, lo, hi);
    assert AtMost(pv.leftKey, hi) by {
      if hi.Some? {
        LtTransitive(pv.leftKey, if i + 1 < |ps| then ps[i + 1].leftKey else hi.value, hi.value);
      }
    }
    hide AtMost, Lt;
    forall a | 0 <= a < |r|
      ensures AtMost(r[a].leftKey, hi) && (a > 0 ==> r[a].leftKey != [])
    {
      assert a == i + 1 || r[a] == ps[if a <= i then a else a - 1];
    }
  }

  lemma {:induction false} HiAfterInsert(ps: seq<Pivot>, i: nat, pv: Pivot, hi: Option<Key>, j: nat)
    requires i < |ps| && j < |ps|
    ensures var r := InsertAfter(ps, i, pv);
            && (j < i ==> Hi(r, j, hi) == Hi(ps, j, hi) && r[j] == ps[j])
            && (j > i ==> Hi(r, j + 1, hi) == Hi(ps, j, hi) && r[j + 1] == ps[j])
            && Hi(r, i, hi) == Some(pv.leftKey) && r[i] == ps[i]
            && Hi(r, i + 1, hi) == Hi(ps, i, hi) && r[i + 1] == pv
  {
  }

  /** Only keys that were routed to pivot i and are not below the new key change pivot. */
  lemma {:induction false} RouteAfterInsert(ps: seq<Pivot>, i: nat, pv: Pivot, lo: Key, hi: Option<Key>, k: Key)
    requires Ordered(ps, lo, hi) && i < |ps| && InRange(k, lo, hi)
    requires Le(ps[i].leftKey, pv.leftKey) && AtMost(pv.leftKey, Hi(ps, i, hi)) && pv.leftKey != []
    ensures var j := Route(ps, k);
            Route(InsertAfter(ps, i, pv), k)
            == if j > i || (j == i && !Lt(k, pv.leftKey)) then j + 1 else j
  {
    var j := Route(ps, k);
    var r := InsertAfter(ps, i, pv);
    RouteInRange(ps, lo, hi, k);
    InsertAfterOrdered(ps, i, pv, lo, hi);
    HiAfterInsert(ps, i, pv, hi, j);
    hide Ordered, InsertAfter, Route;
    RouteIs(r, lo, hi, k, if j > i || (j == i && !Lt(k, pv.leftKey)) then j + 1 else j);
  }

  // ---------------------------------------------------------------- splitting a leaf buffer

  lemma {:induction false} SublistOk(l: seq<Msg>, a: nat, b: nat, lo: Key, hi: Option<Key>, lo': Key, hi': Option<Key>)
    requires BufOk(l, lo, hi) && a <= b <= |l|
    requires a < b ==> Le(lo', l[a].key)
    requires forall j :: a <= j < b ==> Below(l[j].key, hi')
    ensures BufOk(l[a..b], lo', hi')
  {
    KeyOrder();
    forall m | m in l[a..b]
      ensures InRange(m.key, lo', hi')
    {
      var j :| 0 <= j < b - a && l[a..b][j] == m;
      assert l[a + j] == m;
      assert j > 0 ==> Lt(l[a].key, l[a + j].key);
    }
  }

  /** What splitBuf needs: a message in the buffer, and a middle key to give to addPivot. */
  predicate Splittable(l: seq<Msg>) {
    l != [] && l[|l| / 2].key != []
  }

  lemma MiddleIn(l: seq<Msg>)
    requires Splittable(l)
    ensures |l| / 2 < |l|
  {
  }

  /** Only a buffer that holds just a message of the empty key has no middle key. */
  lemma {:induction false} SplittableIff(l: seq<Msg>)
    requires Sorted(l) && l != []
    ensures Splittable(l) <==> !(|l| == 1 && l[0].key == [])
  {
    if |l| >= 2 {
      KeyOrder();
      assert Lt(l[0].key, l[|l| / 2].key);
    }
  }

  /** The two halves of a buffer fit on either side of the middle key. */
  lemma {:induction false} HalvesOk(l: seq<Msg>, lo: Key, hi: Option<Key>)
    requires BufOk(l, lo, hi) && l != []
    ensures var mid := |l| / 2;
            && InRange(l[mid].key, lo, hi)
            && BufOk(l[..mid], lo, Some(l[mid].key))
            && BufOk(l[mid..], l[mid].key, hi)
  {
    KeyOrder();
    var mid := |l| / 2;
    assert l[0] in l && l[mid] in l;
    assert l[0..mid] == l[..mid] && l[mid..|l|] == l[mid..];
    SublistOk(l, 0, mid, lo, hi, lo, Some(l[mid].key));
    forall j | mid <= j < |l|
      ensures Below(l[j].key, hi)
    {
      assert l[j] in l;
    }
    SublistOk(l, mid, |l|, lo, hi, l[mid].key, hi);
  }

  /** Each half answers for its own side. */
  lemma {:induction false} LookupHalves(l: seq<Msg>, mid: nat, k: Key)
    requires Sorted(l) && mid < |l|
    ensures Sorted(l[..mid]) && Sorted(l[mid..])
    ensures Lookup(l, k) == if Lt(k, l[mid].key) then Lookup(l[..mid], k) else Lookup(l[mid..], k)
  {
    MemberHalves(l, mid);
    hide Lt;
    LookupMember(l, k);
    LookupMember(l[..mid], k);
    LookupMember(l[mid..], k);
  }

  lemma {:induction false} MemberHalves(l: seq<Msg>, mid: nat)
    requires Sorted(l) && mid < |l|
    ensures forall m :: m in l ==> if Lt(m.key, l[mid].key) then m in l[..mid] else m in l[mid..]
  {
    forall m | m in l
      ensures if Lt(m.key, l[mid].key) then m in l[..mid] else m in l[mid..]
    {
      var j :| 0 <= j < |l| && l[j] == m;
      if j < mid {
        assert l[..mid][j] == m;
      } else {
        assert l[mid..][j - mid] == m;
        LtImpliesLe(l[mid].key, m.key);
      }
    }
  }

  /** The shape of a split leaf: the middle key goes right after the pivot it came from. */
  lemma {:induction false} SplitPivotShape(ps: seq<Pivot>, i: nat, lo: Key, hi: Option<Key>)
    requires PivotsOk(ps, lo, hi) && i < |ps| && Splittable(ps[i].buf)
    ensures var l := ps[i].buf;
            var mid := |l| / 2;
            var qs := ps[i := ps[i].(buf := l[..mid])];
            && Ordered(qs, lo, hi) && SameShape(qs, ps)
            && InRange(l[mid].key, qs[i].leftKey, Hi(qs, i, hi)) && l[mid].key != []
            && SplitPivot(ps, i) == InsertAfter(qs, i, Pivot(l[mid].key, NID_NIL, l[mid..]))
  {
    hide BufOk, Ordered, InRange, Route, InsertAfter;
    var l := ps[i].buf;
    var mid := |l| / 2;
    assert BufOk(l, ps[i].leftKey, Hi(ps, i, hi));
    HalvesOk(l, ps[i].leftKey, Hi(ps, i, hi));
    var qs := ps[i := ps[i].(buf := l[..mid])];
    ShapeOrdered(ps, qs, lo, hi);
    assert Hi(qs, i, hi) == Hi(ps, i, hi);
    hide PivotsOk;
    RouteIs(qs, lo, hi, l[mid].key, i);
  }

  lemma {:induction false} SplitPivotOk(ps: seq<Pivot>, i: nat, lo: Key, hi: Option<Key>)
    requires PivotsOk(ps, lo, hi) && i < |ps| && Splittable(ps[i].buf)
    ensures PivotsOk(SplitPivot(ps, i), lo, hi)
  {
    hide Ordered, Lt, SplitPivot, InsertAfter, BufOk, Splittable, Hi, SameShape;
    MiddleIn(ps[i].buf);
    SplitPivotShape(ps, i, lo, hi);
    var l := ps[i].buf;
    var mid := |l| / 2;
    var qs := ps[i := ps[i].(buf := l[..mid])];
    var pv := Pivot(l[mid].key, NID_NIL, l[mid..]);
    BelowIsAtMost(l[mid].key, Hi(qs, i, hi));
    InsertAfterOrdered(qs, i, pv, lo, hi);
    forall j | 0 <= j < |ps| + 1
      ensures j < |InsertAfter(qs, i, pv)|
      ensures var r := InsertAfter(qs, i, pv); BufOk(r[j].buf, r[j].leftKey, Hi(r, j, hi))
    {
      SplitBuffersOk(ps, i, lo, hi, j);
    }
    InsertAfterLength(qs, i, pv);
  }

  lemma InsertAfterLength(ps: seq<Pivot>, i: nat, pv: Pivot)
    requires i < |ps|
    ensures |InsertAfter(ps, i, pv)| == |ps| + 1
  {
  }

  lemma {:induction false} SplitBuffersOk(ps: seq<Pivot>, i: nat, lo: Key, hi: Option<Key>, j: nat)
    requires PivotsOk(ps, lo, hi) && i < |ps| && ps[i].buf != [] && j <= |ps|
    ensures var l := ps[i].buf;
            var r := InsertAfter(ps[i := ps[i].(buf := l[..|l| / 2])], i, Pivot(l[|l| / 2].key, NID_NIL, l[|l| / 2..]));
            j < |r| && BufOk(r[j].buf, r[j].leftKey, Hi(r, j, hi))
  {
    hide Ordered, BufOk;
    var l := ps[i].buf;
    var mid := |l| / 2;
    var qs := ps[i := ps[i].(buf := l[..mid])];
    var pv := Pivot(l[mid].key, NID_NIL, l[mid..]);
    HalvesOk(l, ps[i].leftKey, Hi(ps, i, hi));
    var j' := if j <= i then j else j - 1;
    HiAfterInsert(qs, i, pv, hi, j');
    InsertAfterLength(qs, i, pv);
    hide InsertAfter;
    assert BufOk(ps[j'].buf, ps[j'].leftKey, Hi(ps, j', hi));
    assert Hi(qs, j', hi) == Hi(ps, j', hi);
  }

  lemma BufferIsSorted(ps: seq<Pivot>, i: nat, lo: Key, hi: Option<Key>)
    requires PivotsOk(ps, lo, hi) && i < |ps|
    ensures Sorted(ps[i].buf)
  {
    assert BufOk(ps[i].buf, ps[i].leftKey, Hi(ps, i, hi));
  }

  lemma {:induction false} SplitPivotLookup(ps: seq<Pivot>, i: nat, lo: Key, hi: Option<Key>, k: Key)
    requires PivotsOk(ps, lo, hi) && i < |ps| && Splittable(ps[i].buf) && InRange(k, lo, hi)
    ensures Lookup(At(SplitPivot(ps, i), k).buf, k) == Lookup(At(ps, k).buf, k)
  {
    hide PivotsOk, Ordered, SplitPivot, Route, InsertAfter, Lookup, Lt, Le, Hi, Splittable, Sorted;
    MiddleIn(ps[i].buf);
    SplitPivotShape(ps, i, lo, hi);
    var l := ps[i].buf;
    var mid := |l| / 2;
    var qs := ps[i := ps[i].(buf := l[..mid])];
    var pv := Pivot(l[mid].key, NID_NIL, l[mid..]);
    SameRoute(qs, ps, k);
    hide SameShape;
    BelowIsAtMost(l[mid].key, Hi(qs, i, hi));
    RouteAfterInsert(qs, i, pv, lo, hi, k);
    HiAfterInsert(qs, i, pv, hi, Route(ps, k));
    BufferIsSorted(ps, i, lo, hi);
    LookupHalves(l, mid, k);
  }

  lemma {:induction false} SplitPivotLinks(ps: seq<Pivot>, i: nat)
    requires i < |ps| && |ps[i].buf| > 0
    requires forall j :: 0 <= j < |ps| ==> ps[j].child == NID_NIL
    ensures forall j :: 0 <= j < |SplitPivot(ps, i)| ==> SplitPivot(ps, i)[j].child == NID_NIL
  {
  }

  /** Splitting a leaf buffer keeps the order and every read. */
  lemma {:induction false} SplitLeafKeepsInv(s: Store, g: Layout, root: Nid, id: Nid, i: nat)
    requires Inv(s, g, root) && id in s && g[id].level == 0 && i < |s[id].pivots| && Splittable(s[id].pivots[i].buf)
    ensures Inv(s[id := s[id].(pivots := SplitPivot(s[id].pivots, i))], g, root)
  {
    var s' := s[id := s[id].(pivots := SplitPivot(s[id].pivots, i))];
    NodeIsOk(s, g, root, id);
    SplitPivotOk(s[id].pivots, i, g[id].lo, g[id].hi);
    SplitPivotLinks(s[id].pivots, i);
    hide Inv, SplitPivot, PivotsOk;
    assert NodeOk(s'[id], g, g[id]);
    hide NodeOk;
    forall a | a in s'
      ensures NodeOk(s'[a], g, g[a])
    {
      NodeIsOk(s, g, root, a);
    }
    NodesChanged(s, s', g, root);
  }

  lemma {:induction false} SplitLeafKeepsFind(s: Store, g: Layout, root: Nid, id: Nid, i: nat, x: Nid, k: Key)
    requires Inv(s, g, root) && id in s && g[id].level == 0 && i < |s[id].pivots| && Splittable(s[id].pivots[i].buf)
    requires x in s && InRange(k, g[x].lo, g[x].hi)
    ensures Find(s[id := s[id].(pivots := SplitPivot(s[id].pivots, i))], x, g[x].level, k) == Find(s, x, g[x].level, k)
  {
    var s' := s[id := s[id].(pivots := SplitPivot(s[id].pivots, i))];
    NodeIsOk(s, g, root, id);
    hide Inv, NodeOk, SplitPivot;
    forall y | y in s && g[y].level == 0 && InRange(k, g[y].lo, g[y].hi)
      ensures Find(s', y, 0, k) == Find(s, y, 0, k)
    {
      if y == id {
        SplitPivotLookup(s[id].pivots, i, g[id].lo, g[id].hi, k);
      }
    }
    FindLift(s, s', g, root, x, k, 0);
  }
}
