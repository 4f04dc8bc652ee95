/**
 * Why pushing down and splitting end: first the messages' total height above the leaves, then how far
 * the messages of the leaf at hand are from the pivots a node split takes away. Where every message
 * fits the limit, the leaf messages that do not yet have a buffer to themselves become fewer, too.
 */
module TreeMeasure {
  import opened Keys
  import opened Products
  import opened Msgs
  import opened TreeModel
  import opened TreeSteps
  import opened TreeSplits
  import opened TreeSplitNode

  type Weights = map<Nid, nat>

  /** Messages buffered in a node. */
  function Count(ps: seq<Pivot>): nat {
    if ps == [] then 0 else |ps[0].buf| + Count(ps[1..])
  }

  /** Buffers that hold something. */
  function Filled(ps: seq<Pivot>): (r: nat)
    ensures r <= Count(ps)
  {
    if ps == [] then 0 else (if ps[0].buf == [] then 0 else 1) + Filled(ps[1..])
  }

  /** The weights of nodes 1 to n. */
  function Total(w: Weights, n: nat): nat {
    if n == 0 then 0 else Total(w, n - 1) + if n in w then w[n] else 0
  }

  ghost function HeightWeights(s: Store, g: Layout): Weights {
    map id | id in s && id in g :: g[id].level * Count(s[id].pivots)
  }

  ghost function CrowdWeights(s: Store, g: Layout): Weights {
    map id | id in s && id in g :: if g[id].level == 0 then Count(s[id].pivots) - Filled(s[id].pivots) else 0
  }

  /** Sum over all messages of their node's height above the leaves. */
  ghost function Height(s: Store, g: Layout, n: nat): nat {
    Total(HeightWeights(s, g), n)
  }

  /** Leaf messages minus non-empty leaf buffers. */
  ghost function Crowd(s: Store, g: Layout, n: nat): nat {
    Total(CrowdWeights(s, g), n)
  }

  // ---------------------------------------------------------------- counting

  lemma {:induction false} CountConcat(a: seq<Pivot>, b: seq<Pivot>)
    ensures Count(a + b) == Count(a) + Count(b)
    ensures Filled(a + b) == Filled(a) + Filled(b)
  {
    if a == [] {
      assert a + b == b;
    } else {
      assert (a + b)[1..] == a[1..] + b;
      CountConcat(a[1..], b);
    }
  }

  lemma {:induction false} CountOne(p: Pivot)
    ensures Count([p]) == |p.buf|
    ensures Filled([p]) == if p.buf == [] then 0 else 1
  {
    assert [p][1..] == [];
  }

  lemma {:induction false} CountAround(a: seq<Pivot>, p: Pivot, b: seq<Pivot>)
    ensures Count(a + [p] + b) == Count(a) + |p.buf| + Count(b)
    ensures Filled(a + [p] + b) == Filled(a) + (if p.buf == [] then 0 else 1) + Filled(b)
  {
    CountConcat(a + [p], b);
    CountConcat(a, [p]);
    CountOne(p);
  }

  lemma {:induction false} CountReplace(ps: seq<Pivot>, i: nat, l: seq<Msg>)
    requires i < |ps|
    ensures Count(ps[i := ps[i].(buf := l)]) == Count(ps) - |ps[i].buf| + |l|
    ensures Filled(ps[i := ps[i].(buf := l)])
         == Filled(ps) - (if ps[i].buf == [] then 0 else 1) + if l == [] then 0 else 1
  {
    var qs := ps[i := ps[i].(buf := l)];
    assert ps == ps[..i] + [ps[i]] + ps[i + 1..];
    assert qs == ps[..i] + [qs[i]] + ps[i + 1..];
    CountAround(ps[..i], ps[i], ps[i + 1..]);
    CountAround(ps[..i], qs[i], ps[i + 1..]);
  }

  lemma {:induction false} CountInsertAfter(ps: seq<Pivot>, i: nat, pv: Pivot)
    requires i < |ps|
    ensures Count(InsertAfter(ps, i, pv)) == Count(ps) + |pv.buf|
    ensures Filled(InsertAfter(ps, i, pv)) == Filled(ps) + if pv.buf == [] then 0 else 1
  {
    assert ps == ps[..i + 1] + ps[i + 1..];
    CountConcat(ps[..i + 1], ps[i + 1..]);
    CountAround(ps[..i + 1], pv, ps[i + 1..]);
  }

  lemma {:induction false} CountDistribute(ps: seq<Pivot>, ms: seq<Msg>)
    requires |ps| > 0
    ensures Count(Distribute(ps, ms)) <= Count(ps) + |ms|
    decreases |ms|
  {
    if ms != [] {
      var i := Route(ps, ms[0].key);
      CountReplace(ps, i, InsertMsg(ps[i].buf, ms[0]));
      CountDistribute(Deliver(ps, ms[0]), ms[1..]);
    }
  }

  // ---------------------------------------------------------------- sums over nodes

  lemma {:induction false} TotalSame(w: Weights, w': Weights, n: nat)
    requires forall x :: 1 <= x <= n ==> (x in w <==> x in w') && (x in w ==> w[x] == w'[x])
    ensures Total(w, n) == Total(w', n)
  {
    if n > 0 {
      TotalSame(w, w', n - 1);
    }
  }

  lemma {:induction false} TotalAt(w: Weights, w': Weights, x: Nid, n: nat)
    requires 1 <= x <= n
    requires forall y :: y != x ==> (y in w <==> y in w') && (y in w ==> w[y] == w'[y])
    ensures Total(w', n) - (if x in w' then w'[x] else 0) == Total(w, n) - if x in w then w[x] else 0
  {
    if x < n {
      TotalAt(w, w', x, n - 1);
    } else {
      TotalSame(w, w', n - 1);
    }
  }

  /** Two weights change, the second of a node that may be new. */
  lemma {:induction false} TotalAtTwo(w: Weights, w': Weights, x: Nid, y: Nid, n: nat)
    requires 1 <= x <= n && 1 <= y <= n && x != y && x in w && x in w' && y in w'
    requires forall z :: z != x && z != y ==> (z in w <==> z in w') && (z in w ==> w[z] == w'[z])
    ensures Total(w', n) == Total(w, n) - w[x] - (if y in w then w[y] else 0) + w'[x] + w'[y]
  {
    var v: Weights := w[x := w'[x]];
    TotalAt(w, v, x, n);
    TotalAt(v, w', y, n);
  }

  lemma {:induction false} TotalGrow(w: Weights, n: nat)
    requires forall x :: x in w ==> x <= n
    ensures Total(w, n + 1) == Total(w, n)
  {
  }

  // ---------------------------------------------------------------- what each step does to the measure

  lemma {:induction false} MulShift(lev: nat, a: nat, m: nat, b: nat, b': nat)
    requires lev > 0 && m <= a && b' <= b + m
    ensures lev * (a - m) + (lev - 1) * b' + m <= lev * a + (lev - 1) * b
  {
    MulSplit(lev, a - m, m);
    MulLe(lev - 1, b', b + m);
    MulSplit(lev - 1, b, m);
    MulSplit(m, lev - 1, 1);
  }

  /** Every message of a pushed buffer comes one level closer to the leaves. */
  lemma {:induction false} PushDownLowers(s: Store, g: Layout, root: Nid, p: Nid, i: nat, n: nat)
    requires Inv(s, g, root) && p in s && i < |s[p].pivots| && g[p].level > 0
    requires forall x :: x in s ==> x <= n
    ensures s[p].pivots[i].child in s && |s[s[p].pivots[i].child].pivots| > 0
    ensures Height(PushDown(s, p, i), g, n) + |s[p].pivots[i].buf| <= Height(s, g, n)
  {
    hide Inv, NodeOk, Total, Count, PushDown;
    ChildAt(s, g, root, p, i);
    var c := s[p].pivots[i].child;
    var s' := PushDown(s, p, i);
    PushCounts(s, g, root, p, i);
    assert p != NID_NIL;
    TotalAtTwo(HeightWeights(s, g), HeightWeights(s', g), p, c, n);
    MulShift(g[p].level, Count(s[p].pivots), |s[p].pivots[i].buf|, Count(s[c].pivots), Count(s'[c].pivots));
  }

  lemma {:induction false} PushCounts(s: Store, g: Layout, root: Nid, p: Nid, i: nat)
    requires Inv(s, g, root) && p in s && i < |s[p].pivots| && g[p].level > 0
    ensures s[p].pivots[i].child in s && |s[s[p].pivots[i].child].pivots| > 0
    ensures var c := s[p].pivots[i].child;
            var s' := PushDown(s, p, i);
            && s'.Keys == s.Keys && (forall x :: x in s && x != p && x != c ==> s'[x] == s[x])
            && Count(s'[p].pivots) == Count(s[p].pivots) - |s[p].pivots[i].buf|
            && Count(s'[c].pivots) <= Count(s[c].pivots) + |s[p].pivots[i].buf|
  {
    hide Inv, NodeOk, Count, Distribute;
    ChildAt(s, g, root, p, i);
    PushDownNodes(s, g, root, p, i);
    CountReplace(s[p].pivots, i, []);
    CountDistribute(s[s[p].pivots[i].child].pivots, s[p].pivots[i].buf);
    hide PushDown;
  }

  /** Splitting a leaf buffer moves no message up or down, and gives one more message a buffer of its
      own unless there was just one. */
  lemma {:induction false} SplitLeafThins(s: Store, g: Layout, root: Nid, id: Nid, i: nat, n: nat)
    requires Inv(s, g, root) && id in s && g[id].level == 0 && i < |s[id].pivots| && Splittable(s[id].pivots[i].buf)
    requires forall x :: x in s ==> x <= n
    ensures var s' := s[id := s[id].(pivots := SplitPivot(s[id].pivots, i))];
            Height(s', g, n) == Height(s, g, n)
            && Crowd(s', g, n) == Crowd(s, g, n) - if |s[id].pivots[i].buf| >= 2 then 1 else 0
  {
    hide Inv, NodeOk, Total, SplitPivot, Count, Filled;
    var s' := s[id := s[id].(pivots := SplitPivot(s[id].pivots, i))];
    NodeIsOk(s, g, root, id);
    NodePivotsOk(s[id], g, g[id]);
    SplitCounts(s[id].pivots, i, g[id].lo, g[id].hi);
    hide PivotsOk;
    assert id != NID_NIL;
    TotalAt(HeightWeights(s, g), HeightWeights(s', g), id, n);
    TotalAt(CrowdWeights(s, g), CrowdWeights(s', g), id, n);
  }

  lemma NodePivotsOk(n: NodeState, g: Layout, f: Info)
    requires NodeOk(n, g, f)
    ensures PivotsOk(n.pivots, f.lo, f.hi)
  {
  }

  lemma {:induction false} SplitCounts(ps: seq<Pivot>, i: nat, lo: Key, hi: Option<Key>)
    requires PivotsOk(ps, lo, hi) && i < |ps| && Splittable(ps[i].buf)
    ensures Count(SplitPivot(ps, i)) == Count(ps)
    ensures Filled(SplitPivot(ps, i)) == Filled(ps) + if |ps[i].buf| >= 2 then 1 else 0
  {
    SplitPivotShape(ps, i, lo, hi);
    hide PivotsOk, Ordered, SplitPivot, InsertAfter, Count, Filled;
    var l := ps[i].buf;
    var mid := |l| / 2;
    CountReplace(ps, i, l[..mid]);
    CountInsertAfter(ps[i := ps[i].(buf := l[..mid])], i, Pivot(l[mid].key, NID_NIL, l[mid..]));
  }

  // ---------------------------------------------------------------- the way to a node split

  /** Every message counted as often as its pivot is places before place w. */
  function Slide(ps: seq<Pivot>, w: int): nat
    decreases |ps|
  {
    if ps == [] then 0 else |ps[0].buf| * (if w > 0 then w else 0) + Slide(ps[1..], w - 1)
  }

  lemma {:induction false} SlideConcat(a: seq<Pivot>, b: seq<Pivot>, w: int)
    ensures Slide(a + b, w) == Slide(a, w) + Slide(b, w - |a|)
    decreases |a|
  {
    if a == [] {
      assert a + b == b;
    } else {
      assert (a + b)[0] == a[0] && (a + b)[1..] == a[1..] + b;
      SlideConcat(a[1..], b, w - 1);
    }
  }

  lemma {:induction false} SlideLater(ps: seq<Pivot>, w: int)
    ensures Slide(ps, w - 1) <= Slide(ps, w)
    decreases |ps|
  {
    if ps != [] {
      MulLe(|ps[0].buf|, if w - 1 > 0 then w - 1 else 0, if w > 0 then w else 0);
      SlideLater(ps[1..], w - 1);
    }
  }

  /** A node split leaves only what stands before its middle. */
  lemma {:induction false} SlideCut(ps: seq<Pivot>, m: nat, w: int)
    requires m <= |ps|
    ensures Slide(ps[..m], w) <= Slide(ps, w)
  {
    assert ps == ps[..m] + ps[m..];
    SlideConcat(ps[..m], ps[m..], w);
  }

  lemma {:induction false} SlideAt(a: seq<Pivot>, p: Pivot, b: seq<Pivot>, w: int)
    requires w > |a|
    ensures Slide(a + [p] + b, w) == Slide(a, w) + |p.buf| * (w - |a|) + Slide(b, w - |a| - 1)
  {
    SlideConcat(a + [p], b, w);
    SlideConcat(a, [p], w);
    assert [p][1..] == [];
  }

  /** Splitting a buffer, down to a single message, moves its upper half and all behind it one place on. */
  lemma {:induction false} SplitSlides(ps: seq<Pivot>, i: nat, lo: Key, hi: Option<Key>, w: nat)
    requires PivotsOk(ps, lo, hi) && i < |ps| < w && Splittable(ps[i].buf)
    ensures Slide(SplitPivot(ps, i), w) < Slide(ps, w)
  {
    hide *;
    SplitPivotShape(ps, i, lo, hi);
    MiddleIn(ps[i].buf);
    var l := ps[i].buf;
    var mid := |l| / 2;
    var low, pv := ps[i].(buf := l[..mid]), Pivot(l[mid].key, NID_NIL, l[mid..]);
    InsertedParts(ps, i, low, pv);
    SlidesOn(ps[..i], ps[i], low, pv, ps[i + 1..], w);
  }

  lemma {:induction false} InsertedParts(ps: seq<Pivot>, i: nat, low: Pivot, pv: Pivot)
    requires i < |ps|
    ensures ps == ps[..i] + [ps[i]] + ps[i + 1..]
    ensures InsertAfter(ps[i := low], i, pv) == ps[..i] + [low] + ([pv] + ps[i + 1..])
  {
  }

  lemma {:induction false} SlidesOn(a: seq<Pivot>, p: Pivot, low: Pivot, pv: Pivot, b: seq<Pivot>, w: int)
    requires |a| + 1 < w && |low.buf| + |pv.buf| == |p.buf| && |pv.buf| > 0
    ensures Slide(a + [low] + ([pv] + b), w) < Slide(a + [p] + b, w)
  {
    hide Slide;
    var v := w - |a|;
    SlideAt(a, p, b, w);
    SlideAt(a, low, [pv] + b, w);
    SlideAt([], pv, b, v - 1);
    assert [] + [pv] + b == [pv] + b;
    SlideNothing(v - 1);
    SlideLater(b, v - 1);
    MulSplit(v, |low.buf|, |pv.buf|);
    MulSplit(|pv.buf|, v - 1, 1);
  }

  lemma SlideNothing(w: int)
    ensures Slide([], w) == 0
  {
  }

  lemma {:induction false} CountHalves(cs: seq<Pivot>)
    ensures Count(cs[..|cs| / 2]) + Count(cs[|cs| / 2..]) == Count(cs)
    ensures Filled(cs[..|cs| / 2]) + Filled(cs[|cs| / 2..]) == Filled(cs)
  {
    assert cs == cs[..|cs| / 2] + cs[|cs| / 2..];
    CountConcat(cs[..|cs| / 2], cs[|cs| / 2..]);
  }

  /** Weights after a node c is halved and d, the next id, takes its upper half. */
  lemma {:induction false} HalvedHeight(s: Store, g: Layout, c: Nid, d: Nid, s': Store, g': Layout, n: nat)
    requires s.Keys == g.Keys && s'.Keys == g'.Keys
    requires c in s && 1 <= c <= n && d == n + 1 && g'.Keys == g.Keys + {d}
    requires forall x :: x in s ==> x <= n
    requires forall x :: x in g && x != c ==> g'[x].level == g[x].level
    requires forall x :: x in g && x != c ==> Count(s'[x].pivots) == Count(s[x].pivots)
    requires g'[c].level == g'[d].level == g[c].level
    requires Count(s'[c].pivots) + Count(s'[d].pivots) == Count(s[c].pivots)
    ensures Height(s', g', n + 1) == Height(s, g, n)
  {
    hide Count;
    TotalGrow(HeightWeights(s, g), n);
    hide Total;
    TotalAtTwo(HeightWeights(s, g), HeightWeights(s', g'), c, d, n + 1);
    MulSplit(g[c].level, Count(s'[c].pivots), Count(s'[d].pivots));
  }

  lemma {:induction false} HalvedCrowd(s: Store, g: Layout, c: Nid, d: Nid, s': Store, g': Layout, n: nat)
    requires s.Keys == g.Keys && s'.Keys == g'.Keys
    requires c in s && 1 <= c <= n && d == n + 1 && g'.Keys == g.Keys + {d}
    requires forall x :: x in s ==> x <= n
    requires forall x :: x in g && x != c ==> g'[x].level == g[x].level
    requires forall x :: x in g && x != c
               ==> Count(s'[x].pivots) == Count(s[x].pivots) && Filled(s'[x].pivots) == Filled(s[x].pivots)
    requires g'[c].level == g'[d].level == g[c].level
    requires Count(s'[c].pivots) + Count(s'[d].pivots) == Count(s[c].pivots)
    requires Filled(s'[c].pivots) + Filled(s'[d].pivots) == Filled(s[c].pivots)
    ensures Crowd(s', g', n + 1) == Crowd(s, g, n)
  {
    hide Count, Filled;
    TotalGrow(CrowdWeights(s, g), n);
    hide Total;
    TotalAtTwo(CrowdWeights(s, g), CrowdWeights(s', g'), c, d, n + 1);
  }

  /** Splitting a node below its parent moves no message up or down. */
  lemma {:induction false} SplitChildKeepsMeasure(s: Store, g: Layout, root: Nid, p: Nid, j: nat, c: Nid, d: Nid,
                                                  n: nat)
    requires Inv(s, g, root) && InPlace(s, g, p, j, c) && d == n + 1
    requires forall x :: x in s ==> x <= n
    ensures |s[p].pivots| > 0
    ensures var s' := SplitChild(s, p, c, d);
            var g' := SplitLayout(g, c, d, MiddleKey(s[c].pivots));
            Height(s', g', n + 1) == Height(s, g, n) && Crowd(s', g', n + 1) == Crowd(s, g, n)
  {
    hide Inv, NodeOk, Count, Filled;
    SplitChildNodes(s, g, root, p, j, c, d);
    ChildAt(s, g, root, p, j);
    hide SplitChild;
    CountHalves(s[c].pivots);
    CountInsertAfter(s[p].pivots, Route(s[p].pivots, MiddleKey(s[c].pivots)), Pivot(MiddleKey(s[c].pivots), d, []));
    hide InsertAfter;
    HalvedHeight(s, g, c, d, SplitChild(s, p, c, d), SplitLayout(g, c, d, MiddleKey(s[c].pivots)), n);
    HalvedCrowd(s, g, c, d, SplitChild(s, p, c, d), SplitLayout(g, c, d, MiddleKey(s[c].pivots)), n);
  }

  lemma {:induction false} NewRootIsEmpty(c: Nid, d: Nid, mid: Key)
    ensures Count(AddPivot([Pivot([], c, [])], Pivot(mid, d, []))) == 0
    ensures Filled(AddPivot([Pivot([], c, [])], Pivot(mid, d, []))) == 0
  {
    CountOne(Pivot([], c, []));
    CountInsertAfter([Pivot([], c, [])], 0, Pivot(mid, d, []));
  }

  /** Neither does growing a new root. */
  lemma {:induction false} GrowUpKeepsMeasure(s: Store, g: Layout, c: Nid, d: Nid, r: Nid, n: nat)
    requires Inv(s, g, c) && |s[c].pivots| >= 2 && d == n + 1 && r == n + 2
    requires forall x :: x in s ==> x <= n
    ensures var s' := GrowUp(s, c, d, r);
            var g' := GrowLayout(g, c, d, r, MiddleKey(s[c].pivots));
            Height(s', g', n + 2) == Height(s, g, n) && Crowd(s', g', n + 2) == Crowd(s, g, n)
  {
    hide Inv, Count, Filled, AddPivot;
    var mid := MiddleKey(s[c].pivots);
    CountHalves(s[c].pivots);
    HalvedHeight(s, g, c, d, Halve(s, c, d), SplitLayout(g, c, d, mid), n);
    HalvedCrowd(s, g, c, d, Halve(s, c, d), SplitLayout(g, c, d, mid), n);
    NewRootIsEmpty(c, d, mid);
    EmptyNodeAdds(Halve(s, c, d), SplitLayout(g, c, d, mid), r,
                  NodeState(false, AddPivot([Pivot([], c, [])], Pivot(mid, d, []))),
                  Info(g[c].level + 1, [], None), n + 1);
  }

  lemma {:induction false} EmptyNodeAdds(s: Store, g: Layout, r: Nid, node: NodeState, info: Info, n: nat)
    requires s.Keys == g.Keys && r == n + 1 && Count(node.pivots) == 0 && Filled(node.pivots) == 0
    requires forall x :: x in s ==> x <= n
    ensures Height(s[r := node], g[r := info], n + 1) == Height(s, g, n)
    ensures Crowd(s[r := node], g[r := info], n + 1) == Crowd(s, g, n)
  {
    hide Count, Filled;
    TotalSame(HeightWeights(s, g), HeightWeights(s[r := node], g[r := info]), n);
    TotalSame(CrowdWeights(s, g), CrowdWeights(s[r := node], g[r := info]), n);
    assert info.level * 0 == 0;
  }
}
