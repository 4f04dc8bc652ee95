/**
 * How full nodes are, where their keys come from, and what both say about the tree's height.
 * M is maxNodeChildNum.
 */
module TreeBalance {
  import opened Keys
  import opened Msgs
  import opened TreeModel
  import opened TreeSteps
  import opened TreeSplits
  import opened TreeSplitNode

  /** The fewest pivots of a node that is not the root. */
  function Low(M: nat): nat {
    if M < 2 then 1 else (M + 1) / 2
  }

  /** The most pivots between operations: M, except that a new root always gets two. */
  function Cap(M: nat): nat {
    if M < 2 then 2 else M
  }

  /** How many pivots of a node may have come to stand at the very end of its range. */
  function DeadMax(M: nat): nat {
    (Cap(M) + 1) / 2 - 1
  }

  function LastLive(n: nat, M: nat): nat {
    if n > DeadMax(M) then n - 1 - DeadMax(M) else 0
  }

  /** Where the node is for any key at all, all but its last few pivots start below its end. */
  ghost predicate Live(ps: seq<Pivot>, f: Info, M: nat) {
    Below(f.lo, f.hi) && ps != [] ==> Below(ps[LastLive(|ps|, M)].leftKey, f.hi)
  }

  /** Fan-out bounds; node `slack` may be over by the pivot it was just given. */
  ghost predicate Fan(s: Store, g: Layout, root: Nid, M: nat, slack: Nid)
    requires s.Keys == g.Keys && root in s
  {
    && (forall x :: x in s && x != root ==> Low(M) <= |s[x].pivots|)
    && (forall x :: x in s ==> |s[x].pivots| <= Cap(M) + if x == slack then 1 else 0)
    && (g[root].level > 0 ==> 2 <= |s[root].pivots|)
    && (forall x :: x in s ==> Live(s[x].pivots, g[x], M))
  }

  /** A buffer holding m alone is within the limit. */
  predicate Fits(m: Msg, limit: nat) {
    BufSize([m]) <= limit
  }

  /** What is known of the messages written: limit is maxNodeMsg, which all of them fit as long as
      allFit; those of the empty key always fit emptyLimit. */
  datatype Rules = Rules(limit: nat, emptyLimit: nat, allFit: bool)

  predicate Allowed(m: Msg, r: Rules) {
    (m.key == [] ==> Fits(m, r.emptyLimit)) && (r.allFit ==> Fits(m, r.limit))
  }

  /** Messages are of written keys and allowed; boundaries are written keys too, or the empty key. */
  ghost predicate Known(p: Pivot, written: set<Key>, r: Rules) {
    && (p.leftKey == [] || p.leftKey in written)
    && forall m :: m in p.buf ==> m.key in written && Allowed(m, r)
  }

  ghost predicate AllKnown(ps: seq<Pivot>, written: set<Key>, r: Rules) {
    forall i :: 0 <= i < |ps| ==> Known(ps[i], written, r)
  }

  ghost predicate StoreKnown(s: Store, written: set<Key>, r: Rules) {
    forall x :: x in s ==> AllKnown(s[x].pivots, written, r)
  }

  predicate Weaker(r: Rules, r': Rules) {
    r'.limit == r.limit && r.emptyLimit <= r'.emptyLimit && (r'.allFit ==> r.allFit)
  }

  lemma {:induction false} KnownUnderWeaker(s: Store, written: set<Key>, r: Rules, r': Rules)
    requires StoreKnown(s, written, r) && Weaker(r, r')
    ensures StoreKnown(s, written, r')
  {
    forall m | Allowed(m, r)
      ensures Allowed(m, r')
    {
    }
    hide Allowed;
    forall x | x in s
      ensures AllKnown(s[x].pivots, written, r')
    {
      assert AllKnown(s[x].pivots, written, r);
      assert forall i :: 0 <= i < |s[x].pivots| ==> Known(s[x].pivots[i], written, r);
    }
  }

  /** No leftKey repeats, and none stands at the end of the range. */
  ghost predicate Strict(ps: seq<Pivot>, hi: Option<Key>) {
    && (forall i, j :: 0 <= i < j < |ps| ==> Lt(ps[i].leftKey, ps[j].leftKey))
    && (forall i :: 0 <= i < |ps| ==> Below(ps[i].leftKey, hi))
  }

  ghost predicate StoreStrict(s: Store, g: Layout)
    requires s.Keys == g.Keys
  {
    forall x :: x in s ==> Strict(s[x].pivots, g[x].hi)
  }

  // ---------------------------------------------------------------- fan-out, step by step

  lemma {:induction false} FanSame(s: Store, s': Store, g: Layout, root: Nid, M: nat, slack: Nid)
    requires Inv(s, g, root) && Fan(s, g, root, M, slack) && s'.Keys == s.Keys
    requires forall x :: x in s ==> SameShape(s'[x].pivots, s[x].pivots)
    ensures Fan(s', g, root, M, slack)
  {
    hide Inv, Below, LastLive;
    forall x | x in s
      ensures |s'[x].pivots| == |s[x].pivots| && Live(s'[x].pivots, g[x], M)
    {
      assert SameShape(s'[x].pivots, s[x].pivots) && Live(s[x].pivots, g[x], M);
      LastLiveIn(|s[x].pivots|, M);
    }
  }

  lemma LastLiveIn(n: nat, M: nat)
    ensures n > 0 ==> LastLive(n, M) < n
  {
  }

  /** A pivot that starts below the end leaves the last ones where they are. */
  lemma {:induction false} InsertLive(ps: seq<Pivot>, i: nat, pv: Pivot, f: Info, M: nat)
    requires Ordered(ps, f.lo, f.hi) && Live(ps, f, M) && i < |ps|
    requires Le(ps[i].leftKey, pv.leftKey) && Below(pv.leftKey, f.hi)
    ensures Live(InsertAfter(ps, i, pv), f, M)
  {
    var r := InsertAfter(ps, i, pv);
    var x := LastLive(|r|, M);
    if Below(f.lo, f.hi) && f.hi.Some? && x > i + 1 {
      assert x - 1 == LastLive(|ps|, M) && r[x] == ps[x - 1];
    } else if f.hi.Some? && x <= i {
      assert r[x] == ps[x] && (x == i || Le(ps[x].leftKey, ps[i].leftKey));
      LtTransitive(ps[x].leftKey, ps[i].leftKey, pv.leftKey);
      LtTransitive(ps[x].leftKey, pv.leftKey, f.hi.value);
    }
  }

  /** A node that is over full, and for any key at all, has its middle key below its end. */
  lemma {:induction false} MiddleIsBelowEnd(cs: seq<Pivot>, f: Info, M: nat)
    requires Ordered(cs, f.lo, f.hi) && Live(cs, f, M) && Below(f.lo, f.hi) && |cs| > M && |cs| >= 2
    ensures Below(MiddleKey(cs), f.hi)
  {
    var x := LastLive(|cs|, M);
    assert |cs| / 2 <= x < |cs|;
    if f.hi.Some? {
      assert |cs| / 2 == x || Le(cs[|cs| / 2].leftKey, cs[x].leftKey);
      LtTransitive(MiddleKey(cs), cs[x].leftKey, f.hi.value);
    }
  }

  lemma {:induction false} HalvesLive(cs: seq<Pivot>, f: Info, M: nat)
    requires Ordered(cs, f.lo, f.hi) && Live(cs, f, M) && 2 <= |cs| <= Cap(M) + 1 && Below(MiddleKey(cs), f.hi)
    ensures Live(cs[..|cs| / 2], f.(hi := Some(MiddleKey(cs))), M)
    ensures Live(cs[|cs| / 2..], Info(f.level, MiddleKey(cs), f.hi), M)
  {
    var mid := |cs| / 2;
    assert LastLive(mid, M) == 0;
    if f.hi.Some? {
      assert Le(cs[0].leftKey, cs[mid].leftKey);
      LtTransitive(f.lo, MiddleKey(cs), f.hi.value);
    }
    var x := LastLive(|cs| - mid, M);
    if |cs| - mid > DeadMax(M) {
      assert cs[mid..][x] == cs[LastLive(|cs|, M)];
    }
  }

  lemma {:induction false} SplitLeafFan(s: Store, g: Layout, root: Nid, M: nat, id: Nid, i: nat)
    requires Inv(s, g, root) && Fan(s, g, root, M, NID_NIL)
    requires id in s && i < |s[id].pivots| && Splittable(s[id].pivots[i].buf)
    ensures Fan(s[id := s[id].(pivots := SplitPivot(s[id].pivots, i))], g, root, M, id)
  {
    hide Inv, Live;
    var ps, f := s[id].pivots, g[id];
    assert |SplitPivot(ps, i)| == |ps| + 1;
    assert Live(SplitPivot(ps, i), f, M) by {
      NodeIsOk(s, g, root, id);
      SplitPivotLive(ps, i, f, M);
    }
    hide SplitPivot;
  }

  lemma {:induction false} SplitPivotLive(ps: seq<Pivot>, i: nat, f: Info, M: nat)
    requires PivotsOk(ps, f.lo, f.hi) && Live(ps, f, M) && i < |ps| && Splittable(ps[i].buf)
    ensures Live(SplitPivot(ps, i), f, M)
  {
    hide Live, SplitPivot, InsertAfter;
    SplitPivotShape(ps, i, f.lo, f.hi);
    var l := ps[i].buf;
    var mid := |l| / 2;
    var qs := ps[i := ps[i].(buf := l[..mid])];
    ShapeLive(ps, qs, f, M);
    InNodeRange(qs, f.lo, f.hi, i, l[mid].key);
    InsertLive(qs, i, Pivot(l[mid].key, NID_NIL, l[mid..]), f, M);
  }

  lemma {:induction false} ShapeLive(ps: seq<Pivot>, qs: seq<Pivot>, f: Info, M: nat)
    requires Live(ps, f, M) && SameShape(qs, ps)
    ensures Live(qs, f, M)
  {
  }

  /** An overfull node's halves are both within bounds; the excess moves on to the parent. */
  lemma {:induction false} SplitChildFan(s: Store, g: Layout, root: Nid, M: nat, p: Nid, j: nat, c: Nid, d: Nid)
    requires Inv(s, g, root) && Fan(s, g, root, M, c) && InPlace(s, g, p, j, c) && d !in s && d != NID_NIL
    requires M < |s[c].pivots| && Below(MiddleKey(s[c].pivots), g[c].hi)
    ensures |s[p].pivots| > 0
    ensures Fan(SplitChild(s, p, c, d), SplitLayout(g, c, d, MiddleKey(s[c].pivots)), root, M, p)
  {
    hide Inv, Live, Ordered, SplitChild;
    ChildAt(s, g, root, p, j);
    SplitChildNodes(s, g, root, p, j, c, d);
    SplitChildLive(s, g, root, M, p, j, c, d);
    assert c != root by {
      if c == root {
        NoParentOfRoot(s, g, root, p);
      }
    }
    var s' := SplitChild(s, p, c, d);
    assert |s'[p].pivots| == |s[p].pivots| + 1;
  }

  lemma {:induction false} SplitChildLive(s: Store, g: Layout, root: Nid, M: nat, p: Nid, j: nat, c: Nid, d: Nid)
    requires Inv(s, g, root) && Fan(s, g, root, M, c) && InPlace(s, g, p, j, c) && d !in s && d != NID_NIL
    requires Below(MiddleKey(s[c].pivots), g[c].hi)
    ensures |s[p].pivots| > 0
    ensures var s', g' := SplitChild(s, p, c, d), SplitLayout(g, c, d, MiddleKey(s[c].pivots));
            Live(s'[p].pivots, g[p], M) && Live(s'[c].pivots, g'[c], M) && Live(s'[d].pivots, g'[d], M)
  {
    MiddleInRange(s, g, root, p, j, c);
    SplitChildShape(s, g, root, p, j, c);
    SplitChildNodes(s, g, root, p, j, c, d);
    NodeIsOk(s, g, root, c);
    assert Live(s[p].pivots, g[p], M) && Live(s[c].pivots, g[c], M) && |s[c].pivots| <= Cap(M) + 1;
    hide Inv, Fan, Live, SplitChild, InsertAfter, LinksOk, BufOk, Ordered;
    HalvesLive(s[c].pivots, g[c], M);
    InNodeRange(s[p].pivots, g[p].lo, g[p].hi, j, MiddleKey(s[c].pivots));
    InsertLive(s[p].pivots, j, Pivot(MiddleKey(s[c].pivots), d, []), g[p], M);
  }

  /** Either half of an overfull node is wide enough, and no longer too wide. */
  lemma HalvesFit(n: nat, M: nat)
    requires M < n && 2 <= n <= Cap(M) + 1
    ensures Low(M) <= n / 2 <= Cap(M) && Low(M) <= n - n / 2 <= Cap(M) && 2 <= Cap(M)
  {
  }

  lemma {:induction false} GrowUpFan(s: Store, g: Layout, M: nat, c: Nid, d: Nid, r: Nid)
    requires Inv(s, g, c) && Fan(s, g, c, M, c) && M < |s[c].pivots| && |s[c].pivots| >= 2
    requires d !in s && r !in s && d != r && d != NID_NIL && r != NID_NIL
    ensures Fan(GrowUp(s, c, d, r), GrowLayout(g, c, d, r, MiddleKey(s[c].pivots)), r, M, NID_NIL)
  {
    hide Inv, Live, GrowUp, MiddleKey, Low, Cap, SplitLayout;
    GrowUpLive(s, g, M, c, d, r);
    GrowUpNodes(s, c, d, r);
    HalvesFit(|s[c].pivots|, M);
  }

  lemma {:induction false} GrowUpNodes(s: Store, c: Nid, d: Nid, r: Nid)
    requires c in s && |s[c].pivots| >= 2 && d !in s && r !in s && d != r
    ensures var s' := GrowUp(s, c, d, r);
            && s'.Keys == s.Keys + {d, r} && |s'[r].pivots| == 2
            && s'[c].pivots == s[c].pivots[..|s[c].pivots| / 2] && s'[d].pivots == s[c].pivots[|s[c].pivots| / 2..]
            && forall x :: x in s && x != c ==> s'[x] == s[x]
  {
    hide MiddleKey;
  }

  lemma {:induction false} GrowUpLive(s: Store, g: Layout, M: nat, c: Nid, d: Nid, r: Nid)
    requires Inv(s, g, c) && Fan(s, g, c, M, c) && |s[c].pivots| >= 2
    requires d !in s && r !in s && d != r && d != NID_NIL && r != NID_NIL
    ensures var s', g' := GrowUp(s, c, d, r), GrowLayout(g, c, d, r, MiddleKey(s[c].pivots));
            s'.Keys == g'.Keys && forall x :: x in s' ==> Live(s'[x].pivots, g'[x], M)
  {
    hide Live, NodeOk, MiddleKey, GrowUp, Cap;
    var mid := MiddleKey(s[c].pivots);
    var s', g' := GrowUp(s, c, d, r), GrowLayout(g, c, d, r, mid);
    assert g[c].lo == [] && g[c].hi == None;
    GrowUpNodes(s, c, d, r);
    GrowUpHalvesLive(s, g, M, c);
    hide Inv;
    NoEndIsLive(s'[r].pivots, g'[r], M);
    forall x | x in s && x != c
      ensures Live(s'[x].pivots, g'[x], M)
    {
      assert g'[x] == g[x] && s'[x] == s[x];
    }
    hide Fan;
    assert g'[c] == g[c].(hi := Some(mid)) && g'[d] == Info(g[c].level, mid, None);
  }

  lemma {:induction false} GrowUpHalvesLive(s: Store, g: Layout, M: nat, c: Nid)
    requires Inv(s, g, c) && Fan(s, g, c, M, c) && |s[c].pivots| >= 2
    ensures Live(s[c].pivots[..|s[c].pivots| / 2], g[c].(hi := Some(MiddleKey(s[c].pivots))), M)
    ensures Live(s[c].pivots[|s[c].pivots| / 2..], Info(g[c].level, MiddleKey(s[c].pivots), None), M)
  {
    NodeIsOk(s, g, c, c);
    assert Live(s[c].pivots, g[c], M) && |s[c].pivots| <= Cap(M) + 1;
    assert g[c].hi == None;
    hide Inv, Fan, Live, Ordered, MiddleKey, Cap;
    HalvesLive(s[c].pivots, g[c], M);
  }

  lemma NoEndIsLive(ps: seq<Pivot>, f: Info, M: nat)
    requires f.hi == None
    ensures Live(ps, f, M)
  {
  }

  // ---------------------------------------------------------------- strict order, step by step

  lemma {:induction false} StrictSame(s: Store, s': Store, g: Layout)
    requires s.Keys == g.Keys && StoreStrict(s, g) && s'.Keys == s.Keys
    requires forall x :: x in s ==> SameShape(s'[x].pivots, s[x].pivots)
    ensures StoreStrict(s', g)
  {
    hide Below, Lt;
    forall x | x in s
      ensures Strict(s'[x].pivots, g[x].hi)
    {
      assert SameShape(s'[x].pivots, s[x].pivots) && Strict(s[x].pivots, g[x].hi);
    }
  }

  lemma {:induction false} InsertStrict(ps: seq<Pivot>, i: nat, pv: Pivot, hi: Option<Key>)
    requires Strict(ps, hi) && i < |ps| && Lt(ps[i].leftKey, pv.leftKey) && Below(pv.leftKey, Hi(ps, i, hi))
    ensures Strict(InsertAfter(ps, i, pv), hi)
  {
    var r := InsertAfter(ps, i, pv);
    forall a, b | 0 <= a < b < |r|
      ensures Lt(r[a].leftKey, r[b].leftKey)
    {
      InsertStrictAt(ps, i, pv, hi, a, b);
    }
    assert Below(pv.leftKey, hi) by {
      if hi.Some? && i + 1 < |ps| {
        LtTransitive(pv.leftKey, ps[i + 1].leftKey, hi.value);
      }
    }
    hide Below, Lt;
  }

  lemma {:induction false} InsertStrictAt(ps: seq<Pivot>, i: nat, pv: Pivot, hi: Option<Key>, a: nat, b: nat)
    requires Strict(ps, hi) && i < |ps| && Lt(ps[i].leftKey, pv.leftKey) && Below(pv.leftKey, Hi(ps, i, hi))
    requires a < b < |InsertAfter(ps, i, pv)|
    ensures Lt(InsertAfter(ps, i, pv)[a].leftKey, InsertAfter(ps, i, pv)[b].leftKey)
  {
    hide Lt;
    var a', b' := if a <= i then a else a - 1, if b <= i then b else b - 1;
    if b == i + 1 && a < i {
      LtTransitive(ps[a].leftKey, ps[i].leftKey, pv.leftKey);
    } else if a == i + 1 && b > i + 2 {
      LtTransitive(pv.leftKey, ps[i + 1].leftKey, ps[b'].leftKey);
    }
  }

  /** A split of a buffer with at least two messages repeats no leftKey. */
  lemma {:induction false} SplitPivotStrict(ps: seq<Pivot>, i: nat, lo: Key, hi: Option<Key>)
    requires PivotsOk(ps, lo, hi) && Strict(ps, hi) && i < |ps| && |ps[i].buf| >= 2 && Splittable(ps[i].buf)
    ensures Strict(SplitPivot(ps, i), hi)
  {
    SplitPivotShape(ps, i, lo, hi);
    var l := ps[i].buf;
    var mid := |l| / 2;
    assert BufOk(l, ps[i].leftKey, Hi(ps, i, hi));
    assert l[0] in l && Lt(l[0].key, l[mid].key);
    LtTransitive(ps[i].leftKey, l[0].key, l[mid].key);
    hide PivotsOk, Ordered, BufOk, SplitPivot, InsertAfter, Lt;
    InsertStrict(ps[i := ps[i].(buf := l[..mid])], i, Pivot(l[mid].key, NID_NIL, l[mid..]), hi);
  }

  lemma {:induction false} SplitLeafStrict(s: Store, g: Layout, root: Nid, id: Nid, i: nat)
    requires Inv(s, g, root) && StoreStrict(s, g)
    requires id in s && i < |s[id].pivots| && |s[id].pivots[i].buf| >= 2 && Splittable(s[id].pivots[i].buf)
    ensures StoreStrict(s[id := s[id].(pivots := SplitPivot(s[id].pivots, i))], g)
  {
    hide Inv;
    NodeIsOk(s, g, root, id);
    assert Strict(s[id].pivots, g[id].hi);
    SplitPivotStrict(s[id].pivots, i, g[id].lo, g[id].hi);
    hide Strict, SplitPivot;
  }

  lemma {:induction false} HalvesStrict(cs: seq<Pivot>, hi: Option<Key>)
    requires Strict(cs, hi) && |cs| >= 2
    ensures Strict(cs[..|cs| / 2], Some(MiddleKey(cs))) && Strict(cs[|cs| / 2..], hi)
    ensures Lt(cs[0].leftKey, MiddleKey(cs))
  {
    hide Lt;
  }

  /** Where no leftKey stands at the end of a range, no split can go wrong. */
  lemma {:induction false} StrictInPlace(s: Store, g: Layout, p: Nid, j: nat, c: Nid)
    requires s.Keys == g.Keys && StoreStrict(s, g) && IsChild(s, g, p, j, c)
    ensures InPlace(s, g, p, j, c) && Below(MiddleKey(s[c].pivots), g[c].hi)
  {
    assert Strict(s[c].pivots, g[c].hi);
  }

  lemma {:induction false} SplitChildStrict(s: Store, g: Layout, root: Nid, p: Nid, j: nat, c: Nid, d: Nid)
    requires Inv(s, g, root) && StoreStrict(s, g) && IsChild(s, g, p, j, c) && d !in s && d != NID_NIL
    ensures |s[p].pivots| > 0
    ensures SplitChild(s, p, c, d).Keys == SplitLayout(g, c, d, MiddleKey(s[c].pivots)).Keys
    ensures StoreStrict(SplitChild(s, p, c, d), SplitLayout(g, c, d, MiddleKey(s[c].pivots)))
  {
    hide Inv, Strict, SplitChild, InsertAfter, Ordered, MiddleKey, AddPivot;
    MiddleInRange(s, g, root, p, j, c);
    StrictInPlace(s, g, p, j, c);
    SplitChildShape(s, g, root, p, j, c);
    SplitChildNodes(s, g, root, p, j, c, d);
    HalvesStrict(s[c].pivots, g[c].hi);
    ParentStrict(s, g, root, p, j, c, d);
    hide IsChild;
    var s', g' := SplitChild(s, p, c, d), SplitLayout(g, c, d, MiddleKey(s[c].pivots));
    forall x | x in s'
      ensures Strict(s'[x].pivots, g'[x].hi)
    {
      if x != p && x != c && x != d {
        assert s'[x] == s[x] && g'[x] == g[x];
      }
    }
  }

  lemma {:induction false} ParentStrict(s: Store, g: Layout, root: Nid, p: Nid, j: nat, c: Nid, d: Nid)
    requires Inv(s, g, root) && StoreStrict(s, g) && IsChild(s, g, p, j, c)
    ensures Strict(InsertAfter(s[p].pivots, j, Pivot(MiddleKey(s[c].pivots), d, [])), g[p].hi)
  {
    MiddleInRange(s, g, root, p, j, c);
    StrictInPlace(s, g, p, j, c);
    NodeIsOk(s, g, root, c);
    assert s[c].pivots[0].leftKey == s[p].pivots[j].leftKey;
    hide Inv, Strict, InsertAfter, NodeOk, Ordered, AddPivot, Lt, MiddleKey;
    HalvesStrict(s[c].pivots, g[c].hi);
    InsertStrict(s[p].pivots, j, Pivot(MiddleKey(s[c].pivots), d, []), g[p].hi);
  }

  lemma {:induction false} GrowUpStrict(s: Store, g: Layout, c: Nid, d: Nid, r: Nid)
    requires Inv(s, g, c) && StoreStrict(s, g) && |s[c].pivots| >= 2 && d !in s && r !in s && d != r
    ensures StoreStrict(GrowUp(s, c, d, r), GrowLayout(g, c, d, r, MiddleKey(s[c].pivots)))
  {
    NodeIsOk(s, g, c, c);
    HalvesStrict(s[c].pivots, g[c].hi);
    var s', mid := GrowUp(s, c, d, r), MiddleKey(s[c].pivots);
    assert s'[r].pivots == [Pivot([], c, []), Pivot(mid, d, [])];
    hide Inv, NodeOk, Lt;
    assert Strict(s'[r].pivots, None);
    hide Strict, AddPivot;
  }

  // ---------------------------------------------------------------- known keys, step by step

  lemma {:induction false} DeliverKnown(ps: seq<Pivot>, m: Msg, written: set<Key>, r: Rules)
    requires |ps| > 0 && AllKnown(ps, written, r) && m.key in written && Allowed(m, r)
    requires forall i :: 0 <= i < |ps| ==> Sorted(ps[i].buf)
    ensures AllKnown(Deliver(ps, m), written, r)
  {
    var i := Route(ps, m.key);
    InsertedSorted(ps[i].buf, m);
    hide Sorted, Allowed, InsertMsg;
    assert Known(ps[i], written, r);
  }

  lemma {:induction false} DistributeKnown(ps: seq<Pivot>, ms: seq<Msg>, lo: Key, hi: Option<Key>, written: set<Key>,
                                           r: Rules)
    requires PivotsOk(ps, lo, hi) && BufOk(ms, lo, hi) && AllKnown(ps, written, r)
    requires forall m :: m in ms ==> m.key in written && Allowed(m, r)
    ensures AllKnown(Distribute(ps, ms), written, r)
    decreases |ms|
  {
    if ms != [] {
      assert ms[0] in ms && forall m :: m in ms[1..] ==> m in ms;
      DeliverOk(ps, ms[0], lo, hi, []);
      assert forall i :: 0 <= i < |ps| ==> BufOk(ps[i].buf, ps[i].leftKey, Hi(ps, i, hi));
      DeliverKnown(ps, ms[0], written, r);
      hide AllKnown, Allowed;
      DistributeKnown(Deliver(ps, ms[0]), ms[1..], lo, hi, written, r);
    }
  }

  lemma {:induction false} WriteKnown(s: Store, g: Layout, root: Nid, m: Msg, written: set<Key>, r: Rules)
    requires Inv(s, g, root) && StoreKnown(s, written, r) && Allowed(m, r)
    ensures |s[root].pivots| > 0
    ensures StoreKnown(Write(s, root, m), written + {m.key}, r)
  {
    NodeIsOk(s, g, root, root);
    hide Inv, Allowed;
    var ps := s[root].pivots;
    forall x | x in s
      ensures AllKnown(s[x].pivots, written + {m.key}, r)
    {
      assert AllKnown(s[x].pivots, written, r);
      assert forall i :: 0 <= i < |s[x].pivots| ==> Known(s[x].pivots[i], written, r);
    }
    assert forall i :: 0 <= i < |ps| ==> BufOk(ps[i].buf, ps[i].leftKey, Hi(ps, i, g[root].hi));
    DeliverKnown(ps, m, written + {m.key}, r);
    hide AllKnown;
  }

  lemma {:induction false} PushDownKnown(s: Store, g: Layout, root: Nid, p: Nid, i: nat, written: set<Key>, r: Rules)
    requires Inv(s, g, root) && p in s && i < |s[p].pivots| && g[p].level > 0 && StoreKnown(s, written, r)
    ensures s[p].pivots[i].child in s && |s[s[p].pivots[i].child].pivots| > 0
    ensures StoreKnown(PushDown(s, p, i), written, r)
  {
    ChildAt(s, g, root, p, i);
    NodeIsOk(s, g, root, p);
    NodeIsOk(s, g, root, s[p].pivots[i].child);
    hide Inv, Allowed;
    var c := s[p].pivots[i].child;
    assert AllKnown(s[p].pivots, written, r) && AllKnown(s[c].pivots, written, r);
    assert Known(s[p].pivots[i], written, r);
    assert BufOk(s[p].pivots[i].buf, s[p].pivots[i].leftKey, Hi(s[p].pivots, i, g[p].hi));
    DistributeKnown(s[c].pivots, s[p].pivots[i].buf, g[c].lo, g[c].hi, written, r);
    hide NodeOk, Distribute, Known;
    var ps := s[p].pivots[i := s[p].pivots[i].(buf := [])];
    assert AllKnown(ps, written, r) by {
      EmptiedKnown(s[p].pivots[i], written, r);
    }
    hide AllKnown;
  }

  lemma {:induction false} EmptiedKnown(p: Pivot, written: set<Key>, r: Rules)
    requires Known(p, written, r)
    ensures Known(p.(buf := []), written, r)
  {
  }

  lemma {:induction false} AddPivotKnown(ps: seq<Pivot>, pv: Pivot, written: set<Key>, r: Rules)
    requires |ps| > 0 && AllKnown(ps, written, r) && Known(pv, written, r)
    ensures AllKnown(AddPivot(ps, pv), written, r)
  {
    hide Known;
  }

  lemma {:induction false} SplitLeafKnown(s: Store, id: Nid, i: nat, written: set<Key>, r: Rules)
    requires StoreKnown(s, written, r) && id in s && i < |s[id].pivots| && |s[id].pivots[i].buf| > 0
    ensures StoreKnown(s[id := s[id].(pivots := SplitPivot(s[id].pivots, i))], written, r)
  {
    hide Allowed;
    var ps := s[id].pivots;
    var l := ps[i].buf;
    var mid := |l| / 2;
    assert AllKnown(ps, written, r);
    assert Known(ps[i], written, r);
    assert l[mid] in l;
    assert forall m :: m in l[..mid] || m in l[mid..] ==> m in l;
    AddPivotKnown(ps[i := ps[i].(buf := l[..mid])], Pivot(l[mid].key, NID_NIL, l[mid..]), written, r);
    hide AllKnown;
  }

  lemma {:induction false} HalveKnown(s: Store, c: Nid, d: Nid, written: set<Key>, r: Rules)
    requires StoreKnown(s, written, r) && c in s && |s[c].pivots| > 0
    ensures StoreKnown(Halve(s, c, d), written, r)
    ensures Known(Pivot(MiddleKey(s[c].pivots), d, []), written, r)
  {
    assert AllKnown(s[c].pivots, written, r);
    assert Known(s[c].pivots[|s[c].pivots| / 2], written, r);
    hide Allowed;
  }

  lemma {:induction false} SplitChildKnown(s: Store, p: Nid, c: Nid, d: Nid, written: set<Key>, r: Rules)
    requires StoreKnown(s, written, r) && c in s && p in s && |s[c].pivots| > 0 && |s[p].pivots| > 0
    ensures StoreKnown(SplitChild(s, p, c, d), written, r)
  {
    HalveKnown(s, c, d, written, r);
    assert AllKnown(s[p].pivots, written, r);
    AddPivotKnown(s[p].pivots, Pivot(MiddleKey(s[c].pivots), d, []), written, r);
    hide AllKnown, Known, AddPivot;
  }

  lemma {:induction false} GrowUpKnown(s: Store, c: Nid, d: Nid, r: Nid, written: set<Key>, q: Rules)
    requires StoreKnown(s, written, q) && c in s && |s[c].pivots| > 0
    ensures StoreKnown(GrowUp(s, c, d, r), written, q)
  {
    HalveKnown(s, c, d, written, q);
    assert AllKnown([Pivot([], c, [])], written, q);
    AddPivotKnown([Pivot([], c, [])], Pivot(MiddleKey(s[c].pivots), d, []), written, q);
    hide AllKnown, Known, AddPivot;
  }

  /** With messages that each fit, a buffer over the limit holds at least two of them. */
  lemma {:induction false} OverLimitHoldsTwo(p: Pivot, written: set<Key>, r: Rules)
    requires Known(p, written, r) && r.allFit
    ensures BufSize(p.buf) > r.limit ==> |p.buf| >= 2 || (p.buf == [] && r.limit < 4)
  {
    if |p.buf| == 1 {
      assert p.buf == [p.buf[0]] && p.buf[0] in p.buf;
    }
  }

  /** Whatever the messages' sizes, a buffer over the limit can be split unless all it holds is a
      message of the empty key that is too big by itself. */
  lemma {:induction false} OverLimitIsSplittable(p: Pivot, written: set<Key>, r: Rules)
    requires Known(p, written, r) && Sorted(p.buf) && r.limit >= 4 && BufSize(p.buf) > r.limit
    ensures p.buf != []
    ensures Splittable(p.buf) || (|p.buf| == 1 && p.buf[0].key == [] && !Fits(p.buf[0], r.limit))
    ensures r.emptyLimit == r.limit ==> Splittable(p.buf)
  {
    assert p.buf != [];
    SplittableIff(p.buf);
    hide Splittable, Sorted;
    if |p.buf| == 1 {
      assert p.buf == [p.buf[0]] && p.buf[0] in p.buf;
    }
  }
}
