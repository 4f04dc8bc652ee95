/** Splitting a node in two below its parent, and growing a new root (Node::splitNode). */
module TreeSplitNode {
  import opened Keys
  import opened Msgs
  import opened TreeModel
  import opened TreeSteps
  import opened TreeSplits

  // ---------------------------------------------------------------- the two halves of a node

  lemma {:induction false} HalvesOrdered(cs: seq<Pivot>, lo: Key, hi: Option<Key>)
    requires Ordered(cs, lo, hi) && |cs| >= 2
    ensures Ordered(cs[..|cs| / 2], lo, Some(MiddleKey(cs)))
    ensures Ordered(cs[|cs| / 2..], MiddleKey(cs), hi)
    ensures Le(lo, MiddleKey(cs)) && AtMost(MiddleKey(cs), hi) && MiddleKey(cs) != []
  {
  }

  lemma {:induction false} HiOfHalves(cs: seq<Pivot>, hi: Option<Key>, j: nat)
    requires |cs| >= 2 && j < |cs|
    ensures var mid := |cs| / 2;
            && (j < mid ==> cs[..mid][j] == cs[j] && Hi(cs[..mid], j, Some(MiddleKey(cs))) == Hi(cs, j, hi))
            && (j >= mid ==> cs[mid..][j - mid] == cs[j] && Hi(cs[mid..], j - mid, hi) == Hi(cs, j, hi))
  {
  }

  lemma {:induction false} HalfNodesOk(cs: seq<Pivot>, lo: Key, hi: Option<Key>)
    requires PivotsOk(cs, lo, hi) && |cs| >= 2
    ensures PivotsOk(cs[..|cs| / 2], lo, Some(MiddleKey(cs)))
    ensures PivotsOk(cs[|cs| / 2..], MiddleKey(cs), hi)
  {
    hide BufOk, Ordered, MiddleKey, Hi;
    HalvesOrdered(cs, lo, hi);
    var mid := |cs| / 2;
    var low, high := cs[..mid], cs[mid..];
    forall j | 0 <= j < mid
      ensures BufOk(low[j].buf, low[j].leftKey, Hi(low, j, Some(MiddleKey(cs))))
    {
      HiOfHalves(cs, hi, j);
    }
    forall j | 0 <= j < |cs| - mid
      ensures BufOk(high[j].buf, high[j].leftKey, Hi(high, j, hi))
    {
      HiOfHalves(cs, hi, mid + j);
    }
  }

  lemma {:induction false} RouteInHalves(cs: seq<Pivot>, lo: Key, hi: Option<Key>, k: Key)
    requires Ordered(cs, lo, hi) && |cs| >= 2 && InRange(k, lo, hi)
    ensures if Lt(k, MiddleKey(cs)) then At(cs[..|cs| / 2], k) == At(cs, k) else At(cs[|cs| / 2..], k) == At(cs, k)
  {
    var mid := |cs| / 2;
    HalvesOrdered(cs, lo, hi);
    RouteInRange(cs, lo, hi, k);
    var j := Route(cs, k);
    HiOfHalves(cs, hi, j);
    assert Lt(k, MiddleKey(cs)) <==> j < mid by {
      KeyOrder();
    }
    hide Ordered, Route;
    if j < mid {
      RouteIs(cs[..mid], lo, Some(MiddleKey(cs)), k, j);
    } else {
      RouteIs(cs[mid..], MiddleKey(cs), hi, k, j - mid);
    }
  }

  lemma {:induction false} LowerLinksOk(n: NodeState, g: Layout, g': Layout, f: Info)
    requires LinksOk(n, g, f) && |n.pivots| >= 2
    requires forall x :: x in g && g[x].level < f.level ==> x in g' && g'[x] == g[x]
    ensures LinksOk(NodeState(n.isLeaf, n.pivots[..|n.pivots| / 2]), g', f.(hi := Some(MiddleKey(n.pivots))))
  {
    var cs := n.pivots;
    var low := cs[..|cs| / 2];
    var f' := f.(hi := Some(MiddleKey(cs)));
    forall j | 0 <= j < |low|
      ensures low[j].child == cs[j].child && (f.level > 0 ==> ChildInfo(f', low, j) == ChildInfo(f, cs, j))
    {
      HiOfHalves(cs, f.hi, j);
    }
    hide MiddleKey, Hi, ChildInfo;
  }

  lemma {:induction false} UpperLinksOk(n: NodeState, g: Layout, g': Layout, f: Info)
    requires LinksOk(n, g, f) && |n.pivots| >= 2
    requires forall x :: x in g && g[x].level < f.level ==> x in g' && g'[x] == g[x]
    ensures LinksOk(NodeState(n.isLeaf, n.pivots[|n.pivots| / 2..]), g', Info(f.level, MiddleKey(n.pivots), f.hi))
  {
    var cs := n.pivots;
    var mid := |cs| / 2;
    var f' := Info(f.level, MiddleKey(cs), f.hi);
    forall j | 0 <= j < |cs| - mid
      ensures cs[mid..][j].child == cs[mid + j].child
      ensures f.level > 0 ==> ChildInfo(f', cs[mid..], j) == ChildInfo(f, cs, mid + j)
    {
      HiOfHalves(cs, f.hi, mid + j);
    }
    hide MiddleKey, Hi, ChildInfo;
  }

  /** Both halves are nodes in their own right, each for its part of the old range. */
  lemma {:induction false} HalvesAreNodes(s: Store, g: Layout, root: Nid, c: Nid, d: Nid)
    requires Inv(s, g, root) && c in s && |s[c].pivots| >= 2 && d !in s && d != NID_NIL
    ensures var g' := SplitLayout(g, c, d, MiddleKey(s[c].pivots));
            var s' := Halve(s, c, d);
            NodeOk(s'[c], g', g'[c]) && NodeOk(s'[d], g', g'[d])
  {
    NodeIsOk(s, g, root, c);
    hide Inv, PivotsOk;
    HalfNodesOk(s[c].pivots, g[c].lo, g[c].hi);
    LowerLinksOk(s[c], g, SplitLayout(g, c, d, MiddleKey(s[c].pivots)), g[c]);
    UpperLinksOk(s[c], g, SplitLayout(g, c, d, MiddleKey(s[c].pivots)), g[c]);
    hide LinksOk;
  }

  /** A node that does not point at c does not notice, nor does any where c's part stays the same. */
  lemma {:induction false} OthersKeepLinks(s: Store, g: Layout, g': Layout, root: Nid, c: Nid, x: Nid)
    requires Inv(s, g, root) && x in s
    requires forall y :: y in g && y != c ==> y in g' && g'[y] == g[y]
    requires (c in g && c in g' && g'[c] == g[c]) || forall j :: 0 <= j < |s[x].pivots| ==> s[x].pivots[j].child != c
    ensures NodeOk(s[x], g', g[x])
  {
    NodeIsOk(s, g, root, x);
    hide Inv, PivotsOk;
  }

  lemma {:induction false} SplitLayoutApart(g: Layout, c: Nid, d: Nid, mid: Key, a: Nid, b: Nid)
    requires c in g && d !in g && Le(g[c].lo, mid) && AtMost(mid, g[c].hi)
    requires forall a, b {:trigger Apart(g, a, b)} :: a in g && b in g ==> Apart(g, a, b)
    requires a in g + map[d := g[c]] && b in g + map[d := g[c]]
    ensures Apart(SplitLayout(g, c, d, mid), a, b)
  {
    KeyOrder();
    var a', b' := if a == d then c else a, if b == d then c else b;
    assert Apart(g, a', b');
  }

  lemma {:induction false} SplitLayoutAllApart(s: Store, g: Layout, root: Nid, c: Nid, d: Nid)
    requires Inv(s, g, root) && c in s && |s[c].pivots| >= 2 && d !in s
    ensures var g' := SplitLayout(g, c, d, MiddleKey(s[c].pivots));
            forall a, b {:trigger Apart(g', a, b)} :: a in g' && b in g' ==> Apart(g', a, b)
  {
    var mid := MiddleKey(s[c].pivots);
    var g' := SplitLayout(g, c, d, mid);
    NodeIsOk(s, g, root, c);
    HalvesOrdered(s[c].pivots, g[c].lo, g[c].hi);
    hide NodeAt, NodeOk, Apart;
    forall a, b | a in g' && b in g'
      ensures Apart(g', a, b)
    {
      SplitLayoutApart(g, c, d, mid, a, b);
    }
  }

  /** Each half answers its keys as the whole did. */
  lemma {:induction false} FindInHalves(s: Store, g: Layout, root: Nid, c: Nid, d: Nid, s': Store, k: Key)
    requires Inv(s, g, root) && c in s && |s[c].pivots| >= 2 && d !in s && InRange(k, g[c].lo, g[c].hi)
    requires c in s' && d in s' && s'[c] == Halve(s, c, d)[c] && s'[d] == Halve(s, c, d)[d]
    requires forall x :: x in s && g[x].level < g[c].level ==> x in s' && s'[x] == s[x]
    ensures Find(s', if Lt(k, MiddleKey(s[c].pivots)) then c else d, g[c].level, k) == Find(s, c, g[c].level, k)
  {
    hide *;
    AtInHalves(s, g, root, c, d, k);
    var e := if Lt(k, MiddleKey(s[c].pivots)) then c else d;
    if g[c].level > 0 {
      ChildOf(s, g, root, c, k);
      InvKeys(s, g, root);
      FindStep(s, c, g[c].level, k);
      FindStep(s', e, g[c].level, k);
      FindSame(s, s', g, root, At(s[c].pivots, k).child, k);
    } else {
      FindAtLeaf(s, c, k);
      FindAtLeaf(s', e, k);
    }
  }

  lemma InvKeys(s: Store, g: Layout, root: Nid)
    requires Inv(s, g, root)
    ensures s.Keys == g.Keys && NID_NIL !in s && root in s
  {
  }

  lemma {:induction false} AtInHalves(s: Store, g: Layout, root: Nid, c: Nid, d: Nid, k: Key)
    requires Inv(s, g, root) && c in s && |s[c].pivots| >= 2 && d !in s && InRange(k, g[c].lo, g[c].hi)
    ensures var e := if Lt(k, MiddleKey(s[c].pivots)) then c else d;
            |Halve(s, c, d)[e].pivots| > 0 && At(Halve(s, c, d)[e].pivots, k) == At(s[c].pivots, k)
  {
    hide Inv;
    NodeIsOk(s, g, root, c);
    RouteInHalves(s[c].pivots, g[c].lo, g[c].hi, k);
    hide NodeOk, At, Lt;
  }

  // ---------------------------------------------------------------- below a parent

  /** c hangs below pivot j of p and has pivots for two nodes. */
  ghost predicate IsChild(s: Store, g: Layout, p: Nid, j: nat, c: Nid)
    requires s.Keys == g.Keys
  {
    p in s && c in s && j < |s[p].pivots| && s[p].pivots[j].child == c && g[p].level > 0 && |s[c].pivots| >= 2
  }

  /** Splitting c puts p's new pivot in its place: c's middle key is below the end of its range, or stands
      where p's range ends as well. Bounds on the number of pivots see to the first
      (TreeBalance.MiddleIsBelowEnd). */
  ghost predicate InPlace(s: Store, g: Layout, p: Nid, j: nat, c: Nid)
    requires s.Keys == g.Keys
  {
    && IsChild(s, g, p, j, c)
    && (Below(MiddleKey(s[c].pivots), g[c].hi) || !Below(MiddleKey(s[c].pivots), g[p].hi))
  }

  /** The other splits: c's middle key stands where its range ends, and p's range goes on from there. */
  ghost predicate AtRangeEnd(s: Store, g: Layout, p: Nid, j: nat, c: Nid)
    requires s.Keys == g.Keys
  {
    IsChild(s, g, p, j, c) && !InPlace(s, g, p, j, c)
  }

  lemma {:induction false} MiddleInRange(s: Store, g: Layout, root: Nid, p: Nid, j: nat, c: Nid)
    requires Inv(s, g, root) && IsChild(s, g, p, j, c)
    ensures var ps := s[p].pivots;
            var mid := MiddleKey(s[c].pivots);
            && c != p && c != NID_NIL && g[c] == ChildInfo(g[p], ps, j)
            && Ordered(ps, g[p].lo, g[p].hi)
            && Le(g[c].lo, mid) && AtMost(mid, g[c].hi) && mid != []
            && (!Below(mid, g[c].hi) ==> g[c].hi == Some(mid))
  {
    ChildAt(s, g, root, p, j);
    NodeIsOk(s, g, root, p);
    NodeIsOk(s, g, root, c);
    HalvesOrdered(s[c].pivots, g[c].lo, g[c].hi);
    hide Inv, LinksOk, BufOk, Ordered, MiddleKey;
    if !Below(MiddleKey(s[c].pivots), g[c].hi) {
      AtEnd(MiddleKey(s[c].pivots), g[c].hi);
    }
  }

  lemma AtEnd(k: Key, hi: Option<Key>)
    requires AtMost(k, hi) && !Below(k, hi)
    ensures hi == Some(k)
  {
    KeyOrder();
  }

  lemma {:induction false} NewIsLast(ps: seq<Pivot>, lo: Key, hi: Option<Key>, j: nat, mid: Key)
    requires Ordered(ps, lo, hi) && j < |ps| && Hi(ps, j, hi) == Some(mid) && !Below(mid, hi)
    ensures hi == Some(mid) && Route(ps, mid) == |ps| - 1 && Le(ps[|ps| - 1].leftKey, mid)
  {
    AtEnd(mid, hi);
    assert AtMost(ps[|ps| - 1].leftKey, hi);
  }

  /** The new pivot goes right behind c's own, or behind all of p's. */
  lemma {:induction false} SplitChildShape(s: Store, g: Layout, root: Nid, p: Nid, j: nat, c: Nid)
    requires Inv(s, g, root) && InPlace(s, g, p, j, c)
    ensures var ps := s[p].pivots;
            var mid := MiddleKey(s[c].pivots);
            var q := Route(ps, mid);
            && Le(ps[q].leftKey, mid) && AtMost(mid, Hi(ps, q, g[p].hi))
            && if Below(mid, g[c].hi) then q == j else q == |ps| - 1 && g[c].hi == g[p].hi == Some(mid)
  {
    MiddleInRange(s, g, root, p, j, c);
    var ps, mid := s[p].pivots, MiddleKey(s[c].pivots);
    hide Inv, MiddleKey, Route;
    if Below(mid, g[c].hi) {
      RouteIs(ps, g[p].lo, g[p].hi, mid, j);
      BelowIsAtMost(mid, g[c].hi);
    } else {
      hide Ordered;
      NewIsLast(ps, g[p].lo, g[p].hi, j, mid);
      LtImpliesLe(mid, mid);
    }
  }

  lemma {:induction false} ParentPivotsOk(ps: seq<Pivot>, j: nat, pv: Pivot, lo: Key, hi: Option<Key>)
    requires PivotsOk(ps, lo, hi) && j < |ps| && pv.buf == []
    requires ps[j].buf == [] || Hi(ps, j, hi) == Some(pv.leftKey)
    requires Le(ps[j].leftKey, pv.leftKey) && AtMost(pv.leftKey, Hi(ps, j, hi)) && pv.leftKey != []
    ensures PivotsOk(InsertAfter(ps, j, pv), lo, hi)
  {
    InsertAfterOrdered(ps, j, pv, lo, hi);
    var r := InsertAfter(ps, j, pv);
    hide Ordered;
    forall a | 0 <= a < |r|
      ensures BufOk(r[a].buf, r[a].leftKey, Hi(r, a, hi))
    {
      var a' := if a <= j then a else a - 1;
      HiAfterInsert(ps, j, pv, hi, a');
      hide InsertAfter;
      assert BufOk(ps[a'].buf, ps[a'].leftKey, Hi(ps, a', hi));
    }
  }

  lemma {:induction false} ParentLinksOk(n: NodeState, g: Layout, f: Info, j: nat, d: Nid, mid: Key)
    requires LinksOk(n, g, f) && f.level > 0 && j < |n.pivots| && d !in g && d != NID_NIL
    requires forall i :: 0 <= i < |n.pivots| && i != j ==> n.pivots[i].child != n.pivots[j].child
    ensures LinksOk(n.(pivots := InsertAfter(n.pivots, j, Pivot(mid, d, []))),
                    SplitLayout(g, n.pivots[j].child, d, mid), f)
  {
    var ps := n.pivots;
    var pv := Pivot(mid, d, []);
    var r := InsertAfter(ps, j, pv);
    var g' := SplitLayout(g, ps[j].child, d, mid);
    forall a | 0 <= a < |r|
      ensures r[a].child != NID_NIL && r[a].child in g' && g'[r[a].child] == ChildInfo(f, r, a)
    {
      var a' := if a <= j then a else a - 1;
      HiAfterInsert(ps, j, pv, f.hi, a');
      HiAfterInsert(ps, j, pv, f.hi, j);
      hide InsertAfter;
      assert ps[a'].child in g && g[ps[a'].child] == ChildInfo(f, ps, a');
    }
  }

  lemma {:induction false} ParentLinksAtEnd(n: NodeState, g: Layout, f: Info, d: Nid, mid: Key)
    requires LinksOk(n, g, f) && f.level > 0 && |n.pivots| > 0 && d !in g && d != NID_NIL && f.hi == Some(mid)
    ensures var i := |n.pivots| - 1;
            LinksOk(n.(pivots := InsertAfter(n.pivots, i, Pivot(mid, d, []))),
                    g[d := Info(f.level - 1, mid, Some(mid))], f)
  {
    var ps := n.pivots;
    var pv := Pivot(mid, d, []);
    var r := InsertAfter(ps, |ps| - 1, pv);
    var g' := g[d := Info(f.level - 1, mid, Some(mid))];
    forall a | 0 <= a < |r|
      ensures r[a].child != NID_NIL && r[a].child in g' && g'[r[a].child] == ChildInfo(f, r, a)
    {
      var a' := if a < |ps| then a else a - 1;
      HiAfterInsert(ps, |ps| - 1, pv, f.hi, a');
      hide InsertAfter;
      assert ps[a'].child in g && g[ps[a'].child] == ChildInfo(f, ps, a');
    }
  }

  lemma {:induction false} SplitChildParentLinks(s: Store, g: Layout, root: Nid, p: Nid, j: nat, c: Nid, d: Nid)
    requires Inv(s, g, root) && InPlace(s, g, p, j, c) && d !in s && d != NID_NIL
    ensures var ps := s[p].pivots;
            var mid := MiddleKey(s[c].pivots);
            LinksOk(s[p].(pivots := AddPivot(ps, Pivot(mid, d, []))), SplitLayout(g, c, d, mid), g[p])
  {
    MiddleInRange(s, g, root, p, j, c);
    SplitChildShape(s, g, root, p, j, c);
    NodeIsOk(s, g, root, p);
    var mid := MiddleKey(s[c].pivots);
    hide Ordered, PivotsOk, MiddleKey, Route;
    if Below(mid, g[c].hi) {
      forall i | 0 <= i < |s[p].pivots| && i != j
        ensures s[p].pivots[i].child != c
      {
        if s[p].pivots[i].child == c {
          ParentIsUnique(s, g, root, p, i, p, j, mid);
        }
      }
      hide Inv;
      ParentLinksOk(s[p], g, g[p], j, d, mid);
    } else {
      hide Inv;
      ParentLinksAtEnd(s[p], g, g[p], d, mid);
      assert SplitLayout(g, c, d, mid) == g[d := Info(g[p].level - 1, mid, Some(mid))];
    }
  }

  lemma {:induction false} SplitChildParentOk(s: Store, g: Layout, root: Nid, p: Nid, j: nat, c: Nid, d: Nid)
    requires Inv(s, g, root) && InPlace(s, g, p, j, c) && d !in s && d != NID_NIL
    requires s[p].pivots[j].buf == []
    ensures var mid := MiddleKey(s[c].pivots);
            && |s[p].pivots| > 0
            && NodeOk(SplitChild(s, p, c, d)[p], SplitLayout(g, c, d, mid), g[p])
  {
    MiddleInRange(s, g, root, p, j, c);
    SplitChildShape(s, g, root, p, j, c);
    NodeIsOk(s, g, root, p);
    SplitChildParentLinks(s, g, root, p, j, c, d);
    var ps, mid := s[p].pivots, MiddleKey(s[c].pivots);
    hide Inv, Ordered, BufOk, Route, MiddleKey, LinksOk;
    ParentPivotsOk(ps, Route(ps, mid), Pivot(mid, d, []), g[p].lo, g[p].hi);
    hide PivotsOk, InsertAfter;
  }

  lemma {:induction false} SplitChildNodeOk(s: Store, g: Layout, root: Nid, p: Nid, j: nat, c: Nid, d: Nid, x: Nid)
    requires Inv(s, g, root) && InPlace(s, g, p, j, c) && d !in s && d != NID_NIL
    requires s[p].pivots[j].buf == []
    ensures |s[p].pivots| > 0
    requires x in s.Keys + {d}
    ensures NodeAt(SplitChild(s, p, c, d), SplitLayout(g, c, d, MiddleKey(s[c].pivots)), x)
  {
    var mid := MiddleKey(s[c].pivots);
    var g' := SplitLayout(g, c, d, mid);
    hide Inv, NodeOk, Route, MiddleKey;
    SplitChildNodes(s, g, root, p, j, c, d);
    MiddleInRange(s, g, root, p, j, c);
    SplitChildShape(s, g, root, p, j, c);
    ChildAt(s, g, root, p, j);
    hide Ordered;
    if x == p {
      SplitChildParentOk(s, g, root, p, j, c, d);
    } else if x == c || x == d {
      HalvesAreNodes(s, g, root, c, d);
      hide SplitChild;
    } else {
      hide SplitChild;
      forall i | 0 <= i < |s[x].pivots| && Below(mid, g[c].hi)
        ensures s[x].pivots[i].child != c
      {
        if s[x].pivots[i].child == c {
          ParentIsUnique(s, g, root, x, i, p, j, mid);
        }
      }
      OthersKeepLinks(s, g, g', root, c, x);
    }
  }

  /** With c's buffer in p drained, splitting c keeps the ordering invariant. */
  lemma {:induction false} SplitChildKeepsInv(s: Store, g: Layout, root: Nid, p: Nid, j: nat, c: Nid, d: Nid)
    requires Inv(s, g, root) && InPlace(s, g, p, j, c) && d !in s && d != NID_NIL
    requires s[p].pivots[j].buf == []
    ensures |s[p].pivots| > 0
    ensures Inv(SplitChild(s, p, c, d), SplitLayout(g, c, d, MiddleKey(s[c].pivots)), root)
  {
    hide NodeAt, Apart, AddPivot, NodeOk;
    forall x | x in s.Keys + {d}
      ensures |s[p].pivots| > 0
      ensures NodeAt(SplitChild(s, p, c, d), SplitLayout(g, c, d, MiddleKey(s[c].pivots)), x)
    {
      SplitChildNodeOk(s, g, root, p, j, c, d, x);
    }
    SplitChildNodes(s, g, root, p, j, c, d);
    ChildAt(s, g, root, p, j);
    SplitLayoutAllApart(s, g, root, c, d);
    hide SplitChild;
  }

  lemma {:induction false} SplitChildNodes(s: Store, g: Layout, root: Nid, p: Nid, j: nat, c: Nid, d: Nid)
    requires Inv(s, g, root) && InPlace(s, g, p, j, c) && d !in s && d != NID_NIL
    ensures |s[p].pivots| > 0
    ensures var s' := SplitChild(s, p, c, d);
            && s'.Keys == s.Keys + {d}
            && s'[c] == Halve(s, c, d)[c] && s'[d] == Halve(s, c, d)[d]
            && s'[p].pivots
                 == InsertAfter(s[p].pivots, Route(s[p].pivots, MiddleKey(s[c].pivots)),
                                Pivot(MiddleKey(s[c].pivots), d, []))
            && forall x :: x in s && x != c && x != p ==> s'[x] == s[x]
  {
    hide Inv;
    MiddleInRange(s, g, root, p, j, c);
    hide InsertAfter, Ordered, Route, MiddleKey;
  }

  /** Where p sends k after the split: to the same child, unless k was c's and is not below the middle. */
  lemma {:induction false} StepAfterSplit(s: Store, g: Layout, root: Nid, p: Nid, j: nat, c: Nid, d: Nid, k: Key)
    requires Inv(s, g, root) && InPlace(s, g, p, j, c) && d !in s && d != NID_NIL
    requires InRange(k, g[p].lo, g[p].hi)
    ensures |s[p].pivots| > 0
    ensures At(SplitChild(s, p, c, d)[p].pivots, k)
            == if Route(s[p].pivots, k) == j && !Lt(k, MiddleKey(s[c].pivots)) then Pivot(MiddleKey(s[c].pivots), d, [])
               else At(s[p].pivots, k)
  {
    hide Inv, Route, MiddleKey;
    var ps := s[p].pivots;
    var pv := Pivot(MiddleKey(s[c].pivots), d, []);
    var q := Route(ps, pv.leftKey);
    MiddleInRange(s, g, root, p, j, c);
    SplitChildShape(s, g, root, p, j, c);
    SplitChildNodes(s, g, root, p, j, c, d);
    RouteAfterInsert(ps, q, pv, g[p].lo, g[p].hi, k);
    HiAfterInsert(ps, q, pv, g[p].hi, Route(ps, k));
    hide InsertAfter, Ordered, SplitChild;
  }

  /** Below p, every key finds what it found before. */
  lemma {:induction false} FindBelowSplit(s: Store, g: Layout, root: Nid, p: Nid, j: nat, c: Nid, d: Nid, k: Key)
    requires Inv(s, g, root) && InPlace(s, g, p, j, c) && d !in s && d != NID_NIL
    requires InRange(k, g[p].lo, g[p].hi)
    ensures |s[p].pivots| > 0
    ensures var s' := SplitChild(s, p, c, d);
            Find(s', At(s'[p].pivots, k).child, g[p].level - 1, k)
                  == Find(s, At(s[p].pivots, k).child, g[p].level - 1, k)
  {
    hide Inv, Route, Find;
    StepAfterSplit(s, g, root, p, j, c, d, k);
    SplitChildNodes(s, g, root, p, j, c, d);
    ChildOf(s, g, root, p, k);
    ChildAt(s, g, root, p, j);
    hide SplitChild;
    var s' := SplitChild(s, p, c, d);
    var y := At(s[p].pivots, k).child;
    if y == c {
      ParentIsUnique(s, g, root, p, j, p, Route(s[p].pivots, k), k);
      FindInHalves(s, g, root, c, d, s', k);
    } else {
      FindSame(s, s', g, root, y, k);
    }
  }

  /**
   * What p answers once c is split, whatever c's buffer in p held: keys from the middle on now go
   * past that buffer, so its messages for them are out of reach.
   */
  lemma {:induction false} FindAfterSplit(s: Store, g: Layout, root: Nid, p: Nid, j: nat, c: Nid, d: Nid, k: Key)
    requires Inv(s, g, root) && InPlace(s, g, p, j, c) && d !in s && d != NID_NIL
    requires InRange(k, g[p].lo, g[p].hi)
    ensures |s[p].pivots| > 0
    ensures Find(SplitChild(s, p, c, d), p, g[p].level, k)
            == if Route(s[p].pivots, k) == j && !Lt(k, MiddleKey(s[c].pivots)) then Find(s, c, g[c].level, k)
               else Find(s, p, g[p].level, k)
  {
    hide Inv, Route, Find, Lookup;
    StepAfterSplit(s, g, root, p, j, c, d, k);
    FindBelowSplit(s, g, root, p, j, c, d, k);
    SplitChildNodes(s, g, root, p, j, c, d);
    ChildOf(s, g, root, p, k);
    ChildAt(s, g, root, p, j);
    hide SplitChild, InsertAfter;
    FindStep(s, p, g[p].level, k);
    FindStep(SplitChild(s, p, c, d), p, g[p].level, k);
    LookupNothing(k);
  }

  lemma {:induction false} FindBesideSplit(s: Store, g: Layout, root: Nid, p: Nid, j: nat, c: Nid, d: Nid, x: Nid,
                                           k: Key)
    requires Inv(s, g, root) && InPlace(s, g, p, j, c) && d !in s && d != NID_NIL
    requires x in s && x != p && g[x].level == g[p].level && InRange(k, g[x].lo, g[x].hi)
    ensures |s[p].pivots| > 0
    ensures Find(SplitChild(s, p, c, d), x, g[x].level, k) == Find(s, x, g[x].level, k)
  {
    MiddleInRange(s, g, root, p, j, c);
    ChildOf(s, g, root, x, k);
    hide Inv, AddPivot, Route, Find;
    var s' := SplitChild(s, p, c, d);
    var y := At(s[x].pivots, k).child;
    if y == c {
      ParentIsUnique(s, g, root, p, j, x, Route(s[x].pivots, k), k);
    }
    FindSame(s, s', g, root, y, k);
    FindStep(s, x, g[x].level, k);
    FindStep(s', x, g[x].level, k);
  }

  lemma {:induction false} FindAtDrainedParent(s: Store, g: Layout, root: Nid, p: Nid, j: nat, c: Nid, d: Nid, k: Key)
    requires Inv(s, g, root) && InPlace(s, g, p, j, c) && d !in s && d != NID_NIL
    requires s[p].pivots[j].buf == [] && InRange(k, g[p].lo, g[p].hi)
    ensures |s[p].pivots| > 0
    ensures Find(SplitChild(s, p, c, d), p, g[p].level, k) == Find(s, p, g[p].level, k)
  {
    hide Inv, Find, SplitChild, Route;
    FindAfterSplit(s, g, root, p, j, c, d, k);
    ChildOf(s, g, root, p, k);
    FindStep(s, p, g[p].level, k);
  }

  /** With c's buffer in p drained, no read that starts at p or beside or above it changes. */
  lemma {:induction false} SplitChildKeepsFind(s: Store, g: Layout, root: Nid, p: Nid, j: nat, c: Nid, d: Nid, id: Nid,
                                               k: Key)
    requires Inv(s, g, root) && InPlace(s, g, p, j, c) && d !in s && d != NID_NIL
    requires s[p].pivots[j].buf == []
    requires id in s && InRange(k, g[id].lo, g[id].hi) && g[id].level >= g[p].level
    ensures |s[p].pivots| > 0
    ensures Find(SplitChild(s, p, c, d), id, g[id].level, k) == Find(s, id, g[id].level, k)
  {
    hide Inv, Find, SplitChild;
    MiddleInRange(s, g, root, p, j, c);
    hide Ordered;
    SplitChildNodes(s, g, root, p, j, c, d);
    var s' := SplitChild(s, p, c, d);
    forall x | x in s && g[x].level == g[p].level && InRange(k, g[x].lo, g[x].hi)
      ensures Find(s', x, g[p].level, k) == Find(s, x, g[p].level, k)
    {
      if x == p {
        FindAtDrainedParent(s, g, root, p, j, c, d, k);
      } else {
        FindBesideSplit(s, g, root, p, j, c, d, x, k);
      }
    }
    FindLift(s, s', g, root, id, k, g[p].level);
  }

  // ---------------------------------------------------------------- a new root

  lemma {:induction false} GrowUpHalfOk(s: Store, g: Layout, c: Nid, d: Nid, r: Nid, x: Nid)
    requires Inv(s, g, c) && |s[c].pivots| >= 2
    requires d !in s && r !in s && d != NID_NIL && r != NID_NIL && d != r
    requires x == c || x == d
    ensures NodeOk(GrowUp(s, c, d, r)[x], GrowLayout(g, c, d, r, MiddleKey(s[c].pivots)),
                   GrowLayout(g, c, d, r, MiddleKey(s[c].pivots))[x])
  {
    var mid := MiddleKey(s[c].pivots);
    HalvesAreNodes(s, g, c, c, d);
    assert r !in g;
    hide Inv, NodeOk, MiddleKey, AddPivot;
    var g0 := SplitLayout(g, c, d, mid);
    SameLinks(Halve(s, c, d)[x], g0, GrowLayout(g, c, d, r, mid), g0[x]);
  }

  lemma {:induction false} GrowUpRootOk(s: Store, g: Layout, c: Nid, d: Nid, r: Nid)
    requires Inv(s, g, c) && |s[c].pivots| >= 2
    requires d !in s && r !in s && d != NID_NIL && r != NID_NIL && d != r
    ensures NodeOk(GrowUp(s, c, d, r)[r], GrowLayout(g, c, d, r, MiddleKey(s[c].pivots)),
                   GrowLayout(g, c, d, r, MiddleKey(s[c].pivots))[r])
  {
    var mid := MiddleKey(s[c].pivots);
    NodeIsOk(s, g, c, c);
    HalvesOrdered(s[c].pivots, g[c].lo, g[c].hi);
    assert g[c].lo == [] && g[c].hi == None && c != NID_NIL;
    hide Inv, NodeOk, MiddleKey, AddPivot, Ordered;
    NewRootOk(SplitLayout(g, c, d, mid), GrowLayout(g, c, d, r, mid), c, d, r, mid);
  }

  lemma {:induction false} GrowUpOtherOk(s: Store, g: Layout, c: Nid, d: Nid, r: Nid, x: Nid)
    requires Inv(s, g, c) && |s[c].pivots| >= 2 && x in s && x != c
    requires d !in s && r !in s && d != NID_NIL && r != NID_NIL && d != r
    ensures NodeOk(GrowUp(s, c, d, r)[x], GrowLayout(g, c, d, r, MiddleKey(s[c].pivots)),
                   GrowLayout(g, c, d, r, MiddleKey(s[c].pivots))[x])
  {
    var g' := GrowLayout(g, c, d, r, MiddleKey(s[c].pivots));
    NoParentOfRoot(s, g, c, x);
    assert g'[x] == g[x] && GrowUp(s, c, d, r)[x] == s[x];
    assert forall y :: y in g && y != c ==> y in g' && g'[y] == g[y];
    hide Inv, NodeOk, MiddleKey, AddPivot, GrowUp, GrowLayout;
    OthersKeepLinks(s, g, g', c, c, x);
  }

  lemma {:induction false} GrowLayoutApart(s: Store, g: Layout, c: Nid, d: Nid, r: Nid, a: Nid, b: Nid)
    requires Inv(s, g, c) && |s[c].pivots| >= 2 && d !in s && r !in s && d != r
    requires a in GrowLayout(g, c, d, r, MiddleKey(s[c].pivots)) && b in GrowLayout(g, c, d, r, MiddleKey(s[c].pivots))
    ensures Apart(GrowLayout(g, c, d, r, MiddleKey(s[c].pivots)), a, b)
  {
    var mid := MiddleKey(s[c].pivots);
    if a != r && b != r {
      SplitLayoutAllApart(s, g, c, c, d);
      assert Apart(SplitLayout(g, c, d, mid), a, b);
    }
  }

  lemma {:induction false} GrowUpTop(s: Store, g: Layout, c: Nid, d: Nid, r: Nid)
    requires Inv(s, g, c) && |s[c].pivots| >= 2
    requires d !in s && r !in s && d != NID_NIL && r != NID_NIL && d != r
    ensures var s', g' := GrowUp(s, c, d, r), GrowLayout(g, c, d, r, MiddleKey(s[c].pivots));
            && s'.Keys == g'.Keys == s.Keys + {d, r} && NID_NIL !in s'
            && g'[r].lo == [] && g'[r].hi == None
            && forall a :: a in g' && a != r ==> g'[a].level < g'[r].level
  {
    hide NodeAt, Apart, AddPivot, MiddleKey;
  }

  /** Splitting the root below a new one keeps the ordering invariant. */
  lemma {:induction false} GrowUpKeepsInv(s: Store, g: Layout, c: Nid, d: Nid, r: Nid)
    requires Inv(s, g, c) && |s[c].pivots| >= 2
    requires d !in s && r !in s && d != NID_NIL && r != NID_NIL && d != r
    ensures Inv(GrowUp(s, c, d, r), GrowLayout(g, c, d, r, MiddleKey(s[c].pivots)), r)
  {
    hide Apart, NodeOk, GrowUp, GrowLayout, MiddleKey;
    var g' := GrowLayout(g, c, d, r, MiddleKey(s[c].pivots));
    var s' := GrowUp(s, c, d, r);
    GrowUpTop(s, g, c, d, r);
    forall x | x in s'
      ensures NodeAt(s', g', x)
    {
      if x == r {
        GrowUpRootOk(s, g, c, d, r);
      } else if x == c || x == d {
        GrowUpHalfOk(s, g, c, d, r, x);
      } else {
        GrowUpOtherOk(s, g, c, d, r, x);
      }
    }
    forall a, b | a in g' && b in g'
      ensures Apart(g', a, b)
    {
      GrowLayoutApart(s, g, c, d, r, a, b);
    }
  }

  lemma {:induction false} SameLinks(n: NodeState, g: Layout, g': Layout, f: Info)
    requires NodeOk(n, g, f)
    requires forall y :: y in g ==> y in g' && g'[y] == g[y]
    ensures NodeOk(n, g', f)
  {
    hide PivotsOk;
  }

  lemma {:induction false} NoParentOfRoot(s: Store, g: Layout, root: Nid, x: Nid)
    requires Inv(s, g, root) && x in s
    ensures forall j :: 0 <= j < |s[x].pivots| ==> s[x].pivots[j].child != root
  {
    NodeIsOk(s, g, root, x);
    hide PivotsOk, NodeOk, NodeAt;
    forall j | 0 <= j < |s[x].pivots|
      ensures s[x].pivots[j].child != root
    {
      if g[x].level > 0 {
        ChildAt(s, g, root, x, j);
      } else {
        LeafHasNoChild(s, g, root, x, j);
      }
    }
  }

  lemma {:induction false} LeafHasNoChild(s: Store, g: Layout, root: Nid, x: Nid, j: nat)
    requires Inv(s, g, root) && x in s && g[x].level == 0 && j < |s[x].pivots|
    ensures s[x].pivots[j].child == NID_NIL
  {
    NodeIsOk(s, g, root, x);
  }

  lemma {:induction false} NewRootOk(g0: Layout, g': Layout, c: Nid, d: Nid, r: Nid, mid: Key)
    requires c in g0 && d in g0 && c != NID_NIL && d != NID_NIL && c != r && d != r
    requires mid != []
    requires g0[c] == Info(g0[c].level, [], Some(mid)) && g0[d] == Info(g0[c].level, mid, None)
    requires g' == g0[r := Info(g0[c].level + 1, [], None)]
    ensures NodeOk(NodeState(false, AddPivot([Pivot([], c, [])], Pivot(mid, d, []))), g', g'[r])
  {
    var ps := AddPivot([Pivot([], c, [])], Pivot(mid, d, []));
    assert ps == [Pivot([], c, []), Pivot(mid, d, [])];
  }

  /** The new root answers every key as the old one did. */
  lemma {:induction false} GrowUpKeepsView(s: Store, g: Layout, c: Nid, d: Nid, r: Nid, k: Key)
    requires Inv(s, g, c) && |s[c].pivots| >= 2
    requires d !in s && r !in s && d != NID_NIL && r != NID_NIL && d != r
    ensures Find(GrowUp(s, c, d, r), r, g[c].level + 1, k) == Find(s, c, g[c].level, k)
  {
    var mid := MiddleKey(s[c].pivots);
    var s' := GrowUp(s, c, d, r);
    var ps := s'[r].pivots;
    assert ps == [Pivot([], c, []), Pivot(mid, d, [])];
    InWholeRange(k);
    assert c != NID_NIL && InRange(k, g[c].lo, g[c].hi);
    assert At(ps, k) == ps[if Lt(k, mid) then 0 else 1] by {
      if !Lt(k, mid) {
        assert ps[1].leftKey == mid;
      }
    }
    hide Inv, Find, AddPivot;
    FindInHalves(s, g, c, c, d, s', k);
    hide GrowUp;
    FindStep(s', r, g[c].level + 1, k);
  }
}
