/** What one step of the tree does to the ordering invariant and to every read. */
module TreeSteps {
  import opened Keys
  import opened Msgs
  import opened TreeModel

  // ---------------------------------------------------------------- routing

  lemma {:induction false} RouteIs(ps: seq<Pivot>, lo: Key, hi: Option<Key>, k: Key, i: nat)
    requires Ordered(ps, lo, hi) && i < |ps| && InRange(k, ps[i].leftKey, Hi(ps, i, hi))
    ensures Route(ps, k) == i
  {
    KeyOrder();
  }

  lemma {:induction false} RouteInRange(ps: seq<Pivot>, lo: Key, hi: Option<Key>, k: Key)
    requires Ordered(ps, lo, hi) && InRange(k, lo, hi)
    ensures InRange(k, At(ps, k).leftKey, Hi(ps, Route(ps, k), hi))
  {
    KeyOrder();
  }

  /** A key of one pivot's range is a key of the node's. */
  lemma {:induction false} InNodeRange(ps: seq<Pivot>, lo: Key, hi: Option<Key>, j: nat, k: Key)
    requires Ordered(ps, lo, hi) && j < |ps| && InRange(k, ps[j].leftKey, Hi(ps, j, hi))
    ensures InRange(k, lo, hi)
  {
    if j > 0 {
      LtTransitive(lo, ps[j].leftKey, k);
    }
    if j + 1 < |ps| && hi.Some? {
      LtTransitive(k, ps[j + 1].leftKey, hi.value);
    }
  }

  /** The child a key is routed to exists, one level down, and is for that key. */
  lemma {:induction false} ChildOf(s: Store, g: Layout, root: Nid, id: Nid, k: Key)
    requires Inv(s, g, root) && id in s && InRange(k, g[id].lo, g[id].hi) && g[id].level > 0
    ensures |s[id].pivots| > 0
    ensures var c := At(s[id].pivots, k).child;
            c != NID_NIL && c in s && g[c].level == g[id].level - 1 && InRange(k, g[c].lo, g[c].hi)
  {
    assert NodeAt(s, g, id);
    RouteInRange(s[id].pivots, g[id].lo, g[id].hi, k);
  }

  /** No two nodes of one level are for the same key. */
  lemma {:induction false} OneNodePerKey(s: Store, g: Layout, root: Nid, a: Nid, b: Nid, k: Key)
    requires Inv(s, g, root) && a in s && b in s && g[a].level == g[b].level
    requires InRange(k, g[a].lo, g[a].hi) && InRange(k, g[b].lo, g[b].hi)
    ensures a == b
  {
    KeyOrder();
    assert Apart(g, a, b);
  }

  /** One step of a walk that has a child to go on to. */
  lemma {:induction false} FindStep(s: Store, id: Nid, h: nat, k: Key)
    requires id in s && |s[id].pivots| > 0 && h > 0 && At(s[id].pivots, k).child != NID_NIL
    ensures Find(s, id, h, k) == Over(Lookup(At(s[id].pivots, k).buf, k), Find(s, At(s[id].pivots, k).child, h - 1, k))
  {
  }

  /** What a node itself says about k. */
  function Here(s: Store, x: Nid, k: Key): Option<Msg>
    requires x in s && |s[x].pivots| > 0
  {
    Lookup(At(s[x].pivots, k).buf, k)
  }

  lemma {:induction false} FindAtLeaf(s: Store, id: Nid, k: Key)
    requires id in s && |s[id].pivots| > 0
    ensures Find(s, id, 0, k) == Lookup(At(s[id].pivots, k).buf, k)
  {
  }

  /** A walk does not depend on nodes it cannot reach. */
  lemma {:induction false} FindSame(s: Store, s': Store, g: Layout, root: Nid, id: Nid, k: Key)
    requires Inv(s, g, root) && id in s && InRange(k, g[id].lo, g[id].hi)
    requires id in s' && s'[id] == s[id]
    requires forall x :: x in s && g[x].level < g[id].level && InRange(k, g[x].lo, g[x].hi) ==> x in s' && s'[x] == s[x]
    ensures Find(s', id, g[id].level, k) == Find(s, id, g[id].level, k)
    decreases g[id].level
  {
    hide Inv;
    if g[id].level > 0 {
      ChildOf(s, g, root, id, k);
      FindSame(s, s', g, root, At(s[id].pivots, k).child, k);
    }
  }

  /** Reads that agree at one level agree at every level above that did not change. */
  lemma {:induction false} FindLift(s: Store, s': Store, g: Layout, root: Nid, id: Nid, k: Key, lev: nat)
    requires Inv(s, g, root) && id in s && InRange(k, g[id].lo, g[id].hi) && g[id].level >= lev
    requires forall x :: x in s && g[x].level > lev ==> x in s' && s'[x] == s[x]
    requires forall x :: x in s && g[x].level == lev && InRange(k, g[x].lo, g[x].hi)
               ==> Find(s', x, lev, k) == Find(s, x, lev, k)
    ensures Find(s', id, g[id].level, k) == Find(s, id, g[id].level, k)
    decreases g[id].level
  {
    hide Inv;
    if g[id].level > lev {
      ChildOf(s, g, root, id, k);
      FindLift(s, s', g, root, At(s[id].pivots, k).child, k, lev);
    }
  }

  /** The same for any key, where nothing below has changed at all. */
  lemma {:induction false} FindUntouched(s: Store, s': Store, g: Layout, root: Nid, id: Nid, k: Key)
    requires Inv(s, g, root) && id in s
    requires forall x :: x in s && g[x].level <= g[id].level ==> x in s' && s'[x] == s[x]
    ensures Find(s', id, g[id].level, k) == Find(s, id, g[id].level, k)
    decreases g[id].level
  {
    hide Inv, Route, Lookup;
    NodeIsOk(s, g, root, id);
    if g[id].level > 0 {
      var i := Route(s[id].pivots, k);
      ChildAt(s, g, root, id, i);
      FindUntouched(s, s', g, root, s[id].pivots[i].child, k);
    }
  }

  /** A walk for a key past a node's range finds nothing. */
  lemma {:induction false} FindPastRange(s: Store, g: Layout, root: Nid, id: Nid, k: Key)
    requires Inv(s, g, root) && id in s && !Below(k, g[id].hi)
    ensures Find(s, id, g[id].level, k) == None
    decreases g[id].level
  {
    NodeIsOk(s, g, root, id);
    var ps, f := s[id].pivots, g[id];
    var last := |ps| - 1;
    PastTheLast(ps, f.lo, f.hi, k);
    hide Inv, NodeOk, Route, Lookup;
    if f.level > 0 {
      ChildAt(s, g, root, id, last);
      FindStep(s, id, f.level, k);
      FindPastRange(s, g, root, ps[last].child, k);
    } else {
      FindAtLeaf(s, id, k);
    }
  }

  lemma {:induction false} PastTheLast(ps: seq<Pivot>, lo: Key, hi: Option<Key>, k: Key)
    requires PivotsOk(ps, lo, hi) && !Below(k, hi)
    ensures Route(ps, k) == |ps| - 1 && Lookup(ps[|ps| - 1].buf, k) == None
  {
    var last := |ps| - 1;
    LtTransitive(ps[last].leftKey, hi.value, k);
    assert BufOk(ps[last].buf, ps[last].leftKey, hi);
    LookupMember(ps[last].buf, k);
  }

  // ---------------------------------------------------------------- delivering messages

  /** Two pivot lists that differ in their buffers only. */
  ghost predicate SameShape(a: seq<Pivot>, b: seq<Pivot>) {
    && |a| == |b|
    && forall i :: 0 <= i < |a| ==> a[i].leftKey == b[i].leftKey && a[i].child == b[i].child
  }

  lemma ShapeTrans(a: seq<Pivot>, b: seq<Pivot>, c: seq<Pivot>)
    requires SameShape(a, b) && SameShape(b, c)
    ensures SameShape(a, c)
  {
  }

  lemma {:induction false} ShapeOrdered(a: seq<Pivot>, b: seq<Pivot>, lo: Key, hi: Option<Key>)
    requires Ordered(a, lo, hi) && SameShape(b, a)
    ensures Ordered(b, lo, hi)
  {
    hide Le, AtMost;
  }

  lemma {:induction false} SameRoute(a: seq<Pivot>, b: seq<Pivot>, k: Key)
    requires SameShape(a, b) && |a| > 0
    ensures Route(a, k) == Route(b, k)
    decreases |a|
  {
    if |a| > 1 {
      SameRoute(a[..|a| - 1], b[..|a| - 1], k);
    }
  }

  lemma {:induction false} BufInsertOk(l: seq<Msg>, m: Msg, lo: Key, hi: Option<Key>)
    requires BufOk(l, lo, hi) && InRange(m.key, lo, hi)
    ensures BufOk(InsertMsg(l, m), lo, hi)
  {
    InsertedSorted(l, m);
  }

  lemma {:induction false} DeliverOk(ps: seq<Pivot>, m: Msg, lo: Key, hi: Option<Key>, k: Key)
    requires PivotsOk(ps, lo, hi) && InRange(m.key, lo, hi)
    ensures var r := Deliver(ps, m);
            && PivotsOk(r, lo, hi) && SameShape(r, ps)
            && Route(r, k) == Route(ps, k)
            && Lookup(At(r, k).buf, k) == if k == m.key then Some(m) else Lookup(At(ps, k).buf, k)
  {
    var i := Route(ps, m.key);
    var r := Deliver(ps, m);
    RouteInRange(ps, lo, hi, m.key);
    assert BufOk(ps[i].buf, ps[i].leftKey, Hi(ps, i, hi));
    BufInsertOk(ps[i].buf, m, ps[i].leftKey, Hi(ps, i, hi));
    assert SameShape(r, ps);
    forall j | 0 <= j < |r|
      ensures BufOk(r[j].buf, r[j].leftKey, Hi(r, j, hi))
    {
      assert BufOk(ps[j].buf, ps[j].leftKey, Hi(ps, j, hi));
      assert Hi(r, j, hi) == Hi(ps, j, hi);
    }
    SameRoute(r, ps, k);
    LookupInsert(ps[i].buf, m, k);
  }

  /** Per-key routing: after distributing ms over a node, the buffer that k belongs to answers
      with ms's message for k if there is one, and as before if there is none. */
  lemma {:induction false} DistributeOk(ps: seq<Pivot>, ms: seq<Msg>, lo: Key, hi: Option<Key>, k: Key)
    requires PivotsOk(ps, lo, hi) && BufOk(ms, lo, hi)
    ensures var r := Distribute(ps, ms);
            && PivotsOk(r, lo, hi) && SameShape(r, ps)
            && Route(r, k) == Route(ps, k)
            && Lookup(At(r, k).buf, k) == Over(Lookup(ms, k), Lookup(At(ps, k).buf, k))
    decreases |ms|
  {
    if ms != [] {
      TailOk(ms, lo, hi, k);
      hide BufOk, PivotsOk, InRange, Deliver, Route, At, Lookup, SameShape;
      DeliverOk(ps, ms[0], lo, hi, k);
      DistributeOk(Deliver(ps, ms[0]), ms[1..], lo, hi, k);
      ShapeTrans(Distribute(ps, ms), Deliver(ps, ms[0]), ps);
    }
  }

  lemma {:induction false} TailOk(ms: seq<Msg>, lo: Key, hi: Option<Key>, k: Key)
    requires BufOk(ms, lo, hi) && ms != []
    ensures BufOk(ms[1..], lo, hi) && InRange(ms[0].key, lo, hi)
    ensures Lookup(ms, k) == if k == ms[0].key then Some(ms[0]) else Lookup(ms[1..], k)
    ensures k == ms[0].key ==> Lookup(ms[1..], k) == None
  {
    assert ms[0] in ms;
    LookupTail(ms, k);
    assert forall m :: m in ms[1..] ==> m in ms;
  }

  // ---------------------------------------------------------------- pushing a buffer down

  lemma {:induction false} NodeIsOk(s: Store, g: Layout, root: Nid, id: Nid)
    requires Inv(s, g, root) && id in s
    ensures NodeOk(s[id], g, g[id]) && |s[id].pivots| > 0
  {
    assert NodeAt(s, g, id);
  }

  /** A node that is for some key hangs below one pivot only. */
  lemma {:induction false} ParentIsUnique(s: Store, g: Layout, root: Nid, p: Nid, i: nat, q: Nid, j: nat, k: Key)
    requires Inv(s, g, root) && p in s && q in s
    requires i < |s[p].pivots| && j < |s[q].pivots|
    requires s[p].pivots[i].child == s[q].pivots[j].child != NID_NIL
    requires s[p].pivots[i].child in g && InRange(k, g[s[p].pivots[i].child].lo, g[s[p].pivots[i].child].hi)
    ensures p == q && i == j
  {
    KeyBelow(s, g, root, p, i, k);
    KeyBelow(s, g, root, q, j, k);
    hide Inv;
    OneNodePerKey(s, g, root, p, q, k);
  }

  /** A key of a child's range is routed to the child's pivot. */
  lemma {:induction false} KeyBelow(s: Store, g: Layout, root: Nid, p: Nid, i: nat, k: Key)
    requires Inv(s, g, root) && p in s && i < |s[p].pivots| && s[p].pivots[i].child != NID_NIL
    requires s[p].pivots[i].child in g && InRange(k, g[s[p].pivots[i].child].lo, g[s[p].pivots[i].child].hi)
    ensures |s[p].pivots| > 0 && InRange(k, g[p].lo, g[p].hi) && Route(s[p].pivots, k) == i
    ensures g[p].level == g[s[p].pivots[i].child].level + 1
  {
    NodeIsOk(s, g, root, p);
    hide Inv;
    var ps := s[p].pivots;
    assert InRange(k, ps[i].leftKey, Hi(ps, i, g[p].hi));
    hide BufOk, Route;
    InNodeRange(ps, g[p].lo, g[p].hi, i, k);
    RouteIs(ps, g[p].lo, g[p].hi, k, i);
  }

  lemma {:induction false} ChildAt(s: Store, g: Layout, root: Nid, p: Nid, i: nat)
    requires Inv(s, g, root) && p in s && i < |s[p].pivots| && g[p].level > 0
    ensures var c := s[p].pivots[i].child;
            && c in s && c != p && c != NID_NIL && |s[c].pivots| > 0
            && g[c] == ChildInfo(g[p], s[p].pivots, i)
  {
    NodeIsOk(s, g, root, p);
    NodeIsOk(s, g, root, s[p].pivots[i].child);
  }

  lemma {:induction false} LinksSame(n: NodeState, n': NodeState, g: Layout, f: Info)
    requires LinksOk(n, g, f) && n'.isLeaf == n.isLeaf && SameShape(n'.pivots, n.pivots)
    ensures LinksOk(n', g, f)
  {
    if f.level > 0 {
      forall i | 0 <= i < |n'.pivots|
        ensures ChildInfo(f, n'.pivots, i) == ChildInfo(f, n.pivots, i)
      {
        assert n'.pivots[i].leftKey == n.pivots[i].leftKey;
        assert i + 1 < |n.pivots| ==> n'.pivots[i + 1].leftKey == n.pivots[i + 1].leftKey;
      }
    }
  }

  lemma {:induction false} EmptyBufOk(lo: Key, hi: Option<Key>)
    ensures BufOk([], lo, hi)
  {
  }

  lemma {:induction false} BufReplacedOk(ps: seq<Pivot>, i: nat, l: seq<Msg>, lo: Key, hi: Option<Key>)
    requires PivotsOk(ps, lo, hi) && i < |ps| && BufOk(l, ps[i].leftKey, Hi(ps, i, hi))
    ensures PivotsOk(ps[i := ps[i].(buf := l)], lo, hi)
    ensures SameShape(ps[i := ps[i].(buf := l)], ps)
  {
    hide BufOk, Ordered;
    var r := ps[i := ps[i].(buf := l)];
    ShapeOrdered(ps, r, lo, hi);
    forall j | 0 <= j < |r|
      ensures BufOk(r[j].buf, r[j].leftKey, Hi(r, j, hi))
    {
      assert BufOk(ps[j].buf, ps[j].leftKey, Hi(ps, j, hi));
      assert Hi(r, j, hi) == Hi(ps, j, hi);
    }
  }

  /** Changing what nodes hold, each within its own part of the layout. */
  lemma {:induction false} NodesChanged(s: Store, s': Store, g: Layout, root: Nid)
    requires Inv(s, g, root) && s'.Keys == s.Keys
    requires forall a :: a in s' ==> NodeOk(s'[a], g, g[a])
    ensures Inv(s', g, root)
  {
    hide NodeOk;
    forall a | a in s'
      ensures NodeAt(s', g, a)
    {}
  }

  lemma {:induction false} PushedIntoOk(s: Store, g: Layout, root: Nid, p: Nid, i: nat)
    requires Inv(s, g, root) && p in s && i < |s[p].pivots| && g[p].level > 0
    ensures var c := s[p].pivots[i].child;
            && c in s && |s[c].pivots| > 0
            && PivotsOk(Distribute(s[c].pivots, s[p].pivots[i].buf), g[c].lo, g[c].hi)
            && SameShape(Distribute(s[c].pivots, s[p].pivots[i].buf), s[c].pivots)
  {
    ChildAt(s, g, root, p, i);
    var c := s[p].pivots[i].child;
    NodeIsOk(s, g, root, p);
    NodeIsOk(s, g, root, c);
    hide Inv, LinksOk, Ordered;
    assert BufOk(s[p].pivots[i].buf, s[p].pivots[i].leftKey, Hi(s[p].pivots, i, g[p].hi));
    hide BufOk;
    DistributeOk(s[c].pivots, s[p].pivots[i].buf, g[c].lo, g[c].hi, []);
    hide Distribute;
  }

  /** Both ends of a push, node by node. */
  lemma {:induction false} PushDownNodes(s: Store, g: Layout, root: Nid, p: Nid, i: nat)
    requires Inv(s, g, root) && p in s && i < |s[p].pivots| && g[p].level > 0
    ensures s[p].pivots[i].child in s && |s[s[p].pivots[i].child].pivots| > 0
    ensures var c := s[p].pivots[i].child;
            var s' := PushDown(s, p, i);
            && s'.Keys == s.Keys
            && (forall x :: x in s && x != p && x != c ==> s'[x] == s[x])
            && NodeOk(s'[p], g, g[p]) && SameShape(s'[p].pivots, s[p].pivots)
            && s'[p].pivots == s[p].pivots[i := s[p].pivots[i].(buf := [])]
            && NodeOk(s'[c], g, g[c]) && SameShape(s'[c].pivots, s[c].pivots)
            && s'[c].pivots == Distribute(s[c].pivots, s[p].pivots[i].buf)
  {
    ChildAt(s, g, root, p, i);
    var c := s[p].pivots[i].child;
    NodeIsOk(s, g, root, p);
    NodeIsOk(s, g, root, c);
    PushedIntoOk(s, g, root, p, i);
    hide Inv, BufOk, Ordered;
    EmptyBufOk(s[p].pivots[i].leftKey, Hi(s[p].pivots, i, g[p].hi));
    BufReplacedOk(s[p].pivots, i, [], g[p].lo, g[p].hi);
    hide PivotsOk, Distribute;
    var s' := PushDown(s, p, i);
    LinksSame(s[c], s'[c], g, g[c]);
    LinksSame(s[p], s'[p], g, g[p]);
  }

  lemma {:induction false} PushDownKeepsInv(s: Store, g: Layout, root: Nid, p: Nid, i: nat)
    requires Inv(s, g, root) && p in s && i < |s[p].pivots| && g[p].level > 0
    ensures s[p].pivots[i].child in s && |s[s[p].pivots[i].child].pivots| > 0
    ensures Inv(PushDown(s, p, i), g, root)
  {
    hide Inv, NodeOk;
    PushDownNodes(s, g, root, p, i);
    hide PushDown;
    var s' := PushDown(s, p, i);
    forall a | a in s'
      ensures NodeOk(s'[a], g, g[a])
    {
      NodeIsOk(s, g, root, a);
    }
    NodesChanged(s, s', g, root);
  }

  /** Seen from the receiving child, the drained messages now come first. */
  lemma {:induction false} FindAtReceiver(s: Store, g: Layout, root: Nid, p: Nid, i: nat, k: Key)
    requires Inv(s, g, root) && p in s && i < |s[p].pivots| && g[p].level > 0
    requires InRange(k, s[p].pivots[i].leftKey, Hi(s[p].pivots, i, g[p].hi))
    ensures s[p].pivots[i].child in s && |s[s[p].pivots[i].child].pivots| > 0
    ensures var c := s[p].pivots[i].child;
            Find(PushDown(s, p, i), c, g[c].level, k)
            == Over(Lookup(s[p].pivots[i].buf, k), Find(s, c, g[c].level, k))
  {
    hide Inv, BufOk, Ordered, Lookup, Route, Distribute;
    ChildAt(s, g, root, p, i);
    var c := s[p].pivots[i].child;
    var ms := s[p].pivots[i].buf;
    NodeIsOk(s, g, root, p);
    NodeIsOk(s, g, root, c);
    DistributeOk(s[c].pivots, ms, g[c].lo, g[c].hi, k);
    PushDownNodes(s, g, root, p, i);
    var s' := PushDown(s, p, i);
    assert s'[c].pivots == Distribute(s[c].pivots, ms);
    hide PivotsOk, NodeOk, PushDown;
    assert At(s'[c].pivots, k).child == At(s[c].pivots, k).child;
    if g[c].level > 0 {
      ChildOf(s, g, root, c, k);
      FindSame(s, s', g, root, At(s[c].pivots, k).child, k);
    }
  }

  /** A node beside p, or p on a key of another pivot, does not lead to the receiving child. */
  lemma {:induction false} FindBesideReceiver(s: Store, g: Layout, root: Nid, p: Nid, i: nat, x: Nid, k: Key)
    requires Inv(s, g, root) && p in s && i < |s[p].pivots| && g[p].level > 0
    requires x in s && InRange(k, g[x].lo, g[x].hi) && g[x].level == g[p].level
    requires |s[x].pivots| > 0 && At(s[x].pivots, k).child != s[p].pivots[i].child
    ensures s[p].pivots[i].child in s && |s[s[p].pivots[i].child].pivots| > 0
    ensures Find(PushDown(s, p, i), x, g[x].level, k) == Find(s, x, g[x].level, k)
  {
    hide Inv, NodeOk, PivotsOk, Lookup, Route;
    ChildAt(s, g, root, p, i);
    PushDownNodes(s, g, root, p, i);
    hide PushDown;
    var c := s[p].pivots[i].child;
    var s' := PushDown(s, p, i);
    ChildOf(s, g, root, x, k);
    var y := At(s[x].pivots, k).child;
    if InRange(k, g[c].lo, g[c].hi) {
      OneNodePerKey(s, g, root, y, c, k);
    }
    FindSame(s, s', g, root, y, k);
    if x == p {
      SameRoute(s[p].pivots, s'[p].pivots, k);
    }
  }

  lemma {:induction false} RoutedInRange(s: Store, g: Layout, root: Nid, p: Nid, k: Key)
    requires Inv(s, g, root) && p in s && InRange(k, g[p].lo, g[p].hi)
    ensures |s[p].pivots| > 0
    ensures var i := Route(s[p].pivots, k); InRange(k, s[p].pivots[i].leftKey, Hi(s[p].pivots, i, g[p].hi))
  {
    hide Inv, Route;
    NodeIsOk(s, g, root, p);
    RouteInRange(s[p].pivots, g[p].lo, g[p].hi, k);
  }

  lemma LookupNothing(k: Key)
    ensures Lookup([], k) == None
  {
  }

  lemma {:induction false} FindAtGiver(s: Store, g: Layout, root: Nid, p: Nid, i: nat, k: Key)
    requires Inv(s, g, root) && p in s && i < |s[p].pivots| && g[p].level > 0
    requires InRange(k, g[p].lo, g[p].hi) && Route(s[p].pivots, k) == i
    ensures s[p].pivots[i].child in s && |s[s[p].pivots[i].child].pivots| > 0
    ensures Find(PushDown(s, p, i), p, g[p].level, k) == Find(s, p, g[p].level, k)
  {
    hide Inv, NodeOk, PivotsOk, Route, Find, InRange, Lookup, PushDown;
    RoutedInRange(s, g, root, p, k);
    ChildAt(s, g, root, p, i);
    FindAtReceiver(s, g, root, p, i, k);
    PushDownNodes(s, g, root, p, i);
    LookupNothing(k);
    var s' := PushDown(s, p, i);
    SameRoute(s[p].pivots, s'[p].pivots, k);
    FindStep(s, p, g[p].level, k);
    FindStep(s', p, g[p].level, k);
  }

  /** Seen from p or from anything beside or above it, pushing a buffer of p down changes no read. */
  lemma {:induction false} PushDownKeepsFind(s: Store, g: Layout, root: Nid, p: Nid, i: nat, id: Nid, k: Key)
    requires Inv(s, g, root) && p in s && i < |s[p].pivots| && g[p].level > 0
    requires id in s && InRange(k, g[id].lo, g[id].hi) && g[id].level >= g[p].level
    ensures s[p].pivots[i].child in s && |s[s[p].pivots[i].child].pivots| > 0
    ensures Find(PushDown(s, p, i), id, g[id].level, k) == Find(s, id, g[id].level, k)
  {
    hide Inv, Find;
    ChildAt(s, g, root, p, i);
    var c := s[p].pivots[i].child;
    var s' := PushDown(s, p, i);
    forall x | x in s && g[x].level == g[p].level && InRange(k, g[x].lo, g[x].hi)
      ensures Find(s', x, g[p].level, k) == Find(s, x, g[p].level, k)
    {
      NodeIsOk(s, g, root, x);
      ChildOf(s, g, root, x, k);
      if At(s[x].pivots, k).child == c {
        ParentIsUnique(s, g, root, p, i, x, Route(s[x].pivots, k), k);
        FindAtGiver(s, g, root, p, i, k);
      } else {
        FindBesideReceiver(s, g, root, p, i, x, k);
      }
    }
    FindLift(s, s', g, root, id, k, g[p].level);
  }

  // ---------------------------------------------------------------- a write

  /** Node::write on the root, before anything is pushed down. */
  function Write(s: Store, root: Nid, m: Msg): Store
    requires root in s && |s[root].pivots| > 0
  {
    s[root := s[root].(pivots := Deliver(s[root].pivots, m))]
  }

  lemma {:induction false} InWholeRange(k: Key)
    ensures InRange(k, [], None)
  {
    KeyOrder();
  }

  lemma {:induction false} RootIsForAll(s: Store, g: Layout, root: Nid, k: Key)
    requires Inv(s, g, root)
    ensures |s[root].pivots| > 0 && NodeOk(s[root], g, g[root]) && InRange(k, g[root].lo, g[root].hi)
  {
    NodeIsOk(s, g, root, root);
    InWholeRange(k);
  }

  /** The root after a write: the same node, except for what its buffers say about m's key. */
  lemma {:induction false} WrittenRoot(s: Store, g: Layout, root: Nid, m: Msg, k: Key)
    requires Inv(s, g, root)
    ensures |s[root].pivots| > 0
    ensures var n := Write(s, root, m)[root];
            && NodeOk(n, g, g[root]) && |n.pivots| > 0
            && At(n.pivots, k).child == At(s[root].pivots, k).child
            && Lookup(At(n.pivots, k).buf, k) == if k == m.key then Some(m) else Lookup(At(s[root].pivots, k).buf, k)
  {
    RootIsForAll(s, g, root, m.key);
    hide Inv, Ordered, BufOk, Deliver, Route, Lookup;
    DeliverOk(s[root].pivots, m, g[root].lo, g[root].hi, k);
    hide PivotsOk;
    LinksSame(s[root], Write(s, root, m)[root], g, g[root]);
  }

  lemma {:induction false} WriteKeepsOthers(s: Store, root: Nid, m: Msg)
    requires root in s && |s[root].pivots| > 0
    ensures Write(s, root, m).Keys == s.Keys && forall x :: x in s && x != root ==> Write(s, root, m)[x] == s[x]
  {
  }

  lemma {:induction false} WriteKeepsInv(s: Store, g: Layout, root: Nid, m: Msg)
    requires Inv(s, g, root)
    ensures |s[root].pivots| > 0
    ensures Inv(Write(s, root, m), g, root)
  {
    hide Inv, NodeOk, Write;
    WrittenRoot(s, g, root, m, []);
    RootIsForAll(s, g, root, []);
    var s' := Write(s, root, m);
    WriteKeepsOthers(s, root, m);
    forall a | a in s'
      ensures NodeOk(s'[a], g, g[a])
    {
      NodeIsOk(s, g, root, a);
    }
    NodesChanged(s, s', g, root);
  }

  /** A write is what reads of its key answer from then on, and nothing else changes. */
  lemma {:induction false} WriteChangesView(s: Store, g: Layout, root: Nid, m: Msg, k: Key)
    requires Inv(s, g, root)
    ensures |s[root].pivots| > 0
    ensures View(Write(s, root, m), g, root, k) == if k == m.key then Some(m) else View(s, g, root, k)
  {
    hide Inv, NodeOk, Find, Lookup, At, Write, InRange;
    RootIsForAll(s, g, root, k);
    WrittenRoot(s, g, root, m, k);
    WriteKeepsOthers(s, root, m);
    var s', h := Write(s, root, m), g[root].level;
    if h > 0 {
      ChildOf(s, g, root, root, k);
      FindStep(s, root, h, k);
      FindStep(s', root, h, k);
      FindSame(s, s', g, root, At(s[root].pivots, k).child, k);
    } else {
      FindAtLeaf(s, root, k);
      FindAtLeaf(s', root, k);
    }
  }
}
