/** A tree of height h has exponentially many leaf pivots, and where every message fits the limit, no
    more of them than keys written. */
module TreeHeight {
  import opened Keys
  import opened TreeModel
  import opened TreeSteps
  import opened TreeBalance

  function Pow(b: nat, e: nat): nat {
    if e == 0 then 1 else b * Pow(b, e - 1)
  }

  /** The leftKeys of the leaf pivots below a node h levels above the leaves, in order. */
  ghost function LeafKeys(s: Store, id: Nid, h: nat): seq<Key>
    decreases h, 0, 0
  {
    if id !in s then [] else if h == 0 then LeftKeys(s[id].pivots) else Beneath(s, s[id].pivots, 0, h - 1)
  }

  /** The same below the children from pivot i on, which are h levels above the leaves. */
  ghost function Beneath(s: Store, ps: seq<Pivot>, i: nat, h: nat): seq<Key>
    decreases h, 1, |ps| - i
  {
    if i >= |ps| then [] else LeafKeys(s, ps[i].child, h) + Beneath(s, ps, i + 1, h)
  }

  function LeftKeys(ps: seq<Pivot>): seq<Key> {
    seq(|ps|, i requires 0 <= i < |ps| => ps[i].leftKey)
  }

  ghost predicate Ascending(q: seq<Key>) {
    forall i, j :: 0 <= i < j < |q| ==> Lt(q[i], q[j])
  }

  ghost predicate Within(q: seq<Key>, lo: Key, hi: Option<Key>) {
    Ascending(q) && forall i :: 0 <= i < |q| ==> InRange(q[i], lo, hi)
  }

  ghost predicate FromKeys(q: seq<Key>, written: set<Key>) {
    forall i :: 0 <= i < |q| ==> q[i] in written + {[]}
  }

  lemma {:induction false} WithinConcat(a: seq<Key>, b: seq<Key>, lo: Key, mid: Key, hi: Option<Key>)
    requires Within(a, lo, Some(mid)) && Within(b, mid, hi) && Le(lo, mid) && Below(mid, hi)
    ensures Within(a + b, lo, hi)
  {
    KeyOrder();
    var q := a + b;
    forall i, j | 0 <= i < j < |q|
      ensures Lt(q[i], q[j])
    {
      if i < |a| <= j {
        assert InRange(a[i], lo, Some(mid)) && InRange(b[j - |a|], mid, hi);
      }
    }
    forall i | 0 <= i < |q|
      ensures InRange(q[i], lo, hi)
    {
      if i < |a| {
        assert InRange(a[i], lo, Some(mid));
      } else {
        assert InRange(b[i - |a|], mid, hi);
      }
    }
  }

  lemma {:induction false} LeafOfLeaf(s: Store, g: Layout, root: Nid, id: Nid)
    requires Inv(s, g, root) && StoreStrict(s, g) && id in s && g[id].level == 0
    ensures Within(LeafKeys(s, id, 0), g[id].lo, g[id].hi)
  {
    NodeIsOk(s, g, root, id);
    var ps := s[id].pivots;
    assert Strict(ps, g[id].hi) && ps[0].leftKey == g[id].lo;
    hide Inv, StoreStrict, Lt;
    forall i | 0 <= i < |ps|
      ensures Le(g[id].lo, ps[i].leftKey)
    {
      LtImpliesLe(ps[0].leftKey, ps[i].leftKey);
    }
  }

  /** Leaf pivots are in key order across the whole subtree and stay in its range. */
  lemma {:induction false} LeafKeysOrdered(s: Store, g: Layout, root: Nid, id: Nid)
    requires Inv(s, g, root) && StoreStrict(s, g) && id in s
    ensures Within(LeafKeys(s, id, g[id].level), g[id].lo, g[id].hi)
    decreases g[id].level, 0, 0
  {
    hide Inv, StoreStrict;
    if g[id].level == 0 {
      LeafOfLeaf(s, g, root, id);
    } else {
      NodeIsOk(s, g, root, id);
      BeneathOrdered(s, g, root, id, 0);
    }
  }

  lemma {:induction false} BeneathOrdered(s: Store, g: Layout, root: Nid, id: Nid, i: nat)
    requires Inv(s, g, root) && StoreStrict(s, g) && id in s && g[id].level > 0 && i < |s[id].pivots|
    ensures Within(Beneath(s, s[id].pivots, i, g[id].level - 1), s[id].pivots[i].leftKey, g[id].hi)
    decreases g[id].level - 1, 1, |s[id].pivots| - i
  {
    hide Inv, Within, Lt;
    var ps := s[id].pivots;
    assert Strict(ps, g[id].hi);
    ChildAt(s, g, root, id, i);
    LeafKeysOrdered(s, g, root, ps[i].child);
    var here := LeafKeys(s, ps[i].child, g[id].level - 1);
    if i + 1 < |ps| {
      BeneathOrdered(s, g, root, id, i + 1);
      LtImpliesLe(ps[i].leftKey, ps[i + 1].leftKey);
      WithinConcat(here, Beneath(s, ps, i + 1, g[id].level - 1), ps[i].leftKey, ps[i + 1].leftKey, g[id].hi);
    } else {
      assert here + [] == here;
    }
  }

  /** Every leaf boundary is the empty key or a key some write had. */
  lemma {:induction false} LeafKeysFrom(s: Store, id: Nid, h: nat, written: set<Key>, r: Rules)
    requires StoreKnown(s, written, r)
    ensures FromKeys(LeafKeys(s, id, h), written)
    decreases h, 0, 0
  {
    if id in s {
      if h == 0 {
        assert AllKnown(s[id].pivots, written, r);
        assert forall i :: 0 <= i < |s[id].pivots| ==> Known(s[id].pivots[i], written, r);
      } else {
        BeneathFrom(s, s[id].pivots, 0, h - 1, written, r);
      }
    }
  }

  lemma {:induction false} BeneathFrom(s: Store, ps: seq<Pivot>, i: nat, h: nat, written: set<Key>, r: Rules)
    requires StoreKnown(s, written, r)
    ensures FromKeys(Beneath(s, ps, i, h), written)
    decreases h, 1, |ps| - i
  {
    if i < |ps| {
      LeafKeysFrom(s, ps[i].child, h, written, r);
      BeneathFrom(s, ps, i + 1, h, written, r);
    }
  }

  lemma {:induction false} MulAtLeast(a: nat, b: nat, x: nat)
    requires a >= b
    ensures a * x >= b * x
  {
  }

  lemma {:induction false} MulStep(n: int, x: int)
    ensures n * x == (n - 1) * x + x
  {
  }

  /** Fan-out multiplies from level to level. */
  lemma {:induction false} LeafKeysMany(s: Store, g: Layout, root: Nid, M: nat, id: Nid)
    requires Inv(s, g, root) && Fan(s, g, root, M, NID_NIL) && id in s
    ensures |LeafKeys(s, id, g[id].level)| >= |s[id].pivots| * Pow(Low(M), g[id].level)
    decreases g[id].level, 0, 0
  {
    hide Inv, Fan, Low, NodeOk;
    if g[id].level > 0 {
      NodeIsOk(s, g, root, id);
      BeneathMany(s, g, root, M, id, 0);
    }
  }

  lemma {:induction false} BeneathMany(s: Store, g: Layout, root: Nid, M: nat, id: Nid, i: nat)
    requires Inv(s, g, root) && Fan(s, g, root, M, NID_NIL) && id in s && g[id].level > 0 && i <= |s[id].pivots|
    ensures |Beneath(s, s[id].pivots, i, g[id].level - 1)| >= (|s[id].pivots| - i) * Pow(Low(M), g[id].level)
    decreases g[id].level - 1, 1, |s[id].pivots| - i
  {
    var ps := s[id].pivots;
    if i < |ps| {
      ChildAt(s, g, root, id, i);
      var c := ps[i].child;
      assert g[c].level < g[id].level <= g[root].level;
      assert Low(M) <= |s[c].pivots|;
      hide Inv, Fan, Low;
      var x := Pow(Low(M), g[id].level - 1);
      LeafKeysMany(s, g, root, M, c);
      MulAtLeast(|s[c].pivots|, Low(M), x);
      BeneathMany(s, g, root, M, id, i + 1);
      MulStep(|ps| - i, Low(M) * x);
    }
  }

  /** Distinct keys drawn from a set are no more than the set. */
  lemma {:induction false} AscendingFitsIn(q: seq<Key>, keys: set<Key>)
    requires Ascending(q) && forall i :: 0 <= i < |q| ==> q[i] in keys
    ensures |q| <= |keys|
  {
    if q != [] {
      KeyOrder();
      var last := q[|q| - 1];
      AscendingFitsIn(q[..|q| - 1], keys - {last});
    }
  }

  /**
   * The height bound: h levels of inner nodes take at least 2 * Low^h leaf pivots. Where no leftKey
   * repeats, each of them except the first starts at a key of its own that was written.
   */
  lemma {:induction false} HeightIsLogarithmic(s: Store, g: Layout, root: Nid, M: nat, written: set<Key>, r: Rules)
    requires Inv(s, g, root) && Fan(s, g, root, M, NID_NIL) && StoreKnown(s, written, r)
    requires g[root].level > 0
    ensures 2 * Pow(Low(M), g[root].level) <= |LeafKeys(s, root, g[root].level)|
    ensures StoreStrict(s, g) ==> |LeafKeys(s, root, g[root].level)| <= |written| + 1
  {
    var q := LeafKeys(s, root, g[root].level);
    LeafKeysMany(s, g, root, M, root);
    MulAtLeast(|s[root].pivots|, 2, Pow(Low(M), g[root].level));
    hide Inv, StoreKnown, StoreStrict;
    if StoreStrict(s, g) {
      LeafKeysOrdered(s, g, root, root);
      LeafKeysFrom(s, root, g[root].level, written, r);
      AscendingFitsIn(q, written + {[]});
    }
  }
}
