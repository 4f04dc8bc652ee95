/** The whole tree between two operations, and its steps with everything each of them keeps. */
module TreeState {
  import opened Keys
  import opened Msgs
  import opened TreeModel
  import opened TreeSteps
  import opened TreeSplits
  import opened TreeSplitNode
  import opened TreeMeasure
  import opened TreeBalance

  /** Nodes, layout, root id and the number of ids handed out. */
  datatype Tree = Tree(s: Store, g: Layout, root: Nid, n: nat)

  /** maxNodeChildNum, what is known of the messages written, and every key a write ever had. */
  datatype Params = Params(M: nat, rules: Rules, written: set<Key>)

  ghost predicate Sound(t: Tree, q: Params, slack: Nid): (r: bool)
    ensures r ==> Inv(t.s, t.g, t.root) && t.root in t.s && t.s.Keys == t.g.Keys
    ensures r ==> forall x :: x in t.s ==> 1 <= x <= t.n && |t.s[x].pivots| > 0
  {
    && Inv(t.s, t.g, t.root)
    && (forall x :: x in t.s ==> 1 <= x <= t.n && |t.s[x].pivots| > 0)
    && Fan(t.s, t.g, t.root, q.M, slack)
    && StoreKnown(t.s, q.written, q.rules)
    && (q.rules.allFit ==> StoreStrict(t.s, t.g))
  }

  ghost predicate SameReads(t: Tree, t': Tree) {
    && t.root in t.g && t'.root in t'.g
    && forall k {:trigger View(t'.s, t'.g, t'.root, k)} :: View(t'.s, t'.g, t'.root, k) == View(t.s, t.g, t.root, k)
  }

  lemma {:induction false} SameReadsTrans(a: Tree, b: Tree, c: Tree)
    requires SameReads(a, b) && SameReads(b, c)
    ensures SameReads(a, c)
  {
    hide Find, View;
  }

  /** The same nodes with as many pivots each. */
  ghost predicate SameWidths(s: Store, s': Store) {
    s.Keys == s'.Keys && forall x :: x in s ==> |s'[x].pivots| == |s[x].pivots|
  }

  lemma SameWidthsRefl(s: Store)
    ensures SameWidths(s, s)
  {
  }

  lemma SameWidthsTrans(a: Store, b: Store, c: Store)
    requires SameWidths(a, b) && SameWidths(b, c)
    ensures SameWidths(a, c)
  {
  }

  lemma WidthAt(a: Store, b: Store, x: Nid)
    requires SameWidths(a, b) && x in a
    ensures x in b && |b[x].pivots| == |a[x].pivots|
  {
  }

  ghost function H(t: Tree): nat { Height(t.s, t.g, t.n) }
  ghost function C(t: Tree): nat { Crowd(t.s, t.g, t.n) }

  ghost predicate NotAbove(t': Tree, t: Tree) {
    H(t') < H(t) || (H(t') == H(t) && C(t') <= C(t))
  }

  // ---------------------------------------------------------------- push down

  function Pushed(t: Tree, p: Nid, i: nat): Tree
    requires p in t.s && i < |t.s[p].pivots|
    requires t.s[p].pivots[i].child in t.s && |t.s[t.s[p].pivots[i].child].pivots| > 0
  {
    t.(s := PushDown(t.s, p, i))
  }

  lemma {:induction false} ParentHasLevel(t: Tree, q: Params, slack: Nid, p: Nid, i: nat)
    requires Sound(t, q, slack) && p in t.s && i < |t.s[p].pivots| && t.s[p].pivots[i].child != NID_NIL
    ensures t.g[p].level > 0
    ensures var c := t.s[p].pivots[i].child;
            c in t.s && c != p && t.g[c] == ChildInfo(t.g[p], t.s[p].pivots, i)
  {
    hide Sound, Inv;
    NodeIsOk(t.s, t.g, t.root, p);
    ChildAt(t.s, t.g, t.root, p, i);
  }

  lemma {:induction false} PushKeepsShapes(t: Tree, q: Params, slack: Nid, p: Nid, i: nat)
    requires Sound(t, q, slack) && p in t.s && i < |t.s[p].pivots| && t.s[p].pivots[i].child != NID_NIL
    ensures t.s[p].pivots[i].child in t.s && |t.s[t.s[p].pivots[i].child].pivots| > 0
    ensures var s' := PushDown(t.s, p, i);
            s'.Keys == t.s.Keys && forall x :: x in t.s ==> SameShape(s'[x].pivots, t.s[x].pivots)
  {
    hide Sound, Inv;
    ParentHasLevel(t, q, slack, p, i);
    PushDownNodes(t.s, t.g, t.root, p, i);
    hide PushDown, NodeOk;
    var s' := PushDown(t.s, p, i);
    forall x | x in t.s
      ensures SameShape(s'[x].pivots, t.s[x].pivots)
    {
      var c := t.s[p].pivots[i].child;
      assert x != p && x != c ==> s'[x] == t.s[x];
    }
  }

  lemma {:induction false} PushKeepsBounds(t: Tree, q: Params, slack: Nid, p: Nid, i: nat)
    requires Sound(t, q, slack) && p in t.s && i < |t.s[p].pivots| && t.s[p].pivots[i].child != NID_NIL
    ensures t.s[p].pivots[i].child in t.s && |t.s[t.s[p].pivots[i].child].pivots| > 0
    ensures Sound(Pushed(t, p, i), q, slack) && SameWidths(t.s, Pushed(t, p, i).s)
  {
    hide Inv, Fan, StoreKnown, StoreStrict, PushDown;
    ParentHasLevel(t, q, slack, p, i);
    PushKeepsShapes(t, q, slack, p, i);
    PushDownKeepsInv(t.s, t.g, t.root, p, i);
    PushDownKnown(t.s, t.g, t.root, p, i, q.written, q.rules);
    ShapesKeepBounds(t, PushDown(t.s, p, i), q, slack);
  }

  lemma {:induction false} ShapesKeepBounds(t: Tree, s': Store, q: Params, slack: Nid)
    requires Sound(t, q, slack) && s'.Keys == t.s.Keys
    requires forall x :: x in t.s ==> SameShape(s'[x].pivots, t.s[x].pivots)
    ensures t.root in s' && Fan(s', t.g, t.root, q.M, slack) && (q.rules.allFit ==> StoreStrict(s', t.g))
    ensures forall x :: x in t.s ==> |s'[x].pivots| == |t.s[x].pivots|
  {
    hide Inv, Fan, StoreKnown, StoreStrict;
    FanSame(t.s, s', t.g, t.root, q.M, slack);
    if q.rules.allFit {
      StrictSame(t.s, s', t.g);
    }
  }

  lemma {:induction false} PushKeepsReads(t: Tree, q: Params, slack: Nid, p: Nid, i: nat)
    requires Sound(t, q, slack) && p in t.s && i < |t.s[p].pivots| && t.s[p].pivots[i].child != NID_NIL
    ensures t.s[p].pivots[i].child in t.s && |t.s[t.s[p].pivots[i].child].pivots| > 0
    ensures SameReads(t, Pushed(t, p, i))
  {
    ParentHasLevel(t, q, slack, p, i);
    LevelBelowRoot(t.s, t.g, t.root, p);
    hide Sound, Inv, Find, PushDown;
    forall k
      ensures View(PushDown(t.s, p, i), t.g, t.root, k) == View(t.s, t.g, t.root, k)
    {
      RootIsForAll(t.s, t.g, t.root, k);
      PushDownKeepsFind(t.s, t.g, t.root, p, i, t.root, k);
    }
  }

  lemma {:induction false} LevelBelowRoot(s: Store, g: Layout, root: Nid, p: Nid)
    requires Inv(s, g, root) && p in s
    ensures g[p].level <= g[root].level
  {
  }

  /** Pushing a buffer down keeps every bound and every read, and lowers each message it holds. */
  lemma {:induction false} PushStep(t: Tree, q: Params, slack: Nid, p: Nid, i: nat)
    requires Sound(t, q, slack) && p in t.s && i < |t.s[p].pivots| && t.s[p].pivots[i].child != NID_NIL
    ensures t.s[p].pivots[i].child in t.s && |t.s[t.s[p].pivots[i].child].pivots| > 0
    ensures var t' := Pushed(t, p, i);
            && Sound(t', q, slack) && SameReads(t, t') && SameWidths(t.s, t'.s)
            && H(t') + |t.s[p].pivots[i].buf| <= H(t)
            && t'.s[p].pivots == t.s[p].pivots[i := t.s[p].pivots[i].(buf := [])]
            && forall x :: x in t.s && x != p && x != t.s[p].pivots[i].child ==> t'.s[x] == t.s[x]
  {
    PushKeepsBounds(t, q, slack, p, i);
    PushKeepsReads(t, q, slack, p, i);
    ParentHasLevel(t, q, slack, p, i);
    PushDownNodes(t.s, t.g, t.root, p, i);
    PushDownLowers(t.s, t.g, t.root, p, i, t.n);
    hide Sound, SameReads, SameWidths, Inv, PushDown;
  }

  // ---------------------------------------------------------------- leaf split

  function LeafSplit(t: Tree, id: Nid, i: nat): Tree
    requires id in t.s && i < |t.s[id].pivots| && |t.s[id].pivots[i].buf| > 0
  {
    t.(s := t.s[id := t.s[id].(pivots := SplitPivot(t.s[id].pivots, i))])
  }

  /** What a node split needs of the messages in a leaf buffer that is split. */
  ghost predicate CanSplit(t: Tree, q: Params, id: Nid, i: nat) {
    && id in t.s && id in t.g && t.g[id].level == 0 && i < |t.s[id].pivots|
    && Splittable(t.s[id].pivots[i].buf)
    && (q.rules.allFit ==> |t.s[id].pivots[i].buf| >= 2)
  }

  lemma {:induction false} LeafSplitBounds(t: Tree, q: Params, id: Nid, i: nat)
    requires Sound(t, q, NID_NIL) && CanSplit(t, q, id, i)
    ensures var t' := LeafSplit(t, id, i);
            Sound(t', q, id) && |t'.s[id].pivots| == |t.s[id].pivots| + 1 >= 2
  {
    hide Inv, Fan, StoreKnown, StoreStrict, Splittable, InsertAfter;
    MiddleIn(t.s[id].pivots[i].buf);
    SplitLeafFan(t.s, t.g, t.root, q.M, id, i);
    SplitLeafKnown(t.s, id, i, q.written, q.rules);
    SplitLeafKeepsInv(t.s, t.g, t.root, id, i);
    if q.rules.allFit {
      SplitLeafStrict(t.s, t.g, t.root, id, i);
    }
    SplitPivotLength(t.s[id].pivots, i);
    hide SplitPivot;
  }

  lemma SplitPivotLength(ps: seq<Pivot>, i: nat)
    requires i < |ps| && |ps[i].buf| > 0
    ensures |SplitPivot(ps, i)| == |ps| + 1
  {
  }

  /** Splitting a leaf buffer leaves that leaf at most one pivot over. Its messages come closer to the
      pivots a node split takes away, and the crowd thins unless the buffer held a single message. */
  lemma {:induction false} LeafSplitStep(t: Tree, q: Params, id: Nid, i: nat)
    requires Sound(t, q, NID_NIL) && CanSplit(t, q, id, i)
    ensures var t' := LeafSplit(t, id, i);
            && Sound(t', q, id) && SameReads(t, t')
            && |t'.s[id].pivots| == |t.s[id].pivots| + 1 >= 2
            && H(t') == H(t) && C(t') == C(t) - (if |t.s[id].pivots[i].buf| >= 2 then 1 else 0)
            && Slide(t'.s[id].pivots, Cap(q.M) + 1) < Slide(t.s[id].pivots, Cap(q.M) + 1)
  {
    hide Inv, Find, NodeOk, Splittable, Slide, Height, Crowd;
    MiddleIn(t.s[id].pivots[i].buf);
    LeafSplitBounds(t, q, id, i);
    LeafSplitSlides(t, q, id, i);
    SplitLeafThins(t.s, t.g, t.root, id, i, t.n);
    var t' := LeafSplit(t, id, i);
    hide Sound, SplitPivot;
    forall k
      ensures View(t'.s, t'.g, t'.root, k) == View(t.s, t.g, t.root, k)
    {
      RootIsForAll(t.s, t.g, t.root, k);
      SplitLeafKeepsFind(t.s, t.g, t.root, id, i, t.root, k);
    }
  }

  lemma {:induction false} LeafSplitSlides(t: Tree, q: Params, id: Nid, i: nat)
    requires Sound(t, q, NID_NIL) && CanSplit(t, q, id, i)
    ensures |t.s[id].pivots[i].buf| > 0
    ensures Slide(SplitPivot(t.s[id].pivots, i), Cap(q.M) + 1) < Slide(t.s[id].pivots, Cap(q.M) + 1)
  {
    hide Inv, StoreKnown, StoreStrict, Slide, SplitPivot, Splittable;
    MiddleIn(t.s[id].pivots[i].buf);
    NodeIsOk(t.s, t.g, t.root, id);
    assert |t.s[id].pivots| <= Cap(q.M);
    hide PivotsOk, LinksOk;
    SplitSlides(t.s[id].pivots, i, t.g[id].lo, t.g[id].hi, Cap(q.M) + 1);
  }

  // ---------------------------------------------------------------- node split

  function ChildSplit(t: Tree, p: Nid, c: Nid): Tree
    requires p in t.s && c in t.s && c in t.g && |t.s[p].pivots| > 0 && |t.s[c].pivots| > 0
  {
    Tree(SplitChild(t.s, p, c, t.n + 1), SplitLayout(t.g, c, t.n + 1, MiddleKey(t.s[c].pivots)), t.root, t.n + 1)
  }

  function RootSplit(t: Tree): Tree
    requires t.root in t.s && t.root in t.g && |t.s[t.root].pivots| > 0
  {
    Tree(GrowUp(t.s, t.root, t.n + 1, t.n + 2),
         GrowLayout(t.g, t.root, t.n + 1, t.n + 2, MiddleKey(t.s[t.root].pivots)),
         t.n + 2, t.n + 2)
  }

  /** c is the child of a drained pivot of p. */
  ghost predicate Drained(s: Store, p: Nid, i: nat, c: Nid) {
    && p in s && i < |s[p].pivots|
    && s[p].pivots[i].child == c && c != NID_NIL && s[p].pivots[i].buf == []
  }

  /** The node is for some key. */
  predicate HasKeys(f: Info) {
    Below(f.lo, f.hi)
  }

  /** c has outgrown its bound below a drained pivot of p, and some key belongs to it. */
  ghost predicate Overfull(t: Tree, q: Params, p: Nid, i: nat, c: Nid) {
    && c in t.s && c in t.g && Drained(t.s, p, i, c)
    && |t.s[c].pivots| >= 2 && q.M < |t.s[c].pivots| && HasKeys(t.g[c])
  }

  lemma {:induction false} IsChildOf(t: Tree, q: Params, slack: Nid, p: Nid, i: nat, c: Nid)
    requires Sound(t, q, slack) && Overfull(t, q, p, i, c)
    ensures p in t.s && c in t.s && c in t.g && |t.s[p].pivots| > 0 && |t.s[c].pivots| >= 2
    ensures InPlace(t.s, t.g, p, i, c) && Below(MiddleKey(t.s[c].pivots), t.g[c].hi) && t.n + 1 !in t.s && c != p
    ensures t.g[p].level <= t.g[t.root].level
  {
    hide Inv, StoreKnown, StoreStrict, Live, MiddleKey, Ordered;
    ParentHasLevel(t, q, slack, p, i);
    LevelBelowRoot(t.s, t.g, t.root, p);
    NodeIsOk(t.s, t.g, t.root, c);
    MiddleIsBelowEnd(t.s[c].pivots, t.g[c], q.M);
  }

  /** Where the child is for some key, so is the parent. */
  lemma {:induction false} ParentHasKeys(t: Tree, q: Params, slack: Nid, p: Nid, i: nat, c: Nid)
    requires Sound(t, q, slack) && c in t.s && c in t.g && Drained(t.s, p, i, c) && HasKeys(t.g[c])
    ensures p in t.g && HasKeys(t.g[p])
  {
    hide Sound, Inv, Lt;
    var k := t.g[c].lo;
    LtImpliesLe(k, k);
    KeyBelow(t.s, t.g, t.root, p, i, k);
    if t.g[p].hi.Some? {
      LtTransitive(t.g[p].lo, k, t.g[p].hi.value);
    }
  }

  lemma {:induction false} ChildSplitReads(t: Tree, q: Params, p: Nid, i: nat, c: Nid)
    requires Sound(t, q, c) && Overfull(t, q, p, i, c)
    ensures SameReads(t, ChildSplit(t, p, c))
  {
    IsChildOf(t, q, c, p, i, c);
    var t' := ChildSplit(t, p, c);
    hide Sound, ChildSplit, View;
    assert t'.root in t'.g && t'.root == t.root by {
      SplitView(t, p, c, []);
    }
    forall k
      ensures View(t'.s, t'.g, t'.root, k) == View(t.s, t.g, t.root, k)
    {
      ChildSplitRead(t, q, p, i, c, k);
    }
  }

  lemma {:induction false} ChildSplitRead(t: Tree, q: Params, p: Nid, i: nat, c: Nid, k: Key)
    requires Sound(t, q, c) && Overfull(t, q, p, i, c)
    ensures t.root in ChildSplit(t, p, c).g
    ensures View(ChildSplit(t, p, c).s, ChildSplit(t, p, c).g, t.root, k) == View(t.s, t.g, t.root, k)
  {
    hide Sound, Inv, Find, SplitChild, NodeOk;
    IsChildOf(t, q, c, p, i, c);
    RootIsForAll(t.s, t.g, t.root, k);
    SplitChildKeepsFind(t.s, t.g, t.root, p, i, c, t.n + 1, t.root, k);
    SplitView(t, p, c, k);
    hide ChildSplit;
  }

  lemma {:induction false} SplitView(t: Tree, p: Nid, c: Nid, k: Key)
    requires p in t.s && c in t.s && c in t.g && |t.s[p].pivots| > 0 && |t.s[c].pivots| > 0 && t.root in t.g
    requires t.n + 1 != t.root
    ensures t.root in ChildSplit(t, p, c).g && ChildSplit(t, p, c).root == t.root
    ensures View(ChildSplit(t, p, c).s, ChildSplit(t, p, c).g, t.root, k)
         == Find(SplitChild(t.s, p, c, t.n + 1), t.root, t.g[t.root].level, k)
  {
    hide Find, SplitChild;
  }

  lemma {:induction false} ChildSplitSound(t: Tree, q: Params, p: Nid, i: nat, c: Nid)
    requires Sound(t, q, c) && Overfull(t, q, p, i, c)
    ensures Sound(ChildSplit(t, p, c), q, p)
  {
    hide Inv, Fan, StoreKnown, StoreStrict, SplitChild, SplitLayout;
    IsChildOf(t, q, c, p, i, c);
    var d := t.n + 1;
    SplitChildKnown(t.s, p, c, d, q.written, q.rules);
    SplitChildFan(t.s, t.g, t.root, q.M, p, i, c, d);
    SplitChildKeepsInv(t.s, t.g, t.root, p, i, c, d);
    if q.rules.allFit {
      SplitChildStrict(t.s, t.g, t.root, p, i, c, d);
    }
    ChildSplitNodes(t, q, c, p, i, c);
  }

  lemma {:induction false} ChildSplitNodes(t: Tree, q: Params, slack: Nid, p: Nid, i: nat, c: Nid)
    requires Sound(t, q, slack) && Overfull(t, q, p, i, c)
    ensures var t' := ChildSplit(t, p, c);
            && p in t'.s && |t'.s[p].pivots| >= 2
            && Trimmed(t.s, t'.s, c)
            && (forall x :: x in t.s && x != p && x != c ==> x in t'.s && t'.s[x] == t.s[x])
            && (forall x :: x in t'.s ==> 1 <= x <= t'.n && |t'.s[x].pivots| > 0)
  {
    hide Inv, Fan, StoreKnown, StoreStrict;
    IsChildOf(t, q, slack, p, i, c);
    var d := t.n + 1;
    SplitChildNodes(t.s, t.g, t.root, p, i, c, d);
    var t' := ChildSplit(t, p, c);
    assert |t'.s[p].pivots| == |t.s[p].pivots| + 1;
    hide SplitChild, SplitLayout, InsertAfter;
    forall x | x in t'.s
      ensures 1 <= x <= t'.n && |t'.s[x].pivots| > 0
    {
      assert x != p && x != c && x != d ==> t'.s[x] == t.s[x];
    }
  }

  /** Splitting an overfull node below a drained pivot moves the excess pivot to the parent. */
  lemma {:induction false} ChildSplitStep(t: Tree, q: Params, p: Nid, i: nat, c: Nid)
    requires Sound(t, q, c) && Overfull(t, q, p, i, c)
    ensures var t' := ChildSplit(t, p, c);
            && Sound(t', q, p) && SameReads(t, t')
            && H(t') == H(t) && C(t') == C(t)
            && p in t'.s && |t'.s[p].pivots| >= 2 && p in t'.g && HasKeys(t'.g[p])
            && Trimmed(t.s, t'.s, c) && SameOff(t.s, t'.s, [p, c])
  {
    ChildSplitReads(t, q, p, i, c);
    ChildSplitSound(t, q, p, i, c);
    ChildSplitNodes(t, q, c, p, i, c);
    ChildSplitMeasure(t, q, p, i, c);
    ParentHasKeys(t, q, c, p, i, c);
    IsChildOf(t, q, c, p, i, c);
    assert ChildSplit(t, p, c).g[p] == t.g[p];
    hide Sound, SameReads, ChildSplit, H, C, HasKeys;
  }

  lemma {:induction false} ChildSplitMeasure(t: Tree, q: Params, p: Nid, i: nat, c: Nid)
    requires Sound(t, q, c) && Overfull(t, q, p, i, c)
    ensures H(ChildSplit(t, p, c)) == H(t) && C(ChildSplit(t, p, c)) == C(t)
  {
    hide *;
    IsChildOf(t, q, c, p, i, c);
    SplitChildKeepsMeasure(t.s, t.g, t.root, p, i, c, t.n + 1, t.n);
    ChildSplitFields(t, p, c);
    MeasureIs(t);
    MeasureIs(ChildSplit(t, p, c));
  }

  lemma {:induction false} MeasureIs(t: Tree)
    ensures H(t) == Height(t.s, t.g, t.n) && C(t) == Crowd(t.s, t.g, t.n)
  {
  }

  lemma {:induction false} ChildSplitFields(t: Tree, p: Nid, c: Nid)
    requires p in t.s && c in t.s && c in t.g && |t.s[p].pivots| > 0 && |t.s[c].pivots| > 0
    ensures ChildSplit(t, p, c) == Tree(SplitChild(t.s, p, c, t.n + 1),
              SplitLayout(t.g, c, t.n + 1, MiddleKey(t.s[c].pivots)), t.root, t.n + 1)
  {
  }

  lemma {:induction false} RootSplitFields(t: Tree)
    requires t.root in t.s && t.root in t.g && |t.s[t.root].pivots| > 0
    ensures RootSplit(t) == Tree(GrowUp(t.s, t.root, t.n + 1, t.n + 2),
              GrowLayout(t.g, t.root, t.n + 1, t.n + 2, MiddleKey(t.s[t.root].pivots)), t.n + 2, t.n + 2)
  {
  }

  lemma {:induction false} RootSplitBounds(t: Tree, q: Params)
    requires Sound(t, q, t.root) && |t.s[t.root].pivots| >= 2 && q.M < |t.s[t.root].pivots|
    ensures Sound(RootSplit(t), q, NID_NIL)
  {
    hide Inv, Fan, StoreKnown, StoreStrict, GrowUp, GrowLayout;
    var d, r := t.n + 1, t.n + 2;
    assert d !in t.s && r !in t.s;
    GrowUpKnown(t.s, t.root, d, r, q.written, q.rules);
    GrowUpFan(t.s, t.g, q.M, t.root, d, r);
    GrowUpKeepsInv(t.s, t.g, t.root, d, r);
    if q.rules.allFit {
      GrowUpStrict(t.s, t.g, t.root, d, r);
    }
    RootSplitNodes(t, q, t.root);
  }

  lemma {:induction false} RootSplitNodes(t: Tree, q: Params, slack: Nid)
    requires Sound(t, q, slack) && |t.s[t.root].pivots| >= 2
    ensures var t' := RootSplit(t);
            && Trimmed(t.s, t'.s, t.root) && SameOff(t.s, t'.s, [t.root])
            && (forall x :: x in t'.s ==> 1 <= x <= t'.n && |t'.s[x].pivots| > 0)
  {
    hide Inv, Fan, StoreKnown, StoreStrict, GrowUp, GrowLayout;
    GrowUpNodes(t.s, t.root, t.n + 1, t.n + 2);
  }

  lemma {:induction false} RootSplitReads(t: Tree, q: Params)
    requires Sound(t, q, t.root) && |t.s[t.root].pivots| >= 2
    ensures SameReads(t, RootSplit(t))
  {
    hide Sound, Inv, Find, GrowUp, NodeOk;
    var t' := RootSplit(t);
    assert t.n + 1 !in t.s && t.n + 2 !in t.s;
    assert t'.g[t'.root].level == t.g[t.root].level + 1;
    hide GrowLayout, MiddleKey;
    forall k
      ensures View(t'.s, t'.g, t'.root, k) == View(t.s, t.g, t.root, k)
    {
      GrowUpKeepsView(t.s, t.g, t.root, t.n + 1, t.n + 2, k);
    }
  }

  /** Splitting an overfull root puts a new root with two pivots on top. */
  lemma {:induction false} RootSplitStep(t: Tree, q: Params)
    requires Sound(t, q, t.root) && |t.s[t.root].pivots| >= 2 && q.M < |t.s[t.root].pivots|
    ensures var t' := RootSplit(t);
            && Sound(t', q, NID_NIL) && SameReads(t, t')
            && H(t') == H(t) && C(t') == C(t)
            && Trimmed(t.s, t'.s, t.root) && SameOff(t.s, t'.s, [t.root])
  {
    RootSplitBounds(t, q);
    RootSplitNodes(t, q, t.root);
    RootSplitReads(t, q);
    RootSplitMeasure(t, q);
    hide Sound, SameReads, RootSplit, H, C;
  }

  lemma {:induction false} RootSplitMeasure(t: Tree, q: Params)
    requires Sound(t, q, t.root) && |t.s[t.root].pivots| >= 2
    ensures H(RootSplit(t)) == H(t) && C(RootSplit(t)) == C(t)
  {
    hide *;
    GrowUpKeepsMeasure(t.s, t.g, t.root, t.n + 1, t.n + 2, t.n);
    RootSplitFields(t);
    MeasureIs(t);
    MeasureIs(RootSplit(t));
  }

  /** A locked path: from the root down, every node hangs below a drained pivot of the one before. */
  ghost predicate DrainedPath(s: Store, root: Nid, path: seq<Nid>) {
    && path != [] && path[0] == root
    && forall j :: 0 <= j < |path| - 1 ==> Hangs(s, path[j], path[j + 1])
  }

  ghost predicate Hangs(s: Store, p: Nid, c: Nid) {
    exists i: nat :: Drained(s, p, i, c)
  }

  /** Splitting the last node of a locked path leaves the rest of it locked and drained. */
  lemma {:induction false} PathAfterSplit(t: Tree, t': Tree, q: Params, path: seq<Nid>)
    requires |path| >= 2 && DrainedPath(t.s, t.root, path) && Sound(t, q, path[|path| - 1])
    requires t'.root == t.root
    requires SameOff(t.s, t'.s, [path[|path| - 2], path[|path| - 1]])
    ensures DrainedPath(t'.s, t'.root, path[..|path| - 1])
  {
    hide Sound, Inv;
    var short := path[..|path| - 1];
    forall j | 0 <= j < |short| - 1
      ensures Hangs(t'.s, short[j], short[j + 1])
    {
      assert Hangs(t.s, path[j], path[j + 1]);
      var i: nat :| Drained(t.s, path[j], i, path[j + 1]);
      PathDescends(t, q, path[|path| - 1], path, j, |path| - 2);
      PathDescends(t, q, path[|path| - 1], path, j, |path| - 1);
      assert Drained(t'.s, path[j], i, path[j + 1]);
    }
  }

  /** Levels fall by one along a path, so no node is on it twice. */
  lemma {:induction false} PathDescends(t: Tree, q: Params, slack: Nid, path: seq<Nid>, a: nat, b: nat)
    requires DrainedPath(t.s, t.root, path) && Sound(t, q, slack) && a < b < |path|
    ensures path[a] in t.s && path[b] in t.s && path[a] != path[b] && t.g[path[a]].level == t.g[path[b]].level + (b - a)
    decreases b - a
  {
    hide Sound, Inv;
    assert Hangs(t.s, path[a], path[a + 1]);
    var i: nat :| Drained(t.s, path[a], i, path[a + 1]);
    ParentHasLevel(t, q, slack, path[a], i);
    if a + 1 < b {
      PathDescends(t, q, slack, path, a + 1, b);
    }
  }

  lemma {:induction false} PathStartsAtRoot(s: Store, root: Nid, path: seq<Nid>)
    requires DrainedPath(s, root, path)
    ensures path != [] && path[0] == root
  {
  }

  lemma {:induction false} LastLink(t: Tree, q: Params, path: seq<Nid>) returns (i: nat)
    requires |path| >= 2 && DrainedPath(t.s, t.root, path) && Sound(t, q, path[|path| - 1])
    ensures Drained(t.s, path[|path| - 2], i, path[|path| - 1]) && path[|path| - 2] != path[|path| - 1]
  {
    hide Sound, Inv;
    assert Hangs(t.s, path[|path| - 2], path[|path| - 1]);
    i :| Drained(t.s, path[|path| - 2], i, path[|path| - 1]);
    PathDescends(t, q, path[|path| - 1], path, |path| - 2, |path| - 1);
  }

  /** The node keeps a first part of its pivots. */
  ghost predicate Trimmed(s: Store, s': Store, id: Nid) {
    id in s && id in s' && s'[id].pivots != [] && s'[id].pivots <= s[id].pivots
  }

  lemma TrimmedRefl(s: Store, id: Nid)
    requires id in s && s[id].pivots != []
    ensures Trimmed(s, s, id)
  {
  }

  /** Nodes off the path are as they were. */
  ghost predicate SameOff(s: Store, s': Store, path: seq<Nid>) {
    forall x :: x in s && x !in path ==> x in s' && s'[x] == s[x]
  }

  lemma SameOffRefl(s: Store, path: seq<Nid>)
    ensures SameOff(s, s, path)
  {
  }

  /** Splitting the last node, then the ones before it. */
  lemma {:induction false} SplitsAlongPath(a: Store, b: Store, c: Store, path: seq<Nid>)
    requires |path| >= 2 && path[|path| - 1] !in path[..|path| - 1]
    requires Trimmed(a, b, path[|path| - 1]) && SameOff(b, c, path[..|path| - 1])
    requires SameOff(a, b, [path[|path| - 2], path[|path| - 1]])
    ensures Trimmed(a, c, path[|path| - 1]) && SameOff(a, c, path)
  {
    forall x | x in a && x !in path
      ensures x in c && c[x] == a[x]
    {
      assert path[|path| - 2] in path && path[|path| - 1] in path && x !in path[..|path| - 1];
    }
  }

  /** A trimmed leaf is still a leaf, with the same first buffer, and its messages are no further from the
      pivots a node split takes away. */
  lemma {:induction false} TrimmedLeaf(t: Tree, t': Tree, q: Params, id: Nid)
    requires Sound(t, q, id) && Sound(t', q, NID_NIL) && Trimmed(t.s, t'.s, id)
    requires id in t.g && t.g[id].level == 0
    ensures id in t'.s && id in t'.g && t'.g[id].level == 0
    ensures t'.s[id].pivots != [] && t.s[id].pivots != [] && t'.s[id].pivots[0] == t.s[id].pivots[0]
    ensures Slide(t'.s[id].pivots, Cap(q.M) + 1) <= Slide(t.s[id].pivots, Cap(q.M) + 1)
  {
    hide Sound, Slide;
    ChildrenOfLeaf(t, q, id, id, 0);
    ChildrenOfLeaf(t', q, NID_NIL, id, 0);
    SlideCut(t.s[id].pivots, |t'.s[id].pivots|, Cap(q.M) + 1);
    assert t'.s[id].pivots == t.s[id].pivots[..|t'.s[id].pivots|];
  }

  lemma {:induction false} LastIsNotBefore(t: Tree, q: Params, path: seq<Nid>)
    requires path != [] && DrainedPath(t.s, t.root, path) && Sound(t, q, path[|path| - 1])
    ensures path[|path| - 1] !in path[..|path| - 1]
  {
    hide Sound, DrainedPath;
    forall j | 0 <= j < |path| - 1
      ensures path[j] != path[|path| - 1]
    {
      PathDescends(t, q, path[|path| - 1], path, j, |path| - 1);
    }
  }

  lemma {:induction false} SameReadsAt(t: Tree, t': Tree, k: Key)
    requires SameReads(t, t')
    ensures t.root in t.g && t'.root in t'.g && View(t'.s, t'.g, t'.root, k) == View(t.s, t.g, t.root, k)
  {
    hide View;
  }

  lemma {:induction false} SameReadsRefl(t: Tree, q: Params, slack: Nid)
    requires Sound(t, q, slack)
    ensures SameReads(t, t)
  {
    hide Inv, Find, Fan, StoreKnown;
  }

  /** A node that did not need splitting was not over its bound after all. */
  lemma {:induction false} Settled(t: Tree, q: Params, slack: Nid)
    requires Sound(t, q, slack) && slack in t.s && |t.s[slack].pivots| <= q.M
    ensures Sound(t, q, NID_NIL)
  {
    hide Inv, StoreKnown, StoreStrict, Live;
  }

  lemma {:induction false} MiddleKeyNotEmpty(t: Tree, q: Params, slack: Nid, c: Nid)
    requires Sound(t, q, slack) && c in t.s && |t.s[c].pivots| >= 2
    ensures MiddleKey(t.s[c].pivots) != []
  {
    NodeIsOk(t.s, t.g, t.root, c);
    hide Sound, Inv;
    HalvesOrdered(t.s[c].pivots, t.g[c].lo, t.g[c].hi);
    KeyOrder();
  }

  /** Pushing from the last node of a locked path into its child extends the path. */
  lemma {:induction false} PathAfterPush(t: Tree, q: Params, slack: Nid, path: seq<Nid>, i: nat)
    requires DrainedPath(t.s, t.root, path) && Sound(t, q, slack)
    requires path[|path| - 1] in t.s && i < |t.s[path[|path| - 1]].pivots|
    requires t.s[path[|path| - 1]].pivots[i].child != NID_NIL
    ensures var p := path[|path| - 1];
            var c := t.s[p].pivots[i].child;
            && c in t.s && |t.s[c].pivots| > 0
            && DrainedPath(Pushed(t, p, i).s, t.root, path + [c])
  {
    hide Sound, Inv;
    var p := path[|path| - 1];
    var c := t.s[p].pivots[i].child;
    PushStep(t, q, slack, p, i);
    ParentHasLevel(t, q, slack, p, i);
    hide Pushed;
    var t' := Pushed(t, p, i);
    var longer := path + [c];
    forall j | 0 <= j < |longer| - 1
      ensures Hangs(t'.s, longer[j], longer[j + 1])
    {
      if j == |path| - 1 {
        assert Drained(t'.s, p, i, c);
      } else {
        assert Hangs(t.s, path[j], path[j + 1]);
        var a: nat :| Drained(t.s, path[j], a, path[j + 1]);
        PathDescends(t, q, slack, path, j, |path| - 1);
        assert t'.s[path[j]] == t.s[path[j]];
        assert Drained(t'.s, path[j], a, path[j + 1]);
      }
    }
  }

  /** There is nothing to an empty push. */
  lemma {:induction false} PushNothing(t: Tree, q: Params, slack: Nid, p: Nid, i: nat)
    requires Sound(t, q, slack) && p in t.s && i < |t.s[p].pivots| && t.s[p].pivots[i].child != NID_NIL
    requires t.s[p].pivots[i].buf == []
    ensures t.s[p].pivots[i].child in t.s && |t.s[t.s[p].pivots[i].child].pivots| > 0
    ensures Pushed(t, p, i) == t
  {
    hide Sound, Inv;
    ParentHasLevel(t, q, slack, p, i);
    var ps := t.s[p].pivots;
    assert ps[i := ps[i].(buf := [])] == ps;
  }

  /** What the child needs to take a push. */
  lemma {:induction false} PushIsInRange(t: Tree, q: Params, slack: Nid, p: Nid, i: nat)
    requires Sound(t, q, slack) && p in t.s && i < |t.s[p].pivots| && t.s[p].pivots[i].child != NID_NIL
    ensures var c := t.s[p].pivots[i].child;
            && c in t.s && c != p && c in t.g
            && PivotsOk(t.s[c].pivots, t.g[c].lo, t.g[c].hi) && BufOk(t.s[p].pivots[i].buf, t.g[c].lo, t.g[c].hi)
  {
    hide Sound, Inv;
    ParentHasLevel(t, q, slack, p, i);
    NodeIsOk(t.s, t.g, t.root, p);
    NodeIsOk(t.s, t.g, t.root, t.s[p].pivots[i].child);
    hide BufOk, LinksOk, Ordered;
  }

  /** Where a walk for k goes next. */
  lemma {:induction false} NextOnPath(t: Tree, q: Params, slack: Nid, id: Nid, k: Key)
    requires Sound(t, q, slack) && id in t.s && id in t.g && InRange(k, t.g[id].lo, t.g[id].hi)
    ensures var c := At(t.s[id].pivots, k).child;
            && (c == NID_NIL <==> t.g[id].level == 0)
            && (c != NID_NIL ==>
                c in t.s && c in t.g && t.g[c].level == t.g[id].level - 1 && InRange(k, t.g[c].lo, t.g[c].hi))
  {
    hide Sound, Inv;
    if t.g[id].level > 0 {
      ChildOf(t.s, t.g, t.root, id, k);
    } else {
      LeafHasNoChild(t.s, t.g, t.root, id, Route(t.s[id].pivots, k));
    }
  }

  lemma {:induction false} BufferedKeyInRange(t: Tree, q: Params, slack: Nid, id: Nid, i: nat, j: nat)
    requires Sound(t, q, slack) && id in t.s && id in t.g && i < |t.s[id].pivots| && j < |t.s[id].pivots[i].buf|
    ensures InRange(t.s[id].pivots[i].buf[j].key, t.g[id].lo, t.g[id].hi)
  {
    hide Sound, Inv;
    NodeIsOk(t.s, t.g, t.root, id);
    var ps := t.s[id].pivots;
    var m := ps[i].buf[j];
    assert BufOk(ps[i].buf, ps[i].leftKey, Hi(ps, i, t.g[id].hi));
    assert m in ps[i].buf;
    InNodeRange(ps, t.g[id].lo, t.g[id].hi, i, m.key);
  }

  // ---------------------------------------------------------------- a write

  function Written(t: Tree, m: Msg): Tree
    requires t.root in t.s && |t.s[t.root].pivots| > 0
  {
    t.(s := Write(t.s, t.root, m))
  }

  /** What is known once m is written, too. */
  function Noted(r: Rules, m: Msg): Rules {
    Rules(r.limit,
          if m.key == [] && !Fits(m, r.emptyLimit) then BufSize([m]) else r.emptyLimit,
          r.allFit && Fits(m, r.limit))
  }

  lemma {:induction false} NotedAllows(r: Rules, m: Msg)
    ensures Weaker(r, Noted(r, m)) && Allowed(m, Noted(r, m))
    ensures r.emptyLimit == r.limit ==> (Noted(r, m).emptyLimit == r.limit <==> m.key != [] || Fits(m, r.limit))
  {
  }

  lemma {:induction false} WriteKeepsShapes(t: Tree, q: Params, m: Msg)
    requires Sound(t, q, NID_NIL)
    ensures var s' := Write(t.s, t.root, m);
            s'.Keys == t.s.Keys && forall x :: x in t.s ==> SameShape(s'[x].pivots, t.s[x].pivots)
  {
    hide Sound, Inv, Route, Msgs.InsertMsg;
  }

  /** Any message can be written to the root: it is the one its key now answers with. */
  lemma {:induction false} WriteStep(t: Tree, q: Params, m: Msg)
    requires Sound(t, q, NID_NIL)
    ensures var t' := Written(t, m);
            && Sound(t', q.(written := q.written + {m.key}, rules := Noted(q.rules, m)), NID_NIL)
            && forall k :: View(t'.s, t'.g, t'.root, k) == if k == m.key then Some(m) else View(t.s, t.g, t.root, k)
  {
    hide Inv, Find, Fits, Fan, StoreKnown, StoreStrict, Noted, Allowed, Write;
    NotedAllows(q.rules, m);
    KnownUnderWeaker(t.s, q.written, q.rules, Noted(q.rules, m));
    WriteKnown(t.s, t.g, t.root, m, q.written, Noted(q.rules, m));
    WriteKeepsInv(t.s, t.g, t.root, m);
    WriteKeepsShapes(t, q, m);
    ShapesKeepBounds(t, Write(t.s, t.root, m), q, NID_NIL);
    forall k
      ensures View(Write(t.s, t.root, m), t.g, t.root, k) == if k == m.key then Some(m) else View(t.s, t.g, t.root, k)
    {
      WriteChangesView(t.s, t.g, t.root, m, k);
    }
  }

  // ---------------------------------------------------------------- a new tree

  function Fresh(): Tree {
    Tree(map[1 := NodeState(true, [Pivot([], NID_NIL, [])])], map[1 := Info(0, [], None)], 1, 1)
  }

  /** BufferTree::init on an empty database. */
  lemma {:induction false} FreshIsSound(M: nat, limit: nat, k: Key)
    ensures Sound(Fresh(), Params(M, Rules(limit, limit, true), {}), NID_NIL)
    ensures View(Fresh().s, Fresh().g, 1, k) == None
  {
    var t := Fresh();
    assert NodeAt(t.s, t.g, 1);
    assert AllKnown(t.s[1].pivots, {}, Rules(limit, limit, true));
  }

  /** Two leaves for one key are one leaf. */
  lemma {:induction false} SameLeaf(t: Tree, q: Params, slack: Nid, a: Nid, b: Nid, k: Key)
    requires Sound(t, q, slack) && a in t.s && b in t.s && a in t.g && b in t.g && t.g[a].level == 0 == t.g[b].level
    requires InRange(k, t.g[a].lo, t.g[a].hi) && InRange(k, t.g[b].lo, t.g[b].hi)
    ensures a == b
  {
    hide Sound, Inv;
    OneNodePerKey(t.s, t.g, t.root, a, b, k);
  }

  lemma {:induction false} RootTakesAll(t: Tree, q: Params, slack: Nid, k: Key)
    requires Sound(t, q, slack)
    ensures t.root in t.g && InRange(k, t.g[t.root].lo, t.g[t.root].hi)
    ensures DrainedPath(t.s, t.root, [] + [t.root])
  {
    hide Sound, Inv;
    RootIsForAll(t.s, t.g, t.root, k);
  }

  lemma {:induction false} ChildrenOfLeaf(t: Tree, q: Params, slack: Nid, id: Nid, i: nat)
    requires Sound(t, q, slack) && id in t.s && id in t.g && i < |t.s[id].pivots|
    ensures t.s[id].pivots[i].child == NID_NIL <==> t.g[id].level == 0
  {
    hide Sound, Inv;
    NodeIsOk(t.s, t.g, t.root, id);
    hide PivotsOk;
  }

  /** A leaf buffer over the limit can be split, unless it holds nothing or just a message of the empty
      key that is over the limit by itself. */
  lemma {:induction false} OverLimitCanSplit(t: Tree, q: Params, slack: Nid, id: Nid, i: nat)
    requires Sound(t, q, slack) && id in t.s && id in t.g && t.g[id].level == 0 && i < |t.s[id].pivots|
    requires BufSize(t.s[id].pivots[i].buf) > q.rules.limit
    ensures Splittable(t.s[id].pivots[i].buf) ==> CanSplit(t, q, id, i)
    ensures !Splittable(t.s[id].pivots[i].buf) ==> q.rules.limit < 4 || q.rules.emptyLimit != q.rules.limit
  {
    hide Inv, Fan, BufSize, StoreStrict, Known, Splittable;
    assert AllKnown(t.s[id].pivots, q.written, q.rules);
    assert Known(t.s[id].pivots[i], q.written, q.rules);
    NodeIsOk(t.s, t.g, t.root, id);
    BufferIsSorted(t.s[id].pivots, i, t.g[id].lo, t.g[id].hi);
    hide NodeOk, Sorted;
    if q.rules.limit >= 4 {
      OverLimitIsSplittable(t.s[id].pivots[i], q.written, q.rules);
    }
    if q.rules.allFit && Splittable(t.s[id].pivots[i].buf) {
      OverLimitHoldsTwo(t.s[id].pivots[i], q.written, q.rules);
      MiddleIn(t.s[id].pivots[i].buf);
    }
  }
}
