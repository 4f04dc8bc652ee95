/** Splits under write locks do not disturb readers or pushes elsewhere. */
module TreeReadersSplits {
  import opened Keys
  import opened Msgs
  import opened TreeModel
  import opened TreeSteps
  import opened TreeSplits
  import opened TreeSplitNode
  import opened TreePushOne
  import opened TreeReaders
  import opened TreeReadersProof

  /** A read that holds no lock on x and does not go on to it. */
  lemma {:induction false} NotHeld(y: Sys, x: Nid, r: Rid)
    requires !Read(y, x) && r in y.readers && y.readers[r].Active?
    ensures y.readers[r].held != x
  {
  }

  lemma {:induction false} NotTouched(y: Sys, x: Nid, v: nat)
    requires !Pushing(y, x) && v in y.pushes && y.pushes[v].p in y.s && y.pushes[v].i < |y.s[y.pushes[v].p].pivots|
    ensures y.pushes[v].p != x && y.s[y.pushes[v].p].pivots[y.pushes[v].i].child != x
  {
    assert !Touches(y.s, y.pushes[v], x);
  }

  // ---------------------------------------------------------------- a leaf buffer

  lemma {:induction false} LeafLevel(y: Sys, id: Nid)
    requires Good(y) && id in y.s && y.s[id].isLeaf
    ensures y.g[id].level == 0
  {
    hide Good, Inv;
    NodeIsOk(y.s, y.g, y.root, id);
    hide PivotsOk;
  }

  lemma {:induction false} LeafKeepsReader(y: Sys, id: Nid, i: nat, r: Reader)
    requires Good(y) && Guard(y, SplitLeaf(id, i)) && r.Active? && ActiveOk(y, r) && r.held != id
    ensures var y' := Apply(y, SplitLeaf(id, i));
            y'.s.Keys == y'.g.Keys && ActiveOk(y', r)
  {
    hide Good, Inv, Find, Here, Route, Since, SplitPivot;
    LeafLevel(y, id);
    var y' := Apply(y, SplitLeaf(id, i));
    SplitLeafKeepsFind(y.s, y.g, y.root, id, i, r.at, r.key);
    forall x | x in y'.s && |y'.s[x].pivots| > 0 && y.g[x].level > y.g[r.at].level
               && InRange(r.key, y.g[x].lo, y.g[x].hi) && Here(y'.s, x, r.key).Some?
      ensures Since(y'.hist, r.start, r.key, Answer(Here(y'.s, x, r.key)))
    {
      HereSame(y.s, y'.s, x, r.key);
      NewOf(y.s, y.g, r.at, r.key, y.hist, r.start, x);
    }
  }

  lemma {:induction false} LeafKeepsPush(y: Sys, id: Nid, i: nat, v: nat)
    requires Good(y) && Guard(y, SplitLeaf(id, i)) && v in y.pushes
    ensures var y' := Apply(y, SplitLeaf(id, i));
            y'.s.Keys == y'.g.Keys && PushOk(y', y.pushes[v])
  {
    hide Inv, Find, ActiveOk, SplitPivot;
    var w := y.pushes[v];
    assert PushOk(y, w);
    LeafLevel(y, id);
    hide Good;
    var y' := Apply(y, SplitLeaf(id, i));
    forall t | 0 <= t < w.pos
      ensures CopyFound(y', w, t)
    {
      assert CopyFound(y, w, t);
      var b := y.s[w.p].pivots[w.i].buf[t];
      assert b in y.s[w.p].pivots[w.i].buf;
      ChildAt(y.s, y.g, y.root, w.p, w.i);
      BufferedBelongs(y.s, y.g, y.root, w.p, w.i, b);
      SplitLeafKeepsFind(y.s, y.g, y.root, id, i, y.s[w.p].pivots[w.i].child, b.key);
    }
  }

  lemma {:induction false} LeafKeepsGood(y: Sys, id: Nid, i: nat)
    requires Good(y) && Guard(y, SplitLeaf(id, i))
    ensures Good(Apply(y, SplitLeaf(id, i)))
  {
    var y' := Apply(y, SplitLeaf(id, i));
    hide Inv, Find, Route, ActiveOk, PushOk, Since, SplitPivot, Read, Pushing;
    LeafLevel(y, id);
    SplitLeafKeepsInv(y.s, y.g, y.root, id, i);
    forall k
      ensures Find(y'.s, y.root, y.g[y.root].level, k) == Find(y.s, y.root, y.g[y.root].level, k)
    {
      RootIsForAll(y.s, y.g, y.root, k);
      SplitLeafKeepsFind(y.s, y.g, y.root, id, i, y.root, k);
    }
    SameView(y, y');
    forall r | r in y.readers && y.readers[r].Active?
      ensures y'.s.Keys == y'.g.Keys && ActiveOk(y', y.readers[r])
    {
      NotHeld(y, id, r);
      LeafKeepsReader(y, id, i, y.readers[r]);
    }
    forall v | v in y'.pushes
      ensures y'.s.Keys == y'.g.Keys && PushOk(y', y'.pushes[v])
    {
      LeafKeepsPush(y, id, i, v);
    }
  }

  // ---------------------------------------------------------------- halving a node

  /** What a store and layout have in common with those before c was halved into c and d. */
  ghost predicate Halved(y: Sys, c: Nid, d: Nid, s': Store, g': Layout)
    requires y.s.Keys == y.g.Keys
  {
    && c in y.s && d !in y.s && |y.s[c].pivots| >= 2
    && c in s' && d in s' && s'.Keys == g'.Keys
    && s'[c] == Halve(y.s, c, d)[c] && s'[d] == Halve(y.s, c, d)[d]
    && g'[c] == y.g[c].(hi := Some(MiddleKey(y.s[c].pivots)))
    && g'[d] == Info(y.g[c].level, MiddleKey(y.s[c].pivots), y.g[c].hi)
    && (forall x :: x in y.s && x != c ==> x in g' && g'[x] == y.g[x])
  }

  /** The two halves have for k what the whole had. */
  lemma {:induction false} HereInHalves(y: Sys, c: Nid, d: Nid, s': Store, g': Layout, x: Nid, k: Key)
    requires Inv(y.s, y.g, y.root) && Halved(y, c, d, s', g')
    requires (x == c || x == d) && InRange(k, g'[x].lo, g'[x].hi)
    ensures |s'[x].pivots| > 0 && InRange(k, y.g[c].lo, y.g[c].hi) && Here(s', x, k) == Here(y.s, c, k)
  {
    hide Inv;
    NodeIsOk(y.s, y.g, y.root, c);
    var mid := MiddleKey(y.s[c].pivots);
    HalvesOrdered(y.s[c].pivots, y.g[c].lo, y.g[c].hi);
    assert InRange(k, y.g[c].lo, y.g[c].hi) by {
      if x == c {
        if y.g[c].hi.Some? {
          LtTransitive(k, mid, y.g[c].hi.value);
        }
      } else {
        LtTransitive(y.g[c].lo, mid, k);
      }
    }
    hide NodeOk, Ordered, Route;
    RouteInHalves(y.s[c].pivots, y.g[c].lo, y.g[c].hi, k);
    hide Lookup;
  }

  /** Reads already below the halved node, or beside it, keep their place. */
  lemma {:induction false} HalvedKeepsAbove(y: Sys, c: Nid, d: Nid, s': Store, g': Layout, r: Reader, x: Nid)
    requires Good(y) && r.Active? && ActiveOk(y, r) && Halved(y, c, d, s', g') && r.at != c
    requires x in s' && |s'[x].pivots| > 0 && g'[x].level > g'[r.at].level && InRange(r.key, g'[x].lo, g'[x].hi)
    requires x != c && x != d && x in y.s ==>
               |y.s[x].pivots| > 0 && (Here(s', x, r.key) == None || Here(s', x, r.key) == Here(y.s, x, r.key))
    requires x in y.s || x == d || Here(s', x, r.key) == None
    ensures Here(s', x, r.key).Some? ==> Since(y.hist, r.start, r.key, Answer(Here(s', x, r.key)))
  {
    hide Good, Inv, Find, Here, Since;
    if Here(s', x, r.key).Some? {
      if x == c || x == d {
        HereInHalves(y, c, d, s', g', x, r.key);
        NewOf(y.s, y.g, r.at, r.key, y.hist, r.start, c);
      } else {
        NewOf(y.s, y.g, r.at, r.key, y.hist, r.start, x);
      }
    }
  }

  // ---------------------------------------------------------------- below a parent

  lemma {:induction false} BelowIsHalved(y: Sys, p: Nid, j: nat, c: Nid, d: Nid)
    requires Good(y) && Guard(y, SplitBelow(p, j, c, d)) && InPlace(y.s, y.g, p, j, c)
    ensures |y.s[p].pivots| > 0 && c != p
    ensures Halved(y, c, d, SplitChild(y.s, p, c, d), SplitLayout(y.g, c, d, MiddleKey(y.s[c].pivots)))
  {
    hide Good, Inv;
    SplitChildNodes(y.s, y.g, y.root, p, j, c, d);
    ChildAt(y.s, y.g, y.root, p, j);
    hide SplitChild;
  }

  lemma {:induction false} BelowHere(y: Sys, p: Nid, j: nat, c: Nid, d: Nid, x: Nid, k: Key)
    requires Good(y) && Guard(y, SplitBelow(p, j, c, d)) && InPlace(y.s, y.g, p, j, c)
    requires x in y.s && x != c && InRange(k, y.g[x].lo, y.g[x].hi) && |y.s[x].pivots| > 0
    ensures |y.s[p].pivots| > 0
    ensures var s' := SplitChild(y.s, p, c, d);
            x in s' && |s'[x].pivots| > 0 && (Here(s', x, k) == None || Here(s', x, k) == Here(y.s, x, k))
  {
    hide Good, Inv, Route;
    SplitChildNodes(y.s, y.g, y.root, p, j, c, d);
    if x == p {
      StepAfterSplit(y.s, y.g, y.root, p, j, c, d, k);
      LookupNothing(k);
    }
    hide SplitChild, Lookup;
  }

  lemma {:induction false} BelowFound(y: Sys, p: Nid, j: nat, c: Nid, d: Nid, x: Nid, k: Key)
    requires Good(y) && Guard(y, SplitBelow(p, j, c, d)) && InPlace(y.s, y.g, p, j, c) && x in y.s && x != c
    requires InRange(k, y.g[x].lo, y.g[x].hi)
    ensures |y.s[p].pivots| > 0
    ensures Find(SplitChild(y.s, p, c, d), x, y.g[x].level, k) == Find(y.s, x, y.g[x].level, k)
  {
    hide Good, Inv, Find;
    if y.g[x].level >= y.g[p].level {
      SplitChildKeepsFind(y.s, y.g, y.root, p, j, c, d, x, k);
    } else {
      SplitChildNodes(y.s, y.g, y.root, p, j, c, d);
      ChildAt(y.s, y.g, y.root, p, j);
      hide SplitChild, Halve;
      FindSame(y.s, SplitChild(y.s, p, c, d), y.g, y.root, x, k);
    }
  }

  lemma {:induction false} BelowKeepsReader(y: Sys, p: Nid, j: nat, c: Nid, d: Nid, r: Reader)
    requires Good(y) && Guard(y, SplitBelow(p, j, c, d)) && InPlace(y.s, y.g, p, j, c) && r.Active? && ActiveOk(y, r)
    requires r.held != p && r.held != c
    ensures var y' := Apply(y, SplitBelow(p, j, c, d));
            y'.s.Keys == y'.g.Keys && ActiveOk(y', r)
  {
    hide Good, Inv, Find, Here, Route, Since, SplitChild, SplitLayout, Halve, MiddleKey;
    var y' := Apply(y, SplitBelow(p, j, c, d));
    BelowIsHalved(y, p, j, c, d);
    ReaderNotAt(y, p, j, c, r);
    BelowFound(y, p, j, c, d, r.at, r.key);
    SplitChildNodes(y.s, y.g, y.root, p, j, c, d);
    forall x | x in y'.s && |y'.s[x].pivots| > 0 && y'.g[x].level > y'.g[r.at].level
               && InRange(r.key, y'.g[x].lo, y'.g[x].hi) && Here(y'.s, x, r.key).Some?
      ensures Since(y'.hist, r.start, r.key, Answer(Here(y'.s, x, r.key)))
    {
      if x != c && x != d {
        NodeIsOk(y.s, y.g, y.root, x);
        BelowHere(y, p, j, c, d, x, r.key);
      }
      HalvedKeepsAbove(y, c, d, y'.s, y'.g, r, x);
    }
  }

  /** A read on its way to c still holds c's parent, so it keeps c from being split. */
  lemma {:induction false} ReaderNotAt(y: Sys, p: Nid, j: nat, c: Nid, r: Reader)
    requires Good(y) && IsChild(y.s, y.g, p, j, c) && r.Active? && ActiveOk(y, r) && r.held != p && r.held != c
    ensures r.at != c
  {
    hide Good, Inv, Find, Since, AboveIsNew;
    if r.at == c {
      ChildAt(y.s, y.g, y.root, p, j);
      ParentIsUnique(y.s, y.g, y.root, p, j, r.held, Route(y.s[r.held].pivots, r.key), r.key);
    }
  }

  lemma {:induction false} BelowKeepsPush(y: Sys, p: Nid, j: nat, c: Nid, d: Nid, v: nat)
    requires Good(y) && Guard(y, SplitBelow(p, j, c, d)) && InPlace(y.s, y.g, p, j, c) && v in y.pushes
    ensures var y' := Apply(y, SplitBelow(p, j, c, d));
            y'.s.Keys == y'.g.Keys && PushOk(y', y.pushes[v])
  {
    hide Inv, Find, ActiveOk, SplitChild, SplitLayout, Halve, MiddleKey;
    var w := y.pushes[v];
    assert PushOk(y, w);
    NotTouched(y, p, v);
    NotTouched(y, c, v);
    BelowIsHalved(y, p, j, c, d);
    SplitChildNodes(y.s, y.g, y.root, p, j, c, d);
    hide Good;
    var y' := Apply(y, SplitBelow(p, j, c, d));
    forall t | 0 <= t < w.pos
      ensures CopyFound(y', w, t)
    {
      assert CopyFound(y, w, t);
      var b := y.s[w.p].pivots[w.i].buf[t];
      assert b in y.s[w.p].pivots[w.i].buf;
      ChildAt(y.s, y.g, y.root, w.p, w.i);
      BufferedBelongs(y.s, y.g, y.root, w.p, w.i, b);
      BelowFound(y, p, j, c, d, y.s[w.p].pivots[w.i].child, b.key);
    }
  }
}
