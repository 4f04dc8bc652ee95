/** The clear that ends a push, and a write to the root, keep every read right. */
module TreeReadersSteps {
  import opened Keys
  import opened Msgs
  import opened TreeModel
  import opened TreeSteps
  import opened TreePushOne
  import opened TreeReaders
  import opened TreeReadersProof

  // ---------------------------------------------------------------- the end of a push

  lemma {:induction false} EndSetup(y: Sys, u: nat)
    requires Good(y) && Guard(y, EndPush(u))
    ensures var h := y.pushes[u];
            && h.p in y.s && h.i < |y.s[h.p].pivots| && y.g[h.p].level > 0
            && forall m :: m in y.s[h.p].pivots[h.i].buf ==>
                 Find(y.s, y.s[h.p].pivots[h.i].child, y.g[h.p].level - 1, m.key) == Some(m)
  {
    hide Inv, Find, ActiveOk;
    var h := y.pushes[u];
    assert PushOk(y, h);
    forall m | m in y.s[h.p].pivots[h.i].buf
      ensures Find(y.s, y.s[h.p].pivots[h.i].child, y.g[h.p].level - 1, m.key) == Some(m)
    {
      var t :| 0 <= t < |y.s[h.p].pivots[h.i].buf| && y.s[h.p].pivots[h.i].buf[t] == m;
      assert CopyFound(y, h, t);
    }
  }

  lemma {:induction false} EndKeepsReader(y: Sys, u: nat, r: Reader)
    requires Good(y) && Guard(y, EndPush(u)) && r.Active? && ActiveOk(y, r)
    ensures var y' := Apply(y, EndPush(u));
            y'.s.Keys == y'.g.Keys && ActiveOk(y', r)
  {
    hide Good, Inv, Find, Here, Route, Since;
    EndSetup(y, u);
    var h := y.pushes[u];
    var s' := Cleared(y.s, h.p, h.i);
    ClearedElsewhere(y.s, h.p, h.i);
    HereInCleared(y.s, h.p, h.i, r.key);
    ClearedKeepsFind(y.s, y.g, y.root, h.p, h.i, r.at, r.key);
    assert |s'[h.p].pivots| == |y.s[h.p].pivots|;
    hide Cleared;
    forall x | x in s' && |s'[x].pivots| > 0 && y.g[x].level > y.g[r.at].level && InRange(r.key, y.g[x].lo, y.g[x].hi)
               && Here(s', x, r.key).Some?
      ensures Since(y.hist, r.start, r.key, Answer(Here(s', x, r.key)))
    {
      if x != h.p {
        HereSame(y.s, s', x, r.key);
      }
      NewOf(y.s, y.g, r.at, r.key, y.hist, r.start, x);
    }
  }

  lemma {:induction false} EndKeepsPush(y: Sys, u: nat, v: nat)
    requires Good(y) && Guard(y, EndPush(u)) && v in y.pushes && v != u
    ensures var y' := Apply(y, EndPush(u));
            y'.s.Keys == y'.g.Keys && PushOk(y', y.pushes[v])
  {
    hide Inv, Find, ActiveOk;
    var h := y.pushes[u];
    var w := y.pushes[v];
    assert PushOk(y, w);
    EndSetup(y, u);
    var y' := Apply(y, EndPush(u));
    assert y'.s[w.p].pivots[w.i] == y.s[w.p].pivots[w.i];
    hide Good, Cleared;
    forall t | 0 <= t < w.pos
      ensures CopyFound(y', w, t)
    {
      assert CopyFound(y, w, t);
      var m := y.s[w.p].pivots[w.i].buf[t];
      ChildAt(y.s, y.g, y.root, w.p, w.i);
      BufferedBelongs(y.s, y.g, y.root, w.p, w.i, m);
      ClearedKeepsFind(y.s, y.g, y.root, h.p, h.i, y.s[w.p].pivots[w.i].child, m.key);
    }
  }

  lemma {:induction false} EndIsLatest(y: Sys, u: nat)
    requires Good(y) && Guard(y, EndPush(u))
    ensures var y' := Apply(y, EndPush(u));
            y'.root in y'.g && |y'.hist| > 0 && ReadsLatest(y')
  {
    hide Inv, Find, Here, Route, ActiveOk, PushOk, Since, Cleared, ReadsLatest;
    var y' := Apply(y, EndPush(u));
    var h := y.pushes[u];
    EndSetup(y, u);
    forall k
      ensures Find(y'.s, y.root, y.g[y.root].level, k) == Find(y.s, y.root, y.g[y.root].level, k)
    {
      RootIsForAll(y.s, y.g, y.root, k);
      ClearedKeepsFind(y.s, y.g, y.root, h.p, h.i, y.root, k);
    }
    SameView(y, y');
  }

  lemma {:induction false} EndKeepsGood(y: Sys, u: nat)
    requires Good(y) && Guard(y, EndPush(u))
    ensures Good(Apply(y, EndPush(u)))
  {
    hide Inv, Find, Here, Route, ActiveOk, DoneOk, PushOk, Since, Cleared, ReadsLatest;
    var y' := Apply(y, EndPush(u));
    var h := y.pushes[u];
    EndSetup(y, u);
    ClearedKeepsInv(y.s, y.g, y.root, h.p, h.i);
    EndIsLatest(y, u);
    forall r | r in y.readers
      ensures y'.s.Keys == y'.g.Keys
      ensures if y.readers[r].Active? then ActiveOk(y', y.readers[r]) else DoneOk(y', y.readers[r])
    {
      if y.readers[r].Active? {
        EndKeepsReader(y, u, y.readers[r]);
      } else {
        DoneStays(y, y', y.readers[r]);
      }
    }
    forall v | v in y'.pushes
      ensures y'.s.Keys == y'.g.Keys && PushOk(y', y'.pushes[v])
    {
      EndKeepsPush(y, u, v);
    }
  }

  // ---------------------------------------------------------------- a write

  lemma {:induction false} WriteElsewhere(s: Store, root: Nid, m: Msg)
    requires root in s && |s[root].pivots| > 0
    ensures Write(s, root, m) == Copied(s, root, m)
  {
  }

  lemma {:induction false} WriteAbove(y: Sys, m: Msg, r: Reader, x: Nid)
    requires Good(y) && Guard(y, WriteRoot(m)) && r.Active? && ActiveOk(y, r)
    requires x in y.s && |y.s[x].pivots| > 0 && y.g[x].level > y.g[r.at].level && InRange(r.key, y.g[x].lo, y.g[x].hi)
    ensures x in Copied(y.s, y.root, m) && |Copied(y.s, y.root, m)[x].pivots| > 0
    ensures Here(Copied(y.s, y.root, m), x, r.key).Some? ==>
              Since(y.hist + [Applied(y.hist[|y.hist| - 1], m)], r.start, r.key,
                    Answer(Here(Copied(y.s, y.root, m), x, r.key)))
  {
    hide Inv, Find, Here, Route, Since, NodeOk, SameShape, PushOk;
    var s' := Copied(y.s, y.root, m);
    RootIsForAll(y.s, y.g, y.root, m.key);
    CopiedNode(y.s, y.g, y.root, y.root, m, r.key);
    CopiedElsewhere(y.s, y.root, m);
    hide Copied, Good;
    if x == y.root && r.key == m.key {
      LatestIsSince(y, m, r.start);
    } else {
      if x != y.root {
        HereSame(y.s, s', x, r.key);
      }
      if Here(y.s, x, r.key).Some? {
        NewOf(y.s, y.g, r.at, r.key, y.hist, r.start, x);
        SinceExtends(y.hist, y.hist + [Applied(y.hist[|y.hist| - 1], m)], r.start, r.key, Answer(Here(y.s, x, r.key)));
      }
    }
  }

  lemma {:induction false} WriteKeepsReader(y: Sys, m: Msg, r: Reader)
    requires Good(y) && Guard(y, WriteRoot(m)) && r.Active? && ActiveOk(y, r)
    ensures var y' := Apply(y, WriteRoot(m));
            y'.s.Keys == y'.g.Keys && ActiveOk(y', r)
  {
    hide Good, Inv, Find, Here, Route, Since, NodeOk, Copied, Write;
    var y' := Apply(y, WriteRoot(m));
    WriteElsewhere(y.s, y.root, m);
    RootIsForAll(y.s, y.g, y.root, m.key);
    CopiedNode(y.s, y.g, y.root, y.root, m, r.key);
    CopiedElsewhere(y.s, y.root, m);
    WriteKeepsFound(y, m, r);
    forall x | x in y'.s && |y'.s[x].pivots| > 0 && y.g[x].level > y.g[r.at].level
               && InRange(r.key, y.g[x].lo, y.g[x].hi) && Here(y'.s, x, r.key).Some?
      ensures Since(y'.hist, r.start, r.key, Answer(Here(y'.s, x, r.key)))
    {
      WriteAbove(y, m, r, x);
    }
  }

  lemma {:induction false} LatestIsSince(y: Sys, m: Msg, start: nat)
    requires |y.hist| > 0 && start < |y.hist|
    ensures Since(y.hist + [Applied(y.hist[|y.hist| - 1], m)], start, m.key, Answer(Some(m)))
  {
    var h := y.hist + [Applied(y.hist[|y.hist| - 1], m)];
    assert ValueIn(h[|y.hist|], m.key) == Answer(Some(m));
  }

  lemma {:induction false} WriteKeepsFound(y: Sys, m: Msg, r: Reader)
    requires Good(y) && Guard(y, WriteRoot(m)) && r.Active? && ActiveOk(y, r)
    ensures |y.s[y.root].pivots| > 0
    ensures Since(y.hist + [Applied(y.hist[|y.hist| - 1], m)], r.start, r.key,
                  Answer(Find(Copied(y.s, y.root, m), r.at, y.g[r.at].level, r.key)))
  {
    hide Inv, Find, Here, Route, Since, PushOk, Copied;
    RootIsForAll(y.s, y.g, y.root, m.key);
    SinceExtends(y.hist, y.hist + [Applied(y.hist[|y.hist| - 1], m)], r.start, r.key,
                 Answer(Find(y.s, r.at, y.g[r.at].level, r.key)));
    LatestIsSince(y, m, r.start);
    if r.at == y.root {
      FindInCopied(y.s, y.g, y.root, y.root, m, r.key);
    } else {
      OthersBelowRoot(y.s, y.g, y.root, r.at);
      FindBesideCopied(y.s, y.g, y.root, y.root, m, r.at, r.key);
    }
  }

  lemma {:induction false} OthersBelowRoot(s: Store, g: Layout, root: Nid, x: Nid)
    requires Inv(s, g, root) && x in s && x != root
    ensures g[x].level < g[root].level
  {
  }

  /** A push has its own buffer locked, so the write does not land in it. */
  lemma {:induction false} WriteLeavesBuffer(y: Sys, m: Msg, v: nat)
    requires Good(y) && Guard(y, WriteRoot(m)) && v in y.pushes
    ensures var s' := Copied(y.s, y.root, m);
            var w := y.pushes[v];
            && w.p in y.s && w.p in s' && w.i < |y.s[w.p].pivots| && w.i < |s'[w.p].pivots| && y.g[w.p].level > 0
            && s'[w.p].pivots[w.i] == y.s[w.p].pivots[w.i]
            && w.pos <= |y.s[w.p].pivots[w.i].buf|
  {
    hide Inv, Find, Here, ActiveOk, Route, InsertMsg;
    assert PushOk(y, y.pushes[v]);
    hide Good;
  }

  lemma {:induction false} WriteKeepsPush(y: Sys, m: Msg, v: nat)
    requires Good(y) && Guard(y, WriteRoot(m)) && v in y.pushes
    ensures var y' := Apply(y, WriteRoot(m));
            y'.s.Keys == y'.g.Keys && PushOk(y', y.pushes[v])
  {
    hide Inv, Find, ActiveOk, Route, Copied, Write, Here;
    var w := y.pushes[v];
    assert PushOk(y, w);
    WriteLeavesBuffer(y, m, v);
    WriteElsewhere(y.s, y.root, m);
    CopiedElsewhere(y.s, y.root, m);
    hide Good;
    var y' := Apply(y, WriteRoot(m));
    forall t | 0 <= t < w.pos
      ensures CopyFound(y', w, t)
    {
      assert CopyFound(y, w, t);
      var b := y.s[w.p].pivots[w.i].buf[t];
      assert b in y.s[w.p].pivots[w.i].buf;
      WriteKeepsFoundFor(y.s, y.g, y.root, m, w.p, w.i, b);
    }
  }

  lemma {:induction false} WriteKeepsFoundFor(s: Store, g: Layout, root: Nid, m: Msg, p: Nid, i: nat, b: Msg)
    requires Inv(s, g, root) && p in s && i < |s[p].pivots| && g[p].level > 0 && b in s[p].pivots[i].buf
    ensures |s[root].pivots| > 0
    ensures Find(Copied(s, root, m), s[p].pivots[i].child, g[p].level - 1, b.key)
              == Find(s, s[p].pivots[i].child, g[p].level - 1, b.key)
  {
    hide Inv, Find, Route, Copied, Here;
    RootIsForAll(s, g, root, m.key);
    ChildAt(s, g, root, p, i);
    RootIsTop(s, g, root, p);
    BufferedBelongs(s, g, root, p, i, b);
    FindBesideCopied(s, g, root, root, m, s[p].pivots[i].child, b.key);
  }

  lemma {:induction false} WriteIsLatest(y: Sys, m: Msg)
    requires Good(y) && Guard(y, WriteRoot(m))
    ensures var y' := Apply(y, WriteRoot(m));
            y'.root in y'.g && |y'.hist| > 0 && ReadsLatest(y')
  {
    hide Inv, Find, ActiveOk, PushOk, Write, View;
    var y' := Apply(y, WriteRoot(m));
    forall k
      ensures Answer(View(y'.s, y'.g, y'.root, k)) == ValueIn(y'.hist[|y'.hist| - 1], k)
    {
      WriteChangesView(y.s, y.g, y.root, m, k);
      assert Answer(View(y.s, y.g, y.root, k)) == ValueIn(y.hist[|y.hist| - 1], k);
    }
  }

  lemma {:induction false} WriteKeepsGood(y: Sys, m: Msg)
    requires Good(y) && Guard(y, WriteRoot(m))
    ensures Good(Apply(y, WriteRoot(m)))
  {
    var y' := Apply(y, WriteRoot(m));
    hide Inv, Find, Route, ActiveOk, PushOk, Since, Write, ReadsLatest;
    WriteKeepsInv(y.s, y.g, y.root, m);
    WriteIsLatest(y, m);
    forall r | r in y.readers
      ensures y'.s.Keys == y'.g.Keys
      ensures if y.readers[r].Active? then ActiveOk(y', y.readers[r]) else DoneOk(y', y.readers[r])
    {
      if y.readers[r].Active? {
        WriteKeepsReader(y, m, y.readers[r]);
      } else {
        DoneStays(y, y', y.readers[r]);
      }
    }
    forall v | v in y'.pushes
      ensures y'.s.Keys == y'.g.Keys && PushOk(y', y'.pushes[v])
    {
      WriteKeepsPush(y, m, v);
    }
  }
}
