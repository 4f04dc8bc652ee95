/** Every step keeps every read right and every push on course. */
module TreeReadersProof {
  import opened Keys
  import opened Msgs
  import opened TreeModel
  import opened TreeSteps
  import opened TreePushOne
  import opened TreeReaders

  lemma {:induction false} SinceExtends(h: seq<map<Key, Value>>, h': seq<map<Key, Value>>, start: nat, k: Key,
                                        a: Option<Value>)
    requires h <= h' && Since(h, start, k, a)
    ensures Since(h', start, k, a)
  {
    var t :| start <= t < |h| && ValueIn(h[t], k) == a;
    assert h'[t] == h[t];
  }

  lemma {:induction false} NewOf(s: Store, g: Layout, at: Nid, k: Key, h: seq<map<Key, Value>>, start: nat, x: Nid)
    requires s.Keys == g.Keys && at in s && AboveIsNew(s, g, at, k, h, start)
    requires x in s && |s[x].pivots| > 0 && g[x].level > g[at].level && InRange(k, g[x].lo, g[x].hi)
    requires Here(s, x, k).Some?
    ensures Since(h, start, k, Answer(Here(s, x, k)))
  {
  }

  // ---------------------------------------------------------------- one message of a push

  /** The facts about push u that its next copy needs. */
  lemma {:induction false} CopySetup(y: Sys, u: nat)
    requires Good(y) && Guard(y, CopyOne(u))
    ensures var h := y.pushes[u];
            && h.p in y.s && h.i < |y.s[h.p].pivots| && y.g[h.p].level > 0 && h.pos < |y.s[h.p].pivots[h.i].buf|
            && var m := y.s[h.p].pivots[h.i].buf[h.pos];
               var c := y.s[h.p].pivots[h.i].child;
               && m in y.s[h.p].pivots[h.i].buf && |y.s[h.p].pivots| > 0 && c in y.s && |y.s[c].pivots| > 0
               && y.g[c].level == y.g[h.p].level - 1 && c != NID_NIL
               && InRange(m.key, y.g[c].lo, y.g[c].hi) && InRange(m.key, y.g[h.p].lo, y.g[h.p].hi)
               && Here(y.s, h.p, m.key) == Some(m)
  {
    var h := y.pushes[u];
    assert PushOk(y, h);
    hide Good, Inv, Here;
    BufferedBelongs(y.s, y.g, y.root, h.p, h.i, y.s[h.p].pivots[h.i].buf[h.pos]);
    ChildAt(y.s, y.g, y.root, h.p, h.i);
  }

  lemma {:induction false} CopyAbove(y: Sys, u: nat, r: Reader, x: Nid)
    requires Good(y) && Guard(y, CopyOne(u)) && r.Active? && ActiveOk(y, r)
    requires x in y.s && |y.s[x].pivots| > 0 && y.g[x].level > y.g[r.at].level && InRange(r.key, y.g[x].lo, y.g[x].hi)
    ensures var h := y.pushes[u];
            var s' := Copied(y.s, y.s[h.p].pivots[h.i].child, y.s[h.p].pivots[h.i].buf[h.pos]);
            && x in s' && |s'[x].pivots| > 0
            && (Here(s', x, r.key).Some? ==> Since(y.hist, r.start, r.key, Answer(Here(s', x, r.key))))
  {
    hide Good, Inv, Find, Here, Route, NodeOk, SameShape, Since;
    CopySetup(y, u);
    var h := y.pushes[u];
    var m := y.s[h.p].pivots[h.i].buf[h.pos];
    var c := y.s[h.p].pivots[h.i].child;
    var s' := Copied(y.s, c, m);
    CopiedElsewhere(y.s, c, m);
    CopiedNode(y.s, y.g, y.root, c, m, r.key);
    hide Copied;
    if x == c && r.key == m.key {
      NewOf(y.s, y.g, r.at, r.key, y.hist, r.start, h.p);
    } else {
      if x != c {
        HereSame(y.s, s', x, r.key);
      }
      if Here(y.s, x, r.key).Some? {
        NewOf(y.s, y.g, r.at, r.key, y.hist, r.start, x);
      }
    }
  }

  lemma {:induction false} CopyKeepsReader(y: Sys, u: nat, r: Reader)
    requires Good(y) && Guard(y, CopyOne(u)) && r.Active? && ActiveOk(y, r)
    ensures var y' := Apply(y, CopyOne(u));
            y'.s.Keys == y'.g.Keys && ActiveOk(y', r)
  {
    hide Good, Inv, Find, Here, Route, Since, NodeOk, Copied;
    CopySetup(y, u);
    var h := y.pushes[u];
    var m := y.s[h.p].pivots[h.i].buf[h.pos];
    var c := y.s[h.p].pivots[h.i].child;
    CopiedElsewhere(y.s, c, m);
    CopiedNode(y.s, y.g, y.root, c, m, r.key);
    CopyKeepsFound(y, u, r);
    var s' := Copied(y.s, c, m);
    forall x | x in s' && |s'[x].pivots| > 0 && y.g[x].level > y.g[r.at].level && InRange(r.key, y.g[x].lo, y.g[x].hi)
               && Here(s', x, r.key).Some?
      ensures Since(y.hist, r.start, r.key, Answer(Here(s', x, r.key)))
    {
      CopyAbove(y, u, r, x);
    }
  }

  lemma {:induction false} HereSame(s: Store, s': Store, x: Nid, k: Key)
    requires x in s && x in s' && s[x] == s'[x] && |s[x].pivots| > 0
    ensures Here(s', x, k) == Here(s, x, k)
  {
  }

  lemma {:induction false} CopyKeepsFound(y: Sys, u: nat, r: Reader)
    requires Good(y) && Guard(y, CopyOne(u)) && r.Active? && ActiveOk(y, r)
    ensures var h := y.pushes[u];
            var m := y.s[h.p].pivots[h.i].buf[h.pos];
            var s' := Copied(y.s, y.s[h.p].pivots[h.i].child, m);
            Since(y.hist, r.start, r.key, Answer(Find(s', r.at, y.g[r.at].level, r.key)))
  {
    hide Good, Inv, Find, Here, Route, Since;
    CopySetup(y, u);
    var h := y.pushes[u];
    var m := y.s[h.p].pivots[h.i].buf[h.pos];
    var c := y.s[h.p].pivots[h.i].child;
    hide Copied;
    if y.g[r.at].level >= y.g[h.p].level {
      CopiedKeepsFind(y.s, y.g, y.root, h.p, h.i, m, r.at, r.key);
    } else if r.at == c {
      FindInCopied(y.s, y.g, y.root, c, m, r.key);
      if r.key == m.key {
        NewOf(y.s, y.g, r.at, r.key, y.hist, r.start, h.p);
      }
    } else {
      FindBesideCopied(y.s, y.g, y.root, c, m, r.at, r.key);
    }
  }

  /** Another push's own buffer is locked, so the copy does not land in it. */
  lemma {:induction false} CopyLeavesBuffer(y: Sys, u: nat, v: nat)
    requires Good(y) && Guard(y, CopyOne(u)) && v in y.pushes && v != u
    ensures var y' := Apply(y, CopyOne(u));
            var w := y.pushes[v];
            && w.p in y.s && w.p in y'.s && w.i < |y.s[w.p].pivots| && w.i < |y'.s[w.p].pivots| && y.g[w.p].level > 0
            && y'.s[w.p].pivots[w.i] == y.s[w.p].pivots[w.i]
            && w.pos <= |y.s[w.p].pivots[w.i].buf|
            && (w.p != y.pushes[u].p || w.i != y.pushes[u].i)
  {
    hide Inv, Find, Here, ActiveOk, Route, InsertMsg;
    assert PushOk(y, y.pushes[v]);
    CopySetup(y, u);
    hide Good;
  }

  lemma {:induction false} CopyKeepsOtherPush(y: Sys, u: nat, v: nat)
    requires Good(y) && Guard(y, CopyOne(u)) && v in y.pushes && v != u
    ensures var y' := Apply(y, CopyOne(u));
            y'.s.Keys == y'.g.Keys && PushOk(y', y.pushes[v])
  {
    hide Inv, Find, Here, ActiveOk, Route, Copied;
    var w := y.pushes[v];
    var y' := Apply(y, CopyOne(u));
    assert PushOk(y, w);
    CopyLeavesBuffer(y, u, v);
    CopySetup(y, u);
    CopiedElsewhere(y.s, y.s[y.pushes[u].p].pivots[y.pushes[u].i].child,
                    y.s[y.pushes[u].p].pivots[y.pushes[u].i].buf[y.pushes[u].pos]);
    hide Good;
    forall t | 0 <= t < w.pos
      ensures CopyFound(y', w, t)
    {
      assert CopyFound(y, w, t);
      assert y.s[w.p].pivots[w.i].buf[t] in y.s[w.p].pivots[w.i].buf;
      CopyKeepsFoundFor(y, u, w.p, w.i, y.s[w.p].pivots[w.i].buf[t]);
    }
  }

  lemma {:induction false} CopyKeepsFoundFor(y: Sys, u: nat, p: Nid, i: nat, w: Msg)
    requires Good(y) && Guard(y, CopyOne(u)) && p in y.s && i < |y.s[p].pivots| && y.g[p].level > 0
    requires p != y.pushes[u].p || i != y.pushes[u].i
    requires w in y.s[p].pivots[i].buf
    ensures var h := y.pushes[u];
            var s' := Copied(y.s, y.s[h.p].pivots[h.i].child, y.s[h.p].pivots[h.i].buf[h.pos]);
            Find(s', y.s[p].pivots[i].child, y.g[p].level - 1, w.key)
                  == Find(y.s, y.s[p].pivots[i].child, y.g[p].level - 1, w.key)
  {
    hide Good, Inv, Find, Here, Route;
    CopySetup(y, u);
    var h := y.pushes[u];
    var m := y.s[h.p].pivots[h.i].buf[h.pos];
    var c := y.s[h.p].pivots[h.i].child;
    ChildAt(y.s, y.g, y.root, p, i);
    BufferedBelongs(y.s, y.g, y.root, p, i, w);
    var c2 := y.s[p].pivots[i].child;
    hide Copied;
    if y.g[c2].level >= y.g[h.p].level {
      CopiedKeepsFind(y.s, y.g, y.root, h.p, h.i, m, c2, w.key);
    } else {
      if c2 == c {
        ParentIsUnique(y.s, y.g, y.root, p, i, h.p, h.i, w.key);
      }
      FindBesideCopied(y.s, y.g, y.root, c, m, c2, w.key);
    }
  }

  lemma {:induction false} CopyOfOwnKey(y: Sys, u: nat, t: nat)
    requires Good(y) && Guard(y, CopyOne(u)) && t <= y.pushes[u].pos
    ensures var h := y.pushes[u];
            && h.p in y.s && h.i < |y.s[h.p].pivots| && h.pos < |y.s[h.p].pivots[h.i].buf| && y.g[h.p].level > 0
            && var ms := y.s[h.p].pivots[h.i].buf;
               var c := y.s[h.p].pivots[h.i].child;
               && c in y.s && |y.s[c].pivots| > 0
               && Find(Copied(y.s, c, ms[h.pos]), c, y.g[h.p].level - 1, ms[t].key)
                  == if t == h.pos then Some(ms[t]) else Find(y.s, c, y.g[h.p].level - 1, ms[t].key)
  {
    hide Good, Inv, Find, Here, Route;
    CopySetup(y, u);
    var h := y.pushes[u];
    var ms := y.s[h.p].pivots[h.i].buf;
    assert ms[t] in ms;
    BufferedBelongs(y.s, y.g, y.root, h.p, h.i, ms[t]);
    FindInCopied(y.s, y.g, y.root, y.s[h.p].pivots[h.i].child, ms[h.pos], ms[t].key);
    KeysDiffer(y.s, y.g, y.root, h.p, h.i, t, h.pos);
  }

  lemma {:induction false} CopyAdvances(y: Sys, u: nat)
    requires Good(y) && Guard(y, CopyOne(u))
    ensures var y' := Apply(y, CopyOne(u));
            y'.s.Keys == y'.g.Keys && PushOk(y', y'.pushes[u])
  {
    hide Inv, Find, Here, ActiveOk, Route, Copied;
    assert PushOk(y, y.pushes[u]);
    CopySetup(y, u);
    var h := y.pushes[u];
    var y' := Apply(y, CopyOne(u));
    CopiedElsewhere(y.s, y.s[h.p].pivots[h.i].child, y.s[h.p].pivots[h.i].buf[h.pos]);
    hide Good;
    forall t | 0 <= t < h.pos + 1
      ensures CopyFound(y', y'.pushes[u], t)
    {
      assert t < h.pos ==> CopyFound(y, h, t);
      CopyOfOwnKey(y, u, t);
    }
  }

  lemma {:induction false} KeysDiffer(s: Store, g: Layout, root: Nid, p: Nid, i: nat, a: nat, b: nat)
    requires Inv(s, g, root) && p in s && i < |s[p].pivots| && a <= b < |s[p].pivots[i].buf|
    ensures a == b || s[p].pivots[i].buf[a].key != s[p].pivots[i].buf[b].key
  {
    hide Inv;
    NodeIsOk(s, g, root, p);
    assert BufOk(s[p].pivots[i].buf, s[p].pivots[i].leftKey, Hi(s[p].pivots, i, g[p].hi));
    KeyOrder();
  }

  /** Reads that start at the root see what they saw before. */
  lemma {:induction false} SameView(y: Sys, y': Sys)
    requires Good(y) && y'.root == y.root && y'.g == y.g && y'.hist == y.hist
    requires forall k :: Find(y'.s, y.root, y.g[y.root].level, k) == Find(y.s, y.root, y.g[y.root].level, k)
    ensures ReadsLatest(y')
  {
    hide Inv, Find;
    forall k
      ensures Answer(View(y'.s, y'.g, y'.root, k)) == ValueIn(y'.hist[|y'.hist| - 1], k)
    {
      assert Answer(View(y.s, y.g, y.root, k)) == ValueIn(y.hist[|y.hist| - 1], k);
    }
  }

  lemma {:induction false} CopyIsLatest(y: Sys, u: nat)
    requires Good(y) && Guard(y, CopyOne(u))
    ensures var y' := Apply(y, CopyOne(u));
            y'.root in y'.g && |y'.hist| > 0 && ReadsLatest(y')
  {
    var y' := Apply(y, CopyOne(u));
    var h := y.pushes[u];
    var m := y.s[h.p].pivots[h.i].buf[h.pos];
    hide Inv, Find, Here, Route, ActiveOk, PushOk, Since, Copied, ReadsLatest;
    CopySetup(y, u);
    forall k
      ensures Find(y'.s, y.root, y.g[y.root].level, k) == Find(y.s, y.root, y.g[y.root].level, k)
    {
      RootIsForAll(y.s, y.g, y.root, k);
      RootIsTop(y.s, y.g, y.root, h.p);
      CopiedKeepsFind(y.s, y.g, y.root, h.p, h.i, m, y.root, k);
    }
    SameView(y, y');
  }

  lemma {:induction false} DoneStays(y: Sys, y': Sys, r: Reader)
    requires r.Done? && DoneOk(y, r) && y.hist <= y'.hist
    ensures DoneOk(y', r)
  {
    var t :| r.start <= t <= r.end && ValueIn(y.hist[t], r.key) == r.answer;
    assert y'.hist[t] == y.hist[t];
  }

  lemma {:induction false} CopyKeepsInv(y: Sys, u: nat)
    requires Good(y) && Guard(y, CopyOne(u))
    ensures var y' := Apply(y, CopyOne(u)); Inv(y'.s, y'.g, y'.root)
  {
    hide Inv, Find, Here, Route, ActiveOk, DoneOk, PushOk, Since, Copied, ReadsLatest;
    CopySetup(y, u);
    var h := y.pushes[u];
    CopiedKeepsInv(y.s, y.g, y.root, y.s[h.p].pivots[h.i].child, y.s[h.p].pivots[h.i].buf[h.pos]);
  }

  lemma {:induction false} CopyKeepsPushes(y: Sys, u: nat)
    requires Good(y) && Guard(y, CopyOne(u))
    ensures var y' := Apply(y, CopyOne(u));
            && y'.s.Keys == y'.g.Keys
            && (forall v :: v in y'.pushes ==> PushOk(y', y'.pushes[v]))
            && forall v, w :: v in y'.pushes && w in y'.pushes && v != w ==>
                 y'.pushes[v].p != y'.pushes[w].p || y'.pushes[v].i != y'.pushes[w].i
  {
    hide Inv, Find, Here, Route, ActiveOk, DoneOk, PushOk, Since, Copied, ReadsLatest;
    CopyKeepsInv(y, u);
    var y' := Apply(y, CopyOne(u));
    forall v | v in y'.pushes
      ensures y'.s.Keys == y'.g.Keys && PushOk(y', y'.pushes[v])
    {
      if v == u {
        CopyAdvances(y, u);
      } else {
        CopyKeepsOtherPush(y, u, v);
      }
    }
  }

  lemma {:induction false} CopyKeepsGood(y: Sys, u: nat)
    requires Good(y) && Guard(y, CopyOne(u))
    ensures Good(Apply(y, CopyOne(u)))
  {
    var y' := Apply(y, CopyOne(u));
    hide Inv, Find, Here, Route, ActiveOk, DoneOk, PushOk, Since, Copied, ReadsLatest;
    CopyKeepsInv(y, u);
    CopyIsLatest(y, u);
    CopyKeepsPushes(y, u);
    forall r | r in y.readers
      ensures if y.readers[r].Active? then ActiveOk(y', y.readers[r]) else DoneOk(y', y.readers[r])
    {
      if y.readers[r].Active? {
        CopyKeepsReader(y, u, y.readers[r]);
      } else {
        DoneStays(y, y', y.readers[r]);
      }
    }
  }

  lemma {:induction false} RootIsTop(s: Store, g: Layout, root: Nid, p: Nid)
    requires Inv(s, g, root) && p in s
    ensures g[p].level <= g[root].level
  {
  }
}
