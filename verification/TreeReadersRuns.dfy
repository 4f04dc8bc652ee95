/** Node splits, the reader's own steps, and the theorem over runs: every read is linearizable. */
module TreeReadersRuns {
  import opened Keys
  import opened Msgs
  import opened TreeModel
  import opened TreeSteps
  import opened TreeSplitNode
  import opened TreeDrain
  import opened TreePushOne
  import opened TreeReaders
  import opened TreeReadersProof
  import opened TreeReadersSteps
  import opened TreeReadersSplits

  lemma {:induction false} BelowKeepsGood(y: Sys, p: Nid, j: nat, c: Nid, d: Nid)
    requires Good(y) && Guard(y, SplitBelow(p, j, c, d)) && InPlace(y.s, y.g, p, j, c)
    ensures Good(Apply(y, SplitBelow(p, j, c, d)))
  {
    var y' := Apply(y, SplitBelow(p, j, c, d));
    hide Inv, Find, Route, ActiveOk, PushOk, Since, SplitChild, Read, Pushing;
    SplitChildKeepsInv(y.s, y.g, y.root, p, j, c, d);
    BelowIsHalved(y, p, j, c, d);
    BelowIsLatest(y, p, j, c, d);
    hide ReadsLatest, SplitLayout, Halved;
    forall r | r in y.readers && y.readers[r].Active?
      ensures y'.s.Keys == y'.g.Keys && ActiveOk(y', y.readers[r])
    {
      NotHeld(y, p, r);
      NotHeld(y, c, r);
      BelowKeepsReader(y, p, j, c, d, y.readers[r]);
    }
    forall v | v in y'.pushes
      ensures y'.s.Keys == y'.g.Keys && PushOk(y', y'.pushes[v])
    {
      BelowKeepsPush(y, p, j, c, d, v);
    }
  }

  lemma {:induction false} BelowView(y: Sys, p: Nid, j: nat, c: Nid, d: Nid, k: Key)
    requires Good(y) && Guard(y, SplitBelow(p, j, c, d)) && InPlace(y.s, y.g, p, j, c)
    ensures |y.s[p].pivots| > 0
    ensures Find(SplitChild(y.s, p, c, d), y.root, y.g[y.root].level, k) == View(y.s, y.g, y.root, k)
    ensures y.root != c && y.root != d
  {
    hide Good, Inv, Find, SplitChild;
    ChildAt(y.s, y.g, y.root, p, j);
    RootIsTop(y.s, y.g, y.root, p);
    RootIsForAll(y.s, y.g, y.root, k);
    BelowFound(y, p, j, c, d, y.root, k);
  }

  lemma {:induction false} BelowIsLatest(y: Sys, p: Nid, j: nat, c: Nid, d: Nid)
    requires Good(y) && Guard(y, SplitBelow(p, j, c, d)) && InPlace(y.s, y.g, p, j, c)
    ensures var y' := Apply(y, SplitBelow(p, j, c, d));
            y'.root in y'.g && |y'.hist| > 0 && ReadsLatest(y')
  {
    hide Inv, Find, ActiveOk, PushOk, SplitChild, Read, Pushing, MiddleKey;
    var y' := Apply(y, SplitBelow(p, j, c, d));
    forall k
      ensures y'.root in y'.g && Answer(View(y'.s, y'.g, y'.root, k)) == ValueIn(y'.hist[|y'.hist| - 1], k)
    {
      BelowView(y, p, j, c, d, k);
      assert Answer(View(y.s, y.g, y.root, k)) == ValueIn(y.hist[|y.hist| - 1], k);
    }
    BelowView(y, p, j, c, d, []);
  }

  // ---------------------------------------------------------------- a new root

  lemma {:induction false} RootIsHalved(y: Sys, d: Nid, nr: Nid)
    requires Good(y) && Guard(y, SplitRoot(d, nr))
    ensures var s' := GrowUp(y.s, y.root, d, nr);
            var g' := GrowLayout(y.g, y.root, d, nr, MiddleKey(y.s[y.root].pivots));
            && Halved(y, y.root, d, s', g') && nr in s' && |s'[nr].pivots| > 0
            && (forall k :: Here(s', nr, k) == None)
            && (forall x :: x in y.s && x != y.root ==> x in s' && s'[x] == y.s[x])
            && s'.Keys == y.s.Keys + {d, nr}
  {
    hide Good, Inv, Route;
    var s' := GrowUp(y.s, y.root, d, nr);
    assert s'[nr].pivots == [Pivot([], y.root, []), Pivot(MiddleKey(y.s[y.root].pivots), d, [])];
    forall k
      ensures Here(s', nr, k) == None
    {
      LookupNothing(k);
    }
  }

  lemma {:induction false} ReaderNotAtRoot(y: Sys, r: Reader)
    requires Good(y) && r.Active? && ActiveOk(y, r) && r.held != y.root
    ensures r.at != y.root
  {
    hide Good, Inv, Find, Since, AboveIsNew;
    if r.at == y.root {
      NoParentOfRoot(y.s, y.g, y.root, r.held);
    }
  }

  lemma {:induction false} RootFound(y: Sys, d: Nid, nr: Nid, x: Nid, k: Key)
    requires Good(y) && Guard(y, SplitRoot(d, nr)) && x in y.s && x != y.root && InRange(k, y.g[x].lo, y.g[x].hi)
    ensures Find(GrowUp(y.s, y.root, d, nr), x, y.g[x].level, k) == Find(y.s, x, y.g[x].level, k)
  {
    hide Good, Inv, Find;
    RootIsHalved(y, d, nr);
    RootIsTop(y.s, y.g, y.root, x);
    hide GrowUp;
    FindSame(y.s, GrowUp(y.s, y.root, d, nr), y.g, y.root, x, k);
  }

  lemma {:induction false} RootKeepsReader(y: Sys, d: Nid, nr: Nid, r: Reader)
    requires Good(y) && Guard(y, SplitRoot(d, nr)) && r.Active? && ActiveOk(y, r) && r.held != y.root
    ensures var y' := Apply(y, SplitRoot(d, nr));
            y'.s.Keys == y'.g.Keys && ActiveOk(y', r)
  {
    hide Good, Inv, Find, Here, Route, Since, GrowUp, GrowLayout, MiddleKey, Halve;
    var y' := Apply(y, SplitRoot(d, nr));
    RootIsHalved(y, d, nr);
    ReaderNotAtRoot(y, r);
    RootFound(y, d, nr, r.at, r.key);
    forall x | x in y'.s && |y'.s[x].pivots| > 0 && y'.g[x].level > y'.g[r.at].level
               && InRange(r.key, y'.g[x].lo, y'.g[x].hi) && Here(y'.s, x, r.key).Some?
      ensures Since(y'.hist, r.start, r.key, Answer(Here(y'.s, x, r.key)))
    {
      if x in y.s && x != y.root {
        NodeIsOk(y.s, y.g, y.root, x);
        HereSame(y.s, y'.s, x, r.key);
      }
      HalvedKeepsAbove(y, y.root, d, y'.s, y'.g, r, x);
    }
  }

  lemma {:induction false} RootKeepsPush(y: Sys, d: Nid, nr: Nid, v: nat)
    requires Good(y) && Guard(y, SplitRoot(d, nr)) && v in y.pushes
    ensures var y' := Apply(y, SplitRoot(d, nr));
            y'.s.Keys == y'.g.Keys && PushOk(y', y.pushes[v])
  {
    hide Inv, Find, ActiveOk, GrowUp, GrowLayout, Halve, MiddleKey;
    var w := y.pushes[v];
    assert PushOk(y, w);
    NotTouched(y, y.root, v);
    RootIsHalved(y, d, nr);
    hide Good;
    var y' := Apply(y, SplitRoot(d, nr));
    forall t | 0 <= t < w.pos
      ensures CopyFound(y', w, t)
    {
      assert CopyFound(y, w, t);
      var b := y.s[w.p].pivots[w.i].buf[t];
      assert b in y.s[w.p].pivots[w.i].buf;
      ChildAt(y.s, y.g, y.root, w.p, w.i);
      BufferedBelongs(y.s, y.g, y.root, w.p, w.i, b);
      RootFound(y, d, nr, y.s[w.p].pivots[w.i].child, b.key);
    }
  }

  lemma {:induction false} RootIsLatest(y: Sys, d: Nid, nr: Nid)
    requires Good(y) && Guard(y, SplitRoot(d, nr))
    ensures var y' := Apply(y, SplitRoot(d, nr));
            y'.root in y'.g && |y'.hist| > 0 && ReadsLatest(y')
  {
    hide Inv, Find, Route, ActiveOk, PushOk, GrowUp, Read, Pushing, Since, Halved, Here, Lookup, Le, Lt;
    var y' := Apply(y, SplitRoot(d, nr));
    assert y'.g[nr].level == y.g[y.root].level + 1;
    forall k
      ensures Answer(View(y'.s, y'.g, y'.root, k)) == ValueIn(y'.hist[|y'.hist| - 1], k)
    {
      GrowUpKeepsView(y.s, y.g, y.root, d, nr, k);
      assert Answer(View(y.s, y.g, y.root, k)) == ValueIn(y.hist[|y.hist| - 1], k);
    }
  }

  lemma {:induction false} RootKeepsGood(y: Sys, d: Nid, nr: Nid)
    requires Good(y) && Guard(y, SplitRoot(d, nr))
    ensures Good(Apply(y, SplitRoot(d, nr)))
  {
    var y' := Apply(y, SplitRoot(d, nr));
    hide Inv, Find, Route, ActiveOk, PushOk, Since, GrowUp, GrowLayout, Read, Pushing, Halved, Here;
    GrowUpKeepsInv(y.s, y.g, y.root, d, nr);
    RootIsLatest(y, d, nr);
    hide ReadsLatest;
    forall r | r in y.readers && y.readers[r].Active?
      ensures y'.s.Keys == y'.g.Keys && ActiveOk(y', y.readers[r])
    {
      NotHeld(y, y.root, r);
      RootKeepsReader(y, d, nr, y.readers[r]);
    }
    forall v | v in y'.pushes
      ensures y'.s.Keys == y'.g.Keys && PushOk(y', y'.pushes[v])
    {
      RootKeepsPush(y, d, nr, v);
    }
  }

  // ---------------------------------------------------------------- the reader's own steps

  lemma {:induction false} StartIsOk(y: Sys, k: Key)
    requires Good(y)
    ensures ActiveOk(y, Active(k, y.root, y.root, |y.hist| - 1))
  {
    hide Inv, Find, ActiveOk, PushOk, Here;
    RootIsForAll(y.s, y.g, y.root, k);
    assert Answer(View(y.s, y.g, y.root, k)) == ValueIn(y.hist[|y.hist| - 1], k);
    forall x | x in y.s
      ensures y.g[x].level <= y.g[y.root].level
    {
      RootIsTop(y.s, y.g, y.root, x);
    }
    StartFields(y, k);
  }

  lemma {:induction false} StartFields(y: Sys, k: Key)
    requires y.s.Keys == y.g.Keys && y.root in y.s && |y.hist| > 0 && InRange(k, y.g[y.root].lo, y.g[y.root].hi)
    requires Answer(Find(y.s, y.root, y.g[y.root].level, k)) == ValueIn(y.hist[|y.hist| - 1], k)
    requires forall x :: x in y.s ==> y.g[x].level <= y.g[y.root].level
    ensures ActiveOk(y, Active(k, y.root, y.root, |y.hist| - 1))
  {
    hide Find, Here;
  }

  /** Finding the message ends the read with an answer that was right at some moment of it. */
  lemma {:induction false} LookEnds(y: Sys, r: Reader)
    requires Good(y) && r.Active? && ActiveOk(y, r) && r.held == r.at && |y.s[r.at].pivots| > 0
    requires Here(y.s, r.at, r.key).Some? || At(y.s[r.at].pivots, r.key).child == NID_NIL
    ensures DoneOk(y, Done(r.key, r.start, |y.hist| - 1, Answer(Here(y.s, r.at, r.key))))
  {
    hide Good, Inv, AboveIsNew;
    assert Find(y.s, r.at, y.g[r.at].level, r.key) == Here(y.s, r.at, r.key);
  }

  /** Finding nothing, the read turns to the child: nothing it passes by is older than its start. */
  lemma {:induction false} LookGoesOn(y: Sys, r: Reader)
    requires Good(y) && r.Active? && ActiveOk(y, r) && r.held == r.at && |y.s[r.at].pivots| > 0
    requires Here(y.s, r.at, r.key) == None && At(y.s[r.at].pivots, r.key).child != NID_NIL
    ensures ActiveOk(y, r.(at := At(y.s[r.at].pivots, r.key).child))
  {
    hide Good, Inv, Find, Lookup, Route, Since;
    NextLevel(y, r.at, r.key);
    var c := At(y.s[r.at].pivots, r.key).child;
    FindStep(y.s, r.at, y.g[r.at].level, r.key);
    forall x | x in y.s && |y.s[x].pivots| > 0 && y.g[x].level > y.g[c].level && InRange(r.key, y.g[x].lo, y.g[x].hi)
               && Here(y.s, x, r.key).Some?
      ensures Since(y.hist, r.start, r.key, Answer(Here(y.s, x, r.key)))
    {
      if y.g[x].level == y.g[r.at].level {
        OneNodePerKey(y.s, y.g, y.root, x, r.at, r.key);
      }
      NewOf(y.s, y.g, r.at, r.key, y.hist, r.start, x);
    }
  }

  lemma {:induction false} NextLevel(y: Sys, x: Nid, k: Key)
    requires Good(y) && x in y.s && |y.s[x].pivots| > 0 && InRange(k, y.g[x].lo, y.g[x].hi)
    requires At(y.s[x].pivots, k).child != NID_NIL
    ensures var c := At(y.s[x].pivots, k).child;
            y.g[x].level > 0 && c in y.s && y.g[c].level == y.g[x].level - 1 && InRange(k, y.g[c].lo, y.g[c].hi)
  {
    hide Good, Inv;
    if y.g[x].level == 0 {
      LeafHasNoChild(y.s, y.g, y.root, x, Route(y.s[x].pivots, k));
    } else {
      ChildOf(y.s, y.g, y.root, x, k);
    }
  }

  /** Changing readers only. */
  lemma {:induction false} ReadersChange(y: Sys, y': Sys)
    requires Good(y) && y' == y.(readers := y'.readers)
    requires forall r :: r in y'.readers ==>
               if y'.readers[r].Active? then ActiveOk(y, y'.readers[r]) else DoneOk(y, y'.readers[r])
    ensures Good(y')
  {
    hide Inv, Find, Here;
    forall v | v in y'.pushes
      ensures PushOk(y', y'.pushes[v])
    {
      assert PushOk(y, y.pushes[v]);
      forall t | 0 <= t < y.pushes[v].pos
        ensures CopyFound(y', y.pushes[v], t)
      {
        assert CopyFound(y, y.pushes[v], t);
      }
    }
  }

  lemma {:induction false} ReadStepKeepsGood(y: Sys, st: Step)
    requires Good(y) && Guard(y, st) && (st.StartRead? || st.Look? || st.GoDown?)
    ensures Good(Apply(y, st))
  {
    hide Inv, Find, ActiveOk, DoneOk, PushOk, BufLocked, Pushing, Here;
    var y' := Apply(y, st);
    forall r | r in y'.readers
      ensures if y'.readers[r].Active? then ActiveOk(y, y'.readers[r]) else DoneOk(y, y'.readers[r])
    {
      match st {
        case StartRead(q, k) =>
          StartIsOk(y, k);
        case Look(q) =>
          var rd := y.readers[q];
          AtIsNode(y, rd);
          if Here(y.s, rd.at, rd.key).Some? || At(y.s[rd.at].pivots, rd.key).child == NID_NIL {
            LookEnds(y, rd);
          } else {
            LookGoesOn(y, rd);
          }
        case GoDown(q) =>
          ArrivalIsOk(y, y.readers[q]);
      }
    }
    ReadersChange(y, y');
  }

  lemma {:induction false} AtIsNode(y: Sys, r: Reader)
    requires Good(y) && r.Active? && ActiveOk(y, r)
    ensures r.at in y.s
  {
    hide Good;
  }

  lemma {:induction false} ArrivalIsOk(y: Sys, r: Reader)
    requires Good(y) && r.Active? && ActiveOk(y, r)
    ensures ActiveOk(y, r.(held := r.at))
  {
    hide Good, Inv, Find, Here, Since;
  }

  lemma {:induction false} BeginKeepsGood(y: Sys, u: nat, p: Nid, i: nat)
    requires Good(y) && Guard(y, BeginPush(u, p, i))
    ensures Good(Apply(y, BeginPush(u, p, i)))
  {
    hide Inv, Find, Here;
    var y' := Apply(y, BeginPush(u, p, i));
    NodeWithChildIsInner(y.s, y.g, y.root, p, i);
    forall v | v in y'.pushes
      ensures PushOk(y', y'.pushes[v])
    {
      if v != u {
        assert PushOk(y, y.pushes[v]);
        forall t | 0 <= t < y.pushes[v].pos
          ensures CopyFound(y', y.pushes[v], t)
        {
          assert CopyFound(y, y.pushes[v], t);
        }
      }
    }
  }

  lemma {:induction false} NodeWithChildIsInner(s: Store, g: Layout, root: Nid, p: Nid, i: nat)
    requires Inv(s, g, root) && p in s && i < |s[p].pivots| && s[p].pivots[i].child != NID_NIL
    ensures g[p].level > 0
  {
    NodeIsOk(s, g, root, p);
    hide Inv, PivotsOk;
  }

  // ---------------------------------------------------------------- runs

  /** Every step keeps every read right, except a split at the end of a range, which never does. */
  lemma {:induction false} StepKeepsGood(y: Sys, st: Step)
    requires Good(y) && Guard(y, st)
    ensures Good(Apply(y, st)) <==> !SplitsAtRangeEnd(y, st)
  {
    hide *;
    OnlySplitBelow(y, st);
    match st {
      case StartRead(_, _) => ReadStepKeepsGood(y, st);
      case Look(_) => ReadStepKeepsGood(y, st);
      case GoDown(_) => ReadStepKeepsGood(y, st);
      case WriteRoot(m) => WriteKeepsGood(y, m);
      case BeginPush(u, p, i) => BeginKeepsGood(y, u, p, i);
      case CopyOne(u) => CopyKeepsGood(y, u);
      case EndPush(u) => EndKeepsGood(y, u);
      case SplitLeaf(id, i) => LeafKeepsGood(y, id, i);
      case SplitBelow(p, j, c, d) => BelowKeepsGoodIff(y, p, j, c, d);
      case SplitRoot(d, nr) => RootKeepsGood(y, d, nr);
    }
  }

  lemma OnlySplitBelow(y: Sys, st: Step)
    requires Good(y)
    ensures SplitsAtRangeEnd(y, st) ==> st.SplitBelow?
  {
    hide Good, AtRangeEnd;
  }

  lemma {:induction false} BelowKeepsGoodIff(y: Sys, p: Nid, j: nat, c: Nid, d: Nid)
    requires Good(y) && Guard(y, SplitBelow(p, j, c, d))
    ensures Good(Apply(y, SplitBelow(p, j, c, d))) <==> !SplitsAtRangeEnd(y, SplitBelow(p, j, c, d))
  {
    hide Inv, Find, ReadsLatest, ActiveOk, DoneOk, PushOk, SplitChild, SplitLayout, InPlace, Read, Pushing, MiddleKey;
    NotInPlace(y.s, y.g, p, j, c);
    if InPlace(y.s, y.g, p, j, c) {
      BelowKeepsGood(y, p, j, c, d);
    } else {
      RangeEndBreaksInv(y.s, y.g, y.root, p, j, c, d);
    }
  }

  /** A database nobody is using: any tree that answers as some plain map. */
  ghost predicate Quiet(y: Sys) {
    && Inv(y.s, y.g, y.root) && |y.hist| == 1 && ReadsLatest(y) && y.readers == map[] && y.pushes == map[]
  }

  /** Interleavings of any threads' steps, in any number. */
  ghost predicate IsRun(b: seq<Sys>, sts: seq<Step>) {
    && |b| == |sts| + 1 && Quiet(b[0])
    && forall n :: 0 <= n < |sts| ==> TakesStep(b[n], sts[n], b[n + 1])
  }

  ghost predicate TakesStep(y: Sys, st: Step, y': Sys) {
    Good(y) ==> Guard(y, st) && y' == Apply(y, st)
  }

  /** None of the first n steps is a split at the end of a range. */
  ghost predicate InPlaceUpTo(b: seq<Sys>, sts: seq<Step>, n: nat)
    requires n <= |sts| < |b|
  {
    forall t :: 0 <= t < n ==> PutsInPlace(b[t], sts[t])
  }

  ghost predicate PutsInPlace(y: Sys, st: Step) {
    Good(y) ==> !SplitsAtRangeEnd(y, st)
  }

  lemma {:induction false} RunIsGood(b: seq<Sys>, sts: seq<Step>, n: nat)
    requires IsRun(b, sts) && n < |b| && InPlaceUpTo(b, sts, n)
    ensures Good(b[n])
  {
    hide Inv, Find, Guard, Apply, ReadsLatest, SplitsAtRangeEnd;
    if n > 0 {
      RunIsGood(b, sts, n - 1);
      hide Good;
      assert TakesStep(b[n - 1], sts[n - 1], b[n]) && PutsInPlace(b[n - 1], sts[n - 1]);
      StepKeepsGood(b[n - 1], sts[n - 1]);
    }
  }

  /** A state is right as long as no split at the end of a range has been made, and wrong right after one. */
  lemma {:induction false} GoodUntilRangeEnd(b: seq<Sys>, sts: seq<Step>, n: nat)
    requires IsRun(b, sts) && n < |sts| && InPlaceUpTo(b, sts, n)
    ensures Good(b[n]) && (Good(b[n + 1]) <==> !SplitsAtRangeEnd(b[n], sts[n]))
  {
    hide Inv, Find, Guard, Apply, ReadsLatest, SplitsAtRangeEnd, Quiet;
    RunIsGood(b, sts, n);
    hide Good;
    assert TakesStep(b[n], sts[n], b[n + 1]);
    StepKeepsGood(b[n], sts[n]);
  }

  /** A finished read answered what the history held at some moment between its start and its end. */
  lemma {:induction false} DoneReadIsRight(b: seq<Sys>, sts: seq<Step>, n: nat, r: Rid)
    requires IsRun(b, sts) && n < |b| && InPlaceUpTo(b, sts, n) && r in b[n].readers && b[n].readers[r].Done?
    ensures var rd := b[n].readers[r];
            && rd.start <= rd.end < |b[n].hist|
            && exists t :: rd.start <= t <= rd.end && ValueIn(b[n].hist[t], rd.key) == rd.answer
  {
    RunIsGood(b, sts, n);
    assert DoneOk(b[n], b[n].readers[r]);
  }
}
