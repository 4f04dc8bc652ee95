/** Where every message fits the limit, no split goes wrong, so every run keeps every read right. */
module TreeReadersFit {
  import opened Keys
  import opened Msgs
  import opened TreeModel
  import opened TreeSteps
  import opened TreeSplits
  import opened TreeSplitNode
  import opened TreeBalance
  import opened TreePushOne
  import opened TreeReaders
  import opened TreeReadersProof
  import opened TreeReadersSteps
  import opened TreeReadersRuns

  // ---------------------------------------------------------------- the messages a tree holds

  /** The pivots buffer messages of ms only. */
  ghost predicate AllFrom(ps: seq<Pivot>, ms: iset<Msg>) {
    forall i, m :: 0 <= i < |ps| && m in ps[i].buf ==> m in ms
  }

  ghost predicate StoreFrom(s: Store, ms: iset<Msg>) {
    forall x :: x in s ==> AllFrom(s[x].pivots, ms)
  }

  /** Each message can be held alone within the limit. One of the empty key need not be: no split is made
      at that key. */
  ghost predicate EachFits(ms: iset<Msg>, limit: nat) {
    forall m :: m in ms ==> m.key == [] || Fits(m, limit)
  }

  lemma {:induction false} DeliverFrom(ps: seq<Pivot>, m: Msg, lo: Key, hi: Option<Key>, ms: iset<Msg>)
    requires PivotsOk(ps, lo, hi) && AllFrom(ps, ms) && m in ms
    ensures AllFrom(Deliver(ps, m), ms)
  {
    BufferIsSorted(ps, Route(ps, m.key), lo, hi);
    hide PivotsOk;
    InsertedSorted(ps[Route(ps, m.key)].buf, m);
    hide InsertMsg, Sorted, Route;
  }

  lemma {:induction false} CopiedFrom(s: Store, g: Layout, root: Nid, c: Nid, m: Msg, ms: iset<Msg>)
    requires Inv(s, g, root) && c in s && StoreFrom(s, ms) && m in ms
    ensures |s[c].pivots| > 0 && StoreFrom(Copied(s, c, m), ms)
  {
    hide Inv;
    NodeIsOk(s, g, root, c);
    hide PivotsOk, AllFrom, Deliver;
    assert AllFrom(s[c].pivots, ms);
    DeliverFrom(s[c].pivots, m, g[c].lo, g[c].hi, ms);
  }

  lemma {:induction false} ClearedFrom(s: Store, p: Nid, i: nat, ms: iset<Msg>)
    requires p in s && i < |s[p].pivots| && StoreFrom(s, ms)
    ensures StoreFrom(Cleared(s, p, i), ms)
  {
    var s' := Cleared(s, p, i);
    forall x | x in s'
      ensures AllFrom(s'[x].pivots, ms)
    {
      assert AllFrom(s[x].pivots, ms);
    }
  }

  lemma {:induction false} AddPivotFrom(ps: seq<Pivot>, pv: Pivot, ms: iset<Msg>)
    requires |ps| > 0 && AllFrom(ps, ms) && AllFrom([pv], ms)
    ensures AllFrom(AddPivot(ps, pv), ms)
  {
    hide Route;
    var r := AddPivot(ps, pv);
    var q := Route(ps, pv.leftKey);
    forall i, m | 0 <= i < |r| && m in r[i].buf
      ensures m in ms
    {
      if i == q + 1 {
        assert m in [pv][0].buf;
      } else {
        assert m in ps[if i <= q then i else i - 1].buf;
      }
    }
  }

  lemma {:induction false} SplitPivotFrom(ps: seq<Pivot>, i: nat, ms: iset<Msg>)
    requires i < |ps| && |ps[i].buf| > 0 && AllFrom(ps, ms)
    ensures AllFrom(SplitPivot(ps, i), ms)
  {
    var l := ps[i].buf;
    var mid := |l| / 2;
    assert forall m :: m in l[..mid] || m in l[mid..] ==> m in l;
    var qs := ps[i := ps[i].(buf := l[..mid])];
    assert AllFrom(qs, ms);
    hide AddPivot;
    AddPivotFrom(qs, Pivot(l[mid].key, NID_NIL, l[mid..]), ms);
  }

  lemma {:induction false} HalveFrom(s: Store, c: Nid, d: Nid, ms: iset<Msg>)
    requires c in s && StoreFrom(s, ms)
    ensures StoreFrom(Halve(s, c, d), ms)
  {
    var cs, s' := s[c].pivots, Halve(s, c, d);
    assert AllFrom(cs, ms);
    assert forall j :: 0 <= j < |cs| - |cs| / 2 ==> cs[|cs| / 2..][j] == cs[|cs| / 2 + j];
    assert AllFrom(cs[..|cs| / 2], ms) && AllFrom(cs[|cs| / 2..], ms);
    hide AllFrom;
  }

  lemma {:induction false} SplitChildFrom(s: Store, p: Nid, c: Nid, d: Nid, ms: iset<Msg>)
    requires p in s && c in s && |s[p].pivots| > 0 && |s[c].pivots| > 0 && StoreFrom(s, ms)
    ensures StoreFrom(SplitChild(s, p, c, d), ms)
  {
    hide AddPivot, MiddleKey;
    HalveFrom(s, c, d, ms);
    assert AllFrom(s[p].pivots, ms);
    var pv := Pivot(MiddleKey(s[c].pivots), d, []);
    assert AllFrom([pv], ms);
    hide AllFrom;
    AddPivotFrom(s[p].pivots, pv, ms);
  }

  lemma {:induction false} GrowUpFrom(s: Store, c: Nid, d: Nid, r: Nid, ms: iset<Msg>)
    requires c in s && |s[c].pivots| > 0 && StoreFrom(s, ms)
    ensures StoreFrom(GrowUp(s, c, d, r), ms)
  {
    hide AddPivot, MiddleKey;
    HalveFrom(s, c, d, ms);
    var pv := Pivot(MiddleKey(s[c].pivots), d, []);
    assert AllFrom([pv], ms) && AllFrom([Pivot([], c, [])], ms);
    hide AllFrom;
    AddPivotFrom([Pivot([], c, [])], pv, ms);
  }

  lemma {:induction false} StepKeepsFrom(y: Sys, st: Step, ms: iset<Msg>)
    requires Good(y) && Guard(y, st) && StoreFrom(y.s, ms) && (st.WriteRoot? ==> st.m in ms)
    ensures StoreFrom(Apply(y, st).s, ms)
  {
    hide Inv, StoreFrom, ActiveOk, DoneOk, PushOk, ReadsLatest, Read, Pushing, Touches, BufLocked;
    hide SplitPivot, SplitChild, SplitLayout, GrowUp, GrowLayout, Copied, Cleared, Write;
    match st {
      case StartRead(_, _) =>
      case Look(_) =>
      case GoDown(_) =>
      case BeginPush(_, _, _) =>
      case WriteRoot(m) =>
        CopiedFrom(y.s, y.g, y.root, y.root, m, ms);
        WriteElsewhere(y.s, y.root, m);
      case CopyOne(u) =>
        CopySetup(y, u);
        var h := y.pushes[u];
        BufferedFrom(y.s, h.p, h.i, y.s[h.p].pivots[h.i].buf[h.pos], ms);
        CopiedFrom(y.s, y.g, y.root, y.s[h.p].pivots[h.i].child, y.s[h.p].pivots[h.i].buf[h.pos], ms);
      case EndPush(u) =>
        EndSetup(y, u);
        ClearedFrom(y.s, y.pushes[u].p, y.pushes[u].i, ms);
      case SplitLeaf(id, i) => LeafFrom(y.s, id, i, ms);
      case SplitBelow(p, j, c, d) => SplitChildFrom(y.s, p, c, d, ms);
      case SplitRoot(d, nr) => GrowUpFrom(y.s, y.root, d, nr, ms);
    }
  }

  lemma {:induction false} BufferedFrom(s: Store, p: Nid, i: nat, m: Msg, ms: iset<Msg>)
    requires StoreFrom(s, ms) && p in s && i < |s[p].pivots| && m in s[p].pivots[i].buf
    ensures m in ms
  {
    assert AllFrom(s[p].pivots, ms);
  }

  lemma {:induction false} LeafFrom(s: Store, id: Nid, i: nat, ms: iset<Msg>)
    requires StoreFrom(s, ms) && id in s && i < |s[id].pivots| && Splittable(s[id].pivots[i].buf)
    ensures StoreFrom(s[id := s[id].(pivots := SplitPivot(s[id].pivots, i))], ms)
  {
    hide SplitPivot, AllFrom;
    assert AllFrom(s[id].pivots, ms);
    SplitPivotFrom(s[id].pivots, i, ms);
  }

  // ---------------------------------------------------------------- strict order

  /** A leaf buffer is only split where it holds several messages. */
  ghost predicate SplitsSeveral(y: Sys, st: Step) {
    st.SplitLeaf? && st.id in y.s && st.i < |y.s[st.id].pivots| ==> |y.s[st.id].pivots[st.i].buf| >= 2
  }

  lemma {:induction false} ShapeKeepsStrict(y: Sys, x: Nid, n: NodeState)
    requires y.s.Keys == y.g.Keys && StoreStrict(y.s, y.g) && x in y.s && SameShape(n.pivots, y.s[x].pivots)
    ensures StoreStrict(y.s[x := n], y.g)
  {
    StrictSame(y.s, y.s[x := n], y.g);
  }

  lemma {:induction false} CopyKeepsStrict(y: Sys, u: nat)
    requires Good(y) && Guard(y, CopyOne(u)) && StoreStrict(y.s, y.g)
    ensures var y' := Apply(y, CopyOne(u)); y'.s.Keys == y'.g.Keys && StoreStrict(y'.s, y'.g)
  {
    hide Good, Inv, StoreStrict, NodeOk, SameShape, Deliver;
    CopySetup(y, u);
    var h := y.pushes[u];
    var m, c := y.s[h.p].pivots[h.i].buf[h.pos], y.s[h.p].pivots[h.i].child;
    CopiedNode(y.s, y.g, y.root, c, m, []);
    ShapeKeepsStrict(y, c, Copied(y.s, c, m)[c]);
  }

  lemma {:induction false} EndKeepsStrict(y: Sys, u: nat)
    requires Good(y) && Guard(y, EndPush(u)) && StoreStrict(y.s, y.g)
    ensures var y' := Apply(y, EndPush(u)); y'.s.Keys == y'.g.Keys && StoreStrict(y'.s, y'.g)
  {
    hide Good, Inv, StoreStrict, NodeOk, SameShape;
    EndSetup(y, u);
    var h := y.pushes[u];
    ClearedNode(y.s, y.g, y.root, h.p, h.i);
    ShapeKeepsStrict(y, h.p, Cleared(y.s, h.p, h.i)[h.p]);
  }

  lemma {:induction false} WriteKeepsStrict(y: Sys, m: Msg)
    requires Good(y) && Guard(y, WriteRoot(m)) && StoreStrict(y.s, y.g)
    ensures var y' := Apply(y, WriteRoot(m)); y'.s.Keys == y'.g.Keys && StoreStrict(y'.s, y'.g)
  {
    hide Good, Inv, StoreStrict, NodeOk, SameShape, Deliver;
    RootIsForAll(y.s, y.g, y.root, m.key);
    CopiedNode(y.s, y.g, y.root, y.root, m, []);
    ShapeKeepsStrict(y, y.root, Write(y.s, y.root, m)[y.root]);
  }

  lemma {:induction false} StepKeepsStrict(y: Sys, st: Step)
    requires Good(y) && Guard(y, st) && StoreStrict(y.s, y.g) && SplitsSeveral(y, st)
    ensures var y' := Apply(y, st); y'.s.Keys == y'.g.Keys && StoreStrict(y'.s, y'.g)
  {
    hide Inv, StoreStrict, ActiveOk, DoneOk, PushOk, ReadsLatest, Read, Pushing, Touches, BufLocked;
    hide SplitPivot, SplitChild, SplitLayout, GrowUp, GrowLayout, Copied, Cleared, Write;
    match st {
      case StartRead(_, _) =>
      case Look(_) =>
      case GoDown(_) =>
      case BeginPush(_, _, _) =>
      case WriteRoot(m) => WriteKeepsStrict(y, m);
      case CopyOne(u) => CopyKeepsStrict(y, u);
      case EndPush(u) => EndKeepsStrict(y, u);
      case SplitLeaf(id, i) => SplitLeafStrict(y.s, y.g, y.root, id, i);
      case SplitBelow(p, j, c, d) => SplitChildStrict(y.s, y.g, y.root, p, j, c, d);
      case SplitRoot(d, nr) =>
        RootIsHalved(y, d, nr);
        GrowUpStrict(y.s, y.g, y.root, d, nr);
    }
  }

  // ---------------------------------------------------------------- runs

  /** The step is one the code takes: it writes a message of ms, splits a leaf buffer that is over the
      limit, or splits a node that has more than M pivots. */
  ghost predicate Obeys(y: Sys, st: Step, ms: iset<Msg>, M: nat, limit: nat) {
    match st
    case WriteRoot(m) => m in ms
    case SplitLeaf(id, i) => id in y.s && i < |y.s[id].pivots| && BufSize(y.s[id].pivots[i].buf) > limit
    case SplitBelow(_, _, c, _) => c in y.s && |y.s[c].pivots| > M
    case SplitRoot(_, _) => y.root in y.s && |y.s[y.root].pivots| > M
    case _ => true
  }

  ghost predicate RunOf(b: seq<Sys>, sts: seq<Step>, ms: iset<Msg>, M: nat, limit: nat) {
    && IsRun(b, sts)
    && forall t :: 0 <= t < |sts| ==> Obeys(b[t], sts[t], ms, M, limit)
  }

  /** A tree as such runs make it: no leftKey repeats, and all messages are of ms. */
  ghost predicate Tidy(y: Sys, ms: iset<Msg>) {
    y.s.Keys == y.g.Keys && StoreStrict(y.s, y.g) && StoreFrom(y.s, ms)
  }

  /** Over the limit, a buffer of messages that each fit has two to part. */
  lemma {:induction false} SeveralOverLimit(l: seq<Msg>, ms: iset<Msg>, limit: nat)
    requires Splittable(l) && BufSize(l) > limit && EachFits(ms, limit) && forall m :: m in l ==> m in ms
    ensures |l| >= 2
  {
    if |l| == 1 {
      assert l == [l[0]] && l[0] in l;
    }
  }

  lemma {:induction false} ObeysSplitsSeveral(y: Sys, st: Step, ms: iset<Msg>, M: nat, limit: nat)
    requires Good(y) && Guard(y, st) && StoreFrom(y.s, ms) && Obeys(y, st, ms, M, limit) && EachFits(ms, limit)
    ensures SplitsSeveral(y, st)
  {
    hide Good, StoreFrom, EachFits, BufSize, Splittable, Read, Pushing;
    if st.SplitLeaf? {
      forall m | m in y.s[st.id].pivots[st.i].buf
        ensures m in ms
      {
        BufferedFrom(y.s, st.id, st.i, m, ms);
      }
      SeveralOverLimit(y.s[st.id].pivots[st.i].buf, ms, limit);
    }
  }

  lemma {:induction false} TidyInPlace(y: Sys, st: Step, ms: iset<Msg>)
    requires Good(y) && Tidy(y, ms)
    ensures !SplitsAtRangeEnd(y, st)
  {
    hide Good, StoreStrict, StoreFrom, InPlace, IsChild;
    if st.SplitBelow? && AtRangeEnd(y.s, y.g, st.p, st.j, st.c) {
      StrictInPlace(y.s, y.g, st.p, st.j, st.c);
      assert false;
    }
  }

  lemma {:induction false} StepKeepsTidy(y: Sys, st: Step, ms: iset<Msg>, M: nat, limit: nat)
    requires Good(y) && Guard(y, st) && Tidy(y, ms) && Obeys(y, st, ms, M, limit) && EachFits(ms, limit)
    ensures Good(Apply(y, st)) && Tidy(Apply(y, st), ms)
  {
    hide Good, Guard, Apply, StoreStrict, StoreFrom, EachFits, SplitsAtRangeEnd, BufSize;
    StepKeepsGood(y, st);
    TidyInPlace(y, st, ms);
    ObeysSplitsSeveral(y, st, ms, M, limit);
    StepKeepsStrict(y, st);
    StepKeepsFrom(y, st, ms);
  }

  /** Where each message written fits, every state is right, and no step splits at the end of a range. */
  lemma {:induction false} FitRunIsGood(b: seq<Sys>, sts: seq<Step>, ms: iset<Msg>, M: nat, limit: nat, n: nat)
    requires RunOf(b, sts, ms, M, limit) && Tidy(b[0], ms) && EachFits(ms, limit) && n < |b|
    ensures Good(b[n]) && Tidy(b[n], ms)
    ensures InPlaceUpTo(b, sts, n)
  {
    hide Inv, Find, Guard, Apply, Tidy, Obeys, EachFits, ReadsLatest, SplitsAtRangeEnd, TakesStep;
    if n == 0 {
      QuietIsGood(b[0]);
    } else {
      FitRunIsGood(b, sts, ms, M, limit, n - 1);
      hide Good, Quiet;
      var y, st := b[n - 1], sts[n - 1];
      assert TakesStep(y, st, b[n]) && Obeys(y, st, ms, M, limit);
      TakenStep(y, st, b[n]);
      StepKeepsTidy(y, st, ms, M, limit);
      TidyInPlace(y, st, ms);
    }
  }

  lemma QuietIsGood(y: Sys)
    requires Quiet(y)
    ensures Good(y)
  {
    hide Inv, ReadsLatest;
  }

  lemma TakenStep(y: Sys, st: Step, y': Sys)
    requires Good(y) && TakesStep(y, st, y')
    ensures Guard(y, st) && y' == Apply(y, st)
  {
    hide Good, Guard, Apply;
  }

  /** So every node below another can be split whenever its locks are free. */
  lemma {:induction false} NodesCanBeSplit(b: seq<Sys>, sts: seq<Step>, ms: iset<Msg>, M: nat, limit: nat,
                                           n: nat, p: Nid, j: nat, c: Nid)
    requires RunOf(b, sts, ms, M, limit) && Tidy(b[0], ms) && EachFits(ms, limit) && n < |b|
    requires p in b[n].s && c in b[n].s && j < |b[n].s[p].pivots|
    requires b[n].s[p].pivots[j].child == c && c != NID_NIL && |b[n].s[c].pivots| >= 2
    ensures b[n].s.Keys == b[n].g.Keys && InPlace(b[n].s, b[n].g, p, j, c)
  {
    hide Good, Inv, RunOf, EachFits, StoreStrict, InPlaceUpTo;
    FitRunIsGood(b, sts, ms, M, limit, n);
    NodeWithChildIsInner(b[n].s, b[n].g, b[n].root, p, j);
    StrictInPlace(b[n].s, b[n].g, p, j, c);
  }
}
