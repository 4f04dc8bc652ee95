/**
 * A losing run with the threads that make it. A thread that has put a message goes on to split the leaf's
 * first buffer over the limit (src/Node.cpp:82-131), gives the leaf back, and then locks the path for the
 * first key that buffer had and splits its last node (src/Node.cpp:163, 188-197). In between others can
 * put and split.
 */
module TreeReadersThreads {
  import opened Keys
  import opened Msgs
  import opened TreeModel
  import opened TreeSplits
  import opened TreeSplitNode
  import opened TreeBalance
  import opened TreeOversized
  import opened TreeReaders
  import opened TreeReadersRuns
  import opened TreeReadersFit
  import opened TreeReadersLoss

  // ---------------------------------------------------------------- what threads can do

  /** The put that was just made is followed by its thread's split of the first buffer over the limit. */
  ghost predicate SplitByWriter(y: Sys, before: Step, st: Step, limit: nat)
    requires st.SplitLeaf?
  {
    && before.WriteRoot? && st.id == y.root && st.id in y.s && st.i < |y.s[st.id].pivots|
    && BufSize(y.s[st.id].pivots[st.i].buf) > limit
    && forall j :: 0 <= j < st.i ==> BufSize(y.s[st.id].pivots[j].buf) <= limit
  }

  /** The key that a thread about to split a buffer will lock the path for. */
  ghost predicate LocksPathFor(y: Sys, st: Step, k: Key) {
    && st.SplitLeaf? && st.id in y.s && st.i < |y.s[st.id].pivots|
    && y.s[st.id].pivots[st.i].buf != [] && y.s[st.id].pivots[st.i].buf[0].key == k
  }

  /** The node a step splits. */
  function NodeSplit(y: Sys, st: Step): Nid {
    if st.SplitBelow? then st.c else y.root
  }

  /** The node split is the leaf for the key k. */
  ghost predicate IsLeafFor(y: Sys, st: Step, k: Key) {
    var c := NodeSplit(y, st);
    c in y.s && c in y.g && y.s[c].isLeaf && InRange(k, y.g[c].lo, y.g[c].hi)
  }

  predicate SplitsNode(st: Step) {
    st.SplitBelow? || st.SplitRoot?
  }

  /** Step t is a node split by the thread that made the buffer split at step u. */
  ghost predicate SplitFor(b: seq<Sys>, sts: seq<Step>, t: nat, u: nat)
    requires t < |sts| < |b|
  {
    u < t && exists k :: LocksPathFor(b[u], sts[u], k) && IsLeafFor(b[t], sts[t], k)
  }

  /** Every split is made by a thread as it would: `who` has, for each node split, the buffer split of its
      thread, which is another one each time. */
  ghost predicate ByThreads(b: seq<Sys>, sts: seq<Step>, who: map<nat, nat>, limit: nat) {
    && |b| == |sts| + 1
    && (forall t :: 0 < t < |sts| && sts[t].SplitLeaf? ==> SplitByWriter(b[t], sts[t - 1], sts[t], limit))
    && (|sts| > 0 ==> !sts[0].SplitLeaf?)
    && (forall t :: 0 <= t < |sts| && SplitsNode(sts[t]) ==> t in who && SplitFor(b, sts, t, who[t]))
    && (forall t, u :: t in who && u in who && t != u ==> who[t] != who[u])
  }

  // ---------------------------------------------------------------- the leaf

  /** x in the first buffer, n - 1 empty pivots, and m alone in the last one's buffer. */
  function Lead(n: nat, x: Msg, m: Msg): seq<Pivot> {
    Parted(n, m)[0 := Pivot([], NID_NIL, [x])]
  }

  lemma {:induction false} TwoDelivered(x: Msg, m: Msg)
    requires Lt(x.key, m.key)
    ensures Deliver(Parted(0, x), m) == [Pivot([], NID_NIL, [x, m])]
  {
    assert InsertMsg([x], m) == [x, m] by {
      EmptyKeyIsLeast(m.key);
      assert LowerBound([x], m.key) == 1;
    }
    hide InsertMsg, Lt;
    assert Parted(0, x) == [Pivot([], NID_NIL, [x])];
  }

  lemma {:induction false} TwoSplit(x: Msg, m: Msg)
    requires m.key != []
    ensures Splittable([x, m]) && SplitPivot([Pivot([], NID_NIL, [x, m])], 0) == Lead(1, x, m)
  {
    var ps := [Pivot([], NID_NIL, [x, m])];
    assert [x, m][..1] == [x] && [x, m][1..] == [m];
    var qs := [Pivot([], NID_NIL, [x])];
    assert ps[0 := ps[0].(buf := [x])] == qs;
    PartedRoute(qs, m.key);
    assert AddPivot(qs, Pivot(m.key, NID_NIL, [m])) == Lead(1, x, m);
  }

  lemma {:induction false} LeadDelivered(n: nat, x: Msg, m: Msg)
    requires n > 0
    ensures Deliver(Lead(n, x, m), m) == Lead(n, x, m)
  {
    PartedRoute(Lead(n, x, m), m.key);
    EmptyKeyIsLeast(m.key);
    assert InsertMsg([m], m) == [m];
    hide InsertMsg, Route;
  }

  lemma {:induction false} LeadSplit(n: nat, x: Msg, m: Msg)
    requires n > 0 && m.key != []
    ensures Lead(n, x, m)[n].buf == [m] && Splittable([m])
    ensures SplitPivot(Lead(n, x, m), n) == Lead(n + 1, x, m)
  {
    var ps := Lead(n, x, m);
    var qs := ps[n := ps[n].(buf := [])];
    var pv := Pivot(m.key, NID_NIL, [m]);
    assert [m][..0] == [] && [m][0..] == [m];
    PartedRoute(qs, m.key);
    assert AddPivot(qs, pv) == qs + [pv];
    assert qs + [pv] == Lead(n + 1, x, m);
  }

  lemma LeadIsHeavy(x: Msg, m: Msg, M: nat)
    ensures Heavy(Lead(Cuts(M), x, m), m.key, M)
  {
  }

  // ---------------------------------------------------------------- the run

  /** What a plain map has held after x and then n puts of m. */
  function Hist(x: Msg, m: Msg, n: nat): seq<map<Key, Value>> {
    [map[], Applied(map[], x)] + seq(n, _ => Applied(Applied(map[], x), m))
  }

  lemma HistNext(x: Msg, m: Msg, n: nat)
    ensures var h := Hist(x, m, n);
            Hist(x, m, n + 1) == h + [Applied(h[|h| - 1], m)]
  {
    assert Applied(Applied(Applied(map[], x), m), m) == Applied(Applied(map[], x), m);
  }

  function ThreadState(x: Msg, m: Msg, M: nat, t: nat): Sys {
    var N := Cuts(M);
    if t == 0 then NewDatabase()
    else if t == 1 then PartedState(x, 0)
    else if t == 2 then LeafState([Pivot([], NID_NIL, [x, m])], Hist(x, m, 1))
    else if t <= 2 * N + 1 then LeafState(Lead((t - 1) / 2, x, m), Hist(x, m, t / 2))
    else if t == 2 * N + 2 then Rooted(Lead(N, x, m), Hist(x, m, N))
    else Lost(Lead(N, x, m), Hist(x, m, N))
  }

  function ThreadStep(x: Msg, m: Msg, M: nat, t: nat): Step {
    var N := Cuts(M);
    if t == 0 then WriteRoot(x)
    else if t == 2 * N + 1 then SplitRoot(2, 3)
    else if t > 2 * N + 1 then SplitBelow(3, 0, 1, 4)
    else if t % 2 == 1 then WriteRoot(m)
    else SplitLeaf(1, t / 2 - 1)
  }

  lemma {:induction false} SecondPut(x: Msg, m: Msg, M: nat, limit: nat)
    requires Lt(x.key, m.key)
    ensures Follows(PartedState(x, 0), WriteRoot(m), LeafState([Pivot([], NID_NIL, [x, m])], Hist(x, m, 1)),
                    iset{x, m}, M, limit)
  {
    hide Good, Parted, Deliver;
    PartedLength(0, x);
    TwoDelivered(x, m);
    HistNext(x, m, 0);
    assert Hist(x, m, 0) == [map[], Applied(map[], x)];
    hide Hist;
  }

  lemma OverTogether(x: Msg, m: Msg, limit: nat)
    requires !Fits(m, limit)
    ensures BufSize([x, m]) > limit && BufSize([m]) > limit
  {
    assert [x, m][1..] == [m];
  }

  lemma {:induction false} FirstSplit(x: Msg, m: Msg, M: nat, limit: nat)
    requires m.key != [] && !Fits(m, limit)
    ensures Follows(LeafState([Pivot([], NID_NIL, [x, m])], Hist(x, m, 1)), SplitLeaf(1, 0),
                    LeafState(Lead(1, x, m), Hist(x, m, 1)), iset{x, m}, M, limit)
  {
    hide Good, Lead, SplitPivot, Splittable, Hist, BufSize, Fits;
    TwoSplit(x, m);
    OverTogether(x, m, limit);
  }

  lemma {:induction false} NextPut(x: Msg, m: Msg, M: nat, limit: nat, n: nat)
    requires n > 0
    ensures Follows(LeafState(Lead(n, x, m), Hist(x, m, n)), WriteRoot(m), LeafState(Lead(n, x, m), Hist(x, m, n + 1)),
                    iset{x, m}, M, limit)
  {
    hide Good, Deliver;
    LeadDelivered(n, x, m);
    HistNext(x, m, n);
    assert |Lead(n, x, m)| == n + 1;
    hide Hist, Lead;
  }

  lemma {:induction false} NextSplit(x: Msg, m: Msg, M: nat, limit: nat, n: nat)
    requires n > 0 && m.key != [] && !Fits(m, limit)
    ensures Follows(LeafState(Lead(n, x, m), Hist(x, m, n + 1)), SplitLeaf(1, n),
                    LeafState(Lead(n + 1, x, m), Hist(x, m, n + 1)), iset{x, m}, M, limit)
  {
    hide Good, SplitPivot, Splittable, BufSize, Fits;
    LeadSplit(n, x, m);
    OverTogether(x, m, limit);
    assert |Lead(n, x, m)| == n + 1;
    hide Lead, Hist;
  }

  lemma {:induction false} ThreadFollows(x: Msg, m: Msg, M: nat, limit: nat, t: nat)
    requires Lt(x.key, m.key) && !Fits(m, limit) && t < 2 * Cuts(M) + 3
    ensures Follows(ThreadState(x, m, M, t), ThreadStep(x, m, M, t), ThreadState(x, m, M, t + 1), iset{x, m}, M, limit)
  {
    hide Follows, Fits, NewDatabase, PartedState, LeafState, Rooted, Lost, Heavy, Lead, Hist, Lt;
    EmptyKeyIsLeast(x.key);
    LeadIsHeavy(x, m, M);
    HeavyLength(Lead(Cuts(M), x, m), m.key, M);
    var N := Cuts(M);
    if t == 0 {
      PutFollows(x, iset{x, m}, M, limit);
    } else if t == 1 {
      SecondPut(x, m, M, limit);
    } else if t == 2 {
      FirstSplit(x, m, M, limit);
    } else if t == 2 * N + 1 {
      RootFollows(Lead(N, x, m), Hist(x, m, N), m.key, iset{x, m}, M, limit);
    } else if t > 2 * N + 1 {
      LastFollows(Lead(N, x, m), Hist(x, m, N), m.key, iset{x, m}, M, limit);
    } else if t % 2 == 1 {
      NextPut(x, m, M, limit, t / 2);
    } else {
      NextSplit(x, m, M, limit, t / 2 - 1);
    }
  }

  lemma HeavyLength(ps: seq<Pivot>, k: Key, M: nat)
    requires Heavy(ps, k, M)
    ensures |ps| == Cuts(M) + 1
  {
  }

  /** b and sts spell that run. */
  ghost predicate SpellsThreads(b: seq<Sys>, sts: seq<Step>, x: Msg, m: Msg, M: nat) {
    && |sts| == 2 * Cuts(M) + 3 && |b| == |sts| + 1
    && (forall t :: 0 <= t < |b| ==> b[t] == ThreadState(x, m, M, t))
    && forall t :: 0 <= t < |sts| ==> sts[t] == ThreadStep(x, m, M, t)
  }

  /** The second put's thread splits the lower half in the end; the thread after it splits the root. */
  function Splitters(M: nat): map<nat, nat> {
    map[2 * Cuts(M) + 1 := 4, 2 * Cuts(M) + 2 := 2]
  }

  /**
   * Whatever M and the limit are, a message that does not fit is lost beside one message of a smaller key
   * that does: both are put, and the buffer they are in is split by a thread that then waits with x's key;
   * others put m again, each splitting the buffer it is in; one of them splits the root; and then the first
   * thread splits the leaf for x's key.
   */
  lemma {:induction false} LosingRunByThreads(x: Msg, m: Msg, M: nat, limit: nat)
    returns (b: seq<Sys>, sts: seq<Step>, who: map<nat, nat>)
    requires Lt(x.key, m.key) && Fits(x, limit) && !Fits(m, limit)
    ensures FromNew(b, sts, iset{x, m}, M, limit) && ByThreads(b, sts, who, limit)
    ensures var y := b[|sts|]; !Good(y) && (m.Put? ==> |y.hist| > 0 && Loses(y, m.key))
  {
    var N := 2 * Cuts(M) + 3;
    b := seq(N + 1, t requires 0 <= t <= N => ThreadState(x, m, M, t));
    sts := seq(N, t requires 0 <= t < N => ThreadStep(x, m, M, t));
    who := Splitters(M);
    ThreadsRun(x, m, M, limit, b, sts);
    ThreadsLose(x, m, M, limit, b, sts);
    ThreadsMakeIt(x, m, M, limit, b, sts);
  }

  lemma {:induction false} ThreadsRun(x: Msg, m: Msg, M: nat, limit: nat, b: seq<Sys>, sts: seq<Step>)
    requires Lt(x.key, m.key) && !Fits(m, limit) && SpellsThreads(b, sts, x, m, M)
    ensures FromNew(b, sts, iset{x, m}, M, limit)
  {
    hide Good, Inv, TakesStep, Obeys, Fits, Quiet, NewDatabase, PartedState, LeafState, Rooted, Lost, ThreadStep;
    NewIsTidy(iset{x, m});
    forall t | 0 <= t < |sts|
      ensures TakesStep(b[t], sts[t], b[t + 1]) && Obeys(b[t], sts[t], iset{x, m}, M, limit)
    {
      hide ThreadState;
      ThreadFollows(x, m, M, limit, t);
      assert b[t] == ThreadState(x, m, M, t) && b[t + 1] == ThreadState(x, m, M, t + 1);
      assert sts[t] == ThreadStep(x, m, M, t);
    }
  }

  lemma {:induction false} ThreadsLose(x: Msg, m: Msg, M: nat, limit: nat, b: seq<Sys>, sts: seq<Step>)
    requires SpellsThreads(b, sts, x, m, M) && FromNew(b, sts, iset{x, m}, M, limit)
    ensures var y := b[|sts|]; !Good(y) && (m.Put? ==> |y.hist| > 0 && Loses(y, m.key))
  {
    hide Good, Inv, IsRun, Obeys, View, LeafState, Lead, Rooted, Lost, Heavy, NewDatabase, InPlaceUpTo;
    var n, N := |sts| - 1, Cuts(M);
    LeadIsHeavy(x, m, M);
    HeavyLength(Lead(N, x, m), m.key, M);
    assert b[n] == ThreadState(x, m, M, n) && b[n + 1] == ThreadState(x, m, M, n + 1)
           && sts[n] == ThreadStep(x, m, M, n);
    ThreadsInPlace(x, m, M, b, sts);
    EndsLost(b, sts, Lead(N, x, m), Hist(x, m, N), m.key, M);
    assert m.Put? ==> ValueIn(Hist(x, m, N)[N + 1], m.key) == Some(m.value);
  }

  lemma {:induction false} ThreadsInPlace(x: Msg, m: Msg, M: nat, b: seq<Sys>, sts: seq<Step>)
    requires SpellsThreads(b, sts, x, m, M)
    ensures InPlaceUpTo(b, sts, |sts| - 1)
  {
    hide Good, AtRangeEnd, ThreadState;
    forall t | 0 <= t < |sts| - 1
      ensures PutsInPlace(b[t], sts[t])
    {
      assert sts[t] == ThreadStep(x, m, M, t);
    }
  }

  // ---------------------------------------------------------------- its threads

  lemma {:induction false} ThreadsMakeIt(x: Msg, m: Msg, M: nat, limit: nat, b: seq<Sys>, sts: seq<Step>)
    requires Lt(x.key, m.key) && Fits(x, limit) && !Fits(m, limit) && SpellsThreads(b, sts, x, m, M)
    ensures ByThreads(b, sts, Splitters(M), limit)
  {
    hide Fits, ThreadState, SplitByWriter, SplitFor, Lt;
    EmptyKeyIsLeast(x.key);
    forall t | 0 <= t < |sts|
      ensures sts[t] == ThreadStep(x, m, M, t)
      ensures SplitsNode(sts[t]) ==> t in Splitters(M) && SplitFor(b, sts, t, Splitters(M)[t])
    {
      if t == 2 * Cuts(M) + 1 {
        RootSplitter(x, m, M, b, sts);
      } else if t == 2 * Cuts(M) + 2 {
        LeafSplitter(x, m, M, b, sts);
      }
    }
    forall t | 0 < t < |sts| && sts[t].SplitLeaf?
      ensures SplitByWriter(b[t], sts[t - 1], sts[t], limit)
    {
      assert b[t] == ThreadState(x, m, M, t) && sts[t - 1] == ThreadStep(x, m, M, t - 1);
      WriterSplits(x, m, M, limit, t);
    }
  }

  lemma {:induction false} WriterSplits(x: Msg, m: Msg, M: nat, limit: nat, t: nat)
    requires Fits(x, limit) && !Fits(m, limit) && 0 < t < 2 * Cuts(M) + 3 && ThreadStep(x, m, M, t).SplitLeaf?
    ensures SplitByWriter(ThreadState(x, m, M, t), ThreadStep(x, m, M, t - 1), ThreadStep(x, m, M, t), limit)
  {
    hide BufSize, Hist;
    OverTogether(x, m, limit);
    if t > 2 {
      var n := t / 2 - 1;
      forall j | 0 <= j < n
        ensures BufSize(Lead(n, x, m)[j].buf) <= limit
      {
        FitsAlone(x, limit);
      }
    }
  }

  lemma FitsAlone(x: Msg, limit: nat)
    requires Fits(x, limit)
    ensures BufSize([x]) <= limit && BufSize([]) <= limit
  {
  }

  lemma {:induction false} RootSplitter(x: Msg, m: Msg, M: nat, b: seq<Sys>, sts: seq<Step>)
    requires m.key != [] && SpellsThreads(b, sts, x, m, M)
    ensures SplitFor(b, sts, 2 * Cuts(M) + 1, 4)
  {
    hide Hist, Lt, Le;
    var t := 2 * Cuts(M) + 1;
    assert b[t] == ThreadState(x, m, M, t) && sts[t] == ThreadStep(x, m, M, t);
    assert b[4] == ThreadState(x, m, M, 4) && sts[4] == ThreadStep(x, m, M, 4);
    EmptyKeyIsLeast(m.key);
    assert sts[4] == SplitLeaf(1, 1) && b[4].s[1].pivots == Lead(1, x, m);
    assert LocksPathFor(b[4], sts[4], m.key);
    hide Lead;
    assert b[t] == LeafState(Lead(Cuts(M), x, m), Hist(x, m, Cuts(M)));
    assert IsLeafFor(b[t], sts[t], m.key);
  }

  lemma {:induction false} LeafSplitter(x: Msg, m: Msg, M: nat, b: seq<Sys>, sts: seq<Step>)
    requires Lt(x.key, m.key) && SpellsThreads(b, sts, x, m, M)
    ensures SplitFor(b, sts, 2 * Cuts(M) + 2, 2)
  {
    hide Hist, Lead, Rooted, Lt;
    var t, N := 2 * Cuts(M) + 2, Cuts(M);
    LeadIsHeavy(x, m, M);
    RootedShape(Lead(N, x, m), Hist(x, m, N), m.key, M);
    EmptyKeyIsLeast(x.key);
    assert b[t] == ThreadState(x, m, M, t) && sts[t] == ThreadStep(x, m, M, t);
    assert b[2] == ThreadState(x, m, M, 2) && sts[2] == ThreadStep(x, m, M, 2);
    assert LocksPathFor(b[2], sts[2], x.key) && IsLeafFor(b[t], sts[t], x.key);
  }
}
