/** Where a message does not fit the limit, there is a run that loses it; so the runs of a set of messages
    are all right exactly where each of them fits. */
module TreeReadersLoss {
  import opened Keys
  import opened Msgs
  import opened TreeModel
  import opened TreeSplits
  import opened TreeSplitNode
  import opened TreeBalance
  import opened TreeDrain
  import opened TreeState
  import opened TreeOversized
  import opened TreeReaders
  import opened TreeReadersRuns
  import opened TreeReadersFit

  /** Nobody has used the database yet. */
  function NewDatabase(): Sys {
    Sys(Fresh().s, Fresh().g, 1, [map[]], map[], map[])
  }

  lemma {:induction false} NewIsTidy(ms: iset<Msg>)
    ensures Quiet(NewDatabase()) && Tidy(NewDatabase(), ms)
  {
    var y := NewDatabase();
    FreshIsSound(2, 4, []);
    forall k
      ensures Answer(View(y.s, y.g, y.root, k)) == ValueIn(y.hist[0], k)
    {
      FreshIsSound(2, 4, k);
    }
    hide Inv, Fan, StoreKnown, View;
  }

  // ---------------------------------------------------------------- the states of the losing run

  /** The first leaf has M + 2 pivots left when the root is split, so it can be split itself. */
  function Cuts(M: nat): nat {
    2 * M + 3
  }

  /** A database of one leaf. */
  function LeafState(ps: seq<Pivot>, hist: seq<map<Key, Value>>): Sys {
    Sys(map[1 := NodeState(true, ps)], Fresh().g, 1, hist, map[], map[])
  }

  /** Its root is split. */
  function Rooted(ps: seq<Pivot>, hist: seq<map<Key, Value>>): Sys
    requires |ps| > 0
  {
    var y := LeafState(ps, hist);
    y.(s := GrowUp(y.s, 1, 2, 3), g := GrowLayout(y.g, 1, 2, 3, MiddleKey(ps)), root := 3)
  }

  /** And then its first leaf. */
  function Lost(ps: seq<Pivot>, hist: seq<map<Key, Value>>): Sys
    requires |ps| >= 2
  {
    var y := Rooted(ps, hist);
    y.(s := SplitChild(y.s, 3, 1, 4), g := SplitLayout(y.g, 1, 4, MiddleKey(y.s[1].pivots)))
  }

  /** The leaf has as many pivots as that takes, all but the first with one and the same leftKey. */
  ghost predicate Heavy(ps: seq<Pivot>, k: Key, M: nat) {
    |ps| == Cuts(M) + 1 && forall i :: 0 <= i < |ps| ==> ps[i].leftKey == LeftKey(i, k)
  }

  lemma {:induction false} RootedShape(ps: seq<Pivot>, hist: seq<map<Key, Value>>, k: Key, M: nat)
    requires Heavy(ps, k, M)
    ensures var y := Rooted(ps, hist);
            && y.s.Keys == y.g.Keys == {1, 2, 3} && MiddleKey(ps) == k
            && y.s[3].pivots == [Pivot([], 1, []), Pivot(k, 2, [])]
            && y.s[1] == NodeState(true, ps[..M + 2]) && MiddleKey(y.s[1].pivots) == k
            && y.g[1] == Info(0, [], Some(k)) && y.g[3] == Info(1, [], None)
  {
    assert ps[..M + 2][(M + 2) / 2].leftKey == k;
  }

  /** m has been put, and its buffer has been split n times. */
  function PartedState(m: Msg, n: nat): Sys {
    LeafState(Parted(n, m), [map[], Applied(map[], m)])
  }

  lemma PartedIsHeavy(m: Msg, M: nat)
    ensures Heavy(Parted(Cuts(M), m), m.key, M)
  {
  }

  function StateAt(m: Msg, M: nat, t: nat): Sys {
    var y := PartedState(m, Cuts(M));
    if t == 0 then NewDatabase()
    else if t <= Cuts(M) + 1 then PartedState(m, t - 1)
    else if t == Cuts(M) + 2 then Rooted(y.s[1].pivots, y.hist)
    else Lost(y.s[1].pivots, y.hist)
  }

  function StepAt(m: Msg, M: nat, t: nat): Step {
    if t == 0 then WriteRoot(m)
    else if t <= Cuts(M) then SplitLeaf(1, t - 1)
    else if t == Cuts(M) + 1 then SplitRoot(2, 3)
    else SplitBelow(3, 0, 1, 4)
  }

  // ---------------------------------------------------------------- its steps

  /** The step is taken, and is one the code takes. */
  ghost predicate Follows(y: Sys, st: Step, y': Sys, ms: iset<Msg>, M: nat, limit: nat) {
    TakesStep(y, st, y') && Obeys(y, st, ms, M, limit)
  }

  lemma {:induction false} PutFollows(m: Msg, ms: iset<Msg>, M: nat, limit: nat)
    requires m in ms
    ensures Follows(NewDatabase(), WriteRoot(m), PartedState(m, 0), ms, M, limit)
  {
    hide Good, Parted, Deliver;
    FirstDelivered(m);
  }

  lemma {:induction false} CutFollows(m: Msg, M: nat, limit: nat, n: nat)
    requires m.key != [] && !Fits(m, limit)
    ensures Follows(PartedState(m, n), SplitLeaf(1, n), PartedState(m, n + 1), iset{m}, M, limit)
  {
    hide Good, Parted, SplitPivot, Splittable;
    PartedSplit(n, m);
    PartedLength(n, m);
  }

  lemma {:induction false} RootFollows(ps: seq<Pivot>, hist: seq<map<Key, Value>>, k: Key, ms: iset<Msg>, M: nat,
                                       limit: nat)
    requires Heavy(ps, k, M)
    ensures Follows(LeafState(ps, hist), SplitRoot(2, 3), Rooted(ps, hist), ms, M, limit)
  {
    hide Good, GrowUp, GrowLayout, MiddleKey;
  }

  lemma {:induction false} LastFollows(ps: seq<Pivot>, hist: seq<map<Key, Value>>, k: Key, ms: iset<Msg>, M: nat,
                                       limit: nat)
    requires Heavy(ps, k, M)
    ensures Follows(Rooted(ps, hist), SplitBelow(3, 0, 1, 4), Lost(ps, hist), ms, M, limit)
  {
    hide Good, SplitChild, SplitLayout;
    RootedShape(ps, hist, k, M);
    hide Rooted, MiddleKey;
  }

  lemma {:induction false} EachFollows(m: Msg, M: nat, limit: nat, t: nat)
    requires m.key != [] && !Fits(m, limit) && t < Cuts(M) + 3
    ensures Follows(StateAt(m, M, t), StepAt(m, M, t), StateAt(m, M, t + 1), iset{m}, M, limit)
  {
    hide Follows, Fits, NewDatabase, LeafState, Parted, Rooted, Lost, Heavy;
    var y := PartedState(m, Cuts(M));
    PartedFields(m, Cuts(M));
    PartedIsHeavy(m, M);
    if t == 0 {
      PutFollows(m, iset{m}, M, limit);
    } else if t <= Cuts(M) {
      CutFollows(m, M, limit, t - 1);
    } else if t == Cuts(M) + 1 {
      RootFollows(y.s[1].pivots, y.hist, m.key, iset{m}, M, limit);
    } else {
      LastFollows(y.s[1].pivots, y.hist, m.key, iset{m}, M, limit);
    }
  }

  lemma PartedFields(m: Msg, n: nat)
    ensures var y := PartedState(m, n);
            1 in y.s && y.s[1].pivots == Parted(n, m) && y.hist == [map[], Applied(map[], m)]
                && |y.s[1].pivots| == n + 1
  {
  }

  // ---------------------------------------------------------------- the loss

  /** The runs of a new database. */
  ghost predicate FromNew(b: seq<Sys>, sts: seq<Step>, ms: iset<Msg>, M: nat, limit: nat) {
    RunOf(b, sts, ms, M, limit) && b[0] == NewDatabase()
  }

  /** A read of k that starts now answers otherwise than a plain map would. */
  ghost predicate Loses(y: Sys, k: Key)
    requires |y.hist| > 0
  {
    y.root in y.g && Answer(View(y.s, y.g, y.root, k)) != ValueIn(y.hist[|y.hist| - 1], k)
  }

  lemma {:induction false} RootedAtRangeEnd(ps: seq<Pivot>, hist: seq<map<Key, Value>>, k: Key, M: nat)
    requires Heavy(ps, k, M)
    ensures var y := Rooted(ps, hist); y.s.Keys == y.g.Keys && AtRangeEnd(y.s, y.g, 3, 0, 1)
  {
    RootedShape(ps, hist, k, M);
    EmptyKeyIsLeast(k);
    hide Rooted, MiddleKey, Lt;
  }

  lemma {:induction false} LostAtEnd(ps: seq<Pivot>, hist: seq<map<Key, Value>>, k: Key, M: nat)
    requires Heavy(ps, k, M) && Inv(Rooted(ps, hist).s, Rooted(ps, hist).g, 3)
    ensures var y := Lost(ps, hist);
            y.root == 3 && 3 in y.g && y.hist == hist && View(y.s, y.g, 3, k) == None
  {
    hide Inv, SplitChild, Find, Route;
    RootedShape(ps, hist, k, M);
    RootedAtRangeEnd(ps, hist, k, M);
    EmptyKeyIsLeast(k);
    var y := Rooted(ps, hist);
    assert y.hist == hist && y.root == 3;
    SplitAtRangeEnd(y.s, y.g, 3, 3, 0, 1, 4, k);
    hide Rooted, MiddleKey;
  }

  /** A run that ends with these two splits ends in a state that is not right. */
  lemma {:induction false} EndsLost(b: seq<Sys>, sts: seq<Step>, ps: seq<Pivot>, hist: seq<map<Key, Value>>, k: Key,
                                    M: nat)
    requires IsRun(b, sts) && |sts| > 0 && InPlaceUpTo(b, sts, |sts| - 1) && Heavy(ps, k, M)
    requires b[|sts| - 1] == Rooted(ps, hist) && b[|sts|] == Lost(ps, hist) && sts[|sts| - 1] == SplitBelow(3, 0, 1, 4)
    requires |hist| > 0
    ensures !Good(b[|sts|]) && (ValueIn(hist[|hist| - 1], k).Some? ==> |b[|sts|].hist| > 0 && Loses(b[|sts|], k))
  {
    hide Good, Inv, TakesStep, Quiet, AtRangeEnd, Rooted, Lost, MiddleKey, View, InPlaceUpTo;
    var n := |sts| - 1;
    RootedAtRangeEnd(ps, hist, k, M);
    GoodUntilRangeEnd(b, sts, n);
    GoodIsInv(b[n]);
    RootedRoot(ps, hist);
    LostAtEnd(ps, hist, k, M);
  }

  lemma RootedRoot(ps: seq<Pivot>, hist: seq<map<Key, Value>>)
    requires |ps| > 0
    ensures Rooted(ps, hist).root == 3
  {
  }

  /**
   * Whatever M and the limit are, a message that does not fit, of any key but the empty one, is enough for
   * a run from a new database to a state that is not right: its put, so many splits of its buffer that
   * both halves of the root split are due for a split again, the root's split, and that of the lower
   * half. If it was a put, no read of its key finds it any more.
   */
  lemma {:induction false} LosingRun(m: Msg, M: nat, limit: nat) returns (b: seq<Sys>, sts: seq<Step>)
    requires m.key != [] && !Fits(m, limit)
    ensures FromNew(b, sts, iset{m}, M, limit)
    ensures var y := b[|sts|]; !Good(y) && (m.Put? ==> |y.hist| > 0 && Loses(y, m.key))
  {
    var N := Cuts(M) + 3;
    b := seq(N + 1, t requires 0 <= t <= N => StateAt(m, M, t));
    sts := seq(N, t requires 0 <= t < N => StepAt(m, M, t));
    LosingRunRuns(m, M, limit, b, sts);
    LosingRunLoses(m, M, limit, b, sts);
  }

  /** b and sts spell the losing run. */
  ghost predicate Spells(b: seq<Sys>, sts: seq<Step>, m: Msg, M: nat)
    requires m.key != []
  {
    && |sts| == Cuts(M) + 3 && |b| == |sts| + 1
    && (forall t :: 0 <= t < |b| ==> b[t] == StateAt(m, M, t))
    && forall t :: 0 <= t < |sts| ==> sts[t] == StepAt(m, M, t)
  }

  lemma {:induction false} LosingRunRuns(m: Msg, M: nat, limit: nat, b: seq<Sys>, sts: seq<Step>)
    requires m.key != [] && !Fits(m, limit) && Spells(b, sts, m, M)
    ensures FromNew(b, sts, iset{m}, M, limit)
  {
    hide Good, Inv, TakesStep, Obeys, Fits, Quiet, NewDatabase, PartedState, Rooted, Lost, StepAt;
    NewIsTidy(iset{m});
    forall t | 0 <= t < |sts|
      ensures TakesStep(b[t], sts[t], b[t + 1]) && Obeys(b[t], sts[t], iset{m}, M, limit)
    {
      hide StateAt;
      EachFollows(m, M, limit, t);
      assert b[t] == StateAt(m, M, t) && b[t + 1] == StateAt(m, M, t + 1) && sts[t] == StepAt(m, M, t);
    }
  }

  lemma {:induction false} LosingRunLoses(m: Msg, M: nat, limit: nat, b: seq<Sys>, sts: seq<Step>)
    requires m.key != [] && Spells(b, sts, m, M) && FromNew(b, sts, iset{m}, M, limit)
    ensures var y := b[|sts|]; !Good(y) && (m.Put? ==> |y.hist| > 0 && Loses(y, m.key))
  {
    hide Good, Inv, IsRun, Obeys, View, LeafState, Parted, Rooted, Lost, Heavy, NewDatabase, InPlaceUpTo;
    var y, n := PartedState(m, Cuts(M)), |sts| - 1;
    PartedFields(m, Cuts(M));
    PartedIsHeavy(m, M);
    assert b[n] == StateAt(m, M, n) && b[n + 1] == StateAt(m, M, n + 1) && sts[n] == StepAt(m, M, n);
    AllInPlaceBefore(b, sts, m, M);
    EndsLost(b, sts, Parted(Cuts(M), m), y.hist, m.key, M);
  }

  lemma {:induction false} AllInPlaceBefore(b: seq<Sys>, sts: seq<Step>, m: Msg, M: nat)
    requires m.key != [] && Spells(b, sts, m, M)
    ensures InPlaceUpTo(b, sts, |sts| - 1)
  {
    hide Good, AtRangeEnd, StateAt;
    forall t | 0 <= t < |sts| - 1
      ensures PutsInPlace(b[t], sts[t])
    {
      assert sts[t] == StepAt(m, M, t);
    }
  }

  lemma GoodIsInv(y: Sys)
    ensures Good(y) ==> Inv(y.s, y.g, y.root)
  {
  }

  // ---------------------------------------------------------------- exactly when all runs are right

  ghost predicate AllRunsGood(ms: iset<Msg>, M: nat, limit: nat) {
    forall b, sts :: FromNew(b, sts, ms, M, limit) ==> AllGood(b)
  }

  ghost predicate AllGood(b: seq<Sys>) {
    forall n :: 0 <= n < |b| ==> Good(b[n])
  }

  /** No run ends where a read would miss what was written. */
  ghost predicate NoRunLoses(ms: iset<Msg>, M: nat, limit: nat) {
    forall b, sts :: FromNew(b, sts, ms, M, limit) ==> LosesNothing(b[|sts|])
  }

  ghost predicate LosesNothing(y: Sys) {
    |y.hist| > 0 && forall k :: !Loses(y, k)
  }

  lemma {:induction false} MoreToWrite(b: seq<Sys>, sts: seq<Step>, ms: iset<Msg>, more: iset<Msg>, M: nat, limit: nat)
    requires FromNew(b, sts, ms, M, limit) && ms <= more
    ensures FromNew(b, sts, more, M, limit)
  {
    hide Quiet, TakesStep, BufSize, NewDatabase;
    forall t | 0 <= t < |sts|
      ensures Obeys(b[t], sts[t], more, M, limit)
    {
      assert Obeys(b[t], sts[t], ms, M, limit);
    }
  }

  /** Every state of every run from a new database is right exactly where each message written fits, except
      that those of the empty key need not. */
  lemma {:induction false} AllRunsGoodIff(ms: iset<Msg>, M: nat, limit: nat)
    ensures AllRunsGood(ms, M, limit) <==> EachFits(ms, limit)
  {
    hide FromNew, Good, Fits, Loses;
    if EachFits(ms, limit) {
      forall b, sts | FromNew(b, sts, ms, M, limit)
        ensures AllGood(b)
      {
        FitIsGood(b, sts, ms, M, limit);
      }
    }
    forall m | m in ms && m.key != [] && !Fits(m, limit)
      ensures !AllRunsGood(ms, M, limit)
    {
      var b, sts := LosingRun(m, M, limit);
      RunLength(b, sts, iset{m}, M, limit);
      MoreToWrite(b, sts, iset{m}, ms, M, limit);
      assert !AllGood(b);
    }
  }

  lemma {:induction false} FitIsGood(b: seq<Sys>, sts: seq<Step>, ms: iset<Msg>, M: nat, limit: nat)
    requires FromNew(b, sts, ms, M, limit) && EachFits(ms, limit)
    ensures AllGood(b)
  {
    hide Good, RunOf, EachFits, NewDatabase, Tidy, InPlaceUpTo, Quiet;
    NewIsTidy(ms);
    forall n | 0 <= n < |b|
      ensures Good(b[n])
    {
      FitRunIsGood(b, sts, ms, M, limit, n);
    }
  }

  lemma RunLength(b: seq<Sys>, sts: seq<Step>, ms: iset<Msg>, M: nat, limit: nat)
    requires FromNew(b, sts, ms, M, limit)
    ensures |b| == |sts| + 1
  {
    hide Quiet, TakesStep, Obeys, NewDatabase;
  }

  /** No run misses a write where each message fits; where a put does not, one does. */
  lemma {:induction false} NoRunLosesIf(ms: iset<Msg>, M: nat, limit: nat)
    ensures EachFits(ms, limit) ==> NoRunLoses(ms, M, limit)
    ensures NoRunLoses(ms, M, limit) ==> forall m :: m in ms && m.Put? ==> m.key == [] || Fits(m, limit)
  {
    hide FromNew, Good, Fits, Loses;
    if EachFits(ms, limit) {
      forall b, sts | FromNew(b, sts, ms, M, limit)
        ensures |b| == |sts| + 1 && LosesNothing(b[|sts|])
      {
        RunLength(b, sts, ms, M, limit);
        FitIsGood(b, sts, ms, M, limit);
        GoodLosesNothing(b[|sts|]);
      }
    }
    forall m | m in ms && m.Put? && m.key != [] && !Fits(m, limit)
      ensures !NoRunLoses(ms, M, limit)
    {
      var b, sts := LosingRun(m, M, limit);
      RunLength(b, sts, iset{m}, M, limit);
      MoreToWrite(b, sts, iset{m}, ms, M, limit);
      assert !LosesNothing(b[|sts|]);
    }
  }

  lemma {:induction false} GoodLosesNothing(y: Sys)
    requires Good(y)
    ensures LosesNothing(y)
  {
    hide Inv, View, ActiveOk, DoneOk, PushOk;
    forall k
      ensures !Loses(y, k)
    {
      assert Answer(View(y.s, y.g, y.root, k)) == ValueIn(y.hist[|y.hist| - 1], k);
    }
  }
}
