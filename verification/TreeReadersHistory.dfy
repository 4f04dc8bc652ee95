/**
 * What reads answer over whole runs, told by the steps alone: which writes were made, when a read was
 * started and which nodes it looked at.
 */
module TreeReadersHistory {
  import opened Keys
  import opened Msgs
  import opened TreeModel
  import opened TreeSteps
  import opened TreeReaders
  import opened TreeReadersRuns
  import opened TreeReadersFit

  // ---------------------------------------------------------------- what was written

  /** A plain map after the writes among some steps. */
  function PlainAfter(m: map<Key, Value>, sts: seq<Step>): map<Key, Value>
    decreases |sts|
  {
    if sts == [] then m
    else
      var before := PlainAfter(m, sts[..|sts| - 1]);
      match sts[|sts| - 1]
      case WriteRoot(Put(k, v)) => before[k := v]
      case WriteRoot(Del(k)) => before - {k}
      case _ => before
  }

  lemma {:induction false} PlainAfterNext(m: map<Key, Value>, sts: seq<Step>, n: nat)
    requires n < |sts|
    ensures PlainAfter(m, sts[..n + 1])
         == if sts[n].WriteRoot? then Applied(PlainAfter(m, sts[..n]), sts[n].m) else PlainAfter(m, sts[..n])
  {
    assert sts[..n + 1][..n] == sts[..n];
  }

  /** What a step does to the history, and to a read that is not its own. */
  lemma {:induction false} StepHistory(y: Sys, st: Step)
    requires Good(y) && Guard(y, st)
    ensures var y' := Apply(y, st);
            y'.hist == if st.WriteRoot? then y.hist + [Applied(y.hist[|y.hist| - 1], st.m)] else y.hist
  {
    hide Inv, Find, ReadsLatest, ActiveOk, DoneOk, PushOk, SplitChild, SplitLayout, GrowUp, GrowLayout, Write;
  }

  /** The history lists what plain maps held, its last entry what one holds now. */
  lemma {:induction false} HistoryIsPlain(b: seq<Sys>, sts: seq<Step>, n: nat)
    requires IsRun(b, sts) && n < |b| && InPlaceUpTo(b, sts, n)
    ensures |b[0].hist| == 1 && |b[n].hist| > 0
    ensures b[n].hist[|b[n].hist| - 1] == PlainAfter(b[0].hist[0], sts[..n])
  {
    hide Inv, Find, Good, Guard, Apply, ReadsLatest, PutsInPlace, Applied;
    if n > 0 {
      HistoryIsPlain(b, sts, n - 1);
      RunIsGood(b, sts, n - 1);
      assert TakesStep(b[n - 1], sts[n - 1], b[n]);
      StepHistory(b[n - 1], sts[n - 1]);
      PlainAfterNext(b[0].hist[0], sts, n - 1);
    }
  }

  lemma {:induction false} HistoryGrows(b: seq<Sys>, sts: seq<Step>, n: nat)
    requires IsRun(b, sts) && n < |sts| && InPlaceUpTo(b, sts, n)
    ensures b[n].hist <= b[n + 1].hist && |b[n + 1].hist| <= |b[n].hist| + 1
  {
    hide Inv, Find, Good, Guard, Apply, ReadsLatest, PutsInPlace, Applied;
    RunIsGood(b, sts, n);
    assert TakesStep(b[n], sts[n], b[n + 1]);
    StepHistory(b[n], sts[n]);
  }

  /** An entry of the history since step i is what a plain map held after step i or later. */
  lemma {:induction false} EntryIsMoment(b: seq<Sys>, sts: seq<Step>, i: nat, n: nat, u: nat) returns (t: nat)
    requires IsRun(b, sts) && i <= n < |b| && InPlaceUpTo(b, sts, n)
    requires |b[i].hist| - 1 <= u < |b[n].hist|
    ensures |b[0].hist| == 1 && i <= t <= n && b[n].hist[u] == PlainAfter(b[0].hist[0], sts[..t])
    decreases n
  {
    hide TakesStep, Quiet, InPlaceUpTo;
    HistoryIsPlain(b, sts, n);
    if u == |b[n].hist| - 1 {
      t := n;
    } else {
      EarlierInPlace(b, sts, n);
      assert i < n;
      HistoryGrows(b, sts, n - 1);
      t := EntryIsMoment(b, sts, i, n - 1, u);
    }
  }

  lemma EarlierInPlace(b: seq<Sys>, sts: seq<Step>, n: nat)
    requires n <= |sts| < |b| && InPlaceUpTo(b, sts, n)
    ensures forall t :: 0 <= t <= n ==> InPlaceUpTo(b, sts, t)
  {
    hide PutsInPlace;
  }

  // ---------------------------------------------------------------- a read's own steps

  /** Read r is of key k, and began when the history had start + 1 entries. */
  predicate Tracks(y: Sys, r: Rid, k: Key, start: nat) {
    r in y.readers && y.readers[r].key == k && y.readers[r].start == start
  }

  lemma {:induction false} StepTracks(y: Sys, st: Step, r: Rid, k: Key, start: nat)
    requires Good(y) && Guard(y, st)
    ensures Tracks(y, r, k, start) ==> Tracks(Apply(y, st), r, k, start)
    ensures st == StartRead(r, k) ==> Tracks(Apply(y, st), r, k, |y.hist| - 1)
  {
    hide Inv, Find, ReadsLatest, ActiveOk, DoneOk, PushOk, SplitChild, SplitLayout, GrowUp, GrowLayout, Write, Here;
  }

  lemma {:induction false} ReadIsTracked(b: seq<Sys>, sts: seq<Step>, i: nat, r: Rid, k: Key, n: nat)
    requires IsRun(b, sts) && i < n < |b| && InPlaceUpTo(b, sts, n) && sts[i] == StartRead(r, k)
    ensures |b[i].hist| > 0 && Tracks(b[n], r, k, |b[i].hist| - 1)
    decreases n
  {
    hide Inv, Find, Good, Guard, Apply, ReadsLatest, PutsInPlace, Quiet;
    EarlierInPlace(b, sts, n);
    HistoryIsPlain(b, sts, i);
    RunIsGood(b, sts, n - 1);
    assert TakesStep(b[n - 1], sts[n - 1], b[n]);
    StepTracks(b[n - 1], sts[n - 1], r, k, |b[i].hist| - 1);
    if i < n - 1 {
      ReadIsTracked(b, sts, i, r, k, n - 1);
    }
  }

  /**
   * In every run, a read of k started by step i that is done in state n is done with what a plain map
   * held after some step between the two: never something already overwritten when the read began.
   */
  lemma {:induction false} ReadsAreLinearizable(b: seq<Sys>, sts: seq<Step>, i: nat, n: nat, r: Rid, k: Key)
    requires IsRun(b, sts) && i < n < |b| && InPlaceUpTo(b, sts, n)
    requires sts[i] == StartRead(r, k)
    ensures r in b[n].readers && b[n].readers[r].key == k && |b[0].hist| == 1
    ensures b[n].readers[r].Done? ==>
              exists t :: i <= t <= n && ValueIn(PlainAfter(b[0].hist[0], sts[..t]), k) == b[n].readers[r].answer
  {
    hide PutsInPlace, TakesStep, Quiet, PlainAfter;
    HistoryIsPlain(b, sts, n);
    ReadIsTracked(b, sts, i, r, k, n);
    if b[n].readers[r].Done? {
      DoneReadIsRight(b, sts, n, r);
      var rd := b[n].readers[r];
      var u :| rd.start <= u <= rd.end && ValueIn(b[n].hist[u], rd.key) == rd.answer;
      var t := EntryIsMoment(b, sts, i, n, u);
    }
  }

  /** With messages that each fit the limit this holds of all runs. */
  lemma {:induction false} FitReadsAreLinearizable(b: seq<Sys>, sts: seq<Step>, ms: iset<Msg>, M: nat, limit: nat,
                                                   i: nat, n: nat, r: Rid, k: Key)
    requires RunOf(b, sts, ms, M, limit) && Tidy(b[0], ms) && EachFits(ms, limit)
    requires i < n < |b| && sts[i] == StartRead(r, k)
    ensures r in b[n].readers && b[n].readers[r].key == k && |b[0].hist| == 1
    ensures b[n].readers[r].Done? ==>
              exists t :: i <= t <= n && ValueIn(PlainAfter(b[0].hist[0], sts[..t]), k) == b[n].readers[r].answer
  {
    hide Tidy, EachFits, IsRun, Obeys, InPlaceUpTo, PlainAfter;
    FitRunIsGood(b, sts, ms, M, limit, n);
    ReadsAreLinearizable(b, sts, i, n, r, k);
  }

  // ---------------------------------------------------------------- the nodes a read looks at

  /** A step at which a read looked at a node. */
  datatype Visit = Visit(step: nat, at: Nid)

  ghost predicate VisitOk(b: seq<Sys>, sts: seq<Step>, r: Rid, v: Visit) {
    && v.step < |sts| && v.step < |b| && sts[v.step] == Look(r)
    && v.at in b[v.step].s && |b[v.step].s[v.at].pivots| > 0
  }

  /** What the node held for k then, and the child it sends k to. */
  ghost function Seen(b: seq<Sys>, sts: seq<Step>, r: Rid, k: Key, v: Visit): Option<Msg>
    requires VisitOk(b, sts, r, v)
  {
    Lookup(At(b[v.step].s[v.at].pivots, k).buf, k)
  }

  ghost function NextOf(b: seq<Sys>, sts: seq<Step>, r: Rid, k: Key, v: Visit): Nid
    requires VisitOk(b, sts, r, v)
  {
    At(b[v.step].s[v.at].pivots, k).child
  }

  /** From the root that was when the read began, each node visited next is the one the last one sent k to,
      which held nothing for k. */
  ghost predicate IsWalk(b: seq<Sys>, sts: seq<Step>, i: nat, r: Rid, k: Key, vs: seq<Visit>) {
    && (forall e :: 0 <= e < |vs| ==> VisitOk(b, sts, r, vs[e]) && i < vs[e].step)
    && (forall e, f :: 0 <= e < f < |vs| ==> vs[e].step < vs[f].step)
    && (vs != [] && i < |b| ==> vs[0].at == b[i].root)
    && forall e :: 0 <= e < |vs| - 1 ==>
         && Seen(b, sts, r, k, vs[e]) == None
         && NextOf(b, sts, r, k, vs[e]) != NID_NIL && vs[e + 1].at == NextOf(b, sts, r, k, vs[e])
  }

  /** Where the read stands after its visits. */
  ghost predicate StandsAfter(b: seq<Sys>, sts: seq<Step>, i: nat, r: Rid, k: Key, vs: seq<Visit>, rd: Reader)
    requires i < |b| && IsWalk(b, sts, i, r, k, vs)
  {
    match rd
    case Active(_, at, _, _) =>
      if vs == [] then at == b[i].root
      else
        var v := vs[|vs| - 1];
        Seen(b, sts, r, k, v) == None && NextOf(b, sts, r, k, v) != NID_NIL && at == NextOf(b, sts, r, k, v)
    case Done(_, _, _, answer) =>
      && vs != []
      && var v := vs[|vs| - 1];
         && (Seen(b, sts, r, k, v).Some? || NextOf(b, sts, r, k, v) == NID_NIL)
         && answer == Answer(Seen(b, sts, r, k, v))
  }

  /** What a step does to a read. */
  lemma {:induction false} StepReader(y: Sys, st: Step, r: Rid)
    requires Good(y) && Guard(y, st)
    ensures var y' := Apply(y, st);
            && (st.StartRead? && st.r == r ==>
                  r in y'.readers && y'.readers[r].Active? && y'.readers[r].at == y.root)
            && (r in y.readers && st != Look(r) && st != GoDown(r) ==> r in y'.readers && y'.readers[r] == y.readers[r])
            && (r in y.readers && st == GoDown(r) ==>
                  r in y'.readers && y.readers[r].Active? && y'.readers[r] == y.readers[r].(held := y.readers[r].at))
  {
    hide Inv, Find, ReadsLatest, ActiveOk, DoneOk, PushOk, SplitChild, SplitLayout, GrowUp, GrowLayout, Write, Here;
  }

  lemma {:induction false} StepLooks(y: Sys, r: Rid)
    requires Good(y) && Guard(y, Look(r))
    ensures r in y.readers && y.readers[r].Active?
    ensures var rd, y' := y.readers[r], Apply(y, Look(r));
            && rd.at in y.s && |y.s[rd.at].pivots| > 0 && r in y'.readers
            && var m, c := Lookup(At(y.s[rd.at].pivots, rd.key).buf, rd.key), At(y.s[rd.at].pivots, rd.key).child;
               if m.Some? || c == NID_NIL then y'.readers[r].Done? && y'.readers[r].answer == Answer(m)
               else y'.readers[r].Active? && y'.readers[r].at == c
  {
    hide Inv, Find, ReadsLatest, DoneOk, PushOk, AboveIsNew, Since;
    assert ActiveOk(y, y.readers[r]);
  }

  lemma {:induction false} WalkGoesOn(b: seq<Sys>, sts: seq<Step>, i: nat, r: Rid, k: Key, vs: seq<Visit>,
                                      rd: Reader, v: Visit)
    requires i < |b| && IsWalk(b, sts, i, r, k, vs) && StandsAfter(b, sts, i, r, k, vs, rd) && rd.Active?
    requires VisitOk(b, sts, r, v) && v.at == rd.at && i < v.step && forall e :: 0 <= e < |vs| ==> vs[e].step < v.step
    ensures IsWalk(b, sts, i, r, k, vs + [v])
  {
    hide VisitOk, Seen, NextOf;
    var ws := vs + [v];
    forall e | 0 <= e < |ws|
      ensures VisitOk(b, sts, r, ws[e]) && i < ws[e].step
    {
      assert e < |vs| ==> ws[e] == vs[e];
    }
    forall e | 0 <= e < |ws| - 1
      ensures Seen(b, sts, r, k, ws[e]) == None
      ensures NextOf(b, sts, r, k, ws[e]) != NID_NIL && ws[e + 1].at == NextOf(b, sts, r, k, ws[e])
    {
      assert ws[e] == vs[e];
      assert e + 1 < |vs| ==> ws[e + 1] == vs[e + 1];
    }
  }

  /**
   * Every read walks: it looks at the root that was when it began and goes from node to node as each
   * holds nothing for its key. It is done only by looking at a node, with what that node then held for its
   * key, or with nothing at a leaf.
   */
  lemma {:induction false} ReadIsWalk(b: seq<Sys>, sts: seq<Step>, i: nat, n: nat, r: Rid, k: Key)
    returns (vs: seq<Visit>)
    requires IsRun(b, sts) && i < n < |b| && InPlaceUpTo(b, sts, n) && sts[i] == StartRead(r, k)
    ensures IsWalk(b, sts, i, r, k, vs) && forall e :: 0 <= e < |vs| ==> vs[e].step < n
    ensures r in b[n].readers && StandsAfter(b, sts, i, r, k, vs, b[n].readers[r])
    decreases n
  {
    hide Inv, Find, Good, Guard, Apply, ReadsLatest, PutsInPlace, Quiet, At, Lookup;
    EarlierInPlace(b, sts, n);
    RunIsGood(b, sts, n - 1);
    assert TakesStep(b[n - 1], sts[n - 1], b[n]);
    StepReader(b[n - 1], sts[n - 1], r);
    if i == n - 1 {
      vs := [];
    } else {
      vs := ReadIsWalk(b, sts, i, n - 1, r, k);
      if sts[n - 1] == Look(r) {
        ReadIsTracked(b, sts, i, r, k, n - 1);
        StepLooks(b[n - 1], r);
        var v := Visit(n - 1, b[n - 1].readers[r].at);
        WalkGoesOn(b, sts, i, r, k, vs, b[n - 1].readers[r], v);
        vs := vs + [v];
      }
    }
  }
}
