/** What a message that is over the limit by itself does to a tree: a leaf buffer that holds nothing else
    is split again and again, and each split leaves a pivot behind that is for no key. */
module TreeOversized {
  import opened Keys
  import opened Msgs
  import opened TreeModel
  import opened TreeSplits
  import opened TreeBalance
  import opened TreeHeight
  import opened TreeState

  /** The leftKey of the i-th of those pivots. */
  function LeftKey(i: nat, k: Key): Key {
    if i == 0 then [] else k
  }

  /** n empty pivots, and m alone in the last one's buffer. */
  function Parted(n: nat, m: Msg): seq<Pivot> {
    seq(n + 1, i requires 0 <= i <= n => Pivot(LeftKey(i, m.key), NID_NIL, if i == n then [m] else []))
  }

  lemma {:induction false} FirstDelivered(m: Msg)
    ensures Deliver([Pivot([], NID_NIL, [])], m) == Parted(0, m)
  {
    hide Lt, Le;
    var ps := [Pivot([], NID_NIL, [])];
    assert InsertMsg([], m) == [m];
    hide InsertMsg;
    assert Route(ps, m.key) == 0;
    hide Route;
    assert Deliver(ps, m) == [Pivot([], NID_NIL, [m])];
    hide Deliver;
  }

  /** All of those pivots take the message's key, so the last does. */
  lemma {:induction false} PartedRoute(ps: seq<Pivot>, k: Key)
    requires |ps| > 0 && ps[|ps| - 1].leftKey == LeftKey(|ps| - 1, k)
    ensures Route(ps, k) == |ps| - 1
  {
    EmptyKeyIsLeast(k);
  }

  /** One more split of the message's buffer. */
  lemma {:induction false} PartedSplit(n: nat, m: Msg)
    requires m.key != []
    ensures Parted(n, m)[n].buf == [m] && Splittable([m])
    ensures SplitPivot(Parted(n, m), n) == Parted(n + 1, m)
  {
    var ps := Parted(n, m);
    var qs := ps[n := ps[n].(buf := [])];
    var pv := Pivot(m.key, NID_NIL, [m]);
    assert [m][..0] == [] && [m][0..] == [m];
    PartedRoute(qs, m.key);
    assert AddPivot(qs, pv) == qs + [pv];
    assert qs + [pv] == Parted(n + 1, m);
  }

  /** A tree of one leaf in that shape. */
  function SplitOff(m: Msg, n: nat): Tree {
    Fresh().(s := map[1 := NodeState(true, Parted(n, m))])
  }

  /** It is what putting m into a new tree and n splits of the buffer m is in lead to. */
  lemma {:induction false} SplitOffBySteps(m: Msg, n: nat)
    requires m.key != []
    ensures SplitOff(m, 0) == Written(Fresh(), m)
    ensures var t := SplitOff(m, n);
            && 1 in t.s && n < |t.s[1].pivots| && t.s[1].pivots[n].buf == [m]
            && SplitOff(m, n + 1) == LeafSplit(t, 1, n)
  {
    hide Parted, SplitPivot, Deliver;
    PartedLength(n, m);
    FirstDelivered(m);
    PartedSplit(n, m);
  }

  /** What is known of a tree that only m was put into. */
  function OnlyOf(m: Msg, M: nat, limit: nat): Params {
    Params(M, Rules(limit, limit, false), {m.key})
  }

  lemma {:induction false} SplitOffIsSound(m: Msg, M: nat, limit: nat, n: nat)
    requires m.key != [] && !Fits(m, limit) && 2 <= M && n <= M
    ensures Sound(SplitOff(m, n), OnlyOf(m, M, limit), if n == M then 1 else NID_NIL)
  {
    hide *;
    if n == 0 {
      PutIsSound(m, M, limit);
    } else {
      SplitOffIsSound(m, M, limit, n - 1);
      OnlyBounds(m, M, limit);
      SplitOffStep(m, OnlyOf(m, M, limit), n);
      if n < M {
        Settled(SplitOff(m, n), OnlyOf(m, M, limit), 1);
      }
    }
  }

  lemma OnlyBounds(m: Msg, M: nat, limit: nat)
    ensures OnlyOf(m, M, limit).M == M && !OnlyOf(m, M, limit).rules.allFit
  {
  }

  lemma {:induction false} PutIsSound(m: Msg, M: nat, limit: nat)
    requires m.key != [] && !Fits(m, limit)
    ensures Sound(SplitOff(m, 0), OnlyOf(m, M, limit), NID_NIL)
  {
    hide Sound, Fits, View, SplitOff, Written;
    SplitOffBySteps(m, 0);
    var q := Params(M, Rules(limit, limit, true), {});
    FreshIsSound(M, limit, []);
    WriteStep(Fresh(), q, m);
    assert q.(written := q.written + {m.key}, rules := Noted(q.rules, m)) == OnlyOf(m, M, limit);
  }

  lemma {:induction false} SplitOffStep(m: Msg, q: Params, n: nat)
    requires m.key != [] && n > 0 && Sound(SplitOff(m, n - 1), q, NID_NIL) && !q.rules.allFit
    ensures Sound(SplitOff(m, n), q, 1) && 1 in SplitOff(m, n).s && |SplitOff(m, n).s[1].pivots| == n + 1
  {
    hide Sound, SameReads, H, C, Splittable, SplitPivot, LeafSplit, Parted;
    SplitOffBySteps(m, n - 1);
    PartedSplit(n - 1, m);
    PartedLength(n, m);
    LeafSplitStep(SplitOff(m, n - 1), q, 1, n - 1);
  }

  lemma PartedLength(n: nat, m: Msg)
    ensures |Parted(n, m)| == n + 1
  {
  }

  /** What the put leaves behind: its leaf has one pivot too many after M splits, so the root is split. */
  function Grown(m: Msg, M: nat): Tree {
    RootSplit(SplitOff(m, M))
  }

  lemma {:induction false} GrownShape(m: Msg, M: nat)
    requires m.key != [] && M >= 3
    ensures var t := Grown(m, M);
            && t.root in t.g && t.g[t.root].level == 1 && 2 in t.s && 2 in t.g
            && |t.s[2].pivots| >= 2 && t.s[2].pivots[0].leftKey == t.s[2].pivots[1].leftKey == m.key
  {
  }

  lemma {:induction false} GrownIsSound(m: Msg, M: nat, limit: nat)
    requires m.key != [] && !Fits(m, limit) && M >= 2
    ensures Sound(Grown(m, M), OnlyOf(m, M, limit), NID_NIL)
  {
    hide *;
    SplitOffIsSound(m, M, limit, M);
    SplitOffRoot(m, M);
    OnlyBounds(m, M, limit);
    RootSplitStep(SplitOff(m, M), OnlyOf(m, M, limit));
    GrownIs(m, M);
  }

  lemma GrownIs(m: Msg, M: nat)
    ensures SplitOff(m, M).root in SplitOff(m, M).s && |SplitOff(m, M).s[SplitOff(m, M).root].pivots| > 0
    ensures SplitOff(m, M).root in SplitOff(m, M).g && Grown(m, M) == RootSplit(SplitOff(m, M))
  {
  }

  lemma SplitOffRoot(m: Msg, n: nat)
    ensures var t := SplitOff(m, n); t.root == 1 && 1 in t.s && |t.s[1].pivots| == n + 1
  {
    PartedLength(n, m);
  }

  /** A message over the limit splits a leaf without a second key: with it, the tree can be higher than
      the keys written account for. */
  lemma {:induction false} BoundNeedsFit(m: Msg, M: nat, limit: nat)
    requires m.key != [] && !Fits(m, limit) && M >= 3
    ensures var t := Grown(m, M);
            && Sound(t, OnlyOf(m, M, limit), NID_NIL)
            && 2 * Pow(Low(M), t.g[t.root].level) > |{m.key}| + 1
            && !StoreStrict(t.s, t.g)
  {
    hide Sound, Fits, Grown, Strict;
    GrownIsSound(m, M, limit);
    GrownShape(m, M);
    assert Pow(Low(M), 1) == Low(M) * Pow(Low(M), 0);
    var t := Grown(m, M);
    RepeatIsNotStrict(t.s[2].pivots, t.g[2].hi);
  }

  lemma RepeatIsNotStrict(ps: seq<Pivot>, hi: Option<Key>)
    requires |ps| >= 2 && ps[0].leftKey == ps[1].leftKey
    ensures !Strict(ps, hi)
  {
    EmptyKeyIsLeast(ps[0].leftKey);
  }
}
