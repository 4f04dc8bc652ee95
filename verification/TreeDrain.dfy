/** Why lockPath drains: splitting a node behind a parent buffer that still holds messages. */
module TreeDrain {
  import opened Keys
  import opened Msgs
  import opened TreeModel
  import opened TreeSteps
  import opened TreeSplits
  import opened TreeSplitNode
  import opened TreePushOne

  /** A read of any key of c's upper half that c's buffer at the parent answers now would be answered the
      same from below. */
  ghost predicate SafeToSplit(s: Store, g: Layout, p: Nid, j: nat, c: Nid)
    requires s.Keys == g.Keys && InPlace(s, g, p, j, c)
  {
    forall m :: m in s[p].pivots[j].buf && !Lt(m.key, MiddleKey(s[c].pivots))
      ==> Answer(Some(m)) == Answer(Find(s, c, g[c].level, m.key))
  }

  /** Every key of p's range is read after the split as before. */
  ghost predicate SplitKeepsReads(s: Store, g: Layout, p: Nid, c: Nid, d: Nid)
    requires p in s && p in g && c in s && |s[p].pivots| > 0 && |s[c].pivots| > 0
  {
    forall k {:trigger Find(s, p, g[p].level, k)} :: InRange(k, g[p].lo, g[p].hi)
      ==> Answer(Find(SplitChild(s, p, c, d), p, g[p].level, k)) == Answer(Find(s, p, g[p].level, k))
  }

  /** A split keeps every read through p exactly when c's buffer there answers no key of the upper half
      otherwise than what is below it. */
  lemma {:induction false} SplitKeepsReadsIffSafe(s: Store, g: Layout, root: Nid, p: Nid, j: nat, c: Nid, d: Nid)
    requires Inv(s, g, root) && InPlace(s, g, p, j, c) && d !in s && d != NID_NIL
    ensures |s[p].pivots| > 0
    ensures SplitKeepsReads(s, g, p, c, d) <==> SafeToSplit(s, g, p, j, c)
  {
    hide Inv, SplitKeepsReads, SafeToSplit;
    NodeIsOk(s, g, root, p);
    if SplitKeepsReads(s, g, p, c, d) {
      KeptIsSafe(s, g, root, p, j, c, d);
    }
    if SafeToSplit(s, g, p, j, c) {
      SafeIsKept(s, g, root, p, j, c, d);
    }
  }

  lemma {:induction false} KeptIsSafe(s: Store, g: Layout, root: Nid, p: Nid, j: nat, c: Nid, d: Nid)
    requires Inv(s, g, root) && InPlace(s, g, p, j, c) && d !in s && d != NID_NIL && |s[p].pivots| > 0
    requires SplitKeepsReads(s, g, p, c, d)
    ensures SafeToSplit(s, g, p, j, c)
  {
    hide Inv, Find, SplitChild, Lookup, Lt, Answer;
    forall m | m in s[p].pivots[j].buf && !Lt(m.key, MiddleKey(s[c].pivots))
      ensures Answer(Some(m)) == Answer(Find(s, c, g[c].level, m.key))
    {
      BufferedBelongs(s, g, root, p, j, m);
      ReadAfterSplit(s, g, root, p, j, c, d, m.key);
      assert Answer(Find(SplitChild(s, p, c, d), p, g[p].level, m.key)) == Answer(Find(s, p, g[p].level, m.key));
    }
  }

  lemma {:induction false} SafeIsKept(s: Store, g: Layout, root: Nid, p: Nid, j: nat, c: Nid, d: Nid)
    requires Inv(s, g, root) && InPlace(s, g, p, j, c) && d !in s && d != NID_NIL && |s[p].pivots| > 0
    requires SafeToSplit(s, g, p, j, c)
    ensures SplitKeepsReads(s, g, p, c, d)
  {
    hide Inv, Find, SplitChild, Lookup, Lt, Answer;
    forall k | InRange(k, g[p].lo, g[p].hi)
      ensures Answer(Find(SplitChild(s, p, c, d), p, g[p].level, k)) == Answer(Find(s, p, g[p].level, k))
    {
      BufferSortedAt(s, g, root, p, j, k);
      ReadAfterSplit(s, g, root, p, j, c, d, k);
    }
  }

  lemma {:induction false} ReadAfterSplit(s: Store, g: Layout, root: Nid, p: Nid, j: nat, c: Nid, d: Nid, k: Key)
    requires Inv(s, g, root) && InPlace(s, g, p, j, c) && d !in s && d != NID_NIL && InRange(k, g[p].lo, g[p].hi)
    ensures |s[p].pivots| > 0
    ensures Answer(Find(SplitChild(s, p, c, d), p, g[p].level, k)) == Answer(Find(s, p, g[p].level, k))
            <==> (Route(s[p].pivots, k) == j && !Lt(k, MiddleKey(s[c].pivots)) ==>
                    || Lookup(s[p].pivots[j].buf, k) == None
                    || Answer(Lookup(s[p].pivots[j].buf, k)) == Answer(Find(s, c, g[c].level, k)))
  {
    hide Inv, Find, SplitChild, Lookup, Route, Answer;
    FindAfterSplit(s, g, root, p, j, c, d, k);
    ChildOf(s, g, root, p, k);
    ChildAt(s, g, root, p, j);
    FindStep(s, p, g[p].level, k);
  }

  // ---------------------------------------------------------------- a lost message

  /** A root over one leaf that has two pivots, with one put still in the root's buffer. */
  function Undrained(k: Key, value: Value): Store {
    map[1 := NodeState(false, [Pivot([], 2, [Put(k, value)])]),
        2 := NodeState(true, [Pivot([], NID_NIL, []), Pivot(k, NID_NIL, [])])]
  }

  function UndrainedLayout(): Layout {
    map[1 := Info(1, [], None), 2 := Info(0, [], None)]
  }

  lemma {:induction false} UndrainedRoot(k: Key, value: Value)
    ensures NodeAt(Undrained(k, value), UndrainedLayout(), 1)
  {
    EmptyKeyIsLeast(k);
    EmptyKeyIsLeast([]);
    hide Lt, Le;
    assert BufOk([Put(k, value)], [], None);
  }

  lemma {:induction false} UndrainedLeaf(k: Key, value: Value)
    requires k != []
    ensures NodeAt(Undrained(k, value), UndrainedLayout(), 2)
  {
    EmptyKeyIsLeast(k);
    hide Lt, Le;
  }

  lemma {:induction false} UndrainedInv(k: Key, value: Value)
    requires k != []
    ensures Inv(Undrained(k, value), UndrainedLayout(), 1)
  {
    UndrainedRoot(k, value);
    UndrainedLeaf(k, value);
    hide NodeAt;
  }

  /** Without the drain a key that was put is gone after the split. */
  lemma {:induction false} SplitWithoutDrainLosesPut(k: Key, value: Value)
    requires k != []
    ensures var s := Undrained(k, value);
            var g := UndrainedLayout();
            && View(s, g, 1, k) == Some(Put(k, value))
            && View(SplitChild(s, 1, 2, 3), SplitLayout(g, 2, 3, k), 1, k) == None
  {
    var s, g := Undrained(k, value), UndrainedLayout();
    UndrainedInv(k, value);
    EmptyKeyIsLeast(k);
    KeyOrder();
    hide Inv, SplitChild;
    FindAfterSplit(s, g, 1, 1, 0, 2, 3, k);
  }

  // ---------------------------------------------------------------- a split at the very end of a range

  lemma SameWhenBothWays(a: Key, b: Key)
    ensures Le(a, b) && Le(b, a) ==> a == b
    ensures !Lt(a, a)
  {
    KeyOrder();
  }

  lemma {:induction false} RoutesPastEnd(ps: seq<Pivot>, lo: Key, hi: Option<Key>, j: nat, mid: Key)
    requires Ordered(ps, lo, hi) && j + 1 < |ps| && ps[j + 1].leftKey == mid && Below(mid, hi)
    ensures var r := Route(ps, mid); r > j && ps[r].leftKey == mid && Below(mid, Hi(ps, r, hi))
  {
    hide Lt, Le;
    var r := Route(ps, mid);
    SameWhenBothWays(mid, ps[r].leftKey);
    SameWhenBothWays(mid, mid);
    if r <= j {
      assert false;
    }
    assert r > j + 1 ==> Le(ps[j + 1].leftKey, ps[r].leftKey);
  }

  /** addPivot then puts the new pivot behind the one that takes the middle key. */
  lemma {:induction false} RangeEndShape(s: Store, g: Layout, root: Nid, p: Nid, j: nat, c: Nid)
    requires Inv(s, g, root) && AtRangeEnd(s, g, p, j, c)
    ensures var ps, mid := s[p].pivots, MiddleKey(s[c].pivots);
            var r := Route(ps, mid);
            && Ordered(ps, g[p].lo, g[p].hi) && mid != [] && g[c].hi == Some(mid)
            && ps[r].leftKey == mid && Below(mid, Hi(ps, r, g[p].hi)) && r > j && c != p
  {
    hide Inv, Route, MiddleKey, Below, Ordered;
    MiddleInRange(s, g, root, p, j, c);
    InsideHi(s[p].pivots, j, g[p].hi, MiddleKey(s[c].pivots));
    RoutesPastEnd(s[p].pivots, g[p].lo, g[p].hi, j, MiddleKey(s[c].pivots));
  }

  lemma InsideHi(ps: seq<Pivot>, j: nat, hi: Option<Key>, mid: Key)
    requires j < |ps| && Hi(ps, j, hi) == Some(mid) && Below(mid, hi)
    ensures j + 1 < |ps| && ps[j + 1].leftKey == mid
  {
    SameWhenBothWays(mid, mid);
  }

  lemma {:induction false} StepAtRangeEnd(s: Store, g: Layout, root: Nid, p: Nid, j: nat, c: Nid, d: Nid, k: Key)
    requires Inv(s, g, root) && AtRangeEnd(s, g, p, j, c) && InRange(k, g[p].lo, g[p].hi)
    ensures |s[p].pivots| > 0
    ensures var ps, mid := s[p].pivots, MiddleKey(s[c].pivots);
            && |AddPivot(ps, Pivot(mid, d, []))| > 0
            && At(AddPivot(ps, Pivot(mid, d, [])), k)
               == (if Route(ps, k) == Route(ps, mid) then Pivot(mid, d, []) else At(ps, k))
            && (Route(ps, k) == Route(ps, mid) ==> !Lt(k, mid))
  {
    hide Inv, Ordered, Route, InsertAfter;
    RangeEndShape(s, g, root, p, j, c);
    var ps, mid := s[p].pivots, MiddleKey(s[c].pivots);
    var pv, r := Pivot(mid, d, []), Route(ps, mid);
    LtImpliesLe(mid, mid);
    BelowIsAtMost(mid, Hi(ps, r, g[p].hi));
    RouteInRange(ps, g[p].lo, g[p].hi, k);
    RouteAfterInsert(ps, r, pv, g[p].lo, g[p].hi, k);
    HiAfterInsert(ps, r, pv, g[p].hi, Route(ps, k));
  }

  lemma {:induction false} LastOfUpper(cs: seq<Pivot>, lo: Key, hi: Option<Key>, k: Key)
    requires PivotsOk(cs, lo, hi) && |cs| >= 2 && !Below(k, hi)
    ensures At(cs[|cs| / 2..], k) == cs[|cs| - 1] && Lookup(cs[|cs| - 1].buf, k) == None
  {
    hide PivotsOk, Route, Lookup, Below;
    HalfNodesOk(cs, lo, hi);
    PastTheLast(cs[|cs| / 2..], MiddleKey(cs), hi, k);
  }

  /** The upper half of c is for no key, so it answers none. */
  lemma {:induction false} UpperHalfIsEmpty(s: Store, g: Layout, root: Nid, c: Nid, d: Nid, s': Store, k: Key)
    requires Inv(s, g, root) && c in s && |s[c].pivots| >= 2 && !Below(k, g[c].hi)
    requires d in s' && s'[d].pivots == s[c].pivots[|s[c].pivots| / 2..]
    requires forall x :: x in s && g[x].level < g[c].level ==> x in s' && s'[x] == s[x]
    ensures Find(s', d, g[c].level, k) == None
  {
    hide Inv, Find, Ordered, LinksOk, BufOk, Lookup, Below, At;
    NodeIsOk(s, g, root, c);
    var cs := s[c].pivots;
    LastOfUpper(cs, g[c].lo, g[c].hi, k);
    hide PivotsOk;
    if g[c].level > 0 {
      LastChildPast(s, g, root, c, k);
      FindStep(s', d, g[c].level, k);
      FindUntouched(s, s', g, root, cs[|cs| - 1].child, k);
    } else {
      FindAtLeaf(s', d, k);
    }
  }

  lemma {:induction false} LastChildPast(s: Store, g: Layout, root: Nid, c: Nid, k: Key)
    requires Inv(s, g, root) && c in s && |s[c].pivots| > 0 && g[c].level > 0 && !Below(k, g[c].hi)
    ensures var y := s[c].pivots[|s[c].pivots| - 1].child;
            y in s && y != NID_NIL && g[y].level == g[c].level - 1 && Find(s, y, g[y].level, k) == None
  {
    hide Inv, Find, Below;
    ChildAt(s, g, root, c, |s[c].pivots| - 1);
    FindPastRange(s, g, root, s[c].pivots[|s[c].pivots| - 1].child, k);
  }

  /** Where a split puts the middle key at the end of c's range, every key that was read through the pivot
      behind it is lost to the empty upper half, and no other. */
  lemma {:induction false} SplitAtRangeEnd(s: Store, g: Layout, root: Nid, p: Nid, j: nat, c: Nid, d: Nid, k: Key)
    requires Inv(s, g, root) && AtRangeEnd(s, g, p, j, c) && d !in s && d != NID_NIL && InRange(k, g[p].lo, g[p].hi)
    ensures |s[p].pivots| > 0
    ensures Find(SplitChild(s, p, c, d), p, g[p].level, k)
            == if Route(s[p].pivots, k) == Route(s[p].pivots, MiddleKey(s[c].pivots)) then None
               else Find(s, p, g[p].level, k)
  {
    hide Inv, Find, Lookup, Route, AddPivot, MiddleKey, Ordered;
    RangeEndShape(s, g, root, p, j, c);
    StepAtRangeEnd(s, g, root, p, j, c, d, k);
    ChildOf(s, g, root, p, k);
    ChildAt(s, g, root, p, j);
    var s' := SplitChild(s, p, c, d);
    var y := At(s[p].pivots, k).child;
    LookupNothing(k);
    FindStep(s', p, g[p].level, k);
    FindStep(s, p, g[p].level, k);
    if Route(s[p].pivots, k) == Route(s[p].pivots, MiddleKey(s[c].pivots)) {
      UpperHalfIsEmpty(s, g, root, c, d, s', k);
    } else if y == c {
      FindInHalves(s, g, root, c, d, s', k);
    } else {
      FindSame(s, s', g, root, y, k);
    }
  }

  lemma {:induction false} NewIsAt(s: Store, g: Layout, root: Nid, p: Nid, j: nat, c: Nid, d: Nid)
    requires Inv(s, g, root) && AtRangeEnd(s, g, p, j, c) && d !in s && d != NID_NIL
    ensures |s[p].pivots| > 0
    ensures var s', mid := SplitChild(s, p, c, d), MiddleKey(s[c].pivots);
            var i := Route(s[p].pivots, mid) + 1;
            && p in s' && i < |s'[p].pivots| && s'[p].pivots[i] == Pivot(mid, d, [])
            && Below(mid, Hi(s'[p].pivots, i, g[p].hi))
            && SplitLayout(g, c, d, mid)[d] == Info(g[c].level, mid, Some(mid)) && d != p && c != p
  {
    hide Inv, Ordered, Route, MiddleKey, Below;
    RangeEndShape(s, g, root, p, j, c);
    var ps, mid := s[p].pivots, MiddleKey(s[c].pivots);
    HiAfterInsert(ps, Route(ps, mid), Pivot(mid, d, []), g[p].hi, j);
    hide InsertAfter;
  }

  /** The upper half is then for no key, while its pivot is for those of the one before it. */
  lemma {:induction false} RangeEndBreaksInv(s: Store, g: Layout, root: Nid, p: Nid, j: nat, c: Nid, d: Nid)
    requires Inv(s, g, root) && AtRangeEnd(s, g, p, j, c) && d !in s && d != NID_NIL
    ensures |s[p].pivots| > 0
    ensures !Inv(SplitChild(s, p, c, d), SplitLayout(g, c, d, MiddleKey(s[c].pivots)), root)
  {
    hide Inv, SplitChild, Route, MiddleKey, Lt;
    NewIsAt(s, g, root, p, j, c, d);
    var s', mid := SplitChild(s, p, c, d), MiddleKey(s[c].pivots);
    var g' := SplitLayout(g, c, d, mid);
    if Inv(s', g', root) {
      ChildAt(s', g', root, p, Route(s[p].pivots, mid) + 1);
      SameWhenBothWays(mid, mid);
      assert false;
    }
  }

  /** Below a drained pivot, a split keeps the ordering invariant exactly where the new pivot is in place. */
  lemma {:induction false} SplitKeepsInvIff(s: Store, g: Layout, root: Nid, p: Nid, j: nat, c: Nid, d: Nid)
    requires Inv(s, g, root) && IsChild(s, g, p, j, c) && d !in s && d != NID_NIL && s[p].pivots[j].buf == []
    ensures |s[p].pivots| > 0
    ensures Inv(SplitChild(s, p, c, d), SplitLayout(g, c, d, MiddleKey(s[c].pivots)), root) <==> InPlace(s, g, p, j, c)
  {
    hide *;
    if InPlace(s, g, p, j, c) {
      SplitChildKeepsInv(s, g, root, p, j, c, d);
    } else {
      NotInPlace(s, g, p, j, c);
      RangeEndBreaksInv(s, g, root, p, j, c, d);
    }
  }

  lemma NotInPlace(s: Store, g: Layout, p: Nid, j: nat, c: Nid)
    requires s.Keys == g.Keys && IsChild(s, g, p, j, c)
    ensures AtRangeEnd(s, g, p, j, c) <==> !InPlace(s, g, p, j, c)
  {
  }

  /** No key that is read through the pivot behind c's range has a value. */
  ghost predicate NothingBehind(s: Store, g: Layout, p: Nid, c: Nid)
    requires p in s && p in g && c in s && |s[p].pivots| > 0 && |s[c].pivots| > 0
  {
    forall k {:trigger Find(s, p, g[p].level, k)} ::
      InRange(k, g[p].lo, g[p].hi) && Route(s[p].pivots, k) == Route(s[p].pivots, MiddleKey(s[c].pivots))
      ==> Answer(Find(s, p, g[p].level, k)) == None
  }

  /** So such a split keeps every read through p exactly when there is nothing to lose. */
  lemma {:induction false} RangeEndKeepsReadsIff(s: Store, g: Layout, root: Nid, p: Nid, j: nat, c: Nid, d: Nid)
    requires Inv(s, g, root) && AtRangeEnd(s, g, p, j, c) && d !in s && d != NID_NIL
    ensures |s[p].pivots| > 0
    ensures SplitKeepsReads(s, g, p, c, d) <==> NothingBehind(s, g, p, c)
  {
    hide Inv, Find, SplitChild, Route, Answer, NodeOk;
    NodeIsOk(s, g, root, p);
    assert Answer(None) == None by {
      AnswerNothing();
    }
    forall k | InRange(k, g[p].lo, g[p].hi)
      ensures Find(SplitChild(s, p, c, d), p, g[p].level, k)
              == if Route(s[p].pivots, k) == Route(s[p].pivots, MiddleKey(s[c].pivots)) then None
                 else Find(s, p, g[p].level, k)
    {
      SplitAtRangeEnd(s, g, root, p, j, c, d, k);
    }
    hide AtRangeEnd, InRange, MiddleKey;
    if SplitKeepsReads(s, g, p, c, d) {
      forall k | InRange(k, g[p].lo, g[p].hi) && Route(s[p].pivots, k) == Route(s[p].pivots, MiddleKey(s[c].pivots))
        ensures Answer(Find(s, p, g[p].level, k)) == None
      {
        assert Answer(Find(SplitChild(s, p, c, d), p, g[p].level, k)) == Answer(Find(s, p, g[p].level, k));
      }
    }
  }

  /** Of all splits below a drained pivot, those alone can lose a read. */
  lemma {:induction false} DrainedSplitKeepsReadsIff(s: Store, g: Layout, root: Nid, p: Nid, j: nat, c: Nid, d: Nid)
    requires Inv(s, g, root) && IsChild(s, g, p, j, c) && d !in s && d != NID_NIL && s[p].pivots[j].buf == []
    ensures |s[p].pivots| > 0
    ensures SplitKeepsReads(s, g, p, c, d) <==> (AtRangeEnd(s, g, p, j, c) ==> NothingBehind(s, g, p, c))
  {
    hide Inv, SplitKeepsReads, NothingBehind, MiddleKey, Below;
    if AtRangeEnd(s, g, p, j, c) {
      RangeEndKeepsReadsIff(s, g, root, p, j, c, d);
    } else {
      SplitKeepsReadsIffSafe(s, g, root, p, j, c, d);
    }
  }

  lemma AnswerNothing()
    ensures Answer(None) == None
  {
  }
}
