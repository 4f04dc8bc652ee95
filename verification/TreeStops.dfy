/**
 * Where a put does not return: a message of the empty key that is over the limit by itself has no middle
 * key to be split at, and addPivot asserts.
 */
module TreeStops {
  import opened Keys
  import opened Msgs
  import opened TreeModel
  import opened TreeSteps
  import opened TreeBalance
  import opened TreeState

  /** What a node's first pivot holds for the empty key. */
  function FirstHeld(ps: seq<Pivot>): Option<Msg> {
    if ps == [] then None else Lookup(ps[0].buf, [])
  }

  /** The node's first buffer holds the message the empty key answers with, and it does not fit. */
  ghost predicate Stuck(t: Tree, id: Nid, limit: nat) {
    && id in t.s && t.root in t.g
    && var m := View(t.s, t.g, t.root, []);
       m.Some? && !Fits(m.value, limit) && FirstHeld(t.s[id].pivots) == m
  }

  /** Only the first pivot takes the empty key. */
  lemma {:induction false} FirstTakesEmptyKey(ps: seq<Pivot>, hi: Option<Key>)
    requires Ordered(ps, [], hi)
    ensures Route(ps, []) == 0
  {
    EmptyKeyIsLeast(ps[Route(ps, [])].leftKey);
  }

  /** A list is at least as big as any message in it alone, and a message of the empty key comes first. */
  lemma {:induction false} HeldIsInside(l: seq<Msg>, k: Key)
    requires Sorted(l) && Lookup(l, k).Some?
    ensures Lookup(l, k).value.key == k && BufSize([Lookup(l, k).value]) <= BufSize(l)
    ensures l != [] && (k == [] ==> l[0] == Lookup(l, k).value)
  {
    LookupMember(l, k);
    hide Lookup;
    var i :| 0 <= i < |l| && l[i] == Lookup(l, k).value;
    ListSizeAt(l, i);
    OneMessage(l[i]);
    hide ListSize;
    if k == [] && i > 0 {
      assert Lt(l[0].key, l[i].key);
      EmptyKeyIsLeast(l[0].key);
    }
  }

  lemma OneMessage(m: Msg)
    ensures ListSize([m]) == MsgSize(m) + 8
  {
    assert [m][1..] == [];
  }

  /** A node that holds a message of the empty key is for the empty key. */
  lemma {:induction false} HolderTakesEmptyKey(t: Tree, q: Params, slack: Nid, id: Nid)
    requires Sound(t, q, slack) && id in t.s && id in t.g && FirstHeld(t.s[id].pivots).Some?
    ensures t.s[id].pivots != [] && t.g[id].lo == [] && Sorted(t.s[id].pivots[0].buf)
  {
    hide Sound, Inv;
    NodeIsOk(t.s, t.g, t.root, id);
    var ps := t.s[id].pivots;
    assert BufOk(ps[0].buf, ps[0].leftKey, Hi(ps, 0, t.g[id].hi));
    hide PivotsOk, LinksOk;
    HeldIsInside(ps[0].buf, []);
    assert ps[0].buf[0] in ps[0].buf;
    EmptyKeyIsLeast(ps[0].leftKey);
  }

  /** In a stuck node the first buffer is the first one over the limit. */
  lemma {:induction false} StuckAtFirst(t: Tree, q: Params, slack: Nid, id: Nid, limit: nat)
    requires Sound(t, q, slack) && id in t.g && Stuck(t, id, limit)
    ensures t.s[id].pivots != [] && t.s[id].pivots[0].buf != [] && t.s[id].pivots[0].buf[0].key == []
    ensures BufSize(t.s[id].pivots[0].buf) > limit
  {
    hide Sound, View, BufSize;
    HolderTakesEmptyKey(t, q, slack, id);
    HeldIsInside(t.s[id].pivots[0].buf, []);
  }

  /** A node stays stuck as long as reads stay the same and its first buffer holds the answer. */
  lemma {:induction false} StillStuck(t: Tree, t': Tree, id: Nid, limit: nat)
    requires Stuck(t, id, limit) && SameReads(t, t')
    requires id in t'.s && FirstHeld(t'.s[id].pivots) == View(t'.s, t'.g, t'.root, [])
    ensures Stuck(t', id, limit)
  {
    hide Find, View, FirstHeld, Fits;
  }

  /** Pushing the first buffer down takes the message along. */
  lemma {:induction false} PushedFirst(t: Tree, q: Params, slack: Nid, p: Nid)
    requires Sound(t, q, slack) && p in t.s && FirstHeld(t.s[p].pivots).Some?
    requires |t.s[p].pivots| > 0 && t.s[p].pivots[0].child != NID_NIL
    ensures var c := t.s[p].pivots[0].child;
            && c in t.s && |t.s[c].pivots| > 0
            && c in Pushed(t, p, 0).s && FirstHeld(Pushed(t, p, 0).s[c].pivots) == FirstHeld(t.s[p].pivots)
  {
    hide Sound, Inv;
    var ps := t.s[p].pivots;
    var c := ps[0].child;
    ParentHasLevel(t, q, slack, p, 0);
    HolderTakesEmptyKey(t, q, slack, p);
    PushIsInRange(t, q, slack, p, 0);
    NodeIsOk(t.s, t.g, t.root, p);
    assert t.g[c].lo == [];
    hide NodeOk, BufOk;
    DistributeOk(t.s[c].pivots, ps[0].buf, t.g[c].lo, t.g[c].hi, []);
    FirstTakesEmptyKey(Distribute(t.s[c].pivots, ps[0].buf), t.g[c].hi);
    hide PivotsOk, Distribute, Lookup;
  }

  lemma {:induction false} StuckBelow(t: Tree, q: Params, slack: Nid, p: Nid, limit: nat)
    requires Sound(t, q, slack) && p in t.g && Stuck(t, p, limit)
    requires |t.s[p].pivots| > 0 && t.s[p].pivots[0].child != NID_NIL
    ensures var c := t.s[p].pivots[0].child;
            c in t.s && |t.s[c].pivots| > 0 && Stuck(Pushed(t, p, 0), c, limit)
  {
    hide Sound, View, Pushed, FirstHeld;
    PushedFirst(t, q, slack, p);
    PushStep(t, q, slack, p, 0);
  }

  /** A message of the empty key that does not fit leaves the root stuck. */
  lemma {:induction false} WrittenStuck(t: Tree, q: Params, m: Msg, limit: nat)
    requires Sound(t, q, NID_NIL) && m.key == [] && !Fits(m, limit)
    ensures Stuck(Written(t, m), t.root, limit)
  {
    hide Sound, Inv, View;
    WriteStep(t, q, m);
    RootIsForAll(t.s, t.g, t.root, []);
    var ps := t.s[t.root].pivots;
    assert t.g[t.root].lo == [] by {
      RootStartsEmpty(t.s, t.g, t.root);
    }
    DeliverOk(ps, m, t.g[t.root].lo, t.g[t.root].hi, []);
    FirstTakesEmptyKey(Deliver(ps, m), t.g[t.root].hi);
    hide NodeOk, PivotsOk, Deliver, Lookup;
  }

  lemma RootStartsEmpty(s: Store, g: Layout, root: Nid)
    requires Inv(s, g, root)
    ensures g[root].lo == []
  {
  }

  /** Along a locked path every buffer is drained, so its leaf alone answers for the key. */
  lemma {:induction false} DrainedFind(t: Tree, q: Params, slack: Nid, path: seq<Nid>, j: nat, k: Key)
    requires Sound(t, q, slack) && DrainedPath(t.s, t.root, path) && j < |path|
    requires LeafFor(t, path[|path| - 1], k)
    ensures path[j] in t.s && path[j] in t.g && InRange(k, t.g[path[j]].lo, t.g[path[j]].hi)
    ensures Find(t.s, path[j], t.g[path[j]].level, k) == Here(t.s, path[|path| - 1], k)
    decreases |path| - j
  {
    hide Sound, Inv, Find, Lookup, At;
    if j == |path| - 1 {
      FindAtLeaf(t.s, path[j], k);
    } else {
      DrainedFind(t, q, slack, path, j + 1, k);
      assert Hangs(t.s, path[j], path[j + 1]);
      var i: nat :| Drained(t.s, path[j], i, path[j + 1]);
      DrainedStep(t, q, slack, path[j], i, path[j + 1], k);
    }
  }

  ghost predicate LeafFor(t: Tree, id: Nid, k: Key) {
    id in t.s && id in t.g && t.g[id].level == 0 && InRange(k, t.g[id].lo, t.g[id].hi)
  }

  lemma {:induction false} DrainedStep(t: Tree, q: Params, slack: Nid, p: Nid, i: nat, c: Nid, k: Key)
    requires Sound(t, q, slack) && Drained(t.s, p, i, c) && c in t.s && c in t.g && InRange(k, t.g[c].lo, t.g[c].hi)
    ensures p in t.g && InRange(k, t.g[p].lo, t.g[p].hi)
    ensures Find(t.s, p, t.g[p].level, k) == Find(t.s, c, t.g[c].level, k)
  {
    hide Sound, Inv, Find, InRange, Route;
    KeyBelow(t.s, t.g, t.root, p, i, k);
    FindStep(t.s, p, t.g[p].level, k);
  }

  /** After the path for the empty key is locked, its leaf's first buffer holds the key's answer. */
  lemma {:induction false} LockedLeafHolds(t: Tree, q: Params, slack: Nid, path: seq<Nid>)
    requires Sound(t, q, slack) && DrainedPath(t.s, t.root, path) && LeafFor(t, path[|path| - 1], [])
    ensures var id := path[|path| - 1];
            FirstHeld(t.s[id].pivots) == View(t.s, t.g, t.root, [])
  {
    hide Sound, Inv, Find, Lookup;
    DrainedFind(t, q, slack, path, 0, []);
    var id := path[|path| - 1];
    NodeIsOk(t.s, t.g, t.root, id);
    EmptyKeyIsLeast(t.g[id].lo);
    FirstTakesEmptyKey(t.s[id].pivots, t.g[id].hi);
  }
}
