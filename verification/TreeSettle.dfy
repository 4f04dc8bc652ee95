/**
 * The tree a call leaves, as a value: locking a path drains it, splitNode goes up it, and pushDownOrSplit
 * relieves one buffer after the other, always the first over the limit (src/Node.cpp:102-359).
 */
module TreeSettle {
  import opened Keys
  import opened Msgs
  import opened TreeModel
  import opened TreeState

  // ---------------------------------------------------------------- a locked path

  /** The child that k is sent to, if the node has one. */
  function ChildFor(t: Tree, id: Nid, k: Key): Option<Nid> {
    if id !in t.s || t.s[id].pivots == [] then None
    else
      var c := At(t.s[id].pivots, k).child;
      if c == NID_NIL || c !in t.s || t.s[c].pivots == [] then None else Some(c)
  }

  /** lockPath from id, h levels above the leaves: every buffer on the way of k goes down it. */
  function DrainWay(t: Tree, id: Nid, h: nat, k: Key): Tree
    decreases h
  {
    var c := ChildFor(t, id, k);
    if h == 0 || c == None then t else DrainWay(Pushed(t, id, Route(t.s[id].pivots, k)), c.value, h - 1, k)
  }

  /** The nodes it locks. */
  function WayOf(t: Tree, id: Nid, h: nat, k: Key): seq<Nid>
    decreases h
  {
    var c := ChildFor(t, id, k);
    if h == 0 || c == None then [id]
    else [id] + WayOf(Pushed(t, id, Route(t.s[id].pivots, k)), c.value, h - 1, k)
  }

  /** splitNode on the last node of a path: while a node has more than M pivots it is split, and its parent
      is next. */
  function SplitUp(t: Tree, path: seq<Nid>, M: nat): Tree
    decreases |path|
  {
    if path == [] || path[|path| - 1] !in t.s || path[|path| - 1] !in t.g then t
    else
      var c := path[|path| - 1];
      if |t.s[c].pivots| <= M || t.s[c].pivots == [] then t
      else if |path| == 1 then if c == t.root then RootSplit(t) else t
      else
        var p := path[|path| - 2];
        if p !in t.s || t.s[p].pivots == [] then t else SplitUp(ChildSplit(t, p, c), path[..|path| - 1], M)
  }

  /** The second half of splitBuf. */
  function PathSplit(t: Tree, k: Key, M: nat): Tree
    requires t.root in t.g
  {
    SplitUp(DrainWay(t, t.root, t.g[t.root].level, k), WayOf(t, t.root, t.g[t.root].level, k), M)
  }

  // ---------------------------------------------------------------- pushDownOrSplit

  /** The first buffer over the limit, or none. */
  function FirstOver(ps: seq<Pivot>, limit: nat): (i: nat)
    ensures i <= |ps| && (i < |ps| ==> BufSize(ps[i].buf) > limit)
    ensures forall j :: 0 <= j < i ==> BufSize(ps[j].buf) <= limit
  {
    if ps == [] || BufSize(ps[0].buf) > limit then 0 else 1 + FirstOver(ps[1..], limit)
  }

  lemma FirstOverIs(ps: seq<Pivot>, limit: nat, i: nat)
    requires i <= |ps| && (i < |ps| ==> BufSize(ps[i].buf) > limit)
    requires forall j :: 0 <= j < i ==> BufSize(ps[j].buf) <= limit
    ensures FirstOver(ps, limit) == i
  {
  }

  /** splitBuf of buffer i. */
  function BufSplit(t: Tree, id: Nid, i: nat, M: nat): Tree
    requires id in t.s && i < |t.s[id].pivots| && t.s[id].pivots[i].buf != [] && t.root in t.g
  {
    PathSplit(LeafSplit(t, id, i), t.s[id].pivots[i].buf[0].key, M)
  }

  /** What pushDownOrSplit at id makes of a tree, if it ends within n calls one in another: with no buffer
      of the node over the limit, nothing. Otherwise the first one is pushed into its child, which settles
      first, or is split; and then the node settles. */
  function AfterRelief(t: Tree, id: Nid, M: nat, limit: nat, n: nat): Option<Tree>
    decreases n
  {
    if n == 0 || id !in t.s || t.root !in t.g then None
    else
      var ps := t.s[id].pivots;
      var i := FirstOver(ps, limit);
      if i == |ps| then Some(t)
      else if ps[i].child == NID_NIL then
        if ps[i].buf == [] then None else AfterRelief(BufSplit(t, id, i, M), id, M, limit, n - 1)
      else if ps[i].child !in t.s || t.s[ps[i].child].pivots == [] then None
      else
        match AfterRelief(Pushed(t, id, i), ps[i].child, M, limit, n - 1)
        case Some(t1) => AfterRelief(t1, id, M, limit, n - 1)
        case None => None
  }

  /** pushDownOrSplit at id takes t to t'. */
  ghost predicate Settles(t: Tree, id: Nid, M: nat, limit: nat, t': Tree) {
    exists n: nat :: AfterRelief(t, id, M, limit, n) == Some(t')
  }

  lemma {:induction false} SettledMore(t: Tree, id: Nid, M: nat, limit: nat, n: nat, m: nat)
    requires n <= m && AfterRelief(t, id, M, limit, n).Some?
    ensures AfterRelief(t, id, M, limit, m) == AfterRelief(t, id, M, limit, n)
    decreases n
  {
    hide BufSplit, Pushed;
    var ps := t.s[id].pivots;
    var i := FirstOver(ps, limit);
    if i < |ps| {
      if ps[i].child == NID_NIL {
        SettledMore(BufSplit(t, id, i, M), id, M, limit, n - 1, m - 1);
      } else {
        SettledMore(Pushed(t, id, i), ps[i].child, M, limit, n - 1, m - 1);
        SettledMore(AfterRelief(Pushed(t, id, i), ps[i].child, M, limit, n - 1).value, id, M, limit, n - 1, m - 1);
      }
    }
  }

  /** It takes a tree to one tree only. */
  lemma {:induction false} SettlesOnce(t: Tree, id: Nid, M: nat, limit: nat, a: Tree, b: Tree)
    requires Settles(t, id, M, limit, a) && Settles(t, id, M, limit, b)
    ensures a == b
  {
    hide AfterRelief;
    var n: nat :| AfterRelief(t, id, M, limit, n) == Some(a);
    var m: nat :| AfterRelief(t, id, M, limit, m) == Some(b);
    SettledMore(t, id, M, limit, n, if n < m then m else n);
    SettledMore(t, id, M, limit, m, if n < m then m else n);
  }

  /** And it leaves the node's buffers within the limit. */
  lemma {:induction false} SettledWithin(t: Tree, id: Nid, M: nat, limit: nat, n: nat)
    requires AfterRelief(t, id, M, limit, n).Some?
    ensures var t' := AfterRelief(t, id, M, limit, n).value;
            id in t'.s && forall i :: 0 <= i < |t'.s[id].pivots| ==> BufSize(t'.s[id].pivots[i].buf) <= limit
    decreases n
  {
    hide BufSplit, Pushed, BufSize;
    var ps := t.s[id].pivots;
    var i := FirstOver(ps, limit);
    if i < |ps| {
      if ps[i].child == NID_NIL {
        SettledWithin(BufSplit(t, id, i, M), id, M, limit, n - 1);
      } else {
        SettledWithin(AfterRelief(Pushed(t, id, i), ps[i].child, M, limit, n - 1).value, id, M, limit, n - 1);
      }
    }
  }

  // ---------------------------------------------------------------- its cases, for those who call it

  lemma SettlesNow(t: Tree, id: Nid, M: nat, limit: nat)
    requires id in t.s && t.root in t.g && FirstOver(t.s[id].pivots, limit) == |t.s[id].pivots|
    ensures Settles(t, id, M, limit, t)
  {
    assert AfterRelief(t, id, M, limit, 1) == Some(t);
  }

  lemma {:induction false} SettlesBySplit(t: Tree, id: Nid, M: nat, limit: nat, i: nat, t': Tree)
    requires id in t.s && t.root in t.g && i == FirstOver(t.s[id].pivots, limit) < |t.s[id].pivots|
    requires t.s[id].pivots[i].child == NID_NIL && t.s[id].pivots[i].buf != []
    requires Settles(BufSplit(t, id, i, M), id, M, limit, t')
    ensures Settles(t, id, M, limit, t')
  {
    hide BufSplit;
    var n: nat :| AfterRelief(BufSplit(t, id, i, M), id, M, limit, n) == Some(t');
    assert AfterRelief(t, id, M, limit, n + 1) == Some(t');
  }

  lemma {:induction false} SettlesByPush(t: Tree, id: Nid, M: nat, limit: nat, i: nat, t1: Tree, t': Tree)
    requires id in t.s && t.root in t.g && i == FirstOver(t.s[id].pivots, limit) < |t.s[id].pivots|
    requires t.s[id].pivots[i].child != NID_NIL
    requires t.s[id].pivots[i].child in t.s && t.s[t.s[id].pivots[i].child].pivots != []
    requires Settles(Pushed(t, id, i), t.s[id].pivots[i].child, M, limit, t1) && Settles(t1, id, M, limit, t')
    ensures Settles(t, id, M, limit, t')
  {
    hide Pushed;
    var c := t.s[id].pivots[i].child;
    var n: nat :| AfterRelief(Pushed(t, id, i), c, M, limit, n) == Some(t1);
    var m: nat :| AfterRelief(t1, id, M, limit, m) == Some(t');
    var k := if n < m then m else n;
    SettledMore(Pushed(t, id, i), c, M, limit, n, k);
    SettledMore(t1, id, M, limit, m, k);
    assert AfterRelief(t, id, M, limit, k + 1) == Some(t');
  }

  /** One round of it: buffer i is split, or pushed into its child, which settles. */
  ghost predicate Relieves(t: Tree, id: Nid, i: nat, M: nat, limit: nat, t': Tree) {
    && id in t.s && i < |t.s[id].pivots| && t.root in t.g
    && var c := t.s[id].pivots[i].child;
       if c == NID_NIL then t.s[id].pivots[i].buf != [] && t' == BufSplit(t, id, i, M)
       else c in t.s && t.s[c].pivots != [] && Settles(Pushed(t, id, i), c, M, limit, t')
  }

  lemma {:induction false} SettlesNext(t: Tree, id: Nid, M: nat, limit: nat, i: nat, t1: Tree, t': Tree)
    requires Relieves(t, id, i, M, limit, t1) && Settles(t1, id, M, limit, t')
    requires BufSize(t.s[id].pivots[i].buf) > limit
    requires forall j :: 0 <= j < i ==> BufSize(t.s[id].pivots[j].buf) <= limit
    ensures Settles(t, id, M, limit, t')
  {
    hide Settles, BufSplit, Pushed, BufSize;
    FirstOverIs(t.s[id].pivots, limit, i);
    if t.s[id].pivots[i].child == NID_NIL {
      SettlesBySplit(t, id, M, limit, i, t');
    } else {
      SettlesByPush(t, id, M, limit, i, t1, t');
    }
  }

  /** A write takes t to t': its message goes into the root, which then settles. */
  ghost predicate WriteTakes(t: Tree, m: Msg, M: nat, limit: nat, t': Tree) {
    t.root in t.s && |t.s[t.root].pivots| > 0 && Settles(Written(t, m), t.root, M, limit, t')
  }

  lemma {:induction false} DrainNext(t: Tree, id: Nid, h: nat, k: Key)
    requires h > 0 && ChildFor(t, id, k).Some?
    ensures var t1, c := Pushed(t, id, Route(t.s[id].pivots, k)), ChildFor(t, id, k).value;
            DrainWay(t, id, h, k) == DrainWay(t1, c, h - 1, k) && WayOf(t, id, h, k) == [id] + WayOf(t1, c, h - 1, k)
  {
    hide Pushed, Route;
  }

  lemma DrainEnds(t: Tree, id: Nid, h: nat, k: Key)
    requires h == 0 || ChildFor(t, id, k) == None
    ensures DrainWay(t, id, h, k) == t && WayOf(t, id, h, k) == [id]
  {
  }

  lemma ChildForIs(t: Tree, id: Nid, k: Key)
    requires id in t.s && t.s[id].pivots != []
    ensures var c := At(t.s[id].pivots, k).child;
            ChildFor(t, id, k) == if c == NID_NIL || c !in t.s || t.s[c].pivots == [] then None else Some(c)
  {
  }

  lemma SplitUpEnds(t: Tree, path: seq<Nid>, M: nat)
    requires path != [] && path[|path| - 1] in t.s && |t.s[path[|path| - 1]].pivots| <= M
    ensures SplitUp(t, path, M) == t
  {
  }

  lemma SplitUpRoot(t: Tree, M: nat)
    requires t.root in t.s && t.root in t.g && |t.s[t.root].pivots| > M
    ensures SplitUp(t, [t.root], M) == RootSplit(t)
  {
  }

  lemma {:induction false} SplitUpBelow(t: Tree, path: seq<Nid>, M: nat)
    requires |path| >= 2
    requires var p, c := path[|path| - 2], path[|path| - 1];
             c in t.s && c in t.g && |t.s[c].pivots| > M && p in t.s && |t.s[p].pivots| > 0
    ensures SplitUp(t, path, M) == SplitUp(ChildSplit(t, path[|path| - 2], path[|path| - 1]), path[..|path| - 1], M)
  {
    hide ChildSplit;
  }
}
