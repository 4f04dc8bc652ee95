/**
 * The buffer tree itself (src/Node.cpp, src/BufferTree.cpp), run by one thread: nodes are objects
 * changed in place, found by id through the cache. A method that returns stopped has come to an assert
 * of the source that fails: addPivot was given a buffer but no key (src/Node.cpp:204), or there is no
 * message to split at (src/Node.cpp:162).
 */
module BufferTree {
  import opened Keys
  import opened Msgs
  import opened TreeModel
  import opened TreeSteps
  import opened TreeSplits
  import opened TreeMeasure
  import opened TreeBalance
  import opened TreeState
  import opened TreeSettle
  import opened TreeStops
  import opened NodeObject

  class BufferTree {
    const maxNodeChildNum: nat
    const maxNodeMsg: nat
    /** The cache: every node by its id. */
    var nodes: map<Nid, Node>
    var root: Nid
    var nodeCount: nat

    ghost var layout: Layout
    ghost var written: set<Key>
    /** What messages of the empty key fit; maxNodeMsg unless one was too big. */
    ghost var emptyLimit: nat
    /** No message written was over maxNodeMsg by itself. */
    ghost var allFit: bool
    /** What a plain map would hold after the same writes. */
    ghost var model: map<Key, Value>

    /** What the nodes hold. */
    ghost function Contents(): Store
      reads this`nodes, nodes.Values
    {
      map id | id in nodes :: nodes[id].State()
    }

    ghost function Snap(): Tree
      reads this, nodes.Values
    {
      Tree(Contents(), layout, root, nodeCount)
    }

    ghost function Bounds(): Params
      reads this
    {
      Params(maxNodeChildNum, Rules(maxNodeMsg, emptyLimit, allFit), written)
    }

    ghost predicate Wired()
      reads this`nodes
    {
      forall a, b :: a in nodes && b in nodes && a != b ==> nodes[a] != nodes[b]
    }

    ghost predicate Steady(slack: Nid)
      reads this, nodes.Values
    {
      Wired() && Sound(Snap(), Bounds(), slack)
    }

    ghost predicate AgreesWithModel()
      reads this, nodes.Values
    {
      ReadsAs(Snap(), model)
    }

    ghost predicate Valid()
      reads this, nodes.Values
    {
      Steady(NID_NIL) && AgreesWithModel() && emptyLimit == maxNodeMsg
    }

    ghost function LevelOf(id: Nid): nat
      reads this`layout
    {
      if id in layout then layout[id].level else 0
    }

    /** How far the node's messages are from the pivots that a node split takes away. */
    ghost function Far(id: Nid): nat
      reads this, nodes.Values
    {
      if id in nodes then Slide(nodes[id].pivots, Cap(maxNodeChildNum) + 1) else 0
    }

    /** Nodes are only ever added. */
    twostate predicate Grew()
      reads this`nodes
    {
      && old(nodes).Keys <= nodes.Keys
      && (forall id :: id in old(nodes) ==> nodes[id] == old(nodes)[id])
      && (forall id :: id in nodes && id !in old(nodes) ==> fresh(nodes[id]))
    }

    // -------------------------------------------------------------- splitting a node

    /** BufferTree::createNode, with an id no node has had (see AsWritten.IdsAsWritten). */
    method CreateNode(isLeaf: bool, pivots: seq<Pivot>) returns (id: Nid)
      requires forall x :: x in nodes ==> x <= nodeCount
      modifies this`nodes, this`nodeCount
      ensures id == old(nodeCount) + 1 == nodeCount
      ensures nodes.Keys == old(nodes).Keys + {id} && Grew() && id !in old(nodes)
      ensures nodes[id].State() == NodeState(isLeaf, pivots)
      ensures old(Wired()) ==> Wired()
    {
      nodeCount := nodeCount + 1;
      id := nodeCount;
      var node := new Node(isLeaf, pivots);
      nodes := nodes[id := node];
    }

    /** The first half of Node::splitNode: a fresh sibling takes the upper half of c's pivots. */
    method MoveUpperHalf(c: Nid) returns (d: Nid)
      requires Wired() && c in nodes && c <= nodeCount && |nodes[c].pivots| > 0
      requires forall x :: x in nodes ==> x <= nodeCount
      modifies this`nodes, this`nodeCount, nodes.Values
      ensures d == old(nodeCount) + 1 == nodeCount
      ensures Wired() && Grew() && nodes.Keys == old(nodes).Keys + {d}
      ensures Contents() == Halve(old(Contents()), c, d)
    {
      var node := nodes[c];
      var middle := |node.pivots| / 2;
      d := CreateNode(node.isLeaf, node.pivots[middle..]);
      node.pivots := node.pivots[..middle];
    }

    /** BufferTree::growUp on a new root above c and d. */
    method GrowNewRoot(c: Nid, d: Nid, middleKey: Key)
      requires Wired() && middleKey != [] && forall x :: x in nodes ==> x <= nodeCount
      modifies this`nodes, this`nodeCount, this`root
      ensures root == old(nodeCount) + 1 == nodeCount
      ensures Wired() && Grew()
      ensures var ps := TreeModel.AddPivot([Pivot([], c, [])], Pivot(middleKey, d, []));
              Contents() == old(Contents())[root := NodeState(false, ps)]
    {
      hide Ordered, TreeModel.AddPivot;
      OnePivotOrdered(c);
      var r := CreateNode(false, []);
      nodes[r].AddPivot(c, [], []);
      nodes[r].AddPivot(d, [], middleKey);
      root := r;
    }

    lemma ContentsAt(id: Nid)
      requires id in nodes
      ensures id in Contents() && Contents()[id] == nodes[id].State()
    {
    }

    lemma Ids(slack: Nid)
      requires Steady(slack)
      ensures Wired()
      ensures forall x :: x in nodes ==> 1 <= x <= nodeCount && nodes[x].pivots != []
      ensures nodes.Keys == layout.Keys && root in nodes
    {
      hide Sound;
      forall x | x in nodes
        ensures 1 <= x <= nodeCount && nodes[x].pivots != []
      {
        assert x in Contents();
      }
    }

    lemma NodeOrdered(q: Params, slack: Nid, id: Nid)
      requires Sound(Snap(), q, slack) && id in nodes
      ensures |nodes[id].pivots| > 0 && Ordered(nodes[id].pivots, nodes[id].pivots[0].leftKey, None)
    {
      assert nodes[id].State() == Contents()[id];
      NodeIsOk(Contents(), layout, root, id);
      hide Sound, Inv;
    }

    /** Node::addPivot on the node p. */
    method AddPivotAt(p: Nid, child: Nid, buf: seq<Msg>, key: Key)
      requires Wired() && p in nodes && p in Contents() && key != [] && |Contents()[p].pivots| > 0
      requires Ordered(Contents()[p].pivots, Contents()[p].pivots[0].leftKey, None)
      modifies nodes.Values
      ensures |old(Contents()[p].pivots)| > 0
      ensures var ps := TreeModel.AddPivot(old(Contents()[p].pivots), Pivot(key, child, buf));
              Contents() == old(Contents())[p := old(Contents()[p]).(pivots := ps)]
    {
      hide Ordered, TreeModel.AddPivot;
      nodes[p].AddPivot(child, buf, key);
    }

    ghost method Relayout(g: Layout)
      modifies this`layout
      ensures layout == g
      ensures Contents() == old(Contents()) && (old(Wired()) ==> Wired())
    {
      layout := g;
    }

    /** Node::splitNode for a node with a parent on the path: what the nodes hold. */
    method SplitBelow(p: Nid, c: Nid)
      requires Steady(c) && p in nodes && c in nodes && p != c && |nodes[c].pivots| >= 2
      modifies this`nodes, this`nodeCount, nodes.Values
      ensures Wired() && Grew() && nodeCount == old(nodeCount) + 1
      ensures p in old(Contents()) && c in old(Contents()) && |old(Contents()[p].pivots)| > 0
      ensures |old(Contents()[c].pivots)| > 0
      ensures Contents() == SplitChild(old(Contents()), p, c, nodeCount)
    {
      hide Sound, Ordered, SplitLayout, TreeModel.AddPivot, Wired, Contents, Bounds, Halve, SplitChild;
      ContentsAt(c);
      ContentsAt(p);
      MiddleKeyNotEmpty(Snap(), Bounds(), c, c);
      NodeOrdered(Bounds(), c, p);
      Ids(c);
      hide Steady;
      var middleKey := nodes[c].pivots[|nodes[c].pivots| / 2].leftKey;
      ghost var s0 := Contents();
      var d := MoveUpperHalf(c);
      HalveThenAnnounce(s0, p, c, d);
      AddPivotAt(p, d, [], middleKey);
    }

    /** The same with everything it keeps. */
    method SplitBelowStep(p: Nid, c: Nid, ghost i: nat)
      requires Steady(c) && p in nodes && c in nodes && Drained(Contents(), p, i, c) && p != c
      requires |nodes[c].pivots| >= 2 && |nodes[c].pivots| > maxNodeChildNum && c in layout && HasKeys(layout[c])
      modifies this`nodes, this`nodeCount, this`layout, nodes.Values
      ensures Steady(p) && Grew() && SameReads(old(Snap()), Snap())
      ensures H(Snap()) == old(H(Snap())) && C(Snap()) == old(C(Snap()))
      ensures p in Contents() && |Contents()[p].pivots| >= 2 && p in layout && HasKeys(layout[p])
      ensures Trimmed(old(Contents()), Contents(), c) && SameOff(old(Contents()), Contents(), [p, c])
      ensures var t := old(Snap());
              && p in t.s && c in t.s && |t.s[p].pivots| > 0 && |t.s[c].pivots| > 0
              && Snap() == ChildSplit(t, p, c)
    {
      hide Trimmed, SameOff, Sound, SameReads, Contents, Wired, SplitChild, SplitLayout, H, C, MiddleKey, HasKeys;
      ContentsAt(c);
      ContentsAt(p);
      ghost var t := Snap();
      ChildSplitStep(t, Bounds(), p, i, c);
      SplitBelow(p, c);
      Relayout(SplitLayout(t.g, c, t.n + 1, MiddleKey(t.s[c].pivots)));
      assert Snap() == ChildSplit(t, p, c);
    }

    /** Node::splitNode for the root: what the nodes hold. */
    method SplitRoot()
      requires Wired() && root in nodes && |nodes[root].pivots| > 0 && MiddleKey(nodes[root].pivots) != []
      requires forall x :: x in nodes ==> x <= nodeCount
      modifies this`nodes, this`nodeCount, this`root, nodes.Values
      ensures Wired() && Grew() && root == nodeCount == old(nodeCount) + 2
      ensures old(root) in old(Contents()) && |old(Contents()[root].pivots)| > 0
      ensures Contents() == GrowUp(old(Contents()), old(root), old(nodeCount) + 1, nodeCount)
    {
      hide TreeModel.AddPivot, Wired, Contents, Halve, GrowUp;
      ContentsAt(root);
      var c := root;
      var middleKey := nodes[c].pivots[|nodes[c].pivots| / 2].leftKey;
      ghost var s0 := Contents();
      var d := MoveUpperHalf(c);
      HalveThenGrow(s0, c, d, nodeCount + 1);
      GrowNewRoot(c, d, middleKey);
    }

    /** The same with everything it keeps. */
    method SplitRootStep()
      requires Steady(root) && root in nodes && |nodes[root].pivots| >= 2 && |nodes[root].pivots| > maxNodeChildNum
      modifies this`nodes, this`nodeCount, this`layout, this`root, nodes.Values
      ensures Steady(NID_NIL) && Grew() && SameReads(old(Snap()), Snap())
      ensures H(Snap()) == old(H(Snap())) && C(Snap()) == old(C(Snap()))
      ensures Trimmed(old(Contents()), Contents(), old(root)) && SameOff(old(Contents()), Contents(), [old(root)])
      ensures var t := old(Snap());
              t.root in t.s && t.root in t.g && |t.s[t.root].pivots| > 0 && Snap() == RootSplit(t)
    {
      hide Sound, SameReads, Contents, Wired, GrowLayout, H, C, MiddleKey, GrowUp, Grew, Trimmed, SameOff,
           TreeModel.AddPivot;
      ContentsAt(root);
      ghost var t := Snap();
      RootSplitStep(t, Bounds());
      Ids(root);
      MiddleKeyNotEmpty(t, Bounds(), root, root);
      SplitRoot();
      Relayout(GrowLayout(t.g, t.root, t.n + 1, t.n + 2, MiddleKey(t.s[t.root].pivots)));
      RootSplitFields(t);
    }

    /** Node::splitNode on the last node of a locked path, which was just given a pivot. */
    method SplitNode(path: seq<Nid>)
      requires path != [] && Steady(path[|path| - 1]) && DrainedPath(Contents(), root, path)
      requires path[|path| - 1] in nodes && |nodes[path[|path| - 1]].pivots| >= 2
      requires path[|path| - 1] in layout && HasKeys(layout[path[|path| - 1]])
      modifies this`nodes, this`nodeCount, this`layout, this`root, nodes.Values
      ensures Steady(NID_NIL) && Grew() && SameReads(old(Snap()), Snap())
      ensures H(Snap()) == old(H(Snap())) && C(Snap()) == old(C(Snap()))
      ensures Trimmed(old(Contents()), Contents(), path[|path| - 1])
      ensures SameOff(old(Contents()), Contents(), path)
      ensures Snap() == SplitUp(old(Snap()), path, maxNodeChildNum)
      decreases |path|
    {
      hide Sound, SameReads, H, C, Wired, Contents, DrainedPath, HasKeys, Trimmed, SameOff, SplitUp, ChildSplit,
           RootSplit;
      var c := path[|path| - 1];
      ghost var t := Snap();
      ContentsAt(c);
      if |nodes[c].pivots| <= maxNodeChildNum {
        SplitUpEnds(t, path, maxNodeChildNum);
        Settled(t, Bounds(), c);
        SameReadsRefl(t, Bounds(), c);
        TrimmedRefl(t.s, c);
        SameOffRefl(t.s, path);
        return;
      }
      if |path| == 1 {
        PathStartsAtRoot(t.s, t.root, path);
        SplitRootStep();
        assert path[0] in path;
        assert path == [t.root];
        SplitUpRoot(t, maxNodeChildNum);
      } else {
        var p := path[|path| - 2];
        ghost var i := LastLink(t, Bounds(), path);
        LastIsNotBefore(t, Bounds(), path);
        ContentsHas(p);
        SplitBelowStep(p, c, i);
        SplitUpBelow(t, path, maxNodeChildNum);
        PathAfterSplit(t, Snap(), Bounds(), path);
        ghost var t1 := Snap();
        ContentsHas(p);
        SplitNode(path[..|path| - 1]);
        SameReadsTrans(t, t1, Snap());
        SplitsAlongPath(t.s, t1.s, Contents(), path);
      }
    }

    lemma ContentsHas(id: Nid)
      requires id in Contents()
      ensures id in nodes && Contents()[id] == nodes[id].State()
    {
    }

    // -------------------------------------------------------------- pushing down and locking a path

    /** Node::pushDownLocked from pivot i of p into its child: what the nodes hold. */
    method PushBuffer(p: Nid, i: nat, ghost lo: Key, ghost hi: Option<Key>)
      requires Wired() && p in nodes && i < |nodes[p].pivots|
      requires nodes[p].pivots[i].child in nodes && nodes[p].pivots[i].child != p
      requires PivotsOk(nodes[nodes[p].pivots[i].child].pivots, lo, hi) && BufOk(nodes[p].pivots[i].buf, lo, hi)
      modifies nodes.Values
      ensures old(p in Contents() && i < |Contents()[p].pivots| && Contents()[p].pivots[i].child in Contents())
      ensures old(|Contents()[Contents()[p].pivots[i].child].pivots| > 0)
      ensures Contents() == PushDown(old(Contents()), p, i)
    {
      hide PivotsOk, BufOk, Distribute;
      PivotsNotEmpty(nodes[nodes[p].pivots[i].child].pivots, lo, hi);
      nodes[nodes[p].pivots[i].child].PushDownLocked(nodes[p], i, lo, hi);
    }

    /** The same with everything it keeps. */
    method PushBufferStep(p: Nid, i: nat, ghost slack: Nid)
      requires Steady(slack) && p in nodes && i < |nodes[p].pivots| && nodes[p].pivots[i].child != NID_NIL
      modifies nodes.Values
      ensures Steady(slack) && SameReads(old(Snap()), Snap()) && SameWidths(old(Contents()), Contents())
      ensures H(Snap()) + |old(nodes[p].pivots[i].buf)| <= old(H(Snap()))
      ensures old(p in Contents() && i < |Contents()[p].pivots| && Contents()[p].pivots[i].child in Contents())
      ensures old(|Contents()[Contents()[p].pivots[i].child].pivots| > 0)
      ensures Snap() == Pushed(old(Snap()), p, i)
    {
      hide Sound, SameReads, SameWidths, Contents, Wired, H, PushDown, PivotsOk, BufOk;
      ghost var t := Snap();
      ContentsAt(p);
      ghost var c := nodes[p].pivots[i].child;
      PushStep(t, Bounds(), slack, p, i);
      PushIsInRange(t, Bounds(), slack, p, i);
      ContentsHas(c);
      PushBuffer(p, i, t.g[c].lo, t.g[c].hi);
    }

    /** Node::lockPath: from id to the leaf for key, draining every buffer on the way. */
    method LockPathFrom(id: Nid, key: Key, above: seq<Nid>, ghost slack: Nid) returns (path: seq<Nid>)
      requires Steady(slack) && id in nodes && id in layout && InRange(key, layout[id].lo, layout[id].hi)
      requires DrainedPath(Contents(), root, above + [id])
      modifies nodes.Values
      ensures Steady(slack) && SameReads(old(Snap()), Snap()) && SameWidths(old(Contents()), Contents())
      ensures H(Snap()) < old(H(Snap())) || Snap() == old(Snap())
      ensures path != [] && DrainedPath(Contents(), root, path)
      ensures var leaf := path[|path| - 1];
              leaf in nodes && leaf in layout && layout[leaf].level == 0
                  && InRange(key, layout[leaf].lo, layout[leaf].hi)
      ensures Snap() == DrainWay(old(Snap()), id, layout[id].level, key)
      ensures path == above + WayOf(old(Snap()), id, layout[id].level, key)
      decreases layout[id].level
    {
      hide Sound, SameReads, SameWidths, Contents, Wired, H, DrainedPath, Pushed, InRange, Ordered;
      hide DrainWay, WayOf, ChildFor;
      path := above + [id];
      ghost var t := Snap();
      ContentsAt(id);
      NodeOrdered(Bounds(), slack, id);
      var index := nodes[id].FindPivot(key);
      NextOnPath(t, Bounds(), slack, id, key);
      ChildForIs(t, id, key);
      SameReadsRefl(t, Bounds(), slack);
      SameWidthsRefl(t.s);
      if nodes[id].pivots[index].child != NID_NIL {
        var c := nodes[id].pivots[index].child;
        if t.s[id].pivots[index].buf == [] {
          PushNothing(t, Bounds(), slack, id, index);
        }
        PathAfterPush(t, Bounds(), slack, path, index);
        PushBufferStep(id, index, slack);
        ghost var t1 := Snap();
        ContentsHas(c);
        ghost var h := layout[id].level;
        DrainNext(t, id, h, key);
        path := LockPathFrom(c, key, path, slack);
        SameReadsTrans(t, t1, Snap());
        SameWidthsTrans(t.s, t1.s, Contents());
      } else {
        DrainEnds(t, id, layout[id].level, key);
      }
    }

    /** BufferTree::lockPath: with one thread the root read before locking is still the root. */
    method LockPath(key: Key, ghost slack: Nid) returns (path: seq<Nid>)
      requires Steady(slack)
      modifies nodes.Values
      ensures Steady(slack) && SameReads(old(Snap()), Snap()) && SameWidths(old(Contents()), Contents())
      ensures H(Snap()) < old(H(Snap())) || Snap() == old(Snap())
      ensures NotAbove(Snap(), old(Snap()))
      ensures path != [] && DrainedPath(Contents(), root, path)
      ensures var leaf := path[|path| - 1];
              leaf in nodes && leaf in layout && layout[leaf].level == 0
                  && InRange(key, layout[leaf].lo, layout[leaf].hi)
      ensures root in layout && Snap() == DrainWay(old(Snap()), root, layout[root].level, key)
      ensures path == WayOf(old(Snap()), root, layout[root].level, key)
    {
      hide Sound, SameReads, SameWidths, Contents, Wired, H, C, DrainedPath, InRange, DrainWay, WayOf;
      RootTakesAll(Snap(), Bounds(), slack, key);
      Ids(slack);
      path := LockPathFrom(root, key, [], slack);
    }

    // -------------------------------------------------------------- pushDownOrSplit

    /** The first half of Node::splitBuf: the upper half of a leaf buffer moves behind a new pivot. */
    method MoveUpperMessages(id: Nid, i: nat)
      requires Wired() && id in nodes && i < |nodes[id].pivots| && Splittable(nodes[id].pivots[i].buf)
      requires Sorted(nodes[id].pivots[i].buf)
      requires Ordered(nodes[id].pivots, nodes[id].pivots[0].leftKey, None)
      modifies nodes.Values
      ensures old(id in Contents() && i < |Contents()[id].pivots| && |Contents()[id].pivots[i].buf| > 0)
      ensures Contents()
                == old(Contents())[id := old(Contents()[id]).(pivots := SplitPivot(old(Contents()[id].pivots), i))]
    {
      hide Ordered, Sorted, TreeModel.AddPivot, Lt, Le;
      var node := nodes[id];
      var buf0 := node.pivots[i].buf;
      var middle := |buf0| / 2;
      var buf1: seq<Msg> := [];
      var iter := middle;
      while iter < |buf0|
        invariant middle <= iter <= |buf0|
        invariant buf1 == buf0[middle..iter]
        modifies {}
      {
        InsertAtEnd(buf0, middle, iter);
        buf1 := InsertMsg(buf1, buf0[iter]);
        iter := iter + 1;
      }
      HalvesSize(buf0, middle);
      assert buf0[middle..|buf0|] == buf0[middle..];
      assert BufSize(buf0[..|buf0| / 2]) + BufSize(buf1) >= BufSize(buf0);
      node.pivots := node.pivots[i := node.pivots[i].(buf := buf0[..|buf0| / 2])];
      ShapeOrdered(old(nodes[id].pivots), node.pivots, node.pivots[0].leftKey, None);
      node.AddPivot(NID_NIL, buf1, buf0[middle].key);
    }

    /** What is known of a leaf buffer over the limit. */
    lemma LeafToSplit(id: Nid, i: nat)
      requires Steady(NID_NIL) && id in nodes && i < |nodes[id].pivots| && nodes[id].pivots[i].child == NID_NIL
      requires BufSize(nodes[id].pivots[i].buf) > maxNodeMsg
      ensures var l := nodes[id].pivots[i].buf;
              && id in layout && layout[id].level == 0
              && (Splittable(l) ==>
                    CanSplit(Snap(), Bounds(), id, i) && |l| > 0 && Sorted(l)
                        && InRange(l[0].key, layout[id].lo, layout[id].hi))
              && (!Splittable(l) ==> maxNodeMsg < 4 || emptyLimit != maxNodeMsg)
              && (i == 0 && Stuck(Snap(), id, maxNodeMsg) ==> |l| > 0 && l[0].key == [])
    {
      hide Sound, Contents, Wired, InRange, BufSize, Sorted, Stuck, Splittable, CanSplit;
      ghost var t := Snap();
      ContentsAt(id);
      Ids(NID_NIL);
      ChildrenOfLeaf(t, Bounds(), NID_NIL, id, i);
      OverLimitCanSplit(t, Bounds(), NID_NIL, id, i);
      BufferSorted(t, Bounds(), NID_NIL, id, i);
      if Splittable(nodes[id].pivots[i].buf) {
        MiddleIn(nodes[id].pivots[i].buf);
        BufferedKeyInRange(t, Bounds(), NID_NIL, id, i, 0);
      }
      if i == 0 && Stuck(t, id, maxNodeMsg) {
        StuckAtFirst(t, Bounds(), NID_NIL, id, maxNodeMsg);
      }
    }

    /** Node::splitBuf: split the buffer, then every node on the locked path that became too wide. */
    method SplitBuf(id: Nid, i: nat) returns (stopped: bool)
      requires Steady(NID_NIL) && id in nodes && i < |nodes[id].pivots| && nodes[id].pivots[i].child == NID_NIL
      requires BufSize(nodes[id].pivots[i].buf) > maxNodeMsg
      modifies this`nodes, this`nodeCount, this`layout, this`root, nodes.Values
      ensures stopped ==> maxNodeMsg < 4 || emptyLimit != maxNodeMsg
      ensures !stopped ==> Steady(NID_NIL) && Grew() && SameReads(old(Snap()), Snap()) && NotAbove(Snap(), old(Snap()))
      ensures !stopped && H(Snap()) == old(H(Snap())) ==> Far(id) < old(Far(id)) && LevelOf(id) == 0
      ensures !stopped && i == 0 && old(Stuck(Snap(), id, maxNodeMsg)) ==> Stuck(Snap(), id, maxNodeMsg)
      ensures !stopped ==> Relieves(old(Snap()), id, i, maxNodeChildNum, maxNodeMsg, Snap())
    {
      hide Sound, SameReads, Contents, Wired, H, C, DrainedPath, InRange, SplitPivot, Ordered, BufSize, Sorted, Stuck,
           Slide, HasKeys, PathSplit, Settles;
      ghost var t := Snap();
      ContentsAt(id);
      LeafToSplit(id, i);
      if |nodes[id].pivots[i].buf| == 0 || |nodes[id].pivots[i].buf[|nodes[id].pivots[i].buf| / 2].key| == 0 {
        return true;
      }
      NodeOrdered(Bounds(), NID_NIL, id);
      var key := nodes[id].pivots[i].buf[0].key;
      LeafSplitStep(t, Bounds(), id, i);
      MoveUpperMessages(id, i);
      ghost var t1 := Snap();
      assert t1 == LeafSplit(t, id, i);
      ContentsAt(id);
      SplitPathOf(id, key);
      SameReadsTrans(t, t1, Snap());
      stopped := false;
      if i == 0 && Stuck(t, id, maxNodeMsg) {
        StillStuck(t, Snap(), id, maxNodeMsg);
      }
    }

    /** The second half of Node::splitBuf. */
    method SplitPathOf(id: Nid, key: Key)
      requires Steady(id) && id in nodes && id in layout && layout[id].level == 0
      requires InRange(key, layout[id].lo, layout[id].hi) && |nodes[id].pivots| >= 2
      modifies this`nodes, this`nodeCount, this`layout, this`root, nodes.Values
      ensures Steady(NID_NIL) && Grew() && SameReads(old(Snap()), Snap())
      ensures H(Snap()) < old(H(Snap()))
              || (H(Snap()) == old(H(Snap())) && C(Snap()) == old(C(Snap())) && Far(id) <= old(Far(id)))
      ensures id in Contents() && LevelOf(id) == 0 && root in layout
      ensures key == [] ==> FirstHeld(Contents()[id].pivots) == View(Contents(), layout, root, [])
      ensures old(root) in old(layout) && Snap() == PathSplit(old(Snap()), key, maxNodeChildNum)
    {
      hide Sound, SameReads, Contents, Wired, H, C, DrainedPath, InRange, HasKeys, Trimmed, View, Slide, Lookup,
           SameOff, DrainWay, WayOf, SplitUp;
      ghost var t := Snap();
      ContentsAt(id);
      var path := LockPath(key, id);
      ghost var t1 := Snap();
      ContentsAt(id);
      ContentsAt(path[|path| - 1]);
      SameLeaf(t1, Bounds(), id, id, path[|path| - 1], key);
      WidthAt(t.s, t1.s, id);
      RangeHasKeys(layout[id], key);
      if key == [] {
        LockedLeafHolds(t1, Bounds(), id, path);
      }
      SplitNode(path);
      SameReadsTrans(t, t1, Snap());
      SameReadsAt(t1, Snap(), []);
      TrimmedLeaf(t1, Snap(), Bounds(), id);
      ContentsHas(id);
    }

    /** Node::pushDown from pivot i of p, and all it sets off in the child. */
    method PushDownFrom(p: Nid, i: nat) returns (stopped: bool)
      requires Steady(NID_NIL) && p in nodes && i < |nodes[p].pivots| && nodes[p].pivots[i].child != NID_NIL
      requires BufSize(nodes[p].pivots[i].buf) > maxNodeMsg
      modifies this`nodes, this`nodeCount, this`layout, this`root, nodes.Values
      ensures stopped ==> maxNodeMsg < 4 || emptyLimit != maxNodeMsg
      ensures maxNodeMsg < 4 || (i == 0 && old(Stuck(Snap(), p, maxNodeMsg))) ==> stopped
      ensures !stopped ==> Steady(NID_NIL) && Grew() && SameReads(old(Snap()), Snap()) && H(Snap()) < old(H(Snap()))
      ensures var c := old(nodes[p].pivots[i].child); !stopped ==> c in nodes && WithinLimit(c)
      ensures !stopped ==> Relieves(old(Snap()), p, i, maxNodeChildNum, maxNodeMsg, Snap())
      decreases H(Snap()), LevelOf(p), Far(p), 0
    {
      hide Sound, SameReads, SameWidths, Contents, Wired, H, C, Pushed, BufSize, Stuck, WithinLimit, Settles;
      ghost var t := Snap();
      var c := nodes[p].pivots[i].child;
      ContentsAt(p);
      Ids(NID_NIL);
      ParentHasLevel(t, Bounds(), NID_NIL, p, i);
      OverLimitHolds(nodes[p].pivots[i].buf, maxNodeMsg);
      if i == 0 && Stuck(t, p, maxNodeMsg) {
        StuckBelow(t, Bounds(), NID_NIL, p, maxNodeMsg);
      }
      PushBufferStep(p, i, NID_NIL);
      ghost var t1 := Snap();
      ContentsHas(c);
      stopped := PushDownOrSplit(c);
      if !stopped {
        SameReadsTrans(t, t1, Snap());
      }
    }

    /** The first buffer of the node that is over the limit, or -1. */
    method FirstOverLimit(id: Nid) returns (index: int)
      requires id in nodes
      ensures index < 0 ==> WithinLimit(id)
      ensures index >= 0 ==> index < |nodes[id].pivots| && BufSize(nodes[id].pivots[index].buf) > maxNodeMsg
      ensures forall j :: 0 <= j < index ==> BufSize(nodes[id].pivots[j].buf) <= maxNodeMsg
      ensures nodes[id].pivots != [] && BufSize(nodes[id].pivots[0].buf) > maxNodeMsg ==> index == 0
    {
      hide BufSize;
      index := -1;
      for i := 0 to |nodes[id].pivots|
        invariant forall j :: 0 <= j < i ==> BufSize(nodes[id].pivots[j].buf) <= maxNodeMsg
        invariant index == -1
      {
        if BufSize(nodes[id].pivots[i].buf) > maxNodeMsg {
          index := i;
          break;
        }
      }
    }

    /** One round of Node::pushDownOrSplit: flush the buffer to its child, or split it. */
    method Relieve(id: Nid, index: nat) returns (stopped: bool)
      requires Steady(NID_NIL) && id in nodes && index < |nodes[id].pivots|
      requires BufSize(nodes[id].pivots[index].buf) > maxNodeMsg
      modifies this`nodes, this`nodeCount, this`layout, this`root, nodes.Values
      ensures stopped ==> maxNodeMsg < 4 || emptyLimit != maxNodeMsg
      ensures !stopped ==> Steady(NID_NIL) && Grew() && SameReads(old(Snap()), Snap()) && NotAbove(Snap(), old(Snap()))
      ensures !stopped && H(Snap()) == old(H(Snap())) ==> Far(id) < old(Far(id)) && LevelOf(id) == old(LevelOf(id))
      ensures !stopped && index == 0 && old(Stuck(Snap(), id, maxNodeMsg)) ==> Stuck(Snap(), id, maxNodeMsg)
      ensures var c := old(nodes[id].pivots[index].child); !stopped && c != NID_NIL ==> c in nodes && WithinLimit(c)
      ensures !stopped ==> Relieves(old(Snap()), id, index, maxNodeChildNum, maxNodeMsg, Snap())
      decreases H(Snap()), LevelOf(id), Far(id), 1
    {
      hide Sound, SameReads, Contents, Wired, H, C, BufSize, Stuck, Slide, Far, WithinLimit, Relieves;
      if nodes[id].pivots[index].child != NID_NIL {
        stopped := PushDownFrom(id, index);
      } else {
        LeafLevel(id, index);
        stopped := SplitBuf(id, index);
      }
    }

    /**
     * Node::pushDownOrSplit: while some buffer of this node is over the limit, flush the first such
     * buffer to its child, or split it if this is a leaf. It always ends. With room for an empty buffer it
     * is stopped only once a message of the empty key was written that is over the limit by itself, and
     * then it is stopped at every node whose first buffer holds that message.
     */
    method PushDownOrSplit(id: Nid) returns (stopped: bool)
      requires Steady(NID_NIL) && id in nodes
      modifies this`nodes, this`nodeCount, this`layout, this`root, nodes.Values
      ensures stopped ==> maxNodeMsg < 4 || emptyLimit != maxNodeMsg
      ensures maxNodeMsg < 4 || old(Stuck(Snap(), id, maxNodeMsg)) ==> stopped
      ensures !stopped ==> Steady(NID_NIL) && Grew() && SameReads(old(Snap()), Snap()) && NotAbove(Snap(), old(Snap()))
      ensures !stopped ==> id in nodes && WithinLimit(id)
      ensures !stopped ==> Settles(old(Snap()), id, maxNodeChildNum, maxNodeMsg, Snap())
      decreases H(Snap()), LevelOf(id), Far(id), 2
    {
      hide Sound, SameReads, Contents, Wired, H, C, BufSize, Stuck, Slide, Far, LevelOf, WithinLimit, Relieves, Settles;
      ghost var t := Snap();
      ContentsAt(id);
      SameReadsRefl(t, Bounds(), NID_NIL);
      FirstMustGo(id);
      var index := FirstOverLimit(id);
      if index < 0 {
        NothingOver(id);
        return false;
      }
      stopped := Relieve(id, index);
      if !stopped {
        ghost var t1 := Snap();
        stopped := PushDownOrSplit(id);
        if !stopped {
          SameReadsTrans(t, t1, Snap());
          SettlesNext(t, id, maxNodeChildNum, maxNodeMsg, index, t1, Snap());
        }
      }
    }

    lemma NothingOver(id: Nid)
      requires Steady(NID_NIL) && id in nodes && WithinLimit(id)
      ensures Settles(Snap(), id, maxNodeChildNum, maxNodeMsg, Snap())
    {
      hide Sound, Contents, Wired, BufSize, Settles;
      ContentsAt(id);
      Ids(NID_NIL);
      FirstOverIs(nodes[id].pivots, maxNodeMsg, |nodes[id].pivots|);
      SettlesNow(Snap(), id, maxNodeChildNum, maxNodeMsg);
    }

    lemma FirstMustGo(id: Nid)
      requires Steady(NID_NIL) && id in nodes
      ensures nodes[id].pivots != []
      ensures maxNodeMsg < 4 || Stuck(Snap(), id, maxNodeMsg) ==> BufSize(nodes[id].pivots[0].buf) > maxNodeMsg
    {
      hide Sound, Contents, Wired, BufSize, Stuck;
      Ids(NID_NIL);
      ContentsAt(id);
      if Stuck(Snap(), id, maxNodeMsg) {
        StuckAtFirst(Snap(), Bounds(), NID_NIL, id, maxNodeMsg);
      }
      EmptyBufferSize(nodes[id].pivots[0].buf);
    }

    lemma LeafLevel(id: Nid, i: nat)
      requires Steady(NID_NIL) && id in nodes && i < |nodes[id].pivots| && nodes[id].pivots[i].child == NID_NIL
      ensures LevelOf(id) == 0
    {
      hide Sound, Contents, Wired;
      Ids(NID_NIL);
      ContentsAt(id);
      ChildrenOfLeaf(Snap(), Bounds(), NID_NIL, id, i);
    }

    // -------------------------------------------------------------- the map

    /** BufferTree::init on an empty database. */
    constructor (maxNodeChildNum: nat, maxNodeMsg: nat)
      ensures Valid() && fresh(nodes.Values) && model == map[] && written == {} && allFit
      ensures this.maxNodeChildNum == maxNodeChildNum && this.maxNodeMsg == maxNodeMsg
    {
      this.maxNodeChildNum := maxNodeChildNum;
      this.maxNodeMsg := maxNodeMsg;
      var node := new Node(true, []);
      nodes := map[1 := node];
      root := 1;
      nodeCount := 1;
      layout := map[1 := Info(0, [], None)];
      written := {};
      emptyLimit := maxNodeMsg;
      allFit := true;
      model := map[];
      new;
      node.AddPivot(NID_NIL, [], []);
      InitiallyValid();
    }

    lemma InitiallyValid()
      requires nodes.Keys == {1} && nodes[1].State() == NodeState(true, [Pivot([], NID_NIL, [])])
      requires root == 1 && nodeCount == 1 && layout == Fresh().g
      requires written == {} && model == map[] && emptyLimit == maxNodeMsg && allFit
      ensures Valid()
    {
      assert Contents() == Fresh().s;
      hide Sound, View, Find, Contents;
      forall k
        ensures Sound(Snap(), Bounds(), NID_NIL)
        ensures View(Contents(), layout, root, k) == None
      {
        FreshIsSound(maxNodeChildNum, maxNodeMsg, k);
      }
      FreshIsSound(maxNodeChildNum, maxNodeMsg, []);
    }

    /** Node::insertMsg into the root. */
    method InsertAtRoot(msg: Msg)
      requires Wired() && root in nodes && |nodes[root].pivots| > 0
      requires Ordered(nodes[root].pivots, nodes[root].pivots[0].leftKey, None)
      modifies nodes.Values
      ensures old(root in Contents() && |Contents()[root].pivots| > 0)
      ensures Contents() == Write(old(Contents()), root, msg)
    {
      hide Ordered, Route, Msgs.InsertMsg;
      var idx := nodes[root].FindPivot(msg.key);
      nodes[root].InsertMsg(idx, msg);
    }

    ghost method Remember(msg: Msg)
      modifies this`written, this`model, this`emptyLimit, this`allFit
      ensures written == old(written) + {msg.key}
      ensures Rules(maxNodeMsg, emptyLimit, allFit) == Noted(old(Rules(maxNodeMsg, emptyLimit, allFit)), msg)
      ensures model == Applied(old(model), msg)
      ensures Contents() == old(Contents()) && (old(Wired()) ==> Wired())
    {
      written := written + {msg.key};
      model := Applied(model, msg);
      var rules := Noted(Rules(maxNodeMsg, emptyLimit, allFit), msg);
      emptyLimit, allFit := rules.emptyLimit, rules.allFit;
    }

    /** The first half of Node::write: the message is in the root's buffer. */
    method WriteAtRoot(msg: Msg)
      requires Steady(NID_NIL)
      modifies this`written, this`model, this`emptyLimit, this`allFit, nodes.Values
      ensures Steady(NID_NIL)
      ensures model == Applied(old(model), msg) && written == old(written) + {msg.key}
      ensures Rules(maxNodeMsg, emptyLimit, allFit) == Noted(old(Rules(maxNodeMsg, emptyLimit, allFit)), msg)
      ensures old(root in Contents() && |Contents()[root].pivots| > 0)
      ensures Snap() == Written(old(Snap()), msg)
    {
      hide Sound, Contents, Wired, Ordered, Noted, Applied, Write;
      ghost var t := Snap();
      Ids(NID_NIL);
      NodeOrdered(Bounds(), NID_NIL, root);
      ContentsAt(root);
      WriteStep(t, Bounds(), msg);
      hide View;
      InsertAtRoot(msg);
      Remember(msg);
    }

    /** Node::write on the root. */
    method WriteMsg(msg: Msg) returns (stopped: bool)
      requires Valid()
      modifies this, nodes.Values
      ensures stopped <==> !CanWrite(msg, maxNodeMsg)
      ensures !stopped ==> Valid() && Grew()
      ensures !stopped ==> model == Applied(old(model), msg) && written == old(written) + {msg.key}
      ensures !stopped ==> (allFit <==> old(allFit) && Fits(msg, maxNodeMsg))
      ensures !stopped ==> old(root) in nodes && WithinLimit(old(root))
      ensures !stopped ==> WriteTakes(old(Snap()), msg, maxNodeChildNum, maxNodeMsg, Snap())
    {
      hide Sound, SameReads, Contents, Wired, H, C, Fits, CanWrite, Noted, View, Applied, ReadsAs, WithinLimit, BufSize;
      hide Written, Stuck, Settles;
      ghost var t := Snap();
      Ids(NID_NIL);
      ghost var q := Bounds();
      WrittenFields(t, msg);
      WriteStopsIff(t, q, msg);
      WriteAtRoot(msg);
      NotedFits(q.rules, msg);
      stopped := PushDownOrSplit(root);
      if !stopped {
        ReadsFollowModel(t, q, Snap(), old(model), msg);
      }
    }

    /** No buffer of the node is over the limit. */
    ghost predicate WithinLimit(id: Nid)
      reads this, nodes.Values
      requires id in nodes
    {
      forall i :: 0 <= i < |nodes[id].pivots| ==> BufSize(nodes[id].pivots[i].buf) <= maxNodeMsg
    }

    /** BufferTree::put. */
    method Put(key: Key, value: Value) returns (succ: bool, stopped: bool)
      requires Valid()
      modifies this, nodes.Values
      ensures stopped <==> !CanWrite(Msg.Put(key, value), maxNodeMsg)
      ensures !stopped ==> Valid() && Grew() && succ
      ensures !stopped ==> model == old(model)[key := value] && written == old(written) + {key}
      ensures !stopped ==> (allFit <==> old(allFit) && Fits(Msg.Put(key, value), maxNodeMsg))
      ensures !stopped ==> WriteTakes(old(Snap()), Msg.Put(key, value), maxNodeChildNum, maxNodeMsg, Snap())
    {
      hide WriteTakes;
      stopped := WriteMsg(Msg.Put(key, value));
      succ := !stopped;
    }

    /** BufferTree::del. */
    method Del(key: Key) returns (succ: bool, stopped: bool)
      requires Valid()
      modifies this, nodes.Values
      ensures stopped <==> !CanWrite(Msg.Del(key), maxNodeMsg)
      ensures !stopped ==> Valid() && Grew() && succ
      ensures !stopped ==> model == old(model) - {key} && written == old(written) + {key}
      ensures !stopped ==> (allFit <==> old(allFit) && Fits(Msg.Del(key), maxNodeMsg))
      ensures !stopped ==> WriteTakes(old(Snap()), Msg.Del(key), maxNodeChildNum, maxNodeMsg, Snap())
    {
      hide WriteTakes;
      stopped := WriteMsg(Msg.Del(key));
      succ := !stopped;
    }

    /** Node::get. */
    method GetFrom(id: Nid, key: Key) returns (found: bool, value: Value)
      requires Steady(NID_NIL) && id in nodes && id in layout && InRange(key, layout[id].lo, layout[id].hi)
      ensures Answer(Find(Contents(), id, layout[id].level, key)) == if found then Some(value) else None
      decreases layout[id].level
    {
      hide Sound, Contents, Wired, Ordered, Lookup, InRange;
      ContentsAt(id);
      NodeOrdered(Bounds(), NID_NIL, id);
      NextOnPath(Snap(), Bounds(), NID_NIL, id, key);
      var index := nodes[id].FindPivot(key);
      var p := nodes[id].pivots[index];
      var lookup := Lookup(p.buf, key);
      if lookup.Some? {
        if lookup.value.Put? {
          return true, lookup.value.value;
        }
        return false, [];
      }
      if p.child == NID_NIL {
        return false, [];
      }
      ContentsHas(p.child);
      found, value := GetFrom(p.child, key);
    }

    /** BufferTree::get answers what the plain map would. */
    method Get(key: Key) returns (found: bool, value: Value)
      requires Valid()
      ensures found <==> key in model
      ensures found ==> value == model[key]
    {
      hide Sound, Contents, Wired, InRange, Find;
      RootTakesAll(Snap(), Bounds(), NID_NIL, key);
      Ids(NID_NIL);
      found, value := GetFrom(root, key);
      assert View(Contents(), layout, root, key) == Find(Contents(), root, layout[root].level, key);
    }
  }

  lemma {:induction false} WrittenFields(t: Tree, m: Msg)
    requires t.root in t.s && |t.s[t.root].pivots| > 0
    ensures Written(t, m).root == t.root && Written(t, m).g == t.g
  {
  }

  /** A write returns exactly when an empty buffer is within the limit and the message is not one of the
      empty key that is over the limit by itself. */
  predicate CanWrite(m: Msg, limit: nat) {
    limit >= 4 && (m.key == [] ==> Fits(m, limit))
  }

  lemma NotedFits(r: Rules, m: Msg)
    ensures Noted(r, m).allFit <==> r.allFit && Fits(m, r.limit)
  {
  }

  /** A message that cannot be written leaves the root stuck, or not even an empty buffer fits; any other
      keeps those of the empty key within the limit. */
  lemma {:induction false} WriteStopsIff(t: Tree, q: Params, m: Msg)
    requires Sound(t, q, NID_NIL) && q.rules.emptyLimit == q.rules.limit
    ensures !CanWrite(m, q.rules.limit) ==> q.rules.limit < 4 || Stuck(Written(t, m), t.root, q.rules.limit)
    ensures CanWrite(m, q.rules.limit) ==> q.rules.limit >= 4 && Noted(q.rules, m).emptyLimit == q.rules.limit
  {
    hide Sound, Stuck, Fits, Written;
    NotedAllows(q.rules, m);
    if m.key == [] && !Fits(m, q.rules.limit) {
      WrittenStuck(t, q, m, q.rules.limit);
    }
  }

  lemma {:induction false} CanWriteIff(m: Msg, limit: nat)
    ensures CanWrite(m, limit) <==> limit >= 4 && (m.key == [] ==> 16 + (if m.Put? then |m.value| else 0) <= limit)
  {
    OneMessage(m);
  }

  lemma OnePivotOrdered(c: Nid)
    ensures Ordered([Pivot([], c, [])], [], None)
  {
    LtImpliesLe([], []);
  }

  lemma EmptyBufferSize(l: seq<Msg>)
    ensures BufSize(l) >= 4
  {
  }

  lemma OverLimitHolds(l: seq<Msg>, limit: nat)
    requires BufSize(l) > limit
    ensures l != [] || limit < 4
  {
  }

  lemma RangeHasKeys(f: Info, k: Key)
    requires InRange(k, f.lo, f.hi)
    ensures HasKeys(f)
  {
    if f.hi.Some? {
      LtTransitive(f.lo, k, f.hi.value);
    }
  }

  ghost predicate ReadsAs(t: Tree, m: map<Key, Value>) {
    && t.root in t.g
    && forall k {:trigger View(t.s, t.g, t.root, k)} :: Answer(View(t.s, t.g, t.root, k)) == ValueIn(m, k)
  }

  lemma {:induction false} ReadsFollowModel(t: Tree, q: Params, t': Tree, m: map<Key, Value>, msg: Msg)
    requires Sound(t, q, NID_NIL) && ReadsAs(t, m) && SameReads(Written(t, msg), t')
    ensures ReadsAs(t', Applied(m, msg))
  {
    hide View, Sound, Inv;
    WriteStep(t, q, msg);
    WrittenFields(t, msg);
    var t1 := Written(t, msg);
    forall k
      ensures Answer(View(t'.s, t'.g, t'.root, k)) == ValueIn(Applied(m, msg), k)
    {
      assert View(t'.s, t'.g, t'.root, k) == View(t1.s, t1.g, t1.root, k);
    }
  }

  lemma {:induction false} BufferSorted(t: Tree, q: Params, slack: Nid, id: Nid, i: nat)
    requires Sound(t, q, slack) && id in t.s && id in t.g && i < |t.s[id].pivots|
    ensures Sorted(t.s[id].pivots[i].buf)
  {
    hide Sound, Inv;
    NodeIsOk(t.s, t.g, t.root, id);
    assert BufOk(t.s[id].pivots[i].buf, t.s[id].pivots[i].leftKey, Hi(t.s[id].pivots, i, t.g[id].hi));
  }

  lemma {:induction false} PivotsNotEmpty(ps: seq<Pivot>, lo: Key, hi: Option<Key>)
    requires PivotsOk(ps, lo, hi)
    ensures |ps| > 0
  {
  }

  lemma {:induction false} HalveThenGrow(s: Store, c: Nid, d: Nid, r: Nid)
    requires c in s && |s[c].pivots| > 0
    ensures var ps := TreeModel.AddPivot([Pivot([], c, [])], Pivot(MiddleKey(s[c].pivots), d, []));
            GrowUp(s, c, d, r) == Halve(s, c, d)[r := NodeState(false, ps)]
  {
  }

  lemma {:induction false} HalveThenAnnounce(s: Store, p: Nid, c: Nid, d: Nid)
    requires p in s && c in s && p != c && p != d && |s[p].pivots| > 0 && |s[c].pivots| > 0
    ensures var h := Halve(s, c, d);
            && p in h && h[p] == s[p]
            && SplitChild(s, p, c, d)
                 == h[p := h[p].(pivots := TreeModel.AddPivot(h[p].pivots, Pivot(MiddleKey(s[c].pivots), d, [])))]
  {
    hide TreeModel.AddPivot;
  }
}
