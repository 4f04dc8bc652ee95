/**
 * The skip list (src/Skiplist.h) as linked towers, instantiated at messages compared by key. A ghost
 * sequence spells level 0; where each link of each tower leads is a function of it.
 */
module SkipList {
  import opened Keys
  import opened Msgs
  import opened Towers

  const MAX_HEIGHT := 17

  class Node {
    var key: Msg
    var next: seq<Node?>

    constructor (key: Msg, height: nat)
      ensures this.key == key && next == seq(height, _ => null)
    {
      this.key := key;
      this.next := seq(height, _ => null);
    }
  }

  class SkipList {
    var head: Node
    var maxHeight: nat
    var count: nat
    /** The head and then every node in level-0 order. */
    ghost var nodes: seq<Node>

    static ghost function HeightsOf(ns: seq<Node>): (hs: seq<nat>)
      reads ns
      ensures |hs| == |ns| && forall i :: 0 <= i < |ns| ==> hs[i] == |ns[i].next|
    {
      seq(|ns|, i requires 0 <= i < |ns| reads ns => |ns[i].next|)
    }

    static ghost function KeysOf(ns: seq<Node>): (l: seq<Msg>)
      reads ns
      requires |ns| > 0
      ensures |l| == |ns| - 1 && forall i :: 0 <= i < |ns| - 1 ==> l[i] == ns[i + 1].key
    {
      seq(|ns| - 1, i requires 0 <= i < |ns| - 1 reads ns => ns[i + 1].key)
    }

    ghost function Heights(): (hs: seq<nat>)
      reads this`nodes, nodes
      ensures |hs| == |nodes|
    {
      HeightsOf(nodes)
    }

    ghost function Contents(): (l: seq<Msg>)
      reads this`nodes, nodes
      requires |nodes| > 0
      ensures |l| == |nodes| - 1
    {
      KeysOf(nodes)
    }

    /** The node at position r, or NULL past the end. */
    ghost function At(r: nat): Node?
      reads this`nodes
    {
      if r < |nodes| then nodes[r] else null
    }

    ghost predicate Shape()
      reads this`head, this`maxHeight, this`nodes, nodes
    {
      && |nodes| > 0 && nodes[0] == head && |head.next| == MAX_HEIGHT
      && (forall i, j :: 0 <= i < j < |nodes| ==> nodes[i] != nodes[j])
      && 1 <= maxHeight <= MAX_HEIGHT
      && (forall i :: 0 < i < |nodes| ==> 1 <= |nodes[i].next| <= maxHeight)
    }

    /** Where the heights say a link leads. */
    static ghost function LinkTarget(ns: seq<Node>, hs: seq<nat>, q: nat, lev: nat): Node?
      requires |ns| == |hs| && q < |hs|
    {
      var r := Succ(hs, q, lev);
      if r < |ns| then ns[r] else null
    }

    static ghost predicate IsLinked(ms: seq<Node>)
      reads ms
    {
      forall q, lev :: 0 <= q < |ms| && 0 <= lev < |ms[q].next| ==>
            ms[q].next[lev] == LinkTarget(ms, HeightsOf(ms), q, lev)
    }

    ghost predicate Linked()
      reads this`nodes, nodes
    {
      IsLinked(nodes)
    }

    ghost predicate Valid()
      reads this, nodes
    {
      Shape() && count == |nodes| - 1 && Sorted(Contents()) && Linked()
    }

    constructor ()
      ensures Valid() && Contents() == [] && fresh(nodes)
    {
      head := new Node(Msg.Del([]), MAX_HEIGHT);
      maxHeight := 1;
      count := 0;
      nodes := [head];
    }

    /** The position in `nodes` of the first node whose key is not below k. */
    ghost function Bound(k: Key): (b: nat)
      reads this`nodes, nodes
      requires |nodes| > 0
      ensures 0 < b <= |nodes|
    {
      LowerBound(Contents(), k) + 1
    }

    lemma BelowBound(k: Key, q: nat)
      requires Valid() && 0 < q < |nodes|
      ensures q < Bound(k) <==> Lt(nodes[q].key.key, k)
    {
      var l := Contents();
      var b := LowerBound(l, k);
      assert l[q - 1] == nodes[q].key;
      if q - 1 >= b {
        if q - 1 > b {
          LtTransitive(k, l[b].key, l[q - 1].key);
        }
      }
    }

    /** One look ahead from position p, which is before the bound, at level lev. */
    lemma LookAhead(k: Key, p: nat, lev: nat) returns (r: nat)
      requires Valid() && p < Bound(k) && lev < Heights()[p]
      ensures r == Succ(Heights(), p, lev)
      ensures p < r <= |nodes| && lev < MAX_HEIGHT && lev < |nodes[p].next|
      ensures nodes[p].next[lev] == if r < |nodes| then nodes[r] else null
      ensures r < |nodes| ==> Heights()[r] > lev
      ensures r < Bound(k) <==> r < |nodes| && Lt(nodes[r].key.key, k)
      ensures r >= Bound(k) && lev == 0 ==> r == Bound(k)
    {
      r := Succ(Heights(), p, lev);
      if r < |nodes| {
        BelowBound(k, r);
      }
      if r > Bound(k) {
        assert Heights()[Bound(k)] <= lev;
      }
    }

    /** prev holds, at the levels from `low` up to `high`, the last node before b. */
    ghost predicate Before(prev: seq<Node>, b: nat, low: nat, high: nat)
      reads this`nodes, nodes
    {
      && |prev| == MAX_HEIGHT && 0 < b <= |nodes| && high <= MAX_HEIGHT && high <= Heights()[0]
      && forall lev :: low <= lev < high ==> prev[lev] == nodes[Pred(Heights(), b, lev)]
    }

    /** A node whose link at this level leads to the bound or past it is the last before the bound. */
    lemma BeforeNext(prev: seq<Node>, k: Key, p: nat, lev: nat)
      requires Valid() && p < Bound(k) && lev < Heights()[p] && lev < MAX_HEIGHT
      requires Succ(Heights(), p, lev) >= Bound(k) && Before(prev, Bound(k), lev + 1, maxHeight)
      ensures Before(prev[lev := nodes[p]], Bound(k), lev, maxHeight)
    {
      OnlyPredPasses(Heights(), Bound(k), p, lev);
      var now := prev[lev := nodes[p]];
      forall low | lev <= low < maxHeight
        ensures Heights()[0] > low && now[low] == nodes[Pred(Heights(), Bound(k), low)]
      {
        if low > lev {
          assert now[low] == prev[low];
        }
      }
    }

    /** findGreaterOrEqual: the first node whose key is not below key's, and at every active level the
        last node whose key is. */
    method FindGreaterOrEqual(key: Msg) returns (node: Node?, prev: seq<Node>)
      requires Valid()
      ensures node == At(Bound(key.key))
      ensures Before(prev, Bound(key.key), 0, maxHeight)
    {
      var curr := head;
      var level := maxHeight - 1;
      prev := seq(MAX_HEIGHT, _ => curr);
      ghost var p := 0;
      ghost var k := key.key;
      assert Heights()[0] == MAX_HEIGHT;
      assert Before(prev, Bound(k), level + 1, maxHeight);
      hide *;
      while true
        invariant 0 <= level < maxHeight <= MAX_HEIGHT && 0 <= p < Bound(k)
        invariant curr == nodes[p] && Heights()[p] > level
        invariant Before(prev, Bound(k), level + 1, maxHeight)
        decreases level, |nodes| - p
      {
        ghost var r := LookAhead(k, p, level);
        var next := curr.next[level];
        if next != null && Lt(next.key.key, key.key) {
          curr := next;
          p := r;
        } else {
          BeforeNext(prev, k, p, level);
          prev := prev[level := curr];
          if level == 0 {
            AtIs(r);
            return next, prev;
          }
          level := level - 1;
        }
      }
    }

    /** findLessThan: the last node whose key is below k, or the head. */
    method FindLessThan(key: Msg) returns (node: Node)
      requires Valid()
      ensures node == nodes[Bound(key.key) - 1]
    {
      var curr := head;
      var level := maxHeight - 1;
      ghost var p := 0;
      ghost var k := key.key;
      assert Heights()[0] == MAX_HEIGHT;
      hide *;
      while true
        invariant 0 <= level < maxHeight <= MAX_HEIGHT && 0 <= p < Bound(k)
        invariant curr == nodes[p] && Heights()[p] > level
        decreases level, |nodes| - p
      {
        ghost var r := LookAhead(k, p, level);
        var next := curr.next[level];
        if next == null || !Lt(next.key.key, key.key) {
          if level == 0 {
            LastBelow(k, p, r);
            return curr;
          }
          level := level - 1;
        } else {
          curr := next;
          p := r;
        }
      }
    }

    lemma LastBelow(k: Key, p: nat, r: nat)
      requires Valid() && p < Bound(k) == r && r == Succ(Heights(), p, 0)
      ensures p == Bound(k) - 1
    {
      hide Linked, Sorted, LowerBound;
      SuccIs(Heights(), p, 0, p + 1);
    }

    /** Where one link leads. */
    lemma FollowLink(p: nat, lev: nat) returns (r: nat)
      requires Valid() && p < |nodes| && lev < Heights()[p]
      ensures p < r <= |nodes| && lev < |nodes[p].next|
      ensures nodes[p].next[lev] == if r < |nodes| then nodes[r] else null
      ensures r < |nodes| ==> Heights()[r] > lev
      ensures lev == 0 ==> r == p + 1
    {
      r := Succ(Heights(), p, lev);
      if lev == 0 {
        Level0(p);
        SuccIs(Heights(), p, 0, p + 1);
      }
    }

    /** The loop of seekToLast. */
    method LastNode() returns (curr: Node)
      requires Valid()
      ensures curr == nodes[|nodes| - 1]
    {
      curr := head;
      var level := maxHeight - 1;
      ghost var p := 0;
      assert Heights()[0] == MAX_HEIGHT;
      hide *;
      while true
        invariant 0 <= level < maxHeight && 0 <= p < |nodes|
        invariant curr == nodes[p] && Heights()[p] > level
        decreases level, |nodes| - p
      {
        ghost var r := FollowLink(p, level);
        var next := curr.next[level];
        if next == null {
          if level == 0 {
            return;
          }
          level := level - 1;
        } else {
          curr := next;
          p := r;
        }
      }
    }

    /** contains. */
    method ContainsKey(key: Msg) returns (found: bool)
      requires Valid()
      ensures found <==> exists i :: 0 <= i < |Contents()| && Contents()[i].key == key.key
    {
      var x, _ := FindGreaterOrEqual(key);
      found := x != null && x.key.key == key.key;
      InsertsAtBound(key);
      ghost var l := Contents();
      if found {
        assert l[Bound(key.key) - 1].key == key.key;
      }
      LookupMember(l, key.key);
      forall i | 0 <= i < |l| && l[i].key == key.key
        ensures found
      {
        assert l[i] in l;
        assert Lookup(l, key.key).Some?;
      }
    }

    lemma AtIs(r: nat)
      ensures At(r) == if r < |nodes| then nodes[r] else null
    {
    }

    // -------------------------------------------------------------- insert

    /** Levels that were not in use have only the head before any position. */
    lemma HeadIsBefore(prev: seq<Node>, raised: seq<Node>, b: nat, height: nat)
      requires Shape() && Before(prev, b, 0, maxHeight) && maxHeight < height <= MAX_HEIGHT && |raised| == MAX_HEIGHT
      requires forall lev :: 0 <= lev < maxHeight ==> raised[lev] == prev[lev]
      requires forall lev :: maxHeight <= lev < height ==> raised[lev] == head
      ensures Before(raised, b, 0, height)
    {
      forall lev | 0 <= lev < height
        ensures Heights()[0] > lev && raised[lev] == nodes[Pred(Heights(), b, lev)]
      {
        if lev >= maxHeight {
          PredIs(Heights(), b, lev, 0);
        }
      }
    }

    /** insert's first loop, which puts the head before a tower higher than all others. */
    method RaiseHeight(prev: seq<Node>, height: nat, ghost b: nat) returns (raised: seq<Node>)
      requires Valid() && Before(prev, b, 0, maxHeight) && height <= MAX_HEIGHT
      modifies this`maxHeight
      ensures Valid() && Before(raised, b, 0, height)
      ensures maxHeight == if height > old(maxHeight) then height else old(maxHeight)
    {
      hide Before, Heights, Contents, Linked, Pred;
      raised := prev;
      if height > maxHeight {
        BeforeLength(prev, b, maxHeight);
        var i := maxHeight;
        while i < height
          invariant maxHeight <= i <= height && |raised| == MAX_HEIGHT
          invariant forall lev :: 0 <= lev < maxHeight ==> raised[lev] == prev[lev]
          invariant forall lev :: maxHeight <= lev < i ==> raised[lev] == head
          modifies {}
        {
          raised := raised[i := head];
          i := i + 1;
        }
        HeadIsBefore(prev, raised, b, height);
        maxHeight := height;
      } else {
        BeforeLess(prev, b, height);
      }
    }

    lemma BeforeLength(prev: seq<Node>, b: nat, high: nat)
      requires Before(prev, b, 0, high)
      ensures |prev| == MAX_HEIGHT
    {
    }

    lemma BeforeLess(prev: seq<Node>, b: nat, high: nat)
      requires Before(prev, b, 0, maxHeight) && high <= maxHeight
      ensures Before(prev, b, 0, high)
    {
    }

    static function SplicedNodes(ns: seq<Node>, b: nat, curr: Node): seq<Node>
      requires b <= |ns|
    {
      ns[..b] + [curr] + ns[b..]
    }

    /** The links of a list once curr stands at b: at each of its levels the last tower before it leads
        to it and it leads where that tower led. */
    static ghost function NewLink(ns: seq<Node>, hs: seq<nat>, b: nat, curr: Node, height: nat, q: nat, lev: nat): Node?
      requires |ns| == |hs| && 0 < b <= |hs| && q < |hs| && hs[0] > lev
    {
      if lev < height && q == Pred(hs, b, lev) then curr else LinkTarget(ns, hs, q, lev)
    }

    static lemma OldNodeRelinked(ns: seq<Node>, hs: seq<nat>, b: nat, curr: Node, height: nat, q: nat, lev: nat)
      requires |ns| == |hs| && 0 < b <= |hs| && q < |hs| && lev < hs[q] && hs[0] > lev
      ensures NewLink(ns, hs, b, curr, height, q, lev)
           == LinkTarget(SplicedNodes(ns, b, curr), Spliced(hs, b, height), if q < b then q else q + 1, lev)
    {
      SuccSpliced(hs, b, height, q, lev);
      if q < b {
        OnlyPredPasses(hs, b, q, lev);
      }
    }

    static lemma NewNodeLinked(ns: seq<Node>, hs: seq<nat>, b: nat, curr: Node, height: nat, lev: nat)
      requires |ns| == |hs| && 0 < b <= |hs| && hs[0] > lev && lev < height
      ensures LinkTarget(ns, hs, Pred(hs, b, lev), lev)
           == LinkTarget(SplicedNodes(ns, b, curr), Spliced(hs, b, height), b, lev)
    {
      var p := Pred(hs, b, lev);
      OnlyPredPasses(hs, b, p, lev);
      SuccSpliced(hs, b, height, p, lev);
    }

    /** The loop of insert: at each level of the new tower, splice it in after prev. */
    static method LinkIn(ghost ns: seq<Node>, ghost hs: seq<nat>, curr: Node, prev: seq<Node>, height: nat,
                         ghost b: nat)
      requires |ns| == |hs| && 0 < b <= |ns| && curr !in ns && |curr.next| == height <= |prev|
      requires forall i, j :: 0 <= i < j < |ns| ==> ns[i] != ns[j]
      requires forall q :: 0 <= q < |ns| ==> |ns[q].next| == hs[q] <= hs[0]
      requires height <= hs[0] && forall lev :: 0 <= lev < height ==> prev[lev] == ns[Pred(hs, b, lev)]
      requires forall q, lev :: 0 <= q < |ns| && 0 <= lev < hs[q] ==> ns[q].next[lev] == LinkTarget(ns, hs, q, lev)
      modifies ns, curr
      ensures |curr.next| == height && curr.key == old(curr.key)
      ensures forall q :: 0 <= q < |ns| ==> ns[q].key == old(ns[q].key) && |ns[q].next| == hs[q]
      ensures forall q, lev :: 0 <= q < |ns| && 0 <= lev < hs[q] ==>
                ns[q].next[lev] == NewLink(ns, hs, b, curr, height, q, lev)
      ensures forall lev :: 0 <= lev < height ==> curr.next[lev] == LinkTarget(ns, hs, Pred(hs, b, lev), lev)
    {
      hide LinkTarget, Succ, Pred;
      var i := 0;
      while i < height
        invariant 0 <= i <= height && |curr.next| == height && curr.key == old(curr.key)
        invariant forall q :: 0 <= q < |ns| ==> ns[q].key == old(ns[q].key) && |ns[q].next| == hs[q]
        invariant forall q, lev :: 0 <= q < |ns| && 0 <= lev < hs[q] ==>
                    ns[q].next[lev] == NewLink(ns, hs, b, curr, i, q, lev)
        invariant forall lev :: 0 <= lev < i ==> curr.next[lev] == LinkTarget(ns, hs, Pred(hs, b, lev), lev)
      {
        ghost var p := Pred(hs, b, i);
        var at := prev[i];
        assert at == ns[p];
        curr.next := curr.next[i := at.next[i]];
        at.next := at.next[i := curr];
        i := i + 1;
      }
    }

    /** After the loop the list with curr at b is linked as its heights say. */
    static lemma SplicedLinked(ns: seq<Node>, hs: seq<nat>, b: nat, curr: Node, height: nat)
      requires |ns| == |hs| && 0 < b <= |ns| && |curr.next| == height <= hs[0]
      requires forall q :: 0 <= q < |ns| ==> |ns[q].next| == hs[q] <= hs[0]
      requires forall q, lev :: 0 <= q < |ns| && 0 <= lev < hs[q] ==>
                 ns[q].next[lev] == NewLink(ns, hs, b, curr, height, q, lev)
      requires forall lev :: 0 <= lev < height ==> curr.next[lev] == LinkTarget(ns, hs, Pred(hs, b, lev), lev)
      ensures HeightsOf(SplicedNodes(ns, b, curr)) == Spliced(hs, b, height)
      ensures var ms := SplicedNodes(ns, b, curr);
              forall q, lev :: 0 <= q < |ms| && 0 <= lev < |ms[q].next| ==>
                    ms[q].next[lev] == LinkTarget(ms, HeightsOf(ms), q, lev)
    {
      hide LinkTarget, NewLink, Pred;
      var ms := SplicedNodes(ns, b, curr);
      assert HeightsOf(ms) == Spliced(hs, b, height);
      forall q, lev | 0 <= q < |ms| && 0 <= lev < |ms[q].next|
        ensures ms[q].next[lev] == LinkTarget(ms, HeightsOf(ms), q, lev)
      {
        if q == b {
          NewNodeLinked(ns, hs, b, curr, height, lev);
        } else {
          OldNodeRelinked(ns, hs, b, curr, height, if q < b then q else q - 1, lev);
        }
      }
    }

    static lemma SplicedKeys(ns: seq<Node>, l: seq<Msg>, b: nat, curr: Node)
      requires 0 < b <= |ns| && |l| == |ns| - 1 && forall i :: 0 <= i < |l| ==> ns[i + 1].key == l[i]
      ensures KeysOf(SplicedNodes(ns, b, curr)) == l[..b - 1] + [curr.key] + l[b - 1..]
    {
    }

    static lemma SplicedDistinct(ns: seq<Node>, b: nat, curr: Node)
      requires 0 < b <= |ns| && curr !in ns && forall i, j :: 0 <= i < j < |ns| ==> ns[i] != ns[j]
      ensures var ms := SplicedNodes(ns, b, curr);
              ms[0] == ns[0] && forall i, j :: 0 <= i < j < |ms| ==> ms[i] != ms[j]
    {
      var ms := SplicedNodes(ns, b, curr);
      forall i, j | 0 <= i < j < |ms|
        ensures ms[i] != ms[j]
      {
        assert i != b ==> ms[i] == ns[if i < b then i else i - 1];
        assert j != b ==> ms[j] == ns[if j < b then j else j - 1];
      }
    }

    /** What the loop needs of the list. */
    static ghost predicate Ready(ns: seq<Node>, hs: seq<nat>, prev: seq<Node>, height: nat, b: nat)
      reads ns
    {
      && |ns| == |hs| && 0 < b <= |ns| && height <= |prev|
      && (forall i, j :: 0 <= i < j < |ns| ==> ns[i] != ns[j])
      && (forall q :: 0 <= q < |ns| ==> |ns[q].next| == hs[q] <= hs[0])
      && height <= hs[0] && (forall lev :: 0 <= lev < height ==> prev[lev] == ns[Pred(hs, b, lev)])
      && forall q, lev :: 0 <= q < |ns| && 0 <= lev < hs[q] ==> ns[q].next[lev] == LinkTarget(ns, hs, q, lev)
    }

    lemma IsReady(prev: seq<Node>, height: nat, b: nat)
      requires Shape() && Linked() && height <= maxHeight && Before(prev, b, 0, height)
      ensures Ready(nodes, Heights(), prev, height, b)
    {
      hide LinkTarget, Pred;
    }

    /** The new node and the loop, seen from outside. */
    static method SpliceLinks(ghost ns: seq<Node>, ghost hs: seq<nat>, ghost l: seq<Msg>, key: Msg, prev: seq<Node>,
                              height: nat, ghost b: nat)
      returns (curr: Node)
      requires Ready(ns, hs, prev, height, b) && |ns| > 0 && hs == HeightsOf(ns) && l == KeysOf(ns)
      modifies ns
      ensures fresh(curr) && 0 < b <= |ns| == |hs| && curr !in ns
      ensures IsLinked(SplicedNodes(ns, b, curr))
      ensures HeightsOf(SplicedNodes(ns, b, curr)) == Spliced(hs, b, height)
      ensures KeysOf(SplicedNodes(ns, b, curr)) == l[..b - 1] + [key] + l[b - 1..]
    {
      hide LinkTarget, NewLink, Pred, Succ, SplicedNodes, Spliced;
      curr := new Node(key, height);
      LinkIn(ns, hs, curr, prev, height, b);
      SplicedLinked(ns, hs, b, curr, height);
      SplicedKeys(ns, l, b, curr);
    }

    lemma SplicedShape(ns: seq<Node>, hs: seq<nat>, b: nat, curr: Node, height: nat)
      requires |ns| == |hs| && 0 < b <= |ns| && curr !in ns && nodes == SplicedNodes(ns, b, curr)
      requires HeightsOf(nodes) == Spliced(hs, b, height) && 1 <= height <= maxHeight <= MAX_HEIGHT
      requires ns[0] == head && hs[0] == MAX_HEIGHT
      requires forall i, j :: 0 <= i < j < |ns| ==> ns[i] != ns[j]
      requires forall i :: 0 < i < |ns| ==> 1 <= hs[i] <= maxHeight
      ensures Shape()
    {
      SplicedDistinct(ns, b, curr);
      forall i | 0 < i < |nodes|
        ensures 1 <= |nodes[i].next| <= maxHeight
      {
        assert HeightsOf(nodes)[i] == if i < b then hs[i] else if i == b then height else hs[i - 1];
      }
      assert HeightsOf(nodes)[0] == hs[0];
    }

    /** A new node of the drawn height takes its place at b. */
    method Splice(key: Msg, prev: seq<Node>, height: nat, ghost b: nat) returns (curr: Node)
      requires Shape() && Linked() && 1 <= height <= maxHeight && Before(prev, b, 0, height)
      modifies this`nodes, nodes
      ensures fresh(curr) && 0 < b <= |old(nodes)| && nodes == SplicedNodes(old(nodes), b, curr)
      ensures Shape() && Linked()
      ensures |Contents()| == |old(Contents())| + 1
      ensures Contents() == old(Contents())[..b - 1] + [key] + old(Contents())[b - 1..]
      ensures b <= |old(Heights())| && Heights() == Spliced(old(Heights()), b, height)
    {
      IsReady(prev, height, b);
      ghost var ns, hs, l := nodes, Heights(), Contents();
      assert forall i :: 0 < i < |ns| ==> 1 <= hs[i] <= maxHeight;
      hide Before, Ready, LinkTarget, SplicedNodes, Spliced, Shape, IsLinked;
      curr := SpliceLinks(ns, hs, l, key, prev, height, b);
      nodes := SplicedNodes(ns, b, curr);
      SplicedShape(ns, hs, b, curr, height);
    }

    /** The branch of insert that adds a node. */
    method AddNode(key: Msg, prev: seq<Node>, height: nat)
      requires Valid() && 1 <= height <= maxHeight && Before(prev, Bound(key.key), 0, height)
      requires At(Bound(key.key)) != null ==> nodes[Bound(key.key)].key.key != key.key
      modifies this`nodes, this`count, nodes
      ensures Valid() && Contents() == InsertMsg(old(Contents()), key)
      ensures forall n :: n in nodes ==> n in old(nodes) || fresh(n)
      ensures old(Bound(key.key)) <= |old(Heights())|
      ensures Heights() == Spliced(old(Heights()), old(Bound(key.key)), height)
    {
      hide Valid, Shape, Linked, Before, Bound, Contents, InsertMsg, Sorted, Spliced, Heights;
      InsertsAtBound(key);
      count := count + 1;
      var _ := Splice(key, prev, height, Bound(key.key));
      ValidParts();
    }

    lemma InsertsAtBound(m: Msg)
      requires Valid()
      ensures Shape() && Linked() && count == |nodes| - 1
      ensures Sorted(InsertMsg(Contents(), m))
      ensures At(Bound(m.key)) == null || nodes[Bound(m.key)].key.key != m.key ==>
                InsertMsg(Contents(), m) == Contents()[..Bound(m.key) - 1] + [m] + Contents()[Bound(m.key) - 1..]
      ensures At(Bound(m.key)) != null ==> Bound(m.key) < |nodes|
      ensures At(Bound(m.key)) != null && nodes[Bound(m.key)].key.key == m.key ==>
                InsertMsg(Contents(), m) == Contents()[Bound(m.key) - 1 := m]
    {
      InsertedSorted(Contents(), m);
      hide Sorted, Linked, LowerBound;
    }

    lemma ValidParts()
      requires Shape() && Linked() && count == |nodes| - 1 && |nodes| > 0 && Sorted(Contents())
      ensures Valid()
    {
    }

    /** The branch of insert that overwrites. */
    method SetKey(node: Node, key: Msg)
      requires Valid() && node == At(Bound(key.key)) && node.key.key == key.key
      modifies node`key
      ensures Valid() && Contents() == InsertMsg(old(Contents()), key) && Heights() == old(Heights())
    {
      InsertsAtBound(key);
      SetKeyAt(node, key, Bound(key.key));
    }

    method SetKeyAt(node: Node, key: Msg, ghost b: nat)
      requires Shape() && Linked() && 0 < b < |nodes| && node == nodes[b] && count == |nodes| - 1
      requires Sorted(Contents()[b - 1 := key])
      modifies node`key
      ensures Valid() && Contents() == old(Contents())[b - 1 := key] && Heights() == old(Heights())
    {
      hide Sorted, Shape, Linked, LinkedAs, Contents, KeysOf;
      ghost var nexts, l := NextsOf(nodes), KeysOf(nodes);
      ContentsAre();
      LinkedIff(nexts);
      OnlyAt(b);
      node.key := key;
      LinkedIff(nexts);
      ContentsAre();
      KeyReplaced(l, node, b);
    }

    static ghost function NextsOf(ns: seq<Node>): (r: seq<seq<Node?>>)
      reads ns
      ensures |r| == |ns| && forall i :: 0 <= i < |ns| ==> r[i] == ns[i].next
    {
      seq(|ns|, i requires 0 <= i < |ns| reads ns => ns[i].next)
    }

    /** Shape and links in terms of the links alone. */
    ghost predicate LinkedAs(nexts: seq<seq<Node?>>)
      reads this`head, this`maxHeight, this`nodes
    {
      && |nodes| == |nexts| > 0 && nodes[0] == head && |nexts[0]| == MAX_HEIGHT
      && (forall i, j :: 0 <= i < j < |nodes| ==> nodes[i] != nodes[j])
      && 1 <= maxHeight <= MAX_HEIGHT
      && (forall i :: 0 < i < |nodes| ==> 1 <= |nexts[i]| <= maxHeight)
      && var hs := seq(|nexts|, i requires 0 <= i < |nexts| => |nexts[i]|);
         forall q, lev :: 0 <= q < |nodes| && 0 <= lev < |nexts[q]| ==> nexts[q][lev] == LinkTarget(nodes, hs, q, lev)
    }

    /** So neither depends on keys. */
    lemma LinkedIff(nexts: seq<seq<Node?>>)
      requires |nexts| == |nodes| && forall i :: 0 <= i < |nodes| ==> nodes[i].next == nexts[i]
      ensures LinkedAs(nexts) <==> Shape() && Linked()
    {
      hide LinkTarget;
      assert HeightsOf(nodes) == seq(|nexts|, i requires 0 <= i < |nexts| => |nexts[i]|);
    }

    lemma OnlyAt(b: nat)
      requires Shape() && b < |nodes|
      ensures forall i :: 0 <= i < |nodes| && i != b ==> nodes[i] != nodes[b]
    {
    }

    lemma ContentsAre()
      requires |nodes| > 0
      ensures Contents() == KeysOf(nodes)
    {
    }

    lemma KeyReplaced(l: seq<Msg>, node: Node, b: nat)
      requires 0 < b < |nodes| && |l| == |nodes| - 1 && node == nodes[b]
      requires forall i :: 0 < i < |nodes| && i != b ==> nodes[i].key == l[i - 1]
      ensures KeysOf(nodes) == l[b - 1 := node.key]
    {
    }

    /** The towers after an insert that drew this height: a new one at b, or none for a key that was there;
        the list is as high as the highest drawn so far. */
    static ghost predicate Raised(hs: seq<nat>, top: nat, b: nat, isNew: bool, hs': seq<nat>, top': nat, height: nat) {
      && 1 <= height <= MAX_HEIGHT && b <= |hs| && top' == (if height > top then height else top)
      && hs' == if isNew then Spliced(hs, b, height) else hs
    }

    static ghost predicate RaisedSome(hs: seq<nat>, top: nat, b: nat, isNew: bool, hs': seq<nat>, top': nat) {
      exists height :: Raised(hs, top, b, isNew, hs', top', height)
    }

    /** insert, for whatever height randomHeight draws. */
    method Insert(key: Msg)
      requires Valid()
      modifies this`nodes, this`count, this`maxHeight, nodes
      ensures Valid() && Contents() == InsertMsg(old(Contents()), key)
      ensures forall n :: n in nodes ==> n in old(nodes) || fresh(n)
      ensures RaisedSome(old(Heights()), old(maxHeight), old(Bound(key.key)), old(Lookup(Contents(), key.key)) == None,
                         Heights(), maxHeight)
    {
      KeyAtBound(key.key);
      hide Contents, Bound, Before, Linked, Shape, Sorted, InsertMsg, Spliced, Heights, Lookup;
      ghost var hs, top, b := Heights(), maxHeight, Bound(key.key);
      ghost var isNew := Lookup(Contents(), key.key) == None;
      var next, prev := FindGreaterOrEqual(key);
      var height: nat :| 1 <= height <= MAX_HEIGHT;
      prev := RaiseHeight(prev, height, Bound(key.key));
      if next != null && next.key.key == key.key {
        SetKey(next, key);
      } else {
        AddNode(key, prev, height);
      }
      assert Raised(hs, top, b, isNew, Heights(), maxHeight, height);
    }

    lemma KeyAtBound(k: Key)
      requires Valid()
      ensures Bound(k) <= |Heights()|
      ensures Lookup(Contents(), k) == None <==> At(Bound(k)) == null || At(Bound(k)).key.key != k
    {
      hide Shape, Linked;
      LookupMember(Contents(), k);
    }

    // -------------------------------------------------------------- erase

    /** curr stands at b of the list that is otherwise ns, and prev has the towers before it. */
    static ghost predicate Removable(ns: seq<Node>, hs: seq<nat>, curr: Node, prev: seq<Node>, top: nat, height: nat,
                                     b: nat)
      reads ns, curr
    {
      && |ns| == |hs| && 0 < b <= |ns| && curr !in ns && height == |curr.next| && height <= top <= |prev|
      && (forall i, j :: 0 <= i < j < |ns| ==> ns[i] != ns[j])
      && (forall q :: 0 <= q < |ns| ==> |ns[q].next| == hs[q] <= hs[0])
      && top <= hs[0] && (forall lev :: 0 <= lev < top ==> prev[lev] == ns[Pred(hs, b, lev)])
      && (forall q, lev :: 0 <= q < |ns| && 0 <= lev < hs[q] ==>
          ns[q].next[lev] == NewLink(ns, hs, b, curr, height, q, lev))
      && forall lev :: 0 <= lev < height ==> curr.next[lev] == LinkTarget(ns, hs, Pred(hs, b, lev), lev)
    }

    /** The loop of erase: wherever a link leads to curr, it now leads where curr's does. */
    static method Unlink(ghost ns: seq<Node>, ghost hs: seq<nat>, curr: Node, prev: seq<Node>, top: nat,
                         ghost height: nat, ghost b: nat)
      requires Removable(ns, hs, curr, prev, top, height, b)
      modifies ns
      ensures forall q :: 0 <= q < |ns| ==> ns[q].key == old(ns[q].key) && |ns[q].next| == hs[q]
      ensures forall q, lev :: 0 <= q < |ns| && 0 <= lev < hs[q] ==> ns[q].next[lev] == LinkTarget(ns, hs, q, lev)
    {
      hide Succ, Pred;
      var i := 0;
      while i < top
        invariant 0 <= i <= top && curr.next == old(curr.next)
        invariant forall q :: 0 <= q < |ns| ==> ns[q].key == old(ns[q].key) && |ns[q].next| == hs[q]
        invariant forall q, lev :: 0 <= q < |ns| && 0 <= lev < hs[q] ==>
                    ns[q].next[lev] ==
                      if lev < i then LinkTarget(ns, hs, q, lev) else NewLink(ns, hs, b, curr, height, q, lev)
      {
        var at := prev[i];
        assert at == ns[Pred(hs, b, i)];
        if at.next[i] == curr {
          at.next := at.next[i := curr.next[i]];
        }
        i := i + 1;
      }
    }

    /** What a list with curr at b says about the list without it. */
    static lemma WithoutIsReady(ms: seq<Node>, b: nat, q: nat, lev: nat)
      requires 0 < b < |ms| && IsLinked(ms) && forall i :: 0 <= i < |ms| ==> HeightsOf(ms)[i] <= HeightsOf(ms)[0]
      requires q < |Without(ms, b)| && lev < |Without(ms, b)[q].next|
      ensures var ns, hs := Without(ms, b), Without(HeightsOf(ms), b);
              |ns[q].next| == hs[q] <= hs[0]
              && ns[q].next[lev] == NewLink(ns, hs, b, ms[b], HeightsOf(ms)[b], q, lev)
    {
      var ns, hs := Without(ms, b), Without(HeightsOf(ms), b);
      var q' := if q < b then q else q + 1;
      assert ns[q] == ms[q'] && hs[q] == HeightsOf(ms)[q'];
      assert SplicedNodes(ns, b, ms[b]) == ms;
      WithoutThenSpliced(HeightsOf(ms), b);
      OldNodeRelinked(ns, hs, b, ms[b], HeightsOf(ms)[b], q, lev);
    }

    static lemma WithoutNewNode(ms: seq<Node>, b: nat, lev: nat)
      requires 0 < b < |ms| && IsLinked(ms) && lev < |ms[b].next| <= HeightsOf(ms)[0]
      ensures var ns, hs := Without(ms, b), Without(HeightsOf(ms), b);
              hs[0] > lev && ms[b].next[lev] == LinkTarget(ns, hs, Pred(hs, b, lev), lev)
    {
      var ns, hs := Without(ms, b), Without(HeightsOf(ms), b);
      assert SplicedNodes(ns, b, ms[b]) == ms;
      WithoutThenSpliced(HeightsOf(ms), b);
      NewNodeLinked(ns, hs, b, ms[b], HeightsOf(ms)[b], lev);
    }

    static lemma LinksWithout(ms: seq<Node>, b: nat)
      requires 0 < b < |ms| && IsLinked(ms) && forall i :: 0 <= i < |ms| ==> HeightsOf(ms)[i] <= HeightsOf(ms)[0]
      ensures var ns, hs, curr := Without(ms, b), Without(HeightsOf(ms), b), ms[b];
              && (forall q :: 0 <= q < |ns| ==> |ns[q].next| == hs[q] <= hs[0])
              && (forall q, lev :: 0 <= q < |ns| && 0 <= lev < hs[q] ==>
                    ns[q].next[lev] == NewLink(ns, hs, b, curr, |curr.next|, q, lev))
              && forall lev :: 0 <= lev < |curr.next| ==>
                   hs[0] > lev && curr.next[lev] == LinkTarget(ns, hs, Pred(hs, b, lev), lev)
    {
      hide LinkTarget, NewLink, Pred, Succ, IsLinked;
      var ns, hs, curr := Without(ms, b), Without(HeightsOf(ms), b), ms[b];
      forall q | 0 <= q < |ns|
        ensures |ns[q].next| == hs[q] <= hs[0]
      {
        assert ns[q] == ms[if q < b then q else q + 1];
      }
      forall q, lev | 0 <= q < |ns| && 0 <= lev < hs[q]
        ensures ns[q].next[lev] == NewLink(ns, hs, b, curr, |curr.next|, q, lev)
      {
        WithoutIsReady(ms, b, q, lev);
      }
      forall lev | 0 <= lev < |curr.next|
        ensures hs[0] > lev && curr.next[lev] == LinkTarget(ns, hs, Pred(hs, b, lev), lev)
      {
        WithoutNewNode(ms, b, lev);
      }
    }

    lemma IsRemovable(prev: seq<Node>, b: nat)
      requires Shape() && Linked() && 0 < b < |nodes| && Before(prev, b, 0, maxHeight)
      ensures Removable(Without(nodes, b), Without(Heights(), b), nodes[b], prev, maxHeight, Heights()[b], b)
    {
      hide LinkTarget, NewLink, Pred, Succ, IsLinked;
      var ns, hs, all, curr := Without(nodes, b), Without(Heights(), b), Heights(), nodes[b];
      LinksWithout(nodes, b);
      forall lev | 0 <= lev < maxHeight
        ensures hs[0] > lev && prev[lev] == ns[Pred(hs, b, lev)]
      {
        PredWithout(all, b, lev);
      }
      assert forall q :: 0 <= q < |ns| ==> ns[q] == nodes[if q < b then q else q + 1];
    }

    /** The loop of erase, seen from outside. */
    static method UnlinkAll(ghost ns: seq<Node>, ghost hs: seq<nat>, curr: Node, prev: seq<Node>, top: nat,
                            ghost height: nat, ghost b: nat)
      requires Removable(ns, hs, curr, prev, top, height, b) && |ns| > 0
      modifies ns
      ensures IsLinked(ns) && HeightsOf(ns) == hs && KeysOf(ns) == old(KeysOf(ns))
    {
      ghost var l := KeysOf(ns);
      hide LinkTarget, NewLink, Pred, Succ;
      Unlink(ns, hs, curr, prev, top, height, b);
      assert HeightsOf(ns) == hs;
      assert KeysOf(ns) == l;
    }

    /** What is left of a message list without the message for k. */
    static function Erased(l: seq<Msg>, k: Key): seq<Msg>
      requires Lookup(l, k).Some?
    {
      Without(l, LowerBound(l, k))
    }

    static lemma ErasedSorted(l: seq<Msg>, k: Key)
      requires Sorted(l) && Lookup(l, k).Some?
      ensures Sorted(Erased(l, k))
    {
      var b := LowerBound(l, k);
      var rest := Erased(l, k);
      forall i, j | 0 <= i < j < |rest|
        ensures Lt(rest[i].key, rest[j].key)
      {
        assert rest[i] == l[if i < b then i else i + 1];
        assert rest[j] == l[if j < b then j else j + 1];
      }
    }

    lemma ErasesAtBound(k: Key)
      requires Valid() && Lookup(Contents(), k).Some?
      ensures Bound(k) < |nodes| && nodes[Bound(k)].key.key == k
      ensures KeysOf(Without(nodes, Bound(k))) == Erased(Contents(), k)
      ensures Sorted(Erased(Contents(), k))
    {
      ErasedSorted(Contents(), k);
      hide Shape, Linked, LowerBound, Sorted;
      assert KeysOf(Without(nodes, Bound(k))) == Without(Contents(), Bound(k) - 1);
    }

    lemma ErasedShape(ms: seq<Node>, hs: seq<nat>, b: nat)
      requires |ms| == |hs| && 0 < b < |ms| && nodes == Without(ms, b) && HeightsOf(nodes) == Without(hs, b)
      requires forall i, j :: 0 <= i < j < |ms| ==> ms[i] != ms[j]
      requires ms[0] == head && hs[0] == MAX_HEIGHT && 1 <= maxHeight <= MAX_HEIGHT
      requires forall i :: 0 < i < |ms| ==> 1 <= hs[i] <= maxHeight
      ensures Shape()
    {
      assert HeightsOf(nodes)[0] == hs[0];
      forall i | 0 < i < |nodes|
        ensures 1 <= |nodes[i].next| <= maxHeight
      {
        assert HeightsOf(nodes)[i] == hs[if i < b then i else i + 1];
      }
    }

    /** erase; its asserts are the precondition that the key is there. */
    method Erase(key: Msg)
      requires Valid() && Lookup(Contents(), key.key).Some?
      modifies this`nodes, this`count, nodes
      ensures Valid() && Contents() == Erased(old(Contents()), key.key)
      ensures forall n :: n in nodes ==> n in old(nodes)
      ensures old(Bound(key.key)) < |old(Heights())| && Heights() == Without(old(Heights()), old(Bound(key.key)))
    {
      var curr, prev := FindGreaterOrEqual(key);
      ErasesAtBound(key.key);
      EraseNode(curr, prev, Bound(key.key), Erased(Contents(), key.key));
    }

    lemma ShapeOfHeights()
      requires Shape()
      ensures forall i, j :: 0 <= i < j < |nodes| ==> nodes[i] != nodes[j]
      ensures |nodes| > 0 && nodes[0] == head && Heights()[0] == MAX_HEIGHT && 1 <= maxHeight <= MAX_HEIGHT
      ensures forall i :: 0 < i < |nodes| ==> 1 <= Heights()[i] <= maxHeight
    {
    }

    method EraseNode(curr: Node, prev: seq<Node>, ghost b: nat, ghost l: seq<Msg>)
      requires Valid() && 0 < b < |nodes| && curr == nodes[b] && Before(prev, b, 0, maxHeight)
      requires KeysOf(Without(nodes, b)) == l && Sorted(l)
      modifies this`nodes, this`count, nodes
      ensures Valid() && Contents() == l
      ensures forall n :: n in nodes ==> n in old(nodes)
      ensures b < |old(Heights())| && Heights() == Without(old(Heights()), b)
    {
      hide Before, Removable, LinkTarget, Without, Shape, IsLinked, Sorted, HeightsOf, KeysOf;
      ghost var ms, hs := nodes, Heights();
      IsRemovable(prev, b);
      ShapeOfHeights();
      WithoutNodes(ms, b);
      UnlinkAll(Without(ms, b), Without(hs, b), curr, prev, maxHeight, hs[b], b);
      nodes := Without(ms, b);
      count := count - 1;
      ErasedShape(ms, hs, b);
    }

    static lemma WithoutNodes(ms: seq<Node>, b: nat)
      requires 0 < b < |ms|
      ensures |Without(ms, b)| == |ms| - 1
      ensures forall i :: 0 <= i < |ms| - 1 ==> Without(ms, b)[i] in ms
    {
    }

    // -------------------------------------------------------------- clear and resize

    /** clear; giving the nodes back to the slab is not part of this model. */
    method Clear()
      requires Valid()
      modifies this`nodes, this`count, this`maxHeight, head
      ensures Valid() && Contents() == [] && nodes == [head]
    {
      head.next := seq(MAX_HEIGHT, _ => null);
      nodes := [head];
      count := 0;
      maxHeight := 1;
    }

    lemma Level0(q: nat)
      requires Valid() && q < |nodes|
      ensures 0 < |nodes[q].next| && nodes[q].next[0] == At(q + 1)
    {
      assert nodes[q].next[0] == LinkTarget(nodes, Heights(), q, 0);
      SuccIs(Heights(), q, 0, q + 1);
    }

    /** resize's first loop, which reads the first keys off level 0. */
    method FirstKeys(size: nat) returns (keys: seq<Msg>)
      requires Valid() && size <= count
      ensures size <= |Contents()| && keys == Contents()[..size]
    {
      hide *;
      AtCount(1);
      ghost var l := Contents();
      keys := [];
      Level0(0);
      var iter := head.next[0];
      var i := 0;
      while i < size
        invariant 0 <= i <= size && keys == l[..i] && iter == At(i + 1)
      {
        AtCount(i + 1);
        Level0(i + 1);
        keys := keys + [iter.key];
        iter := iter.next[0];
        i := i + 1;
      }
    }

    /** resize: the first `size` keys are read off level 0, the list is cleared, and they go back in. */
    method Resize(size: nat)
      requires Valid() && size <= count
      modifies this`nodes, this`count, this`maxHeight, nodes
      ensures Valid() && size <= |old(Contents())| && Contents() == old(Contents())[..size]
      ensures forall n :: n in nodes ==> n in old(nodes) || fresh(n)
    {
      var keys := FirstKeys(size);
      ClearAndRefill(keys, Contents(), size);
    }

    lemma AtCount(q: nat)
      requires Valid()
      ensures count == |nodes| - 1 && |Contents()| == count && head == nodes[0]
      ensures 0 < q <= count ==> At(q) != null && At(q) == nodes[q] && nodes[q].key == Contents()[q - 1]
    {
    }

    method ClearAndRefill(keys: seq<Msg>, ghost l: seq<Msg>, ghost size: nat)
      requires Valid() && l == Contents() && size <= |l| && keys == l[..size]
      modifies this`nodes, this`count, this`maxHeight, nodes
      ensures Valid() && Contents() == l[..size]
      ensures forall n :: n in nodes ==> n in old(nodes) || fresh(n)
    {
      assert Sorted(l) && head in nodes;
      hide *;
      Clear();
      assert l[0..0] == [];
      var i := 0;
      while i < |keys|
        invariant 0 <= i <= |keys| && Valid() && Contents() == l[0..i]
        invariant forall n :: n in nodes ==> n in old(nodes) || fresh(n)
      {
        InsertAtEnd(l, 0, i);
        assert forall j :: 0 <= j < |nodes| ==> nodes[j] in old(nodes) || fresh(nodes[j]);
        Insert(keys[i]);
        i := i + 1;
      }
      SetCount(|keys|);
      assert l[0..size] == l[..size];
    }

    /** resize's last line finds the count already right. */
    method SetCount(n: nat)
      requires Valid() && n == |Contents()|
      modifies this`count
      ensures Valid() && count == old(count)
    {
      count := n;
    }

    // -------------------------------------------------------------- levels and runs

    /** The chain of one level, read off the links: each tower of it leads to the next, the last to
        NULL. */
    lemma LevelIsLinked(lev: nat, i: nat)
      requires Valid() && lev < maxHeight && i <= |Chain(Heights(), 0, lev)|
      ensures var c := Chain(Heights(), 0, lev);
              var q := if i == 0 then 0 else c[i - 1];
              && q < |nodes| && lev < |nodes[q].next| && (i < |c| ==> 0 < c[i] < |nodes|)
              && nodes[q].next[lev] == if i < |c| then nodes[c[i]] else null
    {
      hide Sorted, Succ;
      var hs, c := Heights(), Chain(Heights(), 0, lev);
      ChainMembers(hs, 0, lev);
      if i > 0 {
        ChainRest(hs, 0, lev, i - 1);
        assert c[i - 1] in c;
      }
      var q := if i == 0 then 0 else c[i - 1];
      assert nodes[q].next[lev] == LinkTarget(nodes, hs, q, lev);
      assert i < |c| ==> c[i..][0] == c[i];
    }

    /** Every level runs over its towers in key order. */
    lemma LevelIsSorted(lev: nat)
      requires Valid() && lev < maxHeight
      ensures var c := Chain(Heights(), 0, lev);
              && (forall i :: 0 <= i < |c| ==> 0 < c[i] < |nodes|)
              && (forall i, j :: 0 <= i < j < |c| ==> Lt(nodes[c[i]].key.key, nodes[c[j]].key.key))
    {
      assert |Heights()| == |nodes| > 0;
      hide Valid, Chain;
      var c := Chain(Heights(), 0, lev);
      ChainMembers(Heights(), 0, lev);
      ChainAscends(Heights(), 0, lev);
      assert forall i :: 0 <= i < |c| ==> c[i] in c;
      assert Ascends(c);
      forall i, j | 0 <= i < j < |c|
        ensures Lt(nodes[c[i]].key.key, nodes[c[j]].key.key)
      {
        assert c[i] in c && c[j] in c;
        KeysAscend(c[i], c[j]);
      }
    }

    /** A tower met on a level is met on the level below, and level 0 runs over all nodes. */
    lemma LevelIsSublist(lev: nat)
      requires Valid() && lev < maxHeight
      ensures lev > 0 ==> forall j :: j in Chain(Heights(), 0, lev) ==> j in Chain(Heights(), 0, lev - 1)
      ensures Chain(Heights(), 0, 0) == seq(count, i => i + 1)
    {
      hide *;
      AllOnLevel0();
      AtCount(0);
      LowestChain(Heights(), 0);
      ChainMembers(Heights(), 0, lev);
      if lev > 0 {
        ChainMembers(Heights(), 0, lev - 1);
      }
    }

    lemma AllOnLevel0()
      requires Valid()
      ensures maxHeight <= MAX_HEIGHT == Heights()[0]
      ensures |Heights()| == |nodes| > 0 && forall j :: 0 <= j < |Heights()| ==> Heights()[j] > 0
    {
    }

    lemma KeysAscend(i: nat, j: nat)
      requires Valid() && 0 < i < j < |nodes|
      ensures Lt(nodes[i].key.key, nodes[j].key.key)
    {
      hide Linked;
      assert Lt(Contents()[i - 1].key, Contents()[j - 1].key);
    }
  }
}
