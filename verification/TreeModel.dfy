/**
 * The buffer tree as a value: a store of nodes by id, the walk a read makes through it,
 * and the ordering invariant every operation keeps (src/Node.h, src/Node.cpp).
 */
module TreeModel {
  import opened Keys
  import opened Msgs

  type Nid = nat
  const NID_NIL: Nid := 0

  /** A child pivot. Its buffer is the list of messages the MsgBuf holds. */
  datatype Pivot = Pivot(leftKey: Key, child: Nid, buf: seq<Msg>)
  datatype NodeState = NodeState(isLeaf: bool, pivots: seq<Pivot>)
  type Store = map<Nid, NodeState>

  /** What no node stores: its height above the leaves and the keys [lo, hi) it is for. */
  datatype Info = Info(level: nat, lo: Key, hi: Option<Key>)
  type Layout = map<Nid, Info>

  /** The pivot a key belongs to: the last one whose leftKey is not above it. */
  function Route(ps: seq<Pivot>, k: Key): (r: nat)
    requires |ps| > 0
    ensures r < |ps|
    ensures r > 0 ==> Le(ps[r].leftKey, k)
    ensures forall j :: r < j < |ps| ==> Lt(k, ps[j].leftKey)
  {
    if |ps| == 1 || !Lt(k, ps[|ps| - 1].leftKey) then |ps| - 1 else Route(ps[..|ps| - 1], k)
  }

  function At(ps: seq<Pivot>, k: Key): Pivot
    requires |ps| > 0
  {
    ps[Route(ps, k)]
  }

  /** Node::get: the first message met on the way down from id, h levels above the leaves. */
  ghost function Find(s: Store, id: Nid, h: nat, k: Key): Option<Msg>
    decreases h
  {
    if id !in s || s[id].pivots == [] then None
    else
      var p := At(s[id].pivots, k);
      var m := Lookup(p.buf, k);
      if m.Some? || p.child == NID_NIL || h == 0 then m else Find(s, p.child, h - 1, k)
  }

  // ---------------------------------------------------------------- the ordering invariant

  predicate Below(k: Key, hi: Option<Key>) {
    hi.Some? ==> Lt(k, hi.value)
  }

  predicate InRange(k: Key, lo: Key, hi: Option<Key>) {
    Le(lo, k) && Below(k, hi)
  }

  /** Where pivot i's range ends. */
  function Hi(ps: seq<Pivot>, i: nat, hi: Option<Key>): Option<Key>
    requires i < |ps|
  {
    if i + 1 < |ps| then Some(ps[i + 1].leftKey) else hi
  }

  ghost predicate BufOk(l: seq<Msg>, lo: Key, hi: Option<Key>) {
    && Sorted(l)
    && forall m :: m in l ==> InRange(m.key, lo, hi)
  }

  predicate AtMost(k: Key, hi: Option<Key>) {
    hi.Some? ==> Le(k, hi.value)
  }

  /** leftKeys never descend. They can repeat: a message too big for the limit is split off on its own,
      and its pivot's buffer stays behind empty. */
  ghost predicate Ordered(ps: seq<Pivot>, lo: Key, hi: Option<Key>) {
    && |ps| > 0
    && ps[0].leftKey == lo
    && (forall i, j :: 0 <= i < j < |ps| ==> Le(ps[i].leftKey, ps[j].leftKey))
    && (forall i :: 0 <= i < |ps| ==> AtMost(ps[i].leftKey, hi))
    && (forall i :: 0 < i < |ps| ==> ps[i].leftKey != [])
  }

  ghost predicate PivotsOk(ps: seq<Pivot>, lo: Key, hi: Option<Key>) {
    && Ordered(ps, lo, hi)
    && forall i :: 0 <= i < |ps| ==> BufOk(ps[i].buf, ps[i].leftKey, Hi(ps, i, hi))
  }

  function ChildInfo(f: Info, ps: seq<Pivot>, i: nat): Info
    requires i < |ps| && f.level > 0
  {
    Info(f.level - 1, ps[i].leftKey, Hi(ps, i, f.hi))
  }

  ghost predicate LinksOk(n: NodeState, g: Layout, f: Info) {
    && (n.isLeaf <==> f.level == 0)
    && (f.level == 0 ==> forall i :: 0 <= i < |n.pivots| ==> n.pivots[i].child == NID_NIL)
    && (f.level > 0 ==> forall i :: 0 <= i < |n.pivots| ==>
          && n.pivots[i].child != NID_NIL
          && n.pivots[i].child in g
          && g[n.pivots[i].child] == ChildInfo(f, n.pivots, i))
  }

  ghost predicate NodeOk(n: NodeState, g: Layout, f: Info) {
    PivotsOk(n.pivots, f.lo, f.hi) && LinksOk(n, g, f)
  }

  ghost predicate NodeAt(s: Store, g: Layout, a: Nid)
    requires a in s && a in g
  {
    NodeOk(s[a], g, g[a])
  }

  predicate Before(a: Info, b: Info) {
    a.hi.Some? && Le(a.hi.value, b.lo)
  }

  /** Nodes of one level are for disjoint ranges. */
  ghost predicate Apart(g: Layout, a: Nid, b: Nid)
    requires a in g && b in g
  {
    a != b && g[a].level == g[b].level ==> Before(g[a], g[b]) || Before(g[b], g[a])
  }

  ghost predicate Inv(s: Store, g: Layout, root: Nid): (r: bool)
    ensures r ==> s.Keys == g.Keys && root in s && NID_NIL !in s
  {
    && s.Keys == g.Keys
    && NID_NIL !in s
    && root in s && g[root].lo == [] && g[root].hi == None
    && (forall a {:trigger NodeAt(s, g, a)} :: a in s ==> NodeAt(s, g, a))
    && (forall a :: a in g && a != root ==> g[a].level < g[root].level)
    && (forall a, b {:trigger Apart(g, a, b)} :: a in g && b in g ==> Apart(g, a, b))
  }

  /** The message a read of k answers with. */
  ghost function View(s: Store, g: Layout, root: Nid, k: Key): Option<Msg>
    requires root in g
  {
    Find(s, root, g[root].level, k)
  }

  // ---------------------------------------------------------------- the steps

  function Deliver(ps: seq<Pivot>, m: Msg): seq<Pivot>
    requires |ps| > 0
  {
    var i := Route(ps, m.key);
    ps[i := ps[i].(buf := InsertMsg(ps[i].buf, m))]
  }

  /** Delivering messages one by one, each to the pivot its key routes to. */
  function Distribute(ps: seq<Pivot>, ms: seq<Msg>): (r: seq<Pivot>)
    requires |ps| > 0
    ensures |r| == |ps|
    decreases |ms|
  {
    if ms == [] then ps else Distribute(Deliver(ps, ms[0]), ms[1..])
  }

  /** Drain pivot i of node p into its child. */
  function PushDown(s: Store, p: Nid, i: nat): Store
    requires p in s && i < |s[p].pivots|
    requires s[p].pivots[i].child in s && |s[s[p].pivots[i].child].pivots| > 0
  {
    var ps := s[p].pivots;
    var c := ps[i].child;
    s[p := s[p].(pivots := ps[i := ps[i].(buf := [])])]
     [c := s[c].(pivots := Distribute(s[c].pivots, ps[i].buf))]
  }

  /** A pivot put right behind the i-th. */
  function InsertAfter(ps: seq<Pivot>, i: nat, pv: Pivot): seq<Pivot>
    requires i < |ps|
  {
    ps[..i + 1] + [pv] + ps[i + 1..]
  }

  /** Node::addPivot on a node that has pivots. */
  function AddPivot(ps: seq<Pivot>, pv: Pivot): seq<Pivot>
    requires |ps| > 0
  {
    InsertAfter(ps, Route(ps, pv.leftKey), pv)
  }

  /** Split buffer i of a leaf in the middle of its list. */
  function SplitPivot(ps: seq<Pivot>, i: nat): seq<Pivot>
    requires i < |ps| && |ps[i].buf| > 0
  {
    var l := ps[i].buf;
    var mid := |l| / 2;
    AddPivot(ps[i := ps[i].(buf := l[..mid])], Pivot(l[mid].key, NID_NIL, l[mid..]))
  }

  function MiddleKey(ps: seq<Pivot>): Key
    requires |ps| > 0
  {
    ps[|ps| / 2].leftKey
  }

  /** Move the upper half of c's pivots to the fresh node d. */
  function Halve(s: Store, c: Nid, d: Nid): Store
    requires c in s
  {
    var cs := s[c].pivots;
    s[c := s[c].(pivots := cs[..|cs| / 2])][d := NodeState(s[c].isLeaf, cs[|cs| / 2..])]
  }

  /** Split c below its parent p, which learns of the fresh sibling d with an empty buffer. */
  function SplitChild(s: Store, p: Nid, c: Nid, d: Nid): Store
    requires p in s && c in s && |s[p].pivots| > 0 && |s[c].pivots| > 0
  {
    Halve(s, c, d)[p := s[p].(pivots := AddPivot(s[p].pivots, Pivot(MiddleKey(s[c].pivots), d, [])))]
  }

  /** Split the root c below a new root r. */
  function GrowUp(s: Store, c: Nid, d: Nid, r: Nid): Store
    requires c in s && |s[c].pivots| > 0
  {
    Halve(s, c, d)[r := NodeState(false, AddPivot([Pivot([], c, [])], Pivot(MiddleKey(s[c].pivots), d, [])))]
  }

  function SplitLayout(g: Layout, c: Nid, d: Nid, mid: Key): Layout
    requires c in g
  {
    g[c := g[c].(hi := Some(mid))][d := Info(g[c].level, mid, g[c].hi)]
  }

  function GrowLayout(g: Layout, c: Nid, d: Nid, r: Nid, mid: Key): Layout
    requires c in g
  {
    SplitLayout(g, c, d, mid)[r := Info(g[c].level + 1, [], None)]
  }
}
