/**
 * Reads that run while other threads write, push down and split (src/Node.cpp). A read walks hand
 * over hand: it keeps its read lock on one node until it has the next. A push holds the parent's
 * buffer lock while it copies message by message, and clears the parent last.
 */
module TreeReaders {
  import opened Keys
  import opened Msgs
  import opened TreeModel
  import opened TreeSteps
  import opened TreeSplits
  import opened TreeSplitNode
  import opened TreePushOne

  type Rid = nat

  /** A read of key that began when the history had start + 1 entries. It has still to look at node
      `at`, and holds the read lock of `held`, which is `at` itself or, before it gets that lock, the
      parent. */
  datatype Reader =
    | Active(key: Key, at: Nid, held: Nid, start: nat)
    | Done(key: Key, start: nat, end: nat, answer: Option<Value>)

  /** A push of buffer i of p, pos messages of which have a copy in the child. */
  datatype Push = Push(p: Nid, i: nat, pos: nat)

  /** hist lists what a plain map would have held after each write so far, the first entry before any. */
  datatype Sys = Sys(s: Store, g: Layout, root: Nid, hist: seq<map<Key, Value>>,
                     readers: map<Rid, Reader>, pushes: map<nat, Push>)

  // ---------------------------------------------------------------- locks

  /** Some read has node x locked. */
  ghost predicate Read(y: Sys, x: Nid) {
    exists r :: r in y.readers && y.readers[r].Active? && y.readers[r].held == x
  }

  ghost predicate Touches(s: Store, u: Push, x: Nid) {
    u.p == x || (u.p in s && u.i < |s[u.p].pivots| && s[u.p].pivots[u.i].child == x)
  }

  /** Some push has node x locked. */
  ghost predicate Pushing(y: Sys, x: Nid) {
    exists u :: u in y.pushes && Touches(y.s, y.pushes[u], x)
  }

  /** Some push has buffer i of x locked. */
  ghost predicate BufLocked(y: Sys, x: Nid, i: nat) {
    exists u :: u in y.pushes && y.pushes[u].p == x && y.pushes[u].i == i
  }

  // ---------------------------------------------------------------- what holds in every state

  /** The answer a was right at some moment since entry `start`. */
  ghost predicate Since(h: seq<map<Key, Value>>, start: nat, k: Key, a: Option<Value>) {
    exists t :: start <= t < |h| && ValueIn(h[t], k) == a
  }

  /** Every message for k that the read has already gone past was newer than its start. */
  ghost predicate AboveIsNew(s: Store, g: Layout, at: Nid, k: Key, h: seq<map<Key, Value>>, start: nat)
    requires s.Keys == g.Keys && at in s
  {
    forall x {:trigger Here(s, x, k)} ::
      (x in s && |s[x].pivots| > 0 && g[x].level > g[at].level && InRange(k, g[x].lo, g[x].hi) && Here(s, x, k).Some?)
      ==> Since(h, start, k, Answer(Here(s, x, k)))
  }

  ghost predicate ActiveOk(y: Sys, r: Reader)
    requires y.s.Keys == y.g.Keys && r.Active?
  {
    && r.at in y.s && r.held in y.s && r.start < |y.hist|
    && InRange(r.key, y.g[r.at].lo, y.g[r.at].hi)
    && Since(y.hist, r.start, r.key, Answer(Find(y.s, r.at, y.g[r.at].level, r.key)))
    && AboveIsNew(y.s, y.g, r.at, r.key, y.hist, r.start)
    && (r.held != r.at ==>
          && |y.s[r.held].pivots| > 0 && InRange(r.key, y.g[r.held].lo, y.g[r.held].hi)
          && y.g[r.held].level == y.g[r.at].level + 1 && At(y.s[r.held].pivots, r.key).child == r.at)
  }

  ghost predicate DoneOk(y: Sys, r: Reader)
    requires r.Done?
  {
    r.start <= r.end < |y.hist| && exists t :: r.start <= t <= r.end && ValueIn(y.hist[t], r.key) == r.answer
  }

  /** The copies made so far are what the child answers. */
  ghost predicate PushOk(y: Sys, u: Push)
    requires y.s.Keys == y.g.Keys
  {
    && u.p in y.s && u.i < |y.s[u.p].pivots| && y.g[u.p].level > 0
    && u.pos <= |y.s[u.p].pivots[u.i].buf|
    && forall t :: 0 <= t < u.pos ==> CopyFound(y, u, t)
  }

  ghost predicate CopyFound(y: Sys, u: Push, t: nat)
    requires u.p in y.s && u.p in y.g && u.i < |y.s[u.p].pivots| && y.g[u.p].level > 0 && t < |y.s[u.p].pivots[u.i].buf|
  {
    var m := y.s[u.p].pivots[u.i].buf[t];
    Find(y.s, y.s[u.p].pivots[u.i].child, y.g[u.p].level - 1, m.key) == Some(m)
  }

  ghost predicate ReadsLatest(y: Sys)
    requires y.root in y.g && |y.hist| > 0
  {
    forall k {:trigger View(y.s, y.g, y.root, k)} ::
      Answer(View(y.s, y.g, y.root, k)) == ValueIn(y.hist[|y.hist| - 1], k)
  }

  ghost predicate Good(y: Sys): (r: bool)
    ensures r ==> Inv(y.s, y.g, y.root) && y.s.Keys == y.g.Keys && y.root in y.s && |y.hist| > 0
  {
    && Inv(y.s, y.g, y.root) && |y.hist| > 0 && ReadsLatest(y)
    && (forall r :: r in y.readers ==>
        if y.readers[r].Active? then ActiveOk(y, y.readers[r]) else DoneOk(y, y.readers[r]))
    && (forall u :: u in y.pushes ==> PushOk(y, y.pushes[u]))
    && (forall u, v :: u in y.pushes && v in y.pushes && u != v
          ==> y.pushes[u].p != y.pushes[v].p || y.pushes[u].i != y.pushes[v].i)
  }

  // ---------------------------------------------------------------- the steps

  datatype Step =
    | StartRead(r: Rid, key: Key)
    | Look(r: Rid)
    | GoDown(r: Rid)
    | WriteRoot(m: Msg)
    | BeginPush(u: nat, p: Nid, i: nat)
    | CopyOne(u: nat)
    | EndPush(u: nat)
    | SplitLeaf(id: Nid, i: nat)
    | SplitBelow(p: Nid, j: nat, c: Nid, d: Nid)
    | SplitRoot(d: Nid, newRoot: Nid)

  /** When a step can be taken. */
  ghost predicate Guard(y: Sys, st: Step)
    requires Good(y)
  {
    match st
    case StartRead(r, _) => r !in y.readers
    case Look(r) =>
      && r in y.readers && y.readers[r].Active?
      && var x := y.readers[r].at;
         y.readers[r].held == x && |y.s[x].pivots| > 0 && !BufLocked(y, x, Route(y.s[x].pivots, y.readers[r].key))
    case GoDown(r) =>
      && r in y.readers && y.readers[r].Active? && y.readers[r].held != y.readers[r].at
      && (y.s[y.readers[r].at].isLeaf ==> !Pushing(y, y.readers[r].at))
    case WriteRoot(m) =>
      && |y.s[y.root].pivots| > 0 && !BufLocked(y, y.root, Route(y.s[y.root].pivots, m.key))
      && (y.s[y.root].isLeaf ==> !Read(y, y.root))
    case BeginPush(u, p, i) =>
      && u !in y.pushes && p in y.s && i < |y.s[p].pivots| && y.s[p].pivots[i].child != NID_NIL
      && y.s[p].pivots[i].buf != []
      && !BufLocked(y, p, i)
      && var c := y.s[p].pivots[i].child;
         c in y.s && (y.s[c].isLeaf ==> !Read(y, c) && !Pushing(y, c))
    case CopyOne(u) =>
      && u in y.pushes
      && var h := y.pushes[u];
         && h.pos < |y.s[h.p].pivots[h.i].buf|
         && var c := y.s[h.p].pivots[h.i].child;
            c in y.s && |y.s[c].pivots| > 0
                && !BufLocked(y, c, Route(y.s[c].pivots, y.s[h.p].pivots[h.i].buf[h.pos].key))
    case EndPush(u) =>
      u in y.pushes && y.pushes[u].pos == |y.s[y.pushes[u].p].pivots[y.pushes[u].i].buf|
    case SplitLeaf(id, i) =>
      && id in y.s && y.s[id].isLeaf && i < |y.s[id].pivots| && Splittable(y.s[id].pivots[i].buf)
      && !Read(y, id) && !Pushing(y, id)
    case SplitBelow(p, j, c, d) =>
      && IsChild(y.s, y.g, p, j, c) && y.s[p].pivots[j].buf == [] && d !in y.s && d != NID_NIL
      && !Read(y, p) && !Read(y, c) && !Pushing(y, p) && !Pushing(y, c)
    case SplitRoot(d, r) =>
      && |y.s[y.root].pivots| >= 2 && d !in y.s && r !in y.s && d != NID_NIL && r != NID_NIL && d != r
      && !Read(y, y.root) && !Pushing(y, y.root)
  }

  /** The step puts a node's upper half where no key is read (TreeDrain.SplitAtRangeEnd). */
  ghost predicate SplitsAtRangeEnd(y: Sys, st: Step)
    requires y.s.Keys == y.g.Keys
  {
    st.SplitBelow? && AtRangeEnd(y.s, y.g, st.p, st.j, st.c)
  }

  /** What it does. */
  ghost function Apply(y: Sys, st: Step): Sys
    requires Good(y) && Guard(y, st)
  {
    match st
    case StartRead(r, k) => y.(readers := y.readers[r := Active(k, y.root, y.root, |y.hist| - 1)])
    case Look(r) =>
      var rd := y.readers[r];
      var m := Here(y.s, rd.at, rd.key);
      var child := At(y.s[rd.at].pivots, rd.key).child;
      if m.Some? || child == NID_NIL then y.(readers := y.readers[r := Done(rd.key, rd.start, |y.hist| - 1, Answer(m))])
      else y.(readers := y.readers[r := rd.(at := child)])
    case GoDown(r) => y.(readers := y.readers[r := y.readers[r].(held := y.readers[r].at)])
    case WriteRoot(m) => y.(s := Write(y.s, y.root, m), hist := y.hist + [Applied(y.hist[|y.hist| - 1], m)])
    case BeginPush(u, p, i) => y.(pushes := y.pushes[u := Push(p, i, 0)])
    case CopyOne(u) =>
      var h := y.pushes[u];
      var ps := y.s[h.p].pivots;
      y.(s := Copied(y.s, ps[h.i].child, ps[h.i].buf[h.pos]), pushes := y.pushes[u := h.(pos := h.pos + 1)])
    case EndPush(u) => y.(s := Cleared(y.s, y.pushes[u].p, y.pushes[u].i), pushes := y.pushes - {u})
    case SplitLeaf(id, i) => y.(s := y.s[id := y.s[id].(pivots := SplitPivot(y.s[id].pivots, i))])
    case SplitBelow(p, j, c, d) =>
      y.(s := SplitChild(y.s, p, c, d), g := SplitLayout(y.g, c, d, MiddleKey(y.s[c].pivots)))
    case SplitRoot(d, r) =>
      y.(s := GrowUp(y.s, y.root, d, r), g := GrowLayout(y.g, y.root, d, r, MiddleKey(y.s[y.root].pivots)), root := r)
  }
}
