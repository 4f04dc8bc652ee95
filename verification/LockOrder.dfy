/**
 * The locks each call takes and gives back, as traces (src/Node.cpp:31-198, 242-359 and
 * src/BufferTree.cpp:50-64). Read locks on a node are shared. Whoever holds a lock may keep any other
 * thread waiting for it, a reader waiting behind a writer among them.
 */
module LockOrder {
  import opened Keys
  import opened TreeModel

  /** mutexLockPath_, a node's rwlock, the mutex of buffer i of a node, and the mutex of the buffer a
      split has just made, which no other thread knows of yet. */
  datatype Lock = PathMutex | NodeLock(id: Nid) | BufLock(of: Nid, i: nat) | NewBufLock(maker: Nid)

  datatype Mode = Shared | Exclusive

  datatype Act = Acq(l: Lock, mode: Mode) | Rel(l: Lock)

  /** Heights above the leaves, which no node ever changes, all at most top. */
  datatype Levels = Levels(of: map<Nid, nat>, top: nat)

  function LevelOf(v: Levels, id: Nid): nat {
    if id in v.of && v.of[id] <= v.top then v.of[id] else 0
  }

  function Excl(l: Lock): Act {
    Acq(l, Exclusive)
  }

  function Shar(l: Lock): Act {
    Acq(l, Shared)
  }

  /** optionalLock: leaves are locked to write, other nodes to read. */
  function Opt(v: Levels, id: Nid): Act {
    Acq(NodeLock(id), if LevelOf(v, id) == 0 then Exclusive else Shared)
  }

  /** The fixed order: path mutex, nodes from the root down, buffers from the root down. */
  function Rank(v: Levels, l: Lock): nat {
    match l
    case PathMutex => 0
    case NodeLock(id) => 1 + (v.top - LevelOf(v, id))
    case BufLock(id, _) => 2 + v.top + (v.top - LevelOf(v, id))
    case NewBufLock(_) => 3 + 2 * v.top
  }

  /** The trace takes the locks `held` to `left`, never taking one twice or out of order and never
      giving back one it does not hold. */
  ghost predicate Runs(v: Levels, held: set<Lock>, acts: seq<Act>, left: set<Lock>)
    decreases |acts|
  {
    if acts == [] then held == left
    else
      match acts[0]
      case Acq(l, _) =>
        l !in held && (forall x :: x in held ==> Rank(v, x) < Rank(v, l)) && Runs(v, held + {l}, acts[1..], left)
      case Rel(l) => l in held && Runs(v, held - {l}, acts[1..], left)
  }

  lemma {:induction false} RunsConcat(v: Levels, h0: set<Lock>, a: seq<Act>, h1: set<Lock>, b: seq<Act>, h2: set<Lock>)
    requires Runs(v, h0, a, h1) && Runs(v, h1, b, h2)
    ensures Runs(v, h0, a + b, h2)
    decreases |a|
  {
    if a == [] {
      assert a + b == b;
    } else {
      assert (a + b)[1..] == a[1..] + b;
      match a[0] {
        case Acq(l, _) => RunsConcat(v, h0 + {l}, a[1..], h1, b, h2);
        case Rel(l) => RunsConcat(v, h0 - {l}, a[1..], h1, b, h2);
      }
    }
  }

  lemma {:induction false} RunsOne(v: Levels, held: set<Lock>, act: Act)
    requires act.Acq? ==> act.l !in held && forall x :: x in held ==> Rank(v, x) < Rank(v, act.l)
    requires act.Rel? ==> act.l in held
    ensures Runs(v, held, [act], if act.Acq? then held + {act.l} else held - {act.l})
  {
    assert [act][1..] == [];
  }

  // ---------------------------------------------------------------- a read

  /** A node on a path and the buffer of it that is used. */
  datatype Leg = Leg(id: Nid, i: nat)

  /** Each node of the path is one level further down. */
  ghost predicate Descends(v: Levels, path: seq<Leg>) {
    && (forall n :: 0 <= n < |path| ==> path[n].id in v.of && v.of[path[n].id] <= v.top)
    && (forall a, b :: 0 <= a < b < |path| ==> v.of[path[b].id] < v.of[path[a].id])
  }

  /** Lock a buffer, use it, unlock it. */
  function UseBuf(id: Nid, i: nat): seq<Act> {
    [Excl(BufLock(id, i)), Rel(BufLock(id, i))]
  }

  /** Node::get: the next node is locked before its parent is given back. */
  function GetTrace(parent: Option<Nid>, path: seq<Leg>): seq<Act>
    requires path != []
    decreases |path|
  {
    var n := path[0].id;
    [Shar(NodeLock(n))] + (if parent.Some? then [Rel(NodeLock(parent.value))] else [])
    + UseBuf(n, path[0].i)
    + (if |path| == 1 then [Rel(NodeLock(n))] else GetTrace(Some(n), path[1..]))
  }

  lemma {:induction false} UseBufRuns(v: Levels, held: set<Lock>, id: Nid, i: nat)
    requires BufLock(id, i) !in held && forall x :: x in held ==> Rank(v, x) < Rank(v, BufLock(id, i))
    ensures Runs(v, held, UseBuf(id, i), held)
  {
    var b := BufLock(id, i);
    RunsOne(v, held, Excl(b));
    RunsOne(v, held + {b}, Rel(b));
    assert held + {b} - {b} == held;
    RunsConcat(v, held, [Excl(b)], held + {b}, [Rel(b)], held);
    assert [Excl(b)] + [Rel(b)] == UseBuf(id, i);
  }

  /** A read takes its locks in order and gives each back once. */
  lemma {:induction false} GetRuns(v: Levels, parent: Option<Nid>, path: seq<Leg>)
    requires path != [] && Descends(v, path)
    requires parent.Some? ==> parent.value in v.of && v.of[path[0].id] < v.of[parent.value] <= v.top
    ensures Runs(v, if parent.Some? then {NodeLock(parent.value)} else {}, GetTrace(parent, path), {})
    decreases |path|
  {
    var n := path[0].id;
    var start: set<Lock> := if parent.Some? then {NodeLock(parent.value)} else {};
    var drop := if parent.Some? then [Rel(NodeLock(parent.value))] else [];
    var tail := if |path| == 1 then [Rel(NodeLock(n))] else GetTrace(Some(n), path[1..]);
    RunsOne(v, start, Shar(NodeLock(n)));
    assert start + {NodeLock(n)} - start == {NodeLock(n)};
    if parent.Some? {
      RunsOne(v, start + {NodeLock(n)}, drop[0]);
    }
    RunsConcat(v, start, [Shar(NodeLock(n))], start + {NodeLock(n)}, drop, {NodeLock(n)});
    UseBufRuns(v, {NodeLock(n)}, n, path[0].i);
    RunsConcat(v, start, [Shar(NodeLock(n))] + drop, {NodeLock(n)}, UseBuf(n, path[0].i), {NodeLock(n)});
    if |path| == 1 {
      RunsOne(v, {NodeLock(n)}, tail[0]);
    } else {
      DescendsRest(v, path);
      GetRuns(v, Some(n), path[1..]);
    }
    assert {NodeLock(n)} - {NodeLock(n)} == {};
    RunsConcat(v, start, [Shar(NodeLock(n))] + drop + UseBuf(n, path[0].i), {NodeLock(n)}, tail, {});
  }

  lemma {:induction false} DescendsRest(v: Levels, path: seq<Leg>)
    requires |path| >= 2 && Descends(v, path)
    ensures Descends(v, path[1..]) && v.of[path[1].id] < v.of[path[0].id]
  {
  }

  // ---------------------------------------------------------------- a write and all it sets off

  /** The inserts of a push into buffers `targets` of c. */
  function Inserts(c: Nid, targets: seq<nat>): seq<Act> {
    if targets == [] then [] else UseBuf(c, targets[0]) + Inserts(c, targets[1..])
  }

  /** Node::pushDownLocked. */
  function PushLocked(id: Nid, i: nat, c: Nid, targets: seq<nat>): seq<Act> {
    [Excl(BufLock(id, i))] + Inserts(c, targets) + [Rel(BufLock(id, i))]
  }

  /** One node of a locked path: the buffer drained into the next and where its messages go. */
  datatype Drain = Drain(id: Nid, i: nat, targets: seq<nat>)

  /** Node::lockPath below a node already locked, whose buffer i goes to path[0]. */
  function LockBelow(id: Nid, i: nat, targets: seq<nat>, path: seq<Drain>): seq<Act>
    decreases |path|
  {
    if path == [] then []
    else [Excl(NodeLock(path[0].id))] + PushLocked(id, i, path[0].id, targets)
         + LockBelow(path[0].id, path[0].i, path[0].targets, path[1..])
  }

  /** BufferTree::lockPath. */
  function LockPath(path: seq<Drain>): seq<Act>
    requires path != []
  {
    [Excl(PathMutex), Excl(NodeLock(path[0].id))]
    + LockBelow(path[0].id, path[0].i, path[0].targets, path[1..]) + [Rel(PathMutex)]
  }

  /** Unlocking a path from its end. */
  function UnlockAll(path: seq<Drain>): seq<Act>
    decreases |path|
  {
    if path == [] then [] else [Rel(NodeLock(path[|path| - 1].id))] + UnlockAll(path[..|path| - 1])
  }

  /** Node::splitNode when the last `splits` nodes of the path split: each of them is unlocked after
      the call on its parent, the others by the call that found nothing to split. */
  function SplitNodes(path: seq<Drain>, splits: nat): seq<Act>
    decreases |path|
  {
    if path == [] || splits == 0 then UnlockAll(path)
    else SplitNodes(path[..|path| - 1], splits - 1) + [Rel(NodeLock(path[|path| - 1].id))]
  }

  /** What pushDownOrSplit finds to do at a node it has locked, and does before it returns. */
  datatype Work =
    | Nothing
    | Push(i: nat, c: Nid, targets: seq<nat>, below: Work, rest: Work)
    | Split(i: nat, path: seq<Drain>, splits: nat, rest: Work)
    | SplitStale(i: nat, root: Nid, rest: Work)

  /** Node::pushDownOrSplit, entered with the node locked. */
  function WorkTrace(v: Levels, id: Nid, w: Work): seq<Act>
    requires WorkShaped(w)
    decreases w
  {
    match w
    case Nothing => [Rel(NodeLock(id))]
    case Push(i, c, targets, below, rest) =>
      [Opt(v, c)] + PushLocked(id, i, c, targets) + [Rel(NodeLock(id))] + WorkTrace(v, c, below)
      + [Opt(v, id)] + WorkTrace(v, id, rest)
    case Split(i, path, splits, rest) =>
      SplitBuf(id, i) + [Rel(NodeLock(id))] + LockPath(path) + SplitNodes(path, splits)
      + [Opt(v, id)] + WorkTrace(v, id, rest)
    case SplitStale(i, root, rest) =>
      SplitBuf(id, i) + [Rel(NodeLock(id))]
      + [Excl(PathMutex), Excl(NodeLock(root)), Rel(NodeLock(root)), Rel(PathMutex)]
      + [Opt(v, id)] + WorkTrace(v, id, rest)
  }

  predicate WorkShaped(w: Work) {
    match w
    case Nothing => true
    case Push(_, _, _, below, rest) => WorkShaped(below) && WorkShaped(rest)
    case Split(_, path, _, rest) => path != [] && WorkShaped(rest)
    case SplitStale(_, _, rest) => WorkShaped(rest)
  }

  /** The buffers of Node::splitBuf. */
  function SplitBuf(id: Nid, i: nat): seq<Act> {
    [Excl(BufLock(id, i)), Excl(NewBufLock(id)), Rel(NewBufLock(id)), Rel(BufLock(id, i))]
  }

  /** The nodes a write locked as the root and gave back, since they were not the root any more. */
  function Retries(v: Levels, stale: seq<Nid>): seq<Act>
    decreases |stale|
  {
    if stale == [] then [] else [Opt(v, stale[0]), Rel(NodeLock(stale[0]))] + Retries(v, stale[1..])
  }

  /** Node::write, in the end on the root. */
  function WriteTrace(v: Levels, stale: seq<Nid>, root: Nid, i: nat, w: Work): seq<Act>
    requires WorkShaped(w)
  {
    Retries(v, stale) + ([Opt(v, root)] + UseBuf(root, i) + WorkTrace(v, root, w))
  }

  // ---------------------------------------------------------------- writers keep the order too

  ghost predicate Known(v: Levels, id: Nid) {
    id in v.of && v.of[id] <= v.top
  }

  ghost predicate DrainsDown(v: Levels, path: seq<Drain>) {
    && (forall n :: 0 <= n < |path| ==> Known(v, path[n].id))
    && (forall a, b :: 0 <= a < b < |path| ==> v.of[path[b].id] < v.of[path[a].id])
  }

  /** Pushes go one level down and locked paths go down. */
  ghost predicate WorkOk(v: Levels, id: Nid, w: Work)
    requires WorkShaped(w)
    decreases w
  {
    && Known(v, id)
    && match w
       case Nothing => true
       case Push(_, c, _, below, rest) =>
         Known(v, c) && v.of[c] < v.of[id] && WorkOk(v, c, below) && WorkOk(v, id, rest)
       case Split(_, path, _, rest) => DrainsDown(v, path) && WorkOk(v, id, rest)
       case SplitStale(_, root, rest) => Known(v, root) && WorkOk(v, id, rest)
  }

  lemma {:induction false} InsertsRun(v: Levels, held: set<Lock>, c: Nid, targets: seq<nat>)
    requires forall x :: x in held ==> Rank(v, x) < Rank(v, BufLock(c, 0))
    ensures Runs(v, held, Inserts(c, targets), held)
    decreases |targets|
  {
    if targets != [] {
      assert Rank(v, BufLock(c, targets[0])) == Rank(v, BufLock(c, 0));
      UseBufRuns(v, held, c, targets[0]);
      InsertsRun(v, held, c, targets[1..]);
      RunsConcat(v, held, UseBuf(c, targets[0]), held, Inserts(c, targets[1..]), held);
    }
  }

  /** Only node locks and the path mutex are held. */
  ghost predicate NodesOnly(held: set<Lock>) {
    forall x :: x in held ==> x.NodeLock? || x.PathMutex?
  }

  lemma {:induction false} PushLockedRuns(v: Levels, held: set<Lock>, id: Nid, i: nat, c: Nid, targets: seq<nat>)
    requires NodesOnly(held) && Known(v, id) && Known(v, c) && v.of[c] < v.of[id]
    ensures Runs(v, held, PushLocked(id, i, c, targets), held)
  {
    var b := BufLock(id, i);
    RunsOne(v, held, Excl(b));
    InsertsRun(v, held + {b}, c, targets);
    RunsConcat(v, held, [Excl(b)], held + {b}, Inserts(c, targets), held + {b});
    RunsOne(v, held + {b}, Rel(b));
    assert held + {b} - {b} == held;
    RunsConcat(v, held, [Excl(b)] + Inserts(c, targets), held + {b}, [Rel(b)], held);
  }

  /** The node locks of a path. */
  function PathLocks(path: seq<Drain>): set<Lock> {
    set n | 0 <= n < |path| :: NodeLock(path[n].id)
  }

  lemma {:induction false} PathLocksAppend(path: seq<Drain>)
    requires path != []
    ensures PathLocks(path) == PathLocks(path[..|path| - 1]) + {NodeLock(path[|path| - 1].id)}
  {
    var short := path[..|path| - 1];
    forall l | l in PathLocks(path)
      ensures l in PathLocks(short) + {NodeLock(path[|path| - 1].id)}
    {
      var n :| 0 <= n < |path| && l == NodeLock(path[n].id);
      assert n < |short| ==> short[n] == path[n];
    }
    forall l | l in PathLocks(short)
      ensures l in PathLocks(path)
    {
      var n :| 0 <= n < |short| && l == NodeLock(short[n].id);
      assert path[n] == short[n];
    }
  }

  lemma {:induction false} LastNotBefore(v: Levels, path: seq<Drain>)
    requires path != [] && DrainsDown(v, path)
    ensures NodeLock(path[|path| - 1].id) !in PathLocks(path[..|path| - 1])
    ensures DrainsDown(v, path[..|path| - 1])
    ensures PathLocks(path) - {NodeLock(path[|path| - 1].id)} == PathLocks(path[..|path| - 1])
  {
    PathLocksAppend(path);
  }

  /** Locking the rest of a path, with the first `done` nodes locked and the path mutex held. */
  lemma {:induction false} LockBelowRuns(v: Levels, path: seq<Drain>, done: nat)
    requires DrainsDown(v, path) && 0 < done <= |path|
    ensures var at := path[done - 1];
            Runs(v, PathLocks(path[..done]) + {PathMutex}, LockBelow(at.id, at.i, at.targets, path[done..]),
                 PathLocks(path) + {PathMutex})
    decreases |path| - done
  {
    var held := PathLocks(path[..done]) + {PathMutex};
    var at := path[done - 1];
    if done == |path| {
      assert path[..done] == path;
    } else {
      var next := path[done];
      assert path[done..][0] == next && path[done..][1..] == path[done + 1..];
      var held' := PathLocks(path[..done + 1]) + {PathMutex};
      assert path[..done + 1][..done] == path[..done];
      PathLocksAppend(path[..done + 1]);
      assert held' == held + {NodeLock(next.id)};
      NextIsAbove(v, path, done);
      RunsOne(v, held, Excl(NodeLock(next.id)));
      PushLockedRuns(v, held', at.id, at.i, next.id, at.targets);
      RunsConcat(v, held, [Excl(NodeLock(next.id))], held', PushLocked(at.id, at.i, next.id, at.targets), held');
      LockBelowRuns(v, path, done + 1);
      RunsConcat(v, held, [Excl(NodeLock(next.id))] + PushLocked(at.id, at.i, next.id, at.targets), held',
                 LockBelow(next.id, next.i, next.targets, path[done + 1..]), PathLocks(path) + {PathMutex});
    }
  }

  lemma {:induction false} NextIsAbove(v: Levels, path: seq<Drain>, done: nat)
    requires DrainsDown(v, path) && 0 < done < |path|
    ensures var held := PathLocks(path[..done]) + {PathMutex};
            NodeLock(path[done].id) !in held && forall x :: x in held ==> Rank(v, x) < Rank(v, NodeLock(path[done].id))
  {
    var held := PathLocks(path[..done]) + {PathMutex};
    forall x | x in held
      ensures Rank(v, x) < Rank(v, NodeLock(path[done].id))
    {
      if x != PathMutex {
        var n :| 0 <= n < done && x == NodeLock(path[..done][n].id);
        assert path[..done][n] == path[n];
        assert Known(v, path[n].id) && Known(v, path[done].id);
      }
    }
  }

  lemma {:induction false} LockPathRuns(v: Levels, path: seq<Drain>)
    requires path != [] && DrainsDown(v, path)
    ensures Runs(v, {}, LockPath(path), PathLocks(path))
  {
    var n := NodeLock(path[0].id);
    RunsOne(v, {}, Excl(PathMutex));
    RunsOne(v, {PathMutex}, Excl(n));
    assert {} + {PathMutex} == {PathMutex};
    RunsConcat(v, {}, [Excl(PathMutex)], {PathMutex}, [Excl(n)], {PathMutex} + {n});
    assert [Excl(PathMutex)] + [Excl(n)] == [Excl(PathMutex), Excl(n)];
    assert path[..1] == [path[0]];
    assert PathLocks(path[..1]) == {n};
    assert {PathMutex} + {n} == PathLocks(path[..1]) + {PathMutex};
    LockBelowRuns(v, path, 1);
    var below := LockBelow(path[0].id, path[0].i, path[0].targets, path[1..]);
    var all := PathLocks(path) + {PathMutex};
    RunsConcat(v, {}, [Excl(PathMutex), Excl(n)], {PathMutex} + {n}, below, all);
    RunsOne(v, all, Rel(PathMutex));
    assert all - {PathMutex} == PathLocks(path);
    RunsConcat(v, {}, [Excl(PathMutex), Excl(n)] + below, all, [Rel(PathMutex)], PathLocks(path));
  }

  lemma {:induction false} UnlockAllRuns(v: Levels, path: seq<Drain>)
    requires DrainsDown(v, path)
    ensures Runs(v, PathLocks(path), UnlockAll(path), {})
    decreases |path|
  {
    if path == [] {
      assert PathLocks(path) == {};
    } else {
      LastNotBefore(v, path);
      var last := Rel(NodeLock(path[|path| - 1].id));
      PathLocksAppend(path);
      RunsOne(v, PathLocks(path), last);
      UnlockAllRuns(v, path[..|path| - 1]);
      RunsConcat(v, PathLocks(path), [last], PathLocks(path[..|path| - 1]), UnlockAll(path[..|path| - 1]), {});
    }
  }

  lemma {:induction false} RunsWithMore(v: Levels, held: set<Lock>, acts: seq<Act>, left: set<Lock>, more: Lock)
    requires Runs(v, held, acts, left) && more !in held && forall n :: 0 <= n < |acts| ==> acts[n].Rel?
    ensures more !in left && Runs(v, held + {more}, acts, left + {more})
    decreases |acts|
  {
    if acts != [] {
      assert held + {more} - {acts[0].l} == held - {acts[0].l} + {more};
      RunsWithMore(v, held - {acts[0].l}, acts[1..], left, more);
    }
  }

  lemma {:induction false} SplitsOnlyRelease(path: seq<Drain>, splits: nat)
    ensures forall n :: 0 <= n < |SplitNodes(path, splits)| ==> SplitNodes(path, splits)[n].Rel?
    decreases |path|
  {
    if path == [] || splits == 0 {
      UnlocksOnlyRelease(path);
    } else {
      SplitsOnlyRelease(path[..|path| - 1], splits - 1);
    }
  }

  lemma {:induction false} UnlocksOnlyRelease(path: seq<Drain>)
    ensures forall n :: 0 <= n < |UnlockAll(path)| ==> UnlockAll(path)[n].Rel?
    decreases |path|
  {
    if path != [] {
      UnlocksOnlyRelease(path[..|path| - 1]);
    }
  }

  /** splitNode gives back every lock of its path once, however far the split goes. */
  lemma {:induction false} SplitNodesRun(v: Levels, path: seq<Drain>, splits: nat)
    requires DrainsDown(v, path)
    ensures Runs(v, PathLocks(path), SplitNodes(path, splits), {})
    decreases |path|
  {
    if path == [] || splits == 0 {
      UnlockAllRuns(v, path);
    } else {
      LastNotBefore(v, path);
      PathLocksAppend(path);
      var short := path[..|path| - 1];
      var l := NodeLock(path[|path| - 1].id);
      SplitNodesRun(v, short, splits - 1);
      SplitsOnlyRelease(short, splits - 1);
      RunsWithMore(v, PathLocks(short), SplitNodes(short, splits - 1), {}, l);
      assert {} + {l} == {l};
      RunsOne(v, {l}, Rel(l));
      assert {l} - {l} == {};
      RunsConcat(v, PathLocks(path), SplitNodes(short, splits - 1), {l}, [Rel(l)], {});
    }
  }

  lemma {:induction false} SplitBufRuns(v: Levels, id: Nid, i: nat)
    requires Known(v, id)
    ensures Runs(v, {NodeLock(id)}, SplitBuf(id, i), {NodeLock(id)})
  {
    var n, b, f := NodeLock(id), BufLock(id, i), NewBufLock(id);
    RunsOne(v, {n}, Excl(b));
    RunsOne(v, {n} + {b}, Excl(f));
    RunsOne(v, {n} + {b} + {f}, Rel(f));
    assert {n} + {b} + {f} - {f} == {n} + {b};
    RunsOne(v, {n} + {b}, Rel(b));
    assert {n} + {b} - {b} == {n};
    RunsConcat(v, {n}, [Excl(b)], {n} + {b}, [Excl(f)], {n} + {b} + {f});
    RunsConcat(v, {n}, [Excl(b)] + [Excl(f)], {n} + {b} + {f}, [Rel(f)], {n} + {b});
    RunsConcat(v, {n}, [Excl(b)] + [Excl(f)] + [Rel(f)], {n} + {b}, [Rel(b)], {n});
    assert [Excl(b)] + [Excl(f)] + [Rel(f)] + [Rel(b)] == SplitBuf(id, i);
  }

  /** Everything pushDownOrSplit sets off from node id, which it has locked, ends with no lock held. */
  lemma {:induction false} WorkRuns(v: Levels, id: Nid, w: Work)
    requires WorkShaped(w) && WorkOk(v, id, w)
    ensures Runs(v, {NodeLock(id)}, WorkTrace(v, id, w), {})
    decreases w
  {
    var n := NodeLock(id);
    assert {n} - {n} == {} && {} + {n} == {n};
    RunsOne(v, {n}, Rel(n));
    RunsOne(v, {}, Opt(v, id));
    match w {
      case Nothing =>
      case Push(i, c, targets, below, rest) =>
        WorkRuns(v, c, below);
        WorkRuns(v, id, rest);
        PushRuns(v, id, i, c, targets);
        var a := [Opt(v, c)] + PushLocked(id, i, c, targets) + [Rel(n)];
        RunsConcat(v, {n}, a, {NodeLock(c)}, WorkTrace(v, c, below), {});
        RunsConcat(v, {n}, a + WorkTrace(v, c, below), {}, [Opt(v, id)], {n});
        RunsConcat(v, {n}, a + WorkTrace(v, c, below) + [Opt(v, id)], {n}, WorkTrace(v, id, rest), {});
      case Split(i, path, splits, rest) =>
        WorkRuns(v, id, rest);
        SplitBufRuns(v, id, i);
        RunsConcat(v, {n}, SplitBuf(id, i), {n}, [Rel(n)], {});
        var a := SplitBuf(id, i) + [Rel(n)];
        LockPathRuns(v, path);
        RunsConcat(v, {n}, a, {}, LockPath(path), PathLocks(path));
        SplitNodesRun(v, path, splits);
        RunsConcat(v, {n}, a + LockPath(path), PathLocks(path), SplitNodes(path, splits), {});
        RunsConcat(v, {n}, a + LockPath(path) + SplitNodes(path, splits), {}, [Opt(v, id)], {n});
        RunsConcat(v, {n}, a + LockPath(path) + SplitNodes(path, splits) + [Opt(v, id)], {n}, WorkTrace(v, id, rest),
                   {});
      case SplitStale(i, root, rest) =>
        WorkRuns(v, id, rest);
        SplitBufRuns(v, id, i);
        RunsConcat(v, {n}, SplitBuf(id, i), {n}, [Rel(n)], {});
        var a := SplitBuf(id, i) + [Rel(n)];
        var stale := [Excl(PathMutex), Excl(NodeLock(root)), Rel(NodeLock(root)), Rel(PathMutex)];
        StaleRuns(v, root);
        RunsConcat(v, {n}, a, {}, stale, {});
        RunsConcat(v, {n}, a + stale, {}, [Opt(v, id)], {n});
        RunsConcat(v, {n}, a + stale + [Opt(v, id)], {n}, WorkTrace(v, id, rest), {});
    }
  }

  lemma {:induction false} PushRuns(v: Levels, id: Nid, i: nat, c: Nid, targets: seq<nat>)
    requires Known(v, id) && Known(v, c) && v.of[c] < v.of[id]
    ensures Runs(v, {NodeLock(id)}, [Opt(v, c)] + PushLocked(id, i, c, targets) + [Rel(NodeLock(id))], {NodeLock(c)})
  {
    var n, m := NodeLock(id), NodeLock(c);
    RunsOne(v, {n}, Opt(v, c));
    PushLockedRuns(v, {n} + {m}, id, i, c, targets);
    RunsConcat(v, {n}, [Opt(v, c)], {n} + {m}, PushLocked(id, i, c, targets), {n} + {m});
    RunsOne(v, {n} + {m}, Rel(n));
    assert {n} + {m} - {n} == {m};
    RunsConcat(v, {n}, [Opt(v, c)] + PushLocked(id, i, c, targets), {n} + {m}, [Rel(n)], {m});
  }

  lemma {:induction false} StaleRuns(v: Levels, root: Nid)
    ensures Runs(v, {}, [Excl(PathMutex), Excl(NodeLock(root)), Rel(NodeLock(root)), Rel(PathMutex)], {})
  {
    var p, n := PathMutex, NodeLock(root);
    RunsOne(v, {}, Excl(p));
    RunsOne(v, {} + {p}, Excl(n));
    RunsOne(v, {} + {p} + {n}, Rel(n));
    assert {} + {p} + {n} - {n} == {} + {p};
    RunsOne(v, {} + {p}, Rel(p));
    assert {} + {p} - {p} == {};
    RunsConcat(v, {}, [Excl(p)], {} + {p}, [Excl(n)], {} + {p} + {n});
    RunsConcat(v, {}, [Excl(p)] + [Excl(n)], {} + {p} + {n}, [Rel(n)], {} + {p});
    RunsConcat(v, {}, [Excl(p)] + [Excl(n)] + [Rel(n)], {} + {p}, [Rel(p)], {});
    assert [Excl(p)] + [Excl(n)] + [Rel(n)] + [Rel(p)] == [Excl(p), Excl(n), Rel(n), Rel(p)];
  }

  lemma {:induction false} RetriesRun(v: Levels, stale: seq<Nid>)
    ensures Runs(v, {}, Retries(v, stale), {})
    decreases |stale|
  {
    if stale != [] {
      var n := NodeLock(stale[0]);
      RunsOne(v, {}, Opt(v, stale[0]));
      RunsOne(v, {} + {n}, Rel(n));
      assert {} + {n} - {n} == {};
      RunsConcat(v, {}, [Opt(v, stale[0])], {} + {n}, [Rel(n)], {});
      assert [Opt(v, stale[0])] + [Rel(n)] == [Opt(v, stale[0]), Rel(n)];
      RetriesRun(v, stale[1..]);
      RunsConcat(v, {}, [Opt(v, stale[0]), Rel(n)], {}, Retries(v, stale[1..]), {});
    }
  }

  /** A whole write, however often it has to look for the root again, takes its locks in order and gives
      each back once. */
  lemma {:induction false} WriteRuns(v: Levels, stale: seq<Nid>, root: Nid, i: nat, w: Work)
    requires WorkShaped(w) && WorkOk(v, root, w)
    ensures Runs(v, {}, WriteTrace(v, stale, root, i, w), {})
  {
    var n := NodeLock(root);
    RunsOne(v, {}, Opt(v, root));
    assert {} + {n} == {n};
    UseBufRuns(v, {n}, root, i);
    RunsConcat(v, {}, [Opt(v, root)], {n}, UseBuf(root, i), {n});
    WorkRuns(v, root, w);
    RunsConcat(v, {}, [Opt(v, root)] + UseBuf(root, i), {n}, WorkTrace(v, root, w), {});
    RetriesRun(v, stale);
    RunsConcat(v, {}, Retries(v, stale), {}, [Opt(v, root)] + UseBuf(root, i) + WorkTrace(v, root, w), {});
  }

  // ---------------------------------------------------------------- no wait cycle

  /** Threads somewhere in their traces: what each holds, in which mode, and still has to do. */
  datatype Thread = Thread(held: map<Lock, Mode>, todo: seq<Act>)

  ghost predicate Disciplined(v: Levels, ts: seq<Thread>) {
    forall t :: 0 <= t < |ts| ==> Runs(v, ts[t].held.Keys, ts[t].todo, {})
  }

  /** Thread t cannot take its next lock: u holds it, and one of the two is to write. */
  ghost predicate Blocked(ts: seq<Thread>, t: nat, u: nat) {
    && t < |ts| && u < |ts| && t != u && ts[t].todo != []
    && match ts[t].todo[0]
       case Acq(l, mode) => l in ts[u].held && (mode.Exclusive? || ts[u].held[l].Exclusive?)
       case Rel(_) => false
  }

  /** Thread t wants a lock that thread u holds in some mode. Two readers do not block each other, but one
      may have to wait behind a writer that waits for the other. */
  ghost predicate WaitsFor(ts: seq<Thread>, t: nat, u: nat) {
    && t < |ts| && u < |ts| && t != u
    && ts[t].todo != [] && ts[t].todo[0].Acq? && ts[t].todo[0].l in ts[u].held
  }

  /** A thread after its next act. */
  function Acted(th: Thread): Thread
    requires th.todo != []
  {
    match th.todo[0]
    case Acq(l, mode) => Thread(th.held[l := mode], th.todo[1..])
    case Rel(l) => Thread(th.held - {l}, th.todo[1..])
  }

  /** One thread taking or giving back one lock. */
  ghost predicate ThreadStep(ts: seq<Thread>, t: nat, ts': seq<Thread>) {
    && t < |ts| && ts[t].todo != []
    && (forall u :: 0 <= u < |ts| ==> !Blocked(ts, t, u))
    && ts' == ts[t := Acted(ts[t])]
  }

  /** Reads and writes start disciplined (GetRuns, WriteRuns), and no step changes that. */
  lemma {:induction false} DisciplineIsKept(v: Levels, ts: seq<Thread>, t: nat, ts': seq<Thread>)
    requires Disciplined(v, ts) && ThreadStep(ts, t, ts')
    ensures Disciplined(v, ts')
  {
    assert Runs(v, ts[t].held.Keys, ts[t].todo, {});
    match ts[t].todo[0] {
      case Acq(l, mode) => assert ts[t].held[l := mode].Keys == ts[t].held.Keys + {l};
      case Rel(l) => assert (ts[t].held - {l}).Keys == ts[t].held.Keys - {l};
    }
  }

  /** Waiting climbs: a thread waits for one that, if it waits too, waits for a lock of higher rank. */
  lemma {:induction false} WaitingClimbs(v: Levels, ts: seq<Thread>, t: nat, u: nat, w: nat)
    requires Disciplined(v, ts) && WaitsFor(ts, t, u) && WaitsFor(ts, u, w)
    ensures Rank(v, ts[t].todo[0].l) < Rank(v, ts[u].todo[0].l)
  {
    assert Runs(v, ts[u].held.Keys, ts[u].todo, {});
  }

  /** Threads each waiting for the next. */
  ghost predicate WaitChain(ts: seq<Thread>, chain: seq<nat>) {
    forall n :: 0 <= n < |chain| - 1 ==> WaitsFor(ts, chain[n], chain[n + 1])
  }

  ghost predicate WaitCycle(ts: seq<Thread>, cycle: seq<nat>) {
    |cycle| >= 2 && WaitChain(ts, cycle) && cycle[|cycle| - 1] == cycle[0]
  }

  lemma {:induction false} ChainClimbs(v: Levels, ts: seq<Thread>, chain: seq<nat>, n: nat)
    requires Disciplined(v, ts) && WaitChain(ts, chain) && n < |chain| - 1
    ensures chain[0] < |ts| && chain[n] < |ts| && ts[chain[0]].todo != [] && ts[chain[n]].todo != []
    ensures Rank(v, ts[chain[0]].todo[0].l) + n <= Rank(v, ts[chain[n]].todo[0].l)
  {
    assert WaitsFor(ts, chain[n], chain[n + 1]);
    if n > 0 {
      ChainClimbs(v, ts, chain, n - 1);
      WaitingClimbs(v, ts, chain[n - 1], chain[n], chain[n + 1]);
    }
  }

  /** No state of disciplined threads has a wait cycle, so no deadlock. */
  lemma {:induction false} NoWaitCycle(v: Levels, ts: seq<Thread>, cycle: seq<nat>)
    requires Disciplined(v, ts)
    ensures !WaitCycle(ts, cycle)
  {
    if WaitCycle(ts, cycle) {
      ChainClimbs(v, ts, cycle, |cycle| - 2);
      WaitingClimbs(v, ts, cycle[|cycle| - 2], cycle[0], cycle[1]);
    }
  }

  /** Indeed while some thread has work left, some thread can go on. */
  lemma {:induction false} SomeoneCanGoOn(v: Levels, ts: seq<Thread>, t: nat) returns (u: nat)
    requires Disciplined(v, ts) && t < |ts| && ts[t].todo != []
    ensures u < |ts| && ts[u].todo != [] && forall w :: 0 <= w < |ts| ==> !WaitsFor(ts, u, w)
    decreases 4 + 2 * v.top - (if ts[t].todo[0].Acq? then Rank(v, ts[t].todo[0].l) else 0)
  {
    u := t;
    if w :| 0 <= w < |ts| && WaitsFor(ts, t, w) {
      assert Runs(v, ts[w].held.Keys, ts[w].todo, {});
      RankIsBounded(v, ts[t].todo[0].l);
      if ts[w].todo[0].Rel? {
        u := w;
      } else {
        RankIsBounded(v, ts[w].todo[0].l);
        u := SomeoneCanGoOn(v, ts, w);
      }
    }
  }

  lemma {:induction false} RankIsBounded(v: Levels, l: Lock)
    ensures Rank(v, l) <= 3 + 2 * v.top
  {
  }

  // ---------------------------------------------------------------- every state of every run

  datatype Call = GetCall(path: seq<Leg>) | WriteCall(stale: seq<Nid>, root: Nid, i: nat, w: Work)

  ghost predicate CallOk(v: Levels, c: Call) {
    match c
    case GetCall(path) => path != [] && Descends(v, path)
    case WriteCall(_, root, _, w) => WorkShaped(w) && WorkOk(v, root, w)
  }

  function CallTrace(v: Levels, c: Call): seq<Act>
    requires if c.GetCall? then c.path != [] else WorkShaped(c.w)
  {
    match c
    case GetCall(path) => GetTrace(None, path)
    case WriteCall(stale, root, i, w) => WriteTrace(v, stale, root, i, w)
  }

  /** Thread t, done with its last call, makes another. */
  ghost predicate Begins(v: Levels, ts: seq<Thread>, t: nat, c: Call, ts': seq<Thread>) {
    t < |ts| && ts[t].todo == [] && CallOk(v, c) && ts' == ts[t := ts[t].(todo := CallTrace(v, c))]
  }

  ghost predicate GoesOn(ts: seq<Thread>, ts': seq<Thread>) {
    exists t: nat :: ThreadStep(ts, t, ts')
  }

  ghost predicate BeginsCall(v: Levels, ts: seq<Thread>, ts': seq<Thread>) {
    exists t: nat, c: Call :: Begins(v, ts, t, c, ts')
  }

  /** Any number of threads, idle at first, making any gets and writes. */
  ghost predicate IsRun(v: Levels, b: seq<seq<Thread>>) {
    && |b| > 0 && (forall t :: 0 <= t < |b[0]| ==> b[0][t] == Thread(map[], []))
    && forall n :: 0 <= n < |b| - 1 ==> GoesOn(b[n], b[n + 1]) || BeginsCall(v, b[n], b[n + 1])
  }

  lemma {:induction false} BeginningIsDisciplined(v: Levels, ts: seq<Thread>, t: nat, c: Call, ts': seq<Thread>)
    requires Disciplined(v, ts) && Begins(v, ts, t, c, ts')
    ensures Disciplined(v, ts')
  {
    assert Runs(v, ts[t].held.Keys, ts[t].todo, {});
    match c {
      case GetCall(path) => GetRuns(v, None, path);
      case WriteCall(stale, root, i, w) => WriteRuns(v, stale, root, i, w);
    }
  }

  lemma {:induction false} RunIsDisciplined(v: Levels, b: seq<seq<Thread>>, n: nat)
    requires IsRun(v, b) && n < |b|
    ensures Disciplined(v, b[n])
  {
    if n > 0 {
      RunIsDisciplined(v, b, n - 1);
      if GoesOn(b[n - 1], b[n]) {
        var t: nat :| ThreadStep(b[n - 1], t, b[n]);
        DisciplineIsKept(v, b[n - 1], t, b[n]);
      } else {
        var t: nat, c: Call :| Begins(v, b[n - 1], t, c, b[n]);
        BeginningIsDisciplined(v, b[n - 1], t, c, b[n]);
      }
    }
  }

  /** No state of any run has a wait cycle, and while some thread has work left some thread can go on. */
  lemma {:induction false} RunsNeverDeadlock(v: Levels, b: seq<seq<Thread>>, n: nat)
    requires IsRun(v, b) && n < |b|
    ensures forall cycle :: !WaitCycle(b[n], cycle)
    ensures (exists t: nat :: t < |b[n]| && b[n][t].todo != []) ==> exists ts' :: GoesOn(b[n], ts')
  {
    RunIsDisciplined(v, b, n);
    hide IsRun, Disciplined;
    forall cycle
      ensures !WaitCycle(b[n], cycle)
    {
      NoWaitCycle(v, b[n], cycle);
    }
    if t: nat :| t < |b[n]| && b[n][t].todo != [] {
      var ts := b[n];
      var u := SomeoneCanGoOn(v, ts, t);
      NotWaitingIsFree(ts, u);
      assert ThreadStep(ts, u, ts[u := Acted(ts[u])]);
      assert GoesOn(ts, ts[u := Acted(ts[u])]);
    }
  }

  lemma NotWaitingIsFree(ts: seq<Thread>, t: nat)
    requires t < |ts| && forall u :: 0 <= u < |ts| ==> !WaitsFor(ts, t, u)
    ensures forall u :: 0 <= u < |ts| ==> !Blocked(ts, t, u)
  {
    forall u | 0 <= u < |ts|
      ensures !Blocked(ts, t, u)
    {
      assert !WaitsFor(ts, t, u);
    }
  }

  // ---------------------------------------------------------------- what locks are for

  /** Threads that hold one lock together all hold it to read. */
  ghost predicate Excluding(ts: seq<Thread>) {
    forall t, u :: 0 <= t < |ts| && 0 <= u < |ts| && t != u ==> Compatible(ts[t], ts[u])
  }

  ghost predicate Compatible(a: Thread, b: Thread) {
    forall l :: l in a.held && l in b.held ==> a.held[l] == Shared == b.held[l]
  }

  lemma {:induction false} StepExcludes(ts: seq<Thread>, t: nat, ts': seq<Thread>)
    requires Excluding(ts) && ThreadStep(ts, t, ts')
    ensures Excluding(ts')
  {
    forall u | 0 <= u < |ts| && u != t
      ensures Compatible(ts'[t], ts'[u]) && Compatible(ts'[u], ts'[t])
    {
      assert Compatible(ts[t], ts[u]) && !Blocked(ts, t, u);
    }
    hide Compatible, Acted;
  }

  /** In every state of every run, whoever holds a lock to write holds it alone. */
  lemma {:induction false} LocksExclude(v: Levels, b: seq<seq<Thread>>, n: nat)
    requires IsRun(v, b) && n < |b|
    ensures Excluding(b[n])
  {
    if n > 0 {
      LocksExclude(v, b, n - 1);
      if GoesOn(b[n - 1], b[n]) {
        var t: nat :| ThreadStep(b[n - 1], t, b[n]);
        StepExcludes(b[n - 1], t, b[n]);
      } else {
        var t: nat, c: Call :| Begins(v, b[n - 1], t, c, b[n]);
        assert forall u :: 0 <= u < |b[n]| ==> b[n][u].held == b[n - 1][u].held;
      }
    }
  }

  /** The call begins by locking this node to read, as a get does, or a write to an inner root. */
  ghost predicate StartsReading(v: Levels, c: Call, root: Nid) {
    CallOk(v, c) && CallTrace(v, c) != [] && CallTrace(v, c)[0] == Shar(NodeLock(root))
  }

  /** Two such calls, of two threads, come to hold the root together. */
  lemma {:induction false} ReadersShareRoot(v: Levels, root: Nid, c: Call, d: Call) returns (b: seq<seq<Thread>>)
    requires StartsReading(v, c, root) && StartsReading(v, d, root)
    ensures IsRun(v, b)
    ensures var last := b[|b| - 1];
            |last| == 2 && NodeLock(root) in last[0].held && NodeLock(root) in last[1].held
  {
    var idle := Thread(map[], []);
    var b0 := [idle, idle];
    var b1 := b0[0 := idle.(todo := CallTrace(v, c))];
    var b2 := b1[1 := idle.(todo := CallTrace(v, d))];
    var b3 := b2[0 := Acted(b2[0])];
    var b4 := b3[1 := Acted(b3[1])];
    b := [b0, b1, b2, b3, b4];
    assert Begins(v, b0, 0, c, b1) && Begins(v, b1, 1, d, b2);
    assert ThreadStep(b2, 0, b3) && ThreadStep(b3, 1, b4);
    assert BeginsCall(v, b0, b1) && BeginsCall(v, b1, b2) && GoesOn(b2, b3) && GoesOn(b3, b4);
  }

  /** Every get starts so, and every write whose root is an inner node. */
  lemma {:induction false} WhoStartsReading(v: Levels, c: Call)
    requires CallOk(v, c)
    ensures c.GetCall? ==> StartsReading(v, c, c.path[0].id)
    ensures c.WriteCall? && c.stale == [] && LevelOf(v, c.root) > 0 ==> StartsReading(v, c, c.root)
  {
  }
}
