/**
 * What the locks of LockOrder's traces protect: a read holds a node of its path until it has the next, and a
 * buffer is only ever locked under its node (src/Node.cpp:31-198, 242-309).
 */
module LockCover {
  import opened Keys
  import opened TreeModel
  import opened LockOrder

  type Held = map<Lock, Mode>

  function Acting(held: Held, act: Act): Held {
    match act
    case Acq(l, mode) => held[l := mode]
    case Rel(l) => held - {l}
  }

  /** What is held after a trace. */
  function After(held: Held, acts: seq<Act>): Held
    decreases |acts|
  {
    if acts == [] then held else After(Acting(held, acts[0]), acts[1..])
  }

  lemma {:induction false} AfterConcat(held: Held, a: seq<Act>, b: seq<Act>)
    ensures After(held, a + b) == After(After(held, a), b)
    decreases |a|
  {
    if a == [] {
      assert a + b == b;
    } else {
      assert (a + b)[1..] == a[1..] + b;
      AfterConcat(Acting(held, a[0]), a[1..], b);
    }
  }

  /** A trace that takes one set of locks to another leaves that set, in some modes. */
  lemma {:induction false} RunsAfter(v: Levels, held: Held, acts: seq<Act>, left: set<Lock>)
    requires Runs(v, held.Keys, acts, left)
    ensures After(held, acts).Keys == left
    decreases |acts|
  {
    hide LockOrder.Rank;
    if acts != [] {
      match acts[0] {
        case Acq(l, mode) => assert held[l := mode].Keys == held.Keys + {l};
        case Rel(l) => assert (held - {l}).Keys == held.Keys - {l};
      }
      RunsAfter(v, Acting(held, acts[0]), acts[1..], left);
    }
  }

  // ---------------------------------------------------------------- a read

  function StartOf(parent: Option<Nid>): Held {
    if parent.Some? then map[NodeLock(parent.value) := Shared] else map[]
  }

  /** A read's acts at one node of its path. */
  function Stop(parent: Option<Nid>, at: Leg): seq<Act> {
    [Shar(NodeLock(at.id))] + (if parent.Some? then [Rel(NodeLock(parent.value))] else []) + UseBuf(at.id, at.i)
  }

  lemma {:induction false} TraceIs(parent: Option<Nid>, path: seq<Leg>)
    requires path != []
    ensures GetTrace(parent, path)
         == Stop(parent, path[0]) + (if |path| == 1 then [Rel(NodeLock(path[0].id))]
                                     else GetTrace(Some(path[0].id), path[1..]))
  {
  }

  /** The node is held throughout, and at the end alone. */
  lemma {:induction false} StopHolds(parent: Option<Nid>, at: Leg, n: nat)
    requires parent != Some(at.id) && 0 < n <= |Stop(parent, at)|
    ensures After(StartOf(parent), Stop(parent, at)) == map[NodeLock(at.id) := Shared]
    ensures NodeLock(at.id) in After(StartOf(parent), Stop(parent, at)[..n])
  {
    var x, b := NodeLock(at.id), BufLock(at.id, at.i);
    var h0 := StartOf(parent);
    var h1 := h0[x := Shared];
    var acts := Stop(parent, at);
    var alone: Held := map[x := Shared];
    if parent.Some? {
      var q := NodeLock(parent.value);
      assert acts == [Shar(x), Rel(q), Excl(b), Rel(b)];
      assert h1 - {q} == alone;
      FourActs(h0, acts, n);
      assert alone[b := Exclusive] - {b} == alone;
    } else {
      assert acts == [Shar(x), Excl(b), Rel(b)];
      assert h1 == alone;
      ThreeActs(h0, acts, n);
      assert alone[b := Exclusive] - {b} == alone;
    }
  }

  lemma {:induction false} ThreeActs(h: Held, acts: seq<Act>, n: nat)
    requires |acts| == 3 && 0 < n <= 3
    ensures var h1 := Acting(h, acts[0]);
            var h2 := Acting(h1, acts[1]);
            var h3 := Acting(h2, acts[2]);
            After(h, acts) == h3 && After(h, acts[..n]) == if n == 1 then h1 else if n == 2 then h2 else h3
  {
    AfterNext(h, acts, 0);
    AfterNext(h, acts, 1);
    AfterNext(h, acts, 2);
    assert acts[..3] == acts && acts[..0] == [];
  }

  lemma {:induction false} FourActs(h: Held, acts: seq<Act>, n: nat)
    requires |acts| == 4 && 0 < n <= 4
    ensures var h1 := Acting(h, acts[0]);
            var h2 := Acting(h1, acts[1]);
            var h3 := Acting(h2, acts[2]);
            var h4 := Acting(h3, acts[3]);
            && After(h, acts) == h4
            && After(h, acts[..n]) == if n == 1 then h1 else if n == 2 then h2 else if n == 3 then h3 else h4
  {
    AfterNext(h, acts, 0);
    AfterNext(h, acts, 1);
    AfterNext(h, acts, 2);
    AfterNext(h, acts, 3);
    assert acts[..4] == acts && acts[..0] == [];
  }

  lemma {:induction false} AfterNext(h: Held, acts: seq<Act>, n: nat)
    requires n < |acts|
    ensures After(h, acts[..n + 1]) == Acting(After(h, acts[..n]), acts[n])
  {
    assert acts[..n + 1] == acts[..n] + [acts[n]];
    AfterConcat(h, acts[..n], [acts[n]]);
    assert [acts[n]][1..] == [];
  }

  /** The levels of the path go down from the parent's. */
  ghost predicate BelowParent(v: Levels, parent: Option<Nid>, path: seq<Leg>) {
    && path != [] && Descends(v, path)
    && (parent.Some? ==> parent.value in v.of && v.of[path[0].id] < v.of[parent.value])
  }

  /** Some node of the path is held. */
  ghost predicate OnPath(held: Held, path: seq<Leg>) {
    exists n :: 0 <= n < |path| && NodeLock(path[n].id) in held
  }

  /** Hand over hand: from its first lock to its last act a read holds a node of its path. */
  lemma {:induction false} GetHolds(v: Levels, parent: Option<Nid>, path: seq<Leg>, m: nat)
    requires BelowParent(v, parent, path) && 0 < m < |GetTrace(parent, path)|
    ensures OnPath(After(StartOf(parent), GetTrace(parent, path)[..m]), path)
    decreases |path|
  {
    hide Stop;
    var n := path[0].id;
    var first, acts := Stop(parent, path[0]), GetTrace(parent, path);
    TraceIs(parent, path);
    if m <= |first| {
      StopHolds(parent, path[0], m);
      assert acts[..m] == first[..m];
    } else {
      StopLength(parent, path[0]);
      DescendsRest(v, path);
      var rest := GetTrace(Some(n), path[1..]);
      GetHolds(v, Some(n), path[1..], m - |first|);
      StopHolds(parent, path[0], |first|);
      assert acts[..m] == first + rest[..m - |first|];
      AfterConcat(StartOf(parent), first, rest[..m - |first|]);
      var e :| 0 <= e < |path| - 1 && NodeLock(path[1..][e].id) in After(StartOf(Some(n)), rest[..m - |first|]);
      assert path[1..][e] == path[e + 1];
    }
  }

  lemma StopLength(parent: Option<Nid>, at: Leg)
    ensures |Stop(parent, at)| >= 3
  {
  }

  /** Act m is taken holding the lock x and nothing else. */
  ghost predicate TakenUnder(held: Held, acts: seq<Act>, m: nat, act: Act, x: Lock) {
    m < |acts| && acts[m] == act && After(held, acts[..m]) == map[x := Shared]
  }

  lemma {:induction false} TakenLater(held: Held, a: seq<Act>, b: seq<Act>, m: nat, act: Act, x: Lock)
    requires TakenUnder(After(held, a), b, m, act, x)
    ensures TakenUnder(held, a + b, |a| + m, act, x)
  {
    assert (a + b)[..|a| + m] == a + b[..m];
    AfterConcat(held, a, b[..m]);
  }

  /** Each node's buffer is looked at under that node's read lock, and each node but the first is locked
      under that of the one before it. */
  lemma {:induction false} GetUses(v: Levels, parent: Option<Nid>, path: seq<Leg>, n: nat) returns (m: nat, l: nat)
    requires BelowParent(v, parent, path) && n < |path|
    ensures TakenUnder(StartOf(parent), GetTrace(parent, path), m, Excl(BufLock(path[n].id, path[n].i)),
                       NodeLock(path[n].id))
    ensures var above := if n == 0 then parent else Some(path[n - 1].id);
            above.Some? ==>
              TakenUnder(StartOf(parent), GetTrace(parent, path), l, Shar(NodeLock(path[n].id)), NodeLock(above.value))
    decreases |path|
  {
    var at := path[0];
    var first, acts := Stop(parent, at), GetTrace(parent, path);
    TraceIs(parent, path);
    if n == 0 {
      m, l := |first| - 2, 0;
      StopUses(parent, at);
      assert acts[..m] == first[..m] && acts[m] == first[m];
      assert acts[..0] == [] && acts[0] == Shar(NodeLock(at.id));
    } else {
      DescendsRest(v, path);
      var rest := GetTrace(Some(at.id), path[1..]);
      m, l := GetUses(v, Some(at.id), path[1..], n - 1);
      hide GetTrace;
      StopHolds(parent, at, |first|);
      TakenLater(StartOf(parent), first, rest, m, Excl(BufLock(path[n].id, path[n].i)), NodeLock(path[n].id));
      var above := if n == 1 then at.id else path[n - 1].id;
      TakenLater(StartOf(parent), first, rest, l, Shar(NodeLock(path[n].id)), NodeLock(above));
      m, l := |first| + m, |first| + l;
    }
  }

  lemma {:induction false} StopUses(parent: Option<Nid>, at: Leg)
    requires parent != Some(at.id)
    ensures var first := Stop(parent, at);
            && |first| >= 3 && first[|first| - 2] == Excl(BufLock(at.id, at.i))
            && After(StartOf(parent), first[..|first| - 2]) == map[NodeLock(at.id) := Shared]
  {
    var x, h0, first := NodeLock(at.id), StartOf(parent), Stop(parent, at);
    if parent.Some? {
      assert first == [Shar(x), Rel(NodeLock(parent.value)), Excl(BufLock(at.id, at.i)), Rel(BufLock(at.id, at.i))];
      FourActs(h0, first, 2);
      assert h0[x := Shared] - {NodeLock(parent.value)} == map[x := Shared];
    } else {
      assert first == [Shar(x), Excl(BufLock(at.id, at.i)), Rel(BufLock(at.id, at.i))];
      ThreeActs(h0, first, 1);
    }
  }

  // ---------------------------------------------------------------- buffers under their nodes

  /** Node x is held, and to write if it is a leaf. */
  predicate Under(v: Levels, held: Held, x: Nid) {
    NodeLock(x) in held && (LevelOf(v, x) == 0 ==> held[NodeLock(x)].Exclusive?)
  }

  /** Whenever a write holds a buffer it holds the buffer's node, a leaf to write; and a buffer it has just
      made it holds together with the one it was made from. */
  ghost predicate Sheltered(v: Levels, held: Held) {
    && (forall x, i :: BufLock(x, i) in held ==> Under(v, held, x))
    && (forall x :: NewBufLock(x) in held ==> Under(v, held, x) && exists i :: BufLock(x, i) in held)
  }

  ghost predicate AllSheltered(v: Levels, held: Held, acts: seq<Act>)
    decreases |acts|
  {
    Sheltered(v, held) && (acts != [] ==> AllSheltered(v, Acting(held, acts[0]), acts[1..]))
  }

  lemma {:induction false} ShelteredAt(v: Levels, held: Held, acts: seq<Act>, n: nat)
    requires AllSheltered(v, held, acts) && n <= |acts|
    ensures Sheltered(v, After(held, acts[..n]))
    decreases |acts|
  {
    hide Sheltered;
    if n > 0 {
      ShelteredAt(v, Acting(held, acts[0]), acts[1..], n - 1);
      assert acts[..n][1..] == acts[1..][..n - 1];
    }
  }

  lemma {:induction false} ShelteredConcat(v: Levels, held: Held, a: seq<Act>, b: seq<Act>)
    requires AllSheltered(v, held, a) && AllSheltered(v, After(held, a), b)
    ensures AllSheltered(v, held, a + b) && After(held, a + b) == After(After(held, a), b)
    decreases |a|
  {
    hide Sheltered;
    AfterConcat(held, a, b);
    if a == [] {
      assert a + b == b;
    } else {
      assert (a + b)[1..] == a[1..] + b;
      ShelteredConcat(v, Acting(held, a[0]), a[1..], b);
    }
  }

  lemma {:induction false} ShelteredOne(v: Levels, held: Held, act: Act)
    requires Sheltered(v, held) && Sheltered(v, Acting(held, act))
    ensures AllSheltered(v, held, [act]) && After(held, [act]) == Acting(held, act)
  {
    hide Sheltered;
    assert [act][1..] == [];
  }

  /** No buffer is held. */
  ghost predicate NoBuffers(held: Held) {
    forall l :: l in held ==> l.NodeLock? || l.PathMutex?
  }

  lemma NoBuffersSheltered(v: Levels, held: Held)
    requires NoBuffers(held)
    ensures Sheltered(v, held)
  {
  }

  /** Locking a node, or giving one back, with no buffer held. */
  lemma {:induction false} NodeAct(v: Levels, held: Held, act: Act)
    requires NoBuffers(held) && (act.l.NodeLock? || act.l.PathMutex?)
    ensures AllSheltered(v, held, [act]) && After(held, [act]) == Acting(held, act) && NoBuffers(Acting(held, act))
  {
    NoBuffersSheltered(v, held);
    NoBuffersSheltered(v, Acting(held, act));
    hide Sheltered;
    ShelteredOne(v, held, act);
  }

  lemma {:induction false} BufferTaken(v: Levels, held: Held, x: Nid, i: nat)
    requires Sheltered(v, held) && Under(v, held, x)
    ensures Sheltered(v, held[BufLock(x, i) := Exclusive])
  {
    var h := held[BufLock(x, i) := Exclusive];
    forall y | NewBufLock(y) in h
      ensures exists j :: BufLock(y, j) in h
    {
      var j :| BufLock(y, j) in held;
      assert BufLock(y, j) in h;
    }
  }

  /** Locking a buffer, using it and unlocking it changes nothing in the end. */
  lemma {:induction false} UseSheltered(v: Levels, held: Held, x: Nid, i: nat)
    requires Sheltered(v, held) && Under(v, held, x) && BufLock(x, i) !in held
    ensures AllSheltered(v, held, UseBuf(x, i)) && After(held, UseBuf(x, i)) == held
  {
    var b := BufLock(x, i);
    var h := held[b := Exclusive];
    BufferTaken(v, held, x, i);
    assert h - {b} == held;
    hide Sheltered;
    ShelteredOne(v, held, Excl(b));
    ShelteredOne(v, h, Rel(b));
    ShelteredConcat(v, held, [Excl(b)], [Rel(b)]);
    assert [Excl(b)] + [Rel(b)] == UseBuf(x, i);
  }

  lemma {:induction false} InsertsSheltered(v: Levels, held: Held, c: Nid, targets: seq<nat>)
    requires Sheltered(v, held) && Under(v, held, c) && forall i :: BufLock(c, i) !in held
    ensures AllSheltered(v, held, Inserts(c, targets)) && After(held, Inserts(c, targets)) == held
    decreases |targets|
  {
    hide Sheltered, Under;
    if targets != [] {
      UseSheltered(v, held, c, targets[0]);
      InsertsSheltered(v, held, c, targets[1..]);
      ShelteredConcat(v, held, UseBuf(c, targets[0]), Inserts(c, targets[1..]));
    }
  }

  /** A push locks the parent's buffer over all its inserts into the child's, with both nodes held. */
  lemma {:induction false} PushSheltered(v: Levels, held: Held, id: Nid, i: nat, c: Nid, targets: seq<nat>)
    requires NoBuffers(held) && Under(v, held, id) && Under(v, held, c) && id != c
    ensures AllSheltered(v, held, PushLocked(id, i, c, targets)) && After(held, PushLocked(id, i, c, targets)) == held
    ensures forall n :: 0 < n < |PushLocked(id, i, c, targets)| ==>
              var now := After(held, PushLocked(id, i, c, targets)[..n]);
              BufLock(id, i) in now && NodeLock(id) in now && NodeLock(c) in now
  {
    var b := BufLock(id, i);
    var h := held[b := Exclusive];
    NoBuffersSheltered(v, held);
    BufferTaken(v, held, id, i);
    assert h - {b} == held;
    forall n | 0 < n < |PushLocked(id, i, c, targets)|
      ensures var now := After(held, PushLocked(id, i, c, targets)[..n]);
              b in now && NodeLock(id) in now && NodeLock(c) in now
    {
      DuringPush(held, id, i, c, targets, n);
    }
    hide Sheltered;
    ShelteredOne(v, held, Excl(b));
    InsertsSheltered(v, h, c, targets);
    ShelteredConcat(v, held, [Excl(b)], Inserts(c, targets));
    ShelteredOne(v, h, Rel(b));
    ShelteredConcat(v, held, [Excl(b)] + Inserts(c, targets), [Rel(b)]);
  }

  lemma {:induction false} DuringPush(held: Held, id: Nid, i: nat, c: Nid, targets: seq<nat>, n: nat)
    requires id != c && NodeLock(id) in held && NodeLock(c) in held && 0 < n < |PushLocked(id, i, c, targets)|
    ensures var now := After(held, PushLocked(id, i, c, targets)[..n]);
            BufLock(id, i) in now && NodeLock(id) in now && NodeLock(c) in now
  {
    var b := BufLock(id, i);
    assert PushLocked(id, i, c, targets)[..n] == [Excl(b)] + Inserts(c, targets)[..n - 1];
    AfterConcat(held, [Excl(b)], Inserts(c, targets)[..n - 1]);
    assert [Excl(b)][1..] == [];
    InsertsTouch(c, targets);
    OthersStay(held[b := Exclusive], Inserts(c, targets)[..n - 1], c);
  }

  /** Inserts lock buffers of c alone. */
  lemma {:induction false} InsertsTouch(c: Nid, targets: seq<nat>)
    ensures forall n :: 0 <= n < |Inserts(c, targets)| ==> OfNode(Inserts(c, targets)[n], c)
    decreases |targets|
  {
    if targets != [] {
      InsertsTouch(c, targets[1..]);
    }
  }

  predicate OfNode(act: Act, c: Nid) {
    act.l.BufLock? && act.l.of == c
  }

  lemma {:induction false} OthersStay(held: Held, acts: seq<Act>, c: Nid)
    requires forall n :: 0 <= n < |acts| ==> OfNode(acts[n], c)
    ensures forall l :: l in held && !(l.BufLock? && l.of == c) ==> l in After(held, acts)
    decreases |acts|
  {
    if acts != [] {
      OthersStay(Acting(held, acts[0]), acts[1..], c);
    }
  }

  /** Each buffer a push inserts into is locked while the parent's is. */
  lemma {:induction false} PushInserts(id: Nid, i: nat, c: Nid, targets: seq<nat>, t: nat) returns (n: nat)
    requires t < |targets|
    ensures 0 < n < |PushLocked(id, i, c, targets)| && PushLocked(id, i, c, targets)[n] == Excl(BufLock(c, targets[t]))
    decreases t
  {
    if t == 0 {
      n := 1;
    } else {
      n := PushInserts(id, i, c, targets[1..], t - 1);
      var a, b := PushLocked(id, i, c, targets), PushLocked(id, i, c, targets[1..]);
      assert a == [a[0]] + UseBuf(c, targets[0]) + b[1..];
      n := n + 2;
    }
  }

  // ---------------------------------------------------------------- a locked path

  /** The nodes of a path, each held to write, and the path mutex. */
  ghost function PathHeld(path: seq<Drain>): Held {
    (map l | l in PathLocks(path) :: Exclusive)[PathMutex := Exclusive]
  }

  lemma {:induction false} PathHeldNext(v: Levels, path: seq<Drain>, done: nat)
    requires DrainsDown(v, path) && 0 < done < |path|
    ensures PathHeld(path[..done + 1]) == PathHeld(path[..done])[NodeLock(path[done].id) := Exclusive]
    ensures NoBuffers(PathHeld(path[..done + 1])) && NoBuffers(PathHeld(path[..done]))
    ensures Under(v, PathHeld(path[..done + 1]), path[done - 1].id)
    ensures Under(v, PathHeld(path[..done + 1]), path[done].id) && path[done - 1].id != path[done].id
  {
    PathLocksAppend(path[..done + 1]);
    assert path[..done + 1][..done] == path[..done];
    assert path[..done][done - 1] == path[done - 1] && path[..done + 1][done] == path[done];
    assert NodeLock(path[..done][done - 1].id) in PathLocks(path[..done]);
  }

  lemma {:induction false} BelowSheltered(v: Levels, path: seq<Drain>, done: nat)
    requires DrainsDown(v, path) && 0 < done <= |path|
    ensures var at := path[done - 1];
            && AllSheltered(v, PathHeld(path[..done]), LockBelow(at.id, at.i, at.targets, path[done..]))
            && After(PathHeld(path[..done]), LockBelow(at.id, at.i, at.targets, path[done..])) == PathHeld(path)
    decreases |path| - done
  {
    var held, at := PathHeld(path[..done]), path[done - 1];
    if done == |path| {
      assert path[..done] == path;
      NoBuffersSheltered(v, held);
    } else {
      var next := path[done];
      assert path[done..][0] == next && path[done..][1..] == path[done + 1..];
      PathHeldNext(v, path, done);
      hide Sheltered, PathHeld, NoBuffers, Under;
      NodeAct(v, held, Excl(NodeLock(next.id)));
      var held' := PathHeld(path[..done + 1]);
      PushSheltered(v, held', at.id, at.i, next.id, at.targets);
      var push := PushLocked(at.id, at.i, next.id, at.targets);
      ShelteredConcat(v, held, [Excl(NodeLock(next.id))], push);
      BelowSheltered(v, path, done + 1);
      ShelteredConcat(v, held, [Excl(NodeLock(next.id))] + push,
                      LockBelow(next.id, next.i, next.targets, path[done + 1..]));
    }
  }

  /** What lockPath starts with. */
  function PathTop(path: seq<Drain>): seq<Act>
    requires path != []
  {
    [Excl(PathMutex), Excl(NodeLock(path[0].id))]
  }

  lemma {:induction false} TopHolds(v: Levels, path: seq<Drain>)
    requires path != []
    ensures AllSheltered(v, map[], PathTop(path)) && After(map[], PathTop(path)) == PathHeld(path[..1])
  {
    var n := NodeLock(path[0].id);
    var h0: Held := map[];
    var h1 := h0[PathMutex := Exclusive];
    assert path[..1] == [path[0]];
    assert PathLocks(path[..1]) == {n};
    assert h1[n := Exclusive] == PathHeld(path[..1]);
    hide PathHeld, PathLocks;
    NodeAct(v, h0, Excl(PathMutex));
    NodeAct(v, h1, Excl(n));
    hide Sheltered, AllSheltered, NoBuffers, After;
    ShelteredConcat(v, h0, [Excl(PathMutex)], [Excl(n)]);
    assert [Excl(PathMutex)] + [Excl(n)] == PathTop(path);
  }

  lemma {:induction false} MutexDropped(v: Levels, path: seq<Drain>)
    ensures AllSheltered(v, PathHeld(path), [Rel(PathMutex)])
    ensures After(PathHeld(path), [Rel(PathMutex)]) == map l | l in PathLocks(path) :: Exclusive
  {
    NodeAct(v, PathHeld(path), Rel(PathMutex));
    assert PathHeld(path) - {PathMutex} == map l | l in PathLocks(path) :: Exclusive;
  }

  lemma PathIs(path: seq<Drain>)
    requires path != []
    ensures LockPath(path)
         == PathTop(path) + LockBelow(path[0].id, path[0].i, path[0].targets, path[1..]) + [Rel(PathMutex)]
  {
  }

  /** lockPath ends with the nodes of the path held, all to write. */
  lemma {:induction false} LockPathHolds(v: Levels, path: seq<Drain>)
    requires path != [] && DrainsDown(v, path)
    ensures AllSheltered(v, map[], LockPath(path))
    ensures After(map[], LockPath(path)) == map l | l in PathLocks(path) :: Exclusive
  {
    hide *;
    TopHolds(v, path);
    BelowSheltered(v, path, 1);
    MutexDropped(v, path);
    PathIs(path);
    var below := LockBelow(path[0].id, path[0].i, path[0].targets, path[1..]);
    ShelteredConcat(v, map[], PathTop(path), below);
    ShelteredConcat(v, map[], PathTop(path) + below, [Rel(PathMutex)]);
  }

  lemma {:induction false} ReleasesSheltered(v: Levels, held: Held, acts: seq<Act>)
    requires NoBuffers(held) && forall n :: 0 <= n < |acts| ==> acts[n].Rel?
    ensures AllSheltered(v, held, acts)
    decreases |acts|
  {
    NoBuffersSheltered(v, held);
    hide Sheltered;
    if acts != [] {
      ReleasesSheltered(v, Acting(held, acts[0]), acts[1..]);
    }
  }

  lemma {:induction false} SplitsSheltered(v: Levels, path: seq<Drain>, splits: nat)
    requires DrainsDown(v, path)
    ensures var held: Held := map l | l in PathLocks(path) :: Exclusive;
            AllSheltered(v, held, SplitNodes(path, splits)) && After(held, SplitNodes(path, splits)) == map[]
  {
    var held: Held := map l | l in PathLocks(path) :: Exclusive;
    SplitsOnlyRelease(path, splits);
    ReleasesSheltered(v, held, SplitNodes(path, splits));
    SplitNodesRun(v, path, splits);
    assert held.Keys == PathLocks(path);
    RunsAfter(v, held, SplitNodes(path, splits), {});
    NothingHeld(After(held, SplitNodes(path, splits)));
  }

  lemma NothingHeld(held: Held)
    requires held.Keys == {}
    ensures held == map[]
  {
    assert forall l :: l in held ==> l in held.Keys;
  }

  /** The nodes of a path that were not split are given back from the last one up, and then those that were
      from the first one down: a split node stays locked until its parent knows of its sibling. */
  lemma {:induction false} SplitNodesOrder(path: seq<Drain>, splits: nat, j: nat)
    requires j < |path|
    ensures |SplitNodes(path, splits)| == |path|
    ensures var k := if splits < |path| then |path| - splits else 0;
            SplitNodes(path, splits)[j] == Rel(NodeLock(path[if j < k then k - 1 - j else j].id))
    decreases |path|
  {
    if splits == 0 {
      UnlockAllOrder(path, j);
    } else if |path| == 1 {
      assert path[..0] == [];
      assert SplitNodes(path[..0], splits - 1) == [];
    } else {
      SplitNodesOrder(path[..|path| - 1], splits - 1, if j == |path| - 1 then 0 else j);
    }
  }

  lemma {:induction false} UnlockAllOrder(path: seq<Drain>, j: nat)
    requires j < |path|
    ensures |UnlockAll(path)| == |path| && UnlockAll(path)[j] == Rel(NodeLock(path[|path| - 1 - j].id))
    decreases |path|
  {
    if |path| > 1 {
      UnlockAllOrder(path[..|path| - 1], if j == 0 then 0 else j - 1);
    } else {
      assert UnlockAll(path[..0]) == [];
    }
  }

  // ---------------------------------------------------------------- a whole write

  /** Buffers are split in leaves only. */
  ghost predicate SplitsLeaves(v: Levels, id: Nid, w: Work)
    decreases w
  {
    match w
    case Nothing => true
    case Push(_, c, _, below, rest) => SplitsLeaves(v, c, below) && SplitsLeaves(v, id, rest)
    case Split(_, _, _, rest) => LevelOf(v, id) == 0 && SplitsLeaves(v, id, rest)
    case SplitStale(_, _, rest) => LevelOf(v, id) == 0 && SplitsLeaves(v, id, rest)
  }

  /** A node as optionalLock leaves it. */
  function Alone(v: Levels, id: Nid): Held {
    map[NodeLock(id) := Opt(v, id).mode]
  }

  lemma {:induction false} AloneIs(v: Levels, id: Nid)
    ensures AllSheltered(v, map[], [Opt(v, id)]) && After(map[], [Opt(v, id)]) == Alone(v, id)
    ensures AllSheltered(v, Alone(v, id), [Rel(NodeLock(id))]) && After(Alone(v, id), [Rel(NodeLock(id))]) == map[]
    ensures Under(v, Alone(v, id), id) && NoBuffers(Alone(v, id))
  {
    var h0: Held := map[];
    NodeAct(v, h0, Opt(v, id));
    assert Acting(h0, Opt(v, id)) == Alone(v, id);
    NodeAct(v, Alone(v, id), Rel(NodeLock(id)));
    NothingHeld(Acting(Alone(v, id), Rel(NodeLock(id))));
  }

  lemma {:induction false} SplitBufSheltered(v: Levels, id: Nid, i: nat)
    requires LevelOf(v, id) == 0
    ensures AllSheltered(v, Alone(v, id), SplitBuf(id, i)) && After(Alone(v, id), SplitBuf(id, i)) == Alone(v, id)
  {
    var b, f, h := BufLock(id, i), NewBufLock(id), Alone(v, id);
    var h1 := h[b := Exclusive];
    var h2 := h1[f := Exclusive];
    AloneIs(v, id);
    NoBuffersSheltered(v, h);
    BufferTaken(v, h, id, i);
    assert Sheltered(v, h2);
    assert h2 - {f} == h1 && h1 - {b} == h;
    hide Sheltered;
    ShelteredOne(v, h, Excl(b));
    ShelteredOne(v, h1, Excl(f));
    ShelteredOne(v, h2, Rel(f));
    ShelteredOne(v, h1, Rel(b));
    ShelteredConcat(v, h, [Excl(b)], [Excl(f)]);
    ShelteredConcat(v, h, [Excl(b)] + [Excl(f)], [Rel(f)]);
    ShelteredConcat(v, h, [Excl(b)] + [Excl(f)] + [Rel(f)], [Rel(b)]);
    assert [Excl(b)] + [Excl(f)] + [Rel(f)] + [Rel(b)] == SplitBuf(id, i);
  }

  /** The push of pushDown: child locked, buffer drained, parent given back. */
  lemma {:induction false} PushStepSheltered(v: Levels, id: Nid, i: nat, c: Nid, targets: seq<nat>)
    requires id != c
    ensures var acts := [Opt(v, c)] + PushLocked(id, i, c, targets) + [Rel(NodeLock(id))];
            AllSheltered(v, Alone(v, id), acts) && After(Alone(v, id), acts) == Alone(v, c)
  {
    var h, push := Alone(v, id), PushLocked(id, i, c, targets);
    var h1 := Acting(h, Opt(v, c));
    AloneIs(v, id);
    NodeAct(v, h, Opt(v, c));
    assert Under(v, h1, id) && Under(v, h1, c);
    NodeAct(v, h1, Rel(NodeLock(id)));
    assert h1 - {NodeLock(id)} == Alone(v, c);
    hide Sheltered, NoBuffers, Under;
    PushSheltered(v, h1, id, i, c, targets);
    ShelteredConcat(v, h, [Opt(v, c)], push);
    ShelteredConcat(v, h, [Opt(v, c)] + push, [Rel(NodeLock(id))]);
  }

  /** Every act of a push, and whatever it does in between, is done with both nodes held, a leaf to write. */
  lemma {:induction false} PushKeepsNodes(v: Levels, id: Nid, i: nat, c: Nid, targets: seq<nat>, n: nat)
    requires id != c && n <= |PushLocked(id, i, c, targets)|
    ensures var now := After(Alone(v, id), [Opt(v, c)] + PushLocked(id, i, c, targets)[..n]);
            Under(v, now, id) && Under(v, now, c)
  {
    var h, push := Alone(v, id), PushLocked(id, i, c, targets);
    var h1 := Acting(h, Opt(v, c));
    AloneIs(v, id);
    NodeAct(v, h, Opt(v, c));
    assert Under(v, h1, id) && Under(v, h1, c);
    AfterConcat(h, [Opt(v, c)], push[..n]);
    BothStay(h1, id, i, c, targets, n);
  }

  /** Node locks do not change during a push. */
  lemma {:induction false} BothStay(held: Held, id: Nid, i: nat, c: Nid, targets: seq<nat>, n: nat)
    requires n <= |PushLocked(id, i, c, targets)|
    ensures var now := After(held, PushLocked(id, i, c, targets)[..n]);
            forall l :: l in held && l.NodeLock? ==> l in now && now[l] == held[l]
  {
    PushTouches(id, i, c, targets);
    NodesStay(held, PushLocked(id, i, c, targets)[..n]);
  }

  lemma {:induction false} PushTouches(id: Nid, i: nat, c: Nid, targets: seq<nat>)
    ensures forall n :: 0 <= n < |PushLocked(id, i, c, targets)| ==> PushLocked(id, i, c, targets)[n].l.BufLock?
  {
    InsertsTouch(c, targets);
  }

  lemma {:induction false} NodesStay(held: Held, acts: seq<Act>)
    requires forall n :: 0 <= n < |acts| ==> acts[n].l.BufLock?
    ensures forall l :: l in held && l.NodeLock? ==> l in After(held, acts) && After(held, acts)[l] == held[l]
    decreases |acts|
  {
    if acts != [] {
      NodesStay(Acting(held, acts[0]), acts[1..]);
    }
  }

  lemma {:induction false} WorkSheltered(v: Levels, id: Nid, w: Work)
    requires WorkShaped(w) && WorkOk(v, id, w) && SplitsLeaves(v, id, w)
    ensures AllSheltered(v, Alone(v, id), WorkTrace(v, id, w)) && After(Alone(v, id), WorkTrace(v, id, w)) == map[]
    decreases w
  {
    hide Sheltered, NoBuffers, Under, LevelOf, Opt, SplitBuf, PushLocked, LockPath, SplitNodes, AllSheltered, After;
    var h := Alone(v, id);
    AloneIs(v, id);
    match w {
      case Nothing =>
      case Push(i, c, targets, below, rest) =>
        WorkSheltered(v, c, below);
        WorkSheltered(v, id, rest);
        PushStepSheltered(v, id, i, c, targets);
        var a := [Opt(v, c)] + PushLocked(id, i, c, targets) + [Rel(NodeLock(id))];
        ShelteredConcat(v, h, a, WorkTrace(v, c, below));
        ShelteredConcat(v, h, a + WorkTrace(v, c, below), [Opt(v, id)]);
        ShelteredConcat(v, h, a + WorkTrace(v, c, below) + [Opt(v, id)], WorkTrace(v, id, rest));
      case Split(i, path, splits, rest) =>
        WorkSheltered(v, id, rest);
        SplitBufSheltered(v, id, i);
        var a := SplitBuf(id, i) + [Rel(NodeLock(id))];
        ShelteredConcat(v, h, SplitBuf(id, i), [Rel(NodeLock(id))]);
        LockPathHolds(v, path);
        ShelteredConcat(v, h, a, LockPath(path));
        SplitsSheltered(v, path, splits);
        ShelteredConcat(v, h, a + LockPath(path), SplitNodes(path, splits));
        ShelteredConcat(v, h, a + LockPath(path) + SplitNodes(path, splits), [Opt(v, id)]);
        ShelteredConcat(v, h, a + LockPath(path) + SplitNodes(path, splits) + [Opt(v, id)], WorkTrace(v, id, rest));
      case SplitStale(i, root, rest) =>
        WorkSheltered(v, id, rest);
        SplitBufSheltered(v, id, i);
        var a := SplitBuf(id, i) + [Rel(NodeLock(id))];
        var stale := [Excl(PathMutex), Excl(NodeLock(root)), Rel(NodeLock(root)), Rel(PathMutex)];
        ShelteredConcat(v, h, SplitBuf(id, i), [Rel(NodeLock(id))]);
        StaleSheltered(v, root);
        ShelteredConcat(v, h, a, stale);
        ShelteredConcat(v, h, a + stale, [Opt(v, id)]);
        ShelteredConcat(v, h, a + stale + [Opt(v, id)], WorkTrace(v, id, rest));
    }
  }

  lemma {:induction false} StaleSheltered(v: Levels, root: Nid)
    ensures var acts := [Excl(PathMutex), Excl(NodeLock(root)), Rel(NodeLock(root)), Rel(PathMutex)];
            AllSheltered(v, map[], acts) && After(map[], acts) == map[]
  {
    var p, n := PathMutex, NodeLock(root);
    var h0: Held := map[];
    var h1 := h0[p := Exclusive];
    var h2 := h1[n := Exclusive];
    NodeAct(v, h0, Excl(p));
    NodeAct(v, h1, Excl(n));
    NodeAct(v, h2, Rel(n));
    assert h2 - {n} == h1 && h1 - {p} == h0;
    NodeAct(v, h1, Rel(p));
    hide Sheltered, NoBuffers;
    ShelteredConcat(v, h0, [Excl(p)], [Excl(n)]);
    ShelteredConcat(v, h0, [Excl(p)] + [Excl(n)], [Rel(n)]);
    ShelteredConcat(v, h0, [Excl(p)] + [Excl(n)] + [Rel(n)], [Rel(p)]);
    assert [Excl(p)] + [Excl(n)] + [Rel(n)] + [Rel(p)] == [Excl(p), Excl(n), Rel(n), Rel(p)];
  }

  lemma {:induction false} RetriesSheltered(v: Levels, stale: seq<Nid>)
    ensures AllSheltered(v, map[], Retries(v, stale)) && After(map[], Retries(v, stale)) == map[]
    decreases |stale|
  {
    if stale == [] {
      NoBuffersSheltered(v, map[]);
    } else {
      hide Sheltered, NoBuffers, Under;
      var h0: Held := map[];
      var n := NodeLock(stale[0]);
      AloneIs(v, stale[0]);
      ShelteredConcat(v, h0, [Opt(v, stale[0])], [Rel(n)]);
      assert [Opt(v, stale[0])] + [Rel(n)] == [Opt(v, stale[0]), Rel(n)];
      RetriesSheltered(v, stale[1..]);
      ShelteredConcat(v, h0, [Opt(v, stale[0]), Rel(n)], Retries(v, stale[1..]));
    }
  }

  /** How the work at a node starts: a push locks the child and drains the buffer, a split locks the old
      buffer and the new one. */
  lemma {:induction false} WorkStarts(v: Levels, id: Nid, w: Work)
    requires WorkShaped(w)
    ensures w.Push? ==> [Opt(v, w.c)] + PushLocked(id, w.i, w.c, w.targets) <= WorkTrace(v, id, w)
    ensures w.Split? || w.SplitStale? ==> [Excl(BufLock(id, w.i)), Excl(NewBufLock(id))] <= WorkTrace(v, id, w)
  {
    hide Opt, PushLocked, LockPath, SplitNodes;
    match w
    case Nothing =>
    case Push(i, c, targets, below, rest) =>
      hide SplitBuf;
      var a := [Opt(v, c)] + PushLocked(id, i, c, targets);
      var t := a + [Rel(NodeLock(id))] + WorkTrace(v, c, below) + [Opt(v, id)] + WorkTrace(v, id, rest);
      assert WorkTrace(v, id, w) == t;
      hide WorkTrace;
      assert a <= t;
    case Split(i, path, splits, rest) =>
      assert SplitBuf(id, i) <= WorkTrace(v, id, w);
      hide WorkTrace;
    case SplitStale(i, root, rest) =>
      assert SplitBuf(id, i) <= WorkTrace(v, id, w);
      hide WorkTrace;
  }

  /** On a locked path each node's buffer is drained into the next node with the path down to that one held
      to write. */
  lemma {:induction false} PathDrains(v: Levels, path: seq<Drain>, n: nat) returns (a: seq<Act>, b: seq<Act>)
    requires DrainsDown(v, path) && n + 1 < |path|
    ensures LockPath(path) == a + PushLocked(path[n].id, path[n].i, path[n + 1].id, path[n].targets) + b
    ensures After(map[], a) == PathHeld(path[..n + 2])
  {
    hide *;
    TopHolds(v, path);
    var a', b' := BelowDrains(v, path, 1, n);
    PathIs(path);
    AfterConcat(map[], PathTop(path), a');
    var push := PushLocked(path[n].id, path[n].i, path[n + 1].id, path[n].targets);
    Inside(PathTop(path), a' + push + b', a', push, b');
    a, b := PathTop(path) + a', b' + [Rel(PathMutex)];
    assert a + push + b' + [Rel(PathMutex)] == a + push + b;
  }

  lemma {:induction false} BelowDrains(v: Levels, path: seq<Drain>, done: nat, n: nat)
    returns (a: seq<Act>, b: seq<Act>)
    requires DrainsDown(v, path) && 0 < done <= n + 1 < |path|
    ensures var at := path[done - 1];
            LockBelow(at.id, at.i, at.targets, path[done..])
            == a + PushLocked(path[n].id, path[n].i, path[n + 1].id, path[n].targets) + b
    ensures After(PathHeld(path[..done]), a) == PathHeld(path[..n + 2])
    decreases |path| - done
  {
    hide *;
    var held, at, next := PathHeld(path[..done]), path[done - 1], path[done];
    var take := [Excl(NodeLock(next.id))];
    var push := PushLocked(at.id, at.i, next.id, at.targets);
    var rest := LockBelow(next.id, next.i, next.targets, path[done + 1..]);
    BelowIs(path, done);
    TakeNext(v, path, done);
    if done == n + 1 {
      a, b := take, rest;
    } else {
      var a', b' := BelowDrains(v, path, done + 1, n);
      AfterConcat(held, take + push, a');
      Inside(take + push, rest, a', PushLocked(path[n].id, path[n].i, path[n + 1].id, path[n].targets), b');
      a, b := take + push + a', b';
    }
  }

  lemma Inside(x: seq<Act>, rest: seq<Act>, a: seq<Act>, mid: seq<Act>, b: seq<Act>)
    requires rest == a + mid + b
    ensures x + rest == (x + a) + mid + b
  {
  }

  lemma BelowIs(path: seq<Drain>, done: nat)
    requires 0 < done < |path|
    ensures var at, next := path[done - 1], path[done];
            LockBelow(at.id, at.i, at.targets, path[done..])
            == [Excl(NodeLock(next.id))] + PushLocked(at.id, at.i, next.id, at.targets)
               + LockBelow(next.id, next.i, next.targets, path[done + 1..])
  {
    assert path[done..][0] == path[done] && path[done..][1..] == path[done + 1..];
  }

  /** The next node is locked, and then drained into. */
  lemma {:induction false} TakeNext(v: Levels, path: seq<Drain>, done: nat)
    requires DrainsDown(v, path) && 0 < done < |path|
    ensures var held, at, next := PathHeld(path[..done]), path[done - 1], path[done];
            var take := [Excl(NodeLock(next.id))];
            && After(held, take) == PathHeld(path[..done + 1])
            && After(held, take + PushLocked(at.id, at.i, next.id, at.targets)) == PathHeld(path[..done + 1])
  {
    var held, at, next := PathHeld(path[..done]), path[done - 1], path[done];
    PathHeldNext(v, path, done);
    hide PathHeld, Under, Sheltered, AllSheltered, PushLocked, NoBuffers, After;
    NodeAct(v, held, Excl(NodeLock(next.id)));
    PushSheltered(v, PathHeld(path[..done + 1]), at.id, at.i, next.id, at.targets);
    AfterConcat(held, [Excl(NodeLock(next.id))], PushLocked(at.id, at.i, next.id, at.targets));
  }

  /** The message of a write goes into the root's buffer with that buffer and the root locked. */
  lemma {:induction false} WriteInserts(v: Levels, stale: seq<Nid>, root: Nid, i: nat, w: Work) returns (n: nat)
    requires WorkShaped(w)
    ensures n < |WriteTrace(v, stale, root, i, w)| && WriteTrace(v, stale, root, i, w)[n] == Excl(BufLock(root, i))
    ensures After(map[], WriteTrace(v, stale, root, i, w)[..n]) == Alone(v, root)
  {
    RetriesSheltered(v, stale);
    AloneIs(v, root);
    hide AllSheltered, Under, NoBuffers, Retries, WorkTrace, Opt, After;
    var a := Retries(v, stale) + [Opt(v, root)];
    n := |a|;
    AfterConcat(map[], Retries(v, stale), [Opt(v, root)]);
    assert WriteTrace(v, stale, root, i, w) == a + (UseBuf(root, i) + WorkTrace(v, root, w));
    hide WriteTrace;
    assert (a + (UseBuf(root, i) + WorkTrace(v, root, w)))[..n] == a;
  }

  /** At no moment of a write, with all it sets off, is a buffer held without its node, or a leaf's buffer
      without the leaf being locked to write. */
  lemma {:induction false} WriteSheltered(v: Levels, stale: seq<Nid>, root: Nid, i: nat, w: Work, n: nat)
    requires WorkShaped(w) && WorkOk(v, root, w) && SplitsLeaves(v, root, w)
    requires n <= |WriteTrace(v, stale, root, i, w)|
    ensures Sheltered(v, After(map[], WriteTrace(v, stale, root, i, w)[..n]))
  {
    var h0: Held := map[];
    var h := Alone(v, root);
    AloneIs(v, root);
    NoBuffersSheltered(v, h);
    UseSheltered(v, h, root, i);
    hide Sheltered, NoBuffers, Under, UseBuf, Opt;
    ShelteredConcat(v, h0, [Opt(v, root)], UseBuf(root, i));
    WorkSheltered(v, root, w);
    ShelteredConcat(v, h0, [Opt(v, root)] + UseBuf(root, i), WorkTrace(v, root, w));
    RetriesSheltered(v, stale);
    ShelteredConcat(v, h0, Retries(v, stale), [Opt(v, root)] + UseBuf(root, i) + WorkTrace(v, root, w));
    ShelteredAt(v, h0, WriteTrace(v, stale, root, i, w), n);
  }
}
