/** What the machine of TreeReaders does when one thread has it to itself: the steps of a push add up to the
    one push of TreeModel, and those of a read to the walk of TreeModel. And what its steps wait for when
    there are others. */
module TreeReadersAlone {
  import opened Keys
  import opened Msgs
  import opened TreeModel
  import opened TreeSteps
  import opened TreeSplits
  import opened TreeSplitNode
  import opened TreePushOne
  import opened TreeReaders
  import opened TreeReadersRuns

  /** The steps can be taken one after the other, and each state is right. */
  ghost predicate Steps(b: seq<Sys>, sts: seq<Step>) {
    && |b| == |sts| + 1
    && (forall n :: 0 <= n < |b| ==> Good(b[n]))
    && forall n :: 0 <= n < |sts| ==> Leads(b[n], sts[n], b[n + 1])
  }

  ghost predicate Leads(y: Sys, st: Step, y': Sys) {
    Good(y) && Guard(y, st) && y' == Apply(y, st)
  }

  lemma {:induction false} StepsFirst(y: Sys, st: Step, b: seq<Sys>, sts: seq<Step>)
    requires Steps(b, sts) && Leads(y, st, b[0])
    ensures Steps([y] + b, [st] + sts)
  {
    hide Good, Guard, Apply;
    var c := [y] + b;
    forall n | 0 <= n < |c|
      ensures Good(c[n])
    {
      assert n > 0 ==> c[n] == b[n - 1];
    }
    forall n | 0 <= n < |sts| + 1
      ensures Leads(c[n], ([st] + sts)[n], c[n + 1])
    {
      assert n > 0 ==> c[n] == b[n - 1] && c[n + 1] == b[n] && ([st] + sts)[n] == sts[n - 1];
    }
  }

  // ---------------------------------------------------------------- a push

  lemma {:induction false} DistributeNext(ps: seq<Pivot>, ms: seq<Msg>, j: nat)
    requires |ps| > 0 && j < |ms|
    ensures Distribute(ps, ms[..j + 1]) == Deliver(Distribute(ps, ms[..j]), ms[j])
    decreases j
  {
    hide Deliver;
    if j > 0 {
      assert ms[..j + 1][1..] == ms[1..][..j] && ms[..j][1..] == ms[1..][..j - 1];
      DeliveredLength(ps, ms[0]);
      DistributeNext(Deliver(ps, ms[0]), ms[1..], j - 1);
    } else {
      assert ms[..1] == [ms[0]] && ms[..1][1..] == [];
    }
  }

  lemma DeliveredLength(ps: seq<Pivot>, m: Msg)
    requires |ps| > 0
    ensures |Deliver(ps, m)| == |ps|
  {
  }

  /** The first j messages of p's buffer i have a copy in the child. */
  ghost function PartlyPushed(y: Sys, u: nat, p: Nid, i: nat, j: nat): Sys
    requires p in y.s && i < |y.s[p].pivots| && j <= |y.s[p].pivots[i].buf|
    requires y.s[p].pivots[i].child in y.s && |y.s[y.s[p].pivots[i].child].pivots| > 0
  {
    var c := y.s[p].pivots[i].child;
    y.(s := y.s[c := y.s[c].(pivots := Distribute(y.s[c].pivots, y.s[p].pivots[i].buf[..j]))],
       pushes := y.pushes[u := Push(p, i, j)])
  }

  /** Nobody else is about, and there is something to push. */
  ghost predicate CanPush(y: Sys, p: Nid, i: nat) {
    && y.readers == map[] && y.pushes == map[]
    && p in y.s && i < |y.s[p].pivots| && y.s[p].pivots[i].buf != []
    && y.s[p].pivots[i].child in y.s && y.s[p].pivots[i].child != NID_NIL && y.s[p].pivots[i].child != p
    && |y.s[y.s[p].pivots[i].child].pivots| > 0
  }

  lemma {:induction false} PushBegins(y: Sys, u: nat, p: Nid, i: nat)
    requires Good(y) && CanPush(y, p, i)
    ensures Leads(y, BeginPush(u, p, i), PartlyPushed(y, u, p, i, 0))
  {
    hide Good;
    var c := y.s[p].pivots[i].child;
    assert y.s[p].pivots[i].buf[..0] == [];
    assert y.s[c := y.s[c].(pivots := y.s[c].pivots)] == y.s;
  }

  lemma {:induction false} PushCopies(y: Sys, u: nat, p: Nid, i: nat, j: nat)
    requires CanPush(y, p, i) && j < |y.s[p].pivots[i].buf| && Good(PartlyPushed(y, u, p, i, j))
    ensures Leads(PartlyPushed(y, u, p, i, j), CopyOne(u), PartlyPushed(y, u, p, i, j + 1))
  {
    hide Good, Deliver, Route;
    var c := y.s[p].pivots[i].child;
    DistributeNext(y.s[c].pivots, y.s[p].pivots[i].buf, j);
    hide Distribute;
  }

  lemma {:induction false} PushEnds(y: Sys, u: nat, p: Nid, i: nat)
    requires CanPush(y, p, i) && Good(PartlyPushed(y, u, p, i, |y.s[p].pivots[i].buf|))
    ensures Leads(PartlyPushed(y, u, p, i, |y.s[p].pivots[i].buf|), EndPush(u), y.(s := PushDown(y.s, p, i)))
  {
    hide Good, Distribute;
    var c, ms := y.s[p].pivots[i].child, y.s[p].pivots[i].buf;
    assert ms[..|ms|] == ms;
    var z := PartlyPushed(y, u, p, i, |ms|);
    assert z.pushes - {u} == y.pushes;
    assert Cleared(z.s, p, i) == PushDown(y.s, p, i);
  }

  lemma {:induction false} PushGoesOn(y: Sys, u: nat, p: Nid, i: nat, j: nat) returns (b: seq<Sys>, sts: seq<Step>)
    requires CanPush(y, p, i) && j <= |y.s[p].pivots[i].buf| && Good(PartlyPushed(y, u, p, i, j))
    ensures Steps(b, sts) && b[0] == PartlyPushed(y, u, p, i, j) && b[|sts|] == y.(s := PushDown(y.s, p, i))
    ensures |sts| == |y.s[p].pivots[i].buf| - j + 1 && sts[|sts| - 1] == EndPush(u)
    ensures forall n :: 0 <= n < |sts| - 1 ==> sts[n] == CopyOne(u)
    decreases |y.s[p].pivots[i].buf| - j
  {
    hide Good, Guard, Apply, PartlyPushed, PushDown, Steps;
    var z := PartlyPushed(y, u, p, i, j);
    if j < |y.s[p].pivots[i].buf| {
      PushCopies(y, u, p, i, j);
      StepStaysGood(z, CopyOne(u), PartlyPushed(y, u, p, i, j + 1));
      b, sts := PushGoesOn(y, u, p, i, j + 1);
      StepsFirst(z, CopyOne(u), b, sts);
      b, sts := [z] + b, [CopyOne(u)] + sts;
    } else {
      PushEnds(y, u, p, i);
      StepStaysGood(z, EndPush(u), y.(s := PushDown(y.s, p, i)));
      b, sts := [z, y.(s := PushDown(y.s, p, i))], [EndPush(u)];
      OneStep(z, EndPush(u), y.(s := PushDown(y.s, p, i)));
    }
  }

  lemma {:induction false} StepStaysGood(y: Sys, st: Step, y': Sys)
    requires Leads(y, st, y') && !st.SplitBelow?
    ensures Good(y')
  {
    hide Good, Guard, Apply;
    StepKeepsGood(y, st);
  }

  lemma OneStep(y: Sys, st: Step, y': Sys)
    requires Leads(y, st, y') && Good(y')
    ensures Steps([y, y'], [st])
  {
    hide Good, Guard, Apply;
  }

  /** With nobody else about, a push can be made: its steps are one copy after the other, and together they
      are the push of TreeModel. */
  lemma {:induction false} PushAlone(y: Sys, u: nat, p: Nid, i: nat) returns (b: seq<Sys>, sts: seq<Step>)
    requires Good(y) && CanPush(y, p, i)
    ensures Steps(b, sts) && b[0] == y && b[|sts|] == y.(s := PushDown(y.s, p, i))
    ensures |sts| == |y.s[p].pivots[i].buf| + 2 && sts[0] == BeginPush(u, p, i) && sts[|sts| - 1] == EndPush(u)
    ensures forall n :: 0 < n < |sts| - 1 ==> sts[n] == CopyOne(u)
  {
    hide Good, Guard, Apply, PartlyPushed, PushDown, Steps;
    PushBegins(y, u, p, i);
    StepStaysGood(y, BeginPush(u, p, i), PartlyPushed(y, u, p, i, 0));
    var b', sts' := PushGoesOn(y, u, p, i, 0);
    StepsFirst(y, BeginPush(u, p, i), b', sts');
    b, sts := [y] + b', [BeginPush(u, p, i)] + sts';
    hide CanPush;
    forall n | 0 < n < |sts| - 1
      ensures sts[n] == CopyOne(u)
    {
      assert sts[n] == sts'[n - 1];
    }
  }

  // ---------------------------------------------------------------- a read

  /** Read r has its node locked and nobody pushes. */
  ghost predicate CanLook(y: Sys, r: Rid) {
    && Good(y) && y.pushes == map[] && r in y.readers && y.readers[r].Active? && y.readers[r].held == y.readers[r].at
    && y.readers[r].at in y.s && y.readers[r].at in y.g
  }

  /** What read r will answer if nothing changes. */
  ghost function Ahead(y: Sys, r: Rid): Option<Value>
    requires CanLook(y, r)
  {
    Answer(Find(y.s, y.readers[r].at, y.g[y.readers[r].at].level, y.readers[r].key))
  }

  /** The read after its look, and after it has gone down. */
  function Looked(y: Sys, r: Rid, c: Nid): Sys
    requires r in y.readers && y.readers[r].Active?
  {
    y.(readers := y.readers[r := y.readers[r].(at := c)])
  }

  function Arrived(y: Sys, r: Rid, c: Nid): Sys
    requires r in y.readers && y.readers[r].Active?
  {
    y.(readers := y.readers[r := y.readers[r].(at := c, held := c)])
  }

  function Finished(y: Sys, r: Rid, a: Option<Value>): Sys
    requires r in y.readers && y.readers[r].Active? && |y.hist| > 0
  {
    y.(readers := y.readers[r := Done(y.readers[r].key, y.readers[r].start, |y.hist| - 1, a)])
  }

  lemma {:induction false} LookIsNext(y: Sys, r: Rid)
    requires CanLook(y, r) && |y.s[y.readers[r].at].pivots| > 0 && |y.hist| > 0
    ensures var rd := y.readers[r];
            var m, c := Here(y.s, rd.at, rd.key), At(y.s[rd.at].pivots, rd.key).child;
            Leads(y, Look(r), if m.Some? || c == NID_NIL then Finished(y, r, Answer(m)) else Looked(y, r, c))
  {
    hide Good, Here, At;
  }

  lemma {:induction false} DescentIsNext(y: Sys, r: Rid, c: Nid)
    requires CanLook(y, r) && Good(Looked(y, r, c)) && c != y.readers[r].at && c in y.s
    ensures Leads(Looked(y, r, c), GoDown(r), Arrived(y, r, c))
  {
    hide Good;
    var z := Looked(y, r, c);
    assert z.readers[r := z.readers[r].(held := c)] == Arrived(y, r, c).readers;
  }

  /** What the node at hand makes of the answer ahead. */
  lemma {:induction false} AheadIs(y: Sys, r: Rid)
    requires CanLook(y, r)
    ensures |y.hist| > 0 && |y.s[y.readers[r].at].pivots| > 0
    ensures var rd := y.readers[r];
            var m, c := Here(y.s, rd.at, rd.key), At(y.s[rd.at].pivots, rd.key).child;
            if m.Some? || c == NID_NIL then Ahead(y, r) == Answer(m)
            else
              && c in y.s && c in y.g && c != rd.at && y.g[rd.at].level > 0 && y.g[c].level == y.g[rd.at].level - 1
              && Ahead(y, r) == Answer(Find(y.s, c, y.g[c].level, rd.key))
  {
    var rd := y.readers[r];
    assert ActiveOk(y, rd);
    hide Inv, AboveIsNew, Since, ReadsLatest, PushOk, DoneOk, Route;
    NodeIsOk(y.s, y.g, y.root, rd.at);
    var c := At(y.s[rd.at].pivots, rd.key).child;
    if c != NID_NIL {
      NextLevel(y, rd.at, rd.key);
      hide Good;
      FindStep(y.s, rd.at, y.g[rd.at].level, rd.key);
    }
  }

  /** Nobody else being about, a read goes on to its end. */
  lemma {:induction false} ReadGoesOn(y: Sys, r: Rid) returns (b: seq<Sys>, sts: seq<Step>)
    requires CanLook(y, r)
    ensures Steps(b, sts) && |b| == |sts| + 1 && b[0] == y
    ensures forall n :: 0 <= n < |sts| ==> sts[n] == Look(r) || sts[n] == GoDown(r)
    ensures var z := b[|sts|]; r in z.readers && z.readers[r].Done? && z.readers[r].answer == Ahead(y, r)
    decreases y.g[y.readers[r].at].level
  {
    hide Good, Guard, Apply, Steps, Find, Here, At, Leads;
    var rd := y.readers[r];
    AheadIs(y, r);
    LookIsNext(y, r);
    var m, c := Here(y.s, rd.at, rd.key), At(y.s[rd.at].pivots, rd.key).child;
    if m.Some? || c == NID_NIL {
      var z := Finished(y, r, Answer(m));
      StepStaysGood(y, Look(r), z);
      OneStep(y, Look(r), z);
      b, sts := [y, z], [Look(r)];
    } else {
      var y1, y2 := Looked(y, r, c), Arrived(y, r, c);
      StepStaysGood(y, Look(r), y1);
      DescentIsNext(y, r, c);
      StepStaysGood(y1, GoDown(r), y2);
      b, sts := ReadGoesOn(y2, r);
      StepsFirst(y1, GoDown(r), b, sts);
      StepsFirst(y, Look(r), [y1] + b, [GoDown(r)] + sts);
      assert b[|sts|] == ([y] + ([y1] + b))[|sts| + 2];
      b, sts := [y] + ([y1] + b), [Look(r)] + ([GoDown(r)] + sts);
    }
  }

  /** A read that nothing stands in the way of ends, with the answer of the walk of TreeModel. */
  lemma {:induction false} ReadAlone(y: Sys, r: Rid, k: Key) returns (b: seq<Sys>, sts: seq<Step>)
    requires Good(y) && y.pushes == map[] && r !in y.readers
    ensures Steps(b, sts) && b[0] == y && sts != [] && sts[0] == StartRead(r, k)
    ensures forall n :: 0 < n < |sts| ==> sts[n] == Look(r) || sts[n] == GoDown(r)
    ensures var z := b[|sts|]; r in z.readers && z.readers[r].Done?
    ensures y.root in y.g && b[|sts|].readers[r].answer == Answer(View(y.s, y.g, y.root, k))
  {
    hide Good, Steps, Find;
    var y1 := y.(readers := y.readers[r := Active(k, y.root, y.root, |y.hist| - 1)]);
    assert Leads(y, StartRead(r, k), y1);
    StepStaysGood(y, StartRead(r, k), y1);
    var b', sts' := ReadGoesOn(y1, r);
    StepsFirst(y, StartRead(r, k), b', sts');
    b, sts := [y] + b', [StartRead(r, k)] + sts';
    hide Leads;
    forall n | 0 < n < |sts|
      ensures sts[n] == Look(r) || sts[n] == GoDown(r)
    {
      assert sts[n] == sts'[n - 1];
    }
  }

  // ---------------------------------------------------------------- what waits for what

  /** A read looks at its node unless the very buffer it needs is being pushed. */
  lemma {:induction false} LookWaits(y: Sys, r: Rid)
    requires Good(y) && r in y.readers && y.readers[r].Active? && y.readers[r].held == y.readers[r].at
    ensures var x, k := y.readers[r].at, y.readers[r].key;
            && x in y.s && |y.s[x].pivots| > 0
            && (Guard(y, Look(r)) <==>
                  forall u :: u in y.pushes ==> y.pushes[u].p != x || y.pushes[u].i != Route(y.s[x].pivots, k))
  {
    assert ActiveOk(y, y.readers[r]);
    hide Inv, Find, AboveIsNew, Since, ReadsLatest, PushOk, DoneOk;
    NodeIsOk(y.s, y.g, y.root, y.readers[r].at);
    hide Good, NodeOk;
  }

  /** It goes down to an inner node at any time, and to a leaf unless a push has to do with it. */
  lemma {:induction false} DescentWaits(y: Sys, r: Rid)
    requires Good(y) && r in y.readers && y.readers[r].Active? && y.readers[r].held != y.readers[r].at
    ensures y.readers[r].at in y.s
    ensures var x := y.readers[r].at;
            Guard(y, GoDown(r)) <==>
              y.s[x].isLeaf ==> forall u :: u in y.pushes ==>
                y.pushes[u].p != x && y.pushes[u].p in y.s && y.pushes[u].i < |y.s[y.pushes[u].p].pivots|
                && y.s[y.pushes[u].p].pivots[y.pushes[u].i].child != x
  {
    assert ActiveOk(y, y.readers[r]);
    hide Inv, Find, AboveIsNew, Since, ReadsLatest, DoneOk, CopyFound;
    assert forall u :: u in y.pushes ==> PushOk(y, y.pushes[u]);
    hide Good;
  }

  /** A write to an inner root waits for a push of the buffer it needs, one to a leaf for reads as well. */
  lemma {:induction false} WriteWaits(y: Sys, m: Msg)
    requires Good(y)
    ensures |y.s[y.root].pivots| > 0
    ensures Guard(y, WriteRoot(m)) <==>
              && (forall u :: u in y.pushes ==>
                    y.pushes[u].p != y.root || y.pushes[u].i != Route(y.s[y.root].pivots, m.key))
              && (y.s[y.root].isLeaf ==>
                    forall r :: r in y.readers && y.readers[r].Active? ==> y.readers[r].held != y.root)
  {
    hide Inv, Find, ReadsLatest, PushOk, DoneOk, ActiveOk;
    NodeIsOk(y.s, y.g, y.root, y.root);
    hide Good, NodeOk;
  }

  /** A read can begin at any time. */
  lemma StartNeverWaits(y: Sys, r: Rid, k: Key)
    requires Good(y)
    ensures Guard(y, StartRead(r, k)) <==> r !in y.readers
  {
    hide Good;
  }

  /** Push u has to do with node x: x is its parent or its child. */
  predicate Concerns(y: Sys, u: nat, x: Nid)
    requires u in y.pushes
  {
    var h := y.pushes[u];
    h.p == x || (h.p in y.s && h.i < |y.s[h.p].pivots| && y.s[h.p].pivots[h.i].child == x)
  }

  /** No read has the node locked, and no push has to do with it. */
  ghost predicate Unused(y: Sys, x: Nid) {
    && (forall r :: r in y.readers && y.readers[r].Active? ==> y.readers[r].held != x)
    && (forall u :: u in y.pushes ==> !Concerns(y, u, x))
  }

  lemma UnusedIs(y: Sys, x: Nid)
    ensures Unused(y, x) <==> !Read(y, x) && !Pushing(y, x)
  {
    if Unused(y, x) {
      assert forall u :: u in y.pushes ==> !Concerns(y, u, x);
    } else if !Pushing(y, x) {
      assert forall u :: u in y.pushes ==> !Touches(y.s, y.pushes[u], x);
    }
  }

  /** A push of a buffer with messages in it waits for another push of the same buffer, and where the child
      is a leaf for it to be out of use. */
  lemma {:induction false} PushWaits(y: Sys, u: nat, p: Nid, i: nat)
    requires Good(y) && u !in y.pushes && p in y.s && i < |y.s[p].pivots|
    requires y.s[p].pivots[i].child != NID_NIL && y.s[p].pivots[i].buf != []
    ensures y.s[p].pivots[i].child in y.s
    ensures Guard(y, BeginPush(u, p, i)) <==>
              && (forall w :: w in y.pushes ==> y.pushes[w].p != p || y.pushes[w].i != i)
              && (y.s[y.s[p].pivots[i].child].isLeaf ==> Unused(y, y.s[p].pivots[i].child))
  {
    hide Inv, Find, ReadsLatest, PushOk, DoneOk, ActiveOk;
    NodeWithChildIsInner(y.s, y.g, y.root, p, i);
    ChildAt(y.s, y.g, y.root, p, i);
    UnusedIs(y, y.s[p].pivots[i].child);
    hide Good, Unused, Read, Pushing;
  }

  /** Each of its copies waits for a push of the buffer it goes to. */
  lemma {:induction false} CopyWaits(y: Sys, u: nat)
    requires Good(y) && u in y.pushes && PushOk(y, y.pushes[u])
    requires y.pushes[u].pos < |y.s[y.pushes[u].p].pivots[y.pushes[u].i].buf|
    ensures var h := y.pushes[u];
            var c, k := y.s[h.p].pivots[h.i].child, y.s[h.p].pivots[h.i].buf[h.pos].key;
            && c in y.s && |y.s[c].pivots| > 0
            && (Guard(y, CopyOne(u)) <==>
                  forall w :: w in y.pushes ==> y.pushes[w].p != c || y.pushes[w].i != Route(y.s[c].pivots, k))
  {
    hide Inv, Find, ReadsLatest, DoneOk, ActiveOk, CopyFound;
    ChildAt(y.s, y.g, y.root, y.pushes[u].p, y.pushes[u].i);
    hide Good;
  }

  /** Splits wait for the nodes they change to be out of use. */
  lemma {:induction false} SplitsWait(y: Sys, st: Step)
    requires Good(y)
    ensures st.SplitLeaf? && st.id in y.s && y.s[st.id].isLeaf && st.i < |y.s[st.id].pivots|
            && Splittable(y.s[st.id].pivots[st.i].buf) ==>
              (Guard(y, st) <==> Unused(y, st.id))
    ensures st.SplitBelow? && IsChild(y.s, y.g, st.p, st.j, st.c) && y.s[st.p].pivots[st.j].buf == []
            && st.d !in y.s && st.d != NID_NIL ==>
              (Guard(y, st) <==> Unused(y, st.p) && Unused(y, st.c))
    ensures st.SplitRoot? && |y.s[y.root].pivots| >= 2 && st.d !in y.s && st.newRoot !in y.s && st.d != NID_NIL
            && st.newRoot != NID_NIL && st.d != st.newRoot ==>
              (Guard(y, st) <==> Unused(y, y.root))
  {
    hide Inv, Find, ReadsLatest, PushOk, DoneOk, ActiveOk, Unused, Read, Pushing;
    match st {
      case SplitLeaf(id, _) => UnusedIs(y, id);
      case SplitBelow(p, _, c, _) =>
        UnusedIs(y, p);
        UnusedIs(y, c);
      case SplitRoot(_, _) => UnusedIs(y, y.root);
      case _ =>
    }
  }
}
