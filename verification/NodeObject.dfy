/** The operations of one node on its own pivots (src/Node.cpp). */
module NodeObject {
  import opened Keys
  import opened Msgs
  import opened TreeModel
  import opened TreeSteps

  class Node {
    var isLeaf: bool
    var pivots: seq<Pivot>

    ghost function State(): NodeState
      reads this
    {
      NodeState(isLeaf, pivots)
    }

    constructor (isLeaf: bool, pivots: seq<Pivot>)
      ensures State() == NodeState(isLeaf, pivots)
    {
      this.isLeaf := isLeaf;
      this.pivots := pivots;
    }

    /** Node::findPivot, returning the index of the pivot the key belongs to, one less than the
        count the text returns (see AsWritten.FindPivotAsWritten). */
    method FindPivot(key: Key) returns (index: nat)
      requires pivots != [] ==> Ordered(pivots, pivots[0].leftKey, None)
      ensures pivots == [] ==> index == 0
      ensures pivots != [] ==> index == Route(pivots, key)
    {
      if |pivots| == 0 {
        return 0;
      }
      var pivot := 0;
      for i := 0 to |pivots|
        invariant pivot == i
        invariant forall j :: 0 <= j < i ==> !Lt(key, pivots[j].leftKey)
      {
        if Lt(key, pivots[i].leftKey) {
          index := if pivot == 0 then 0 else pivot - 1;
          RouteFound(pivots, key, index);
          return;
        }
        pivot := pivot + 1;
      }
      index := pivot - 1;
      RouteFound(pivots, key, index);
    }

    /** Node::addPivot. */
    method AddPivot(child: Nid, buf: seq<Msg>, key: Key)
      requires key == [] ==> pivots == [] && buf == []
      requires key != [] ==> pivots != [] && Ordered(pivots, pivots[0].leftKey, None)
      modifies this`pivots
      ensures pivots == if key == [] then [Pivot(key, child, [])]
                        else TreeModel.AddPivot(old(pivots), Pivot(key, child, buf))
    {
      if |key| == 0 {
        pivots := pivots + [Pivot(key, child, [])];
      } else {
        var idx := FindPivot(key);
        pivots := pivots[..idx + 1] + [Pivot(key, child, buf)] + pivots[idx + 1..];
      }
    }

    /** Node::insertMsg. */
    method InsertMsg(index: nat, msg: Msg)
      requires index < |pivots|
      modifies this`pivots
      ensures pivots == old(pivots)[index := old(pivots)[index].(buf := Msgs.InsertMsg(old(pivots)[index].buf, msg))]
    {
      pivots := pivots[index := pivots[index].(buf := Msgs.InsertMsg(pivots[index].buf, msg))];
    }

    /** The delivery loop of Node::pushDownLocked: `slow` moves up to `stop`, every message on its
        way going to pivot idx - 1. */
    method DeliverRun(ms: seq<Msg>, idx: nat, start: nat, stop: nat, fast: nat, ghost ps: seq<Pivot>, ghost lo: Key,
                      ghost hi: Option<Key>)
      requires |ps| > 0 && PivotsOk(ps, lo, hi) && BufOk(ms, lo, hi) && start <= stop <= |ms| && fast <= |ms|
      requires Passed(ps, ms, idx, start, fast) && (stop <= fast || idx == |ps|)
      requires SameShape(pivots, ps) && pivots == Distribute(ps, ms[..start])
      modifies this`pivots
      ensures SameShape(pivots, ps) && pivots == Distribute(ps, ms[..stop])
      ensures Passed(ps, ms, idx, stop, fast)
    {
      hide *;
      var slow := start;
      while slow != stop
        invariant start <= slow <= stop
        invariant SameShape(pivots, ps)
        invariant pivots == Distribute(ps, ms[..slow])
        invariant Passed(ps, ms, idx, slow, fast)
      {
        DeliveredNext(ps, ms, lo, hi, idx, slow, fast);
        ShapeLength(pivots, ps);
        InsertMsg(idx - 1, ms[slow]);
        slow := slow + 1;
      }
    }

    /**
     * Node::pushDownLocked on the child: two cursors over the parent's buffer, `fast` looking for
     * the first message past pivot idx - 1, `slow` following with the deliveries.
     */
    method PushDownLocked(parent: Node, index: nat, ghost lo: Key, ghost hi: Option<Key>)
      requires parent != this && index < |parent.pivots|
      requires PivotsOk(pivots, lo, hi) && BufOk(parent.pivots[index].buf, lo, hi)
      modifies this`pivots, parent`pivots
      ensures pivots == Distribute(old(pivots), old(parent.pivots[index].buf))
      ensures parent.pivots == old(parent.pivots)[index := old(parent.pivots)[index].(buf := [])]
    {
      hide *;
      var ms := parent.pivots[index].buf;
      if |ms| == 0 {
        NothingDelivered(pivots);
        return;
      }
      ghost var ps := pivots;
      var idx := 1;
      var slow, fast := 0, 0;
      FirstPivotTakes(ps, ms, lo, hi);
      while fast < |ms| && idx < |pivots|
        invariant 0 <= slow <= fast <= |ms| && 1 <= idx <= |pivots| == |ps|
        invariant SameShape(pivots, ps) && pivots == Distribute(ps, ms[..slow])
        invariant Passed(ps, ms, idx, slow, fast)
        invariant parent.pivots == old(parent.pivots)
        decreases |ms| - fast + |pivots| - idx
      {
        ShapeLength(pivots, ps);
        if Lt(ms[fast].key, pivots[idx].leftKey) {
          FastMoves(ps, ms, idx, slow, fast, pivots);
          fast := fast + 1;
        } else {
          DeliverRun(ms, idx, slow, fast, fast, ps, lo, hi);
          slow := fast;
          ShapeLength(pivots, ps);
          NextPivotTakes(ps, ms, lo, hi, idx, fast, pivots);
          idx := idx + 1;
        }
      }
      DeliverRun(ms, idx, slow, |ms|, fast, ps, lo, hi);
      assert ms[..|ms|] == ms;
      parent.pivots := parent.pivots[index := parent.pivots[index].(buf := [])];
    }
  }

  /** What the cursors know: everything not delivered is at or past pivot idx - 1, and what `fast`
      has passed is before pivot idx. */
  ghost predicate Passed(ps: seq<Pivot>, ms: seq<Msg>, idx: nat, slow: nat, fast: nat) {
    && 1 <= idx <= |ps|
    && (forall t :: slow <= t < |ms| ==> Le(ps[idx - 1].leftKey, ms[t].key))
    && (idx < |ps| ==> forall t :: slow <= t < fast && t < |ms| ==> Lt(ms[t].key, ps[idx].leftKey))
  }

  lemma {:induction false} RouteFound(ps: seq<Pivot>, k: Key, r: nat)
    requires |ps| > 0 && Ordered(ps, ps[0].leftKey, None) && r < |ps|
    requires r > 0 ==> !Lt(k, ps[r].leftKey)
    requires r + 1 < |ps| ==> Lt(k, ps[r + 1].leftKey) || (r == 0 && Lt(k, ps[0].leftKey))
    ensures Route(ps, k) == r
  {
    var i := Route(ps, k);
    if i > r {
      var above := if r + 1 < |ps| && Lt(k, ps[r + 1].leftKey) then r + 1 else 0;
      assert above == i || Le(ps[above].leftKey, ps[i].leftKey);
      LtTransitive(k, ps[above].leftKey, ps[i].leftKey);
      KeyOrder();
    }
  }

  lemma {:induction false} ShapeLength(a: seq<Pivot>, b: seq<Pivot>)
    requires SameShape(a, b)
    ensures |a| == |b| && forall i :: 0 <= i < |a| ==> a[i].leftKey == b[i].leftKey
  {
  }

  lemma NothingDelivered(ps: seq<Pivot>)
    ensures |ps| > 0 ==> Distribute(ps, []) == ps
  {
  }

  lemma {:induction false} FirstPivotTakes(ps: seq<Pivot>, ms: seq<Msg>, lo: Key, hi: Option<Key>)
    requires PivotsOk(ps, lo, hi) && BufOk(ms, lo, hi)
    ensures |ps| >= 1 && Passed(ps, ms, 1, 0, 0) && SameShape(ps, ps)
    ensures ps == Distribute(ps, ms[..0])
  {
    assert forall t :: 0 <= t < |ms| ==> ms[t] in ms;
  }

  lemma {:induction false} FastMoves(ps: seq<Pivot>, ms: seq<Msg>, idx: nat, slow: nat, fast: nat, now: seq<Pivot>)
    requires Passed(ps, ms, idx, slow, fast) && fast < |ms| && SameShape(now, ps) && idx < |now|
    requires Lt(ms[fast].key, now[idx].leftKey)
    ensures Passed(ps, ms, idx, slow, fast + 1)
  {
  }

  lemma {:induction false} NextPivotTakes(ps: seq<Pivot>, ms: seq<Msg>, lo: Key, hi: Option<Key>, idx: nat, fast: nat,
                                          now: seq<Pivot>)
    requires PivotsOk(ps, lo, hi) && BufOk(ms, lo, hi) && SameShape(now, ps) && idx < |now| && fast < |ms|
    requires !Lt(ms[fast].key, now[idx].leftKey)
    ensures Passed(ps, ms, idx + 1, fast, fast)
  {
    forall t | fast <= t < |ms|
      ensures Le(ps[idx].leftKey, ms[t].key)
    {
      if fast < t {
        LtTransitive(ps[idx].leftKey, ms[fast].key, ms[t].key);
      }
    }
  }

  /** The message under `slow` belongs to pivot idx - 1. */
  lemma {:induction false} SlowBelongs(ps: seq<Pivot>, ms: seq<Msg>, lo: Key, hi: Option<Key>, idx: nat, slow: nat,
                                       fast: nat)
    requires PivotsOk(ps, lo, hi) && BufOk(ms, lo, hi) && slow < |ms| && fast <= |ms|
    requires Passed(ps, ms, idx, slow, fast) && (slow < fast || idx == |ps|)
    ensures |ps| > 0 && Route(ps, ms[slow].key) == idx - 1
  {
    var m := ms[slow];
    assert m in ms;
    RouteIs(ps, lo, hi, m.key, idx - 1);
  }

  /** Inserting the message under `slow` at pivot idx - 1 is delivering it by its key. */
  lemma {:induction false} DeliveredNext(ps: seq<Pivot>, ms: seq<Msg>, lo: Key, hi: Option<Key>, idx: nat, slow: nat,
                                         fast: nat)
    requires PivotsOk(ps, lo, hi) && BufOk(ms, lo, hi) && slow < |ms| && fast <= |ms|
    requires Passed(ps, ms, idx, slow, fast) && (slow < fast || idx == |ps|)
    ensures |ps| > 0 && 1 <= idx <= |ps|
    ensures var r := Distribute(ps, ms[..slow]);
            && Distribute(ps, ms[..slow + 1]) == r[idx - 1 := r[idx - 1].(buf := InsertMsg(r[idx - 1].buf, ms[slow]))]
            && SameShape(Distribute(ps, ms[..slow + 1]), ps)
    ensures Passed(ps, ms, idx, slow + 1, fast)
  {
    var m := ms[slow];
    SlowBelongs(ps, ms, lo, hi, idx, slow, fast);
    assert ms[..slow + 1] == ms[..slow] + [m];
    PrefixOk(ms, slow, lo, hi);
    PrefixOk(ms, slow + 1, lo, hi);
    hide BufOk, PivotsOk, Route;
    DistributeAppend(ps, ms[..slow], m);
    DistributeOk(ps, ms[..slow], lo, hi, m.key);
    DistributeOk(ps, ms[..slow + 1], lo, hi, m.key);
  }

  lemma {:induction false} PrefixOk(ms: seq<Msg>, n: nat, lo: Key, hi: Option<Key>)
    requires BufOk(ms, lo, hi) && n <= |ms|
    ensures BufOk(ms[..n], lo, hi)
  {
    assert forall m :: m in ms[..n] ==> m in ms;
  }

  lemma {:induction false} DistributeAppend(ps: seq<Pivot>, ms: seq<Msg>, m: Msg)
    requires |ps| > 0
    ensures Distribute(ps, ms + [m]) == Deliver(Distribute(ps, ms), m)
    decreases |ms|
  {
    if ms == [] {
      assert [m][1..] == [];
    } else {
      assert (ms + [m])[1..] == ms[1..] + [m];
      DistributeAppend(Deliver(ps, ms[0]), ms[1..], m);
    }
  }
}
