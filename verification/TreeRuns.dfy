/** Whole runs of the database, and what holds of the tree after any of them. */
module TreeRuns {
  import opened Keys
  import opened Msgs
  import opened TreeModel
  import opened TreeBalance
  import opened TreeHeight
  import opened BufferTree

  datatype Op = PutOp(key: Key, value: Value) | DelOp(key: Key) | GetOp(key: Key)

  /** The message an operation writes. */
  function Effect(op: Op): Option<Msg> {
    match op
    case PutOp(k, v) => Some(Put(k, v))
    case DelOp(k) => Some(Del(k))
    case GetOp(_) => None
  }

  /** The last message the operations wrote for k. */
  function LastWrite(ops: seq<Op>, k: Key): Option<Msg>
    decreases |ops|
  {
    if ops == [] then None
    else
      var last := ops[|ops| - 1];
      if last.key == k && !last.GetOp? then Effect(last) else LastWrite(ops[..|ops| - 1], k)
  }

  ghost predicate Remembers(m: map<Key, Value>, ops: seq<Op>) {
    forall k :: ValueIn(m, k) == Answer(LastWrite(ops, k))
  }

  lemma {:induction false} RemembersNext(m: map<Key, Value>, ops: seq<Op>, op: Op)
    requires Remembers(m, ops)
    ensures op.GetOp? ==> Remembers(m, ops + [op])
    ensures op.PutOp? ==> Remembers(m[op.key := op.value], ops + [op])
    ensures op.DelOp? ==> Remembers(m - {op.key}, ops + [op])
  {
    assert (ops + [op])[..|ops|] == ops;
    forall k
      ensures LastWrite(ops + [op], k) == if op.key == k && !op.GetOp? then Effect(op) else LastWrite(ops, k)
      ensures ValueIn(m, k) == Answer(LastWrite(ops, k))
    {
    }
  }

  /** What the i-th operation must answer. */
  function Expected(ops: seq<Op>, i: nat): Option<Value>
    requires i < |ops|
  {
    if ops[i].GetOp? then Answer(LastWrite(ops[..i], ops[i].key)) else None
  }

  /** The operation runs into an assert: it writes a message of the empty key that is over the limit by
      itself, or the limit leaves no room for an empty buffer. */
  predicate Stops(op: Op, limit: nat) {
    Effect(op).Some? && !CanWrite(Effect(op).value, limit)
  }

  /** One operation on a tree that agrees with everything written so far. */
  method Perform(tree: BufferTree, op: Op, ghost before: seq<Op>) returns (answer: Option<Value>, stopped: bool)
    requires tree.Valid() && Remembers(tree.model, before)
    modifies tree, tree.nodes.Values
    ensures stopped <==> Stops(op, tree.maxNodeMsg)
    ensures !stopped ==> tree.Valid() && Remembers(tree.model, before + [op])
    ensures !stopped ==>
              forall id :: id in tree.nodes ==>
                    (id in old(tree.nodes) && tree.nodes[id] == old(tree.nodes)[id]) || fresh(tree.nodes[id])
    ensures !stopped ==> answer == if op.GetOp? then Answer(LastWrite(before, op.key)) else None
  {
    hide CanWrite, LastWrite, Remembers, BufferTree.Valid;
    RemembersNext(tree.model, before, op);
    answer, stopped := None, false;
    match op {
      case PutOp(k, v) =>
        var _, st := tree.Put(k, v);
        stopped := st;
      case DelOp(k) =>
        var _, st := tree.Del(k);
        stopped := st;
      case GetOp(k) =>
        var found, value := tree.Get(k);
        answer := if found then Some(value) else None;
        RemembersAt(tree.model, before, k);
    }
  }

  /**
   * Any run on a new database, for any limits and messages of any size: every get answers with the value
   * of the last put of its key unless a del came later, and with nothing if there was no put. The run
   * goes on to its end unless some operation stops it, and then the first such operation does.
   */
  method Run(maxNodeChildNum: nat, maxNodeMsg: nat, ops: seq<Op>) returns (answers: seq<Option<Value>>)
    ensures |answers| <= |ops|
    ensures forall i :: 0 <= i < |answers| ==> answers[i] == Expected(ops, i) && !Stops(ops[i], maxNodeMsg)
    ensures |answers| < |ops| ==> Stops(ops[|answers|], maxNodeMsg)
  {
    hide LastWrite, Remembers, BufferTree.Valid, Stops;
    var tree := new BufferTree(maxNodeChildNum, maxNodeMsg);
    answers := [];
    assert ops[..0] == [];
    NothingRemembered();
    assert forall id :: id in tree.nodes ==> tree.nodes[id] in tree.nodes.Values;
    for n := 0 to |ops|
      invariant fresh(tree) && fresh(tree.nodes.Values) && forall id :: id in tree.nodes ==> fresh(tree.nodes[id])
      invariant tree.maxNodeMsg == maxNodeMsg && tree.Valid() && Remembers(tree.model, ops[..n])
      invariant |answers| == n
      invariant forall i :: 0 <= i < n ==> answers[i] == Expected(ops, i) && !Stops(ops[i], maxNodeMsg)
    {
      assert ops[..n + 1] == ops[..n] + [ops[n]];
      var answer, stopped := Perform(tree, ops[n], ops[..n]);
      if stopped {
        return;
      }
      answers := answers + [answer];
      forall v | v in tree.nodes.Values
        ensures fresh(v)
      {
        var id :| id in tree.nodes && tree.nodes[id] == v;
      }
    }
  }

  lemma NothingRemembered()
    ensures Remembers(map[], [])
  {
  }

  lemma RemembersAt(m: map<Key, Value>, ops: seq<Op>, k: Key)
    requires Remembers(m, ops)
    ensures ValueIn(m, k) == Answer(LastWrite(ops, k))
  {
  }

  /** In every tree a run can reach, a node has at most max(M, 2) pivots, the root at least two unless it is
      a leaf, and every other node at least half of M. */
  lemma {:induction false} FanOfRun(tree: BufferTree, id: Nid)
    requires tree.Valid() && id in tree.nodes
    ensures id in tree.layout
    ensures var n, M := |tree.nodes[id].pivots|, tree.maxNodeChildNum;
            && 1 <= n <= (if M < 2 then 2 else M)
            && (id != tree.root ==> (if M < 2 then 1 else (M + 1) / 2) <= n)
            && (id == tree.root && tree.layout[id].level > 0 ==> 2 <= n)
  {
    hide Inv, StoreKnown, StoreStrict, Live;
    var t := tree.Snap();
    assert id in t.s && t.s[id].pivots == tree.nodes[id].pivots;
  }

  /** In every tree a run can reach, all leaves are equally deep and their pivots are many. As long as
      every message written fits the limit, they are no more than the keys ever written. */
  lemma {:induction false} HeightOfRun(tree: BufferTree)
    requires tree.Valid()
    ensures tree.root in tree.layout
    ensures var h, M := tree.layout[tree.root].level, tree.maxNodeChildNum;
            h > 0 ==>
              && 2 * Pow(if M < 2 then 1 else (M + 1) / 2, h) <= |LeafKeys(tree.Contents(), tree.root, h)|
              && (tree.allFit ==> |LeafKeys(tree.Contents(), tree.root, h)| <= |tree.written| + 1)
  {
    assert Low(tree.maxNodeChildNum) == if tree.maxNodeChildNum < 2 then 1 else (tree.maxNodeChildNum + 1) / 2;
    hide Inv, Fan, StoreKnown, StoreStrict, Pow, Low;
    var t := tree.Snap();
    if t.g[t.root].level > 0 {
      HeightIsLogarithmic(t.s, t.g, t.root, tree.maxNodeChildNum, tree.written, tree.Bounds().rules);
    }
  }
}
