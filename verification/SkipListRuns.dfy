/** Whole runs of skip-list changes, against the sorted sequence. */
module SkipListRuns {
  import opened Keys
  import opened Msgs
  import opened Towers
  import opened SkipList

  datatype ListOp = Insert(m: Msg) | Erase(k: Key) | Resize(size: nat) | Clear

  /** What each change does to the sorted sequence. */
  function Step(l: seq<Msg>, op: ListOp): seq<Msg>
    requires Allowed(l, op)
  {
    match op
    case Insert(m) => InsertMsg(l, m)
    case Erase(k) => Without(l, LowerBound(l, k))
    case Resize(size) => l[..size]
    case Clear => []
  }

  /** The asserts of erase and resize. */
  predicate Allowed(l: seq<Msg>, op: ListOp) {
    match op
    case Erase(k) => Lookup(l, k).Some?
    case Resize(size) => size <= |l|
    case _ => true
  }

  predicate AllAllowed(l: seq<Msg>, ops: seq<ListOp>)
    decreases |ops|
  {
    ops == [] || (Allowed(l, ops[0]) && AllAllowed(Step(l, ops[0]), ops[1..]))
  }

  function After(l: seq<Msg>, ops: seq<ListOp>): seq<Msg>
    requires AllAllowed(l, ops)
    decreases |ops|
  {
    if ops == [] then l else After(Step(l, ops[0]), ops[1..])
  }

  method RunOne(list: SkipList, op: ListOp)
    requires list.Valid() && Allowed(list.Contents(), op)
    modifies list`nodes, list`count, list`maxHeight, list.nodes
    ensures list.Valid() && list.Contents() == Step(old(list.Contents()), op)
    ensures forall n :: n in list.nodes ==> n in old(list.nodes) || fresh(n)
  {
    HeadIn(list);
    hide *;
    match op
    case Insert(m) => list.Insert(m);
    case Erase(k) =>
      SameStep(list.Contents(), k);
      list.Erase(Msg.Del(k));
    case Resize(size) =>
      list.AtCount(0);
      list.Resize(size);
    case Clear => list.Clear();
  }

  lemma HeadIn(list: SkipList)
    requires list.Valid()
    ensures |list.nodes| > 0 && list.head in list.nodes
  {
  }

  /** Any sequence of changes leaves the sorted sequence it should, whatever heights were drawn. */
  method RunAll(list: SkipList, ops: seq<ListOp>)
    requires list.Valid() && AllAllowed(list.Contents(), ops)
    modifies list`nodes, list`count, list`maxHeight, list.nodes
    ensures list.Valid() && list.Contents() == After(old(list.Contents()), ops)
    ensures |list.nodes| > 0 && list.count == |list.Contents()| && Sorted(list.Contents())
  {
    HeadIn(list);
    hide *;
    ghost var start := list.Contents();
    var i := 0;
    assert ops[0..] == ops;
    while i < |ops|
      invariant 0 <= i <= |ops| && list.Valid() && |list.nodes| > 0
      invariant AllAllowed(list.Contents(), ops[i..]) && AllAllowed(start, ops)
      invariant After(list.Contents(), ops[i..]) == After(start, ops)
      invariant forall j :: 0 <= j < |list.nodes| ==> list.nodes[j] in old(list.nodes) || fresh(list.nodes[j])
    {
      OneMore(list.Contents(), ops, i);
      ghost var before := list.nodes;
      RunOne(list, ops[i]);
      HeadIn(list);
      assert forall j :: 0 <= j < |list.nodes| ==> list.nodes[j] in list.nodes;
      assert forall n :: n in before ==> n in old(list.nodes) || fresh(n);
      i := i + 1;
    }
    Done(list.Contents(), ops[i..]);
    list.AtCount(0);
    IsSorted(list);
  }

  lemma OneMore(l: seq<Msg>, ops: seq<ListOp>, i: nat)
    requires i < |ops| && AllAllowed(l, ops[i..])
    ensures Allowed(l, ops[i]) && AllAllowed(Step(l, ops[i]), ops[i + 1..])
    ensures After(l, ops[i..]) == After(Step(l, ops[i]), ops[i + 1..])
  {
    assert ops[i..][0] == ops[i] && ops[i..][1..] == ops[i + 1..];
  }

  lemma Done(l: seq<Msg>, ops: seq<ListOp>)
    requires ops == [] && AllAllowed(l, ops)
    ensures After(l, ops) == l
  {
  }

  lemma IsSorted(list: SkipList)
    requires list.Valid()
    ensures Sorted(list.Contents())
  {
  }

  lemma SameStep(l: seq<Msg>, k: Key)
    requires Lookup(l, k).Some?
    ensures SkipList.Erased(l, k) == Step(l, Erase(k)) && Allowed(l, Erase(k))
  {
  }

  /** Each change seen through lookups: a key inserted is found, a key erased is not, a prefix finds
      exactly the keys it holds, and all other keys are as they were. */
  lemma StepLookup(l: seq<Msg>, op: ListOp, k: Key)
    requires Sorted(l) && Allowed(l, op)
    ensures Sorted(Step(l, op))
    ensures Lookup(Step(l, op), k) == match op
              case Insert(m) => if m.key == k then Some(m) else Lookup(l, k)
              case Erase(gone) => if gone == k then None else Lookup(l, k)
              case Resize(size) => if LowerBound(l, k) < size then Lookup(l, k) else None
              case Clear => None
  {
    match op
    case Insert(m) =>
      InsertedSorted(l, m);
      LookupInsert(l, m, k);
    case Erase(gone) =>
      SkipList.ErasedSorted(l, gone);
      ErasedLookup(l, gone, k);
    case Resize(size) => PrefixLookup(l, size, k);
    case Clear =>
  }

  lemma ErasedLookup(l: seq<Msg>, gone: Key, k: Key)
    requires Sorted(l) && Lookup(l, gone).Some? && Sorted(SkipList.Erased(l, gone))
    ensures Lookup(SkipList.Erased(l, gone), k) == if gone == k then None else Lookup(l, k)
  {
    var b, rest := LowerBound(l, gone), SkipList.Erased(l, gone);
    LookupMember(l, gone);
    LookupMember(l, k);
    LookupMember(rest, k);
    forall m | m in rest
      ensures m in l && m.key != gone
    {
      var i :| 0 <= i < |rest| && rest[i] == m;
      var i' := if i < b then i else i + 1;
      assert l[i'] == m;
      DistinctKeys(l, i', b);
    }
    forall m | m in l && m.key != gone
      ensures m in rest
    {
      var i :| 0 <= i < |l| && l[i] == m;
      assert rest[if i < b then i else i - 1] == m;
    }
  }

  lemma DistinctKeys(l: seq<Msg>, i: nat, j: nat)
    requires Sorted(l) && i < |l| && j < |l| && i != j
    ensures l[i].key != l[j].key
  {
    KeyOrder();
  }

  lemma {:induction false} PrefixLookup(l: seq<Msg>, size: nat, k: Key)
    requires Sorted(l) && size <= |l|
    ensures Sorted(l[..size])
    ensures LowerBound(l[..size], k) == if LowerBound(l, k) < size then LowerBound(l, k) else size
    ensures Lookup(l[..size], k) == if LowerBound(l, k) < size then Lookup(l, k) else None
  {
    if size > 0 && Lt(l[0].key, k) {
      assert l[..size][1..] == l[1..][..size - 1];
      PrefixLookup(l[1..], size - 1, k);
    }
  }
}
