/** The skip list's iterator: a bare node that walks the sorted sequence of keys. */
module SkipListIterator {
  import opened Keys
  import opened Msgs
  import opened SkipList

  class Iterator {
    const list: SkipList
    var node: Node?
    /** The index in the list's contents that `node` stands for; the length stands for NULL. */
    ghost var index: nat

    ghost predicate Valid()
      reads this, list, list.nodes
    {
      list.Valid() && index <= list.count && node == list.At(index + 1)
    }

    constructor (list: SkipList)
      requires list.Valid()
      ensures this.list == list && Valid() && index == list.count
    {
      this.list := list;
      node := null;
      index := list.count;
    }

    /** valid. */
    method IsValid() returns (valid: bool)
      requires Valid()
      ensures valid <==> index < list.count
    {
      list.AtCount(index + 1);
      valid := node != null;
    }

    /** key; its assert is the precondition. */
    method Key() returns (key: Msg)
      requires Valid() && index < list.count
      ensures index < |list.Contents()| && key == list.Contents()[index]
    {
      list.AtCount(index + 1);
      key := node.key;
    }

    /** Points at index i of the contents. */
    method Place(node: Node?, ghost i: nat)
      requires list.Valid() && i <= list.count && node == list.At(i + 1)
      modifies this
      ensures Valid() && index == i
    {
      this.node := node;
      index := i;
    }

    method Next()
      requires Valid() && index < list.count
      modifies this
      ensures Valid() && index == old(index) + 1
    {
      assert list.Valid();
      hide *;
      Following(list, index);
      Place(node.next[0], index + 1);
    }

    /** prev: back one place, or off the front. */
    method Prev()
      requires Valid() && index < list.count
      modifies this
      ensures Valid() && index == if old(index) == 0 then list.count else old(index) - 1
    {
      assert list.Valid();
      hide *;
      Following(list, index);
      BoundOfMember(list, index);
      var last := list.FindLessThan(node.key);
      PastTheEnd(list);
      if last == list.head {
        HeadIsFirst(list, index);
        Place(null, list.count);
      } else {
        InList(list, index);
        Place(last, index - 1);
      }
    }

    /** seek: to the first key not below the target. What it finds is never the head, so its test for
        the head has nothing to do. */
    method Seek(target: Msg)
      requires list.Valid()
      modifies this
      ensures Valid() && index == LowerBound(list.Contents(), target.key)
    {
      hide *;
      ghost var i := BoundIs(list, target.key);
      var found, _ := list.FindGreaterOrEqual(target);
      NotHead(list, i + 1);
      assert found != list.head;
      Place(found, i);
    }

    method SeekToFirst()
      requires list.Valid()
      modifies this
      ensures Valid() && index == 0
    {
      hide *;
      list.AtCount(1);
      list.Level0(0);
      Place(list.head.next[0], 0);
    }

    method SeekToMiddle()
      requires list.Valid()
      modifies this
      ensures Valid() && index == list.count / 2
    {
      var middle := list.count / 2;
      hide *;
      SeekToFirst();
      var i := 0;
      while i < middle
        invariant 0 <= i <= middle && Valid() && index == i
      {
        Next();
        i := i + 1;
      }
    }

    /** seekToLast: as far as the links lead, level by level; NULL on an empty list. */
    method SeekToLast()
      requires list.Valid()
      modifies this
      ensures Valid() && index == if list.count == 0 then 0 else list.count - 1
    {
      hide *;
      InList(list, list.count);
      PastTheEnd(list);
      var last := list.LastNode();
      if last == list.head {
        HeadIsFirst(list, list.count);
        Place(null, 0);
      } else {
        Place(last, list.count - 1);
      }
    }
  }

  lemma Following(list: SkipList, i: nat)
    requires list.Valid() && i < list.count
    ensures i < |list.Contents()| && 0 < |list.nodes|
    ensures list.At(i + 1) != null
    ensures var n := list.At(i + 1); 0 < |n.next| && n.next[0] == list.At(i + 2) && n.key == list.Contents()[i]
  {
    list.AtCount(i + 1);
    list.Level0(i + 1);
  }

  lemma InList(list: SkipList, q: nat)
    requires list.Valid()
    ensures |list.nodes| == list.count + 1 && list.head == list.nodes[0]
    ensures list.At(q) == if q <= list.count then list.nodes[q] else null
  {
  }

  lemma NotHead(list: SkipList, q: nat)
    requires list.Valid() && q > 0
    ensures list.At(q) != list.head
  {
  }

  lemma PastTheEnd(list: SkipList)
    requires list.Valid()
    ensures list.At(list.count + 1) == null
  {
  }

  lemma BoundIs(list: SkipList, k: Key) returns (i: nat)
    requires list.Valid()
    ensures i == LowerBound(list.Contents(), k) && i <= list.count && list.Bound(k) == i + 1
  {
    i := LowerBound(list.Contents(), k);
  }

  lemma BoundOfMember(list: SkipList, i: nat)
    requires list.Valid() && i < list.count
    ensures list.Bound(list.Contents()[i].key) == i + 1
  {
    KeyOrder();
    var k := list.Contents()[i].key;
    list.BelowBound(k, i + 1);
    if i > 0 {
      list.KeysAscend(i, i + 1);
      list.BelowBound(k, i);
    }
  }

  /** The head stands nowhere else. */
  lemma HeadIsFirst(list: SkipList, q: nat)
    requires list.Valid() && q < |list.nodes| && list.nodes[q] == list.head
    ensures q == 0
  {
  }
}
