/**
 * How the slab's lists are threaded through the page descriptors (src/Slab.h, src/Slab.cpp): `next` is a
 * pointer, and `prev` a pointer with the kind of page in its two low bits. A descriptor's address is 4
 * times its number here, so no address has those bits, and NULL is descriptor 0.
 */
module SlabLinks {
  import opened SlabPages
  import opened SlabSteps

  const SLAB_PAGE := 0
  const SLAB_BIG := 1
  const SLAB_EXACT := 2
  const SLAB_SMALL := 3

  /** An address with a kind in its low bits. */
  function Word(p: nat, kind: nat): nat {
    4 * p + kind
  }

  /** The address, the kind masked away. */
  function PointerOf(w: nat): nat {
    w / 4
  }

  /** The kind alone. */
  function KindBits(w: nat): nat {
    w % 4
  }

  lemma WordParts(p: nat, kind: nat)
    requires kind < 4
    ensures PointerOf(Word(p, kind)) == p && KindBits(Word(p, kind)) == kind
  {
  }

  // ---------------------------------------------------------------- one list

  function NextIn(h: nat, l: seq<nat>, i: nat): nat
    requires i < |l|
  {
    if i + 1 < |l| then l[i + 1] else h
  }

  function PrevIn(h: nat, l: seq<nat>, i: nat): nat
    requires i <= |l|
  {
    if i == 0 then h else l[i - 1]
  }

  /** The descriptors of l are linked both ways, in order, between the two ends of the head h, and each
      has the kind in its prev. What the head's own prev says is of no use to anyone. */
  ghost predicate Ring(next: seq<nat>, prev: seq<nat>, h: nat, l: seq<nat>, kind: nat) {
    && 0 < h < |next| == |prev| && kind < 4 && NoDups(l) && h !in l
    && (forall i :: 0 <= i < |l| ==> 0 < l[i] < |next|)
    && next[h] == (if l == [] then h else l[0])
    && (forall i :: 0 <= i < |l| ==> next[l[i]] == NextIn(h, l, i) && prev[l[i]] == Word(PrevIn(h, l, i), kind))
  }

  function ReplaceAt(l: seq<nat>, i: nat, y: nat): seq<nat>
    requires i < |l|
  {
    l[i := y]
  }

  /** A list does not notice what happens to other descriptors. */
  lemma {:induction false} RingKept(next: seq<nat>, prev: seq<nat>, next': seq<nat>, prev': seq<nat>, h: nat,
                                    l: seq<nat>, kind: nat)
    requires Ring(next, prev, h, l, kind) && |next'| == |next| && |prev'| == |prev|
    requires next'[h] == next[h] && forall x :: x in l ==> x < |next| && next'[x] == next[x] && prev'[x] == prev[x]
    ensures Ring(next', prev', h, l, kind)
  {
    assert forall i :: 0 <= i < |l| ==> l[i] in l;
  }

  lemma {:induction false} Neighbours(next: seq<nat>, prev: seq<nat>, h: nat, l: seq<nat>, kind: nat, i: nat)
    requires Ring(next, prev, h, l, kind) && i < |l|
    ensures l[i] < |next| && next[l[i]] == NextIn(h, l, i) && PointerOf(prev[l[i]]) == PrevIn(h, l, i)
    ensures KindBits(prev[l[i]]) == kind
    ensures 0 < NextIn(h, l, i) < |next| && PrevIn(h, l, i) < |next| && NextIn(h, l, i) != l[i]
    ensures PrevIn(h, l, i) != l[i]
  {
    WordParts(PrevIn(h, l, i), kind);
  }

  /** Only the descriptor before x points at it from in front, and only the one behind from behind. */
  lemma {:induction false} OnlyNeighbours(h: nat, l: seq<nat>, i: nat, j: nat)
    requires NoDups(l) && h !in l && i < |l| && j < |l| && i != j
    ensures l[j] != h && l[j] != l[i]
    ensures l[j] == PrevIn(h, l, i) <==> j + 1 == i
    ensures l[j] == NextIn(h, l, i) <==> j == i + 1
  {
    assert l[j] in l;
  }

  lemma {:induction false} NeighboursRemoved(h: nat, l: seq<nat>, i: nat, j: nat)
    requires i < |l| && j < |l| && i != j
    ensures var r := RemoveAt(l, i);
            var j' := if j < i then j else j - 1;
            && j' < |r| && r[j'] == l[j]
            && NextIn(h, r, j') == (if j + 1 == i then NextIn(h, l, i) else NextIn(h, l, j))
            && PrevIn(h, r, j') == (if j == i + 1 then PrevIn(h, l, i) else PrevIn(h, l, j))
  {
  }

  /** Linking a descriptor's neighbours to each other leaves its list without it. The one behind gets its
      kind along with its back link. */
  lemma {:induction false} Unlinked(next: seq<nat>, prev: seq<nat>, h: nat, l: seq<nat>, kind: nat, i: nat)
    requires Ring(next, prev, h, l, kind) && i < |l|
    ensures l[i] < |next| && next[l[i]] < |next| && PointerOf(prev[l[i]]) < |next|
    ensures Ring(next[PointerOf(prev[l[i]]) := next[l[i]]], prev[next[l[i]] := prev[l[i]]], h, RemoveAt(l, i), kind)
  {
    hide NextIn, PrevIn, NoDups, RemoveAt, Word, PointerOf;
    Neighbours(next, prev, h, l, kind, i);
    Removed(l, i);
    HeadRemoved(h, l, i);
    var r := RemoveAt(l, i);
    var next' := next[PointerOf(prev[l[i]]) := next[l[i]]];
    var prev' := prev[next[l[i]] := prev[l[i]]];
    forall j' | 0 <= j' < |r|
      ensures 0 < r[j'] < |next| && next'[r[j']] == NextIn(h, r, j') && prev'[r[j']] == Word(PrevIn(h, r, j'), kind)
    {
      var j := if j' < i then j' else j' + 1;
      RemovedLength(l, i);
      OnlyNeighbours(h, l, i, j);
      NeighboursRemoved(h, l, i, j);
    }
  }

  lemma RemovedLength(l: seq<nat>, i: nat)
    requires i < |l|
    ensures |RemoveAt(l, i)| == |l| - 1
  {
  }

  lemma HeadRemoved(h: nat, l: seq<nat>, i: nat)
    requires i < |l|
    ensures var r := RemoveAt(l, i);
            (if i == 0 then NextIn(h, l, 0) else l[0]) == (if r == [] then h else r[0])
    ensures i == 0 ==> PrevIn(h, l, i) == h
    ensures i > 0 ==> PrevIn(h, l, i) == l[i - 1]
  {
  }

  lemma {:induction false} NeighboursPushed(h: nat, l: seq<nat>, x: nat, j: nat)
    requires j <= |l|
    ensures NextIn(h, [x] + l, j) == (if j > 0 then NextIn(h, l, j - 1) else if l == [] then h else l[0])
    ensures PrevIn(h, [x] + l, j) == (if j == 0 then h else if j == 1 then x else PrevIn(h, l, j - 1))
  {
  }

  /** A descriptor put between the head and what was first is the first of the list. */
  lemma {:induction false} LinkedInFront(next: seq<nat>, prev: seq<nat>, h: nat, l: seq<nat>, kind: nat, x: nat)
    requires Ring(next, prev, h, l, kind) && 0 < x < |next| && x != h && x !in l
    ensures next[h] < |next|
    ensures Ring(next[x := next[h]][h := x], prev[x := Word(h, kind)][next[h] := Word(x, kind)], h, [x] + l, kind)
  {
    hide NextIn, PrevIn, NoDups, Word;
    Pushed(l, x);
    var r := [x] + l;
    var next' := next[x := next[h]][h := x];
    var prev' := prev[x := Word(h, kind)][next[h] := Word(x, kind)];
    forall j | 0 <= j < |r|
      ensures 0 < r[j] < |next| && next'[r[j]] == NextIn(h, r, j) && prev'[r[j]] == Word(PrevIn(h, r, j), kind)
    {
      NeighboursPushed(h, l, x, j);
      if j > 0 {
        assert r[j] == l[j - 1] && l[j - 1] in l;
        if j > 1 {
          OnlyFirst(l, j - 1);
        }
      }
    }
  }

  lemma OnlyFirst(l: seq<nat>, j: nat)
    requires NoDups(l) && 0 < j < |l|
    ensures l[j] != l[0]
  {
  }

  lemma {:induction false} NeighboursReplaced(h: nat, l: seq<nat>, i: nat, y: nat, j: nat)
    requires i < |l| && j < |l|
    ensures NextIn(h, l[i := y], j) == (if j + 1 == i then y else NextIn(h, l, j))
    ensures PrevIn(h, l[i := y], j) == (if j == i + 1 then y else PrevIn(h, l, j))
  {
  }

  /** y takes x's place. */
  lemma {:induction false} LinkedInstead(next: seq<nat>, prev: seq<nat>, h: nat, l: seq<nat>, kind: nat, i: nat, y: nat)
    requires Ring(next, prev, h, l, kind) && i < |l| && 0 < y < |next| && y != h && y !in l
    ensures l[i] < |next| && next[l[i]] < |next| && PointerOf(prev[l[i]]) < |next|
    ensures Ring(next[y := next[l[i]]][PointerOf(prev[l[i]]) := y], prev[y := prev[l[i]]][next[l[i]] := Word(y, kind)],
                 h, l[i := y], kind)
  {
    hide NextIn, PrevIn, NoDups, Word, PointerOf;
    Neighbours(next, prev, h, l, kind, i);
    NeighboursIn(h, l, i);
    Replaced(l, i, y);
    var r := l[i := y];
    var next' := next[y := next[l[i]]][PointerOf(prev[l[i]]) := y];
    var prev' := prev[y := prev[l[i]]][next[l[i]] := Word(y, kind)];
    forall j | 0 <= j < |r|
      ensures 0 < r[j] < |next| && next'[r[j]] == NextIn(h, r, j) && prev'[r[j]] == Word(PrevIn(h, r, j), kind)
    {
      NeighboursReplaced(h, l, i, y, j);
      if j != i {
        assert l[j] in l;
        OnlyNeighbours(h, l, i, j);
      }
    }
  }

  lemma NeighboursIn(h: nat, l: seq<nat>, i: nat)
    requires i < |l|
    ensures NextIn(h, l, i) == h || NextIn(h, l, i) in l
    ensures if i == 0 then PrevIn(h, l, i) == h else PrevIn(h, l, i) in l && PrevIn(h, l, i) == l[i - 1]
  {
  }

  // ---------------------------------------------------------------- all lists

  const HEADS := 10
  /** The lists of the classes are 0 to 8, the free list is the last. */
  const FREE := 9

  /** The head of a class's list, or of the free list. */
  function Head(k: nat): nat {
    k + 1
  }

  /** The kind of a list's pages. */
  function KindOf(k: nat): nat {
    if k == FREE then SLAB_PAGE
    else if k < EXACT_SHIFT - MIN_SHIFT then SLAB_SMALL
    else if k == EXACT_SHIFT - MIN_SHIFT then SLAB_EXACT
    else SLAB_BIG
  }

  /** Every list is a ring, no descriptor is on two, and one of `off` is on none, has no next, and has the
      kind of the list it is off: a full page that of its class's, a run handed out that of the free list. */
  ghost predicate Threaded(next: seq<nat>, prev: seq<nat>, lists: seq<seq<nat>>, off: map<nat, nat>) {
    && |next| == |prev| && |lists| == HEADS
    && (forall k :: 0 <= k < HEADS ==> Ring(next, prev, Head(k), lists[k], KindOf(k)) && Pages(lists[k]))
    && (forall k, m :: 0 <= k < m < HEADS ==> Disjoint(lists[k], lists[m]))
    && (forall x :: x in off ==>
        HEADS < x < |next| && next[x] == 0 && off[x] <= FREE && prev[x] == KindOf(off[x]) && OnNone(lists, x))
  }

  /** None of them is a head. */
  ghost predicate Pages(l: seq<nat>) {
    forall x :: x in l ==> x > HEADS
  }

  ghost predicate Disjoint(l: seq<nat>, m: seq<nat>) {
    forall x :: x in l ==> x !in m
  }

  ghost predicate OnNone(lists: seq<seq<nat>>, x: nat) {
    forall k :: 0 <= k < |lists| ==> x !in lists[k]
  }

  /** What free() reads off a descriptor: its kind, and by next whether it is on its class's list. */
  lemma {:induction false} DescriptorTells(next: seq<nat>, prev: seq<nat>, lists: seq<seq<nat>>, off: map<nat, nat>,
                                           x: nat, k: nat)
    requires Threaded(next, prev, lists, off) && k < HEADS && x < |next|
    requires x in lists[k] || (x in off && off[x] == k)
    ensures KindBits(prev[x]) == if k == FREE then 0 else if k > 3 then 1 else if k == 3 then 2 else 3
    ensures KindBits(prev[x]) == KindOf(k) && (next[x] == 0 <==> x in off)
  {
    hide Ring, NextIn, PrevIn, NoDups, Pages, Disjoint;
    if x in lists[k] {
      var i :| 0 <= i < |lists[k]| && lists[k][i] == x;
      Neighbours(next, prev, Head(k), lists[k], KindOf(k), i);
    }
  }

  /** One list changes, and nothing of the others is touched. */
  lemma {:induction false} OneListChanged(next: seq<nat>, prev: seq<nat>, lists: seq<seq<nat>>, off: map<nat, nat>,
                                         next': seq<nat>, prev': seq<nat>, k: nat, l: seq<nat>)
    requires Threaded(next, prev, lists, off) && k < HEADS && |next'| == |next| && |prev'| == |prev|
    requires Ring(next', prev', Head(k), l, KindOf(k)) && Pages(l)
    requires forall x :: x in l ==> x in lists[k] || (x !in off && OnNone(lists, x))
    requires forall x :: 0 <= x < |next| && x != Head(k) && x !in lists[k] && x !in l ==>
               next'[x] == next[x] && prev'[x] == prev[x]
    ensures Threaded(next', prev', lists[k := l], off)
  {
    forall m | 0 <= m < HEADS && m != k
      ensures Ring(next', prev', Head(m), lists[m], KindOf(m))
      ensures Disjoint(l, lists[m]) && Disjoint(lists[m], l)
    {
      ListUntouched(next, prev, lists, off, next', prev', k, l, m);
    }
    hide Ring;
    forall x | x in off
      ensures OnNone(lists[k := l], x) && next'[x] == next[x] && prev'[x] == prev[x]
    {
      assert OnNone(lists, x);
    }
  }

  lemma {:induction false} ListUntouched(next: seq<nat>, prev: seq<nat>, lists: seq<seq<nat>>, off: map<nat, nat>,
                                        next': seq<nat>, prev': seq<nat>, k: nat, l: seq<nat>, m: nat)
    requires Threaded(next, prev, lists, off) && k < HEADS && m < HEADS && m != k && |next'| == |next|
    requires |prev'| == |prev|
    requires Pages(l)
    requires forall x :: x in l ==> x in lists[k] || (x !in off && OnNone(lists, x))
    requires forall x :: 0 <= x < |next| && x != Head(k) && x !in lists[k] && x !in l ==>
               next'[x] == next[x] && prev'[x] == prev[x]
    ensures Ring(next', prev', Head(m), lists[m], KindOf(m)) && Disjoint(l, lists[m]) && Disjoint(lists[m], l)
  {
    assert Disjoint(lists[if k < m then k else m], lists[if k < m then m else k]);
    assert Ring(next, prev, Head(m), lists[m], KindOf(m)) && Pages(lists[m]) && Pages(lists[k]);
    RingWithin(next, prev, Head(m), lists[m], KindOf(m));
    hide Ring;
    RingKept(next, prev, next', prev', Head(m), lists[m], KindOf(m));
  }

  lemma RingWithin(next: seq<nat>, prev: seq<nat>, h: nat, l: seq<nat>, kind: nat)
    requires Ring(next, prev, h, l, kind)
    ensures h < |next| && forall x :: x in l ==> x < |next|
  {
  }

  /** What taking descriptor i off list k comes to: its neighbours are linked to each other, its own next is
      NULL and its prev w. */
  ghost predicate OffKeeps(next: seq<nat>, prev: seq<nat>, lists: seq<seq<nat>>, off: map<nat, nat>, k: nat, i: nat,
                           w: nat)
    requires k < |lists| && i < |lists[k]|
  {
    var x := lists[k][i];
    && HEADS < x < |next| == |prev| && 0 < next[x] < |next| && PointerOf(prev[x]) < |next| && PointerOf(prev[x]) != x
    && KindBits(prev[x]) == KindOf(k) && x !in off
    && var lists' := lists[k := RemoveAt(lists[k], i)];
       && Threaded(next[PointerOf(prev[x]) := next[x]][x := 0], prev[next[x] := prev[x]][x := w], lists', off)
       && OnNone(lists', x)
  }

  lemma {:induction false} TakenOff(next: seq<nat>, prev: seq<nat>, lists: seq<seq<nat>>, off: map<nat, nat>, k: nat,
                                    i: nat, w: nat)
    requires Threaded(next, prev, lists, off) && k < |lists| && i < |lists[k]|
    ensures OffKeeps(next, prev, lists, off, k, i, w)
  {
    hide NextIn, PrevIn, NoDups, RemoveAt;
    var l, h := lists[k], Head(k);
    var x := l[i];
    assert Ring(next, prev, h, l, KindOf(k)) && Pages(l) && x in l;
    Neighbours(next, prev, h, l, KindOf(k), i);
    NeighboursIn(h, l, i);
    Unlinked(next, prev, h, l, KindOf(k), i);
    assert NoDups(l);
    Removed(l, i);
    var r := RemoveAt(l, i);
    var next', prev' := next[PointerOf(prev[x]) := next[x]], prev[next[x] := prev[x]];
    RingWithin(next', prev', h, r, KindOf(k));
    hide Ring;
    RingKept(next', prev', next'[x := 0], prev'[x := w], h, r, KindOf(k));
    InOneList(next, prev, lists, off, k, x);
    OneListChanged(next, prev, lists, off, next'[x := 0], prev'[x := w], k, r);
  }

  lemma {:induction false} InOneList(next: seq<nat>, prev: seq<nat>, lists: seq<seq<nat>>, off: map<nat, nat>, k: nat,
                                     x: nat)
    requires Threaded(next, prev, lists, off) && k < HEADS && x in lists[k]
    ensures x !in off && forall m :: 0 <= m < HEADS && m != k ==> x !in lists[m]
  {
    hide Ring, Pages;
    forall m | 0 <= m < HEADS && m != k
      ensures x !in lists[m]
    {
      assert Disjoint(lists[if k < m then k else m], lists[if k < m then m else k]);
    }
    assert x in off ==> OnNone(lists, x);
  }

  /** A descriptor on no list goes in front of the list at k. */
  lemma {:induction false} PutInFront(next: seq<nat>, prev: seq<nat>, lists: seq<seq<nat>>, off: map<nat, nat>, k: nat,
                                      x: nat)
    requires Threaded(next, prev, lists, off) && k < HEADS && HEADS < x < |next| && OnNone(lists, x) && x !in off
    ensures Head(k) < |next| && next[Head(k)] < |next|
    ensures Threaded(next[x := next[Head(k)]][Head(k) := x],
                     prev[x := Word(Head(k), KindOf(k))][next[Head(k)] := Word(x, KindOf(k))],
                     lists[k := [x] + lists[k]], off)
  {
    hide NextIn, PrevIn, NoDups;
    var l, h := lists[k], Head(k);
    assert Ring(next, prev, h, l, KindOf(k)) && Pages(l);
    RingWithin(next, prev, h, l, KindOf(k));
    LinkedInFront(next, prev, h, l, KindOf(k), x);
    assert next[h] == h || next[h] in l;
    hide Ring;
    OneListChanged(next, prev, lists, off, next[x := next[h]][h := x],
                   prev[x := Word(h, KindOf(k))][next[h] := Word(x, KindOf(k))], k, [x] + l);
  }

  /** A page more that is off its list, or one less. */
  lemma {:induction false} OffChanged(next: seq<nat>, prev: seq<nat>, lists: seq<seq<nat>>, off: map<nat, nat>, x: nat,
                                      k: nat)
    requires Threaded(next, prev, lists, off)
    ensures Threaded(next, prev, lists, off - {x})
    ensures HEADS < x < |next| && next[x] == 0 && k <= FREE && prev[x] == KindOf(k) && OnNone(lists, x)
            ==> Threaded(next, prev, lists, off[x := k])
  {
    hide Ring, Pages, Disjoint, OnNone;
  }

  // ---------------------------------------------------------------- the descriptors

  class Links {
    const next: array<nat>
    const prev: array<nat>
    /** The classes' lists and the free list, and each page that is off its list with that list. */
    ghost var lists: seq<seq<nat>>
    ghost var off: map<nat, nat>

    ghost predicate Valid()
      reads this, next, prev
    {
      next != prev && next.Length == prev.Length && |lists| == HEADS && Threaded(next[..], prev[..], lists, off)
    }

    /** Neither on a list nor off one. */
    ghost predicate Loose(x: nat)
      reads this
    {
      HEADS < x < next.Length && OnNone(lists, x) && x !in off
    }

    /** init over n descriptors: empty classes, and the first descriptor on the free list. */
    constructor (n: nat)
      requires n > 0
      ensures Valid() && fresh(next) && fresh(prev) && next.Length == HEADS + 1 + n
      ensures lists == seq(FREE, _ => []) + [[HEADS + 1]] && off == map[]
    {
      next := new nat[HEADS + 1 + n](i => if i < Head(FREE) then i else 0);
      prev := new nat[HEADS + 1 + n](_ => 0);
      lists := seq(FREE, _ => []) + [[HEADS + 1]];
      off := map[];
      new;
      next[Head(FREE)] := HEADS + 1;
      next[HEADS + 1] := Head(FREE);
      prev[HEADS + 1] := Word(Head(FREE), SLAB_PAGE);
      InitiallyThreaded(next[..], prev[..], lists);
    }

    /** Take a descriptor off the list it is on, and leave it with no links and the kind it has from now on. */
    method TakeOff(x: nat, kind: nat, ghost k: nat, ghost i: nat)
      requires Valid() && k < HEADS && i < |lists[k]| && x == lists[k][i]
      modifies this`lists, next, prev
      ensures Valid() && lists == old(lists)[k := RemoveAt(old(lists)[k], i)] && Loose(x)
      ensures next[x] == 0 && prev[x] == kind
    {
      hide Threaded, RemoveAt, OnNone;
      TakenOff(next[..], prev[..], lists, off, k, i, kind);
      var p := PointerOf(prev[x]);
      next[p] := next[x];
      prev[next[x]] := prev[x];
      next[x] := 0;
      prev[x] := kind;
      lists := lists[k := RemoveAt(lists[k], i)];
    }

    /** A loose descriptor goes to the front of a list. */
    method PutOn(x: nat, head: nat, kind: nat, ghost k: nat)
      requires Valid() && k < HEADS && Loose(x) && head == Head(k) && kind == KindOf(k)
      modifies this`lists, next, prev
      ensures Valid() && lists == old(lists)[k := [x] + old(lists)[k]]
    {
      hide Threaded, OnNone;
      PutInFront(next[..], prev[..], lists, off, k, x);
      next[x] := next[head];
      next[head] := x;
      prev[x] := Word(head, kind);
      prev[next[x]] := Word(x, kind);
      lists := lists[k := [x] + lists[k]];
    }

    /** alloc, when a page's last free chunk goes: the page leaves its class's list. */
    method Unlist(x: nat, k: nat, ghost i: nat)
      requires Valid() && k < FREE && i < |lists[k]| && x == lists[k][i]
      modifies this`lists, this`off, next, prev
      ensures Valid() && lists == old(lists)[k := RemoveAt(old(lists)[k], i)] && off == old(off)[x := k]
    {
      hide Threaded, RemoveAt;
      TakeOff(x, KindOf(k), k, i);
      OffChanged(next[..], prev[..], lists, off, x, k);
      off := off[x := k];
    }

    /** free, of a chunk of a page that is full (its next is NULL): the page goes to the front of its class's list. */
    method Relist(x: nat, k: nat)
      requires Valid() && x in off && off[x] == k < FREE
      modifies this`lists, this`off, next, prev
      ensures Valid() && lists == old(lists)[k := [x] + old(lists)[k]] && off == old(off) - {x}
    {
      hide Threaded;
      OffIsLoose(next[..], prev[..], lists, off, x);
      OffChanged(next[..], prev[..], lists, off, x, 0);
      off := off - {x};
      PutOn(x, Head(k), KindOf(k), k);
    }

    /** alloc, of a page newly cut for a class without a listed page. */
    method ListFresh(x: nat, k: nat)
      requires Valid() && k < FREE && x in off && off[x] == FREE && lists[k] == []
      modifies this`lists, this`off, next, prev
      ensures Valid() && lists == old(lists)[k := [x]] && off == old(off) - {x}
    {
      hide Threaded, OnNone;
      ghost var nx, pv := next[..], prev[..];
      OffIsLoose(nx, pv, lists, off, x);
      OffChanged(nx, pv, lists, off, x, 0);
      off := off - {x};
      FreshInFront(nx, pv, lists, off, k, x);
      next[x] := Head(k);
      prev[x] := Word(Head(k), KindOf(k));
      next[Head(k)] := x;
      lists := lists[k := [x]];
    }

    /** allocPages, of all pages of a run: it leaves the free list. Its prev has no kind bits to mask. */
    method TakeRun(x: nat, ghost i: nat)
      requires Valid() && i < |lists[FREE]| && x == lists[FREE][i]
      modifies this`lists, this`off, next, prev
      ensures Valid() && lists == old(lists)[FREE := RemoveAt(old(lists)[FREE], i)] && off == old(off)[x := FREE]
    {
      hide Threaded, RemoveAt;
      TakeOff(x, SLAB_PAGE, FREE, i);
      OffChanged(next[..], prev[..], lists, off, x, FREE);
      off := off[x := FREE];
    }

    /** allocPages, of a run's first pages: the descriptor behind them takes the run's place. */
    method TakeFront(x: nat, y: nat, ghost i: nat)
      requires Valid() && i < |lists[FREE]| && x == lists[FREE][i] && Loose(y)
      modifies this`lists, this`off, next, prev
      ensures Valid() && lists == old(lists)[FREE := ReplaceAt(old(lists)[FREE], i, y)] && off == old(off)[x := FREE]
    {
      hide Threaded;
      TakenInstead(next[..], prev[..], lists, off, i, y);
      next[y] := next[x];
      prev[y] := prev[x];
      next[PointerOf(prev[x])] := y;
      prev[next[x]] := Word(y, SLAB_PAGE);
      next[x] := 0;
      prev[x] := SLAB_PAGE;
      lists := lists[FREE := ReplaceAt(lists[FREE], i, y)];
      OffChanged(next[..], prev[..], lists, off, x, FREE);
      off := off[x := FREE];
    }

    /** freePages: a page that is on its class's list leaves it, and the run goes to the front of the free
        list. */
    method GiveBack(x: nat, ghost k: nat, ghost i: nat)
      requires Valid() && k < FREE && x < next.Length
      requires if next[x] == 0 then x in off else i < |lists[k]| && x == lists[k][i]
      modifies this`lists, this`off, next, prev
      ensures Valid() && off == old(off) - {x}
      ensures var ls := if old(next[x]) == 0 then old(lists) else old(lists)[k := RemoveAt(old(lists)[k], i)];
              lists == ls[FREE := [x] + ls[FREE]]
    {
      hide Threaded, RemoveAt;
      if next[x] != 0 {
        TakeOff(x, SLAB_PAGE, k, i);
      } else {
        OffIsLoose(next[..], prev[..], lists, off, x);
      }
      OffChanged(next[..], prev[..], lists, off, x, 0);
      off := off - {x};
      PutOn(x, Head(FREE), SLAB_PAGE, FREE);
    }
  }

  lemma {:induction false} OffIsLoose(next: seq<nat>, prev: seq<nat>, lists: seq<seq<nat>>, off: map<nat, nat>, x: nat)
    requires Threaded(next, prev, lists, off) && x in off
    ensures HEADS < x < |next| && OnNone(lists, x) && off[x] <= FREE && |lists| == HEADS
  {
    hide Ring, Pages, Disjoint, OnNone;
  }

  lemma {:induction false} FreshInFront(next: seq<nat>, prev: seq<nat>, lists: seq<seq<nat>>, off: map<nat, nat>,
                                        k: nat, x: nat)
    requires Threaded(next, prev, lists, off) && k < FREE && HEADS < x < |next| && OnNone(lists, x) && x !in off
    requires lists[k] == []
    ensures Head(k) < |next|
    ensures Threaded(next[x := Head(k)][Head(k) := x], prev[x := Word(Head(k), KindOf(k))], lists[k := [x]], off)
  {
    assert Ring(next, prev, Head(k), lists[k], KindOf(k));
    var next', prev' := next[x := Head(k)][Head(k) := x], prev[x := Word(Head(k), KindOf(k))];
    assert Ring(next', prev', Head(k), [x], KindOf(k));
    hide Ring;
    OneListChanged(next, prev, lists, off, next', prev', k, [x]);
  }

  /** What putting y on the free list in place of its i-th run comes to. */
  ghost predicate InsteadKeeps(next: seq<nat>, prev: seq<nat>, lists: seq<seq<nat>>, off: map<nat, nat>, i: nat, y: nat)
    requires |lists| == HEADS && i < |lists[FREE]|
  {
    var x := lists[FREE][i];
    && HEADS < x < |next| == |prev| && y < |next| && next[x] < |next| && PointerOf(prev[x]) < |next|
    && PointerOf(prev[x]) != x && next[x] != x && x !in off && x != y
    && var lists' := lists[FREE := ReplaceAt(lists[FREE], i, y)];
       && Threaded(next[y := next[x]][PointerOf(prev[x]) := y][x := 0],
                   prev[y := prev[x]][next[x] := Word(y, SLAB_PAGE)][x := SLAB_PAGE], lists', off)
       && OnNone(lists', x)
  }

  lemma {:induction false} TakenInstead(next: seq<nat>, prev: seq<nat>, lists: seq<seq<nat>>, off: map<nat, nat>,
                                        i: nat, y: nat)
    requires Threaded(next, prev, lists, off) && |lists| == HEADS && i < |lists[FREE]|
    requires HEADS < y < |next| && OnNone(lists, y) && y !in off
    ensures InsteadKeeps(next, prev, lists, off, i, y)
  {
    hide NextIn, PrevIn, NoDups;
    var l, h := lists[FREE], Head(FREE);
    var x := l[i];
    assert Ring(next, prev, h, l, SLAB_PAGE) && Pages(l) && x in l;
    assert y !in l;
    Neighbours(next, prev, h, l, SLAB_PAGE, i);
    NeighboursIn(h, l, i);
    LinkedInstead(next, prev, h, l, SLAB_PAGE, i, y);
    Replaced(l, i, y);
    var r := l[i := y];
    var next', prev' := next[y := next[x]][PointerOf(prev[x]) := y], prev[y := prev[x]][next[x] := Word(y, SLAB_PAGE)];
    RingWithin(next', prev', h, r, SLAB_PAGE);
    forall z | z in r
      ensures z > HEADS
    {
      assert z == y || z in l;
    }
    hide Ring;
    RingKept(next', prev', next'[x := 0], prev'[x := SLAB_PAGE], h, r, SLAB_PAGE);
    InOneList(next, prev, lists, off, FREE, x);
    OneListChanged(next, prev, lists, off, next'[x := 0], prev'[x := SLAB_PAGE], FREE, r);
  }

  lemma {:induction false} InitiallyThreaded(next: seq<nat>, prev: seq<nat>, lists: seq<seq<nat>>)
    requires |next| == |prev| > HEADS + 1 && lists == seq(FREE, _ => []) + [[HEADS + 1]]
    requires forall k :: 0 < k < Head(FREE) ==> next[k] == k
    requires next[Head(FREE)] == HEADS + 1 && next[HEADS + 1] == Head(FREE)
    requires prev[HEADS + 1] == Word(Head(FREE), SLAB_PAGE)
    ensures Threaded(next, prev, lists, map[])
  {
    forall k | 0 <= k < HEADS
      ensures Ring(next, prev, Head(k), lists[k], KindOf(k)) && Pages(lists[k])
    {
      if k == FREE {
        assert lists[k] == [HEADS + 1];
      } else {
        assert lists[k] == [];
      }
    }
    hide Ring;
  }
}
