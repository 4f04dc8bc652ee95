/** The lists threaded through the descriptors are, after any run of alloc and free, the slab's lists. */
module SlabThreads {
  import opened Keys
  import opened SlabPages
  import opened SlabSteps
  import opened Slab
  import opened SlabLinks
  import opened SlabRuns

  /** The descriptor of page q. */
  function Desc(q: nat): nat {
    HEADS + 1 + q
  }

  function Descs(l: seq<nat>): (r: seq<nat>)
    ensures |r| == |l|
  {
    seq(|l|, i requires 0 <= i < |l| => Desc(l[i]))
  }

  /** The first page of a run handed out, or a chunked page without a free chunk. */
  predicate IsOff(pg: Page) {
    pg.BusyRun? || (pg.Chunked? && !pg.linked)
  }

  /** The list such a page is off. */
  function HomeOf(pg: Page): nat {
    if pg.Chunked? && MIN_SHIFT <= pg.shift then pg.shift - MIN_SHIFT else FREE
  }

  function ListsOf(a: State): (r: seq<seq<nat>>)
    requires |a.slots| == FREE
    ensures |r| == HEADS && r[FREE] == Descs(a.free) && forall k :: 0 <= k < FREE ==> r[k] == Descs(a.slots[k])
  {
    seq(FREE, k requires 0 <= k < FREE => Descs(a.slots[k])) + [Descs(a.free)]
  }

  /** x is the descriptor of such a page. */
  predicate OffAt(ps: seq<Page>, x: nat) {
    HEADS < x < Desc(|ps|) && IsOff(ps[x - HEADS - 1])
  }

  function HomeAt(ps: seq<Page>, x: nat): nat
    requires OffAt(ps, x)
  {
    HomeOf(ps[x - HEADS - 1])
  }

  function OffOf(ps: seq<Page>): (r: map<nat, nat>)
    ensures forall x: nat :: x in r <==> OffAt(ps, x)
    ensures forall x: nat :: x in r ==> r[x] == HomeAt(ps, x)
  {
    map x: nat | HEADS < x < Desc(|ps|) && OffAt(ps, x) :: HomeAt(ps, x)
  }

  lemma SameMaps(m: map<nat, nat>, m': map<nat, nat>)
    requires forall x :: x in m <==> x in m'
    requires forall x :: x in m ==> m[x] == m'[x]
    ensures m == m'
  {
  }

  /** What the descriptors say is what the slab's lists and pages say. */
  ghost predicate Mirrors(links: Links, a: State)
    reads links, links.next, links.prev
  {
    && links.Valid() && |a.slots| == FREE && links.next.Length == Desc(|a.pages|)
    && links.lists == ListsOf(a) && links.off == OffOf(a.pages)
  }

  ghost predicate GoodState(a: State, owner: seq<nat>) {
    Good(a.pages, owner, a.free, a.slots, a.live)
  }

  // ---------------------------------------------------------------- lists of descriptors

  lemma InDescs(l: seq<nat>, q: nat)
    ensures Desc(q) in Descs(l) <==> q in l
  {
    if q in l {
      var i :| 0 <= i < |l| && l[i] == q;
      assert Descs(l)[i] == Desc(q);
    }
  }

  lemma DescsReplaced(l: seq<nat>, x: nat, y: nat)
    requires x < |l|
    ensures Descs(l[x := y]) == ReplaceAt(Descs(l), x, Desc(y)) && Descs(RemoveAt(l, x)) == RemoveAt(Descs(l), x)
  {
  }

  lemma DescsPushed(l: seq<nat>, q: nat)
    ensures Descs([q] + l) == [Desc(q)] + Descs(l)
  {
  }

  lemma {:induction false} DroppedAt(l: seq<nat>, q: nat) returns (i: nat)
    requires q in l
    ensures i < |l| && l[i] == q && Dropped(l, q) == RemoveAt(l, i)
  {
    if l[0] == q {
      i := 0;
    } else {
      var j := DroppedAt(l[1..], q);
      i := j + 1;
      assert [l[0]] + RemoveAt(l[1..], j) == RemoveAt(l, i);
    }
  }

  lemma FreeListChanged(a: State, free: seq<nat>)
    requires |a.slots| == FREE
    ensures ListsOf(a.(free := free)) == ListsOf(a)[FREE := Descs(free)]
  {
  }

  lemma SlotChanged(a: State, k: nat, l: seq<nat>)
    requires |a.slots| == FREE && k < FREE
    ensures ListsOf(a.(slots := a.slots[k := l])) == ListsOf(a)[k := Descs(l)]
  {
  }

  // ---------------------------------------------------------------- pages off their lists

  lemma {:induction false} OffAfterTake(ps: seq<Page>, owner: seq<nat>, q: nat, k: nat)
    requires Tiled(ps, owner) && q < |ps| && ps[q].FreeRun? && 0 < k <= ps[q].run
    ensures OffOf(TakeRun(ps, q, k)) == OffOf(ps)[Desc(q) := FREE]
  {
    RunTails(ps, owner, q);
    var rs := TakeRun(ps, q, k);
    hide Tiled, TakeRun;
    forall x: nat
      ensures OffAt(rs, x) <==> x == Desc(q) || OffAt(ps, x)
      ensures OffAt(rs, x) ==> HomeAt(rs, x) == if x == Desc(q) then FREE else HomeAt(ps, x)
    {
    }
    SameMaps(OffOf(rs), OffOf(ps)[Desc(q) := FREE]);
  }

  lemma {:induction false} OffAfterReturn(ps: seq<Page>, owner: seq<nat>, q: nat)
    requires Tiled(ps, owner) && q < |ps| && HasBlocks(ps[q])
    ensures OffOf(ReturnRun(ps, q, Extent(ps[q]))) == OffOf(ps) - {Desc(q)}
  {
    RunTails(ps, owner, q);
    var rs := ReturnRun(ps, q, Extent(ps[q]));
    hide Tiled, ReturnRun, Extent;
    forall x: nat
      ensures OffAt(rs, x) <==> x != Desc(q) && OffAt(ps, x)
      ensures OffAt(rs, x) ==> HomeAt(rs, x) == HomeAt(ps, x)
    {
    }
    SameMaps(OffOf(rs), OffOf(ps) - {Desc(q)});
  }

  lemma OffAfterChange(ps: seq<Page>, q: nat, pg: Page)
    requires q < |ps|
    ensures OffOf(ps[q := pg]) == if IsOff(pg) then OffOf(ps)[Desc(q) := HomeOf(pg)] else OffOf(ps) - {Desc(q)}
  {
    forall x: nat
      ensures OffAt(ps[q := pg], x) <==> if x == Desc(q) then IsOff(pg) else OffAt(ps, x)
      ensures OffAt(ps[q := pg], x) && x != Desc(q) ==> HomeAt(ps[q := pg], x) == HomeAt(ps, x)
    {
    }
    SameMaps(OffOf(ps[q := pg]), if IsOff(pg) then OffOf(ps)[Desc(q) := HomeOf(pg)] else OffOf(ps) - {Desc(q)});
  }

  lemma {:induction false} TailIsLoose(a: State, owner: seq<nat>, q: nat)
    requires GoodState(a, owner) && q < |a.pages| && IsTail(a.pages[q])
    ensures |a.slots| == FREE && OnNone(ListsOf(a), Desc(q)) && Desc(q) !in OffOf(a.pages)
  {
    assert !OffAt(a.pages, Desc(q));
    GoodParts(a.pages, owner, a.free, a.slots, a.live);
    hide Tiled, ChunksOk, LiveOk;
    InDescs(a.free, q);
    forall k | 0 <= k < FREE
      ensures Desc(q) !in ListsOf(a)[k]
    {
      InDescs(a.slots[k], q);
      SlotsAt(a.pages, a.slots, k);
    }
  }

  /** A page on its class's list is linked, and of that class. */
  lemma {:induction false} ListedIs(a: State, owner: seq<nat>, k: nat, q: nat)
    requires GoodState(a, owner) && k < |a.slots| && q in a.slots[k]
    ensures q < |a.pages| && a.pages[q].Chunked? && a.pages[q].linked && a.pages[q].shift == k + MIN_SHIFT
  {
    GoodParts(a.pages, owner, a.free, a.slots, a.live);
    hide Tiled, FreeOk, LiveOk;
    SlotsAt(a.pages, a.slots, k);
    ChunkOkAt(a.pages, q);
  }

  // ---------------------------------------------------------------- each call's links

  /** a with k pages of the run at q taken. */
  function Taken(a: State, q: nat, k: nat, free: seq<nat>): State
    requires q < |a.pages| && a.pages[q].FreeRun? && k <= a.pages[q].run
  {
    a.(pages := TakeRun(a.pages, q, k), free := free)
  }

  lemma {:induction false} TakenLists(a: State, owner: seq<nat>, x: nat, q: nat, k: nat, free: seq<nat>)
    requires GoodState(a, owner) && Takes(a.pages, a.free, x, q, k) && free == FreeTaken(a.pages, a.free, x, k) && k > 0
    ensures |a.slots| == FREE
    ensures var ls, run := ListsOf(a), a.pages[q].run;
            && x < |ls[FREE]| && ls[FREE][x] == Desc(q)
            && (k < run ==> q + k < |a.pages| && OnNone(ls, Desc(q + k)) && Desc(q + k) !in OffOf(a.pages))
            && ListsOf(Taken(a, q, k, free))
                 == ls[FREE := if k < run then ReplaceAt(ls[FREE], x, Desc(q + k)) else RemoveAt(ls[FREE], x)]
            && OffOf(Taken(a, q, k, free).pages) == OffOf(a.pages)[Desc(q) := FREE]
  {
    GoodParts(a.pages, owner, a.free, a.slots, a.live);
    hide Good, Tiled, ChunksOk, FreeOk, SlotsOk, LiveOk, OnNone, TakeRun, OffOf, RemoveAt;
    OffAfterTake(a.pages, owner, q, k);
    RunTails(a.pages, owner, q);
    FreeListChanged(a, free);
    DescsReplaced(a.free, x, q + k);
    if k < a.pages[q].run {
      TailIsLoose(a, owner, q + k);
    }
  }

  /** allocPages. */
  method LinkTaken(links: Links, ghost a: State, ghost owner: seq<nat>, q: nat, k: nat, run: nat, ghost free: seq<nat>)
    requires Mirrors(links, a) && GoodState(a, owner) && TookFirst(a.pages, a.free, q, k, free)
    requires q < |a.pages| && a.pages[q] == FreeRun(run) && 0 < k <= run
    modifies links, links.next, links.prev
    ensures Mirrors(links, Taken(a, q, k, free))
  {
    ghost var x: nat :| Takes(a.pages, a.free, x, q, k) && free == FreeTaken(a.pages, a.free, x, k);
    hide links.Valid, GoodState, OnNone, TakeRun, ListsOf, OffOf, Descs, Takes, FreeTaken, TookFirst, ReplaceAt,
         RemoveAt;
    TakenLists(a, owner, x, q, k, free);
    if k < run {
      links.TakeFront(Desc(q), Desc(q + k), x);
    } else {
      links.TakeRun(Desc(q), x);
    }
  }

  lemma {:induction false} FreshLists(a: State, owner: seq<nat>, q: nat, shift: nat, free: seq<nat>)
    requires q < |a.pages| && a.pages[q].FreeRun? && a.pages[q].run > 0 && IsShift(shift) && |a.slots| == FREE
    ensures var slot, t := shift - MIN_SHIFT, Taken(a, q, 1, free);
            && Desc(q) in OffOf(t.pages) && OffOf(t.pages)[Desc(q)] == FREE
            && var b := t.(pages := t.pages[q := FreshPage(shift)], slots := t.slots[slot := [q]]);
               && ListsOf(b) == ListsOf(t)[slot := [Desc(q)]] && OffOf(b.pages) == OffOf(t.pages) - {Desc(q)}
  {
    hide OffOf, FreshPage, ListsOf, TakeRun;
    var t := Taken(a, q, 1, free);
    assert OffAt(t.pages, Desc(q));
    OffAfterChange(t.pages, q, FreshPage(shift));
    SlotChanged(t.(pages := t.pages[q := FreshPage(shift)]), shift - MIN_SHIFT, [q]);
    assert Descs([q]) == [Desc(q)];
    SameLists(t.(pages := t.pages[q := FreshPage(shift)]), t);
  }

  lemma SameLists(a: State, b: State)
    requires |a.slots| == FREE && a.slots == b.slots && a.free == b.free
    ensures ListsOf(a) == ListsOf(b)
  {
  }

  /** alloc of a chunk of a new page. */
  method LinkFresh(links: Links, ghost a: State, ghost owner: seq<nat>, q: nat, run: nat, shift: nat, ghost b: State)
    requires Mirrors(links, a) && GoodState(a, owner) && |a.slots| == FREE
    requires q < |a.pages| && a.pages[q] == FreeRun(run) && run > 0 && IsShift(shift)
    requires a.slots[shift - MIN_SHIFT] == []
    requires TookFirst(a.pages, a.free, q, 1, b.free)
    requires b.pages == TakeRun(a.pages, q, 1)[q := FreshPage(shift)] && b.slots == a.slots[shift - MIN_SHIFT := [q]]
    modifies links, links.next, links.prev
    ensures Mirrors(links, b)
  {
    hide links.Valid, GoodState, TakeRun, ListsOf, OffOf, TookFirst, FreshPage;
    LinkTaken(links, a, owner, q, 1, run, b.free);
    FreshLists(a, owner, q, shift, b.free);
    links.ListFresh(Desc(q), shift - MIN_SHIFT);
    var t := Taken(a, q, 1, b.free);
    SameLists(b, t.(pages := t.pages[q := FreshPage(shift)], slots := t.slots[shift - MIN_SHIFT := [q]]));
  }

  lemma {:induction false} ServedLists(a: State, owner: seq<nat>, slot: nat, c: nat)
    requires GoodState(a, owner) && slot < |a.slots| && a.slots[slot] != []
    requires var q := a.slots[slot][0]; q < |a.pages| && a.pages[q].Chunked? && c < |a.pages[q].used|
    ensures |a.slots| == FREE
    ensures var q := a.slots[slot][0];
            var pg, ls := Marked(a.pages[q], c), ListsOf(a);
            var b := a.(pages := a.pages[q := pg],
                        slots := a.slots[slot := if pg.linked then a.slots[slot] else a.slots[slot][1..]]);
            && |ls[slot]| > 0 && ls[slot][0] == Desc(q)
            && (pg.linked ==> ListsOf(b) == ls && OffOf(b.pages) == OffOf(a.pages))
            && (!pg.linked ==>
                ListsOf(b) == ls[slot := RemoveAt(ls[slot], 0)]
                    && OffOf(b.pages) == OffOf(a.pages)[Desc(q) := slot])
  {
    var l := a.slots[slot];
    var q := l[0];
    assert q in l;
    GoodParts(a.pages, owner, a.free, a.slots, a.live);
    ListedIs(a, owner, slot, q);
    hide GoodState, ListsOf, OffOf;
    var pg := Marked(a.pages[q], c);
    OffAfterChange(a.pages, q, pg);
    assert Desc(q) !in OffOf(a.pages) by {
      assert !OffAt(a.pages, Desc(q));
    }
    assert OffOf(a.pages) - {Desc(q)} == OffOf(a.pages);
    DescsReplaced(l, 0, 0);
    assert RemoveAt(l, 0) == l[1..];
    var ps := a.(pages := a.pages[q := pg]);
    SameLists(ps, a);
    SlotChanged(ps, slot, if pg.linked then l else l[1..]);
    assert ListsOf(a)[slot] == Descs(l);
    assert ListsOf(a)[slot := Descs(l)] == ListsOf(a);
  }

  /** alloc of a chunk of a listed page, which leaves the list if that was its last. */
  method LinkServed(links: Links, ghost a: State, ghost owner: seq<nat>, q: nat, slot: nat, linked: bool, ghost c: nat,
                    ghost b: State)
    requires Mirrors(links, a) && GoodState(a, owner) && slot < |a.slots| && a.slots[slot] != []
    requires q == a.slots[slot][0]
    requires q < |a.pages| && a.pages[q].Chunked? && c < |a.pages[q].used| && linked == Marked(a.pages[q], c).linked
    requires b.pages == a.pages[q := Marked(a.pages[q], c)] && b.free == a.free
    requires b.slots == a.slots[slot := if linked then a.slots[slot] else a.slots[slot][1..]]
    modifies links, links.next, links.prev
    ensures Mirrors(links, b)
  {
    hide links.Valid, GoodState, ListsOf, OffOf, RemoveAt, Marked;
    ServedLists(a, owner, slot, c);
    SameLists(b, a.(slots := b.slots));
    SameLists(a.(slots := b.slots), a.(pages := b.pages, slots := b.slots));
    if !linked {
      links.Unlist(Desc(q), slot, 0);
    }
  }

  lemma {:induction false} ReturnedLists(a: State, owner: seq<nat>, q: nat)
    requires GoodState(a, owner) && q < |a.pages| && a.pages[q].BusyRun?
    ensures |a.slots| == FREE && Desc(q) in OffOf(a.pages)
    ensures var b := a.(pages := ReturnRun(a.pages, q, a.pages[q].run), free := [q] + a.free);
            ListsOf(b) == ListsOf(a)[FREE := [Desc(q)] + ListsOf(a)[FREE]]
                && OffOf(b.pages) == OffOf(a.pages) - {Desc(q)}
  {
    GoodParts(a.pages, owner, a.free, a.slots, a.live);
    hide Good, Tiled, ChunksOk, FreeOk, SlotsOk, LiveOk, ReturnRun, ListsOf, OffOf;
    assert OffAt(a.pages, Desc(q));
    OffAfterReturn(a.pages, owner, q);
    DescsPushed(a.free, q);
    FreeListChanged(a, [q] + a.free);
    SameLists(a.(free := [q] + a.free), a.(pages := ReturnRun(a.pages, q, a.pages[q].run), free := [q] + a.free));
  }

  /** free of whole pages. */
  method LinkReturned(links: Links, ghost a: State, ghost owner: seq<nat>, q: nat, ghost b: State)
    requires Mirrors(links, a) && GoodState(a, owner) && FreedRun(a, q, b)
    modifies links, links.next, links.prev
    ensures Mirrors(links, b)
  {
    hide GoodState, ListsOf, OffOf, RemoveAt, ReturnRun, Ring, Pages, Disjoint, OnNone;
    ReturnedLists(a, owner, q);
    SameLists(b, a.(free := b.free));
    links.GiveBack(Desc(q), 0, 0);
  }

  /** The class's list once a freed chunk's page is on it. */
  function Relisted(a: State, q: nat): seq<nat>
    requires q < |a.pages| && a.pages[q].Chunked? && IsShift(a.pages[q].shift)
    requires a.pages[q].shift - MIN_SHIFT < |a.slots|
  {
    var slot := a.pages[q].shift - MIN_SHIFT;
    if a.pages[q].linked then a.slots[slot] else [q] + a.slots[slot]
  }

  lemma {:induction false} RelistedLists(a: State, owner: seq<nat>, q: nat, c: nat)
    requires GoodState(a, owner) && q < |a.pages| && a.pages[q].Chunked? && c < |a.pages[q].used|
    requires IsShift(a.pages[q].shift) && a.pages[q].shift - MIN_SHIFT < |a.slots|
    ensures |a.slots| == FREE
    ensures var pg, slot, ls, off := a.pages[q], a.pages[q].shift - MIN_SHIFT, ListsOf(a), OffOf(a.pages);
            var b := a.(pages := a.pages[q := Cleared(pg, c)], slots := a.slots[slot := Relisted(a, q)]);
            && (pg.linked ==> ListsOf(b) == ls && OffOf(b.pages) == off)
            && (!pg.linked ==> ListsOf(b) == ls[slot := [Desc(q)] + ls[slot]] && OffOf(b.pages) == off - {Desc(q)})
            && (!pg.linked ==> Desc(q) in off && off[Desc(q)] == slot)
  {
    GoodParts(a.pages, owner, a.free, a.slots, a.live);
    hide GoodState, ListsOf, OffOf;
    var pg, slot := a.pages[q], a.pages[q].shift - MIN_SHIFT;
    OffAfterChange(a.pages, q, Cleared(pg, c));
    assert OffAt(a.pages, Desc(q)) <==> !pg.linked;
    if pg.linked {
      assert OffOf(a.pages) - {Desc(q)} == OffOf(a.pages);
      assert ListsOf(a)[slot := Descs(a.slots[slot])] == ListsOf(a);
    } else {
      DescsPushed(a.slots[slot], q);
    }
    SlotChanged(a, slot, Relisted(a, q));
    SameLists(a.(slots := a.slots[slot := Relisted(a, q)]),
              a.(pages := a.pages[q := Cleared(pg, c)], slots := a.slots[slot := Relisted(a, q)]));
  }

  /** free of a chunk: a full page goes back on its class's list. */
  method LinkCleared(links: Links, ghost a: State, ghost owner: seq<nat>, q: nat, c: nat, slot: nat, linked: bool)
    requires Mirrors(links, a) && GoodState(a, owner) && q < |a.pages| && a.pages[q].Chunked? && c < |a.pages[q].used|
    requires IsShift(a.pages[q].shift) && slot == a.pages[q].shift - MIN_SHIFT < |a.slots|
    requires linked == a.pages[q].linked
    modifies links, links.next, links.prev
    ensures Mirrors(links, a.(pages := a.pages[q := Cleared(a.pages[q], c)], slots := a.slots[slot := Relisted(a, q)]))
  {
    hide links.Valid, GoodState, ListsOf, OffOf, Relisted, Cleared;
    RelistedLists(a, owner, q, c);
    if !linked {
      links.Relist(Desc(q), slot);
    }
  }

  lemma {:induction false} LastClearedLists(a: State, owner: seq<nat>, q: nat, c: nat) returns (i: nat)
    requires GoodState(a, owner) && q < |a.pages| && a.pages[q].Chunked? && c < |a.pages[q].used|
    requires IsShift(a.pages[q].shift) && a.pages[q].shift - MIN_SHIFT < |a.slots| && q in Relisted(a, q)
    ensures |a.slots| == FREE
    ensures var slot, l := a.pages[q].shift - MIN_SHIFT, Relisted(a, q);
            var t := a.(pages := a.pages[q := Cleared(a.pages[q], c)], slots := a.slots[slot := l]);
            var b := a.(pages := ReturnRun(a.pages, q, 1), free := [q] + a.free,
                        slots := a.slots[slot := Dropped(l, q)]);
            var ls := ListsOf(t);
            && i < |ls[slot]| && ls[slot][i] == Desc(q) && Desc(q) !in OffOf(t.pages)
            && OffOf(b.pages) == OffOf(t.pages)
            && ListsOf(b) == ls[slot := RemoveAt(ls[slot], i)][FREE := [Desc(q)] + ls[FREE]]
  {
    GoodParts(a.pages, owner, a.free, a.slots, a.live);
    hide GoodState, ListsOf, OffOf, Good, Tiled, ChunksOk, FreeOk, SlotsOk, LiveOk, ReturnRun, Relisted, Dropped,
         RemoveAt;
    var slot, l := a.pages[q].shift - MIN_SHIFT, Relisted(a, q);
    OffAfterChange(a.pages, q, Cleared(a.pages[q], c));
    OffAfterReturn(a.pages, owner, q);
    i := DroppedAt(l, q);
    DescsReplaced(l, i, 0);
    DescsPushed(a.free, q);
    SlotChanged(a, slot, l);
    SlotChanged(a, slot, Dropped(l, q));
    FreeListChanged(a.(slots := a.slots[slot := Dropped(l, q)]), [q] + a.free);
    SameLists(a.(slots := a.slots[slot := l]),
              a.(pages := a.pages[q := Cleared(a.pages[q], c)], slots := a.slots[slot := l]));
    SameLists(a.(slots := a.slots[slot := Dropped(l, q)], free := [q] + a.free),
              a.(pages := ReturnRun(a.pages, q, 1), free := [q] + a.free, slots := a.slots[slot := Dropped(l, q)]));
    TwiceChanged(ListsOf(a), slot, Descs(l), RemoveAt(Descs(l), i), [Desc(q)] + Descs(a.free));
  }

  lemma TwiceChanged(ls: seq<seq<nat>>, k: nat, l: seq<nat>, m: seq<nat>, f: seq<nat>)
    requires |ls| == HEADS && k < FREE
    ensures ls[k := m][FREE := f] == ls[k := l][k := m][FREE := f]
  {
  }

  /** free of a page's last live chunk: the page leaves its list again and is given back. */
  method LinkLastCleared(links: Links, ghost a: State, ghost owner: seq<nat>, q: nat, c: nat, slot: nat, ghost b: State)
    requires GoodState(a, owner) && q < |a.pages| && a.pages[q].Chunked? && c < |a.pages[q].used|
    requires IsShift(a.pages[q].shift) && slot == a.pages[q].shift - MIN_SHIFT < |a.slots| && q in Relisted(a, q)
    requires Mirrors(links, a.(pages := a.pages[q := Cleared(a.pages[q], c)], slots := a.slots[slot := Relisted(a, q)]))
    requires b.pages == ReturnRun(a.pages, q, 1) && b.free == [q] + a.free
    requires b.slots == a.slots[slot := Dropped(Relisted(a, q), q)]
    modifies links, links.next, links.prev
    ensures Mirrors(links, b)
  {
    hide GoodState, ListsOf, OffOf, Relisted, Cleared, Dropped, Ring, Pages, Disjoint, OnNone, ReturnRun, RemoveAt;
    ghost var i := LastClearedLists(a, owner, q, c);
    SameLists(b,
              a.(pages := ReturnRun(a.pages, q, 1), free := [q] + a.free,
                 slots := a.slots[slot := Dropped(Relisted(a, q), q)]));
    DescriptorTells(links.next[..], links.prev[..], links.lists, links.off, Desc(q), slot);
    hide Threaded;
    links.GiveBack(Desc(q), slot, i);
  }

  // ---------------------------------------------------------------- runs

  lemma {:induction false} FirstListed(a: State, owner: seq<nat>, shift: nat)
    requires GoodState(a, owner) && IsShift(shift)
    ensures |a.slots| == FREE
    ensures var slot := shift - MIN_SHIFT;
            a.slots[slot] != [] ==> a.slots[slot][0] < |a.pages| && a.pages[a.slots[slot][0]].Chunked?
  {
    GoodParts(a.pages, owner, a.free, a.slots, a.live);
    if a.slots[shift - MIN_SHIFT] != [] {
      ListedIs(a, owner, shift - MIN_SHIFT, a.slots[shift - MIN_SHIFT][0]);
    }
  }

  lemma ChunkPage(q: nat, shift: nat, c: nat, at: nat)
    requires IsShift(shift) && c < Chunks(shift) && at == ChunkAt(q, shift, c)
    ensures PageOf(at) == q
  {
    ChunkAddress(q, shift, c);
  }

  lemma {:induction false} ServedPage(a: State, owner: seq<nat>, shift: nat, at: nat, b: State, c: nat)
    requires GoodState(a, owner) && ServesChunk(a, shift, at, b, c)
    ensures PageOf(at) == a.slots[shift - MIN_SHIFT][0]
  {
    var q := a.slots[shift - MIN_SHIFT][0];
    GoodParts(a.pages, owner, a.free, a.slots, a.live);
    hide GoodState, Chunks, ChunkAt;
    assert q in a.slots[shift - MIN_SHIFT];
    ListedIs(a, owner, shift - MIN_SHIFT, q);
    ChunkOkAt(a.pages, q);
    ChunkPage(q, shift, c, at);
  }

  /** What live blocks there are is nothing to the lists. */
  lemma MirrorsSame(links: Links, a: State, b: State)
    requires Mirrors(links, a) && b.pages == a.pages && b.free == a.free && b.slots == a.slots
    ensures Mirrors(links, b)
  {
    hide links.Valid, OffOf;
    SameLists(a, b);
  }

  /** The links of an alloc that answered `at`. */
  method LinkAlloc(links: Links, ghost a: State, ghost owner: seq<nat>, size: nat, at: nat, before: seq<Page>,
                   after: seq<Page>, ghost b: State)
    requires Mirrors(links, a) && GoodState(a, owner) && Allocated(a, size, Some(at), b)
    requires before == a.pages && after == b.pages
    modifies links, links.next, links.prev
    ensures Mirrors(links, b)
  {
    hide Mirrors, GoodState, TookFirst, TakeRun, ChunkAt, Marked, FreshPage, IsFirstClear, Pow2, ShiftFrom, PageOf;
    if size >= PAGE_SIZE / 2 {
      PagesCover(size);
      var q := at / PAGE_SIZE;
      LinkTaken(links, a, owner, q, PagesFor(size), before[q].run, b.free);
      MirrorsSame(links, Taken(a, q, PagesFor(size), b.free), b);
    } else {
      LinkSmall(links, a, owner, ShiftOf(size), at, before, after, b);
    }
  }

  method LinkSmall(links: Links, ghost a: State, ghost owner: seq<nat>, shift: nat, at: nat, before: seq<Page>,
                   after: seq<Page>, ghost b: State)
    requires Mirrors(links, a) && GoodState(a, owner) && before == a.pages && after == b.pages && IsShift(shift)
    requires if shift - MIN_SHIFT < |a.slots| && a.slots[shift - MIN_SHIFT] != []
             then exists c: nat :: ServesChunk(a, shift, at, b, c)
             else ServesFresh(a, shift, at, b)
    modifies links, links.next, links.prev
    ensures Mirrors(links, b)
  {
    hide Mirrors, GoodState, TookFirst, TakeRun, ChunkAt, Marked, FreshPage, PageOf;
    FirstListed(a, owner, shift);
    ghost var slot := shift - MIN_SHIFT;
    ghost var c: nat;
    if a.slots[slot] != [] {
      c :| ServesChunk(a, shift, at, b, c);
      ServedPage(a, owner, shift, at, b, c);
    }
    var q := PageOf(at);
    if before[q].Chunked? {
      assert IsFirstClear(a.pages[q].used, c);
      MarkedIsChunked(a.pages[q], c);
      LinkServed(links, a, owner, q, shift - MIN_SHIFT, after[q].linked, c, b);
    } else {
      LinkFresh(links, a, owner, q, before[q].run, shift, b);
    }
  }

  lemma MarkedIsChunked(pg: Page, c: nat)
    requires pg.Chunked? && c < |pg.used|
    ensures Marked(pg, c).Chunked?
  {
  }

  /** The links of a free. */
  method LinkFree(links: Links, ghost a: State, ghost owner: seq<nat>, p: nat, before: seq<Page>, after: seq<Page>,
                  ghost b: State)
    requires Mirrors(links, a) && GoodState(a, owner) && Freed(a, p, b) && before == a.pages && after == b.pages
    modifies links, links.next, links.prev
    ensures Mirrors(links, b)
  {
    hide Mirrors, GoodState, ReturnRun, ChunkSize, HasLive, Cleared, Dropped, PageOf;
    var q := PageOf(p);
    if before[q].Chunked? {
      var c := p % PAGE_SIZE / ChunkSize(before[q].shift);
      var slot := before[q].shift - MIN_SHIFT;
      assert FreedChunk(a, q, c, b);
      LinkCleared(links, a, owner, q, c, slot, before[q].linked);
      AfterChunk(a, q, c, b);
      if after[q].Chunked? {
        ghost var t := a.(pages := a.pages[q := Cleared(a.pages[q], c)], slots := a.slots[slot := Relisted(a, q)]);
        MirrorsSame(links, t, b);
      } else {
        LinkLastCleared(links, a, owner, q, c, slot, b);
      }
    } else {
      LinkReturned(links, a, owner, q, b);
    }
  }

  lemma {:induction false} AfterChunk(a: State, q: nat, c: nat, b: State)
    requires FreedChunk(a, q, c, b)
    ensures q < |b.pages| && (b.pages[q].Chunked? <==> HasLive(Cleared(a.pages[q], c)))
  {
    hide HasLive, Dropped;
  }

  /** One call on a slab, and its links. */
  method LinkedOp(s: Slab, links: Links, op: SlabOp, held: map<nat, nat>)
    returns (answer: Option<nat>, held': map<nat, nat>)
    requires s.Valid() && s.live == held && Mirrors(links, s.Snap())
    modifies s, s.pages, links, links.next, links.prev
    ensures s.Valid() && s.live == held' == AfterOp(held, op, answer) && Mirrors(links, s.Snap())
    ensures OpStep(old(s.Snap()), op, answer, s.Snap())
    ensures answer.Some? ==> op.Alloc? && NewBlock(held, answer.value, op.size, s.pages.Length)
  {
    hide Mirrors, Good, NewBlock, Refused, Freed, Allocated;
    ghost var a, owner := s.Snap(), s.owner;
    var before := s.pages[..];
    answer, held' := RunOp(s, op, held);
    assert Mirrors(links, a);
    match op
    case Alloc(size) =>
      if answer.Some? {
        LinkAlloc(links, a, owner, size, answer.value, before, s.pages[..], s.Snap());
      } else {
        NothingAllocated(a, size, s.Snap());
      }
    case Free(p) =>
      if p in held {
        LinkFree(links, a, owner, p, before, s.pages[..], s.Snap());
      }
  }

  lemma NothingAllocated(a: State, size: nat, b: State)
    requires Allocated(a, size, None, b)
    ensures b == a
  {
  }

  /** Any run on a new slab and new descriptors: what the descriptors say at its end is what the slab's
      lists and pages say. */
  method RunLinked(n: nat, ops: seq<SlabOp>)
    returns (s: Slab, links: Links, answers: seq<Option<nat>>, ghost trace: seq<State>)
    requires n > 0
    ensures s.Valid() && s.pages.Length == n && Mirrors(links, s.Snap())
    ensures |answers| == |ops| && Recorded(n, ops, answers, trace) && trace[|ops|] == s.Snap()
  {
    s := new Slab(n);
    links := new Links(n);
    hide *;
    InitiallyMirrors(links, n);
    answers, trace := [], [s.Snap()];
    var held: map<nat, nat> := map[];
    RecordedNothing(n, ops);
    while |answers| < |ops|
      invariant fresh(s) && fresh(s.pages) && fresh(links) && fresh(links.next) && fresh(links.prev)
      invariant s.pages.Length == n && s.Valid() && Mirrors(links, s.Snap())
      invariant |answers| <= |ops| && Recorded(n, ops, answers, trace)
      invariant |trace| == |answers| + 1 && trace[|answers|] == s.Snap() && s.Snap().live == s.live == held
    {
      var answer, held' := LinkedOp(s, links, ops[|answers|], held);
      LiveIn(s);
      RecordedNext(n, ops, answers, trace, answer, s.Snap());
      answers := answers + [answer];
      trace := trace + [s.Snap()];
      held := held';
    }
    RecordedEnd(n, ops, answers, trace);
  }

  lemma {:induction false} InitiallyMirrors(links: Links, n: nat)
    requires n > 0 && links.Valid() && links.next.Length == HEADS + 1 + n
    requires links.lists == seq(FREE, _ => []) + [[HEADS + 1]] && links.off == map[]
    ensures Mirrors(links, Untouched(n))
  {
    hide links.Valid;
    var a := Untouched(n);
    forall x: nat
      ensures !OffAt(a.pages, x)
    {
    }
    SameMaps(OffOf(a.pages), map[]);
    assert Descs([0]) == [Desc(0)] && Descs([]) == [];
    assert ListsOf(a) == links.lists;
  }
}
