/**
 * The slab allocator (src/Slab.cpp): pages handed out first-fit, small requests served from pages cut
 * into chunks of one size. Addresses count from start_; NULL is None.
 */
module Slab {
  import opened Keys
  import opened Products
  import opened SlabPages
  import opened SlabSteps

  class Slab {
    const pages: array<Page>
    /** The free runs in list order, by first page. */
    var free: seq<nat>
    /** For each size class, the linked pages in list order. */
    var slots: seq<seq<nat>>

    /** For each page, where its run starts. */
    ghost var owner: seq<nat>
    /** The blocks alloc returned and nobody has freed, with the sizes asked for. */
    ghost var live: map<nat, nat>

    ghost predicate Valid()
      reads this, pages
    {
      Good(pages[..], owner, free, slots, live)
    }

    ghost function Snap(): State
      reads this, pages
    {
      State(pages[..], free, slots, live)
    }

    /** init over a region of n pages, every one with a descriptor. */
    constructor (n: nat)
      requires n > 0
      ensures Valid() && live == map[] && pages.Length == n && fresh(pages)
      ensures Snap() == Untouched(n)
    {
      pages := new Page[n](_ => FreeTail);
      free := [0];
      slots := seq(PAGE_SHIFT - MIN_SHIFT, _ => []);
      owner := seq(n, _ => 0);
      live := map[];
      new;
      pages[0] := FreeRun(n);
      InitiallyGood(pages[..], owner, slots);
      assert pages[..] == Untouched(n).pages;
    }

    // -------------------------------------------------------------- pages

    /** allocPages: the first run on the list that is long enough gives its first k pages. */
    method AllocPages(k: nat) returns (page: Option<nat>, ghost x: nat)
      requires k > 0 && FreeOk(pages[..], free) && Tiled(pages[..], owner)
      modifies this`free, pages
      ensures page == None ==> pages[..] == old(pages[..]) && free == old(free) && NoRun(pages[..], k)
      ensures page.Some? ==> Takes(old(pages[..]), old(free), x, page.value, k)
      ensures page.Some? ==> pages[..] == TakeRun(old(pages[..]), page.value, k)
      ensures page.Some? ==> free == FreeTaken(old(pages[..]), old(free), x, k)
    {
      ghost var ps := pages[..];
      x := 0;
      var i := 0;
      hide Tiled, NoDups;
      while i < |free|
        invariant 0 <= i <= |free| && pages[..] == ps && free == old(free)
        invariant forall j :: 0 <= j < i ==> free[j] < |ps| && ps[free[j]].FreeRun? && ps[free[j]].run < k
      {
        var q := free[i];
        assert q in free;
        if pages[q].run >= k {
          x := i;
          RunTails(ps, owner, q);
          Carve(i, k);
          return Some(q), x;
        }
        i := i + 1;
      }
      NoneLongEnough(ps, free, k);
      page := None;
    }

    /** Taking k pages of the x-th free run. */
    method Carve(x: nat, k: nat)
      requires x < |free| && free[x] < pages.Length && pages[free[x]].FreeRun? && 0 < k <= pages[free[x]].run
      requires free[x] + pages[free[x]].run <= pages.Length
      modifies this`free, pages
      ensures pages[..] == TakeRun(old(pages[..]), old(free)[x], k)
      ensures free == FreeTaken(old(pages[..]), old(free), x, k)
    {
      ghost var ps := pages[..];
      var q := free[x];
      var run := pages[q].run;
      if run > k {
        pages[q + k] := FreeRun(run - k);
        free := free[x := q + k];
      } else {
        free := free[..x] + free[x + 1..];
      }
      pages[q] := BusyRun(k);
      var j := q + 1;
      while j < q + k
        invariant q + 1 <= j <= q + k && pages[q] == BusyRun(k)
        invariant forall i :: q < i < j ==> pages[i] == BusyTail
        invariant forall i :: 0 <= i < pages.Length && !(q <= i < j) ==>
                    pages[i] == if i == q + k && k < run then FreeRun(run - k) else ps[i]
        modifies pages
      {
        pages[j] := BusyTail;
        j := j + 1;
      }
      assert pages[..] == TakeRun(ps, q, k);
    }

    /** freePages, which clears the descriptors after the first as its memset should. A chunked page
        leaves its class's list. */
    method FreePages(q: nat, k: nat)
      requires 0 < k && q + k <= pages.Length
      requires pages[q].Chunked? && pages[q].linked ==>
                 MIN_SHIFT <= pages[q].shift && pages[q].shift - MIN_SHIFT < |slots|
                     && q in slots[pages[q].shift - MIN_SHIFT]
      modifies this`free, this`slots, pages
      ensures pages[..] == ReturnRun(old(pages[..]), q, k) && free == [q] + old(free)
      ensures slots == if old(pages[q].Chunked? && pages[q].linked)
                       then var slot := old(pages[q].shift) - MIN_SHIFT;
                            old(slots)[slot := Dropped(old(slots)[slot], q)]
                       else old(slots)
    {
      ghost var ps := pages[..];
      var pg := pages[q];
      var j := q + 1;
      while j < q + k
        invariant q + 1 <= j <= q + k
        invariant forall i :: q < i < j ==> pages[i] == FreeTail
        invariant forall i :: 0 <= i < pages.Length && !(q < i < j) ==> pages[i] == ps[i]
        modifies pages
      {
        pages[j] := FreeTail;
        j := j + 1;
      }
      if pg.Chunked? && pg.linked {
        var slot := pg.shift - MIN_SHIFT;
        slots := slots[slot := Dropped(slots[slot], q)];
      }
      pages[q] := FreeRun(k);
      free := [q] + free;
      assert pages[..] == ReturnRun(ps, q, k);
    }

    // -------------------------------------------------------------- alloc

    /** alloc of half a page or more: whole pages. */
    method AllocWhole(size: nat) returns (p: Option<nat>)
      requires Valid() && size >= PAGE_SIZE / 2
      modifies this`free, this`owner, this`live, pages
      ensures Valid() && Handed(old(live), live, size, p)
      ensures p == None ==> pages[..] == old(pages[..]) && free == old(free)
      ensures p == None <==> NoRun(old(pages[..]), PagesFor(size))
      ensures p.Some? ==> TookFirst(old(pages[..]), old(free), p.value / PAGE_SIZE, PagesFor(size), free)
      ensures p.Some? ==>
                p.value % PAGE_SIZE == 0
                    && pages[..] == TakeRun(old(pages[..]), p.value / PAGE_SIZE, PagesFor(size))
    {
      ghost var ps := pages[..];
      hide Good, Tiled, ChunksOk, FreeOk, SlotsOk, LiveOk, TakeRun, TakeOwner, FreeTaken, IsBlock;
      GoodParts(ps, owner, free, slots, live);
      PagesCover(size);
      var page, x := AllocPages(PagesFor(size));
      if page.Some? {
        var q := page.value;
        TakenGood(ps, owner, old(free), slots, live, x, PagesFor(size), size);
        TakenBlocks(ps, q, PagesFor(size));
        owner := TakeOwner(owner, q, PagesFor(size), ps[q].run);
        live := live[q * PAGE_SIZE := size];
        p := Some(q * PAGE_SIZE);
        assert Takes(ps, old(free), x, p.value / PAGE_SIZE, PagesFor(size));
      } else {
        p := None;
      }
    }

    /** alloc from a class with no listed page: the first page that can be had is cut into chunks. */
    method AllocFresh(size: nat, shift: nat) returns (p: Option<nat>)
      requires Valid() && IsShift(shift) && size <= ChunkSize(shift)
      requires |slots| == PAGE_SHIFT - MIN_SHIFT && slots[shift - MIN_SHIFT] == []
      modifies this, pages
      ensures Valid() && Handed(old(live), live, size, p)
      ensures p == None ==> pages[..] == old(pages[..]) && free == old(free) && slots == old(slots)
      ensures p == None <==> NoRun(old(pages[..]), 1)
      ensures p.Some? ==> InClass(pages[..], p.value, shift)
      ensures p.Some? ==> var q := PageOf(p.value);
                && TookFirst(old(pages[..]), old(free), q, 1, free) && p.value == ChunkAt(q, shift, Reserved(shift))
                && pages[..] == TakeRun(old(pages[..]), q, 1)[q := FreshPage(shift)]
                && slots == old(slots)[shift - MIN_SHIFT := [q]]
    {
      hide Valid, Good, Tiled, ChunksOk, FreeOk, SlotsOk, LiveOk, TakeRun, TakeOwner, FreeTaken, IsBlock, FreshPage,
           Reserved, ChunkAt, ChunkSize, Chunks, Pow2, HasClear, ChunkOk, Extent, PageOf;
      ghost var ps := pages[..];
      Opens();
      GoodParts(ps, owner, free, slots, live);
      var page, x := AllocPages(1);
      if page.Some? {
        var q := page.value;
        ChunkedGood(ps, owner, old(free), slots, live, x, shift, size);
        FreshLive(shift);
        var used := NewBitmap(shift);
        pages[q] := Chunked(shift, used, true);
        slots := slots[shift - MIN_SHIFT := [q]];
        owner := TakeOwner(owner, q, 1, ps[q].run);
        p := Some(q * PAGE_SIZE + Reserved(shift) * ChunkSize(shift));
        ChunkIs(q, shift, Reserved(shift));
        live := live[p.value := size];
        assert pages[..] == TakeRun(ps, q, 1)[q := FreshPage(shift)];
        assert Takes(ps, old(free), x, q, 1);
        Closes(pages[..]);
      } else {
        Closes(ps);
        p := None;
      }
    }

    /** The bitmap a page starts with: its own chunks and the first one served are in use. */
    static method NewBitmap(shift: nat) returns (used: seq<bool>)
      requires IsShift(shift)
      ensures used == FreshPage(shift).used
    {
      hide Reserved;
      var n := Reserved(shift);
      used := seq(Chunks(shift), c => c <= n);
    }

    /** The first free chunk of a page, and whether another is free. */
    static method PickChunk(pg: Page) returns (c: nat, more: bool)
      requires ChunkOk(pg) && HasClear(pg.used)
      ensures IsFirstClear(pg.used, c)
      ensures more <==> HasClear(pg.used[c := true])
    {
      hide Reserved, Chunks;
      WordsOf(pg.shift);
      var found := FirstClear(pg.used, if pg.shift < EXACT_SHIFT then WORD_BITS else Chunks(pg.shift));
      c := found.value;
      more := ClearFrom(pg.used[c := true], c + 1);
      MoreIsClear(pg.used[c := true], c);
    }

    lemma Opens()
      requires Valid()
      ensures Good(pages[..], owner, free, slots, live)
    {
    }

    lemma Closes(ps: seq<Page>)
      requires Good(ps, owner, free, slots, live) && pages[..] == ps
      ensures Valid()
    {
    }

    /** alloc from a listed page: its first free chunk, and the page leaves the list if that was its
        last. By the invariant the first listed page serves, so the walk along the list never goes on. */
    method AllocListed(size: nat, shift: nat) returns (p: nat, ghost c: nat)
      requires Valid() && IsShift(shift) && size <= ChunkSize(shift)
      requires |slots| == PAGE_SHIFT - MIN_SHIFT && slots[shift - MIN_SHIFT] != []
      modifies this`slots, this`live, pages
      ensures Valid() && Handed(old(live), live, size, Some(p))
      ensures InClass(pages[..], p, shift)
      ensures var q := old(slots)[shift - MIN_SHIFT][0];
              && q < pages.Length && old(pages[q]).Chunked? && p == ChunkAt(q, shift, c)
              && IsFirstClear(old(pages[q]).used, c) && pages[..] == old(pages[..])[q := Marked(old(pages[q]), c)]
              && slots == old(slots)[shift - MIN_SHIFT := if Marked(old(pages[q]), c).linked
                                     then old(slots)[shift - MIN_SHIFT]
                                                          else old(slots)[shift - MIN_SHIFT][1..]]
    {
      hide Valid, Good, Tiled, ChunksOk, FreeOk, SlotsOk, LiveOk, TakeRun, TakeOwner, FreeTaken, IsBlock, FreshPage,
           Reserved, ChunkAt, ChunkSize, Chunks, Pow2, HasClear, ChunkOk, Extent, PageOf;
      ghost var ps := pages[..];
      Opens();
      GoodParts(ps, owner, free, slots, live);
      var slot := shift - MIN_SHIFT;
      var q := slots[slot][0];
      SlotsAt(ps, slots, slot);
      assert q in slots[slot];
      ChunkOkAt(ps, q);
      var pg := pages[q];
      var chunk, more := PickChunk(pg);
      c := chunk;
      var used := pg.used[chunk := true];
      if more {
        pages[q] := pg.(used := used);
      } else {
        slots := slots[slot := slots[slot][1..]];
        pages[q] := pg.(used := used, linked := false);
      }
      p := q * PAGE_SIZE + chunk * ChunkSize(shift);
      ChunkIs(q, shift, c);
      MarkedGood(ps, owner, free, old(slots), live, q, c, size, slots[slot]);
      live := live[p := size];
      assert pages[..] == ps[q := Marked(pg, c)];
      assert slots == old(slots)[slot := slots[slot]];
      Closes(pages[..]);
    }

    /** alloc. A request is refused exactly when it needs pages and no free run is long enough. Otherwise
        a large one gets the first run that is, and a small one a chunk of the smallest class that fits it:
        the first free one of the class's first listed page, or the first of a new page. */
    method Alloc(size: nat) returns (p: Option<nat>)
      requires Valid()
      modifies this, pages
      ensures Valid() && Handed(old(live), live, size, p)
      ensures p == None <==> Refused(old(Snap()), size)
      ensures Allocated(old(Snap()), size, p, Snap())
      ensures p.Some? && size < PAGE_SIZE / 2 ==> InClass(pages[..], p.value, ShiftOf(size))
    {
      hide Valid, Good, IsBlock, InClass, Handed, NoRun, PageOf, ChunkAt, ChunkSize, TakeRun, Reserved, FreshPage,
           TookFirst,
           Marked, IsFirstClear;
      Opens();
      GoodParts(pages[..], owner, free, slots, live);
      ghost var a := Snap();
      if size >= PAGE_SIZE / 2 {
        p := AllocWhole(size);
        if p.Some? {
          TookRun(a.pages, a.free, p.value / PAGE_SIZE, PagesFor(size), free);
        }
      } else {
        var shift := ShiftFor(size);
        if slots[shift - MIN_SHIFT] != [] {
          var at, c := AllocListed(size, shift);
          p := Some(at);
          assert ServesChunk(a, shift, at, Snap(), c);
        } else {
          p := AllocFresh(size, shift);
          if p.Some? {
            TookRun(a.pages, a.free, PageOf(p.value), 1, free);
          }
        }
      }
      HandedNothing(a.live, live, size, p);
    }

    // -------------------------------------------------------------- free

    /** free of a chunk: its page goes back on its class's list if it was full, and back to the free
        pages if this was its last live chunk. */
    method FreeChunk(q: nat, c: nat)
      requires Valid() && q < pages.Length && pages[q].Chunked? && IsShift(pages[q].shift)
      requires IsLive(pages[q], c) && c < |pages[q].used|
      modifies this`free, this`slots, this`live, pages
      ensures Valid() && live == old(live) - {ChunkAt(q, old(pages[q].shift), c)}
      ensures var pg, slot := old(pages[q]), old(pages[q].shift) - MIN_SHIFT;
              && slot < |old(slots)|
              && var l := if pg.linked then old(slots)[slot] else [q] + old(slots)[slot];
              if HasLive(Cleared(pg, c)) then
                pages[..] == old(pages[..])[q := Cleared(pg, c)] && free == old(free) && slots == old(slots)[slot := l]
              else
                q in l && pages[..] == ReturnRun(old(pages[..]), q, 1) && free == [q] + old(free)
                    && slots == old(slots)[slot := Dropped(l, q)]
    {
      hide Valid, Good, Tiled, ChunksOk, FreeOk, SlotsOk, LiveOk, ReturnRun, IsLive, HasLive, IsBlock, Reserved,
           ChunkAt, ChunkSize, Chunks, Pow2, HasClear;
      ghost var ps := pages[..];
      Opens();
      GoodParts(ps, owner, free, slots, live);
      var pg := pages[q];
      var slot := pg.shift - MIN_SHIFT;
      ChunkOkAt(ps, q);
      SlotsAt(ps, slots, slot);
      FullIsUnlinked(pg);
      if (if pg.shift == EXACT_SHIFT then Busy(pg.used) else !pg.linked) {
        Pushed(slots[slot], q);
        slots := slots[slot := [q] + slots[slot]];
      }
      ghost var l := slots[slot];
      pages[q] := Cleared(pg, c);
      StillInUse(pg, c);
      var inUse := UsedFrom(pages[q].used, Reserved(pg.shift));
      if !inUse {
        DroppedIs(l, q);
        LastClearedGood(ps, owner, free, old(slots), live, q, c, Dropped(l, q));
        FreePages(q, 1);
        assert pages[..] == ReturnRun(ps, q, 1);
        assert slots == old(slots)[slot := Dropped(l, q)];
      } else {
        ClearedGood(ps, owner, free, old(slots), live, q, c, l);
        assert pages[..] == ps[q := Cleared(pg, c)];
        assert slots == old(slots)[slot := l];
      }
      live := live - {ChunkAt(q, pg.shift, c)};
      Closes(pages[..]);
    }

    /** free of whole pages. */
    method FreeWhole(q: nat)
      requires Valid() && q < pages.Length && pages[q].BusyRun?
      modifies this`free, this`slots, this`live, pages
      ensures Valid() && live == old(live) - {q * PAGE_SIZE}
      ensures pages[..] == ReturnRun(old(pages[..]), q, old(pages[q].run)) && free == [q] + old(free)
      ensures slots == old(slots)
    {
      hide Valid, Good, Tiled, ChunksOk, FreeOk, SlotsOk, LiveOk, ReturnRun;
      ghost var ps := pages[..];
      Opens();
      GoodParts(ps, owner, free, slots, live);
      RunTails(ps, owner, q);
      ReturnedGood(ps, owner, free, slots, live, q);
      FreePages(q, pages[q].run);
      live := live - {q * PAGE_SIZE};
      Closes(pages[..]);
    }

    /** free, of what alloc returned. Its checks of the address all pass. */
    method Free(p: nat)
      requires Valid() && p in live
      modifies this`free, this`slots, this`live, pages
      ensures Valid() && live == old(live) - {p}
      ensures Freed(old(Snap()), p, Snap())
    {
      hide Valid, Good, Tiled, ChunksOk, FreeOk, SlotsOk, LiveOk, IsLive, ChunkAt, ChunkSize, Chunks, Pow2, ReturnRun,
           Cleared, HasLive,
           Dropped;
      Opens();
      BlockOf(pages[..], owner, free, slots, live, p);
      var q := p / PAGE_SIZE;
      match pages[q]
      case Chunked(shift, used, linked) =>
        assert p % PAGE_SIZE % ChunkSize(shift) == 0;
        FreeChunk(q, p % PAGE_SIZE / ChunkSize(shift));
      case BusyRun(run) =>
        FreeWhole(q);
    }
  }

  // ---------------------------------------------------------------- what each call does, as values

  /** All of the allocator that decides its answers, and what it has handed out. */
  datatype State = State(pages: seq<Page>, free: seq<nat>, slots: seq<seq<nat>>, live: map<nat, nat>)

  /** Right after init: one free run. */
  function Untouched(n: nat): State
    requires n > 0
  {
    State(seq(n, j => if j == 0 then FreeRun(n) else FreeTail), [0], seq(PAGE_SHIFT - MIN_SHIFT, _ => []), map[])
  }

  /** When alloc answers NULL. */
  ghost predicate Refused(a: State, size: nat) {
    if size >= PAGE_SIZE / 2 then NoRun(a.pages, PagesFor(size))
    else ShiftOf(size) - MIN_SHIFT < |a.slots| && a.slots[ShiftOf(size) - MIN_SHIFT] == [] && NoRun(a.pages, 1)
  }

  ghost predicate ServesRun(a: State, k: nat, at: nat, b: State) {
    var q := at / PAGE_SIZE;
    && at % PAGE_SIZE == 0 && TookFirst(a.pages, a.free, q, k, b.free)
    && q < |a.pages| && a.pages[q].FreeRun? && k <= a.pages[q].run
    && b.pages == TakeRun(a.pages, q, k) && b.slots == a.slots
  }

  ghost predicate ServesChunk(a: State, shift: nat, at: nat, b: State, c: nat) {
    && IsShift(shift) && shift - MIN_SHIFT < |a.slots| && a.slots[shift - MIN_SHIFT] != []
    && var slot, q := shift - MIN_SHIFT, a.slots[shift - MIN_SHIFT][0];
       && q < |a.pages| && a.pages[q].Chunked? && at == ChunkAt(q, shift, c) && IsFirstClear(a.pages[q].used, c)
       && b.pages == a.pages[q := Marked(a.pages[q], c)] && b.free == a.free
       && b.slots == a.slots[slot := if Marked(a.pages[q], c).linked then a.slots[slot] else a.slots[slot][1..]]
  }

  ghost predicate ServesFresh(a: State, shift: nat, at: nat, b: State) {
    var q := PageOf(at);
    && IsShift(shift) && shift - MIN_SHIFT < |a.slots| && TookFirst(a.pages, a.free, q, 1, b.free)
    && at == ChunkAt(q, shift, Reserved(shift))
    && q < |a.pages| && a.pages[q].FreeRun? && 1 <= a.pages[q].run
    && b.pages == TakeRun(a.pages, q, 1)[q := FreshPage(shift)] && b.slots == a.slots[shift - MIN_SHIFT := [q]]
  }

  /** Everything an alloc does. */
  ghost predicate Allocated(a: State, size: nat, p: Option<nat>, b: State) {
    match p
    case None => b == a
    case Some(at) =>
      && at !in a.live && b.live == a.live[at := size]
      && if size >= PAGE_SIZE / 2 then ServesRun(a, PagesFor(size), at, b)
         else if ShiftOf(size) - MIN_SHIFT < |a.slots| && a.slots[ShiftOf(size) - MIN_SHIFT] != []
         then exists c: nat :: ServesChunk(a, ShiftOf(size), at, b, c)
         else ServesFresh(a, ShiftOf(size), at, b)
  }

  ghost predicate FreedRun(a: State, q: nat, b: State) {
    && q < |a.pages| && a.pages[q].BusyRun?
    && b.pages == ReturnRun(a.pages, q, a.pages[q].run) && b.free == [q] + a.free && b.slots == a.slots
  }

  ghost predicate FreedChunk(a: State, q: nat, c: nat, b: State) {
    && q < |a.pages| && a.pages[q].Chunked? && c < |a.pages[q].used|
    && IsShift(a.pages[q].shift) && a.pages[q].shift - MIN_SHIFT < |a.slots|
    && var pg, slot := a.pages[q], a.pages[q].shift - MIN_SHIFT;
       var l := if pg.linked then a.slots[slot] else [q] + a.slots[slot];
       if HasLive(Cleared(pg, c)) then
         b.pages == a.pages[q := Cleared(pg, c)] && b.free == a.free && b.slots == a.slots[slot := l]
       else
         q in l && b.pages == ReturnRun(a.pages, q, 1) && b.free == [q] + a.free
             && b.slots == a.slots[slot := Dropped(l, q)]
  }

  function Quotient(a: nat, b: nat): nat
    requires b > 0
  {
    a / b
  }

  /** Everything a free does. */
  ghost predicate Freed(a: State, p: nat, b: State) {
    && b.live == a.live - {p} && PageOf(p) < |a.pages|
    && var pg := a.pages[PageOf(p)];
       if pg.Chunked? then FreedChunk(a, PageOf(p), Quotient(p % PAGE_SIZE, ChunkSize(pg.shift)), b)
       else FreedRun(a, PageOf(p), b)
  }

  lemma TookRun(ps: seq<Page>, free: seq<nat>, q: nat, k: nat, free': seq<nat>)
    requires TookFirst(ps, free, q, k, free')
    ensures q < |ps| && ps[q].FreeRun? && k <= ps[q].run
  {
  }

  lemma HandedNothing(live: map<nat, nat>, live': map<nat, nat>, size: nat, p: Option<nat>)
    requires Handed(live, live', size, p)
    ensures match p
            case Some(at) => at !in live && live' == live[at := size]
            case None => live' == live
  {
  }

  ghost predicate NoRun(ps: seq<Page>, k: nat) {
    forall i :: 0 <= i < |ps| && ps[i].FreeRun? ==> ps[i].run < k
  }

  /** q is the first run of the list with k pages. */
  ghost predicate Takes(ps: seq<Page>, free: seq<nat>, x: nat, q: nat, k: nat) {
    && x < |free| && q == free[x] < |ps| && ps[q].FreeRun? && k <= ps[q].run
    && forall j :: 0 <= j < x ==> free[j] < |ps| && ps[free[j]].FreeRun? && ps[free[j]].run < k
  }

  /** The free list after its first run with k pages, the one at q, gave them. */
  ghost predicate TookFirst(ps: seq<Page>, free: seq<nat>, q: nat, k: nat, free': seq<nat>) {
    exists x: nat :: Takes(ps, free, x, q, k) && free' == FreeTaken(ps, free, x, k)
  }

  predicate IsFirstClear(used: seq<bool>, c: nat) {
    c < |used| && !used[c] && forall d :: 0 <= d < c ==> used[d]
  }

  lemma {:induction false} NoneLongEnough(ps: seq<Page>, free: seq<nat>, k: nat)
    requires FreeOk(ps, free)
    requires forall j :: 0 <= j < |free| ==> free[j] < |ps| && ps[free[j]].FreeRun? && ps[free[j]].run < k
    ensures NoRun(ps, k)
  {
    forall i | 0 <= i < |ps| && ps[i].FreeRun?
      ensures ps[i].run < k
    {
      assert i in free;
      var j :| 0 <= j < |free| && free[j] == i;
    }
  }

  lemma {:induction false} InitiallyGood(ps: seq<Page>, owner: seq<nat>, slots: seq<seq<nat>>)
    requires |ps| > 0 && ps[0] == FreeRun(|ps|) && forall j :: 0 < j < |ps| ==> ps[j] == FreeTail
    requires owner == seq(|ps|, _ => 0) && slots == seq(PAGE_SHIFT - MIN_SHIFT, _ => [])
    ensures Good(ps, owner, [0], slots, map[])
  {
    assert forall j :: 0 <= j < |ps| ==> owner[j] == 0;
    assert forall k :: 0 <= k < |slots| ==> SlotOk(ps, k, slots[k]);
  }

  /** What alloc hands out: nothing, or the address of a block that was not live. */
  ghost predicate Handed(live: map<nat, nat>, live': map<nat, nat>, size: nat, p: Option<nat>) {
    match p
    case Some(a) => a !in live && live' == live[a := size]
    case None => live' == live
  }

  /** p lies in a page chunked for shift. */
  predicate InClass(ps: seq<Page>, p: nat, shift: nat) {
    PageOf(p) < |ps| && ps[PageOf(p)].Chunked? && ps[PageOf(p)].shift == shift
  }

  function PagesFor(size: nat): (k: nat)
  {
    size / PAGE_SIZE + if size % PAGE_SIZE != 0 then 1 else 0
  }

  /** s is n shifted right by `shift` bits. */
  predicate Shifted(s: nat, shift: nat, n: nat) {
    s * Pow2(shift) <= n < (s + 1) * Pow2(shift)
  }

  /** alloc's loop over the bits of size - 1. */
  method ShiftFor(size: nat) returns (shift: nat)
    requires size < PAGE_SIZE / 2
    ensures shift == ShiftOf(size) && size <= ChunkSize(shift)
  {
    hide Pow2, Shifted, ShiftFrom;
    SmallestChunk();
    if size > 8 {
      var n: nat := size - 1;
      shift := 1;
      var s: nat := n / 2;
      ShiftedOnce(n);
      while s != 0
        invariant 1 <= shift && Pow2(shift - 1) <= n && Shifted(s, shift, n)
        decreases s
      {
        Halving(s, shift, n);
        shift := shift + 1;
        s := s / 2;
      }
      AllShifted(shift, n);
      BitsBound(size, shift);
    } else {
      shift := MIN_SHIFT;
    }
    ShiftFromIs(size, MIN_SHIFT, shift);
  }

  lemma SmallestChunk()
    ensures Pow2(MIN_SHIFT) == 8
  {
    assert Pow2(3) == 8;
  }

  lemma ShiftedOnce(n: nat)
    requires n > 0
    ensures Pow2(0) <= n && Shifted(n / 2, 1, n)
  {
    assert Pow2(0) == 1 && Pow2(1) == 2;
  }

  lemma AllShifted(shift: nat, n: nat)
    requires Shifted(0, shift, n)
    ensures n < Pow2(shift)
  {
  }

  lemma {:induction false} Halving(s: nat, shift: nat, n: nat)
    requires s > 0 && Shifted(s, shift, n)
    ensures Pow2(shift) <= n && Shifted(s / 2, shift + 1, n)
  {
    var m := Pow2(shift);
    assert Pow2(shift + 1) == 2 * m;
    hide Pow2;
    assert s / 2 * (2 * m) == (s / 2 * 2) * m;
    assert (s / 2 + 1) * (2 * m) == (s / 2 * 2 + 2) * m;
    MulLe(m, s / 2 * 2, s);
    MulLe(m, s + 1, s / 2 * 2 + 2);
    MulLe(m, 1, s);
  }

  lemma {:induction false} BitsBound(size: nat, shift: nat)
    requires 8 < size < PAGE_SIZE / 2 && 1 <= shift && Pow2(shift - 1) <= size - 1 < Pow2(shift)
    ensures MIN_SHIFT < shift <= MAX_SHIFT
  {
    assert Pow2(3) == 8 && Pow2(7) == 128 && Pow2(11) == 2048;
    if shift <= 3 {
      Pow2Mono(shift, 3);
    }
    if shift > 11 {
      Pow2Mono(11, shift - 1);
    }
  }

  /** What a live address says about its page. */
  lemma {:induction false} BlockOf(ps: seq<Page>, owner: seq<nat>, free: seq<nat>, slots: seq<seq<nat>>,
                                   live: map<nat, nat>, p: nat)
    requires Good(ps, owner, free, slots, live) && p in live
    ensures p / PAGE_SIZE < |ps|
    ensures var pg := ps[p / PAGE_SIZE];
            || (pg.BusyRun? && p == p / PAGE_SIZE * PAGE_SIZE)
            || (pg.Chunked? && IsShift(pg.shift) && p % PAGE_SIZE % ChunkSize(pg.shift) == 0
                && IsLive(pg, p % PAGE_SIZE / ChunkSize(pg.shift)) && p % PAGE_SIZE / ChunkSize(pg.shift) < |pg.used|
                && p == ChunkAt(p / PAGE_SIZE, pg.shift, p % PAGE_SIZE / ChunkSize(pg.shift)))
  {
    assert IsBlock(ps, p);
    var pg := ps[PageOf(p)];
    if pg.Chunked? {
      ChunkOf(p, PageOf(p), pg.shift);
    }
  }

  lemma {:induction false} FullIsUnlinked(pg: Page)
    requires ChunkOk(pg)
    ensures Busy(pg.used) <==> !pg.linked
  {
    hide Reserved, Chunks, HasLive;
  }

  /** A chunk past the page's own is in use exactly when a live one is left. */
  lemma {:induction false} StillInUse(pg: Page, c: nat)
    requires ChunkOk(pg) && c < |pg.used|
    ensures Reserved(pg.shift) <= |pg.used|
    ensures HasLive(Cleared(pg, c)) <==> exists d :: Reserved(pg.shift) <= d < |pg.used| && Cleared(pg, c).used[d]
  {
    ShiftTable(pg.shift);
    hide Reserved, Chunks;
    var rest := Cleared(pg, c);
    if d :| Reserved(pg.shift) <= d < |pg.used| && rest.used[d] {
      assert IsLive(rest, d);
    }
  }

  lemma {:induction false} DroppedIs(l: seq<nat>, q: nat)
    requires NoDups(l) && q in l
    ensures NoDups(Dropped(l, q)) && forall i :: i in Dropped(l, q) <==> i in l && i != q
  {
    assert l == [l[0]] + l[1..];
    if l[0] == q {
      TailOfList(l);
    } else {
      TailOfList(l);
      DroppedIs(l[1..], q);
      Pushed(Dropped(l[1..], q), l[0]);
    }
  }

  lemma PagesCover(size: nat)
    ensures size <= PagesFor(size) * PAGE_SIZE < size + PAGE_SIZE
    ensures size > 0 ==> PagesFor(size) > 0
  {
  }

  lemma GoodParts(ps: seq<Page>, owner: seq<nat>, free: seq<nat>, slots: seq<seq<nat>>, live: map<nat, nat>)
    requires Good(ps, owner, free, slots, live)
    ensures Tiled(ps, owner) && ChunksOk(ps) && FreeOk(ps, free) && SlotsOk(ps, slots) && LiveOk(ps, live)
    ensures |slots| == PAGE_SHIFT - MIN_SHIFT
  {
  }

  lemma {:induction false} ChunkIs(q: nat, shift: nat, c: nat)
    requires IsShift(shift) && c < Chunks(shift)
    ensures ChunkAt(q, shift, c) == q * PAGE_SIZE + c * ChunkSize(shift)
    ensures PageOf(ChunkAt(q, shift, c)) == q
  {
    ChunkAddress(q, shift, c);
  }

  /** The search of the bitmap, word by word and then bit by bit. */
  method FirstClear(used: seq<bool>, wordBits: nat) returns (c: Option<nat>)
    requires wordBits > 0 && |used| % wordBits == 0
    ensures c == None ==> !HasClear(used)
    ensures c.Some? ==> IsFirstClear(used, c.value)
  {
    var word := 0;
    while word < |used|
      invariant 0 <= word <= |used| && (|used| - word) % wordBits == 0
      invariant forall d :: 0 <= d < word ==> used[d]
    {
      WholeWord(|used| - word, wordBits);
      if !Busy(used[word..word + wordBits]) {
        var i := 0;
        while i < wordBits && used[word + i]
          invariant 0 <= i <= wordBits
          invariant forall d :: 0 <= d < word + i ==> used[d]
        {
          i := i + 1;
        }
        ClearInWord(used, word, wordBits, i);
        return Some(word + i);
      }
      assert forall d :: word <= d < word + wordBits ==> used[d] == used[word..word + wordBits][d - word];
      word := word + wordBits;
    }
    c := None;
  }

  predicate Busy(word: seq<bool>) {
    forall i :: 0 <= i < |word| ==> word[i]
  }

  lemma ClearInWord(used: seq<bool>, word: nat, wordBits: nat, i: nat)
    requires word + wordBits <= |used| && !Busy(used[word..word + wordBits]) && i <= wordBits
    requires forall d :: word <= d < word + i ==> used[d]
    ensures i < wordBits
  {
    var d :| 0 <= d < wordBits && !used[word..word + wordBits][d];
    assert !used[word + d];
  }

  lemma WholeWord(n: nat, m: nat)
    requires m > 0 && n > 0 && n % m == 0
    ensures m <= n && (n - m) % m == 0
  {
    assert n == n / m * m;
    assert n - m == (n / m - 1) * m;
    DivMod(n / m - 1, m);
  }

  lemma {:induction false} WordsOf(shift: nat)
    requires IsShift(shift)
    ensures Chunks(shift) % (if shift < EXACT_SHIFT then WORD_BITS else Chunks(shift)) == 0
  {
    ShiftTable(shift);
  }

  /** Chunks up to c being in use, one after it is free when any is. */
  lemma MoreIsClear(used: seq<bool>, c: nat)
    requires c < |used| && forall d :: 0 <= d <= c ==> used[d]
    ensures HasClear(used) <==> exists d :: c + 1 <= d < |used| && !used[d]
  {
  }

  /** Whether a chunk from here on is free. */
  method ClearFrom(used: seq<bool>, from: nat) returns (more: bool)
    requires from <= |used|
    ensures more <==> exists c :: from <= c < |used| && !used[c]
  {
    var n := from;
    while n < |used|
      invariant from <= n <= |used| && forall c :: from <= c < n ==> used[c]
    {
      if !used[n] {
        return true;
      }
      n := n + 1;
    }
    more := false;
  }

  /** Whether a chunk from here on is in use. */
  method UsedFrom(used: seq<bool>, from: nat) returns (more: bool)
    requires from <= |used|
    ensures more <==> exists c :: from <= c < |used| && used[c]
  {
    var n := from;
    while n < |used|
      invariant from <= n <= |used| && forall c :: from <= c < n ==> !used[c]
    {
      if used[n] {
        return true;
      }
      n := n + 1;
    }
    more := false;
  }

  /** Unlinking q from a list that holds it. */
  function Dropped(l: seq<nat>, q: nat): seq<nat>
    requires q in l
  {
    if l[0] == q then l[1..] else [l[0]] + Dropped(l[1..], q)
  }
}
