/** What each step of the slab does to its lists and to the set of live blocks. */
module SlabSteps {
  import opened SlabPages

  /** live maps the address of every live block to the size that was asked for. */
  ghost predicate LiveOk(ps: seq<Page>, live: map<nat, nat>) {
    forall p: nat :: (p in live <==> IsBlock(ps, p)) && (IsBlock(ps, p) ==> live[p] <= BlockSize(ps, p))
  }

  ghost predicate Good(ps: seq<Page>, owner: seq<nat>, free: seq<nat>, slots: seq<seq<nat>>, live: map<nat, nat>) {
    Tiled(ps, owner) && ChunksOk(ps) && FreeOk(ps, free) && SlotsOk(ps, slots) && LiveOk(ps, live)
  }

  predicate HasBlocks(pg: Page) {
    pg.BusyRun? || pg.Chunked?
  }

  /** Away from q nothing changed but what holds no block. */
  ghost predicate SameElsewhere(ps: seq<Page>, ps': seq<Page>, q: nat) {
    && |ps'| == |ps| && q < |ps|
    && forall j :: 0 <= j < |ps| && j != q ==> ps'[j] == ps[j] || (!HasBlocks(ps[j]) && !HasBlocks(ps'[j]))
  }

  lemma {:induction false} BlocksElsewhere(ps: seq<Page>, ps': seq<Page>, q: nat, p: nat)
    requires SameElsewhere(ps, ps', q) && PageOf(p) != q
    ensures IsBlock(ps', p) <==> IsBlock(ps, p)
    ensures IsBlock(ps, p) ==> BlockSize(ps', p) == BlockSize(ps, p)
  {
    hide IsLive;
  }

  /** The blocks of page q, of which p0 came or went. */
  ghost predicate SameButOne(ps: seq<Page>, ps': seq<Page>, q: nat, p0: nat) {
    && PageOf(p0) == q
    && forall p: nat :: PageOf(p) == q && p != p0 ==>
         (IsBlock(ps', p) <==> IsBlock(ps, p)) && (IsBlock(ps, p) ==> BlockSize(ps', p) == BlockSize(ps, p))
  }

  lemma {:induction false} AddBlock(ps: seq<Page>, ps': seq<Page>, live: map<nat, nat>, q: nat, p0: nat, size: nat)
    requires LiveOk(ps, live) && SameElsewhere(ps, ps', q) && SameButOne(ps, ps', q, p0)
    requires IsBlock(ps', p0) && size <= BlockSize(ps', p0)
    ensures LiveOk(ps', live[p0 := size])
  {
    hide SameElsewhere, IsBlock, BlockSize, PageOf;
    forall p: nat
      ensures (p in live[p0 := size] <==> IsBlock(ps', p))
      ensures (IsBlock(ps', p) ==> live[p0 := size][p] <= BlockSize(ps', p))
    {
      if PageOf(p) != q {
        BlocksElsewhere(ps, ps', q, p);
      }
    }
  }

  lemma {:induction false} DropBlock(ps: seq<Page>, ps': seq<Page>, live: map<nat, nat>, q: nat, p0: nat)
    requires LiveOk(ps, live) && SameElsewhere(ps, ps', q) && SameButOne(ps, ps', q, p0) && !IsBlock(ps', p0)
    ensures LiveOk(ps', live - {p0})
  {
    hide SameElsewhere, IsBlock, BlockSize, PageOf;
    forall p: nat
      ensures (p in live - {p0} <==> IsBlock(ps', p)) && (IsBlock(ps', p) ==> (live - {p0})[p] <= BlockSize(ps', p))
    {
      if PageOf(p) != q {
        BlocksElsewhere(ps, ps', q, p);
      }
    }
  }

  // ---------------------------------------------------------------- lists

  function RemoveAt(l: seq<nat>, x: nat): seq<nat>
    requires x < |l|
  {
    l[..x] + l[x + 1..]
  }

  lemma {:induction false} Removed(l: seq<nat>, x: nat)
    requires NoDups(l) && x < |l|
    ensures NoDups(RemoveAt(l, x)) && forall i :: i in RemoveAt(l, x) <==> i in l && i != l[x]
  {
    var r := RemoveAt(l, x);
    forall i, j | 0 <= i < j < |r|
      ensures r[i] != r[j]
    {
      assert r[i] == l[if i < x then i else i + 1] && r[j] == l[if j < x then j else j + 1];
    }
    forall i | i in l && i != l[x]
      ensures i in r
    {
      var j :| 0 <= j < |l| && l[j] == i;
      assert r[if j < x then j else j - 1] == i;
    }
    forall i | i in r
      ensures i in l && i != l[x]
    {
      var j :| 0 <= j < |r| && r[j] == i;
      assert l[if j < x then j else j + 1] == i;
    }
  }

  lemma {:induction false} Pushed(l: seq<nat>, q: nat)
    requires NoDups(l) && q !in l
    ensures NoDups([q] + l) && forall i :: i in [q] + l <==> i in l || i == q
  {
    var r := [q] + l;
    assert forall i :: 0 < i < |r| ==> r[i] == l[i - 1] && r[i] in l;
  }

  lemma {:induction false} Replaced(l: seq<nat>, x: nat, q: nat)
    requires NoDups(l) && x < |l| && q !in l
    ensures NoDups(l[x := q]) && forall i :: i in l[x := q] <==> i == q || (i in l && i != l[x])
  {
    var r := l[x := q];
    forall i | i in l && i != l[x]
      ensures i in r
    {
      var j :| 0 <= j < |l| && l[j] == i;
      assert r[j] == i;
    }
    assert r[x] == q;
    forall i | i in r
      ensures i == q || (i in l && i != l[x])
    {
      var j :| 0 <= j < |r| && r[j] == i;
      assert j != x ==> l[j] == i && l[j] in l;
    }
  }

  /** What the free list becomes when k pages are taken of its x-th run. */
  function FreeTaken(ps: seq<Page>, free: seq<nat>, x: nat, k: nat): seq<nat>
    requires x < |free| && free[x] < |ps| && ps[free[x]].FreeRun?
  {
    if k < ps[free[x]].run then free[x := free[x] + k] else RemoveAt(free, x)
  }

  lemma {:induction false} RunTails(ps: seq<Page>, owner: seq<nat>, q: nat)
    requires Tiled(ps, owner) && q < |ps| && !IsTail(ps[q])
    ensures 0 < Extent(ps[q]) && q + Extent(ps[q]) <= |ps|
    ensures forall j :: q < j < q + Extent(ps[q]) ==> ps[j] == TailOf(ps[q])
  {
    assert owner[q] == q;
    forall j | q < j < q + Extent(ps[q])
      ensures ps[j] == TailOf(ps[q])
    {
      assert owner[j] == q;
    }
  }

  lemma {:induction false} TakenFreeOk(ps: seq<Page>, owner: seq<nat>, free: seq<nat>, x: nat, k: nat)
    requires Tiled(ps, owner) && FreeOk(ps, free) && x < |free| && free[x] < |ps| && ps[free[x]].FreeRun?
    requires 0 < k <= ps[free[x]].run
    ensures FreeOk(TakeRun(ps, free[x], k), FreeTaken(ps, free, x, k))
  {
    hide Tiled, NoDups, RemoveAt;
    var q := free[x];
    var ps', free' := TakeRun(ps, q, k), FreeTaken(ps, free, x, k);
    assert q in free;
    RunTails(ps, owner, q);
    if k < ps[q].run {
      assert q + k !in free;
      Replaced(free, x, q + k);
      assert free' == free[x := q + k];
    } else {
      Removed(free, x);
      assert free' == RemoveAt(free, x);
    }
    forall i | i in free'
      ensures i < |ps|
    {
      assert i in free || i == q + k;
    }
    forall i | 0 <= i < |ps|
      ensures i in free' <==> ps'[i].FreeRun?
    {
      if q < i < q + ps[q].run {
        assert !ps[i].FreeRun?;
        assert i !in free;
        assert i in free' <==> k < ps[q].run && i == q + k;
      } else {
        assert i != q ==> (i in free' <==> i in free);
        assert i != q ==> ps'[i] == ps[i];
      }
    }
  }

  lemma {:induction false} ReturnedFreeOk(ps: seq<Page>, owner: seq<nat>, free: seq<nat>, q: nat)
    requires Tiled(ps, owner) && FreeOk(ps, free) && q < |ps| && HasBlocks(ps[q])
    ensures FreeOk(ReturnRun(ps, q, Extent(ps[q])), [q] + free)
  {
    hide Tiled, NoDups;
    assert q !in free;
    RunTails(ps, owner, q);
    Pushed(free, q);
  }

  /** Every page but q is chunked as it was. */
  ghost predicate SameChunks(ps: seq<Page>, ps': seq<Page>, q: nat) {
    && |ps'| == |ps| && q < |ps|
    && forall j :: 0 <= j < |ps| && j != q ==> ps'[j] == ps[j] || (!ps[j].Chunked? && !ps'[j].Chunked?)
  }

  predicate Listed(pg: Page, slot: nat) {
    pg.Chunked? && pg.shift == slot + MIN_SHIFT && HasClear(pg.used)
  }

  /** What SlotOk says, page by page. */
  lemma {:induction false} SlotMembers(ps: seq<Page>, k: nat, l: seq<nat>)
    requires NoDups(l) && (forall i :: i in l ==> i < |ps|)
    requires forall i :: 0 <= i < |ps| ==> (i in l <==> Listed(ps[i], k))
    ensures SlotOk(ps, k, l)
  {
  }

  lemma {:induction false} SlotsAt(ps: seq<Page>, slots: seq<seq<nat>>, k: nat)
    requires SlotsOk(ps, slots) && k < |slots|
    ensures NoDups(slots[k]) && (forall i :: i in slots[k] ==> i < |ps|)
    ensures forall i :: 0 <= i < |ps| ==> (i in slots[k] <==> Listed(ps[i], k))
  {
    assert SlotOk(ps, k, slots[k]);
  }

  /** Only q's own class can gain or lose q. */
  lemma {:induction false} SlotsChanged(ps: seq<Page>, ps': seq<Page>, slots: seq<seq<nat>>, q: nat, slot: nat,
                                        l: seq<nat>)
    requires SlotsOk(ps, slots) && SameChunks(ps, ps', q) && slot < |slots|
    requires forall k: nat :: k != slot ==> !Listed(ps[q], k) && !Listed(ps'[q], k)
    requires NoDups(l) && (forall i :: i in l ==> if i == q then Listed(ps'[q], slot) else i in slots[slot])
    requires Listed(ps'[q], slot) ==> q in l
    requires forall i :: i in slots[slot] && i != q ==> i in l
    ensures SlotsOk(ps', slots[slot := l])
  {
    var slots' := slots[slot := l];
    assert |slots'| == PAGE_SHIFT - MIN_SHIFT;
    hide SlotsOk, HasClear, NoDups, SlotOk;
    forall k | 0 <= k < |slots'|
      ensures SlotOk(ps', k, slots'[k])
    {
      SlotsAt(ps, slots, k);
      forall i | 0 <= i < |ps|
        ensures i in slots'[k] <==> Listed(ps'[i], k)
      {
        assert i != q ==> (Listed(ps'[i], k) <==> Listed(ps[i], k));
      }
      SlotMembers(ps', k, slots'[k]);
    }
    SlotsAre(ps', slots');
  }

  lemma SlotsAre(ps: seq<Page>, slots: seq<seq<nat>>)
    requires |slots| == PAGE_SHIFT - MIN_SHIFT && forall k :: 0 <= k < |slots| ==> SlotOk(ps, k, slots[k])
    ensures SlotsOk(ps, slots)
  {
  }

  lemma {:induction false} SlotsSame(ps: seq<Page>, ps': seq<Page>, slots: seq<seq<nat>>, q: nat)
    requires SlotsOk(ps, slots) && SameChunks(ps, ps', q) && !ps[q].Chunked? && !ps'[q].Chunked?
    ensures SlotsOk(ps', slots)
  {
    hide HasClear, NoDups;
    forall k | 0 <= k < |slots|
      ensures SlotOk(ps', k, slots[k])
    {
      assert SlotOk(ps, k, slots[k]);
      assert forall i :: 0 <= i < |ps| ==> (Listed(ps'[i], k) <==> Listed(ps[i], k));
    }
  }

  // ---------------------------------------------------------------- the steps on whole pages

  lemma {:induction false} Disturbed(ps: seq<Page>, owner: seq<nat>, q: nat, ps': seq<Page>)
    requires Tiled(ps, owner) && q < |ps| && !IsTail(ps[q]) && |ps'| == |ps|
    requires forall j :: 0 <= j < |ps| && !(q <= j < q + Extent(ps[q])) ==> ps'[j] == ps[j]
    requires forall j :: 0 <= j < |ps| && q < j < q + Extent(ps[q]) ==> !HasBlocks(ps'[j])
    ensures SameElsewhere(ps, ps', q) && SameChunks(ps, ps', q)
  {
    RunTails(ps, owner, q);
  }

  /** A block where there was none on the page. */
  lemma {:induction false} TakenBlocks(ps: seq<Page>, q: nat, k: nat)
    requires q < |ps| && ps[q].FreeRun? && 0 < k <= ps[q].run
    ensures var ps', p0 := TakeRun(ps, q, k), q * PAGE_SIZE;
            SameButOne(ps, ps', q, p0) && IsBlock(ps', p0) && BlockSize(ps', p0) == k * PAGE_SIZE && !IsBlock(ps, p0)
  {
  }

  lemma {:induction false} TakenChunksOk(ps: seq<Page>, q: nat, k: nat)
    requires ChunksOk(ps) && q < |ps| && ps[q].FreeRun? && k <= ps[q].run
    ensures ChunksOk(TakeRun(ps, q, k))
  {
    hide ChunkOk;
  }

  /** alloc of whole pages. */
  lemma {:induction false} TakenGood(ps: seq<Page>, owner: seq<nat>, free: seq<nat>, slots: seq<seq<nat>>,
                                     live: map<nat, nat>,
                                     x: nat, k: nat, size: nat)
    requires Good(ps, owner, free, slots, live) && x < |free| && free[x] < |ps| && ps[free[x]].FreeRun?
    requires 0 < k <= ps[free[x]].run && size <= k * PAGE_SIZE
    ensures var q := free[x];
            && q * PAGE_SIZE !in live
            && Good(TakeRun(ps, q, k), TakeOwner(owner, q, k, ps[q].run), FreeTaken(ps, free, x, k), slots,
                    live[q * PAGE_SIZE := size])
  {
    hide Tiled, ChunksOk, FreeOk, SlotsOk, LiveOk, IsBlock, SameElsewhere, SameButOne, SameChunks, FreeTaken, TakeOwner;
    var q := free[x];
    var ps' := TakeRun(ps, q, k);
    TakeRunTiled(ps, owner, q, k);
    TakenFreeOk(ps, owner, free, x, k);
    TakenChunksOk(ps, q, k);
    RunTails(ps, owner, q);
    Disturbed(ps, owner, q, ps');
    SlotsSame(ps, ps', slots, q);
    TakenBlocks(ps, q, k);
    NotLive(ps, live, q * PAGE_SIZE);
    AddBlock(ps, ps', live, q, q * PAGE_SIZE, size);
  }

  lemma NotLive(ps: seq<Page>, live: map<nat, nat>, p: nat)
    requires LiveOk(ps, live)
    ensures p in live <==> IsBlock(ps, p)
  {
  }

  lemma {:induction false} ReturnedBlocks(ps: seq<Page>, q: nat)
    requires q < |ps| && ps[q].BusyRun?
    ensures var ps', p0 := ReturnRun(ps, q, ps[q].run), q * PAGE_SIZE;
            SameButOne(ps, ps', q, p0) && !IsBlock(ps', p0)
  {
  }

  lemma {:induction false} ReturnedChunksOk(ps: seq<Page>, q: nat, k: nat)
    requires ChunksOk(ps) && q < |ps|
    ensures ChunksOk(ReturnRun(ps, q, k))
  {
    hide ChunkOk;
  }

  /** free of whole pages. */
  lemma {:induction false} ReturnedGood(ps: seq<Page>, owner: seq<nat>, free: seq<nat>, slots: seq<seq<nat>>,
                                        live: map<nat, nat>, q: nat)
    requires Good(ps, owner, free, slots, live) && q < |ps| && ps[q].BusyRun?
    ensures Good(ReturnRun(ps, q, ps[q].run), owner, [q] + free, slots, live - {q * PAGE_SIZE})
  {
    hide Tiled, ChunksOk, FreeOk, SlotsOk, LiveOk, IsBlock, SameElsewhere, SameButOne, SameChunks;
    var ps' := ReturnRun(ps, q, ps[q].run);
    ReturnRunTiled(ps, owner, q);
    ReturnedFreeOk(ps, owner, free, q);
    ReturnedChunksOk(ps, q, ps[q].run);
    RunTails(ps, owner, q);
    Disturbed(ps, owner, q, ps');
    SlotsSame(ps, ps', slots, q);
    ReturnedBlocks(ps, q);
    DropBlock(ps, ps', live, q, q * PAGE_SIZE);
  }

  // ---------------------------------------------------------------- the steps on chunks

  /** A page newly chunked: its reserved chunks and the first one served. */
  function FreshPage(shift: nat): (pg: Page)
    requires IsShift(shift)
    ensures pg.Chunked? && pg.shift == shift && |pg.used| == Chunks(shift) && pg.linked
    ensures forall c :: 0 <= c < |pg.used| ==> (pg.used[c] <==> c <= Reserved(shift))
  {
    Chunked(shift, seq(Chunks(shift), c => c <= Reserved(shift)), true)
  }

  function Marked(pg: Page, c: nat): Page
    requires pg.Chunked? && c < |pg.used|
  {
    var used := pg.used[c := true];
    pg.(used := used, linked := HasClear(used))
  }

  function Cleared(pg: Page, c: nat): Page
    requires pg.Chunked? && c < |pg.used|
  {
    pg.(used := pg.used[c := false], linked := true)
  }

  lemma {:induction false} FreshOk(shift: nat)
    requires IsShift(shift)
    ensures ChunkOk(FreshPage(shift)) && HasClear(FreshPage(shift).used)
  {
    ShiftTable(shift);
    var pg := FreshPage(shift);
    hide FreshPage, Pow2, Reserved;
    assert !pg.used[Reserved(shift) + 1];
    assert IsLive(pg, Reserved(shift));
  }

  lemma {:induction false} MarkedOk(pg: Page, c: nat)
    requires ChunkOk(pg) && c < |pg.used| && !pg.used[c]
    ensures ChunkOk(Marked(pg, c)) && Reserved(pg.shift) <= c
  {
    hide Reserved;
    var d: nat :| IsLive(pg, d);
    assert IsLive(Marked(pg, c), d);
  }

  lemma {:induction false} ClearedOk(pg: Page, c: nat)
    requires ChunkOk(pg) && IsLive(pg, c)
    ensures HasClear(Cleared(pg, c).used)
    ensures ChunkOk(Cleared(pg, c)) <==> HasLive(Cleared(pg, c))
  {
    hide Reserved;
    assert !Cleared(pg, c).used[c];
  }

  lemma {:induction false} ChunkOf(p: nat, q: nat, shift: nat)
    requires PageOf(p) == q && Offset(p) % ChunkSize(shift) == 0
    ensures p == ChunkAt(q, shift, Offset(p) / ChunkSize(shift))
  {
    ChunkOfOffset(Offset(p), ChunkSize(shift));
  }

  /** Blocks of a page whose chunks are live as before, but for c. */
  lemma {:induction false} ChunkBlocks(ps: seq<Page>, ps': seq<Page>, q: nat, c: nat)
    requires q < |ps| == |ps'| && ps'[q].Chunked? && IsShift(ps'[q].shift) && c < Chunks(ps'[q].shift)
    requires ps[q].FreeRun? || (ps[q].Chunked? && ps[q].shift == ps'[q].shift)
    requires forall d: nat :: d != c ==> (IsLive(ps'[q], d) <==> IsLive(ps[q], d))
    ensures var p0 := ChunkAt(q, ps'[q].shift, c);
            && SameButOne(ps, ps', q, p0)
            && (IsBlock(ps', p0) <==> IsLive(ps'[q], c)) && (IsBlock(ps, p0) <==> IsLive(ps[q], c))
            && (IsBlock(ps', p0) ==> BlockSize(ps', p0) == ChunkSize(ps'[q].shift))
  {
    hide IsLive, ChunkSize, ChunkAt, Chunks, Reserved;
    var shift := ps'[q].shift;
    ChunkAddress(q, shift, c);
    var p0 := ChunkAt(q, shift, c);
    assert !IsLive(ps[q], c) || ps[q].Chunked? by {
      LiveIsChunked(ps[q], c);
    }
    forall p: nat | PageOf(p) == q && p != p0
      ensures (IsBlock(ps', p) <==> IsBlock(ps, p)) && (IsBlock(ps, p) ==> BlockSize(ps', p) == BlockSize(ps, p))
    {
      if Offset(p) % ChunkSize(shift) == 0 {
        ChunkOf(p, q, shift);
        LiveIsChunked(ps[q], Offset(p) / ChunkSize(shift));
      }
    }
  }

  lemma LiveIsChunked(pg: Page, c: nat)
    ensures IsLive(pg, c) ==> pg.Chunked?
  {
  }

  /** A fresh page for an empty class, serving its first chunk. */
  lemma {:induction false} ChunkedGood(ps: seq<Page>, owner: seq<nat>, free: seq<nat>, slots: seq<seq<nat>>,
                                       live: map<nat, nat>,
                                       x: nat, shift: nat, size: nat)
    requires Good(ps, owner, free, slots, live) && x < |free| && free[x] < |ps| && ps[free[x]].FreeRun?
    requires 0 < ps[free[x]].run
    requires IsShift(shift) && size <= ChunkSize(shift) && |slots| == PAGE_SHIFT - MIN_SHIFT
    requires slots[shift - MIN_SHIFT] == []
    ensures var q := free[x];
            var p0 := ChunkAt(q, shift, Reserved(shift));
            && p0 !in live
            && Good(TakeRun(ps, q, 1)[q := FreshPage(shift)], TakeOwner(owner, q, 1, ps[q].run),
                    FreeTaken(ps, free, x, 1),
                    slots[shift - MIN_SHIFT := [q]], live[p0 := size])
  {
    hide Tiled, ChunksOk, FreeOk, SlotsOk, LiveOk, IsBlock, SameElsewhere, SameButOne, SameChunks, FreeTaken, TakeOwner,
         FreshPage, Reserved, ChunkAt, ChunkSize, Chunks, ChunkOk, HasClear, IsLive, NoDups;
    var q := free[x];
    var mid := TakeRun(ps, q, 1);
    var ps' := mid[q := FreshPage(shift)];
    TakeRunTiled(ps, owner, q, 1);
    ChunkedTiled(mid, TakeOwner(owner, q, 1, ps[q].run), q, FreshPage(shift));
    TakenFreeOk(ps, owner, free, x, 1);
    FreeSame(mid, FreeTaken(ps, free, x, 1), q, FreshPage(shift));
    TakenChunksOk(ps, q, 1);
    FreshOk(shift);
    ChunksReplaced(mid, q, FreshPage(shift));
    RunTails(ps, owner, q);
    Disturbed(ps, owner, q, ps');
    SlotsAt(ps, slots, shift - MIN_SHIFT);
    OneElement(q);
    SlotsChanged(ps, ps', slots, q, shift - MIN_SHIFT, [q]);
    FreshLive(shift);
    NoneLive(ps[q]);
    ChunkBlocks(ps, ps', q, Reserved(shift));
    NotLive(ps, live, ChunkAt(q, shift, Reserved(shift)));
    AddBlock(ps, ps', live, q, ChunkAt(q, shift, Reserved(shift)), size);
  }

  lemma NoneLive(pg: Page)
    requires !pg.Chunked?
    ensures forall d: nat :: !IsLive(pg, d)
  {
  }

  lemma OneElement(q: nat)
    ensures NoDups([q])
  {
  }

  lemma {:induction false} FreshLive(shift: nat)
    requires IsShift(shift)
    ensures Reserved(shift) < Chunks(shift)
    ensures forall d: nat :: IsLive(FreshPage(shift), d) <==> d == Reserved(shift)
  {
    ShiftTable(shift);
    hide Reserved, Chunks;
  }

  /** A page that is not a free run before or after is no business of the free list. */
  lemma {:induction false} FreeSame(ps: seq<Page>, free: seq<nat>, q: nat, pg: Page)
    requires FreeOk(ps, free) && q < |ps| && !ps[q].FreeRun? && !pg.FreeRun?
    ensures FreeOk(ps[q := pg], free)
  {
    hide NoDups;
  }

  lemma {:induction false} ChunksReplaced(ps: seq<Page>, q: nat, pg: Page)
    requires ChunksOk(ps) && q < |ps| && ChunkOk(pg)
    ensures ChunksOk(ps[q := pg])
  {
    hide ChunkOk;
  }

  /** Serving a chunk of a listed page. */
  lemma {:induction false} MarkedGood(ps: seq<Page>, owner: seq<nat>, free: seq<nat>, slots: seq<seq<nat>>,
                                      live: map<nat, nat>,
                                      q: nat, c: nat, size: nat, l: seq<nat>)
    requires Good(ps, owner, free, slots, live) && q < |ps| && ps[q].Chunked? && IsShift(ps[q].shift)
    requires c < |ps[q].used| && !ps[q].used[c] && size <= ChunkSize(ps[q].shift)
    requires |slots| == PAGE_SHIFT - MIN_SHIFT && slots[ps[q].shift - MIN_SHIFT] != []
    requires slots[ps[q].shift - MIN_SHIFT][0] == q
    requires l == if HasClear(Marked(ps[q], c).used) then slots[ps[q].shift - MIN_SHIFT]
               else slots[ps[q].shift - MIN_SHIFT][1..]
    ensures var p0 := ChunkAt(q, ps[q].shift, c);
            && p0 !in live
            && Good(ps[q := Marked(ps[q], c)], owner, free, slots[ps[q].shift - MIN_SHIFT := l], live[p0 := size])
  {
    hide Tiled, ChunksOk, FreeOk, SlotsOk, LiveOk, IsBlock, SameElsewhere, SameButOne, SameChunks, TakeOwner,
         Reserved, ChunkAt, ChunkSize, Chunks, ChunkOk, HasClear, IsLive, NoDups;
    var pg := ps[q];
    var slot := pg.shift - MIN_SHIFT;
    var ps' := ps[q := Marked(pg, c)];
    ChunkOkAt(ps, q);
    MarkedOk(pg, c);
    ChunkedTiled(ps, owner, q, Marked(pg, c));
    FreeSame(ps, free, q, Marked(pg, c));
    ChunksReplaced(ps, q, Marked(pg, c));
    ChunkChanged(ps, q, Marked(pg, c));
    SlotsAt(ps, slots, slot);
    TailOfList(slots[slot]);
    SlotsChanged(ps, ps', slots, q, slot, l);
    MarkedLive(pg, c);
    ChunkBlocks(ps, ps', q, c);
    NotLive(ps, live, ChunkAt(q, pg.shift, c));
    AddBlock(ps, ps', live, q, ChunkAt(q, pg.shift, c), size);
  }

  lemma {:induction false} ChunkOkAt(ps: seq<Page>, q: nat)
    requires ChunksOk(ps) && q < |ps| && ps[q].Chunked?
    ensures ChunkOk(ps[q]) && IsShift(ps[q].shift) && |ps[q].used| == Chunks(ps[q].shift)
  {
  }

  lemma {:induction false} ChunkChanged(ps: seq<Page>, q: nat, pg: Page)
    requires q < |ps| && ps[q].Chunked? && pg.Chunked?
    ensures SameElsewhere(ps, ps[q := pg], q) && SameChunks(ps, ps[q := pg], q)
  {
  }

  lemma {:induction false} TailOfList(l: seq<nat>)
    requires NoDups(l) && l != []
    ensures NoDups(l[1..]) && forall i :: i in l[1..] <==> i in l && i != l[0]
  {
    Removed(l, 0);
    assert RemoveAt(l, 0) == l[1..];
  }

  lemma {:induction false} MarkedLive(pg: Page, c: nat)
    requires ChunkOk(pg) && c < |pg.used| && !pg.used[c]
    ensures forall d: nat :: IsLive(Marked(pg, c), d) <==> IsLive(pg, d) || d == c
    ensures !IsLive(pg, c)
  {
    MarkedOk(pg, c);
    hide Reserved;
  }

  lemma {:induction false} ClearedLive(pg: Page, c: nat)
    requires ChunkOk(pg) && c < |pg.used|
    ensures forall d: nat :: IsLive(Cleared(pg, c), d) <==> IsLive(pg, d) && d != c
  {
    hide Reserved;
  }

  /** Freeing a chunk of a page that has another live one. */
  lemma {:induction false} ClearedGood(ps: seq<Page>, owner: seq<nat>, free: seq<nat>, slots: seq<seq<nat>>,
                                       live: map<nat, nat>,
                                       q: nat, c: nat, l: seq<nat>)
    requires Good(ps, owner, free, slots, live) && q < |ps| && ps[q].Chunked? && IsShift(ps[q].shift)
    requires IsLive(ps[q], c) && c < |ps[q].used| && HasLive(Cleared(ps[q], c)) && |slots| == PAGE_SHIFT - MIN_SHIFT
    requires l == if ps[q].linked then slots[ps[q].shift - MIN_SHIFT] else [q] + slots[ps[q].shift - MIN_SHIFT]
    ensures Good(ps[q := Cleared(ps[q], c)], owner, free, slots[ps[q].shift - MIN_SHIFT := l],
                 live - {ChunkAt(q, ps[q].shift, c)})
  {
    hide Tiled, ChunksOk, FreeOk, SlotsOk, LiveOk, IsBlock, SameElsewhere, SameButOne, SameChunks, TakeOwner,
         Reserved, ChunkAt, ChunkSize, Chunks, HasClear, IsLive, NoDups, HasLive;
    var pg := ps[q];
    var slot := pg.shift - MIN_SHIFT;
    var ps' := ps[q := Cleared(pg, c)];
    ChunkOkAt(ps, q);
    ClearedOk(pg, c);
    ChunkedTiled(ps, owner, q, Cleared(pg, c));
    FreeSame(ps, free, q, Cleared(pg, c));
    ChunksReplaced(ps, q, Cleared(pg, c));
    ChunkChanged(ps, q, Cleared(pg, c));
    SlotsAt(ps, slots, slot);
    if !pg.linked {
      Pushed(slots[slot], q);
    }
    SlotsChanged(ps, ps', slots, q, slot, l);
    ClearedLive(pg, c);
    ChunkBlocks(ps, ps', q, c);
    DropBlock(ps, ps', live, q, ChunkAt(q, pg.shift, c));
  }

  /** Freeing the last live chunk of a page: the page leaves its list, if it was on it, and is free. */
  lemma {:induction false} LastClearedGood(ps: seq<Page>, owner: seq<nat>, free: seq<nat>, slots: seq<seq<nat>>,
                                           live: map<nat, nat>,
                                           q: nat, c: nat, l: seq<nat>)
    requires Good(ps, owner, free, slots, live) && q < |ps| && ps[q].Chunked? && IsShift(ps[q].shift)
    requires IsLive(ps[q], c) && c < |ps[q].used| && !HasLive(Cleared(ps[q], c)) && |slots| == PAGE_SHIFT - MIN_SHIFT
    requires NoDups(l) && forall i :: i in l <==> i in slots[ps[q].shift - MIN_SHIFT] && i != q
    ensures Good(ReturnRun(ps, q, 1), owner, [q] + free, slots[ps[q].shift - MIN_SHIFT := l],
                 live - {ChunkAt(q, ps[q].shift, c)})
  {
    hide Tiled, ChunksOk, FreeOk, SlotsOk, LiveOk, IsBlock, SameElsewhere, SameButOne, SameChunks, TakeOwner,
         Reserved, ChunkAt, ChunkSize, Chunks, HasClear, IsLive, NoDups, HasLive;
    var pg := ps[q];
    var slot := pg.shift - MIN_SHIFT;
    var mid := ps[q := Cleared(pg, c)];
    var ps' := ReturnRun(ps, q, 1);
    ChunkOkAt(ps, q);
    ReturnRunTiled(ps, owner, q);
    ReturnedFreeOk(ps, owner, free, q);
    ReturnedChunksOk(ps, q, 1);
    RunTails(ps, owner, q);
    Disturbed(ps, owner, q, ps');
    SlotsAt(ps, slots, slot);
    SlotsChanged(ps, ps', slots, q, slot, l);
    ClearedLive(pg, c);
    OnlyBlock(ps, ps', q, c);
    DropBlock(ps, ps', live, q, ChunkAt(q, pg.shift, c));
  }

  /** A page without another live chunk has no other block. */
  lemma {:induction false} OnlyBlock(ps: seq<Page>, ps': seq<Page>, q: nat, c: nat)
    requires q < |ps| == |ps'| && ps[q].Chunked? && IsShift(ps[q].shift) && ps'[q].FreeRun?
    requires c < |ps[q].used| == Chunks(ps[q].shift) && !HasLive(Cleared(ps[q], c))
    requires forall d: nat :: IsLive(Cleared(ps[q], c), d) <==> IsLive(ps[q], d) && d != c
    ensures SameButOne(ps, ps', q, ChunkAt(q, ps[q].shift, c)) && !IsBlock(ps', ChunkAt(q, ps[q].shift, c))
  {
    hide IsLive, ChunkSize, ChunkAt, Chunks, Reserved;
    var shift := ps[q].shift;
    ChunkAddress(q, shift, c);
    forall p: nat | PageOf(p) == q && p != ChunkAt(q, shift, c)
      ensures !IsBlock(ps, p)
    {
      if Offset(p) % ChunkSize(shift) == 0 {
        ChunkOf(p, q, shift);
        assert !IsLive(Cleared(ps[q], c), Offset(p) / ChunkSize(shift));
      }
    }
  }
}
