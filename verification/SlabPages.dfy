/**
 * The slab's page descriptors as values (src/Slab.h, src/Slab.cpp): runs of free pages, multi-page
 * allocations, and single pages cut into chunks of one size.
 */
module SlabPages {
  import opened Products

  const PAGE_SHIFT := 12
  const PAGE_SIZE := 4096
  const MIN_SHIFT := 3
  const EXACT_SHIFT := 6
  const MAX_SHIFT := 11
  const WORD_BITS := 64

  /**
   * What one descriptor says. A chunked page's bitmap is `used`, kept in the page itself below the
   * exact shift and in the descriptor from there on; `linked` says its next link is not NULL.
   */
  datatype Page =
    | FreeRun(run: nat)
    | FreeTail
    | BusyRun(run: nat)
    | BusyTail
    | Chunked(shift: nat, used: seq<bool>, linked: bool)

  function Pow2(n: nat): (r: nat)
    ensures r > 0
  {
    if n == 0 then 1 else 2 * Pow2(n - 1)
  }

  predicate IsShift(shift: nat) {
    MIN_SHIFT <= shift <= MAX_SHIFT
  }

  function ChunkSize(shift: nat): (r: nat)
    ensures r > 0
  {
    Pow2(shift)
  }

  function Chunks(shift: nat): (r: nat)
    requires IsShift(shift)
    ensures r > 0
  {
    Pow2(PAGE_SHIFT - shift)
  }

  /** How many chunks a page gives to its own bitmap. */
  function Reserved(shift: nat): nat
    requires IsShift(shift)
  {
    if shift < EXACT_SHIFT then
      var n := Chunks(shift) / 8 / ChunkSize(shift);
      if n == 0 then 1 else n
    else 0
  }

  /** The sizes, in numbers. A small page's reserved chunks have room for a bit for each chunk. */
  lemma {:induction false} ShiftTable(shift: nat)
    requires IsShift(shift)
    ensures ChunkSize(shift) * Chunks(shift) == PAGE_SIZE
    ensures 2 <= Chunks(shift) <= 512 && 8 <= ChunkSize(shift) <= 2048
    ensures Reserved(shift) + 1 < Chunks(shift) || (Reserved(shift) == 0 && Chunks(shift) == 2)
    ensures shift < EXACT_SHIFT ==>
              Chunks(shift) % WORD_BITS == 0 && Chunks(shift) <= 8 * ChunkSize(shift) * Reserved(shift)
    ensures shift >= EXACT_SHIFT ==> Chunks(shift) <= WORD_BITS
  {
    assert Pow2(3) == 8 && Pow2(4) == 16 && Pow2(5) == 32;
    assert Pow2(6) == 64 && Pow2(7) == 128 && Pow2(8) == 256;
    assert Pow2(9) == 512 && Pow2(10) == 1024 && Pow2(11) == 2048;
    assert Pow2(1) == 2 && Pow2(2) == 4;
    hide Pow2;
    if shift <= 5 {
      assert shift == 3 || shift == 4 || shift == 5;
    } else if shift <= 8 {
      assert shift == 6 || shift == 7 || shift == 8;
    } else {
      assert shift == 9 || shift == 10 || shift == 11;
    }
  }

  /** The classes, in numbers: chunks of 8 to 2048 bytes, and what the small ones give to their bitmaps. */
  lemma {:induction false} ClassTable()
    ensures ChunkSize(3) == 8 && ChunkSize(4) == 16 && ChunkSize(5) == 32 && ChunkSize(6) == 64
    ensures ChunkSize(7) == 128 && ChunkSize(8) == 256 && ChunkSize(9) == 512 && ChunkSize(10) == 1024
    ensures ChunkSize(11) == 2048
    ensures Reserved(3) == 8 && Reserved(4) == 2 && Reserved(5) == 1
    ensures forall shift :: 6 <= shift <= 11 ==> Reserved(shift) == 0
  {
    assert Pow2(3) == 8 && Pow2(4) == 16 && Pow2(5) == 32;
    assert Pow2(6) == 64 && Pow2(7) == 128 && Pow2(8) == 256;
    assert Pow2(9) == 512 && Pow2(10) == 1024 && Pow2(11) == 2048;
  }

  /** A small page gives its bitmap the fewest chunks that have a bit for each chunk; a page whose bits fit
      one word keeps them in its descriptor. */
  lemma {:induction false} ReservedIsLeast(shift: nat)
    requires IsShift(shift)
    ensures shift < EXACT_SHIFT ==>
              8 * ChunkSize(shift) * (Reserved(shift) - 1) < Chunks(shift) <= 8 * ChunkSize(shift) * Reserved(shift)
    ensures Reserved(shift) == 0 <==> Chunks(shift) <= WORD_BITS
  {
    ClassTable();
    ShiftTable(shift);
    hide Reserved, ChunkSize, Chunks;
    if shift < EXACT_SHIFT {
      assert shift == 3 || shift == 4 || shift == 5;
      assert Chunks(3) == 512 && Chunks(4) == 256 && Chunks(5) == 128;
    } else {
      assert 6 <= shift <= 11;
    }
  }

  /** The smallest class whose chunks hold a request. */
  function ShiftFrom(size: nat, shift: nat): (r: nat)
    requires shift <= MAX_SHIFT
    ensures shift <= r <= MAX_SHIFT
    ensures r < MAX_SHIFT ==> size <= Pow2(r)
    decreases MAX_SHIFT - shift
  {
    if size <= Pow2(shift) || shift == MAX_SHIFT then shift else ShiftFrom(size, shift + 1)
  }

  function ShiftOf(size: nat): (r: nat)
    ensures IsShift(r)
  {
    ShiftFrom(size, MIN_SHIFT)
  }

  /** A request below half a page goes to the smallest class that holds it. */
  lemma {:induction false} ShiftOfIsLeast(size: nat)
    requires size < PAGE_SIZE / 2
    ensures size <= ChunkSize(ShiftOf(size))
    ensures forall shift :: IsShift(shift) && size <= ChunkSize(shift) ==> ShiftOf(size) <= shift
  {
    ClassTable();
    ShiftFromLeast(size, MIN_SHIFT);
  }

  lemma {:induction false} ShiftFromLeast(size: nat, shift: nat)
    requires shift <= MAX_SHIFT && size <= Pow2(MAX_SHIFT)
    ensures size <= Pow2(ShiftFrom(size, shift))
    ensures forall s :: shift <= s <= MAX_SHIFT && size <= Pow2(s) ==> ShiftFrom(size, shift) <= s
    decreases MAX_SHIFT - shift
  {
    if size > Pow2(shift) && shift < MAX_SHIFT {
      ShiftFromLeast(size, shift + 1);
    }
  }

  lemma {:induction false} Pow2Mono(a: nat, b: nat)
    requires a <= b
    ensures Pow2(a) <= Pow2(b)
  {
    if a < b {
      Pow2Mono(a, b - 1);
    }
  }

  lemma {:induction false} ShiftFromIs(size: nat, shift: nat, r: nat)
    requires shift <= r <= MAX_SHIFT && size <= Pow2(r) && (r > shift ==> Pow2(r - 1) < size)
    ensures ShiftFrom(size, shift) == r
    decreases r - shift
  {
    if shift < r {
      Pow2Mono(shift, r - 1);
      ShiftFromIs(size, shift + 1, r);
    }
  }

  // ---------------------------------------------------------------- runs

  /** How many pages the run starting at a descriptor takes. */
  function Extent(p: Page): nat {
    match p
    case FreeRun(run) => run
    case BusyRun(run) => run
    case Chunked(_, _, _) => 1
    case _ => 0
  }

  predicate IsTail(p: Page) {
    p.FreeTail? || p.BusyTail?
  }

  function TailOf(p: Page): Page {
    if p.FreeRun? then FreeTail else BusyTail
  }

  /** The runs partition the pages: owner gives, for every page, where its run starts. */
  ghost predicate Tiled(ps: seq<Page>, owner: seq<nat>) {
    && |owner| == |ps|
    && (forall j :: 0 <= j < |ps| ==>
        owner[j] <= j && owner[j] + Extent(ps[owner[j]]) <= |ps| && j < owner[j] + Extent(ps[owner[j]]))
    && (forall j :: 0 <= j < |ps| ==>
        if IsTail(ps[j]) then owner[j] < j && ps[j] == TailOf(ps[owner[j]]) else owner[j] == j)
    && (forall i, j :: 0 <= i <= j < |ps| && j < i + Extent(ps[i]) ==> owner[j] == i)
  }

  /** allocPages on the free run at q: the first k pages are taken, what is left stays free. */
  function TakeRun(ps: seq<Page>, q: nat, k: nat): (r: seq<Page>)
    requires q < |ps| && ps[q].FreeRun? && k <= ps[q].run
    ensures |r| == |ps|
    ensures forall j :: 0 <= j < |ps| ==> (
      r[j] == if j == q then BusyRun(k)
              else if q < j < q + k then BusyTail
              else if j == q + k && k < ps[q].run then FreeRun(ps[q].run - k)
              else ps[j])
  {
    seq(|ps|, j requires 0 <= j < |ps| =>
      if j == q then BusyRun(k)
      else if q < j < q + k then BusyTail
      else if j == q + k && k < ps[q].run then FreeRun(ps[q].run - k)
      else ps[j])
  }

  /** freePages on the run of k pages at q. */
  function ReturnRun(ps: seq<Page>, q: nat, k: nat): (r: seq<Page>)
    requires q < |ps|
    ensures |r| == |ps|
    ensures forall j :: 0 <= j < |ps| ==> (
      r[j] == if j == q then FreeRun(k) else if q < j < q + k then FreeTail else ps[j])
  {
    seq(|ps|, j requires 0 <= j < |ps| => if j == q then FreeRun(k) else if q < j < q + k then FreeTail else ps[j])
  }

  function TakeOwner(owner: seq<nat>, q: nat, k: nat, run: nat): (r: seq<nat>)
    ensures |r| == |owner|
    ensures forall j :: 0 <= j < |owner| ==> r[j] == if q + k <= j < q + run then q + k else owner[j]
  {
    seq(|owner|, j requires 0 <= j < |owner| => if q + k <= j < q + run then q + k else owner[j])
  }

  /** Taking the front of a free run leaves a partition. */
  lemma {:induction false} TakeRunTiled(ps: seq<Page>, owner: seq<nat>, q: nat, k: nat)
    requires Tiled(ps, owner) && q < |ps| && ps[q].FreeRun? && 0 < k <= ps[q].run
    ensures Tiled(TakeRun(ps, q, k), TakeOwner(owner, q, k, ps[q].run))
  {
    var run := ps[q].run;
    var rs, o := TakeRun(ps, q, k), TakeOwner(owner, q, k, run);
    hide TakeRun, TakeOwner;
    assert owner[q] == q && q + run <= |ps|;
    assert forall j :: 0 <= j < |ps| ==> (owner[j] == q <==> q <= j < q + run);
    forall j | 0 <= j < |ps|
      ensures o[j] <= j && o[j] + Extent(rs[o[j]]) <= |ps| && j < o[j] + Extent(rs[o[j]])
      ensures if IsTail(rs[j]) then o[j] < j && rs[j] == TailOf(rs[o[j]]) else o[j] == j
    {
      if !(q <= j < q + run) {
        assert owner[owner[j]] == owner[j];
      }
    }
    forall i, j | 0 <= i <= j < |ps| && j < i + Extent(rs[i])
      ensures o[j] == i
    {
      if i != q && !(i == q + k && k < run) {
        assert rs[i] == ps[i];
        assert owner[j] == i;
      }
    }
  }

  /** Giving back a busy run, or a chunked page, leaves a partition. */
  lemma {:induction false} ReturnRunTiled(ps: seq<Page>, owner: seq<nat>, q: nat)
    requires Tiled(ps, owner) && q < |ps| && (ps[q].BusyRun? || ps[q].Chunked?)
    ensures Tiled(ReturnRun(ps, q, Extent(ps[q])), owner)
  {
    var run := Extent(ps[q]);
    var rs := ReturnRun(ps, q, run);
    hide ReturnRun;
    assert forall j :: 0 <= j < |ps| ==> (owner[j] == q <==> q <= j < q + run);
    forall j | 0 <= j < |ps|
      ensures owner[j] + Extent(rs[owner[j]]) <= |ps| && j < owner[j] + Extent(rs[owner[j]])
      ensures if IsTail(rs[j]) then owner[j] < j && rs[j] == TailOf(rs[owner[j]]) else owner[j] == j
    {
      assert owner[owner[j]] == owner[j];
    }
    forall i, j | 0 <= i <= j < |ps| && j < i + Extent(rs[i])
      ensures owner[j] == i
    {
    }
  }

  /** Turning a busy run of one page into a chunked page, or changing a chunked page, too. */
  lemma {:induction false} ChunkedTiled(ps: seq<Page>, owner: seq<nat>, q: nat, pg: Page)
    requires Tiled(ps, owner) && q < |ps| && pg.Chunked? && (ps[q] == BusyRun(1) || ps[q].Chunked?)
    ensures Tiled(ps[q := pg], owner)
  {
    assert forall j :: 0 <= j < |ps| && owner[j] == q ==> j == q;
    assert forall j :: 0 <= j < |ps| ==> owner[owner[j]] == owner[j];
  }

  // ---------------------------------------------------------------- chunked pages

  predicate HasClear(used: seq<bool>) {
    exists c :: 0 <= c < |used| && !used[c]
  }

  predicate IsLive(pg: Page, c: nat) {
    pg.Chunked? && IsShift(pg.shift) && Reserved(pg.shift) <= c < |pg.used| && pg.used[c]
  }

  ghost predicate HasLive(pg: Page) {
    exists c: nat :: IsLive(pg, c)
  }

  /** A chunked page keeps its reserved chunks, has a live one, and is linked while one is free. */
  ghost predicate ChunkOk(pg: Page) {
    && pg.Chunked? && IsShift(pg.shift) && |pg.used| == Chunks(pg.shift)
    && (forall c :: 0 <= c < Reserved(pg.shift) && c < |pg.used| ==> pg.used[c])
    && HasLive(pg)
    && (pg.linked <==> HasClear(pg.used))
  }

  ghost predicate ChunksOk(ps: seq<Page>) {
    forall i :: 0 <= i < |ps| && ps[i].Chunked? ==> ChunkOk(ps[i])
  }

  ghost predicate NoDups(l: seq<nat>) {
    forall i, j :: 0 <= i < j < |l| ==> l[i] != l[j]
  }

  /** The free list holds exactly the free runs. */
  ghost predicate FreeOk(ps: seq<Page>, free: seq<nat>) {
    && NoDups(free)
    && (forall i :: i in free ==> i < |ps|)
    && (forall i :: 0 <= i < |ps| ==> (i in free <==> ps[i].FreeRun?))
  }

  /** A class's list holds exactly the pages chunked for it that have a free chunk. */
  ghost predicate SlotOk(ps: seq<Page>, slot: nat, l: seq<nat>) {
    && NoDups(l)
    && (forall i :: i in l ==> i < |ps|)
    && (forall i :: 0 <= i < |ps| ==>
        (i in l <==> ps[i].Chunked? && ps[i].shift == slot + MIN_SHIFT && HasClear(ps[i].used)))
  }

  ghost predicate SlotsOk(ps: seq<Page>, slots: seq<seq<nat>>) {
    |slots| == PAGE_SHIFT - MIN_SHIFT && forall k :: 0 <= k < |slots| ==> SlotOk(ps, k, slots[k])
  }

  // ---------------------------------------------------------------- blocks

  /** Addresses count from start_. */
  function PageOf(p: nat): nat {
    p / PAGE_SIZE
  }

  function Offset(p: nat): nat {
    p % PAGE_SIZE
  }

  /** p is what alloc once returned and nobody has freed. */
  predicate IsBlock(ps: seq<Page>, p: nat) {
    && PageOf(p) < |ps|
    && var pg := ps[PageOf(p)];
       || (pg.BusyRun? && Offset(p) == 0)
       || (pg.Chunked? && Offset(p) % ChunkSize(pg.shift) == 0 && IsLive(pg, Offset(p) / ChunkSize(pg.shift)))
  }

  function BlockSize(ps: seq<Page>, p: nat): nat
    requires IsBlock(ps, p)
  {
    var pg := ps[PageOf(p)];
    if pg.BusyRun? then pg.run * PAGE_SIZE else ChunkSize(pg.shift)
  }

  /** The address of chunk c of page q. */
  function ChunkAt(q: nat, shift: nat, c: nat): nat {
    q * PAGE_SIZE + c * ChunkSize(shift)
  }

  lemma MulMono(a: nat, b: nat, m: nat)
    requires a < b
    ensures a * m + m <= b * m
  {
    assert (a + 1) * m <= b * m;
  }

  /** A chunk's address leads back to its page and its number. */
  lemma {:induction false} ChunkAddress(q: nat, shift: nat, c: nat)
    requires IsShift(shift) && c < Chunks(shift)
    ensures PageOf(ChunkAt(q, shift, c)) == q
    ensures Offset(ChunkAt(q, shift, c)) == c * ChunkSize(shift)
    ensures Offset(ChunkAt(q, shift, c)) % ChunkSize(shift) == 0
    ensures Offset(ChunkAt(q, shift, c)) / ChunkSize(shift) == c
    ensures Offset(ChunkAt(q, shift, c)) + ChunkSize(shift) <= PAGE_SIZE
  {
    ShiftTable(shift);
    MulMono(c, Chunks(shift), ChunkSize(shift));
    DivMod(c, ChunkSize(shift));
  }

  lemma DivMod(c: nat, m: nat)
    requires m > 0
    ensures c * m / m == c && c * m % m == 0
  {
    var d := c * m / m;
    assert c * m == d * m + c * m % m;
    if d < c {
      MulMono(d, c, m);
    } else if c < d {
      MulMono(c, d, m);
    }
  }

  lemma ChunkOfOffset(o: nat, m: nat)
    requires m > 0 && o % m == 0
    ensures o == o / m * m
  {
  }

  /** A live block lies in the region, and in its own run's pages. */
  lemma {:induction false} BlockInRun(ps: seq<Page>, owner: seq<nat>, p: nat)
    requires Tiled(ps, owner) && ChunksOk(ps) && IsBlock(ps, p)
    ensures owner[PageOf(p)] == PageOf(p)
    ensures p + BlockSize(ps, p) <= (PageOf(p) + Extent(ps[PageOf(p)])) * PAGE_SIZE <= |ps| * PAGE_SIZE
  {
    var q := PageOf(p);
    var pg := ps[q];
    if pg.Chunked? {
      ChunkOfOffset(Offset(p), ChunkSize(pg.shift));
      ChunkAddress(q, pg.shift, Offset(p) / ChunkSize(pg.shift));
    }
  }

  lemma {:induction false} MultiplesApart(a: nat, b: nat, m: nat)
    requires m > 0 && a % m == 0 && b % m == 0 && a < b
    ensures a + m <= b
  {
    ChunkOfOffset(a, m);
    ChunkOfOffset(b, m);
    if b / m <= a / m {
      MulLe(m, b / m, a / m);
    } else {
      MulMono(a / m, b / m, m);
    }
  }

  lemma {:induction false} RunsApart(ps: seq<Page>, owner: seq<nat>, q: nat, r: nat)
    requires Tiled(ps, owner) && q < r < |ps| && owner[r] == r
    ensures q + Extent(ps[q]) <= r
  {
  }

  /** Two live blocks never overlap. */
  lemma {:induction false} BlocksDisjoint(ps: seq<Page>, owner: seq<nat>, a: nat, b: nat)
    requires Tiled(ps, owner) && ChunksOk(ps) && IsBlock(ps, a) && IsBlock(ps, b) && a < b
    ensures a + BlockSize(ps, a) <= b
  {
    hide Tiled, ChunksOk, IsLive;
    var q, r := PageOf(a), PageOf(b);
    BlockInRun(ps, owner, a);
    BlockInRun(ps, owner, b);
    if q < r {
      RunsApart(ps, owner, q, r);
    } else {
      assert q == r;
      SamePage(a, b);
      if ps[q].Chunked? {
        MultiplesApart(Offset(a), Offset(b), ChunkSize(ps[q].shift));
      }
    }
  }

  lemma SamePage(a: nat, b: nat)
    requires a < b && PageOf(a) == PageOf(b)
    ensures Offset(a) < Offset(b) && b - a == Offset(b) - Offset(a)
  {
  }

  /** No live block of a small page overlaps the bytes of the page's own bitmap, a bit for each chunk. */
  lemma {:induction false} BlockAboveBitmap(ps: seq<Page>, p: nat)
    requires ChunksOk(ps) && IsBlock(ps, p) && ps[PageOf(p)].Chunked? && ps[PageOf(p)].shift < EXACT_SHIFT
    ensures PageOf(p) * PAGE_SIZE + Chunks(ps[PageOf(p)].shift) / 8 <= p
  {
    var pg := ps[PageOf(p)];
    assert ChunkOk(pg);
    assert Reserved(pg.shift) <= Offset(p) / ChunkSize(pg.shift);
    hide ChunksOk, ChunkOk, IsBlock, IsLive, ChunkSize, Chunks, Reserved, Pow2;
    ShiftTable(pg.shift);
    BelowChunk(Offset(p), ChunkSize(pg.shift), Reserved(pg.shift), Chunks(pg.shift));
  }

  lemma BelowChunk(o: nat, m: nat, r: nat, n: nat)
    requires m > 0 && r <= o / m && n <= 8 * m * r
    ensures n / 8 <= o
  {
    MulLe(m, r, o / m);
    assert o / m * m <= o;
    assert 8 * m * r == 8 * (m * r);
  }
}
