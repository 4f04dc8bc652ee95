/** What clients of the slab can rely on over any run of alloc and free, and what slabStat counts. */
module SlabRuns {
  import opened Keys
  import opened SlabPages
  import opened SlabSteps
  import opened Slab

  /** Live blocks never overlap and lie in the region, whole requests long. */
  lemma {:induction false} LiveBlocksApart(s: Slab, a: nat, b: nat)
    requires s.Valid() && a in s.live && b in s.live && a < b
    ensures a + s.live[a] <= b && b + s.live[b] <= s.pages.Length * PAGE_SIZE
  {
    var ps := s.pages[..];
    hide Good, Tiled, ChunksOk, FreeOk, SlotsOk;
    GoodParts(ps, s.owner, s.free, s.slots, s.live);
    BlocksDisjoint(ps, s.owner, a, b);
    BlockInRun(ps, s.owner, b);
  }

  /** Every live request stays clear of every small page's bitmap, which has a bit for each chunk: one on
      that page lies beyond it, any other ends before the page or starts behind it. */
  lemma {:induction false} BitmapIsSafe(s: Slab, p: nat, q: nat)
    requires s.Valid() && p in s.live && q < s.pages.Length
    requires s.pages[q].Chunked? && IsShift(s.pages[q].shift) && s.pages[q].shift < EXACT_SHIFT
    ensures var bitmapEnd := q * PAGE_SIZE + Chunks(s.pages[q].shift) / 8;
            && (PageOf(p) == q ==> bitmapEnd <= p)
            && (PageOf(p) != q ==> p + s.live[p] <= q * PAGE_SIZE || bitmapEnd <= p)
  {
    var ps := s.pages[..];
    hide Good, Tiled, ChunksOk, FreeOk, SlotsOk;
    GoodParts(ps, s.owner, s.free, s.slots, s.live);
    ShiftTable(ps[q].shift);
    if PageOf(p) == q {
      BlockAboveBitmap(ps, p);
    } else if PageOf(p) < q {
      OwnsItself(ps, s.owner, q);
      BlockInRun(ps, s.owner, p);
      RunsApart(ps, s.owner, PageOf(p), q);
    }
  }

  lemma OwnsItself(ps: seq<Page>, owner: seq<nat>, q: nat)
    requires Tiled(ps, owner) && q < |ps| && ps[q].Chunked?
    ensures owner[q] == q
  {
  }

  /** The first page of a run is in use exactly when a live block starts on it: whole pages come back
      when they are freed, a chunked page when its last live chunk is. */
  lemma {:induction false} InUseWhileLive(s: Slab, q: nat)
    requires s.Valid() && q < s.pages.Length
    ensures HasBlocks(s.pages[q]) <==> exists p :: p in s.live && PageOf(p) == q
  {
    var ps := s.pages[..];
    hide Good, Tiled, FreeOk, SlotsOk;
    GoodParts(ps, s.owner, s.free, s.slots, s.live);
    if ps[q].BusyRun? {
      assert IsBlock(ps, q * PAGE_SIZE);
      assert PageOf(q * PAGE_SIZE) == q;
    } else if ps[q].Chunked? {
      LiveChunkIsBlock(ps, q);
      var c: nat :|
        IsLive(ps[q], c) && IsBlock(ps, ChunkAt(q, ps[q].shift, c)) && PageOf(ChunkAt(q, ps[q].shift, c)) == q;
      assert ChunkAt(q, ps[q].shift, c) in s.live;
    } else {
      assert forall p :: p in s.live ==> IsBlock(ps, p);
    }
  }

  lemma {:induction false} LiveChunkIsBlock(ps: seq<Page>, q: nat)
    requires ChunksOk(ps) && q < |ps| && ps[q].Chunked?
    ensures exists c: nat ::
              IsLive(ps[q], c) && IsBlock(ps, ChunkAt(q, ps[q].shift, c)) && PageOf(ChunkAt(q, ps[q].shift, c)) == q
  {
    ChunkOkAt(ps, q);
    hide Chunks, ChunkSize, Reserved, ChunkAt;
    var c: nat :| IsLive(ps[q], c);
    ChunkAddress(q, ps[q].shift, c);
  }

  // ---------------------------------------------------------------- runs

  /** One call. A client frees only what it holds: any other address it leaves alone. */
  datatype SlabOp = Alloc(size: nat) | Free(p: nat)

  function AfterOp(held: map<nat, nat>, op: SlabOp, answer: Option<nat>): map<nat, nat> {
    match op
    case Alloc(size) => if answer.Some? then held[answer.value := size] else held
    case Free(p) => held - {p}
  }

  /** The blocks a client holds after calls with these answers, and the sizes it asked for. */
  function Held(ops: seq<SlabOp>, answers: seq<Option<nat>>): map<nat, nat>
    requires |ops| == |answers|
    decreases |ops|
  {
    if ops == [] then map[]
    else AfterOp(Held(ops[..|ops| - 1], answers[..|ops| - 1]), ops[|ops| - 1], answers[|ops| - 1])
  }

  /** What a call answers and does. */
  ghost predicate OpStep(a: State, op: SlabOp, answer: Option<nat>, b: State) {
    match op
    case Alloc(size) => (answer == None <==> Refused(a, size)) && Allocated(a, size, answer, b)
    case Free(p) => answer == None && if p in a.live then Freed(a, p, b) else b == a
  }

  predicate Apart(p: nat, size: nat, q: nat, other: nat) {
    p != q && (p + size <= q || q + other <= p)
  }

  /** A block in a region of n pages that overlaps none of those held. */
  ghost predicate NewBlock(held: map<nat, nat>, p: nat, size: nat, n: nat) {
    p + size <= n * PAGE_SIZE && forall q :: q in held ==> Apart(p, size, q, held[q])
  }

  lemma {:induction false} AllocIsNew(s: Slab, held: map<nat, nat>, p: nat, size: nat)
    requires s.Valid() && p !in held && s.live == held[p := size]
    ensures NewBlock(held, p, size, s.pages.Length)
  {
    hide s.Valid;
    forall q | q in held
      ensures Apart(p, size, q, held[q])
    {
      LiveBlocksApart(s, if p < q then p else q, if p < q then q else p);
    }
    InRegion(s, p);
  }

  lemma {:induction false} InRegion(s: Slab, p: nat)
    requires s.Valid() && p in s.live
    ensures p + s.live[p] <= s.pages.Length * PAGE_SIZE
  {
    hide Good, Tiled, ChunksOk, FreeOk, SlotsOk;
    GoodParts(s.pages[..], s.owner, s.free, s.slots, s.live);
    BlockInRun(s.pages[..], s.owner, p);
  }

  method RunOp(s: Slab, op: SlabOp, held: map<nat, nat>) returns (answer: Option<nat>, held': map<nat, nat>)
    requires s.Valid() && s.live == held
    modifies s, s.pages
    ensures s.Valid() && s.live == held' == AfterOp(held, op, answer)
    ensures OpStep(old(s.Snap()), op, answer, s.Snap())
    ensures answer.Some? ==> op.Alloc? && NewBlock(held, answer.value, op.size, s.pages.Length)
  {
    hide s.Valid, NewBlock, Refused, Freed, ServesRun, ServesChunk, ServesFresh;
    answer, held' := None, held;
    match op
    case Alloc(size) =>
      answer := s.Alloc(size);
      if answer.Some? {
        held' := held[answer.value := size];
        AllocIsNew(s, held, answer.value, size);
      }
    case Free(p) =>
      if p in held {
        s.Free(p);
        held' := held - {p};
      }
  }

  /**
   * The answers so far, with the state before each call and the one at the end. Each state is what the
   * call makes of the one before, what is live in it is what the client then holds, an answered alloc is
   * a block that overlaps none of those held, and an alloc is refused exactly when its state says so.
   */
  ghost predicate Recorded(n: nat, ops: seq<SlabOp>, answers: seq<Option<nat>>, trace: seq<State>)
    requires n > 0
  {
    && |answers| <= |ops| && |trace| == |answers| + 1 && trace[0] == Untouched(n)
    && (forall i :: 0 <= i < |answers| ==> OpStep(trace[i], ops[i], answers[i], trace[i + 1]))
    && (forall i :: 0 <= i <= |answers| ==> trace[i].live == Held(ops[..i], answers[..i]))
    && (forall i :: 0 <= i < |answers| && answers[i].Some? ==>
          ops[i].Alloc? && NewBlock(trace[i].live, answers[i].value, ops[i].size, n))
  }

  lemma {:induction false} RecordedNext(n: nat, ops: seq<SlabOp>, answers: seq<Option<nat>>, trace: seq<State>,
                                        answer: Option<nat>, b: State)
    requires n > 0 && Recorded(n, ops, answers, trace) && |answers| < |ops|
    requires var a, op := trace[|answers|], ops[|answers|];
             && OpStep(a, op, answer, b) && b.live == AfterOp(a.live, op, answer)
             && (answer.Some? ==> op.Alloc? && NewBlock(a.live, answer.value, op.size, n))
    ensures Recorded(n, ops, answers + [answer], trace + [b])
  {
    hide OpStep, NewBlock, AfterOp;
    var k := |answers|;
    var answers', trace' := answers + [answer], trace + [b];
    assert ops[..k + 1] == ops[..k] + [ops[k]] && answers'[..k + 1] == answers[..k] + [answer];
    HeldNext(ops[..k], answers[..k], ops[k], answer);
    forall i | 0 <= i <= k + 1
      ensures trace'[i].live == Held(ops[..i], answers'[..i])
    {
      if i <= k {
        assert answers'[..i] == answers[..i] && trace[i].live == Held(ops[..i], answers[..i]);
      }
    }
    assert forall i :: 0 <= i < k ==> OpStep(trace[i], ops[i], answers[i], trace[i + 1]);
  }

  lemma RecordedNothing(n: nat, ops: seq<SlabOp>)
    requires n > 0
    ensures Recorded(n, ops, [], [Untouched(n)])
  {
  }

  lemma RecordedEnd(n: nat, ops: seq<SlabOp>, answers: seq<Option<nat>>, trace: seq<State>)
    requires n > 0 && Recorded(n, ops, answers, trace)
    ensures |trace| == |answers| + 1
    ensures |answers| == |ops| ==> trace[|ops|].live == Held(ops, answers)
  {
    if |answers| == |ops| {
      assert ops[..|ops|] == ops && answers[..|ops|] == answers;
    }
  }

  /** Any run on a new slab goes by the record, and what is live at its end is what the answers say. */
  method RunAll(n: nat, ops: seq<SlabOp>) returns (s: Slab, answers: seq<Option<nat>>, ghost trace: seq<State>)
    requires n > 0
    ensures s.Valid() && s.pages.Length == n
    ensures |answers| == |ops| && Recorded(n, ops, answers, trace) && trace[|ops|] == s.Snap()
    ensures s.live == Held(ops, answers)
  {
    s := new Slab(n);
    hide *;
    answers, trace := [], [s.Snap()];
    var held: map<nat, nat> := map[];
    RecordedNothing(n, ops);
    while |answers| < |ops|
      invariant fresh(s) && fresh(s.pages) && s.pages.Length == n && s.Valid()
      invariant |answers| <= |ops| && Recorded(n, ops, answers, trace)
      invariant |trace| == |answers| + 1 && trace[|answers|] == s.Snap() && s.Snap().live == s.live == held
    {
      var answer, held' := RunOp(s, ops[|answers|], held);
      LiveIn(s);
      RecordedNext(n, ops, answers, trace, answer, s.Snap());
      answers := answers + [answer];
      trace := trace + [s.Snap()];
      held := held';
    }
    RecordedEnd(n, ops, answers, trace);
  }

  lemma LiveIn(s: Slab)
    ensures s.Snap().live == s.live
  {
  }

  lemma {:induction false} HeldNext(ops: seq<SlabOp>, answers: seq<Option<nat>>, op: SlabOp, answer: Option<nat>)
    requires |ops| == |answers|
    ensures Held(ops + [op], answers + [answer]) == AfterOp(Held(ops, answers), op, answer)
  {
    assert (ops + [op])[..|ops|] == ops && (answers + [answer])[..|ops|] == answers;
  }

  // ---------------------------------------------------------------- freePages to the letter

  /** The memset of freePages clears (k - 1) * 8 bytes where the descriptors after the first take
      (k - 1) * 24 (src/Slab.cpp:503): only the slab words that lie within are zeroed. */
  function ReturnedAsWritten(ps: seq<Page>, q: nat, k: nat): (r: seq<Page>)
    requires q < |ps|
    ensures |r| == |ps|
  {
    seq(|ps|, j requires 0 <= j < |ps| =>
      if j == q then FreeRun(k)
      else if q < j < q + k && (j - q - 1) * 24 + 8 <= (k - 1) * 8 then FreeTail
      else ps[j])
  }

  /** Every descriptor of a freed run says free exactly when the run has at most two pages. */
  lemma {:induction false} FreePagesAsWritten(ps: seq<Page>, owner: seq<nat>, q: nat)
    requires Tiled(ps, owner) && q < |ps| && ps[q].BusyRun?
    ensures ReturnedAsWritten(ps, q, ps[q].run) == ReturnRun(ps, q, ps[q].run) <==> ps[q].run <= 2
  {
    var k := ps[q].run;
    RunTails(ps, owner, q);
    hide Tiled;
    if k > 2 {
      assert ReturnRun(ps, q, k)[q + k - 1] == FreeTail && ReturnedAsWritten(ps, q, k)[q + k - 1] == BusyTail;
    }
  }

  // ---------------------------------------------------------------- slabStat

  datatype Kind = SmallPage | ExactPage | BigPage | BusyPage | FreePage

  function KindOf(pg: Page): Kind {
    match pg
    case FreeRun(_) => FreePage
    case FreeTail => FreePage
    case BusyRun(_) => BusyPage
    case BusyTail => BusyPage
    case Chunked(shift, _, _) =>
      if shift < EXACT_SHIFT then SmallPage else if shift == EXACT_SHIFT then ExactPage else BigPage
  }

  /** How many of the first n pages are of a kind. */
  function CountOf(ps: seq<Page>, kind: Kind, n: nat): (c: nat)
    requires n <= |ps|
    ensures c <= n
  {
    if n == 0 then 0 else CountOf(ps, kind, n - 1) + if KindOf(ps[n - 1]) == kind then 1 else 0
  }

  /** Every page is of one kind. */
  lemma {:induction false} KindsPartition(ps: seq<Page>, n: nat)
    requires n <= |ps|
    ensures CountOf(ps, SmallPage, n) + CountOf(ps, ExactPage, n) + CountOf(ps, BigPage, n)
            + CountOf(ps, BusyPage, n) + CountOf(ps, FreePage, n) == n
  {
    if n > 0 {
      KindsPartition(ps, n - 1);
    }
  }

  lemma {:induction false} CountStretch(ps: seq<Page>, kind: Kind, n: nat, m: nat, pg: Page)
    requires n <= m <= |ps| && forall j :: n <= j < m ==> KindOf(ps[j]) == KindOf(pg)
    ensures CountOf(ps, kind, m) == CountOf(ps, kind, n) + if KindOf(pg) == kind then m - n else 0
    decreases m - n
  {
    if n < m {
      CountStretch(ps, kind, n, m - 1, pg);
    }
  }

  /** What a run adds to the count of a kind. */
  function Share(pg: Page, kind: Kind): nat {
    if KindOf(pg) == kind then Extent(pg) else 0
  }

  /** The run at i, in the counts. */
  lemma {:induction false} CountRun(ps: seq<Page>, owner: seq<nat>, i: nat, kind: Kind)
    requires Tiled(ps, owner) && i < |ps| && !IsTail(ps[i])
    ensures 0 < Extent(ps[i]) && i + Extent(ps[i]) <= |ps|
    ensures CountOf(ps, kind, i + Extent(ps[i])) == CountOf(ps, kind, i) + Share(ps[i], kind)
    ensures i + Extent(ps[i]) < |ps| ==> !IsTail(ps[i + Extent(ps[i])])
  {
    RunTails(ps, owner, i);
    NextRun(ps, owner, i);
    hide Tiled;
    CountStretch(ps, kind, i, i + Extent(ps[i]), ps[i]);
  }

  lemma {:induction false} NextRun(ps: seq<Page>, owner: seq<nat>, i: nat)
    requires Tiled(ps, owner) && i < |ps| && !IsTail(ps[i])
    ensures i + Extent(ps[i]) < |ps| ==> !IsTail(ps[i + Extent(ps[i])])
  {
    var n := i + Extent(ps[i]);
    assert owner[i] == i;
    assert n < |ps| ==> owner[owner[n]] == owner[n];
  }

  /** slabStat's walk. The page counts are those of all pages, so each page is counted exactly once;
      the longest free run is what decides whether whole pages can be had. */
  method Stat(s: Slab) returns (small: nat, exact: nat, big: nat, busy: nat, free: nat, maxFree: nat)
    requires s.Valid()
    ensures var ps := s.pages[..];
            && small == CountOf(ps, SmallPage, |ps|) && exact == CountOf(ps, ExactPage, |ps|)
            && big == CountOf(ps, BigPage, |ps|)
            && busy == CountOf(ps, BusyPage, |ps|) && free == CountOf(ps, FreePage, |ps|)
    ensures small + exact + big + busy + free == s.pages.Length
    ensures forall k: nat :: k > 0 ==> (NoRun(s.pages[..], k) <==> maxFree < k)
  {
    GoodParts(s.pages[..], s.owner, s.free, s.slots, s.live);
    small, exact, big, busy, free, maxFree := Walk(s.pages, s.owner);
    hide *;
    Tallied(s.pages[..], small, exact, big, busy, free, maxFree);
  }

  method Walk(pages: array<Page>, ghost owner: seq<nat>)
    returns (small: nat, exact: nat, big: nat, busy: nat, free: nat, maxFree: nat)
    requires Tiled(pages[..], owner)
    ensures Tally(pages[..], pages.Length, small, exact, big, busy, free, maxFree)
  {
    hide *;
    ghost var ps := pages[..];
    small, exact, big, busy, free, maxFree := 0, 0, 0, 0, 0, 0;
    var i := 0;
    NothingCounted(ps, owner);
    while i < pages.Length
      invariant 0 <= i <= |ps| && (i < |ps| ==> !IsTail(ps[i]))
      invariant Tally(ps, i, small, exact, big, busy, free, maxFree)
    {
      TallyRun(ps, owner, i, small, exact, big, busy, free, maxFree);
      match pages[i]
      case Chunked(shift, used, linked) =>
        if shift < EXACT_SHIFT {
          small := small + 1;
        } else if shift == EXACT_SHIFT {
          exact := exact + 1;
        } else {
          big := big + 1;
        }
        i := i + 1;
      case BusyRun(run) =>
        busy := busy + run;
        i := i + run;
      case FreeRun(run) =>
        if run > maxFree {
          maxFree := run;
        }
        free := free + run;
        i := i + run;
    }
  }

  /** The counts after the runs that start before n. */
  ghost predicate Tally(ps: seq<Page>, n: nat, small: nat, exact: nat, big: nat, busy: nat, free: nat, maxFree: nat)
    requires n <= |ps|
  {
    && small == CountOf(ps, SmallPage, n) && exact == CountOf(ps, ExactPage, n) && big == CountOf(ps, BigPage, n)
    && busy == CountOf(ps, BusyPage, n) && free == CountOf(ps, FreePage, n)
    && IsLongest(ps, maxFree, n)
  }

  lemma {:induction false} TallyRun(ps: seq<Page>, owner: seq<nat>, i: nat, small: nat, exact: nat, big: nat,
                                    busy: nat, free: nat, maxFree: nat)
    requires Tiled(ps, owner) && i < |ps| && !IsTail(ps[i]) && Tally(ps, i, small, exact, big, busy, free, maxFree)
    ensures !ps[i].FreeTail? && !ps[i].BusyTail? && 0 < Extent(ps[i])
    ensures match ps[i]
            case Chunked(shift, _, _) =>
              && i + 1 <= |ps| && (i + 1 < |ps| ==> !IsTail(ps[i + 1]))
              && (shift < EXACT_SHIFT ==> Tally(ps, i + 1, small + 1, exact, big, busy, free, maxFree))
              && (shift == EXACT_SHIFT ==> Tally(ps, i + 1, small, exact + 1, big, busy, free, maxFree))
              && (shift > EXACT_SHIFT ==> Tally(ps, i + 1, small, exact, big + 1, busy, free, maxFree))
            case BusyRun(run) =>
              && 0 < run && i + run <= |ps| && (i + run < |ps| ==> !IsTail(ps[i + run]))
              && Tally(ps, i + run, small, exact, big, busy + run, free, maxFree)
            case FreeRun(run) =>
              && 0 < run && i + run <= |ps| && (i + run < |ps| ==> !IsTail(ps[i + run]))
              && Tally(ps, i + run, small, exact, big, busy, free + run, if run > maxFree then run else maxFree)
            case _ => true
  {
    hide Tiled, CountOf, IsLongest;
    AllCounted(ps, owner, i);
    Longer(ps, owner, maxFree, i);
  }

  lemma {:induction false} Tallied(ps: seq<Page>, small: nat, exact: nat, big: nat, busy: nat, free: nat, maxFree: nat)
    requires Tally(ps, |ps|, small, exact, big, busy, free, maxFree)
    ensures small == CountOf(ps, SmallPage, |ps|) && exact == CountOf(ps, ExactPage, |ps|)
    ensures big == CountOf(ps, BigPage, |ps|)
    ensures busy == CountOf(ps, BusyPage, |ps|) && free == CountOf(ps, FreePage, |ps|)
    ensures small + exact + big + busy + free == |ps|
    ensures forall k: nat :: k > 0 ==> (NoRun(ps, k) <==> maxFree < k)
  {
    KindsPartition(ps, |ps|);
    LongestDecides(ps, maxFree);
  }

  /** m is the longest free run among those that start before n, or 0. */
  ghost predicate IsLongest(ps: seq<Page>, m: nat, n: nat)
    requires n <= |ps|
  {
    && (forall i :: 0 <= i < n && ps[i].FreeRun? ==> ps[i].run <= m)
    && (m > 0 ==> exists i :: 0 <= i < n && ps[i] == FreeRun(m))
  }

  lemma {:induction false} Longer(ps: seq<Page>, owner: seq<nat>, m: nat, i: nat)
    requires Tiled(ps, owner) && i < |ps| && !IsTail(ps[i]) && IsLongest(ps, m, i)
    ensures i + Extent(ps[i]) <= |ps|
    ensures IsLongest(ps, if ps[i].FreeRun? && ps[i].run > m then ps[i].run else m, i + Extent(ps[i]))
  {
    RunTails(ps, owner, i);
    hide Tiled;
  }

  lemma {:induction false} LongestDecides(ps: seq<Page>, m: nat)
    requires IsLongest(ps, m, |ps|)
    ensures forall k: nat :: k > 0 ==> (NoRun(ps, k) <==> m < k)
  {
  }

  lemma NothingCounted(ps: seq<Page>, owner: seq<nat>)
    requires Tiled(ps, owner)
    ensures Tally(ps, 0, 0, 0, 0, 0, 0, 0) && (|ps| > 0 ==> !IsTail(ps[0]))
  {
  }

  lemma {:induction false} AllCounted(ps: seq<Page>, owner: seq<nat>, i: nat)
    requires Tiled(ps, owner) && i < |ps| && !IsTail(ps[i])
    ensures 0 < Extent(ps[i]) && i + Extent(ps[i]) <= |ps|
    ensures i + Extent(ps[i]) < |ps| ==> !IsTail(ps[i + Extent(ps[i])])
    ensures forall kind :: CountOf(ps, kind, i + Extent(ps[i])) == CountOf(ps, kind, i) + Share(ps[i], kind)
  {
    hide Tiled, CountOf, Extent;
    forall kind
      ensures 0 < Extent(ps[i]) && i + Extent(ps[i]) <= |ps|
      ensures i + Extent(ps[i]) < |ps| ==> !IsTail(ps[i + Extent(ps[i])])
      ensures CountOf(ps, kind, i + Extent(ps[i])) == CountOf(ps, kind, i) + Share(ps[i], kind)
    {
      CountRun(ps, owner, i, kind);
    }
    CountRun(ps, owner, i, FreePage);
  }
}
