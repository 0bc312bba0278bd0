/** The allocator that adds pages on demand, over any run of calls. */
module Heap {
  import opened Ranking
  import opened Tallies
  import opened Chunks
  import opened Fragmentation
  import opened Page

  /** The first page, from the given one on, with room for r chunks, and the first place in it. */
  datatype Spot = Spot(page: nat, start: nat)

  function FindSpot(pages: seq<Tables>, r: nat, from: nat): (spot: Option<Spot>)
    requires from <= |pages|
    ensures spot.Some? ==> from <= spot.value.page < |pages| &&
                           FirstFit(pages[spot.value.page].free, r, 0) == Some(spot.value.start)
    ensures spot.Some? ==> forall p :: from <= p < spot.value.page ==> FirstFit(pages[p].free, r, 0) == None
    ensures spot.None? ==> forall p :: from <= p < |pages| ==> FirstFit(pages[p].free, r, 0) == None
    decreases |pages| - from
  {
    if from == |pages| then None
    else
      match FirstFit(pages[from].free, r, 0)
      case Some(i) => Some(Spot(from, i))
      case None => FindSpot(pages, r, from + 1)
  }

  /** How many blocks of r chunks fit side by side in a page. */
  function PerPage(g: Geometry, r: nat): nat
    requires 0 < r
  {
    g.chunks / r
  }

  /** Where a request ends up: in a page there is, at the start of a page added for it, or nowhere. */
  datatype Outcome = Existing(spot: Spot) | Added | Refused

  /** MAXPAGES pages at most; mapped says whether mmap would succeed. */
  function Place(g: Geometry, max: nat, pages: seq<Tables>, size: int, mapped: bool): Outcome {
    if !Acceptable(g, size) then Refused
    else
      match FindSpot(pages, Needed(g, size), 0)
      case Some(spot) => Existing(spot)
      case None => if |pages| < max && mapped then Added else Refused
  }

  ghost predicate PagesValid(g: Geometry, pages: seq<Tables>) {
    forall p :: 0 <= p < |pages| ==> Valid(pages[p]) && |pages[p].free| == g.chunks
  }

  lemma PageTaken(g: Geometry, t: Tables, i: nat, r: nat)
    requires Valid(t) && |t.free| == g.chunks && FreeRun(t.free, i, r) && 0 < r
    ensures Valid(Take(t, i, r)) && |Take(t, i, r).free| == g.chunks
  {
    TakeKeepsValid(t, i, r);
  }

  lemma FreshTaken(g: Geometry, r: nat)
    requires 0 < r <= g.chunks
    ensures FirstFit(Fresh(g.chunks).free, r, 0) == Some(0)
    ensures Valid(Take(Fresh(g.chunks), 0, r)) && |Take(Fresh(g.chunks), 0, r).free| == g.chunks
  {
    FreshValid(g.chunks);
    assert FreeRun(Fresh(g.chunks).free, 0, r);
    PageTaken(g, Fresh(g.chunks), 0, r);
  }

  function AfterAlloc(g: Geometry, max: nat, pages: seq<Tables>, size: int, mapped: bool): (after: seq<Tables>)
    requires PagesValid(g, pages) && |pages| <= max
    ensures PagesValid(g, after) && |pages| <= |after| <= max
  {
    match Place(g, max, pages, size, mapped)
    case Existing(Spot(p, i)) =>
      PageTaken(g, pages[p], i, Needed(g, size));
      pages[p := Take(pages[p], i, Needed(g, size))]
    case Added =>
      FreshTaken(g, Needed(g, size));
      pages + [Take(Fresh(g.chunks), 0, Needed(g, size))]
    case Refused => pages
  }

  /** A dealloc names a page and a byte in it; a pointer outside every page names none of them. */
  function AfterDealloc(g: Geometry, pages: seq<Tables>, page: nat, offset: int): (after: seq<Tables>)
    requires PagesValid(g, pages)
    ensures PagesValid(g, after) && |after| == |pages|
  {
    if page < |pages| then pages[page := Serve(g, pages[page], Page.Dealloc(offset))] else pages
  }

  datatype Request = Alloc(size: int, mapped: bool) | Dealloc(page: nat, offset: int)

  function Serves(g: Geometry, max: nat, pages: seq<Tables>, q: Request): (after: seq<Tables>)
    requires PagesValid(g, pages) && |pages| <= max
    ensures PagesValid(g, after) && |pages| <= |after| <= max
  {
    match q
    case Alloc(size, mapped) => AfterAlloc(g, max, pages, size, mapped)
    case Dealloc(page, offset) => AfterDealloc(g, pages, page, offset)
  }

  /** The pages after init_alloc and then the calls: their number never shrinks. */
  function After(g: Geometry, max: nat, calls: seq<Request>): (pages: seq<Tables>)
    ensures PagesValid(g, pages) && |pages| <= max
    ensures calls != [] ==> |After(g, max, calls[..|calls| - 1])| <= |pages|
  {
    if calls == [] then []
    else Serves(g, max, After(g, max, calls[..|calls| - 1]), calls[|calls| - 1])
  }

  function LiveBlocks(pages: seq<Tables>): nat {
    Tally(pages, Blocks)
  }

  function UsedChunks(pages: seq<Tables>): nat {
    Tally(pages, Used)
  }

  lemma {:induction false} TallyEach(pages: seq<Tables>, w: Tables -> nat, least: nat)
    requires forall p :: 0 <= p < |pages| ==> least <= w(pages[p])
    ensures |pages| * least <= Tally(pages, w)
  {
    if pages != [] {
      assert forall p :: 0 <= p < |pages[1..]| ==> pages[1..][p] == pages[p + 1];
      TallyEach(pages[1..], w, least);
      assert |pages| * least == |pages[1..]| * least + least;
    }
  }

  /** A request refused although mmap would succeed finds all pages mapped, and in each at
      least as many chunks in use as the request fits in it. */
  lemma RefusedMeansUsed(g: Geometry, max: nat, calls: seq<Request>, size: int)
    requires Acceptable(g, size) && Place(g, max, After(g, max, calls), size, true) == Refused
    ensures |After(g, max, calls)| == max
    ensures max * PerPage(g, Needed(g, size)) <= UsedChunks(After(g, max, calls))
  {
    var pages, r := After(g, max, calls), Needed(g, size);
    forall p | 0 <= p < |pages|
      ensures PerPage(g, r) <= Used(pages[p])
    {
      RefusalBound(pages[p], r);
    }
    TallyEach(pages, Used, PerPage(g, r));
  }

  // ---- requests of one size: the footprint

  ghost predicate AllUniform(pages: seq<Tables>, r: nat)
    requires 0 < r
  {
    forall p :: 0 <= p < |pages| ==> Uniform(pages[p], r)
  }

  /** Every allocation asks for the given size. */
  predicate OneSize(calls: seq<Request>, size: int) {
    forall q :: q in calls && q.Alloc? ==> q.size == size
  }

  predicate MmapSucceeds(calls: seq<Request>) {
    forall q :: q in calls && q.Alloc? ==> q.mapped
  }

  /** The most blocks live at any time of the run. */
  function Peak(g: Geometry, max: nat, calls: seq<Request>): nat {
    var live := LiveBlocks(After(g, max, calls));
    if calls == [] then live
    else
      var before := Peak(g, max, calls[..|calls| - 1]);
      if before < live then live else before
  }

  /** How many pages hold that many blocks, with so many to a page. */
  function PagesFor(blocks: nat, perPage: nat): nat
    requires 0 < perPage
  {
    (blocks + perPage - 1) / perPage
  }

  lemma PagesForIff(blocks: nat, perPage: nat, pages: nat)
    requires 0 < perPage
    ensures pages == PagesFor(blocks, perPage) <==> blocks <= pages * perPage < blocks + perPage
  {
    var n := blocks + perPage - 1;
    var q := n / perPage;
    assert n == q * perPage + n % perPage;
    if blocks <= pages * perPage < blocks + perPage {
      assert (pages - q) * perPage == pages * perPage - q * perPage;
      OnlyZeroMultiple(pages - q, perPage);
    }
  }

  lemma AllocKeepsUniform(g: Geometry, max: nat, pages: seq<Tables>, size: int, mapped: bool)
    requires PagesValid(g, pages) && |pages| <= max && Acceptable(g, size) && AllUniform(pages, Needed(g, size))
    ensures AllUniform(AfterAlloc(g, max, pages, size, mapped), Needed(g, size))
  {
    var r := Needed(g, size);
    match Place(g, max, pages, size, mapped)
    case Existing(Spot(p, _)) => TakeKeepsUniform(pages[p], r);
    case Added => Remainder(0, 0, r);
    case Refused =>
  }

  lemma AllocCounts(g: Geometry, max: nat, pages: seq<Tables>, size: int)
    requires PagesValid(g, pages) && |pages| <= max && Acceptable(g, size)
    ensures var after := AfterAlloc(g, max, pages, size, true);
            LiveBlocks(after) == LiveBlocks(pages) + if Place(g, max, pages, size, true) == Refused then 0 else 1
  {
    var r := Needed(g, size);
    match Place(g, max, pages, size, true)
    case Existing(Spot(p, i)) =>
      TakeCounts(pages[p], i, r);
      TallySet(pages, p, Take(pages[p], i, r), Blocks);
    case Added =>
      FreshTaken(g, r);
      FreshValid(g.chunks);
      TakeCounts(Fresh(g.chunks), 0, r);
      TallyZero(Fresh(g.chunks).sizes, IsLive);
      TallyConcat(pages, [Take(Fresh(g.chunks), 0, r)], Blocks);
      assert Tally([Take(Fresh(g.chunks), 0, r)], Blocks) == 1;
    case Refused =>
  }

  lemma DeallocCounts(g: Geometry, pages: seq<Tables>, page: nat, offset: int)
    requires PagesValid(g, pages)
    ensures LiveBlocks(AfterDealloc(g, pages, page, offset)) <= LiveBlocks(pages)
  {
    if page < |pages| {
      var t := pages[page];
      match Target(g, t, offset) {
        case Some(i) => GiveCounts(t, i);
        case None =>
      }
      TallySet(pages, page, Serve(g, t, Page.Dealloc(offset)), Blocks);
    }
  }

  lemma PagesHoldAtMost(g: Geometry, pages: seq<Tables>, r: nat)
    requires 0 < r && PagesValid(g, pages) && AllUniform(pages, r)
    ensures LiveBlocks(pages) <= |pages| * PerPage(g, r)
  {
    forall p | 0 <= p < |pages|
      ensures Blocks(pages[p]) <= PerPage(g, r)
    {
      UniformRefusal(pages[p], r);
    }
    TallyAtMost(pages, Blocks, PerPage(g, r));
  }

  /** Without room for r chunks in any page, every page is full of blocks of r chunks. */
  lemma FullPages(g: Geometry, pages: seq<Tables>, r: nat)
    requires 0 < r && PagesValid(g, pages) && AllUniform(pages, r) && FindSpot(pages, r, 0) == None
    ensures LiveBlocks(pages) == |pages| * PerPage(g, r)
  {
    forall p | 0 <= p < |pages|
      ensures PerPage(g, r) <= Blocks(pages[p])
    {
      UniformRefusal(pages[p], r);
    }
    TallyEach(pages, Blocks, PerPage(g, r));
    PagesHoldAtMost(g, pages, r);
  }

  lemma RoomForOne(g: Geometry, size: int)
    requires Acceptable(g, size)
    ensures 0 < PerPage(g, Needed(g, size))
  {
  }

  /** So many pages are just enough for the peak. */
  predicate JustEnough(pages: nat, peak: nat, perPage: nat) {
    peak <= pages * perPage < peak + perPage
  }

  function Max(a: nat, b: nat): nat {
    if a < b then b else a
  }

  /** How the peak and the number of pages grow together at one allocation. */
  lemma AllocJustEnough(g: Geometry, max: nat, pages: seq<Tables>, size: int, peak: nat)
    requires PagesValid(g, pages) && |pages| <= max && Acceptable(g, size) && AllUniform(pages, Needed(g, size))
    requires LiveBlocks(pages) <= peak && JustEnough(|pages|, peak, PerPage(g, Needed(g, size)))
    ensures var after := AfterAlloc(g, max, pages, size, true);
            JustEnough(|after|, Max(peak, LiveBlocks(after)), PerPage(g, Needed(g, size)))
  {
    var after, r := AfterAlloc(g, max, pages, size, true), Needed(g, size);
    var q := PerPage(g, r);
    RoomForOne(g, size);
    AllocKeepsUniform(g, max, pages, size, true);
    AllocCounts(g, max, pages, size);
    if FindSpot(pages, r, 0) == None {
      FullPages(g, pages, r);
    }
    PagesHoldAtMost(g, after, r);
    assert (|pages| + 1) * q == |pages| * q + q;
  }

  lemma DeallocKeepsUniform(g: Geometry, pages: seq<Tables>, page: nat, offset: int, r: nat)
    requires PagesValid(g, pages) && 0 < r && AllUniform(pages, r)
    ensures AllUniform(AfterDealloc(g, pages, page, offset), r)
  {
  }

  lemma CallKeepsUniform(g: Geometry, max: nat, pages: seq<Tables>, call: Request, size: int)
    requires PagesValid(g, pages) && |pages| <= max && Acceptable(g, size) && AllUniform(pages, Needed(g, size))
    requires call.Alloc? ==> call.size == size
    ensures AllUniform(Serves(g, max, pages, call), Needed(g, size))
  {
    match call
    case Alloc(_, mapped) => AllocKeepsUniform(g, max, pages, size, mapped);
    case Dealloc(page, offset) => DeallocKeepsUniform(g, pages, page, offset, Needed(g, size));
  }

  /** Calls for one size never fragment any page, whether or not an mmap fails. */
  lemma {:induction false} UniformOverAnyRun(g: Geometry, max: nat, calls: seq<Request>, size: int)
    requires Acceptable(g, size) && OneSize(calls, size)
    ensures AllUniform(After(g, max, calls), Needed(g, size))
    decreases |calls|
  {
    if calls != [] {
      var front, last := calls[..|calls| - 1], calls[|calls| - 1];
      assert last in calls;
      UniformOverAnyRun(g, max, front, size);
      CallKeepsUniform(g, max, After(g, max, front), last, size);
    }
  }

  lemma CallJustEnough(g: Geometry, max: nat, pages: seq<Tables>, call: Request, size: int, peak: nat)
    requires PagesValid(g, pages) && |pages| <= max && Acceptable(g, size) && AllUniform(pages, Needed(g, size))
    requires LiveBlocks(pages) <= peak && JustEnough(|pages|, peak, PerPage(g, Needed(g, size)))
    requires call.Alloc? ==> call.size == size && call.mapped
    ensures var after := Serves(g, max, pages, call);
            JustEnough(|after|, Max(peak, LiveBlocks(after)), PerPage(g, Needed(g, size)))
  {
    match call
    case Alloc(_, _) =>
      AllocJustEnough(g, max, pages, size, peak);
    case Dealloc(page, offset) =>
      DeallocCounts(g, pages, page, offset);
      assert Max(peak, LiveBlocks(AfterDealloc(g, pages, page, offset))) == peak;
  }

  lemma {:induction false} Footprint(g: Geometry, max: nat, calls: seq<Request>, size: int)
    requires Acceptable(g, size) && OneSize(calls, size) && MmapSucceeds(calls)
    ensures LiveBlocks(After(g, max, calls)) <= Peak(g, max, calls)
    ensures JustEnough(|After(g, max, calls)|, Peak(g, max, calls), PerPage(g, Needed(g, size)))
    decreases |calls|
  {
    if calls == [] {
      RoomForOne(g, size);
    } else {
      var front, last := calls[..|calls| - 1], calls[|calls| - 1];
      assert last in calls;
      Footprint(g, max, front, size);
      UniformOverAnyRun(g, max, front, size);
      CallJustEnough(g, max, After(g, max, front), last, size, Peak(g, max, front));
    }
  }

  /** Blocks of one size: the pages mapped are exactly as many as the most blocks ever live
      at once need, and no arrangement of that many blocks fits in fewer. */
  lemma FootprintMinimal(g: Geometry, max: nat, calls: seq<Request>, size: int)
    requires Acceptable(g, size) && OneSize(calls, size) && MmapSucceeds(calls)
    ensures 0 < PerPage(g, Needed(g, size))
    ensures |After(g, max, calls)| == PagesFor(Peak(g, max, calls), PerPage(g, Needed(g, size)))
    ensures forall other | PagesValid(g, other) && OnlySize(other, Needed(g, size)) ::
              Peak(g, max, calls) <= LiveBlocks(other) ==> |After(g, max, calls)| <= |other|
  {
    var pages, r := After(g, max, calls), Needed(g, size);
    var q := PerPage(g, r);
    RoomForOne(g, size);
    Footprint(g, max, calls, size);
    PagesForIff(Peak(g, max, calls), q, |pages|);
    forall other | PagesValid(g, other) && OnlySize(other, r) && Peak(g, max, calls) <= LiveBlocks(other)
      ensures |pages| <= |other|
    {
      Capacity(g, other, r);
      assert (|other| + 1) * q == |other| * q + q;
      if |other| < |pages| {
        Multiply(|other| + 1, |pages|, q);
      }
    }
  }

  ghost predicate OnlySize(pages: seq<Tables>, r: nat) {
    forall p, i :: 0 <= p < |pages| && 0 <= i < |pages[p].sizes| && pages[p].sizes[i] != 0 ==> pages[p].sizes[i] == r
  }

  lemma Capacity(g: Geometry, pages: seq<Tables>, r: nat)
    requires 0 < r && PagesValid(g, pages) && OnlySize(pages, r)
    ensures LiveBlocks(pages) <= |pages| * PerPage(g, r)
  {
    forall p | 0 <= p < |pages|
      ensures Blocks(pages[p]) <= PerPage(g, r)
    {
      CapacityBound(pages[p], r);
    }
    TallyAtMost(pages, Blocks, PerPage(g, r));
  }

  lemma RefusedIffFull(g: Geometry, max: nat, pages: seq<Tables>, size: int)
    requires PagesValid(g, pages) && |pages| <= max && Acceptable(g, size) && AllUniform(pages, Needed(g, size))
    ensures Place(g, max, pages, size, true) == Refused <==> LiveBlocks(pages) == max * PerPage(g, Needed(g, size))
  {
    var r := Needed(g, size);
    if Place(g, max, pages, size, true) == Refused {
      FullPages(g, pages, r);
    } else {
      AllocCounts(g, max, pages, size);
      AllocKeepsUniform(g, max, pages, size, true);
      AtMostFull(g, max, AfterAlloc(g, max, pages, size, true), r);
    }
  }

  lemma NoRoomIffFull(g: Geometry, pages: seq<Tables>, size: int)
    requires PagesValid(g, pages) && Acceptable(g, size) && AllUniform(pages, Needed(g, size))
    ensures FindSpot(pages, Needed(g, size), 0) == None <==> LiveBlocks(pages) == |pages| * PerPage(g, Needed(g, size))
  {
    var r, max := Needed(g, size), |pages|;
    if FindSpot(pages, r, 0) == None {
      FullPages(g, pages, r);
    } else {
      AllocCounts(g, max, pages, size);
      AllocKeepsUniform(g, max, pages, size, true);
      PagesHoldAtMost(g, AfterAlloc(g, max, pages, size, true), r);
    }
  }

  lemma AtMostFull(g: Geometry, max: nat, pages: seq<Tables>, r: nat)
    requires 0 < r && PagesValid(g, pages) && |pages| <= max && AllUniform(pages, r)
    ensures LiveBlocks(pages) <= max * PerPage(g, r)
  {
    PagesHoldAtMost(g, pages, r);
    Chain(LiveBlocks(pages), |pages|, max, PerPage(g, r));
  }

  /** After any calls for one size, one more is refused exactly when every page it might get is
      full: every allowed page if mmap would succeed, every page there is if it would fail. */
  lemma UniformRefusedOnlyWhenFull(g: Geometry, max: nat, calls: seq<Request>, size: int, mapped: bool)
    requires Acceptable(g, size) && OneSize(calls, size)
    ensures Place(g, max, After(g, max, calls), size, mapped) == Refused <==>
            LiveBlocks(After(g, max, calls)) ==
            (if mapped then max else |After(g, max, calls)|) * PerPage(g, Needed(g, size))
  {
    UniformOverAnyRun(g, max, calls, size);
    if mapped {
      RefusedIffFull(g, max, After(g, max, calls), size);
    } else {
      NoRoomIffFull(g, After(g, max, calls), size);
    }
  }

  /** A block in the heap, by its page and the offset of its first byte. */
  datatype Block = Block(page: nat, offset: int)

  function DeallocAll(g: Geometry, pages: seq<Tables>, blocks: seq<Block>): (after: seq<Tables>)
    requires PagesValid(g, pages)
    ensures PagesValid(g, after) && |after| == |pages|
    decreases |blocks|
  {
    if blocks == [] then pages
    else DeallocAll(g, AfterDealloc(g, pages, blocks[0].page, blocks[0].offset), blocks[1..])
  }

  /** Freeing every live block, in any order and across the pages, leaves every page as fresh. */
  lemma {:induction false} DeallocAllRestores(g: Geometry, pages: seq<Tables>, blocks: seq<Block>)
    requires PagesValid(g, pages) && 0 < g.min
    requires forall p, i :: 0 <= p < |pages| && 0 <= i < g.chunks && 0 < pages[p].sizes[i] ==>
               BlockAt(g, p, i) in blocks
    ensures DeallocAll(g, pages, blocks) == seq(|pages|, _ => Fresh(g.chunks))
    decreases |blocks|
  {
    if blocks == [] {
      forall p | 0 <= p < |pages|
        ensures pages[p] == Fresh(g.chunks)
      {
        forall i | 0 <= i < g.chunks
          ensures pages[p].sizes[i] == 0
        {
          assert BlockAt(g, p, i) !in blocks;
        }
        Page.DeallocAllRestores(g, pages[p], []);
      }
    } else {
      var Block(page, offset) := blocks[0];
      var after := AfterDealloc(g, pages, page, offset);
      forall p, i | 0 <= p < |pages| && 0 <= i < g.chunks && 0 < after[p].sizes[i]
        ensures BlockAt(g, p, i) in blocks[1..]
      {
        assert 0 < pages[p].sizes[i];
        if BlockAt(g, p, i) == blocks[0] {
          TargetIff(g, pages[p], offset, i);
        }
      }
      DeallocAllRestores(g, after, blocks[1..]);
    }
  }

  function BlockAt(g: Geometry, page: nat, start: nat): Block {
    Block(page, start * g.min)
  }

  /** Freeing what alloc just handed out restores all tables, but for a page added for it, which
      stays with all its chunks free. */
  lemma DeallocUndoesAlloc(g: Geometry, max: nat, pages: seq<Tables>, size: int, mapped: bool)
    requires PagesValid(g, pages) && |pages| <= max
    ensures match Place(g, max, pages, size, mapped)
            case Existing(Spot(p, i)) =>
              AfterDealloc(g, AfterAlloc(g, max, pages, size, mapped), p, BlockAt(g, p, i).offset) == pages
            case Added =>
              AfterDealloc(g, AfterAlloc(g, max, pages, size, mapped), |pages|, 0) == pages + [Fresh(g.chunks)]
            case Refused => AfterAlloc(g, max, pages, size, mapped) == pages
  {
    match Place(g, max, pages, size, mapped)
    case Existing(Spot(p, i)) => UndoesExisting(g, max, pages, size, mapped, p, i);
    case Added => UndoesAdded(g, max, pages, size, mapped);
    case Refused =>
  }

  lemma UndoesExisting(g: Geometry, max: nat, pages: seq<Tables>, size: int, mapped: bool, p: nat, i: nat)
    requires PagesValid(g, pages) && |pages| <= max && Place(g, max, pages, size, mapped) == Existing(Spot(p, i))
    ensures AfterDealloc(g, AfterAlloc(g, max, pages, size, mapped), p, i * g.min) == pages
  {
    var after := AfterAlloc(g, max, pages, size, mapped);
    assert after[p] == Page.AfterAlloc(g, pages[p], size);
    Page.DeallocUndoesAlloc(g, pages[p], size);
    assert Serve(g, after[p], Page.Dealloc(i * g.min)) == pages[p];
    assert pages[p := after[p]][p := pages[p]] == pages;
  }

  lemma UndoesAdded(g: Geometry, max: nat, pages: seq<Tables>, size: int, mapped: bool)
    requires PagesValid(g, pages) && |pages| <= max && Place(g, max, pages, size, mapped) == Added
    ensures AfterDealloc(g, AfterAlloc(g, max, pages, size, mapped), |pages|, 0) == pages + [Fresh(g.chunks)]
  {
    var r, empty := Needed(g, size), Fresh(g.chunks);
    FreshTaken(g, r);
    FreshValid(g.chunks);
    Page.DeallocUndoesAlloc(g, empty, size);
    assert Page.AfterAlloc(g, empty, size) == Take(empty, 0, r);
    assert Serve(g, Take(empty, 0, r), Page.Dealloc(0)) == empty;
    assert (pages + [Take(empty, 0, r)])[|pages| := empty] == pages + [empty];
  }

  /** With the pages at disjoint addresses, distinct live blocks occupy disjoint bytes. */
  lemma BytesDisjoint(g: Geometry, pages: seq<Tables>, bases: seq<int>, p: nat, i: nat, q: nat, j: nat)
    requires PagesValid(g, pages) && |bases| == |pages| && p < |pages| && q < |pages|
    requires forall k, l :: 0 <= k < |bases| && 0 <= l < |bases| && k != l ==>
               bases[k] + g.Bytes() <= bases[l] || bases[l] + g.Bytes() <= bases[k]
    requires i < g.chunks && j < g.chunks && 0 < pages[p].sizes[i] && 0 < pages[q].sizes[j] && (p, i) != (q, j)
    ensures bases[p] + i * g.min + pages[p].sizes[i] * g.min <= bases[q] + j * g.min ||
            bases[q] + j * g.min + pages[q].sizes[j] * g.min <= bases[p] + i * g.min
  {
    if p == q {
      if i < j {
        Page.BytesDisjoint(g, pages[p], i, j);
      } else {
        Page.BytesDisjoint(g, pages[p], j, i);
      }
    } else {
      BlockInPage(g, pages[p], i);
      BlockInPage(g, pages[q], j);
    }
  }

  lemma BlockInPage(g: Geometry, t: Tables, i: nat)
    requires Valid(t) && |t.free| == g.chunks && i < g.chunks
    ensures 0 <= i * g.min && i * g.min + t.sizes[i] * g.min <= g.Bytes()
  {
  }
}
