/** What alloc and dealloc do in any valid tables, with the accepted sizes and every table entry written out. */
module AllocatorOutcomes {
  import opened Ranking
  import opened Tallies
  import opened Chunks
  import opened Page
  import opened Heap

  /** The sizes alloc accepts: the positive multiples of MINALLOC up to the page. */
  predicate Good(g: Geometry, size: int)
    requires 0 < g.min
  {
    0 < size <= g.chunks * g.min && size % g.min == 0
  }

  predicate LowestRun(free: seq<bool>, i: int, r: nat) {
    FreeRun(free, i, r) && forall j :: 0 <= j < i ==> !FreeRun(free, j, r)
  }

  ghost predicate NoRun(free: seq<bool>, r: nat) {
    forall j :: 0 <= j ==> !FreeRun(free, j, r)
  }

  /** The size, in chunks, of a request. */
  function ChunksOf(g: Geometry, size: int): nat
    requires 0 < g.min && 0 < size
  {
    size / g.min
  }

  lemma GoodIsAcceptable(g: Geometry, size: int)
    requires 0 < g.min
    ensures Good(g, size) <==> Acceptable(g, size)
    ensures Good(g, size) ==> 0 < ChunksOf(g, size) == Needed(g, size)
  {
  }

  /** A request is served exactly if its size is good and some run of free chunks is long enough;
      and it gets the lowest one. */
  lemma GrantedIff(g: Geometry, t: Tables, size: int)
    requires 0 < g.min && Valid(t) && |t.free| == g.chunks
    ensures forall i :: Granted(g, t, size) == Some(i) <==> Good(g, size) && LowestRun(t.free, i, ChunksOf(g, size))
    ensures Granted(g, t, size) == None <==> !Good(g, size) || NoRun(t.free, ChunksOf(g, size))
  {
    GoodIsAcceptable(g, size);
  }

  /** On an empty page, every good size is served, the whole page included, from its start. */
  lemma FreshGrants(g: Geometry, size: int)
    requires 0 < g.min
    ensures Granted(g, Fresh(g.chunks), size) == (if Good(g, size) then Some(0) else None)
  {
    GoodIsAcceptable(g, size);
    if Good(g, size) {
      FreshTaken(g, Needed(g, size));
    }
  }

  /** The r chunks at i, and only they, are no longer free, and recorded as one block. */
  ghost predicate Taken(t: Tables, u: Tables, i: int, r: nat) {
    && |u.free| == |t.free| == |u.sizes| == |t.sizes|
    && (forall k :: 0 <= k < |t.free| ==> (u.free[k] <==> t.free[k] && !(i <= k < i + r)))
    && (forall k :: 0 <= k < |t.sizes| ==> u.sizes[k] == if k == i then r else t.sizes[k])
  }

  /** The block at i, and only it, is gone, and its chunks are free. */
  ghost predicate Given(t: Tables, u: Tables, i: int)
    requires 0 <= i < |t.sizes|
  {
    && |u.free| == |t.free| == |u.sizes| == |t.sizes|
    && (forall k :: 0 <= k < |t.free| ==> (u.free[k] <==> t.free[k] || i <= k < i + t.sizes[i]))
    && (forall k :: 0 <= k < |t.sizes| ==> u.sizes[k] == if k == i then 0 else t.sizes[k])
  }

  /** A request in one page: the lowest long enough run is taken, or nothing changes. */
  lemma AllocOutcome(g: Geometry, t: Tables, size: int)
    requires 0 < g.min && Valid(t) && |t.free| == g.chunks
    ensures match Granted(g, t, size)
            case Some(i) => Good(g, size) && Taken(t, Page.AfterAlloc(g, t, size), i, ChunksOf(g, size))
            case None => Page.AfterAlloc(g, t, size) == t
    ensures Serve(g, t, Page.Alloc(size)) == Page.AfterAlloc(g, t, size)
  {
    GoodIsAcceptable(g, size);
  }

  /** The offset lies in the first chunk of the block at i. */
  predicate Hits(g: Geometry, t: Tables, offset: int, i: nat) {
    i < |t.sizes| && 0 < t.sizes[i] && i * g.min <= offset < i * g.min + g.min
  }

  /** A dealloc in one page: the block hit is given back, or nothing changes. */
  lemma DeallocOutcome(g: Geometry, t: Tables, offset: int)
    requires 0 < g.min && Valid(t) && |t.free| == g.chunks
    ensures forall i: nat :: Hits(g, t, offset, i) ==> Given(t, Page.AfterDealloc(g, t, offset), i)
    ensures (forall i: nat :: !Hits(g, t, offset, i)) ==> Page.AfterDealloc(g, t, offset) == t
    ensures Serve(g, t, Page.Dealloc(offset)) == Page.AfterDealloc(g, t, offset)
  {
    forall i: nat
      ensures Hits(g, t, offset, i) <==> Target(g, t, offset) == Some(i)
    {
      TargetIff(g, t, offset, i);
    }
  }

  /** Where the growing allocator puts a request: at the lowest long enough run of the first page that
      has one; if none has, in a page added, if there may be one and mmap succeeds; and else nowhere. */
  lemma PlaceIff(g: Geometry, max: nat, pages: seq<Tables>, size: int, mapped: bool, p: nat, i: nat)
    requires 0 < g.min && PagesValid(g, pages)
    ensures Place(g, max, pages, size, mapped) == Existing(Spot(p, i)) <==>
              && Good(g, size) && p < |pages| && LowestRun(pages[p].free, i, ChunksOf(g, size))
              && forall q :: 0 <= q < p ==> NoRun(pages[q].free, ChunksOf(g, size))
    ensures Place(g, max, pages, size, mapped) == Added <==>
              && Good(g, size) && (forall q :: 0 <= q < |pages| ==> NoRun(pages[q].free, ChunksOf(g, size)))
              && |pages| < max && mapped
  {
    GoodIsAcceptable(g, size);
    if Good(g, size) {
      FirstSpotIff(pages, ChunksOf(g, size), p, i);
    }
  }

  lemma FirstSpotIff(pages: seq<Tables>, r: nat, p: nat, i: nat)
    ensures FindSpot(pages, r, 0) == Some(Spot(p, i)) <==>
              p < |pages| && LowestRun(pages[p].free, i, r) && forall q :: 0 <= q < p ==> NoRun(pages[q].free, r)
    ensures FindSpot(pages, r, 0) == None <==> forall q :: 0 <= q < |pages| ==> NoRun(pages[q].free, r)
  {
    assert forall q :: 0 <= q < |pages| ==> (FirstFit(pages[q].free, r, 0) == None <==> NoRun(pages[q].free, r));
    if p < |pages| {
      assert FirstFit(pages[p].free, r, 0) == Some(i) <==> LowestRun(pages[p].free, i, r);
    }
  }

  /** And what that does to the pages. */
  lemma HeapAllocOutcome(g: Geometry, max: nat, pages: seq<Tables>, size: int, mapped: bool)
    requires 0 < g.min && PagesValid(g, pages) && |pages| <= max
    ensures var after := Heap.AfterAlloc(g, max, pages, size, mapped);
            match Place(g, max, pages, size, mapped)
            case Existing(Spot(p, i)) =>
              Good(g, size) && after == pages[p := after[p]] && Taken(pages[p], after[p], i, ChunksOf(g, size))
            case Added =>
              && Good(g, size) && after == pages + [after[|pages|]]
              && Taken(Fresh(g.chunks), after[|pages|], 0, ChunksOf(g, size))
            case Refused => after == pages
  {
    GoodIsAcceptable(g, size);
  }
}
