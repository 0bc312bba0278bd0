/** Calls that get a request refused with no more chunks in use than every refusal finds. */
module HeapRefusal {
  import opened Ranking
  import opened Tallies
  import opened Chunks
  import opened Fragmentation
  import opened Page
  import opened Heap

  /** Some calls lead to these pages. */
  ghost predicate Reaches(g: Geometry, max: nat, pages: seq<Tables>) {
    exists calls :: Heap.After(g, max, calls) == pages
  }

  lemma Reach(g: Geometry, max: nat, pages: seq<Tables>, q: Heap.Request)
    requires Reaches(g, max, pages)
    ensures PagesValid(g, pages) && |pages| <= max && Reaches(g, max, Serves(g, max, pages, q))
  {
    var calls :| Heap.After(g, max, calls) == pages;
    assert (calls + [q])[..|calls|] == calls;
    assert Heap.After(g, max, calls + [q]) == Serves(g, max, pages, q);
  }

  // ---- every page full of single chunks

  function Full(n: nat, pages: nat): seq<Tables> {
    seq(pages, _ => Singles(n, n))
  }

  /** Full pages and a last one with k blocks. */
  function Filling(n: nat, full: nat, k: nat): seq<Tables> {
    Full(n, full) + [Singles(n, k)]
  }

  lemma NoRoomInFull(n: nat)
    ensures FirstFit(Singles(n, n).free, 1, 0) == None
  {
    forall j | 0 <= j < n
      ensures !FreeRun(Singles(n, n).free, j, 1)
    {
      assert !Singles(n, n).free[j];
    }
  }

  lemma SpotInLast(n: nat, full: nat, k: nat)
    requires k < n
    ensures FindSpot(Filling(n, full, k), 1, 0) == Some(Spot(full, k))
  {
    NoRoomInFull(n);
    NextSingle(n, k);
    assert Filling(n, full, k)[full] == Singles(n, k);
  }

  /** One more chunk allocated, in the last page if it has room and else in a page added for it. */
  lemma AddSingle(g: Geometry, max: nat, full: nat, k: nat)
    requires 0 < g.min && k < g.chunks && Reaches(g, max, Filling(g.chunks, full, k))
    ensures Reaches(g, max, Filling(g.chunks, full, k + 1))
  {
    var n := g.chunks;
    Reach(g, max, Filling(n, full, k), Heap.Alloc(g.min, true));
    OneChunk(g);
    SpotInLast(n, full, k);
    NextSingle(n, k);
    assert Filling(n, full, k)[full := Singles(n, k + 1)] == Filling(n, full, k + 1);
  }

  lemma NoSpotInFull(n: nat, full: nat)
    ensures FindSpot(Full(n, full), 1, 0) == None
  {
    NoRoomInFull(n);
  }

  lemma FirstSingle(n: nat, full: nat)
    requires 0 < n
    ensures Full(n, full) + [Take(Fresh(n), 0, 1)] == Filling(n, full, 1)
  {
    NextSingle(n, 0);
    assert Fresh(n) == Singles(n, 0);
  }

  lemma AddFirst(g: Geometry, max: nat, full: nat)
    requires 0 < g.min && 0 < g.chunks && full < max && Reaches(g, max, Full(g.chunks, full))
    ensures Reaches(g, max, Filling(g.chunks, full, 1))
  {
    Reach(g, max, Full(g.chunks, full), Heap.Alloc(g.min, true));
    OneChunk(g);
    NoSpotInFull(g.chunks, full);
    FirstSingle(g.chunks, full);
  }

  lemma {:induction false} FillPage(g: Geometry, max: nat, full: nat, k: nat)
    requires 0 < g.min && 0 < k <= g.chunks && full < max && Reaches(g, max, Full(g.chunks, full))
    ensures Reaches(g, max, Filling(g.chunks, full, k))
  {
    if k == 1 {
      AddFirst(g, max, full);
    } else {
      FillPage(g, max, full, k - 1);
      AddSingle(g, max, full, k - 1);
    }
  }

  lemma {:induction false} FillPages(g: Geometry, max: nat, full: nat)
    requires 0 < g.min && 0 < g.chunks && full <= max
    ensures Reaches(g, max, Full(g.chunks, full))
  {
    if full == 0 {
      assert Heap.After(g, max, []) == Full(g.chunks, 0);
    } else {
      FillPages(g, max, full - 1);
      FillPage(g, max, full - 1, g.chunks);
      assert Filling(g.chunks, full - 1, g.chunks) == Full(g.chunks, full);
    }
  }

  // ---- every page thinned out to the blocks at every r-th chunk

  lemma ThinChunk(g: Geometry, max: nat, pages: seq<Tables>, p: nat, r: nat, j: nat)
    requires 0 < g.min && 0 < r && j < g.chunks && p < |pages| && Reaches(g, max, pages)
    requires pages[p] == Thinned(g.chunks, r, j)
    ensures Reaches(g, max, pages[p := Thinned(g.chunks, r, j + 1)])
  {
    if j % r == r - 1 {
      NextThinned(g.chunks, r, j);
      assert pages[p := pages[p]] == pages;
    } else {
      Reach(g, max, pages, Heap.Dealloc(p, j * g.min));
      ThinOut(g, r, j);
    }
  }

  lemma {:induction false} ThinPage(g: Geometry, max: nat, pages: seq<Tables>, p: nat, r: nat, j: nat)
    requires 0 < g.min && 0 < r && j <= g.chunks && p < |pages|
    requires Reaches(g, max, pages[p := Thinned(g.chunks, r, 0)])
    ensures Reaches(g, max, pages[p := Thinned(g.chunks, r, j)])
  {
    if j != 0 {
      ThinPage(g, max, pages, p, r, j - 1);
      ThinMore(g, max, pages, p, r, j - 1);
    }
  }

  lemma ThinMore(g: Geometry, max: nat, pages: seq<Tables>, p: nat, r: nat, j: nat)
    requires 0 < g.min && 0 < r && j < g.chunks && p < |pages|
    requires Reaches(g, max, pages[p := Thinned(g.chunks, r, j)])
    ensures Reaches(g, max, pages[p := Thinned(g.chunks, r, j + 1)])
  {
    ThinChunk(g, max, pages[p := Thinned(g.chunks, r, j)], p, r, j);
    SetTwice(pages, p, Thinned(g.chunks, r, j), Thinned(g.chunks, r, j + 1));
  }

  lemma SetTwice(pages: seq<Tables>, p: nat, t: Tables, u: Tables)
    requires p < |pages|
    ensures pages[p := t][p := u] == pages[p := u]
  {
  }

  lemma {:induction false} ThinPages(g: Geometry, max: nat, r: nat, k: nat)
    requires 0 < g.min && 0 < g.chunks && 0 < r && k <= max
    ensures Reaches(g, max, seq(k, _ => Comb(g.chunks, r)) + Full(g.chunks, max - k))
  {
    if k == 0 {
      FillPages(g, max, max);
      assert seq(0, _ => Comb(g.chunks, r)) + Full(g.chunks, max) == Full(g.chunks, max);
    } else {
      ThinPages(g, max, r, k - 1);
      var before := seq(k - 1, _ => Comb(g.chunks, r)) + Full(g.chunks, max - k + 1);
      ThinnedStart(g.chunks, r);
      assert before[k - 1 := before[k - 1]] == before;
      ThinPage(g, max, before, k - 1, r, g.chunks);
      ThinnedEnd(g.chunks, r);
      OneMoreThinned(Comb(g.chunks, r), g.chunks, k, max);
    }
  }

  lemma OneMoreThinned(t: Tables, n: nat, k: nat, max: nat)
    requires 0 < k <= max
    ensures (seq(k - 1, _ => t) + Full(n, max - k + 1))[k - 1 := t] == seq(k, _ => t) + Full(n, max - k)
  {
  }

  lemma ThinnedEnd(n: nat, r: nat)
    requires 0 < r
    ensures Thinned(n, r, n) == Comb(n, r)
  {
  }

  /** The bound on refusals is exact: for every size, some calls get it refused although mmap would
      succeed, with exactly MAXPAGES * floor(NUMCHUNKS / r) chunks in use. */
  lemma RefusalBoundReached(g: Geometry, max: nat, size: int) returns (calls: seq<Heap.Request>)
    requires Acceptable(g, size)
    ensures Place(g, max, Heap.After(g, max, calls), size, true) == Refused
    ensures UsedChunks(Heap.After(g, max, calls)) == max * PerPage(g, Needed(g, size))
  {
    var r := Needed(g, size);
    var pages := seq(max, _ => Comb(g.chunks, r));
    ThinPages(g, max, r, max);
    assert pages == pages + Full(g.chunks, 0);
    calls :| Heap.After(g, max, calls) == pages;
    RefusalBoundTight(g.chunks, r);
    TallyEach(pages, Used, PerPage(g, r));
    TallyAtMost(pages, Used, PerPage(g, r));
  }
}
