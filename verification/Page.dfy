/** The single-page allocator: what alloc and dealloc do to the tables, over any run of calls. */
module Page {
  import opened Ranking
  import opened Tallies
  import opened Chunks
  import opened Fragmentation

  /** NUMCHUNKS chunks of MINALLOC bytes. */
  datatype Geometry = Geometry(chunks: nat, min: nat)
  {
    function Bytes(): nat {
      ProductNotNegative(chunks, min);
      chunks * min
    }
  }

  /** A request names a size in bytes; a dealloc names a byte by its offset from the page's start. */
  datatype Request = Alloc(size: int) | Dealloc(offset: int)

  predicate Acceptable(g: Geometry, size: int) {
    0 < g.min && 0 < size <= g.Bytes() && size % g.min == 0
  }

  function Needed(g: Geometry, size: int): (r: nat)
    requires Acceptable(g, size)
    ensures 0 < r <= g.chunks && r * g.min == size
  {
    NeededFits(g, size);
    size / g.min
  }

  lemma NeededFits(g: Geometry, size: int)
    requires Acceptable(g, size)
    ensures 0 < size / g.min <= g.chunks && size / g.min * g.min == size
  {
  }

  /** The chunk a request is given, if any. */
  function Granted(g: Geometry, t: Tables, size: int): Option<nat> {
    if Acceptable(g, size) then FirstFit(t.free, Needed(g, size), 0) else None
  }

  function AfterAlloc(g: Geometry, t: Tables, size: int): Tables
    requires |t.free| == |t.sizes|
  {
    match Granted(g, t, size)
    case Some(i) => Take(t, i, Needed(g, size))
    case None => t
  }

  /** The live block a dealloc gives back, if any: the one whose first chunk holds the byte. */
  function Target(g: Geometry, t: Tables, offset: int): Option<nat> {
    if 0 < g.min && 0 <= offset < g.Bytes() && offset / g.min < |t.sizes| && 0 < t.sizes[offset / g.min]
    then Some(offset / g.min)
    else None
  }

  function AfterDealloc(g: Geometry, t: Tables, offset: int): Tables
    requires Valid(t) || t == Blank(g.chunks)
  {
    match Target(g, t, offset)
    case Some(i) => Give(t, i)
    case None => t
  }

  lemma BlankServesNothing(g: Geometry, size: int, offset: int)
    ensures AfterAlloc(g, Blank(g.chunks), size) == Blank(g.chunks) && Granted(g, Blank(g.chunks), size) == None
    ensures AfterDealloc(g, Blank(g.chunks), offset) == Blank(g.chunks)
  {
    if Acceptable(g, size) {
      forall j | 0 <= j < g.chunks
        ensures !FreeRun(Blank(g.chunks).free, j, Needed(g, size))
      {
        assert !Blank(g.chunks).free[j];
      }
    }
  }

  function Serve(g: Geometry, t: Tables, q: Request): (u: Tables)
    requires Valid(t) && |t.free| == g.chunks
    ensures Valid(u) && |u.free| == g.chunks
  {
    match q
    case Alloc(size) => AllocKeepsValid(g, t, size); AfterAlloc(g, t, size)
    case Dealloc(offset) => DeallocKeepsValid(g, t, offset); AfterDealloc(g, t, offset)
  }

  lemma AllocKeepsValid(g: Geometry, t: Tables, size: int)
    requires Valid(t)
    ensures Valid(AfterAlloc(g, t, size)) && |AfterAlloc(g, t, size).free| == |t.free|
  {
    if i :| Granted(g, t, size) == Some(i) {
      TakeKeepsValid(t, i, Needed(g, size));
    }
  }

  lemma DeallocKeepsValid(g: Geometry, t: Tables, offset: int)
    requires Valid(t)
    ensures Valid(AfterDealloc(g, t, offset)) && |AfterDealloc(g, t, offset).free| == |t.free|
  {
    if i :| Target(g, t, offset) == Some(i) {
      GiveKeepsValid(t, i);
    }
  }

  /** The tables after init_alloc and then the calls, in order: always those of disjoint blocks. */
  function After(g: Geometry, calls: seq<Request>): (t: Tables)
    ensures Valid(t) && |t.free| == g.chunks
  {
    if calls == [] then Fresh(g.chunks)
    else Serve(g, After(g, calls[..|calls| - 1]), calls[|calls| - 1])
  }

  /** A block starts at the lowest chunk with room, and a request is refused only without room;
      a chunk is used exactly when one live block covers it, and never two. */
  lemma FirstFitOverAnyRun(g: Geometry, calls: seq<Request>, size: int)
    requires Acceptable(g, size)
    ensures var t, r := After(g, calls), Needed(g, size);
            && (forall k :: 0 <= k < g.chunks ==>
                  (!t.free[k] <==> exists i :: Covers(t.sizes, i, k)) &&
                  (forall i, j :: Covers(t.sizes, i, k) && Covers(t.sizes, j, k) ==> i == j))
            && match Granted(g, t, size)
               case Some(i) => FreeRun(t.free, i, r) && forall j :: 0 <= j < i ==> !FreeRun(t.free, j, r)
               case None => forall j :: 0 <= j ==> !FreeRun(t.free, j, r)
  {
    var t := After(g, calls);
    forall i, j, k | 0 <= k < g.chunks && Covers(t.sizes, i, k) && Covers(t.sizes, j, k)
      ensures i == j
    {
      CoveredOnce(t, i, j, k);
    }
  }

  /** A refused request of r chunks finds at least floor(NUMCHUNKS / r) chunks in use. */
  lemma RefusedMeansUsed(g: Geometry, calls: seq<Request>, size: int)
    requires Acceptable(g, size) && Granted(g, After(g, calls), size) == None
    ensures g.chunks / Needed(g, size) <= Used(After(g, calls))
  {
    RefusalBound(After(g, calls), Needed(g, size));
  }

  // ---- calls that get a request refused with no more in use than that

  /** The first k chunks each a block of its own. */
  function Singles(n: nat, k: nat): Tables {
    Tables(seq(n, i requires 0 <= i => i >= k), seq(n, i requires 0 <= i => if i < k then 1 else 0))
  }

  /** Singles throughout, freed again below j except for every r-th. */
  function Thinned(n: nat, r: nat, j: nat): Tables
    requires 0 < r
  {
    Tables(seq(n, i requires 0 <= i => i < j && i % r != r - 1),
           seq(n, i requires 0 <= i => if i < j && i % r != r - 1 then 0 else 1))
  }

  lemma OneChunk(g: Geometry)
    requires 0 < g.min && 0 < g.chunks
    ensures Acceptable(g, g.min) && Needed(g, g.min) == 1
  {
  }

  lemma Extend(g: Geometry, calls: seq<Request>, q: Request)
    ensures After(g, calls + [q]) == Serve(g, After(g, calls), q)
  {
  }

  lemma NextSingle(n: nat, k: nat)
    requires k < n
    ensures FirstFit(Singles(n, k).free, 1, 0) == Some(k)
    ensures Take(Singles(n, k), k, 1) == Singles(n, k + 1)
  {
    var t := Singles(n, k);
    assert FreeRun(t.free, k, 1);
    forall j | 0 <= j < k
      ensures !FreeRun(t.free, j, 1)
    {
      assert !t.free[j];
    }
    assert Take(t, k, 1).free == Singles(n, k + 1).free;
    assert Take(t, k, 1).sizes == Singles(n, k + 1).sizes;
  }

  lemma {:induction false} ReachSingles(g: Geometry, k: nat) returns (calls: seq<Request>)
    requires 0 < g.min && k <= g.chunks
    ensures After(g, calls) == Singles(g.chunks, k)
  {
    if k == 0 {
      calls := [];
      assert Fresh(g.chunks) == Singles(g.chunks, 0);
    } else {
      var before := ReachSingles(g, k - 1);
      calls := before + [Alloc(g.min)];
      Extend(g, before, Alloc(g.min));
      OneChunk(g);
      NextSingle(g.chunks, k - 1);
    }
  }

  lemma NextThinned(n: nat, r: nat, j: nat)
    requires 0 < r && j < n
    ensures if j % r == r - 1 then Thinned(n, r, j + 1) == Thinned(n, r, j)
            else Give(Thinned(n, r, j), j) == Thinned(n, r, j + 1)
  {
  }

  lemma ThinOut(g: Geometry, r: nat, j: nat)
    requires 0 < g.min && 0 < r && j < g.chunks && j % r != r - 1 && Valid(Thinned(g.chunks, r, j))
    ensures Serve(g, Thinned(g.chunks, r, j), Dealloc(j * g.min)) == Thinned(g.chunks, r, j + 1)
  {
    NextThinned(g.chunks, r, j);
    TargetIff(g, Thinned(g.chunks, r, j), j * g.min, j);
  }

  lemma ThinnedStart(n: nat, r: nat)
    requires 0 < r
    ensures Singles(n, n) == Thinned(n, r, 0)
  {
  }

  /** The calls that thin out one chunk further: one dealloc, or none. */
  function ThinningCalls(g: Geometry, r: nat, j: nat): seq<Request>
    requires 0 < r
  {
    if j % r == r - 1 then [] else [Dealloc(j * g.min)]
  }

  lemma ThinOutMore(g: Geometry, calls: seq<Request>, r: nat, j: nat)
    requires 0 < g.min && 0 < r && j < g.chunks && After(g, calls) == Thinned(g.chunks, r, j)
    ensures After(g, calls + ThinningCalls(g, r, j)) == Thinned(g.chunks, r, j + 1)
  {
    if j % r == r - 1 {
      NextThinned(g.chunks, r, j);
      assert calls + [] == calls;
    } else {
      ThinOut(g, r, j);
      Extend(g, calls, Dealloc(j * g.min));
    }
  }

  lemma ReachThinned(g: Geometry, r: nat) returns (calls: seq<Request>)
    requires 0 < g.min && 0 < r
    ensures After(g, calls) == Thinned(g.chunks, r, g.chunks)
  {
    calls := ReachSingles(g, g.chunks);
    ThinnedStart(g.chunks, r);
    var j := 0;
    while j < g.chunks
      invariant 0 <= j <= g.chunks && After(g, calls) == Thinned(g.chunks, r, j)
    {
      ThinOutMore(g, calls, r, j);
      calls := calls + ThinningCalls(g, r, j);
      j := j + 1;
    }
  }

  /** The bound is exact: some calls get the request refused with exactly floor(NUMCHUNKS / r) in use. */
  lemma RefusalBoundReached(g: Geometry, size: int) returns (calls: seq<Request>)
    requires Acceptable(g, size)
    ensures Granted(g, After(g, calls), size) == None
    ensures Used(After(g, calls)) == g.chunks / Needed(g, size)
  {
    var r := Needed(g, size);
    calls := ReachThinned(g, r);
    assert Thinned(g.chunks, r, g.chunks) == Comb(g.chunks, r);
    RefusalBoundTight(g.chunks, r);
  }

  /** Calls that all ask for one size, with frees in between, never fragment the page: one more
      request is refused exactly when as many blocks are live as fit side by side. */
  lemma {:induction false} UniformNeverFragments(g: Geometry, calls: seq<Request>, size: int)
    requires Acceptable(g, size) && forall q :: q in calls && q.Alloc? ==> q.size == size
    ensures Uniform(After(g, calls), Needed(g, size))
    ensures Blocks(After(g, calls)) <= g.chunks / Needed(g, size)
    ensures Granted(g, After(g, calls), size) == None <==> Blocks(After(g, calls)) == g.chunks / Needed(g, size)
    decreases |calls|
  {
    var r := Needed(g, size);
    if calls != [] {
      var front, last := calls[..|calls| - 1], calls[|calls| - 1];
      UniformNeverFragments(g, front, size);
      assert last in calls;
      if last.Alloc? && Granted(g, After(g, front), size).Some? {
        TakeKeepsUniform(After(g, front), r);
      }
    }
    UniformRefusal(After(g, calls), r);
  }

  /** A dealloc gives back the block of which the byte lies in the first chunk, and otherwise nothing. */
  lemma TargetIff(g: Geometry, t: Tables, offset: int, i: nat)
    requires Valid(t) && |t.sizes| == g.chunks && 0 < g.min
    ensures Target(g, t, offset) == Some(i) <==>
              i < g.chunks && 0 < t.sizes[i] && i * g.min <= offset < i * g.min + g.min
  {
    if i < g.chunks && i * g.min <= offset < i * g.min + g.min {
      ProductNotNegative(i, g.min);
      Remainder(i, offset - i * g.min, g.min);
      Multiply(i + 1, g.chunks, g.min);
      assert (i + 1) * g.min == i * g.min + g.min;
    }
    if 0 <= offset {
      assert offset == offset / g.min * g.min + offset % g.min;
    }
  }

  /** Freeing what alloc just returned restores both tables. */
  lemma DeallocUndoesAlloc(g: Geometry, t: Tables, size: int)
    requires Valid(t) && |t.free| == g.chunks && Granted(g, t, size).Some?
    ensures Valid(AfterAlloc(g, t, size))
    ensures AfterDealloc(g, AfterAlloc(g, t, size), Granted(g, t, size).value * g.min) == t
  {
    var i, r := Granted(g, t, size).value, Needed(g, size);
    TakeKeepsValid(t, i, r);
    TargetIff(g, AfterAlloc(g, t, size), i * g.min, i);
    GiveUndoesTake(t, i, r);
  }

  function DeallocAll(g: Geometry, t: Tables, offsets: seq<int>): (u: Tables)
    requires Valid(t) && |t.free| == g.chunks
    ensures Valid(u) && |u.free| == g.chunks
    decreases |offsets|
  {
    if offsets == [] then t
    else DeallocAll(g, Serve(g, t, Dealloc(offsets[0])), offsets[1..])
  }

  /** Freeing every live block, in any order, coalesces everything: the tables are as at the start. */
  lemma {:induction false} DeallocAllRestores(g: Geometry, t: Tables, offsets: seq<int>)
    requires Valid(t) && |t.free| == g.chunks && 0 < g.min
    requires forall i :: 0 <= i < g.chunks && 0 < t.sizes[i] ==> i * g.min in offsets
    ensures DeallocAll(g, t, offsets) == Fresh(g.chunks)
    decreases |offsets|
  {
    if offsets == [] {
      assert forall k :: 0 <= k < g.chunks ==> t.free[k];
      assert t.free == Fresh(g.chunks).free && t.sizes == Fresh(g.chunks).sizes;
    } else {
      var u := Serve(g, t, Dealloc(offsets[0]));
      forall i | 0 <= i < g.chunks && 0 < u.sizes[i]
        ensures i * g.min in offsets[1..]
      {
        assert 0 < t.sizes[i];
        if offsets[0] == i * g.min {
          TargetIff(g, t, offsets[0], i);
        }
      }
      DeallocAllRestores(g, u, offsets[1..]);
    }
  }

  /** Distinct live blocks occupy disjoint bytes of the page. */
  lemma BytesDisjoint(g: Geometry, t: Tables, i: nat, j: nat)
    requires Valid(t) && i < j < |t.sizes| && 0 < t.sizes[i] && 0 < t.sizes[j]
    ensures i * g.min + t.sizes[i] * g.min <= j * g.min
  {
  }
}
