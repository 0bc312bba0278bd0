/** The growing allocator as the program has it: parallel tables of pages, bitmaps and size tables. */
module HeapMonitor {
  import opened Tallies
  import opened Chunks
  import opened ChunkLoops
  import opened Page
  import opened Heap
  import opened PageMonitor

  predicate Holds(g: Geometry, base: int, ptr: int) {
    base <= ptr < base + g.Bytes()
  }

  /** The page a pointer points into. */
  function Holder(g: Geometry, bases: seq<int>, ptr: int): (page: Option<nat>)
    ensures page.Some? ==> page.value < |bases| && Holds(g, bases[page.value], ptr)
    ensures page.None? ==> forall p :: 0 <= p < |bases| ==> !Holds(g, bases[p], ptr)
  {
    if bases == [] then None
    else if Holds(g, bases[|bases| - 1], ptr) then Some(|bases| - 1)
    else Holder(g, bases[..|bases| - 1], ptr)
  }

  /** The byte of the heap a pointer points to. */
  function Locate(g: Geometry, bases: seq<int>, ptr: int): (found: Option<Block>)
    ensures found.Some? ==> found.value.page < |bases| && 0 <= found.value.offset < g.Bytes()
  {
    match Holder(g, bases, ptr)
    case Some(p) => Some(Block(p, ptr - bases[p]))
    case None => None
  }

  ghost predicate Apart(g: Geometry, bases: seq<int>) {
    forall p, q :: 0 <= p < q < |bases| ==> bases[p] + g.Bytes() <= bases[q] || bases[q] + g.Bytes() <= bases[p]
  }

  /** Pages apart from each other: a byte of one of them is a byte of that one alone. */
  lemma {:induction false} HolderIs(g: Geometry, bases: seq<int>, p: nat, offset: nat)
    requires Apart(g, bases) && p < |bases| && offset < g.Bytes()
    ensures Holder(g, bases, bases[p] + offset) == Some(p)
  {
  }

  /** The pointer alloc returns leads dealloc back to the block, in an existing page and in a
      page just added alike. */
  lemma PointerLeadsBack(g: Geometry, max: nat, bases: seq<int>, tables: seq<Tables>, size: int, new_page: int)
    requires PagesValid(g, tables) && |tables| == |bases| <= max && Apart(g, bases + [new_page])
    ensures match Place(g, max, tables, size, true)
            case Existing(Spot(p, i)) => Locate(g, bases, bases[p] + i * g.min) == Some(BlockAt(g, p, i))
            case Added => Locate(g, bases + [new_page], new_page) == Some(BlockAt(g, |bases|, 0))
            case Refused => true
  {
    match Place(g, max, tables, size, true)
    case Existing(Spot(p, i)) =>
      BlockOffset(g, tables[p], i, Needed(g, size));
      assert bases == (bases + [new_page])[..|bases|];
      HolderIs(g, bases, p, i * g.min);
    case Added =>
      FreshTaken(g, Needed(g, size));
      BlockOffset(g, Fresh(g.chunks), 0, Needed(g, size));
      HolderIs(g, bases + [new_page], |bases|, 0);
    case Refused =>
  }

  /** The block a pointer frees, if any: the live one that starts at the chunk the pointer points into. */
  function Freed(g: Geometry, bases: seq<int>, tables: seq<Tables>, ptr: int): Option<Spot>
    requires |tables| == |bases|
  {
    match Locate(g, bases, ptr)
    case Some(Block(p, offset)) =>
      (match Target(g, tables[p], offset)
       case Some(i) => Some(Spot(p, i))
       case None => None)
    case None => None
  }

  /** A pointer frees a block exactly when it points into the first chunk of it, of whichever page. */
  lemma FreedIff(g: Geometry, bases: seq<int>, tables: seq<Tables>, ptr: int, p: nat, i: nat)
    requires 0 < g.min && PagesValid(g, tables) && |tables| == |bases| && Apart(g, bases)
    ensures Freed(g, bases, tables, ptr) == Some(Spot(p, i)) <==>
            && p < |tables| && i < g.chunks && 0 < tables[p].sizes[i]
            && bases[p] + i * g.min <= ptr < bases[p] + i * g.min + g.min
  {
    if p < |tables| {
      var offset := ptr - bases[p];
      TargetIff(g, tables[p], offset, i);
      if Target(g, tables[p], offset) == Some(i) {
        HolderIs(g, bases, p, offset);
      }
    }
  }

  /** dealloc by pointer: the block freed is given back, and nothing else changes. */
  function AfterFree(g: Geometry, bases: seq<int>, tables: seq<Tables>, ptr: int): seq<Tables>
    requires PagesValid(g, tables) && |tables| == |bases|
  {
    match Freed(g, bases, tables, ptr)
    case Some(Spot(p, i)) => tables[p := Give(tables[p], i)]
    case None => tables
  }

  lemma FreeIsDealloc(g: Geometry, bases: seq<int>, tables: seq<Tables>, ptr: int)
    requires PagesValid(g, tables) && |tables| == |bases|
    ensures AfterFree(g, bases, tables, ptr) ==
            match Locate(g, bases, ptr)
            case Some(Block(p, offset)) => Heap.AfterDealloc(g, tables, p, offset)
            case None => tables
  {
    if block :| Locate(g, bases, ptr) == Some(block) {
      assert tables[block.page := tables[block.page]] == tables;
    }
  }

  lemma BlockOffset(g: Geometry, t: Tables, i: nat, r: nat)
    requires |t.free| == g.chunks && FreeRun(t.free, i, r) && 0 < r && 0 < g.min
    ensures 0 <= i * g.min < g.Bytes()
  {
  }

  lemma FreshAdded(g: Geometry, tables: seq<Tables>)
    requires PagesValid(g, tables)
    ensures PagesValid(g, tables + [Fresh(g.chunks)])
  {
    FreshValid(g.chunks);
  }

  lemma GivenBack(g: Geometry, tables: seq<Tables>, page: nat, offset: int)
    requires 0 < g.min && PagesValid(g, tables) && page < |tables| && 0 <= offset < g.Bytes()
    ensures 0 <= offset / g.min < g.chunks
    ensures var t, i := tables[page], offset / g.min;
            Heap.AfterDealloc(g, tables, page, offset) == if 0 < t.sizes[i] then tables[page := Give(t, i)] else tables
  {
    IndexFits(g, offset);
    assert tables[page := tables[page]] == tables;
  }

  method FreshArrays(chunks: nat) returns (free: array<bool>, sizes: array<int>)
    ensures fresh(free) && fresh(sizes) && Tables(free[..], sizes[..]) == Fresh(chunks)
    ensures free.Length == sizes.Length == chunks
  {
    free := new bool[chunks](_ => true);
    sizes := new int[chunks](_ => 0);
    assert free[..] == Fresh(chunks).free && sizes[..] == Fresh(chunks).sizes;
  }

  class GrowingAllocator {
    const g: Geometry
    const max_pages: nat
    var pages: seq<int>
    var free_chunks: seq<array<bool>>
    var alloc_sizes: seq<array<int>>

    ghost predicate Shape()
      reads this
    {
      && |pages| == |free_chunks| == |alloc_sizes| <= max_pages && 0 < g.min
      && (forall p :: 0 <= p < |pages| ==> NULL < pages[p])
      && (forall p :: 0 <= p < |pages| ==> free_chunks[p].Length == alloc_sizes[p].Length == g.chunks)
      && (forall p, q :: 0 <= p < q < |pages| ==> free_chunks[p] != free_chunks[q] && alloc_sizes[p] != alloc_sizes[q])
      && Apart(g, pages)
    }

    ghost function TablesOf(p: nat): Tables
      requires p < |free_chunks| == |alloc_sizes|
      reads this, free_chunks, alloc_sizes
    {
      Tables(free_chunks[p][..], alloc_sizes[p][..])
    }

    ghost function View(): seq<Tables>
      requires |free_chunks| == |alloc_sizes|
      reads this, free_chunks, alloc_sizes
    {
      seq(|free_chunks|, p
        requires 0 <= p < |free_chunks| == |alloc_sizes| reads this, free_chunks, alloc_sizes
        => TablesOf(p))
    }

    ghost predicate Valid()
      reads this, free_chunks, alloc_sizes
    {
      Shape() && PagesValid(g, View())
    }

    /** The tables of the pages there were stay where they are; those of an added page are new. */
    twostate predicate KeepsArrays()
      requires old(|free_chunks| == |alloc_sizes|)
      reads this
    {
      && old(|free_chunks|) <= |free_chunks| == |alloc_sizes|
      && free_chunks[..old(|free_chunks|)] == old(free_chunks) && alloc_sizes[..old(|free_chunks|)] == old(alloc_sizes)
      && forall p :: old(|free_chunks|) <= p < |free_chunks| ==> fresh(free_chunks[p]) && fresh(alloc_sizes[p])
    }

    /** init_alloc: no pages. */
    constructor (chunks: nat, min: nat, max: nat)
      requires 0 < min
      ensures Valid() && g == Geometry(chunks, min) && max_pages == max && View() == [] && pages == []
    {
      g := Geometry(chunks, min);
      max_pages := max;
      pages, free_chunks, alloc_sizes := [], [], [];
    }

    /** The search over the pages there are. */
    method FindPlace(required_chunks: nat) returns (page: int, start: int)
      requires Valid() && 0 < required_chunks <= g.chunks
      ensures page < 0 ==> FindSpot(View(), required_chunks, 0) == None
      ensures 0 <= page ==> 0 <= start && FindSpot(View(), required_chunks, 0) == Some(Spot(page, start))
    {
      ghost var tables := View();
      for i := 0 to |pages|
        invariant FindSpot(tables, required_chunks, 0) == FindSpot(tables, required_chunks, i)
      {
        start := FindRun(free_chunks[i], required_chunks);
        assert tables[i] == TablesOf(i);
        if 0 <= start {
          return i, start;
        }
      }
      return -1, -1;
    }

    method TakeBlock(page: nat, start: nat, required_chunks: nat)
      requires Valid() && page < |pages| && 0 < required_chunks
      requires FreeRun(View()[page].free, start, required_chunks)
      modifies free_chunks[page], alloc_sizes[page]
      ensures Valid() && View() == old(View())[page := Take(old(View())[page], start, required_chunks)]
    {
      MarkRun(free_chunks[page], start, required_chunks, false);
      alloc_sizes[page][start] := required_chunks;
      PageTaken(g, old(View())[page], start, required_chunks);
      assert View()[page] == TablesOf(page);
      assert forall p :: 0 <= p < |pages| && p != page ==> TablesOf(p) == old(TablesOf(p));
      assert View() == old(View())[page := Take(old(View())[page], start, required_chunks)];
    }

    method AddPage(new_page: int)
      requires Valid() && |pages| < max_pages && NULL < new_page && Apart(g, pages + [new_page])
      modifies this
      ensures Valid() && pages == old(pages) + [new_page] && View() == old(View()) + [Fresh(g.chunks)]
      ensures KeepsArrays()
    {
      var free, sizes := FreshArrays(g.chunks);
      pages, free_chunks, alloc_sizes := pages + [new_page], free_chunks + [free], alloc_sizes + [sizes];
      assert TablesOf(|pages| - 1) == Fresh(g.chunks);
      assert forall p :: 0 <= p < |pages| - 1 ==> TablesOf(p) == old(TablesOf(p));
      assert View() == old(View()) + [Fresh(g.chunks)];
      FreshAdded(g, old(View()));
    }

    method AddBlock(new_page: int, required_chunks: nat)
      requires Valid() && |pages| < max_pages && NULL < new_page && Apart(g, pages + [new_page])
      requires 0 < required_chunks <= g.chunks
      modifies this
      ensures Valid() && pages == old(pages) + [new_page]
      ensures View() == old(View()) + [Take(Fresh(g.chunks), 0, required_chunks)]
      ensures KeepsArrays()
    {
      AddPage(new_page);
      FreshTaken(g, required_chunks);
      TakeBlock(|pages| - 1, 0, required_chunks);
    }

    /** mmap is what mmap returns if it is called: MAP_FAILED, or a page apart from the others. */
    method Alloc(size: int, mmap: int) returns (ptr: int)
      requires Valid() && (mmap == MAP_FAILED || (NULL < mmap && Apart(g, pages + [mmap])))
      modifies this, free_chunks, alloc_sizes
      ensures Valid() && View() == Heap.AfterAlloc(g, max_pages, old(View()), size, mmap != MAP_FAILED)
      ensures match Place(g, max_pages, old(View()), size, mmap != MAP_FAILED)
              case Existing(spot) => pages == old(pages) && ptr == pages[spot.page] + spot.start * g.min
              case Added => pages == old(pages) + [mmap] && ptr == mmap
              case Refused => pages == old(pages) && ptr == NULL
      ensures KeepsArrays()
    {
      if size <= 0 || size > g.chunks * g.min || size % g.min != 0 {
        return NULL;
      }
      NeededFits(g, size);
      ptr := AllocChunks(size, size / g.min, mmap);
    }

    method AllocChunks(ghost size: int, required_chunks: nat, mmap: int) returns (ptr: int)
      requires Acceptable(g, size) && required_chunks == Needed(g, size)
      requires Valid() && (mmap == MAP_FAILED || (NULL < mmap && Apart(g, pages + [mmap])))
      modifies this, free_chunks, alloc_sizes
      ensures Valid() && View() == Heap.AfterAlloc(g, max_pages, old(View()), size, mmap != MAP_FAILED)
      ensures match Place(g, max_pages, old(View()), size, mmap != MAP_FAILED)
              case Existing(spot) => pages == old(pages) && ptr == pages[spot.page] + spot.start * g.min
              case Added => pages == old(pages) + [mmap] && ptr == mmap
              case Refused => pages == old(pages) && ptr == NULL
      ensures KeepsArrays()
    {
      var page, start := FindPlace(required_chunks);
      assert Place(g, max_pages, View(), size, mmap != MAP_FAILED) ==
             if 0 <= page then Existing(Spot(page, start))
             else if |pages| < max_pages && mmap != MAP_FAILED then Added else Refused;
      if 0 <= page {
        TakeBlock(page, start, required_chunks);
        ptr := pages[page] + start * g.min;
      } else if |pages| >= max_pages || mmap == MAP_FAILED {
        ptr := NULL;
      } else {
        AddBlock(mmap, required_chunks);
        ptr := mmap;
      }
    }

    /** The search over the pages for the one a pointer points into. */
    method FindPage(ptr: int) returns (found: Option<Block>)
      requires Valid()
      ensures found == Locate(g, pages, ptr)
    {
      for i := 0 to |pages|
        invariant forall p :: 0 <= p < i ==> !Holds(g, pages[p], ptr)
      {
        if ptr >= pages[i] && ptr < pages[i] + g.chunks * g.min {
          return Some(Block(i, ptr - pages[i]));
        }
      }
      return None;
    }

    method Dealloc(ptr: int)
      requires Valid()
      modifies free_chunks, alloc_sizes
      ensures Valid() && View() == AfterFree(g, pages, old(View()), ptr)
    {
      var found := FindPage(ptr);
      FreeIsDealloc(g, pages, View(), ptr);
      if found != None {
        GiveBlock(found.value.page, found.value.offset);
      }
    }

    method GiveBlock(i: nat, offset: int)
      requires Valid() && i < |pages| && 0 <= offset < g.Bytes()
      modifies free_chunks[i], alloc_sizes[i]
      ensures Valid() && View() == Heap.AfterDealloc(g, old(View()), i, offset)
    {
      IndexFits(g, offset);
      var chunk_index := offset / g.min;
      var size := alloc_sizes[i][chunk_index];
      assert View()[i] == TablesOf(i);
      GivenBack(g, View(), i, offset);
      if size <= 0 {
        return;
      }
      GiveChunks(i, chunk_index, size);
    }

    method GiveChunks(page: nat, start: nat, size: nat)
      requires Valid() && page < |pages| && start < g.chunks && View()[page].sizes[start] == size && 0 < size
      modifies free_chunks[page], alloc_sizes[page]
      ensures Valid() && View() == old(View())[page := Give(old(View())[page], start)]
    {
      assert View()[page] == TablesOf(page);
      MarkRun(free_chunks[page], start, size, true);
      alloc_sizes[page][start] := 0;
      GiveKeepsValid(old(View())[page], start);
      assert View()[page] == TablesOf(page);
      assert forall p :: 0 <= p < |pages| && p != page ==> TablesOf(p) == old(TablesOf(p));
      assert View() == old(View())[page := Give(old(View())[page], start)];
    }

    method Cleanup()
      modifies this
      ensures pages == [] && free_chunks == [] && alloc_sizes == []
    {
      pages, free_chunks, alloc_sizes := [], [], [];
    }
  }
}
