/** The single-page allocator as the program has it: one mapped page, a bitmap and a size table. */
module PageMonitor {
  import opened Ranking
  import opened Chunks
  import opened ChunkLoops
  import opened Page

  const NULL := 0
  const ADDRESSES := 0x1_0000_0000_0000_0000
  const MAP_FAILED := ADDRESSES - 1

  /** Pointer arithmetic, on unsigned addresses of 64 bits. */
  function Address(base: int, offset: int): int {
    (base + offset) % ADDRESSES
  }

  /** NULL, or a page that ends before the last address, as any page does that mmap returns. */
  predicate Inside(g: Geometry, base: int) {
    NULL <= base && base + g.Bytes() < ADDRESSES
  }

  class Allocator {
    const g: Geometry
    var mapped_page: int
    var free_chunks: array<bool>
    var alloc_sizes: array<int>

    ghost predicate Shape()
      reads this
    {
      && free_chunks.Length == alloc_sizes.Length == g.chunks && 0 < g.min
      && g.Bytes() < ADDRESSES && (mapped_page == MAP_FAILED || Inside(g, mapped_page))
    }

    ghost function View(): Tables
      reads this, free_chunks, alloc_sizes
    {
      Tables(free_chunks[..], alloc_sizes[..])
    }

    /** The tables are as the program's data starts, or describe disjoint blocks: in the mapped page,
        or left over from an earlier one. */
    ghost predicate Valid()
      reads this, free_chunks, alloc_sizes
    {
      Shape() && (View() == Blank(g.chunks) || Chunks.Valid(View()))
    }

    /** The program's initial data: no page, and the tables all zero. */
    constructor (chunks: nat, min: nat)
      requires 0 < min && Geometry(chunks, min).Bytes() < ADDRESSES
      ensures Valid() && g == Geometry(chunks, min) && fresh(free_chunks) && fresh(alloc_sizes)
      ensures mapped_page == NULL && View() == Blank(chunks)
    {
      g := Geometry(chunks, min);
      mapped_page := NULL;
      free_chunks := new bool[chunks](_ => false);
      alloc_sizes := new int[chunks](_ => 0);
      new;
      assert View() == Blank(chunks);
    }

    method InitAlloc(mmap: int) returns (status: int)
      requires Shape() && (mmap == MAP_FAILED || (NULL < mmap && Inside(g, mmap)))
      modifies this`mapped_page, free_chunks, alloc_sizes
      ensures mapped_page == mmap && status == if mmap == MAP_FAILED then -1 else 0
      ensures View() == if mmap == MAP_FAILED then old(View()) else Fresh(g.chunks)
      ensures status == 0 || old(Valid()) ==> Valid()
    {
      mapped_page := mmap;
      if mapped_page == MAP_FAILED {
        return -1;
      }
      forall k | 0 <= k < free_chunks.Length {
        free_chunks[k] := true;
      }
      forall k | 0 <= k < alloc_sizes.Length {
        alloc_sizes[k] := 0;
      }
      assert View() == Fresh(g.chunks);
      FreshValid(g.chunks);
      return 0;
    }

    method Alloc(size: int) returns (ptr: int)
      requires Valid()
      modifies free_chunks, alloc_sizes
      ensures Valid() && View() == AfterAlloc(g, old(View()), size)
      ensures match Granted(g, old(View()), size)
              case Some(i) => ptr == if mapped_page == MAP_FAILED then Address(MAP_FAILED, i * g.min)
                                     else mapped_page + i * g.min
              case None => ptr == NULL
      ensures NULL < mapped_page < MAP_FAILED ==> (ptr != NULL <==> Granted(g, old(View()), size).Some?)
      ensures old(View()) == Blank(g.chunks) ==> ptr == NULL && View() == Blank(g.chunks)
    {
      BlankServesNothing(g, size, 0);
      if size <= 0 || size > g.chunks * g.min || size % g.min != 0 {
        return NULL;
      }
      NeededFits(g, size);
      var required_chunks := size / g.min;
      var i := FindRun(free_chunks, required_chunks);
      if i < 0 {
        return NULL;
      }
      TakeChunks(i, required_chunks);
      PointerTo(g, mapped_page, i);
      return Address(mapped_page, i * g.min);
    }

    method TakeChunks(start: nat, required_chunks: nat)
      requires Shape() && Chunks.Valid(View()) && FreeRun(View().free, start, required_chunks) && 0 < required_chunks
      modifies free_chunks, alloc_sizes
      ensures Chunks.Valid(View()) && View() == Take(old(View()), start, required_chunks)
    {
      MarkRun(free_chunks, start, required_chunks, false);
      alloc_sizes[start] := required_chunks;
      TakeKeepsValid(old(View()), start, required_chunks);
    }

    /** Anything that is not a pointer into the first chunk of a live block is reported and ignored. */
    method Dealloc(ptr: int)
      requires Valid() && NULL <= ptr < ADDRESSES
      modifies free_chunks, alloc_sizes
      ensures Valid()
      ensures View() == if ptr == NULL || mapped_page == MAP_FAILED then old(View())
                        else AfterDealloc(g, old(View()), ptr - mapped_page)
    {
      BlankServesNothing(g, 0, ptr - mapped_page);
      if ptr == NULL || ptr < mapped_page || ptr >= Address(mapped_page, g.chunks * g.min) {
        return;
      }
      var index := (ptr - mapped_page) / g.min;
      IndexFits(g, ptr - mapped_page);
      var size := alloc_sizes[index];
      if size <= 0 || index >= g.chunks {
        return;
      }
      GiveChunks(index, size);
    }

    method GiveChunks(index: nat, size: nat)
      requires Shape() && Chunks.Valid(View()) && index < g.chunks && alloc_sizes[index] == size && 0 < size
      modifies free_chunks, alloc_sizes
      ensures Chunks.Valid(View()) && View() == Give(old(View()), index)
    {
      MarkRun(free_chunks, index, size, true);
      alloc_sizes[index] := 0;
      GiveKeepsValid(old(View()), index);
    }

    /** The page stays where it is if it cannot be unmapped. */
    method Cleanup(munmap: int) returns (status: int)
      requires Shape()
      modifies this`mapped_page
      ensures status == if old(mapped_page) != NULL && munmap == -1 then -1 else 0
      ensures mapped_page == if status == -1 then old(mapped_page) else NULL
      ensures old(Valid()) ==> Valid()
    {
      if mapped_page != NULL && munmap == -1 {
        return -1;
      }
      mapped_page := NULL;
      return 0;
    }
  }

  /** In a page, no address wraps around. */
  lemma PointerTo(g: Geometry, base: int, i: nat)
    requires 0 < g.min && i < g.chunks
    ensures Inside(g, base) ==> Address(base, i * g.min) == base + i * g.min
    ensures NULL < base ==> NULL < base + i * g.min
  {
    Multiply(i + 1, g.chunks, g.min);
    ProductNotNegative(i, g.min);
    assert (i + 1) * g.min == i * g.min + g.min;
  }

  lemma IndexFits(g: Geometry, offset: int)
    requires 0 < g.min && 0 <= offset < g.Bytes()
    ensures 0 <= offset / g.min < g.chunks
  {
  }
}
