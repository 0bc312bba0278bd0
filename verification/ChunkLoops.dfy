/** The loops over a page's bitmap, the same in both allocators. */
module ChunkLoops {
  import opened Tallies
  import opened Chunks

  /** The search of alloc: the first start with required_chunks free chunks, or -1. */
  method FindRun(free_chunks: array<bool>, required_chunks: nat) returns (start: int)
    requires 0 < required_chunks <= free_chunks.Length
    ensures FirstFit(free_chunks[..], required_chunks, 0) == if start < 0 then None else Some(start)
  {
    ghost var free := free_chunks[..];
    for i := 0 to free_chunks.Length - required_chunks + 1
      invariant FirstFit(free, required_chunks, 0) == FirstFit(free, required_chunks, i)
    {
      var found := true;
      var j := 0;
      while j < required_chunks
        invariant 0 <= j <= required_chunks && found
        invariant forall k :: i <= k < i + j ==> free[k]
      {
        if !free_chunks[i + j] {
          found := false;
          break;
        }
        j := j + 1;
      }
      if found {
        return i;
      }
    }
    return -1;
  }

  /** Marking the r chunks at i used or free. */
  method MarkRun(free_chunks: array<bool>, i: nat, r: nat, v: bool)
    requires i + r <= free_chunks.Length
    modifies free_chunks
    ensures free_chunks[..] == Fill(old(free_chunks[..]), i, r, v)
  {
    ghost var free := free_chunks[..];
    for j := 0 to r
      invariant free_chunks[..] == Fill(free, i, j, v)
    {
      free_chunks[i + j] := v;
      assert free_chunks[..] == Fill(free, i, j + 1, v);
    }
  }
}
