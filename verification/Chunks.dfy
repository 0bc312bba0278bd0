/**
  One page of the allocators: a free bitmap and a size table over its chunks.

  free[k] says chunk k is free.  sizes[i] is the length in chunks of the live block that
  starts at chunk i, and 0 where none starts.
 */
module Chunks {
  import opened Tallies

  datatype Tables = Tables(free: seq<bool>, sizes: seq<int>)

  function Fresh(n: nat): Tables {
    Tables(Copies(n, true), Copies(n, 0))
  }

  predicate FreeRun(free: seq<bool>, i: int, r: nat) {
    0 <= i && i + r <= |free| && forall k :: i <= k < i + r ==> free[k]
  }

  /** The first free run of r chunks that starts at from or later. */
  function FirstFit(free: seq<bool>, r: nat, from: nat): (fit: Option<nat>)
    ensures fit.Some? ==> from <= fit.value && FreeRun(free, fit.value, r)
    ensures fit.Some? ==> forall j :: from <= j < fit.value ==> !FreeRun(free, j, r)
    ensures fit.None? ==> forall j :: from <= j ==> !FreeRun(free, j, r)
    decreases |free| - from
  {
    if from + r > |free| then None
    else if FreeRun(free, from, r) then Some(from)
    else if from == |free| then None
    else FirstFit(free, r, from + 1)
  }

  function Copies<T>(n: nat, v: T): (copies: seq<T>)
    ensures |copies| == n && forall k :: 0 <= k < n ==> copies[k] == v
  {
    seq(n, _ => v)
  }

  /** The bitmap with r chunks from i on set to v. */
  function Fill(free: seq<bool>, i: nat, r: nat, v: bool): (filled: seq<bool>)
    requires i + r <= |free|
    ensures |filled| == |free|
    ensures forall k :: 0 <= k < |free| ==> filled[k] == if i <= k < i + r then v else free[k]
  {
    free[..i] + Copies(r, v) + free[i + r..]
  }

  /** Handing out the block of r chunks at i, and taking back the block at i. */
  function Take(t: Tables, i: nat, r: nat): Tables
    requires i + r <= |t.free| == |t.sizes| && 0 < r
  {
    Tables(Fill(t.free, i, r, false), t.sizes[i := r])
  }

  function Give(t: Tables, i: nat): Tables
    requires i < |t.free| == |t.sizes| && 0 <= t.sizes[i] && i + t.sizes[i] <= |t.free|
  {
    Tables(Fill(t.free, i, t.sizes[i], true), t.sizes[i := 0])
  }

  predicate Covers(sizes: seq<int>, i: int, k: int) {
    0 <= i < |sizes| && i <= k < i + sizes[i]
  }

  /** The tables describe a set of disjoint blocks in the page: exactly the chunks of live blocks are used. */
  ghost predicate Valid(t: Tables) {
    && |t.free| == |t.sizes|
    && (forall i :: 0 <= i < |t.sizes| ==> 0 <= t.sizes[i] && i + t.sizes[i] <= |t.sizes|)
    && (forall i, j :: 0 <= i < j < |t.sizes| && 0 < t.sizes[i] && 0 < t.sizes[j] ==> i + t.sizes[i] <= j)
    && (forall k :: 0 <= k < |t.free| ==> (!t.free[k] <==> exists i :: Covers(t.sizes, i, k)))
  }

  /** The tables before any page is mapped: no chunk is free, and no block is live. */
  function Blank(n: nat): Tables {
    Tables(Copies(n, false), Copies(n, 0))
  }

  lemma FreshValid(n: nat)
    ensures Valid(Fresh(n))
  {
  }

  /** A used chunk is covered by exactly one live block. */
  lemma CoveredOnce(t: Tables, i: int, j: int, k: int)
    requires Valid(t) && Covers(t.sizes, i, k) && Covers(t.sizes, j, k)
    ensures i == j && !t.free[k]
  {
  }

  lemma FreeRunUncovered(t: Tables, i: nat, r: nat, j: int)
    requires Valid(t) && FreeRun(t.free, i, r) && 0 < r && 0 <= j < |t.sizes| && 0 < t.sizes[j]
    ensures j + t.sizes[j] <= i || i + r <= j
  {
    assert t.free[i] && (i <= j < i + r ==> t.free[j]);
    if i <= j < i + r {
      assert Covers(t.sizes, j, j);
    } else if j < i < j + t.sizes[j] {
      assert Covers(t.sizes, j, i);
    }
  }

  lemma TakeKeepsValid(t: Tables, i: nat, r: nat)
    requires Valid(t) && FreeRun(t.free, i, r) && 0 < r
    ensures Valid(Take(t, i, r))
  {
    var u := Take(t, i, r);
    forall j, k | 0 <= j < k < |u.sizes| && 0 < u.sizes[j] && 0 < u.sizes[k]
      ensures j + u.sizes[j] <= k
    {
      if j == i {
        FreeRunUncovered(t, i, r, k);
      } else {
        FreeRunUncovered(t, i, r, j);
      }
    }
    forall k | 0 <= k < |u.free|
      ensures !u.free[k] <==> exists j :: Covers(u.sizes, j, k)
    {
      if i <= k < i + r {
        assert Covers(u.sizes, i, k);
      } else if j :| Covers(t.sizes, j, k) {
        FreeRunUncovered(t, i, r, j);
        assert Covers(u.sizes, j, k);
      } else {
        assert forall j :: Covers(u.sizes, j, k) ==> Covers(t.sizes, j, k);
      }
    }
  }

  lemma GiveKeepsValid(t: Tables, i: nat)
    requires Valid(t) && i < |t.sizes| && 0 < t.sizes[i]
    ensures Valid(Give(t, i))
  {
    var u := Give(t, i);
    forall k | 0 <= k < |u.free|
      ensures !u.free[k] <==> exists j :: Covers(u.sizes, j, k)
    {
      if Covers(t.sizes, i, k) {
        forall j | Covers(t.sizes, j, k)
          ensures j == i
        {
          CoveredOnce(t, i, j, k);
        }
        assert forall j :: Covers(u.sizes, j, k) ==> Covers(t.sizes, j, k);
      } else {
        assert forall j :: Covers(u.sizes, j, k) <==> Covers(t.sizes, j, k);
      }
    }
  }

  /** Giving a block back right after taking it restores both tables. */
  lemma GiveUndoesTake(t: Tables, i: nat, r: nat)
    requires Valid(t) && FreeRun(t.free, i, r) && 0 < r
    ensures Give(Take(t, i, r), i) == t
  {
    if 0 < t.sizes[i] {
      FreeRunUncovered(t, i, r, i);
    }
    assert Give(Take(t, i, r), i).free == t.free;
  }

  /** Blocks may be given back in either order. */
  lemma GivesCommute(t: Tables, i: nat, j: nat)
    requires Valid(t) && i < |t.sizes| && j < |t.sizes| && i != j && 0 < t.sizes[i] && 0 < t.sizes[j]
    ensures Valid(Give(t, i)) && Valid(Give(t, j))
    ensures Give(Give(t, i), j) == Give(Give(t, j), i)
  {
    GiveKeepsValid(t, i);
    GiveKeepsValid(t, j);
    assert Give(Give(t, i), j).free == Give(Give(t, j), i).free;
  }

  // ---- counting

  function IsUsed(free: bool): nat {
    if free then 0 else 1
  }

  function Size(size: int): nat {
    if 0 < size then size else 0
  }

  function IsLive(size: int): nat {
    if 0 < size then 1 else 0
  }

  function Used(t: Tables): nat {
    Tally(t.free, IsUsed)
  }

  function Blocks(t: Tables): nat {
    Tally(t.sizes, IsLive)
  }

  lemma {:induction false} TallyCopies<T>(n: nat, v: T, w: T -> nat)
    ensures Tally(Copies(n, v), w) == n * w(v)
  {
    if n != 0 {
      assert Copies(n, v)[1..] == Copies(n - 1, v);
      TallyCopies(n - 1, v, w);
    }
  }

  lemma TallyMiddle(a: seq<bool>, n: nat, v: bool, b: seq<bool>)
    ensures Tally(a + Copies(n, v) + b, IsUsed) == Tally(a, IsUsed) + n * IsUsed(v) + Tally(b, IsUsed)
  {
    TallyConcat(a + Copies(n, v), b, IsUsed);
    TallyConcat(a, Copies(n, v), IsUsed);
    TallyCopies(n, v, IsUsed);
  }

  lemma FillUsed(free: seq<bool>, i: nat, r: nat, v: bool)
    requires i + r <= |free|
    requires forall k :: i <= k < i + r ==> free[k] == !v
    ensures Used(Tables(Fill(free, i, r, v), [])) + r * IsUsed(!v) == Used(Tables(free, [])) + r * IsUsed(v)
  {
    assert free == free[..i] + Copies(r, !v) + free[i + r..];
    TallyMiddle(free[..i], r, v, free[i + r..]);
    TallyMiddle(free[..i], r, !v, free[i + r..]);
  }

  lemma TakeCounts(t: Tables, i: nat, r: nat)
    requires Valid(t) && FreeRun(t.free, i, r) && 0 < r
    ensures Used(Take(t, i, r)) == Used(t) + r
    ensures Blocks(Take(t, i, r)) == Blocks(t) + 1
  {
    FillUsed(t.free, i, r, false);
    if 0 < t.sizes[i] {
      FreeRunUncovered(t, i, r, i);
    }
    TallySet(t.sizes, i, r, IsLive);
  }

  lemma GiveCounts(t: Tables, i: nat)
    requires Valid(t) && i < |t.sizes| && 0 < t.sizes[i]
    ensures Used(Give(t, i)) + t.sizes[i] == Used(t)
    ensures Blocks(Give(t, i)) + 1 == Blocks(t)
    ensures Tally(Give(t, i).sizes, Size) + t.sizes[i] == Tally(t.sizes, Size)
  {
    forall k | i <= k < i + t.sizes[i]
      ensures !t.free[k]
    {
      assert Covers(t.sizes, i, k);
    }
    FillUsed(t.free, i, t.sizes[i], true);
    TallySet(t.sizes, i, 0, IsLive);
    TallySet(t.sizes, i, 0, Size);
  }

  /** The used chunks are as many as the live blocks' sizes add up to. */
  lemma {:induction false} Conservation(t: Tables)
    requires Valid(t)
    ensures Used(t) == Tally(t.sizes, Size)
    decreases Blocks(t)
  {
    if i :| 0 <= i < |t.sizes| && 0 < t.sizes[i] {
      GiveKeepsValid(t, i);
      GiveCounts(t, i);
      Conservation(Give(t, i));
    } else {
      assert forall k :: 0 <= k < |t.free| ==> t.free[k];
      TallyZero(t.free, IsUsed);
      TallyZero(t.sizes, Size);
    }
  }
}
