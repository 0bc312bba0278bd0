/** What first fit guarantees about a page: how full it is when it refuses a request, and
    that requests of one size never fragment it. */
module Fragmentation {
  import opened Ranking
  import opened Tallies
  import opened Chunks

  /** Increasing positions of positive weight are at most the total weight. */
  lemma {:induction false} Picks<T>(s: seq<T>, w: T -> nat, picks: seq<nat>)
    requires forall p :: 0 <= p < |picks| ==> picks[p] < |s| && 0 < w(s[picks[p]])
    requires forall p, q :: 0 <= p < q < |picks| ==> picks[p] < picks[q]
    ensures |picks| <= Tally(s, w)
  {
    if picks != [] {
      var last := picks[|picks| - 1];
      Picks(s[..last], w, picks[..|picks| - 1]);
      assert s == s[..last] + s[last..];
      TallyConcat(s[..last], s[last..], w);
      TallyAtLeast(s[last..], 0, w);
    }
  }

  /** The windows of r chunks that fit in n chunks end within them. */
  lemma WindowFits(n: nat, r: nat, p: nat)
    requires 0 < r && p < n / r
    ensures p * r + r <= n
  {
    Multiply(p + 1, n / r, r);
    assert (p + 1) * r == p * r + r;
    assert n / r * r <= n;
  }

  /** A used chunk in each of the first q windows, where no window is free. */
  lemma {:induction false} UsedPerWindow(free: seq<bool>, r: nat, q: nat) returns (picks: seq<nat>)
    requires 0 < r && q <= |free| / r && forall j :: 0 <= j ==> !FreeRun(free, j, r)
    ensures |picks| == q && forall p :: 0 <= p < q ==> picks[p] < |free| && !free[picks[p]]
    ensures forall p, p' :: 0 <= p < p' < q ==> picks[p] < picks[p']
    ensures forall p :: 0 <= p < q ==> picks[p] < q * r
  {
    if q == 0 {
      picks := [];
    } else {
      var before := UsedPerWindow(free, r, q - 1);
      WindowFits(|free|, r, q - 1);
      ProductNotNegative(q - 1, r);
      var start := (q - 1) * r;
      assert start + r == q * r;
      assert !FreeRun(free, start, r);
      var k :| start <= k < start + r && !free[k];
      picks := before + [k];
    }
  }

  /** A page that refuses r chunks has at least as many chunks in use as r fits in it. */
  lemma RefusalBound(t: Tables, r: nat)
    requires 0 < r && FirstFit(t.free, r, 0) == None
    ensures |t.free| / r <= Used(t)
  {
    var picks := UsedPerWindow(t.free, r, |t.free| / r);
    Picks(t.free, IsUsed, picks);
  }

  // ---- that bound cannot be improved

  /** Every r-th chunk used by a block of one chunk. */
  function Comb(n: nat, r: nat): Tables
    requires 0 < r
  {
    Tables(seq(n, k requires 0 <= k => k % r != r - 1), seq(n, k requires 0 <= k => if k % r == r - 1 then 1 else 0))
  }

  lemma {:induction false} CombUsed(n: nat, r: nat)
    requires 0 < r
    ensures Used(Comb(n, r)) == n / r
  {
    if n != 0 {
      CombUsed(n - 1, r);
      var free := Comb(n, r).free;
      assert free == Comb(n - 1, r).free + [free[n - 1]];
      TallyConcat(Comb(n - 1, r).free, [free[n - 1]], IsUsed);
      assert Tally([free[n - 1]], IsUsed) == IsUsed(free[n - 1]);
      NextQuotient(n - 1, r);
    } else {
      assert Comb(0, r).free == [];
    }
  }

  lemma NextQuotient(n: nat, r: nat)
    requires 0 < r
    ensures (n + 1) / r == n / r + if n % r == r - 1 then 1 else 0
  {
    var d := (n + 1) / r - n / r;
    assert n == n / r * r + n % r && n + 1 == (n + 1) / r * r + (n + 1) % r;
    assert d * r == (n + 1) / r * r - n / r * r;
    if n % r == r - 1 {
      OnlyZeroMultiple(d - 1, r) by { assert (d - 1) * r == d * r - r; }
    } else {
      OnlyZeroMultiple(d, r);
    }
  }

  /** Among any r consecutive numbers one leaves remainder r - 1. */
  lemma LastOfWindow(i: nat, r: nat)
    requires 0 < r
    ensures exists k :: i <= k < i + r && k % r == r - 1
  {
    var k := i / r * r + (r - 1);
    Remainder(i / r, r - 1, r);
    assert i == i / r * r + i % r;
    assert i <= k < i + r && k % r == r - 1;
  }

  lemma Remainder(q: nat, m: nat, r: nat)
    requires m < r
    ensures (q * r + m) % r == m && (q * r + m) / r == q
  {
    var n := q * r + m;
    assert n == n / r * r + n % r;
    assert (n / r - q) * r == n / r * r - q * r;
    OnlyZeroMultiple(n / r - q, r);
  }

  /** For every page size and request there are blocks that get it refused with no more in use. */
  lemma RefusalBoundTight(n: nat, r: nat)
    requires 0 < r
    ensures Valid(Comb(n, r)) && FirstFit(Comb(n, r).free, r, 0) == None && Used(Comb(n, r)) == n / r
  {
    var t := Comb(n, r);
    CombUsed(n, r);
    forall k | 0 <= k < n
      ensures !t.free[k] <==> exists i :: Covers(t.sizes, i, k)
    {
      if !t.free[k] {
        assert Covers(t.sizes, k, k);
      }
    }
    forall j | 0 <= j
      ensures !FreeRun(t.free, j, r)
    {
      LastOfWindow(j, r);
      var k :| j <= k < j + r && k % r == r - 1;
      assert k < n ==> !t.free[k];
    }
  }

  // ---- requests of one size

  /** Every live block has r chunks and starts at a multiple of r. */
  ghost predicate Uniform(t: Tables, r: nat)
    requires 0 < r
  {
    forall i :: 0 <= i < |t.sizes| && t.sizes[i] != 0 ==> t.sizes[i] == r && i % r == 0
  }

  /** The chunks from a multiple of r to the next have the same quotient. */
  lemma SameSlot(i: nat, k: nat, r: nat)
    requires 0 < r && i % r == 0 && i <= k < i + r
    ensures i == k / r * r
  {
    Remainder(i / r, k - i, r);
    assert i == i / r * r;
  }

  lemma SlotOf(k: nat, r: nat)
    requires 0 < r
    ensures 0 <= k / r * r <= k < k / r * r + r && (k / r * r) % r == 0
  {
  }

  /** In a uniform page a chunk is used exactly when its slot holds a block. */
  lemma UniformUsed(t: Tables, r: nat, k: nat)
    requires 0 < r && Valid(t) && Uniform(t, r) && k < |t.free|
    ensures 0 <= k / r * r <= k && (!t.free[k] <==> t.sizes[k / r * r] == r)
  {
    SlotOf(k, r);
    if !t.free[k] {
      var i :| Covers(t.sizes, i, k);
      SameSlot(i, k, r);
    } else if t.sizes[k / r * r] == r {
      assert Covers(t.sizes, k / r * r, k);
    }
  }

  /** First fit puts a block of r chunks at a multiple of r. */
  lemma FirstFitAligned(t: Tables, r: nat)
    requires 0 < r && Valid(t) && Uniform(t, r) && FirstFit(t.free, r, 0).Some?
    ensures FirstFit(t.free, r, 0).value % r == 0
  {
    var i := FirstFit(t.free, r, 0).value;
    var slot := i / r * r;
    SlotOf(i, r);
    if i % r != 0 {
      forall k | slot <= k < slot + r
        ensures t.free[k]
      {
        SameSlot(slot, k, r);
        UniformUsed(t, r, k);
        UniformUsed(t, r, i);
      }
      assert FreeRun(t.free, slot, r);
    }
  }

  lemma TakeKeepsUniform(t: Tables, r: nat)
    requires 0 < r && Valid(t) && Uniform(t, r) && FirstFit(t.free, r, 0).Some?
    ensures Uniform(Take(t, FirstFit(t.free, r, 0).value, r), r)
  {
    FirstFitAligned(t, r);
  }

  /** No page holds more blocks of r chunks than fit side by side, wherever they are placed. */
  lemma CapacityBound(t: Tables, r: nat)
    requires 0 < r && Valid(t) && forall i :: 0 <= i < |t.sizes| && t.sizes[i] != 0 ==> t.sizes[i] == r
    ensures Blocks(t) <= |t.free| / r
  {
    Conservation(t);
    SizesUniform(t.sizes, r);
    TallyAtMost(t.free, IsUsed, 1);
    AtMostQuotient(Blocks(t), |t.free|, r);
  }

  lemma {:induction false} SizesUniform(sizes: seq<int>, r: nat)
    requires forall i :: 0 <= i < |sizes| && sizes[i] != 0 ==> sizes[i] == r
    ensures Tally(sizes, Size) == Tally(sizes, IsLive) * r
  {
    if sizes != [] {
      forall i | 0 <= i < |sizes[1..]| && sizes[1..][i] != 0
        ensures sizes[1..][i] == r
      {
        assert sizes[1..][i] == sizes[i + 1];
      }
      SizesUniform(sizes[1..], r);
      assert sizes[0] == 0 || sizes[0] == r;
      assert (Tally(sizes[1..], IsLive) + 1) * r == Tally(sizes[1..], IsLive) * r + r;
    }
  }

  lemma AtMostQuotient(q: nat, n: nat, r: nat)
    requires 0 < r && q * r <= n
    ensures q <= n / r
  {
    assert n == n / r * r + n % r && (n / r + 1) * r == n / r * r + r;
    if n / r < q {
      Multiply(n / r + 1, q, r);
    }
  }

  lemma SlotTaken(t: Tables, r: nat, p: nat)
    requires 0 < r && Valid(t) && Uniform(t, r) && p < |t.free| / r && FirstFit(t.free, r, 0) == None
    ensures 0 <= p * r < |t.sizes| && t.sizes[p * r] == r
  {
    ProductNotNegative(p, r);
    WindowFits(|t.free|, r, p);
    Remainder(p, 0, r);
    SlotTakenAt(t, r, p * r);
  }

  lemma SlotTakenAt(t: Tables, r: nat, start: nat)
    requires 0 < r && Valid(t) && Uniform(t, r) && start + r <= |t.free| && start % r == 0
    requires !FreeRun(t.free, start, r)
    ensures t.sizes[start] == r
  {
    var k :| start <= k < start + r && !t.free[k];
    SameSlot(start, k, r);
    UniformUsed(t, r, k);
  }

  /** The first q multiples of r, in order. */
  lemma {:induction false} Multiples(q: nat, r: nat) returns (picks: seq<nat>)
    requires 0 < r
    ensures |picks| == q && forall p :: 0 <= p < q ==> picks[p] == p * r
    ensures forall p, p' :: 0 <= p < p' < q ==> picks[p] < picks[p']
  {
    if q == 0 {
      picks := [];
    } else {
      var before := Multiples(q - 1, r);
      ProductNotNegative(q - 1, r);
      forall p | 0 <= p < q - 1
        ensures before[p] < (q - 1) * r
      {
        Multiply(p + 1, q - 1, r);
        assert (p + 1) * r == p * r + r;
      }
      picks := before + [(q - 1) * r];
    }
  }

  /** A uniform page refuses another block exactly when as many are live as fit side by side. */
  lemma UniformRefusal(t: Tables, r: nat)
    requires 0 < r && Valid(t) && Uniform(t, r)
    ensures Blocks(t) <= |t.free| / r
    ensures FirstFit(t.free, r, 0) == None <==> Blocks(t) == |t.free| / r
  {
    CapacityBound(t, r);
    if FirstFit(t.free, r, 0) == None {
      var picks := Multiples(|t.free| / r, r);
      forall p | 0 <= p < |picks|
        ensures picks[p] < |t.sizes| && t.sizes[picks[p]] == r
      {
        SlotTaken(t, r, p);
      }
      Picks(t.sizes, IsLive, picks);
    } else {
      var i := FirstFit(t.free, r, 0).value;
      TakeKeepsUniform(t, r);
      TakeKeepsValid(t, i, r);
      TakeCounts(t, i, r);
      CapacityBound(Take(t, i, r), r);
    }
  }
}
