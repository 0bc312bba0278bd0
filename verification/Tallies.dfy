/** Sums of weights over a sequence: the one way this project counts threads, chunks and blocks. */
module Tallies {

  datatype Option<+T> = None | Some(value: T)

  /** The total weight of the elements of s. */
  function Tally<T>(s: seq<T>, w: T -> nat): nat {
    if s == [] then 0 else w(s[0]) + Tally(s[1..], w)
  }

  /** The indicator weight of one value; Count is the tally it induces. */
  function Is<T(==)>(x: T): T -> nat {
    y => if y == x then 1 else 0
  }

  function Count<T(==)>(s: seq<T>, x: T): nat {
    Tally(s, Is(x))
  }

  lemma {:induction false} TallySet<T>(s: seq<T>, i: nat, x: T, w: T -> nat)
    requires i < |s|
    ensures Tally(s[i := x], w) + w(s[i]) == Tally(s, w) + w(x)
  {
    if i == 0 {
      assert s[0 := x][1..] == s[1..];
    } else {
      assert s[i := x][1..] == s[1..][i - 1 := x];
      TallySet(s[1..], i - 1, x, w);
    }
  }

  lemma {:induction false} TallyConcat<T>(a: seq<T>, b: seq<T>, w: T -> nat)
    ensures Tally(a + b, w) == Tally(a, w) + Tally(b, w)
  {
    if a == [] {
      assert a + b == b;
    } else {
      assert (a + b)[1..] == a[1..] + b;
      TallyConcat(a[1..], b, w);
    }
  }

  lemma {:induction false} TallyAtLeast<T>(s: seq<T>, i: nat, w: T -> nat)
    requires i < |s|
    ensures w(s[i]) <= Tally(s, w)
  {
    if i != 0 {
      TallyAtLeast(s[1..], i - 1, w);
    }
  }

  /** Two positions contribute both their weights. */
  lemma {:induction false} TallyAtLeastTwo<T>(s: seq<T>, i: nat, j: nat, w: T -> nat)
    requires i < |s| && j < |s| && i != j
    ensures w(s[i]) + w(s[j]) <= Tally(s, w)
  {
    if i == 0 {
      TallyAtLeast(s[1..], j - 1, w);
    } else if j == 0 {
      TallyAtLeast(s[1..], i - 1, w);
    } else {
      TallyAtLeastTwo(s[1..], i - 1, j - 1, w);
    }
  }

  lemma {:induction false} TallyAtMost<T>(s: seq<T>, w: T -> nat, most: nat)
    requires forall i :: 0 <= i < |s| ==> w(s[i]) <= most
    ensures Tally(s, w) <= most * |s|
  {
    if s != [] {
      TallyAtMost(s[1..], w, most);
      assert most * |s| == most + most * |s[1..]|;
    }
  }

  lemma {:induction false} TallyZero<T>(s: seq<T>, w: T -> nat)
    ensures Tally(s, w) == 0 <==> forall i :: 0 <= i < |s| ==> w(s[i]) == 0
  {
    if s != [] {
      TallyZero(s[1..], w);
      assert forall i :: 0 <= i < |s[1..]| ==> s[1..][i] == s[i + 1];
      if Tally(s[1..], w) != 0 {
        var i :| 0 <= i < |s[1..]| && w(s[1..][i]) != 0;
        assert w(s[i + 1]) != 0;
      }
    }
  }

  /** A pointwise smaller weight has a smaller total. */
  lemma {:induction false} TallyMonotone<T, U>(s: seq<T>, t: seq<U>, v: T -> nat, w: U -> nat)
    requires |s| == |t|
    requires forall i :: 0 <= i < |s| ==> v(s[i]) <= w(t[i])
    ensures Tally(s, v) <= Tally(t, w)
  {
    if s != [] {
      assert forall i :: 0 <= i < |s[1..]| ==> s[1..][i] == s[i + 1] && t[1..][i] == t[i + 1];
      TallyMonotone(s[1..], t[1..], v, w);
    }
  }

  lemma CountSet<T>(s: seq<T>, i: nat, x: T, y: T)
    requires i < |s|
    ensures Count(s[i := x], y) + Is(y)(s[i]) == Count(s, y) + Is(y)(x)
  {
    TallySet(s, i, x, Is(y));
  }

  lemma CountZero<T>(s: seq<T>, x: T)
    ensures Count(s, x) == 0 <==> x !in s
  {
    TallyZero(s, Is(x));
    if x in s {
      var i :| 0 <= i < |s| && s[i] == x;
      assert Is(x)(s[i]) == 1;
    }
  }
}
