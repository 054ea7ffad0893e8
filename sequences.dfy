/** Sums and maxima of integer sequences, the reductions the scheduler's
    metrics are built from. */
module Sequences {

  /** Python's max() of two integers. */
  function Max(a: int, b: int): int
  {
    if a >= b then a else b
  }

  /** Sum of a sequence, taken from the front like Python's sum(). */
  function Sum(s: seq<int>): int
  {
    if s == [] then 0 else Sum(s[..|s| - 1]) + s[|s| - 1]
  }

  /** Raising one element by d raises the sum by d and leaves the rest alone. */
  lemma {:induction false} SumUpdate(s: seq<int>, k: nat, d: int)
    requires k < |s|
    ensures Sum(s[k := s[k] + d]) == Sum(s) + d
  {
    var n := |s| - 1;
    var t := s[k := s[k] + d];
    assert t[..n] == if k == n then s[..n] else s[..n][k := s[k] + d];
    if k < n {
      SumUpdate(s[..n], k, d);
    }
  }

  /** Sum of a concatenation. */
  lemma {:induction false} SumAppend(s: seq<int>, t: seq<int>)
    ensures Sum(s + t) == Sum(s) + Sum(t)
    decreases |t|
  {
    if t == [] {
      assert s + t == s;
    } else {
      var n := |t| - 1;
      assert (s + t)[..|s| + n] == s + t[..n];
      SumAppend(s, t[..n]);
    }
  }

  /** Every element between lo and hi bounds the sum by |s|*lo and |s|*hi. */
  lemma {:induction false} SumBounds(s: seq<int>, lo: int, hi: int)
    requires forall x :: x in s ==> lo <= x <= hi
    ensures |s| * lo <= Sum(s) <= |s| * hi
  {
    if s != [] {
      var n := |s| - 1;
      assert forall x :: x in s[..n] ==> x in s;
      SumBounds(s[..n], lo, hi);
      assert s[n] in s;
      assert |s| * lo == n * lo + lo && |s| * hi == n * hi + hi;
    }
  }

  /** Largest element, like Python's max() on a non-empty sequence. */
  function MaxOf(s: seq<int>): (m: int)
    requires s != []
    ensures m in s
    ensures forall x :: x in s ==> x <= m
  {
    if |s| == 1 then s[0]
    else
      var n := |s| - 1;
      var m' := MaxOf(s[..n]);
      assert forall x :: x in s ==> x in s[..n] || x == s[n];
      if s[n] > m' then s[n] else m'
  }
}
