/** Finite sums of reals over an index range. The matrix code of the simulator is
    nothing but nested sums, so every proof about it rests on these laws. Most are
    stated in relational form (the pointwise relation is a precondition), so that a
    caller may use any two functions that agree on the range. */
module Sums {

  type Vec = int -> real

  /** f(lo) + f(lo + 1) + ... + f(hi - 1) */
  function Sum(f: Vec, lo: int, hi: int): (s: real)
    decreases hi - lo
  {
    if hi <= lo then 0.0 else Sum(f, lo, hi - 1) + f(hi - 1)
  }

  lemma {:induction false} SumExt(f: Vec, g: Vec, lo: int, hi: int)
    requires forall i :: lo <= i < hi ==> f(i) == g(i)
    ensures Sum(f, lo, hi) == Sum(g, lo, hi)
    decreases hi - lo
  {
    if lo < hi {
      SumExt(f, g, lo, hi - 1);
    }
  }

  lemma {:induction false} SumZero(f: Vec, lo: int, hi: int)
    requires forall i :: lo <= i < hi ==> f(i) == 0.0
    ensures Sum(f, lo, hi) == 0.0
    decreases hi - lo
  {
    if lo < hi {
      SumZero(f, lo, hi - 1);
    }
  }

  lemma {:induction false} SumAdd(f: Vec, g: Vec, h: Vec, lo: int, hi: int)
    requires forall i :: lo <= i < hi ==> h(i) == f(i) + g(i)
    ensures Sum(h, lo, hi) == Sum(f, lo, hi) + Sum(g, lo, hi)
    decreases hi - lo
  {
    if lo < hi {
      SumAdd(f, g, h, lo, hi - 1);
    }
  }

  lemma {:induction false} SumScale(f: Vec, g: Vec, c: real, lo: int, hi: int)
    requires forall i :: lo <= i < hi ==> g(i) == c * f(i)
    ensures Sum(g, lo, hi) == c * Sum(f, lo, hi)
    decreases hi - lo
  {
    if lo < hi {
      SumScale(f, g, c, lo, hi - 1);
    }
  }

  lemma {:induction false} SumSplit(f: Vec, lo: int, mid: int, hi: int)
    requires lo <= mid <= hi
    ensures Sum(f, lo, hi) == Sum(f, lo, mid) + Sum(f, mid, hi)
    decreases hi - lo
  {
    if mid < hi {
      SumSplit(f, lo, mid, hi - 1);
    }
  }

  lemma {:induction false} SumFirst(f: Vec, lo: int, hi: int)
    requires lo < hi
    ensures Sum(f, lo, hi) == f(lo) + Sum(f, lo + 1, hi)
  {
    SumSplit(f, lo, lo + 1, hi);
    assert Sum(f, lo, lo + 1) == Sum(f, lo, lo) + f(lo);
  }

  lemma {:induction false} SumShift(f: Vec, g: Vec, k: int, lo: int, hi: int)
    requires forall i :: lo <= i < hi ==> g(i) == f(i + k)
    ensures Sum(g, lo, hi) == Sum(f, lo + k, hi + k)
    decreases hi - lo
  {
    if lo < hi {
      SumShift(f, g, k, lo, hi - 1);
    }
  }

  /** Only index k contributes. */
  lemma {:induction false} SumSingle(f: Vec, k: int, lo: int, hi: int)
    requires lo <= k < hi
    requires forall i :: lo <= i < hi && i != k ==> f(i) == 0.0
    ensures Sum(f, lo, hi) == f(k)
  {
    SumSplit(f, lo, k, hi);
    SumFirst(f, k, hi);
    SumZero(f, lo, k);
    SumZero(f, k + 1, hi);
  }

  lemma {:induction false} SumNonNegative(f: Vec, lo: int, hi: int)
    requires forall i :: lo <= i < hi ==> f(i) >= 0.0
    ensures Sum(f, lo, hi) >= 0.0
    decreases hi - lo
  {
    if lo < hi {
      SumNonNegative(f, lo, hi - 1);
    }
  }

  /** A sum of nonnegative terms that vanishes has only zero terms. */
  lemma {:induction false} SumZeroTerms(f: Vec, lo: int, hi: int)
    requires forall i :: lo <= i < hi ==> f(i) >= 0.0
    requires Sum(f, lo, hi) == 0.0
    ensures forall i :: lo <= i < hi ==> f(i) == 0.0
    decreases hi - lo
  {
    if lo < hi {
      SumNonNegative(f, lo, hi - 1);
      SumZeroTerms(f, lo, hi - 1);
    }
  }

  /** Exchange of summation order: the row sums and the column sums of the same
      table have the same total. */
  lemma {:induction false} SumSwap(F: (int, int) -> real, rows: Vec, cols: Vec, m: int, n: int)
    requires forall i :: 0 <= i < m ==> rows(i) == Sum(j => F(i, j), 0, n)
    requires forall j :: 0 <= j < n ==> cols(j) == Sum(i => F(i, j), 0, m)
    ensures Sum(rows, 0, m) == Sum(cols, 0, n)
    decreases m
  {
    if m <= 0 {
      SumZero(cols, 0, n);
    } else {
      var cols' := j => Sum(i => F(i, j), 0, m - 1);
      SumSwap(F, rows, cols', m - 1, n);
      var last := j => F(m - 1, j);
      forall j | 0 <= j < n
        ensures cols(j) == cols'(j) + last(j)
      {
        var col := i => F(i, j);
        assert Sum(col, 0, m) == Sum(col, 0, m - 1) + col(m - 1);
      }
      SumAdd(cols', last, cols, 0, n);
      assert rows(m - 1) == Sum(last, 0, n);
    }
  }

  /** A sum does not depend on the order of its terms: to and back are inverse renumberings. */
  lemma {:induction false} SumPermuted(f: Vec, g: Vec, to: seq<int>, back: seq<int>, n: nat)
    requires |to| == |back| == n
    requires forall i :: 0 <= i < n ==> 0 <= to[i] < n && back[to[i]] == i && g(i) == f(to[i])
    requires forall j :: 0 <= j < n ==> 0 <= back[j] < n && to[back[j]] == j
    ensures Sum(g, 0, n) == Sum(f, 0, n)
  {
    var F := (i, j) => if 0 <= i < |to| && to[i] == j then f(j) else 0.0;
    forall i | 0 <= i < n ensures g(i) == Sum(j => F(i, j), 0, n) {
      SumSingle(j => F(i, j), to[i], 0, n);
    }
    forall j | 0 <= j < n ensures f(j) == Sum(i => F(i, j), 0, n) {
      SumSingle(i => F(i, j), back[j], 0, n);
    }
    SumSwap(F, g, f, n, n);
  }
}
