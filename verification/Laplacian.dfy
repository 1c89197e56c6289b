/** Weighted graph Laplacians and their grounded part: why the matrix the simulator
    inverts is nonsingular, and why dropping the last equation loses nothing. */
module Laplacians {
  import opened Sums
  import opened LinearAlgebra

  ghost predicate Symmetric(A: Mat, n: int) {
    forall i, j :: 0 <= i < n && 0 <= j < n ==> A(i, j) == A(j, i)
  }

  /** Symmetric, with zero row sums and no positive entry off the diagonal. */
  ghost predicate IsLaplacian(A: Mat, n: int) {
    && Symmetric(A, n)
    && (forall i :: 0 <= i < n ==> Sum(Row(A, i), 0, n) == 0.0)
    && (forall i, j :: 0 <= i < n && 0 <= j < n && i != j ==> A(i, j) <= 0.0)
  }

  /** A walk along nonzero entries of A. */
  ghost predicate IsWalk(A: Mat, n: int, w: seq<int>) {
    && (forall k :: 0 <= k < |w| ==> 0 <= w[k] < n)
    && (forall k :: 0 <= k < |w| - 1 ==> w[k] == w[k + 1] || A(w[k], w[k + 1]) != 0.0)
  }

  ghost predicate Linked(A: Mat, n: int, i: int, j: int) {
    exists w: seq<int> :: |w| > 0 && w[0] == i && w[|w| - 1] == j && IsWalk(A, n, w)
  }

  /** Every index is linked to the last one, which is the grounded one. */
  ghost predicate LinkedToGround(A: Mat, n: int) {
    var ground := n - 1;
    forall i :: 0 <= i < n ==> Linked(A, n, i, ground)
  }

  ghost predicate AllLinked(A: Mat, n: int) {
    forall i, j :: 0 <= i < n && 0 <= j < n ==> Linked(A, n, i, j)
  }

  /** x' A x */
  function Quad(A: Mat, x: Vec, n: int): real {
    Dot(x, Apply(A, x, n), n)
  }

  /** The conductance between i and j times the squared voltage difference. */
  function Loss(A: Mat, x: Vec, i: int): Vec {
    j => -A(i, j) * ((x(i) - x(j)) * (x(i) - x(j)))
  }

  function TotalLoss(A: Mat, x: Vec, n: int): Vec {
    i => Sum(Loss(A, x, i), 0, n)
  }

  function Square(x: Vec): Vec {
    i => x(i) * x(i)
  }

  lemma Distribute(c: real, u: real, v: real)
    ensures c * (u + v) == c * u + c * v
  {}

  /** c * f + d * g - h, summed. */
  lemma {:induction false} SumCombination(f: Vec, g: Vec, h: Vec, c: real, d: real, t: Vec, n: int)
    requires forall j :: 0 <= j < n ==> t(j) == c * f(j) + d * g(j) - h(j)
    ensures Sum(t, 0, n) == c * Sum(f, 0, n) + d * Sum(g, 0, n) - Sum(h, 0, n)
  {
    if n > 0 {
      SumCombination(f, g, h, c, d, t, n - 1);
      Distribute(c, Sum(f, 0, n - 1), f(n - 1));
      Distribute(d, Sum(g, 0, n - 1), g(n - 1));
    }
  }

  lemma LossTerm(A: Mat, x: Vec, i: int, j: int, c: real, d: real)
    requires c == -(x(i) * x(i)) && d == 2.0 * x(i)
    ensures Loss(A, x, i)(j) == c * Row(A, i)(j) + d * Times(Row(A, i), x)(j) - Times(Row(A, i), Square(x))(j)
  {
    ExpandSquare(A(i, j), x(i), x(j));
  }

  /** sum_j -A(i,j) (x(i) - x(j))^2, expanded, for a row of zero sum. */
  lemma LossOfRow(A: Mat, x: Vec, i: int, n: int)
    requires Sum(Row(A, i), 0, n) == 0.0
    ensures TotalLoss(A, x, n)(i) == 2.0 * Times(x, Apply(A, x, n))(i) + -1.0 * Apply(A, Square(x), n)(i)
  {
    hide Loss, Times, Row, Square;
    var c, d := -(x(i) * x(i)), 2.0 * x(i);
    forall j | 0 <= j < n
      ensures Loss(A, x, i)(j) == c * Row(A, i)(j) + d * Times(Row(A, i), x)(j) - Times(Row(A, i), Square(x))(j)
    {
      LossTerm(A, x, i, j, c, d);
    }
    hide *;
    LossWith(A, x, i, n, c, d);
    DoubleProduct(x, Apply(A, x, n), i, d);
  }

  lemma LossWith(A: Mat, x: Vec, i: int, n: int, c: real, d: real)
    requires Sum(Row(A, i), 0, n) == 0.0
    requires forall j :: 0 <= j < n
               ==> Loss(A, x, i)(j) == c * Row(A, i)(j) + d * Times(Row(A, i), x)(j) - Times(Row(A, i), Square(x))(j)
    ensures TotalLoss(A, x, n)(i) == d * Apply(A, x, n)(i) - Apply(A, Square(x), n)(i)
  {
    hide Loss, Times, Row, Square, Sum;
    SumCombination(Row(A, i), Times(Row(A, i), x), Times(Row(A, i), Square(x)), c, d, Loss(A, x, i), n);
    NothingTimes(c, Sum(Row(A, i), 0, n));
  }

  lemma NothingTimes(c: real, s: real)
    requires s == 0.0
    ensures c * s == 0.0
  {}

  lemma DoubleProduct(x: Vec, y: Vec, i: int, d: real)
    requires d == 2.0 * x(i)
    ensures d * y(i) == 2.0 * Times(x, y)(i)
  {
    var u, v := x(i), y(i);
    assert 2.0 * u * v == 2.0 * (u * v);
  }

  lemma ExpandSquare(a: real, u: real, v: real)
    ensures -a * ((u - v) * (u - v)) == -(u * u) * a + 2.0 * u * (a * v) - a * (v * v)
  {
    assert (u - v) * (u - v) == u * u - 2.0 * (u * v) + v * v;
    assert a * (u * v) == u * (a * v);
  }

  /** Columns of a Laplacian sum to zero, so the entries of A * x do. */
  lemma {:induction false} ImageSumsToZero(A: Mat, x: Vec, n: int)
    requires IsLaplacian(A, n)
    ensures Sum(Apply(A, x, n), 0, n) == 0.0
  {
    var one := i => 1.0;
    Adjoint(A, one, x, n, n);
    SumExt(Times(one, Apply(A, x, n)), Apply(A, x, n), 0, n);
    forall j | 0 <= j < n
      ensures Times(Apply(Transpose(A), one, n), x)(j) == 0.0
    {
      SumExt(Times(Row(Transpose(A), j), one), Row(A, j), 0, n);
    }
    SumZero(Times(Apply(Transpose(A), one, n), x), 0, n);
  }

  lemma QuadIs(A: Mat, x: Vec, n: int)
    ensures Quad(A, x, n) == Sum(Times(x, Apply(A, x, n)), 0, n)
  {}

  /** Twice the quadratic form is the conductance-weighted sum of squared differences
      over all ordered pairs. */
  lemma {:induction false} QuadIsLoss(A: Mat, x: Vec, n: int)
    requires IsLaplacian(A, n)
    ensures 2.0 * Quad(A, x, n) == Sum(TotalLoss(A, x, n), 0, n)
  {
    hide Quad, TotalLoss, Apply, Times, Symmetric;
    var q, r := Times(x, Apply(A, x, n)), Apply(A, Square(x), n);
    var q2, r1 := i => 2.0 * q(i), i => -1.0 * r(i);
    QuadIs(A, x, n);
    SumScale(q, q2, 2.0, 0, n);
    SumScale(r, r1, -1.0, 0, n);
    ImageSumsToZero(A, Square(x), n);
    forall i | 0 <= i < n
      ensures TotalLoss(A, x, n)(i) == q2(i) + r1(i)
    {
      LossOfRow(A, x, i, n);
    }
    SumAdd(q2, r1, TotalLoss(A, x, n), 0, n);
  }

  lemma LossTermNonNegative(A: Mat, x: Vec, n: int, i: int, j: int)
    requires IsLaplacian(A, n) && 0 <= i < n && 0 <= j < n
    ensures Loss(A, x, i)(j) >= 0.0
  {
    SquareNonNegative(x(i) - x(j));
    if i != j {
      ProductNonNegative(-A(i, j), (x(i) - x(j)) * (x(i) - x(j)));
    } else {
      assert x(i) - x(j) == 0.0;
    }
  }

  lemma LossNonNegative(A: Mat, x: Vec, n: int)
    requires IsLaplacian(A, n)
    ensures forall i :: 0 <= i < n ==> TotalLoss(A, x, n)(i) >= 0.0
    ensures forall i, j :: 0 <= i < n && 0 <= j < n ==> Loss(A, x, i)(j) >= 0.0
  {
    hide IsLaplacian, Loss;
    forall i | 0 <= i < n
      ensures TotalLoss(A, x, n)(i) >= 0.0
      ensures forall j :: 0 <= j < n ==> Loss(A, x, i)(j) >= 0.0
    {
      forall j | 0 <= j < n ensures Loss(A, x, i)(j) >= 0.0 {
        LossTermNonNegative(A, x, n, i, j);
      }
      SumNonNegative(Loss(A, x, i), 0, n);
    }
  }

  lemma SquareNonNegative(t: real)
    ensures t * t >= 0.0
  {
    if t < 0.0 { assert t * t == (-t) * (-t); }
  }

  lemma ProductNonNegative(s: real, t: real)
    requires s >= 0.0 && t >= 0.0
    ensures s * t >= 0.0
  {}

  lemma {:induction false} QuadNonNegative(A: Mat, x: Vec, n: int)
    requires IsLaplacian(A, n)
    ensures Quad(A, x, n) >= 0.0
  {
    QuadIsLoss(A, x, n);
    LossNonNegative(A, x, n);
    SumNonNegative(TotalLoss(A, x, n), 0, n);
  }

  /** Without loss, neighbours are at the same voltage. */
  lemma {:induction false} NoLossNoDifference(A: Mat, x: Vec, n: int, i: int, j: int)
    requires IsLaplacian(A, n) && Quad(A, x, n) == 0.0
    requires 0 <= i < n && 0 <= j < n && (i == j || A(i, j) != 0.0)
    ensures x(i) == x(j)
  {
    hide IsLaplacian, Quad, Loss;
    QuadIsLoss(A, x, n);
    LossNonNegative(A, x, n);
    SumZeroTerms(TotalLoss(A, x, n), 0, n);
    assert TotalLoss(A, x, n)(i) == 0.0;
    SumZeroTerms(Loss(A, x, i), 0, n);
    NoLoss(A, x, i, j);
  }

  lemma NoLoss(A: Mat, x: Vec, i: int, j: int)
    requires Loss(A, x, i)(j) == 0.0
    ensures A(i, j) == 0.0 || x(i) == x(j)
  {
    ZeroProduct(A(i, j), x(i) - x(j));
  }

  lemma ZeroFactor(s: real, t: real)
    requires s * t == 0.0
    ensures s == 0.0 || t == 0.0
  {}

  lemma ZeroProduct(a: real, t: real)
    requires -a * (t * t) == 0.0
    ensures a == 0.0 || t == 0.0
  {
    ZeroFactor(-a, t * t);
    if a != 0.0 {
      ZeroFactor(t, t);
    }
  }

  lemma {:induction false} WalkLevel(A: Mat, x: Vec, n: int, w: seq<int>)
    requires IsLaplacian(A, n) && Quad(A, x, n) == 0.0
    requires |w| > 0 && IsWalk(A, n, w)
    ensures x(w[0]) == x(w[|w| - 1])
    decreases |w|
  {
    if |w| > 1 {
      var v := w[1..];
      forall k | 0 <= k < |v| - 1 ensures v[k] == v[k + 1] || A(v[k], v[k + 1]) != 0.0 {
        assert v[k] == w[k + 1] && v[k + 1] == w[k + 1 + 1];
      }
      WalkLevel(A, x, n, v);
      NoLossNoDifference(A, x, n, w[0], w[0 + 1]);
    }
  }

  /** Drops everything from index m on. */
  function Truncate(x: Vec, m: int): Vec {
    i => if i < m then x(i) else 0.0
  }

  /** Products with a vector that vanishes from m on only see the first m columns. */
  lemma DotTruncate(a: Vec, x: Vec, m: int, n: int)
    requires 0 <= m <= n
    requires forall i :: m <= i < n ==> x(i) == 0.0
    ensures Dot(a, x, n) == Dot(a, x, m)
  {
    SumSplit(Times(a, x), 0, m, n);
    SumZero(Times(a, x), m, n);
  }

  /** The quadratic form of the first m rows and columns is that of the whole matrix on vectors
      that vanish from m on. */
  lemma {:induction false} GroundedQuad(A: Mat, x: Vec, m: int, n: int)
    requires 0 <= m <= n
    ensures Quad(A, Truncate(x, m), n) == Quad(A, x, m)
  {
    var t := Truncate(x, m);
    DotCommutes(t, Apply(A, t, n), n);
    DotTruncate(Apply(A, t, n), t, m, n);
    DotCommutes(t, Apply(A, t, n), m);
    forall i | 0 <= i < m
      ensures Apply(A, t, n)(i) == Apply(A, x, m)(i)
    {
      DotTruncate(Row(A, i), t, m, n);
      DotExt(Row(A, i), Row(A, i), t, x, m);
    }
    DotExt(t, x, Apply(A, t, n), Apply(A, x, m), m);
  }

  /** The grounded part of a Laplacian is positive definite when every interface is
      linked to the grounded one. */
  lemma {:induction false} GroundedPositiveDefinite(A: Mat, x: Vec, n: int)
    requires n > 0 && IsLaplacian(A, n) && LinkedToGround(A, n)
    ensures Quad(A, x, n - 1) >= 0.0
    ensures Quad(A, x, n - 1) == 0.0 ==> Vanishes(x, n - 1)
  {
    var t := Truncate(x, n - 1);
    GroundedQuad(A, x, n - 1, n);
    QuadNonNegative(A, t, n);
    if Quad(A, x, n - 1) == 0.0 {
      forall i | 0 <= i < n - 1
        ensures x(i) == 0.0
      {
        assert Linked(A, n, i, n - 1);
        var w: seq<int> :| |w| > 0 && w[0] == i && w[|w| - 1] == n - 1 && IsWalk(A, n, w);
        WalkLevel(A, t, n, w);
      }
    }
  }

  lemma QuadOfKernel(A: Mat, x: Vec, n: int)
    requires Solves(A, x, ZERO, n)
    ensures Quad(A, x, n) == 0.0
  {
    forall i | 0 <= i < n
      ensures Times(x, Apply(A, x, n))(i) == 0.0
    {
      assert Apply(A, x, n)(i) == ZERO(i);
    }
    SumZero(Times(x, Apply(A, x, n)), 0, n);
  }

  /** The matrix that LocalCalculation inverts has a trivial kernel. */
  lemma {:induction false} GroundedNonsingular(A: Mat, n: int)
    requires n > 0 && IsLaplacian(A, n) && LinkedToGround(A, n)
    ensures Nonsingular(A, n - 1)
  {
    var m := n - 1;
    forall x: Vec | Solves(A, x, ZERO, m)
      ensures Vanishes(x, m)
    {
      QuadOfKernel(A, x, m);
      GroundedPositiveDefinite(A, x, n);
    }
  }

  /** Neither does any smaller part of a connected network: whoever keeps at least one interface
      out, be it the grounded one or all boundary interfaces, can invert the rest. */
  lemma {:induction false} PartNonsingular(A: Mat, m: int, n: int)
    requires IsLaplacian(A, n) && AllLinked(A, n) && 0 <= m < n
    ensures Nonsingular(A, m)
  {
    hide IsLaplacian, Quad, AllLinked, Solves;
    forall x: Vec | Solves(A, x, ZERO, m)
      ensures Vanishes(x, m)
    {
      QuadOfKernel(A, x, m);
      PartDefinite(A, x, m, n);
    }
  }

  /** Such a part is positive definite. */
  lemma PartDefinite(A: Mat, x: Vec, m: int, n: int)
    requires IsLaplacian(A, n) && AllLinked(A, n) && 0 <= m < n && Quad(A, x, m) == 0.0
    ensures Vanishes(x, m)
  {
    hide IsLaplacian, Quad, AllLinked;
    var t := Truncate(x, m);
    GroundedQuad(A, x, m, n);
    forall i | 0 <= i < m
      ensures x(i) == 0.0
    {
      SameLevel(A, t, n, i, m);
    }
  }

  /** Without loss, linked interfaces are at the same voltage. */
  lemma SameLevel(A: Mat, x: Vec, n: int, i: int, j: int)
    requires IsLaplacian(A, n) && AllLinked(A, n) && Quad(A, x, n) == 0.0 && 0 <= i < n && 0 <= j < n
    ensures x(i) == x(j)
  {
    hide IsLaplacian, Quad;
    assert Linked(A, n, i, j);
    var w: seq<int> :| |w| > 0 && w[0] == i && w[|w| - 1] == j && IsWalk(A, n, w);
    WalkLevel(A, x, n, w);
  }

  /** Kirchhoff's current law at the grounded interface comes for free: if the injections
      sum to zero and all other rows hold, the dropped row holds too. */
  lemma {:induction false} DroppedRowHolds(A: Mat, x: Vec, b: Vec, n: int)
    requires n > 0 && IsLaplacian(A, n)
    requires SolvesRows(A, x, b, n - 1, n)
    requires Sum(b, 0, n) == 0.0
    ensures Solves(A, x, b, n)
  {
    ImageSumsToZero(A, x, n);
    var y := Apply(A, x, n);
    assert Sum(y, 0, n) == Sum(y, 0, n - 1) + y(n - 1);
    assert Sum(b, 0, n) == Sum(b, 0, n - 1) + b(n - 1);
    SumExt(y, b, 0, n - 1);
  }

  /** Conversely the dropped row fails whenever the injections do not sum to zero. */
  lemma {:induction false} DroppedRowNeedsBalance(A: Mat, x: Vec, b: Vec, n: int)
    requires n > 0 && IsLaplacian(A, n)
    requires Solves(A, x, b, n)
    ensures Sum(b, 0, n) == 0.0
  {
    ImageSumsToZero(A, x, n);
    SumExt(Apply(A, x, n), b, 0, n);
  }
}
