/** Matrices as total index functions with explicit dimensions, and the part of linear
    algebra the simulator takes from GSL: matrix-vector products, linear systems,
    nonsingularity and inversion. */
module LinearAlgebra {
  import opened Sums

  type Mat = (int, int) -> real

  const ZERO: Vec := i => 0.0

  function Unit(k: int): Vec {
    i => if i == k then 1.0 else 0.0
  }

  function Times(a: Vec, x: Vec): Vec {
    j => a(j) * x(j)
  }

  function Row(A: Mat, i: int): Vec {
    j => A(i, j)
  }

  function Transpose(A: Mat): Mat {
    (i, j) => A(j, i)
  }

  function Dot(a: Vec, x: Vec, n: int): real {
    Sum(Times(a, x), 0, n)
  }

  /** A * x, where A has n columns. */
  function Apply(A: Mat, x: Vec, n: int): Vec {
    i => Dot(Row(A, i), x, n)
  }

  /** A * x == b in the first m rows, where A has n columns. */
  predicate SolvesRows(A: Mat, x: Vec, b: Vec, m: int, n: int) {
    forall i :: 0 <= i < m ==> Apply(A, x, n)(i) == b(i)
  }

  predicate Solves(A: Mat, x: Vec, b: Vec, n: int) {
    SolvesRows(A, x, b, n, n)
  }

  predicate Vanishes(x: Vec, n: int) {
    forall i :: 0 <= i < n ==> x(i) == 0.0
  }

  /** Only the zero vector is mapped to zero. */
  ghost predicate Nonsingular(A: Mat, n: int) {
    forall x: Vec :: Solves(A, x, ZERO, n) ==> Vanishes(x, n)
  }

  /** A * R is the identity. */
  predicate IsInverse(A: Mat, R: Mat, n: int) {
    forall k :: 0 <= k < n ==> Solves(A, Row(Transpose(R), k), Unit(k), n)
  }

  // ----- algebra of Dot and Apply -----

  lemma DotExt(a: Vec, b: Vec, x: Vec, y: Vec, n: int)
    requires forall j :: 0 <= j < n ==> a(j) == b(j) && x(j) == y(j)
    ensures Dot(a, x, n) == Dot(b, y, n)
  {
    SumExt(Times(a, x), Times(b, y), 0, n);
  }

  lemma TimesLinear(a: Vec, x: Vec, c: real, y: Vec, z: Vec, j: int)
    requires z(j) == x(j) + c * y(j)
    ensures Times(a, z)(j) == Times(a, x)(j) + c * Times(a, y)(j)
  {
    var p, q, r := a(j), x(j), y(j);
    assert p * (q + c * r) == p * q + c * (p * r);
  }

  /** Dot is linear in its right argument. */
  lemma DotLinear(a: Vec, x: Vec, c: real, y: Vec, z: Vec, n: int)
    requires forall j :: 0 <= j < n ==> z(j) == x(j) + c * y(j)
    ensures Dot(a, z, n) == Dot(a, x, n) + c * Dot(a, y, n)
  {
    hide Times;
    var cy := j => c * Times(a, y)(j);
    forall j | 0 <= j < n
      ensures Times(a, z)(j) == Times(a, x)(j) + cy(j)
    {
      TimesLinear(a, x, c, y, z, j);
    }
    SumScale(Times(a, y), cy, c, 0, n);
    SumAdd(Times(a, x), cy, Times(a, z), 0, n);
  }

  lemma DotCommutes(a: Vec, x: Vec, n: int)
    ensures Dot(a, x, n) == Dot(x, a, n)
  {
    SumExt(Times(a, x), Times(x, a), 0, n);
  }

  lemma DotUnit(a: Vec, k: int, n: int)
    requires 0 <= k < n
    ensures Dot(a, Unit(k), n) == a(k)
  {
    SumSingle(Times(a, Unit(k)), k, 0, n);
  }

  /** x . (A y) == (A' x) . y, for A with m rows and n columns. */
  lemma {:induction false} Adjoint(A: Mat, x: Vec, y: Vec, m: int, n: int)
    ensures Dot(x, Apply(A, y, n), m) == Dot(Apply(Transpose(A), x, m), y, n)
  {
    var F := (i: int, j: int) => x(i) * (A(i, j) * y(j));
    var rows := Times(x, Apply(A, y, n));
    var cols := Times(Apply(Transpose(A), x, m), y);
    forall i | 0 <= i < m
      ensures rows(i) == Sum(j => F(i, j), 0, n)
    {
      SumScale(Times(Row(A, i), y), j => F(i, j), x(i), 0, n);
    }
    forall j | 0 <= j < n
      ensures cols(j) == Sum(i => F(i, j), 0, m)
    {
      var col := i => F(i, j);
      var t := Times(Row(Transpose(A), j), x);
      forall i | 0 <= i < m
        ensures col(i) == y(j) * t(i)
      {
        assert x(i) * (A(i, j) * y(j)) == y(j) * (A(i, j) * x(i));
      }
      SumScale(t, col, y(j), 0, m);
    }
    SumSwap(F, rows, cols, m, n);
  }

  /** A * (R * b) == b when A * R is the identity. */
  lemma {:induction false} InverseSolves(A: Mat, R: Mat, b: Vec, n: int)
    requires IsInverse(A, R, n)
    ensures Solves(A, Apply(R, b, n), b, n)
  {
    forall i | 0 <= i < n
      ensures Apply(A, Apply(R, b, n), n)(i) == b(i)
    {
      Adjoint(R, Row(A, i), b, n, n);
      var w := Apply(Transpose(R), Row(A, i), n);
      forall k | 0 <= k < n
        ensures w(k) == Unit(i)(k)
      {
        DotCommutes(Row(Transpose(R), k), Row(A, i), n);
        assert Apply(A, Row(Transpose(R), k), n)(i) == Unit(k)(i);
      }
      DotExt(w, Unit(i), b, b, n);
      DotCommutes(Unit(i), b, n);
      DotUnit(b, i, n);
    }
  }

  /** A nonsingular system has at most one solution. */
  lemma {:induction false} SolutionUnique(A: Mat, x: Vec, y: Vec, b: Vec, n: int)
    requires Nonsingular(A, n) && Solves(A, x, b, n) && Solves(A, y, b, n)
    ensures forall i :: 0 <= i < n ==> x(i) == y(i)
  {
    var d := i => x(i) + -1.0 * y(i);
    forall i | 0 <= i < n
      ensures Apply(A, d, n)(i) == ZERO(i)
    {
      DotLinear(Row(A, i), x, -1.0, y, d, n);
      assert Apply(A, x, n)(i) == b(i) && Apply(A, y, n)(i) == b(i);
    }
    assert Solves(A, d, ZERO, n);
    assert Vanishes(d, n);
    forall i | 0 <= i < n ensures x(i) == y(i) { assert d(i) == 0.0; }
  }

  /** x is the one solution of A * x == b. */
  ghost predicate OnlySolution(A: Mat, x: Vec, b: Vec, n: int) {
    Solves(A, x, b, n) && forall z: Vec :: Solves(A, z, b, n) ==> forall i :: 0 <= i < n ==> z(i) == x(i)
  }

  lemma NonsingularOnly(A: Mat, x: Vec, b: Vec, n: int)
    requires Nonsingular(A, n) && Solves(A, x, b, n)
    ensures OnlySolution(A, x, b, n)
  {
    forall z: Vec | Solves(A, z, b, n) ensures forall i :: 0 <= i < n ==> z(i) == x(i) {
      SolutionUnique(A, z, x, b, n);
    }
  }

  // ----- Gaussian elimination -----

  /** The first row from k on with a nonzero entry in column 0, or n if there is none. */
  function Pivot(A: Mat, k: int, n: int): (p: int)
    requires 0 <= k <= n
    ensures k <= p <= n
    ensures p < n ==> A(p, 0) != 0.0
    ensures forall i :: k <= i < p ==> A(i, 0) == 0.0
    decreases n - k
  {
    if k == n || A(k, 0) != 0.0 then k else Pivot(A, k + 1, n)
  }

  /** Renumbers the rows other than p. */
  function Skip(p: int, i: int): int {
    if i < p then i else i + 1
  }

  function Factor(A: Mat, p: int, i: int): real
    requires A(p, 0) != 0.0
  {
    A(Skip(p, i), 0) / A(p, 0)
  }

  /** v less f times u. */
  function Less(v: real, f: real, u: real): real {
    v - f * u
  }

  lemma LessIsSum(v: real, f: real, u: real)
    ensures Less(v, f, u) == v + (-f) * u
  {}

  function Eliminated(A: Mat, p: int): Mat
    requires A(p, 0) != 0.0
  {
    (i, j) => Less(A(Skip(p, i), j + 1), Factor(A, p, i), A(p, j + 1))
  }

  function EliminatedRhs(A: Mat, b: Vec, p: int): Vec
    requires A(p, 0) != 0.0
  {
    i => Less(b(Skip(p, i)), Factor(A, p, i), b(p))
  }

  function Tail(x: Vec): Vec {
    j => x(j + 1)
  }

  function BackSubstitute(A: Mat, b: Vec, p: int, y: Vec, n: int): Vec
    requires A(p, 0) != 0.0
  {
    var x0 := (b(p) - Dot(Tail(Row(A, p)), y, n - 1)) / A(p, 0);
    j => if j == 0 then x0 else y(j - 1)
  }

  /** The solution of A * x == b by elimination of column 0 with the first usable pivot;
      stands for the LU solver, of which only the contract is used. */
  function GaussSolve(A: Mat, b: Vec, n: int): Vec
    decreases n
  {
    if n <= 0 then ZERO
    else
      var p := Pivot(A, 0, n);
      if p == n then ZERO
      else BackSubstitute(A, b, p, GaussSolve(Eliminated(A, p), EliminatedRhs(A, b, p), n - 1), n)
  }

  lemma DotFirst(a: Vec, x: Vec, n: int)
    requires n > 0
    ensures Dot(a, x, n) == a(0) * x(0) + Dot(Tail(a), Tail(x), n - 1)
  {
    var f, g := Times(a, x), Times(Tail(a), Tail(x));
    assert f(0) == a(0) * x(0);
    forall i ensures g(i) == f(i + 1) {}
    hide Times;
    SumFirst(f, 0, n);
    SumShift(f, g, 1, 0, n - 1);
  }

  /** Row i of the eliminated matrix combines two rows of A. */
  lemma EliminatedRow(A: Mat, p: int, i: int, y: Vec, n: int)
    requires A(p, 0) != 0.0
    ensures Apply(Eliminated(A, p), y, n)(i)
         == Less(Dot(Tail(Row(A, Skip(p, i))), y, n), Factor(A, p, i), Dot(Tail(Row(A, p)), y, n))
  {
    var r, q, e := Tail(Row(A, Skip(p, i))), Tail(Row(A, p)), Row(Eliminated(A, p), i);
    var f := Factor(A, p, i);
    forall j | 0 <= j < n ensures e(j) == r(j) + (-f) * q(j) {
      LessIsSum(r(j), f, q(j));
    }
    LessIsSum(Dot(y, r, n), f, Dot(y, q, n));
    DotLinear(y, r, -f, q, e, n);
    DotCommutes(y, r, n);
    DotCommutes(y, q, n);
    DotCommutes(y, e, n);
  }

  lemma DivideThenMultiply(u: real, v: real)
    requires v != 0.0
    ensures v * (u / v) == u
  {}

  /** Undoes the elimination of one row: ap * x0 + s == bp and t - f * s == bi - f * bp
      with f == ai / ap give ai * x0 + t == bi. */
  lemma RowCombination(f: real, ai: real, ap: real, x0: real, t: real, s: real, bi: real, bp: real)
    requires ap != 0.0 && f == ai / ap && ap * x0 == bp - s
    requires Less(t, f, s) == Less(bi, f, bp)
    ensures ai * x0 + t == bi
  {
    DivideThenMultiply(ai, ap);
    assert ai * x0 == (f * ap) * x0;
    assert (f * ap) * x0 == f * (ap * x0);
    assert f * (bp - s) == f * bp - f * s;
  }

  /** The pivot row holds by the choice of the first unknown. */
  lemma PivotRowSolved(A: Mat, b: Vec, p: int, y: Vec, n: int)
    requires 0 < n && A(p, 0) != 0.0
    ensures A(p, 0) * BackSubstitute(A, b, p, y, n)(0) == b(p) - Dot(Tail(Row(A, p)), y, n - 1)
  {
    DivideThenMultiply(b(p) - Dot(Tail(Row(A, p)), y, n - 1), A(p, 0));
  }

  lemma RowSplit(A: Mat, b: Vec, p: int, y: Vec, n: int, i: int)
    requires 0 < n && A(p, 0) != 0.0
    ensures Apply(A, BackSubstitute(A, b, p, y, n), n)(i)
         == A(i, 0) * BackSubstitute(A, b, p, y, n)(0) + Dot(Tail(Row(A, i)), y, n - 1)
  {
    var x := BackSubstitute(A, b, p, y, n);
    DotFirst(Row(A, i), x, n);
    DotExt(Tail(Row(A, i)), Tail(Row(A, i)), Tail(x), y, n - 1);
  }

  lemma EliminatedRhsEntry(A: Mat, b: Vec, p: int, k: int)
    requires A(p, 0) != 0.0
    ensures EliminatedRhs(A, b, p)(k) == Less(b(Skip(p, k)), Factor(A, p, k), b(p))
    ensures Factor(A, p, k) == A(Skip(p, k), 0) / A(p, 0)
  {}

  /** Row Skip(p, k) of the larger system, from row k of the smaller one. */
  lemma RowSolved(A: Mat, b: Vec, p: int, y: Vec, n: int, k: int)
    requires 0 < n && A(p, 0) != 0.0
    requires Apply(Eliminated(A, p), y, n - 1)(k) == EliminatedRhs(A, b, p)(k)
    ensures Apply(A, BackSubstitute(A, b, p, y, n), n)(Skip(p, k)) == b(Skip(p, k))
  {
    hide *;
    var i, x0 := Skip(p, k), BackSubstitute(A, b, p, y, n)(0);
    var t, s, f := Dot(Tail(Row(A, i)), y, n - 1), Dot(Tail(Row(A, p)), y, n - 1), Factor(A, p, k);
    assert A(p, 0) * x0 == b(p) - s by { PivotRowSolved(A, b, p, y, n); }
    assert Less(t, f, s) == Less(b(i), f, b(p)) by {
      EliminatedRow(A, p, k, y, n - 1);
      EliminatedRhsEntry(A, b, p, k);
    }
    assert f == A(i, 0) / A(p, 0) by { EliminatedRhsEntry(A, b, p, k); }
    RowSplit(A, b, p, y, n, i);
    RowCombination(f, A(i, 0), A(p, 0), x0, t, s, b(i), b(p));
  }

  /** Solving the smaller system and substituting back solves the larger one. */
  lemma {:induction false} BackSubstituteSolves(A: Mat, b: Vec, p: int, y: Vec, n: int)
    requires 0 <= p < n && A(p, 0) != 0.0
    requires Solves(Eliminated(A, p), y, EliminatedRhs(A, b, p), n - 1)
    ensures Solves(A, BackSubstitute(A, b, p, y, n), b, n)
  {
    hide Dot, Eliminated, EliminatedRhs, BackSubstitute, Apply;
    forall i | 0 <= i < n
      ensures Apply(A, BackSubstitute(A, b, p, y, n), n)(i) == b(i)
    {
      if i == p {
        PivotRowSolved(A, b, p, y, n);
        RowSplit(A, b, p, y, n, p);
      } else {
        var k := if i < p then i else i - 1;
        assert Apply(Eliminated(A, p), y, n - 1)(k) == EliminatedRhs(A, b, p)(k);
        RowSolved(A, b, p, y, n, k);
      }
    }
  }

  lemma EliminatedRhsZero(A: Mat, p: int, k: int)
    requires A(p, 0) != 0.0
    ensures EliminatedRhs(A, ZERO, p)(k) == 0.0
  {
    var f := Factor(A, p, k);
    hide Factor;
    assert EliminatedRhs(A, ZERO, p)(k) == Less(0.0, f, 0.0);
  }

  lemma {:induction false} EliminatedNonsingular(A: Mat, p: int, n: int)
    requires 0 <= p < n && A(p, 0) != 0.0
    requires Nonsingular(A, n)
    ensures Nonsingular(Eliminated(A, p), n - 1)
  {
    hide Eliminated, EliminatedRhs, Dot;
    var E, m := Eliminated(A, p), n - 1;
    forall y: Vec | Solves(E, y, ZERO, m)
      ensures Vanishes(y, m)
    {
      forall i | 0 <= i < m
        ensures Apply(E, y, m)(i) == EliminatedRhs(A, ZERO, p)(i)
      {
        assert Apply(E, y, m)(i) == ZERO(i);
        EliminatedRhsZero(A, p, i);
      }
      BackSubstituteSolves(A, ZERO, p, y, n);
      var x := BackSubstitute(A, ZERO, p, y, n);
      assert Vanishes(x, n);
      forall i | 0 <= i < m ensures y(i) == 0.0 { assert x(i + 1) == 0.0; }
    }
  }

  /** A nonsingular matrix has a nonzero entry in column 0. */
  lemma {:induction false} PivotExists(A: Mat, n: int)
    requires n > 0 && Nonsingular(A, n)
    ensures Pivot(A, 0, n) < n
  {
    var e := Unit(0);
    assert e(0) != 0.0;
    assert !Vanishes(e, n);
    assert !Solves(A, e, ZERO, n);
    if Pivot(A, 0, n) == n {
      forall i | 0 <= i < n
        ensures Apply(A, e, n)(i) == ZERO(i)
      {
        DotUnit(Row(A, i), 0, n);
        assert A(i, 0) == 0.0;
      }
    }
  }

  /** Elimination solves every nonsingular system. */
  lemma {:induction false} GaussSolves(A: Mat, b: Vec, n: int)
    requires Nonsingular(A, n)
    ensures Solves(A, GaussSolve(A, b, n), b, n)
    decreases n
  {
    if n > 0 {
      PivotExists(A, n);
      var p := Pivot(A, 0, n);
      EliminatedNonsingular(A, p, n);
      var b' := EliminatedRhs(A, b, p);
      GaussSolves(Eliminated(A, p), b', n - 1);
      BackSubstituteSolves(A, b, p, GaussSolve(Eliminated(A, p), b', n - 1), n);
    }
  }

  function Inverse(A: Mat, n: int): Mat {
    (i, k) => GaussSolve(A, Unit(k), n)(i)
  }

  lemma {:induction false} InverseExists(A: Mat, n: int)
    requires Nonsingular(A, n)
    ensures IsInverse(A, Inverse(A, n), n)
  {
    forall k | 0 <= k < n
      ensures Solves(A, Row(Transpose(Inverse(A, n)), k), Unit(k), n)
    {
      GaussSolves(A, Unit(k), n);
      var x := GaussSolve(A, Unit(k), n);
      var c := Row(Transpose(Inverse(A, n)), k);
      forall i | 0 <= i < n
        ensures Apply(A, c, n)(i) == Unit(k)(i)
      {
        DotExt(Row(A, i), Row(A, i), c, x, n);
        assert Apply(A, x, n)(i) == Unit(k)(i);
      }
    }
  }

  // ----- the determinant test -----

  /** Elimination never runs out of pivots; stands for a nonzero determinant. */
  predicate Regular(A: Mat, n: int)
    decreases n
  {
    if n <= 0 then true
    else
      var p := Pivot(A, 0, n);
      p < n && Regular(Eliminated(A, p), n - 1)
  }

  lemma TailInKernel(A: Mat, p: int, x: Vec, n: int)
    requires 0 <= p < n && A(p, 0) != 0.0 && Solves(A, x, ZERO, n)
    ensures Solves(Eliminated(A, p), Tail(x), ZERO, n - 1)
  {
    forall k | 0 <= k < n - 1 ensures Apply(Eliminated(A, p), Tail(x), n - 1)(k) == ZERO(k) {
      var i := Skip(p, k);
      EliminatedRow(A, p, k, Tail(x), n - 1);
      DotFirst(Row(A, i), x, n);
      DotFirst(Row(A, p), x, n);
      assert Apply(A, x, n)(i) == 0.0 && Apply(A, x, n)(p) == 0.0;
      DivideThenMultiply(A(i, 0), A(p, 0));
      CombineRows(A(i, 0) / A(p, 0), A(i, 0), A(p, 0), x(0), Dot(Tail(Row(A, i)), Tail(x), n - 1),
                  Dot(Tail(Row(A, p)), Tail(x), n - 1));
    }
  }

  lemma CombineRows(f: real, ai: real, ap: real, x0: real, t: real, s: real)
    requires ap * f == ai && ai * x0 + t == 0.0 && ap * x0 + s == 0.0
    ensures Less(t, f, s) == 0.0
  {
    assert f * (ap * x0) == (ap * f) * x0;
    assert f * (ap * x0 + s) == f * (ap * x0) + f * s;
  }

  lemma FactorZero(a: real, x: real)
    requires a != 0.0 && a * x == 0.0
    ensures x == 0.0
  {}

  /** The determinant test accepts exactly the nonsingular matrices. */
  lemma {:induction false} RegularIffNonsingular(A: Mat, n: int)
    ensures Regular(A, n) <==> Nonsingular(A, n)
    decreases n
  {
    if n > 0 {
      var p := Pivot(A, 0, n);
      if Nonsingular(A, n) {
        PivotExists(A, n);
        EliminatedNonsingular(A, p, n);
        RegularIffNonsingular(Eliminated(A, p), n - 1);
      }
      if Regular(A, n) {
        RegularIffNonsingular(Eliminated(A, p), n - 1);
        RegularKernel(A, p, n);
      }
    }
  }

  lemma {:induction false} RegularKernel(A: Mat, p: int, n: int)
    requires 0 <= p < n && A(p, 0) != 0.0 && Nonsingular(Eliminated(A, p), n - 1)
    ensures Nonsingular(A, n)
  {
    hide Eliminated;
    forall x: Vec | Solves(A, x, ZERO, n) ensures Vanishes(x, n) {
      TailInKernel(A, p, x, n);
      var y := Tail(x);
      assert Vanishes(y, n - 1);
      DotFirst(Row(A, p), x, n);
      SumZero(Times(Tail(Row(A, p)), y), 0, n - 1);
      assert Apply(A, x, n)(p) == 0.0;
      FactorZero(A(p, 0), x(0));
      forall i | 0 <= i < n ensures x(i) == 0.0 {
        if i > 0 { assert y(i - 1) == 0.0; }
      }
    }
  }
}
