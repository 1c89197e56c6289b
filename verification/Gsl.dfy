/** The numerical library's operations on matrices and vectors held in arrays, each
    specified by the mathematical operation on the array's contents. */
module Gsl {
  import opened Sums
  import opened LinearAlgebra
  import opened Woodbury

  function Contents(v: array<real>): (x: Vec)
    reads v
    ensures forall i :: 0 <= i < v.Length ==> x(i) == v[i]
  {
    var s := v[..];
    i => if 0 <= i < |s| then s[i] else 0.0
  }

  function RowContents(a: array2<real>, i: nat): (r: seq<real>)
    requires i < a.Length0
    reads a
    ensures |r| == a.Length1 && forall j :: 0 <= j < a.Length1 ==> r[j] == a[i, j]
  {
    seq(a.Length1, j requires 0 <= j < a.Length1 reads a => a[i, j])
  }

  function MatrixRows(a: array2<real>): (m: seq<seq<real>>)
    reads a
    ensures |m| == a.Length0 && forall i :: 0 <= i < a.Length0 ==> m[i] == RowContents(a, i)
  {
    seq(a.Length0, i requires 0 <= i < a.Length0 reads a => RowContents(a, i))
  }

  function MatrixContents(a: array2<real>): (A: Mat)
    reads a
    ensures forall i, j :: 0 <= i < a.Length0 && 0 <= j < a.Length1 ==> A(i, j) == a[i, j]
  {
    var m := MatrixRows(a);
    (i, j) => if 0 <= i < |m| && 0 <= j < |m[i]| then m[i][j] else 0.0
  }

  function Op(trans: bool, A: Mat): Mat {
    if trans then Transpose(A) else A
  }

  method Zeros(n: nat) returns (v: array<real>)
    ensures fresh(v) && v.Length == n && forall i :: 0 <= i < n ==> v[i] == 0.0
  {
    v := new real[n](_ => 0.0);
  }

  method ZeroMatrix(m: nat, n: nat) returns (a: array2<real>)
    ensures fresh(a) && a.Length0 == m && a.Length1 == n
    ensures forall i, j :: 0 <= i < m && 0 <= j < n ==> a[i, j] == 0.0
  {
    a := new real[m, n]((_, _) => 0.0);
  }

  /** y := A * x on the m by n upper left part of a. */
  method Dgemv(a: array2<real>, m: nat, n: nat, x: array<real>) returns (y: array<real>)
    requires m <= a.Length0 && n <= a.Length1 && n <= x.Length
    ensures fresh(y) && y.Length == m
    ensures forall i :: 0 <= i < m ==> y[i] == Apply(MatrixContents(a), Contents(x), n)(i)
  {
    y := new real[m](_ => 0.0);
    ghost var A, X := MatrixContents(a), Contents(x);
    for i := 0 to m
      invariant forall k :: 0 <= k < i ==> y[k] == Apply(A, X, n)(k)
    {
      var s := 0.0;
      for j := 0 to n
        invariant s == Sum(Times(Row(A, i), X), 0, j)
      {
        s := s + a[i, j] * x[j];
      }
      y[i] := s;
    }
  }

  /** One entry of op(A) * op(B). */
  method ProductEntry(transA: bool, transB: bool, a: array2<real>, b: array2<real>, k: nat, i: nat, j: nat)
    returns (s: real)
    requires if transA then k <= a.Length0 && i < a.Length1 else i < a.Length0 && k <= a.Length1
    requires if transB then j < b.Length0 && k <= b.Length1 else k <= b.Length0 && j < b.Length1
    ensures s == MatMul(Op(transA, MatrixContents(a)), Op(transB, MatrixContents(b)), k)(i, j)
  {
    ghost var A, B := Op(transA, MatrixContents(a)), Op(transB, MatrixContents(b));
    s := 0.0;
    for h := 0 to k
      invariant s == Sum(Times(Row(A, i), Row(Transpose(B), j)), 0, h)
    {
      var p := if transA then a[h, i] else a[i, h];
      var q := if transB then b[j, h] else b[h, j];
      s := s + p * q;
    }
  }

  /** C := op(A) * op(B), where op(A) is m by k and op(B) is k by n. */
  method Dgemm(transA: bool, transB: bool, a: array2<real>, b: array2<real>, m: nat, k: nat, n: nat)
    returns (c: array2<real>)
    requires if transA then k <= a.Length0 && m <= a.Length1 else m <= a.Length0 && k <= a.Length1
    requires if transB then n <= b.Length0 && k <= b.Length1 else k <= b.Length0 && n <= b.Length1
    ensures fresh(c) && c.Length0 == m && c.Length1 == n
    ensures forall i, j :: 0 <= i < m && 0 <= j < n
              ==> c[i, j] == MatMul(Op(transA, MatrixContents(a)), Op(transB, MatrixContents(b)), k)(i, j)
  {
    hide MatMul, Op;
    c := new real[m, n]((_, _) => 0.0);
    for i := 0 to m
      invariant forall p, q :: 0 <= p < i && 0 <= q < n
                  ==> c[p, q] == MatMul(Op(transA, MatrixContents(a)), Op(transB, MatrixContents(b)), k)(p, q)
    {
      for j := 0 to n
        invariant forall p, q :: 0 <= p <= i && 0 <= q < (if p < i then n else j)
                    ==> c[p, q] == MatMul(Op(transA, MatrixContents(a)), Op(transB, MatrixContents(b)), k)(p, q)
      {
        var s := ProductEntry(transA, transB, a, b, k, i, j);
        c[i, j] := s;
      }
    }
  }

  /** LU decomposition and inversion of the n by n upper left part of a. */
  method Invert(a: array2<real>, n: nat) returns (r: array2<real>)
    requires n <= a.Length0 && n <= a.Length1 && Nonsingular(MatrixContents(a), n)
    ensures fresh(r) && r.Length0 == n && r.Length1 == n
    ensures IsInverse(MatrixContents(a), MatrixContents(r), n)
  {
    var A := MatrixContents(a);
    r := new real[n, n]((i, k) => GaussSolve(A, Unit(k), n)(i));
    InverseExists(A, n);
    InverseExt(A, A, Inverse(A, n), MatrixContents(r), n);
  }

  /** Solution of the n by n upper left part of a for the first n entries of b. */
  method Solve(a: array2<real>, b: array<real>, n: nat) returns (x: array<real>)
    requires n <= a.Length0 && n <= a.Length1 && n <= b.Length && Nonsingular(MatrixContents(a), n)
    ensures fresh(x) && x.Length == n
    ensures Solves(MatrixContents(a), Contents(x), Contents(b), n)
  {
    var A, B := MatrixContents(a), Contents(b);
    x := new real[n](i => GaussSolve(A, B, n)(i));
    GaussSolves(A, B, n);
    SolvesExt(A, A, GaussSolve(A, B, n), Contents(x), B, B, n);
  }

  lemma SolvesExt(A: Mat, A': Mat, x: Vec, x': Vec, b: Vec, b': Vec, n: int)
    requires Solves(A, x, b, n)
    requires forall i, j :: 0 <= i < n && 0 <= j < n ==> A(i, j) == A'(i, j)
    requires forall i :: 0 <= i < n ==> x(i) == x'(i) && b(i) == b'(i)
    ensures Solves(A', x', b', n)
  {
    forall i | 0 <= i < n ensures Apply(A', x', n)(i) == b'(i) {
      assert Apply(A, x, n)(i) == b(i);
      DotExt(Row(A, i), Row(A', i), x, x', n);
    }
  }

  lemma InverseExt(A: Mat, A': Mat, R: Mat, R': Mat, n: int)
    requires IsInverse(A, R, n)
    requires forall i, j :: 0 <= i < n && 0 <= j < n ==> A(i, j) == A'(i, j) && R(i, j) == R'(i, j)
    ensures IsInverse(A', R', n)
  {
    forall k | 0 <= k < n ensures Solves(A', Row(Transpose(R'), k), Unit(k), n) {
      SolvesExt(A, A', Row(Transpose(R), k), Row(Transpose(R'), k), Unit(k), Unit(k), n);
    }
  }

  lemma NonsingularExt(A: Mat, A': Mat, n: int)
    requires Nonsingular(A, n)
    requires forall i, j :: 0 <= i < n && 0 <= j < n ==> A(i, j) == A'(i, j)
    ensures Nonsingular(A', n)
  {
    forall x: Vec | Solves(A', x, ZERO, n) ensures Vanishes(x, n) {
      SolvesExt(A', A, x, x, ZERO, ZERO, n);
    }
  }
}
