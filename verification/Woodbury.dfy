/** The algebra behind the two-phase distributed calculation. The network matrix A is
    split as Y_b - N y_L N', where Y_b = A + N y_L N' is block diagonal over the servers.
    Each server only ever sees its own block; the master only sees L x L matrices. */
module Woodbury {
  import opened Sums
  import opened LinearAlgebra
  import opened Laplacians

  /** A * B, where A has k columns. */
  function MatMul(A: Mat, B: Mat, k: int): Mat {
    (i, j) => Dot(Row(A, i), Row(Transpose(B), j), k)
  }

  function Diagonal(d: Vec): Mat {
    (i, j) => if i == j then d(i) else 0.0
  }

  /** The part of x from lo on, renumbered from 0. */
  function Slice(x: Vec, lo: int): Vec {
    i => x(lo + i)
  }

  /** The diagonal block of Y that starts at lo, renumbered from 0. */
  function Block(Y: Mat, lo: int): Mat {
    (i, j) => Y(lo + i, lo + j)
  }

  function RowsFrom(N: Mat, lo: int): Mat {
    (i, l) => N(lo + i, l)
  }

  function Minus(x: Vec, y: Vec): Vec {
    i => x(i) - y(i)
  }

  /** N y_L N', for the diagonal matrix y_L with entries y. */
  function CutTerm(N: Mat, y: Vec, L: int): Mat {
    MatMul(MatMul(N, Diagonal(y), L), Transpose(N), L)
  }

  /** Y_b: the network with the lines between servers cancelled off the diagonal. */
  function CutMatrix(A: Mat, N: Mat, y: Vec, L: int): Mat {
    (i, j) => A(i, j) + CutTerm(N, y, L)(i, j)
  }

  /** The servers' index ranges [cut[s], cut[s+1]) follow one another and tile [0, n). */
  ghost predicate Tiles(cut: seq<int>, n: int) {
    && |cut| > 0 && cut[0] == 0 && cut[|cut| - 1] == n
    && forall s, t :: 0 <= s <= t < |cut| ==> cut[s] <= cut[t]
  }

  /** Index i belongs to server s. */
  predicate InTile(cut: seq<int>, s: int, i: int) {
    0 <= s < |cut| - 1 && cut[s] <= i < cut[s + 1]
  }

  /** Y couples no two different servers. */
  ghost predicate BlockDiagonal(Y: Mat, cut: seq<int>, n: int) {
    forall s, i, j :: InTile(cut, s, i) && 0 <= j < n && !InTile(cut, s, j) ==> Y(i, j) == 0.0 && Y(j, i) == 0.0
  }

  // ----- what the slaves and the master compute -----

  /** N' Y_b^-1 on one server, from the inverse R of its block of size m. */
  function SlaveGain(N: Mat, R: Mat, m: int): Mat {
    MatMul(Transpose(N), R, m)
  }

  /** N' Y_b^-1 N on one server: the first part of the first phase. */
  function SlaveMatrix(N: Mat, R: Mat, m: int): Mat {
    MatMul(SlaveGain(N, R, m), N, m)
  }

  /** N' Y_b^-1 I on one server: the second part of the first phase. */
  function SlaveVector(N: Mat, R: Mat, I: Vec, m: int): Vec {
    Apply(SlaveGain(N, R, m), I, m)
  }

  function SlaveMatrices(N: Mat, R: seq<Mat>, cut: seq<int>): (F: seq<Mat>)
    requires |cut| == |R| + 1
    ensures |F| == |R|
  {
    seq(|R|, s requires 0 <= s < |R| => SlaveMatrix(RowsFrom(N, cut[s]), R[s], cut[s + 1] - cut[s]))
  }

  function SlaveVectors(N: Mat, R: seq<Mat>, I: Vec, cut: seq<int>): (v: seq<Vec>)
    requires |cut| == |R| + 1
    ensures |v| == |R|
  {
    seq(|R|, s requires 0 <= s < |R|
             => SlaveVector(RowsFrom(N, cut[s]), R[s], Slice(I, cut[s]), cut[s + 1] - cut[s]))
  }

  /** Entry (k, l) of every received matrix. */
  function Entries(F: seq<Mat>, k: int, l: int): Vec {
    s => if 0 <= s < |F| then F[s](k, l) else 0.0
  }

  function Components(v: seq<Vec>, k: int): Vec {
    s => if 0 <= s < |v| then v[s](k) else 0.0
  }

  /** y_L^-1 minus the matrices received from all servers. */
  function MasterMatrix(y: Vec, F: seq<Mat>): Mat {
    (k, l) => Diagonal(Reciprocal(y))(k, l) - Sum(Entries(F, k, l), 0, |F|)
  }

  /** Minus the sum of the vectors received from all servers. */
  function MasterVector(v: seq<Vec>): Vec {
    k => -Sum(Components(v, k), 0, |v|)
  }

  function Reciprocal(y: Vec): Vec {
    k => if y(k) == 0.0 then 0.0 else 1.0 / y(k)
  }

  /** The right-hand side of the second phase: I - N i_L. */
  function SecondPhaseInput(N: Mat, I: Vec, iL: Vec, L: int): Vec {
    Minus(I, Apply(N, iL, L))
  }

  // ----- algebra -----

  lemma ApplyExt(A: Mat, B: Mat, x: Vec, y: Vec, m: int, n: int)
    requires forall i, j :: 0 <= i < m && 0 <= j < n ==> A(i, j) == B(i, j)
    requires forall j :: 0 <= j < n ==> x(j) == y(j)
    ensures forall i :: 0 <= i < m ==> Apply(A, x, n)(i) == Apply(B, y, n)(i)
  {
    forall i | 0 <= i < m ensures Apply(A, x, n)(i) == Apply(B, y, n)(i) {
      DotExt(Row(A, i), Row(B, i), x, y, n);
    }
  }

  /** (P Q) x == P (Q x). */
  lemma {:induction false} ApplyMatMul(P: Mat, Q: Mat, x: Vec, k: int, n: int, i: int)
    ensures Apply(MatMul(P, Q, k), x, n)(i) == Apply(P, Apply(Q, x, n), k)(i)
  {
    var p := Row(P, i);
    Adjoint(Q, p, x, k, n);
    var w := Apply(Transpose(Q), p, k);
    forall j | 0 <= j < n
      ensures w(j) == Row(MatMul(P, Q, k), i)(j)
    {
      DotCommutes(Row(Transpose(Q), j), p, k);
    }
    DotExt(w, Row(MatMul(P, Q, k), i), x, x, n);
  }

  lemma ApplyMinus(A: Mat, x: Vec, y: Vec, n: int, i: int)
    ensures Apply(A, Minus(x, y), n)(i) == Apply(A, x, n)(i) - Apply(A, y, n)(i)
  {
    DotLinear(Row(A, i), x, -1.0, y, Minus(x, y), n);
  }

  lemma ApplyDiagonal(d: Vec, x: Vec, n: int, i: int)
    requires 0 <= i < n
    ensures Apply(Diagonal(d), x, n)(i) == d(i) * x(i)
  {
    SumSingle(Times(Row(Diagonal(d), i), x), i, 0, n);
  }

  /** N y_L N' x, entry by entry: line l contributes N(i,l) y(l) (N'x)(l). */
  lemma {:induction false} ApplyCutTerm(N: Mat, y: Vec, L: int, x: Vec, n: int, i: int)
    ensures Apply(CutTerm(N, y, L), x, n)(i)
         == Apply(N, Times(y, Apply(Transpose(N), x, n)), L)(i)
  {
    var t := Apply(Transpose(N), x, n);
    ApplyMatMul(MatMul(N, Diagonal(y), L), Transpose(N), x, L, n, i);
    ApplyMatMul(N, Diagonal(y), t, L, L, i);
    var u := Apply(Diagonal(y), t, L);
    forall l | 0 <= l < L ensures u(l) == Times(y, t)(l) {
      ApplyDiagonal(y, t, L, l);
    }
    DotExt(Row(N, i), Row(N, i), u, Times(y, t), L);
  }

  lemma ApplyCutMatrix(A: Mat, N: Mat, y: Vec, L: int, x: Vec, n: int, i: int)
    ensures Apply(CutMatrix(A, N, y, L), x, n)(i)
         == Apply(A, x, n)(i) + Apply(N, Times(y, Apply(Transpose(N), x, n)), L)(i)
  {
    ApplyCutTerm(N, y, L, x, n, i);
    var a, c, t := Row(A, i), Row(CutTerm(N, y, L), i), Row(CutMatrix(A, N, y, L), i);
    DotCommutes(a, x, n);
    DotCommutes(c, x, n);
    DotCommutes(t, x, n);
    DotLinear(x, a, 1.0, c, t, n);
  }

  /** A sum over all indices is the sum of the servers' sums. */
  lemma {:induction false} SumTiles(f: Vec, g: Vec, cut: seq<int>, s: int)
    requires 0 <= s < |cut| && cut[0] == 0
    requires forall t, u :: 0 <= t <= u < |cut| ==> cut[t] <= cut[u]
    requires forall t {:trigger g(t)} :: 0 <= t < s ==> g(t) == Sum(f, cut[t], cut[t + 1])
    ensures cut[s] >= 0 && Sum(f, 0, cut[s]) == Sum(g, 0, s)
    decreases s
  {
    if s > 0 {
      SumTiles(f, g, cut, s - 1);
      SumSplit(f, 0, cut[s - 1], cut[s]);
    }
  }

  /** The server of an index. */
  ghost function TileOf(cut: seq<int>, n: int, i: int): (s: int)
    requires Tiles(cut, n) && 0 <= i < n
    ensures InTile(cut, s, i)
  {
    TileSearch(cut, n, i, 0)
  }

  ghost function TileSearch(cut: seq<int>, n: int, i: int, k: int): (s: int)
    requires Tiles(cut, n) && 0 <= k < |cut| && cut[k] <= i < n
    ensures InTile(cut, s, i)
    decreases |cut| - k
  {
    if i < cut[k + 1] then k else TileSearch(cut, n, i, k + 1)
  }

  // ----- the two phases solve the network -----

  ghost predicate SupportedIn(r: Vec, lo: int, hi: int, n: int) {
    forall j :: 0 <= j < n && !(lo <= j < hi) ==> r(j) == 0.0
  }

  /** Inside a server, Y_b only meets the server's own voltages. */
  lemma {:induction false} BlockRow(Y: Mat, x: Vec, lo: int, hi: int, n: int, i: int)
    requires 0 <= lo <= hi <= n && 0 <= i < hi - lo
    requires SupportedIn(Row(Y, lo + i), lo, hi, n)
    ensures Apply(Y, x, n)(lo + i) == Apply(Block(Y, lo), Slice(x, lo), hi - lo)(i)
  {
    var f, g := Times(Row(Y, lo + i), x), Times(Row(Block(Y, lo), i), Slice(x, lo));
    forall j | 0 <= j < n && !(lo <= j < hi) ensures f(j) == 0.0 {
      assert Row(Y, lo + i)(j) == 0.0;
    }
    forall j ensures g(j) == f(j + lo) {}
    hide Times, Row, SupportedIn;
    SumSplit(f, 0, lo, n);
    SumSplit(f, lo, hi, n);
    SumZero(f, 0, lo);
    SumZero(f, hi, n);
    SumShift(f, g, lo, 0, hi - lo);
  }

  /** N' U of one server, from its second-phase answer. */
  lemma {:induction false} SlaveFlow(N: Mat, R: Mat, I: Vec, iL: Vec, U: Vec, m: int, L: int, k: int)
    requires forall i :: 0 <= i < m ==> U(i) == Apply(R, SecondPhaseInput(N, I, iL, L), m)(i)
    ensures Apply(Transpose(N), U, m)(k)
         == SlaveVector(N, R, I, m)(k) - Apply(SlaveMatrix(N, R, m), iL, L)(k)
  {
    var G, x := SlaveGain(N, R, m), SecondPhaseInput(N, I, iL, L);
    DotExt(Row(Transpose(N), k), Row(Transpose(N), k), U, Apply(R, x, m), m);
    ApplyMatMul(Transpose(N), R, x, m, m, k);
    ApplyMinus(G, I, Apply(N, iL, L), m, k);
    ApplyMatMul(G, N, iL, m, L, k);
  }

  /** The same, when the server holds the indices from lo on. */
  lemma {:induction false} ServerFlow(N: Mat, R: Mat, I: Vec, iL: Vec, U: Vec, lo: int, m: int, L: int, k: int)
    requires forall i :: 0 <= i < m
               ==> Slice(U, lo)(i) == Apply(R, Slice(SecondPhaseInput(N, I, iL, L), lo), m)(i)
    ensures Apply(Transpose(RowsFrom(N, lo)), Slice(U, lo), m)(k)
         == SlaveVector(RowsFrom(N, lo), R, Slice(I, lo), m)(k)
            - Apply(SlaveMatrix(RowsFrom(N, lo), R, m), iL, L)(k)
  {
    var Ns, I', x := RowsFrom(N, lo), Slice(I, lo), Slice(SecondPhaseInput(N, I, iL, L), lo);
    var x' := SecondPhaseInput(Ns, I', iL, L);
    forall j | 0 <= j < m ensures x(j) == x'(j) {
      DotExt(Row(N, lo + j), Row(Ns, j), iL, iL, L);
    }
    forall i | 0 <= i < m ensures Slice(U, lo)(i) == Apply(R, x', m)(i) {
      DotExt(Row(R, i), Row(R, i), x, x', m);
    }
    SlaveFlow(Ns, R, I', iL, Slice(U, lo), m, L, k);
  }

  /** The part of (N'x)(k) that server s contributes. */
  function FlowPart(N: Mat, x: Vec, cut: seq<int>, k: int): Vec {
    s => if 0 <= s < |cut| - 1
         then Apply(Transpose(RowsFrom(N, cut[s])), Slice(x, cut[s]), cut[s + 1] - cut[s])(k) else 0.0
  }

  lemma FlowOfRange(N: Mat, x: Vec, lo: int, hi: int, k: int)
    ensures Apply(Transpose(RowsFrom(N, lo)), Slice(x, lo), hi - lo)(k)
         == Sum(Times(Row(Transpose(N), k), x), lo, hi)
  {
    var f, g := Times(Row(Transpose(N), k), x), Times(Row(Transpose(RowsFrom(N, lo)), k), Slice(x, lo));
    SumShift(f, g, lo, 0, hi - lo);
  }

  lemma {:induction false} FlowSplits(N: Mat, x: Vec, cut: seq<int>, n: int, k: int)
    requires Tiles(cut, n)
    ensures Apply(Transpose(N), x, n)(k) == Sum(FlowPart(N, x, cut, k), 0, |cut| - 1)
  {
    var f, g := Times(Row(Transpose(N), k), x), FlowPart(N, x, cut, k);
    forall s | 0 <= s < |cut| - 1
      ensures g(s) == Sum(f, cut[s], cut[s + 1])
    {
      FlowOfRange(N, x, cut[s], cut[s + 1], k);
    }
    SumTiles(f, g, cut, |cut| - 1);
  }

  /** (F[0] + F[1] + ...) * z == F[0] * z + F[1] * z + ..., row by row. */
  function Products(F: seq<Mat>, z: Vec, L: int, k: int): Vec {
    s => if 0 <= s < |F| then Apply(F[s], z, L)(k) else 0.0
  }

  function TotalRow(F: seq<Mat>, k: int, c: int): Vec {
    l => Sum(Entries(F, k, l), 0, c)
  }

  lemma {:induction false} TotalProduct(F: seq<Mat>, z: Vec, L: int, k: int, c: int)
    requires 0 <= c <= |F|
    ensures Dot(TotalRow(F, k, c), z, L) == Sum(Products(F, z, L, k), 0, c)
    decreases c
  {
    if c == 0 {
      SumZero(Times(TotalRow(F, k, c), z), 0, L);
    } else {
      TotalProduct(F, z, L, k, c - 1);
      var a, b, t := TotalRow(F, k, c - 1), Row(F[c - 1], k), TotalRow(F, k, c);
      DotCommutes(a, z, L);
      DotCommutes(b, z, L);
      DotCommutes(t, z, L);
      forall l | 0 <= l < L ensures t(l) == a(l) + 1.0 * b(l) {
        assert Entries(F, k, l)(c - 1) == b(l);
      }
      DotLinear(z, a, 1.0, b, t, L);
      assert Products(F, z, L, k)(c - 1) == Apply(F[c - 1], z, L)(k);
      assert Apply(F[c - 1], z, L)(k) == Dot(b, z, L);
    }
  }

  lemma {:induction false} MasterProduct(y: Vec, F: seq<Mat>, z: Vec, L: int, k: int)
    requires 0 <= k < L
    ensures Apply(MasterMatrix(y, F), z, L)(k)
         == Reciprocal(y)(k) * z(k) - Sum(Products(F, z, L, k), 0, |F|)
  {
    var d, p, m := Row(Diagonal(Reciprocal(y)), k), TotalRow(F, k, |F|), Row(MasterMatrix(y, F), k);
    DotCommutes(d, z, L);
    DotCommutes(p, z, L);
    DotCommutes(m, z, L);
    DotLinear(z, d, -1.0, p, m, L);
    ApplyDiagonal(Reciprocal(y), z, L, k);
    TotalProduct(F, z, L, k, |F|);
  }

  /** The hypotheses shared by the results below: the servers tile the indices, Y_b does
      not couple them, R holds the inverses of its blocks, all lines conduct. */
  ghost predicate Partitioned(A: Mat, N: Mat, y: Vec, L: int, cut: seq<int>, n: int, R: seq<Mat>) {
    && L >= 0 && Tiles(cut, n) && |cut| == |R| + 1
    && BlockDiagonal(CutMatrix(A, N, y, L), cut, n)
    && (forall s {:trigger R[s]} :: 0 <= s < |R|
          ==> IsInverse(Block(CutMatrix(A, N, y, L), cut[s]), R[s], cut[s + 1] - cut[s]))
    && (forall l :: 0 <= l < L ==> y(l) != 0.0)
  }

  /** U is what the servers answer to the second phase on input x. */
  ghost predicate Answers(U: Vec, x: Vec, cut: seq<int>, R: seq<Mat>)
    requires |cut| == |R| + 1
  {
    forall s {:trigger R[s]} :: 0 <= s < |R| ==> ServerAnswers(U, x, cut[s], cut[s + 1] - cut[s], R[s])
  }

  ghost predicate ServerAnswers(U: Vec, x: Vec, lo: int, m: int, R: Mat) {
    forall i :: 0 <= i < m ==> Slice(U, lo)(i) == Apply(R, Slice(x, lo), m)(i)
  }

  lemma Uncoupled(Y: Mat, cut: seq<int>, n: int, s: int, i: int)
    requires Tiles(cut, n) && BlockDiagonal(Y, cut, n)
    requires 0 <= s < |cut| - 1 && 0 <= i < cut[s + 1] - cut[s]
    ensures 0 <= cut[s] <= cut[s + 1] <= n
    ensures SupportedIn(Row(Y, cut[s] + i), cut[s], cut[s + 1], n)
  {
    assert InTile(cut, s, cut[s] + i);
    var r := Row(Y, cut[s] + i);
    forall j | 0 <= j < n && !(cut[s] <= j < cut[s + 1]) ensures r(j) == 0.0 {
      assert !InTile(cut, s, j);
    }
  }

  /** One server's answer solves its rows of Y_b * U == x. */
  lemma {:induction false} ServerSolves(Y: Mat, R: Mat, U: Vec, x: Vec, lo: int, hi: int, n: int, i: int)
    requires 0 <= lo <= hi <= n && 0 <= i < hi - lo
    requires SupportedIn(Row(Y, lo + i), lo, hi, n)
    requires IsInverse(Block(Y, lo), R, hi - lo)
    requires ServerAnswers(U, x, lo, hi - lo, R)
    ensures Apply(Y, U, n)(lo + i) == x(lo + i)
  {
    var B, m := Block(Y, lo), hi - lo;
    var u := Apply(R, Slice(x, lo), m);
    BlockRow(Y, U, lo, hi, n, i);
    DotExt(Row(B, i), Row(B, i), Slice(U, lo), u, m);
    InverseSolves(B, R, Slice(x, lo), m);
    assert Apply(B, u, m)(i) == Slice(x, lo)(i);
  }

  /** The servers' answers solve Y_b * U == x. */
  lemma {:induction false} AnswersSolve(Y: Mat, cut: seq<int>, n: int, R: seq<Mat>, U: Vec, x: Vec)
    requires Tiles(cut, n) && |cut| == |R| + 1 && BlockDiagonal(Y, cut, n)
    requires forall s {:trigger R[s]} :: 0 <= s < |R| ==> IsInverse(Block(Y, cut[s]), R[s], cut[s + 1] - cut[s])
    requires Answers(U, x, cut, R)
    ensures Solves(Y, U, x, n)
  {
    hide IsInverse, ServerAnswers;
    forall i | 0 <= i < n ensures Apply(Y, U, n)(i) == x(i) {
      var s := TileOf(cut, n, i);
      Uncoupled(Y, cut, n, s, i - cut[s]);
      ServerSolves(Y, R[s], U, x, cut[s], cut[s + 1], n, i - cut[s]);
    }
  }

  /** What server s sent is its flow plus its share of the line currents. */
  lemma ServerShare(N: Mat, cut: seq<int>, R: seq<Mat>, I: Vec, iL: Vec, U: Vec, L: int, k: int, s: int)
    requires |cut| == |R| + 1 && 0 <= s < |R|
    requires ServerAnswers(U, SecondPhaseInput(N, I, iL, L), cut[s], cut[s + 1] - cut[s], R[s])
    ensures Components(SlaveVectors(N, R, I, cut), k)(s)
         == FlowPart(N, U, cut, k)(s) + Products(SlaveMatrices(N, R, cut), iL, L, k)(s)
  {
    hide SlaveMatrix, SlaveVector;
    var lo, m := cut[s], cut[s + 1] - cut[s];
    var Ns := RowsFrom(N, lo);
    ServerFlow(N, R[s], I, iL, U, lo, m, L, k);
    assert SlaveMatrices(N, R, cut)[s] == SlaveMatrix(Ns, R[s], m);
    assert SlaveVectors(N, R, I, cut)[s] == SlaveVector(Ns, R[s], Slice(I, lo), m);
  }

  /** The received vectors sum to the flow plus the line currents' total. */
  lemma {:induction false} FlowBalance(N: Mat, cut: seq<int>, n: int, R: seq<Mat>, I: Vec, iL: Vec, U: Vec, L: int,
                                       k: int)
    requires Tiles(cut, n) && |cut| == |R| + 1
    requires Answers(U, SecondPhaseInput(N, I, iL, L), cut, R)
    ensures Sum(Components(SlaveVectors(N, R, I, cut), k), 0, |R|)
         == Apply(Transpose(N), U, n)(k) + Sum(Products(SlaveMatrices(N, R, cut), iL, L, k), 0, |R|)
  {
    hide ServerAnswers, SlaveMatrices, SlaveVectors, SecondPhaseInput, FlowPart, Products, Components, Tiles;
    var x, F, V := SecondPhaseInput(N, I, iL, L), SlaveMatrices(N, R, cut), SlaveVectors(N, R, I, cut);
    var flow, v, p := FlowPart(N, U, cut, k), Components(V, k), Products(F, iL, L, k);
    forall s | 0 <= s < |R| ensures v(s) == flow(s) + p(s) {
      ServerShare(N, cut, R, I, iL, U, L, k, s);
    }
    SumAdd(flow, p, v, 0, |R|);
    FlowSplits(N, U, cut, n, k);
  }

  /** The line currents i_L found by the master are -y_L N' U. */
  lemma {:induction false} LineCurrents(N: Mat, y: Vec, cut: seq<int>, n: int, R: seq<Mat>,
                                        I: Vec, iL: Vec, U: Vec, L: int, k: int)
    requires Tiles(cut, n) && |cut| == |R| + 1 && 0 <= k < L && y(k) != 0.0
    requires Apply(MasterMatrix(y, SlaveMatrices(N, R, cut)), iL, L)(k) == MasterVector(SlaveVectors(N, R, I, cut))(k)
    requires Answers(U, SecondPhaseInput(N, I, iL, L), cut, R)
    ensures iL(k) == -(y(k) * Apply(Transpose(N), U, n)(k))
  {
    hide Answers, Tiles, SlaveMatrices, SlaveVectors, SecondPhaseInput;
    FlowBalance(N, cut, n, R, I, iL, U, L, k);
    MasterProduct(y, SlaveMatrices(N, R, cut), iL, L, k);
    ClearReciprocal(y(k), iL(k), Apply(Transpose(N), U, n)(k));
  }

  lemma ClearReciprocal(y: real, i: real, f: real)
    requires y != 0.0 && 1.0 / y * i == -f
    ensures i == -(y * f)
  {
    assert y * (1.0 / y * i) == i;
  }

  /** Main result: what the servers return in the second phase solves the original
      network, although no one ever inverted it. */
  lemma {:induction false} TwoPhaseSolves(A: Mat, N: Mat, y: Vec, L: int, cut: seq<int>, n: int, R: seq<Mat>,
                                          I: Vec, iL: Vec, U: Vec)
    requires Partitioned(A, N, y, L, cut, n, R)
    requires Solves(MasterMatrix(y, SlaveMatrices(N, R, cut)), iL, MasterVector(SlaveVectors(N, R, I, cut)), L)
    requires Answers(U, SecondPhaseInput(N, I, iL, L), cut, R)
    ensures Solves(A, U, I, n)
  {
    hide Answers, Tiles, SlaveMatrices, SlaveVectors, SecondPhaseInput, BlockDiagonal, IsInverse, CutMatrix;
    hide MasterMatrix, MasterVector;
    var Y, x := CutMatrix(A, N, y, L), SecondPhaseInput(N, I, iL, L);
    AnswersSolve(Y, cut, n, R, U, x);
    var drop := Times(y, Apply(Transpose(N), U, n));
    forall k | 0 <= k < L ensures iL(k) == -1.0 * drop(k) {
      assert Apply(MasterMatrix(y, SlaveMatrices(N, R, cut)), iL, L)(k) == MasterVector(SlaveVectors(N, R, I, cut))(k);
      LineCurrents(N, y, cut, n, R, I, iL, U, L, k);
    }
    forall i | 0 <= i < n ensures Apply(A, U, n)(i) == I(i) {
      assert Apply(Y, U, n)(i) == x(i);
      UncutRow(A, N, y, L, U, n, I, iL, drop, i);
    }
  }

  lemma UncutRow(A: Mat, N: Mat, y: Vec, L: int, U: Vec, n: int, I: Vec, iL: Vec, drop: Vec, i: int)
    requires Apply(CutMatrix(A, N, y, L), U, n)(i) == SecondPhaseInput(N, I, iL, L)(i)
    requires drop == Times(y, Apply(Transpose(N), U, n))
    requires forall k :: 0 <= k < L ==> iL(k) == -1.0 * drop(k)
    ensures Apply(A, U, n)(i) == I(i)
  {
    ApplyCutMatrix(A, N, y, L, U, n, i);
    DotNegated(Row(N, i), drop, iL, L);
  }

  lemma DotNegated(a: Vec, x: Vec, z: Vec, n: int)
    requires forall k :: 0 <= k < n ==> z(k) == -1.0 * x(k)
    ensures Dot(a, z, n) == -Dot(a, x, n)
  {
    SumZero(Times(a, ZERO), 0, n);
    DotLinear(a, ZERO, -1.0, x, z, n);
  }

  // ----- the inverses exist -----

  /** x' Y_b x == x' A x + sum_l y(l) (N'x)(l)^2 */
  lemma {:induction false} CutQuad(A: Mat, N: Mat, y: Vec, L: int, x: Vec, n: int)
    ensures Quad(CutMatrix(A, N, y, L), x, n)
         == Quad(A, x, n) + Dot(Apply(Transpose(N), x, n), Times(y, Apply(Transpose(N), x, n)), L)
  {
    var Y, t := CutMatrix(A, N, y, L), Apply(Transpose(N), x, n);
    var a, b, c := Apply(A, x, n), Apply(N, Times(y, t), L), Apply(Y, x, n);
    forall i | 0 <= i < n ensures c(i) == a(i) + 1.0 * b(i) {
      ApplyCutMatrix(A, N, y, L, x, n, i);
    }
    DotLinear(x, a, 1.0, b, c, n);
    Adjoint(N, x, Times(y, t), n, L);
  }

  /** The grounded network is positive definite. */
  ghost predicate PositiveDefinite(A: Mat, n: int) {
    forall x: Vec :: Quad(A, x, n) >= 0.0 && (Quad(A, x, n) == 0.0 ==> Vanishes(x, n))
  }

  lemma {:induction false} CutNonsingular(A: Mat, N: Mat, y: Vec, L: int, n: int)
    requires PositiveDefinite(A, n)
    requires forall l :: 0 <= l < L ==> y(l) > 0.0
    ensures Nonsingular(CutMatrix(A, N, y, L), n)
  {
    var Y := CutMatrix(A, N, y, L);
    forall x: Vec | Solves(Y, x, ZERO, n)
      ensures Vanishes(x, n)
    {
      QuadOfKernel(Y, x, n);
      CutQuad(A, N, y, L, x, n);
      var t := Apply(Transpose(N), x, n);
      forall l | 0 <= l < L ensures Times(t, Times(y, t))(l) >= 0.0 {
        WeightedSquare(y(l), t(l));
      }
      SumNonNegative(Times(t, Times(y, t)), 0, L);
      assert Quad(A, x, n) == 0.0;
    }
  }

  lemma WeightedSquare(w: real, t: real)
    requires w > 0.0
    ensures t * (w * t) >= 0.0
  {
    SquareNonNegative(t);
    ProductNonNegative(w, t * t);
    assert t * (w * t) == w * (t * t);
  }

  /** x placed on the indices [lo, hi), zero elsewhere. */
  function Placed(u: Vec, lo: int, hi: int): Vec {
    i => if lo <= i < hi then u(i - lo) else 0.0
  }

  lemma PlacedOutside(Y: Mat, u: Vec, lo: int, hi: int, n: int, i: int)
    requires forall j :: lo <= j < hi ==> Y(i, j) == 0.0
    ensures Apply(Y, Placed(u, lo, hi), n)(i) == 0.0
  {
    var x := Placed(u, lo, hi);
    forall j | 0 <= j < n ensures Times(Row(Y, i), x)(j) == 0.0 {
      assert lo <= j < hi ==> Y(i, j) == 0.0;
    }
    SumZero(Times(Row(Y, i), x), 0, n);
  }

  lemma PlacedInside(Y: Mat, u: Vec, lo: int, hi: int, n: int, i: int)
    requires 0 <= lo <= hi <= n && 0 <= i < hi - lo
    requires SupportedIn(Row(Y, lo + i), lo, hi, n)
    ensures Apply(Y, Placed(u, lo, hi), n)(lo + i) == Apply(Block(Y, lo), u, hi - lo)(i)
  {
    var x := Placed(u, lo, hi);
    BlockRow(Y, x, lo, hi, n, i);
    DotExt(Row(Block(Y, lo), i), Row(Block(Y, lo), i), Slice(x, lo), u, hi - lo);
  }

  /** Every server's block is nonsingular. */
  lemma {:induction false} BlockNonsingular(Y: Mat, cut: seq<int>, n: int, s: int)
    requires Tiles(cut, n) && BlockDiagonal(Y, cut, n) && Nonsingular(Y, n)
    requires 0 <= s < |cut| - 1
    ensures Nonsingular(Block(Y, cut[s]), cut[s + 1] - cut[s])
  {
    var lo, hi := cut[s], cut[s + 1];
    var m, B := hi - lo, Block(Y, lo);
    forall u: Vec | Solves(B, u, ZERO, m)
      ensures Vanishes(u, m)
    {
      var x := Placed(u, lo, hi);
      forall i | 0 <= i < n ensures Apply(Y, x, n)(i) == ZERO(i) {
        if lo <= i < hi {
          Uncoupled(Y, cut, n, s, i - lo);
          PlacedInside(Y, u, lo, hi, n, i - lo);
          assert Apply(B, u, m)(i - lo) == ZERO(i - lo);
        } else {
          forall j | lo <= j < hi ensures Y(i, j) == 0.0 { assert InTile(cut, s, j) && !InTile(cut, s, i); }
          PlacedOutside(Y, u, lo, hi, n, i);
        }
      }
      assert Solves(Y, x, ZERO, n);
      forall i | 0 <= i < m ensures u(i) == 0.0 { assert x(lo + i) == 0.0; }
    }
  }

  /** The second-phase answers of all servers, put together. */
  function Assembled(R: seq<Mat>, cut: seq<int>, n: int, x: Vec): Vec
    requires |cut| == |R| + 1
  {
    i => AssembledAt(R, cut, x, i, 0)
  }

  function AssembledAt(R: seq<Mat>, cut: seq<int>, x: Vec, i: int, s: int): real
    requires |cut| == |R| + 1 && s >= 0
    decreases |R| - s
  {
    if s >= |R| then 0.0
    else if cut[s] <= i < cut[s + 1] then Apply(R[s], Slice(x, cut[s]), cut[s + 1] - cut[s])(i - cut[s])
    else AssembledAt(R, cut, x, i, s + 1)
  }

  lemma {:induction false} AssembledAtServer(R: seq<Mat>, cut: seq<int>, n: int, x: Vec, i: int, s: int, t: int)
    requires |cut| == |R| + 1 && Tiles(cut, n) && 0 <= t <= s < |R| && cut[s] <= i < cut[s + 1]
    ensures AssembledAt(R, cut, x, i, t) == Apply(R[s], Slice(x, cut[s]), cut[s + 1] - cut[s])(i - cut[s])
    decreases s - t
  {
    if t < s {
      AssembledAtServer(R, cut, n, x, i, s, t + 1);
    }
  }

  lemma {:induction false} AssembledAnswers(R: seq<Mat>, cut: seq<int>, n: int, x: Vec)
    requires |cut| == |R| + 1 && Tiles(cut, n)
    ensures Answers(Assembled(R, cut, n, x), x, cut, R)
  {
    forall s | 0 <= s < |R|
      ensures ServerAnswers(Assembled(R, cut, n, x), x, cut[s], cut[s + 1] - cut[s], R[s])
    {
      forall i | 0 <= i < cut[s + 1] - cut[s]
        ensures Slice(Assembled(R, cut, n, x), cut[s])(i) == Apply(R[s], Slice(x, cut[s]), cut[s + 1] - cut[s])(i)
      {
        AssembledAtServer(R, cut, n, x, cut[s] + i, s, 0);
      }
    }
  }

  lemma MasterVectorZero(N: Mat, R: seq<Mat>, cut: seq<int>, k: int)
    requires |cut| == |R| + 1
    ensures MasterVector(SlaveVectors(N, R, ZERO, cut))(k) == 0.0
  {
    var v := SlaveVectors(N, R, ZERO, cut);
    forall s | 0 <= s < |R| ensures Components(v, k)(s) == 0.0 {
      var G := SlaveGain(RowsFrom(N, cut[s]), R[s], cut[s + 1] - cut[s]);
      ApplyZero(G, Slice(ZERO, cut[s]), cut[s + 1] - cut[s], k);
    }
    SumZero(Components(v, k), 0, |R|);
  }

  lemma ApplyZero(A: Mat, x: Vec, n: int, i: int)
    requires Vanishes(x, n)
    ensures Apply(A, x, n)(i) == 0.0
  {
    SumZero(Times(Row(A, i), x), 0, n);
  }

  /** Line currents that flow without any injection are zero. */
  lemma {:induction false} NoInjectionNoCurrent(A: Mat, N: Mat, y: Vec, L: int, cut: seq<int>, n: int, R: seq<Mat>,
                                                z: Vec)
    requires Partitioned(A, N, y, L, cut, n, R) && Nonsingular(A, n)
    requires Solves(MasterMatrix(y, SlaveMatrices(N, R, cut)), z, MasterVector(SlaveVectors(N, R, ZERO, cut)), L)
    ensures Vanishes(z, L)
  {
    var x := SecondPhaseInput(N, ZERO, z, L);
    var U := Assembled(R, cut, n, x);
    AssembledAnswers(R, cut, n, x);
    TwoPhaseSolves(A, N, y, L, cut, n, R, ZERO, z, U);
    assert Vanishes(U, n);
    forall k | 0 <= k < L ensures z(k) == 0.0 {
      assert Apply(MasterMatrix(y, SlaveMatrices(N, R, cut)), z, L)(k)
        == MasterVector(SlaveVectors(N, R, ZERO, cut))(k);
      LineCurrents(N, y, cut, n, R, ZERO, z, U, L, k);
      ApplyZero(Transpose(N), U, n, k);
    }
  }

  /** The small matrix the master inverts is nonsingular. */
  lemma {:induction false} MasterNonsingular(A: Mat, N: Mat, y: Vec, L: int, cut: seq<int>, n: int, R: seq<Mat>)
    requires Partitioned(A, N, y, L, cut, n, R) && Nonsingular(A, n)
    ensures Nonsingular(MasterMatrix(y, SlaveMatrices(N, R, cut)), L)
  {
    var M, r := MasterMatrix(y, SlaveMatrices(N, R, cut)), MasterVector(SlaveVectors(N, R, ZERO, cut));
    forall z: Vec | Solves(M, z, ZERO, L)
      ensures Vanishes(z, L)
    {
      forall k | 0 <= k < L ensures Apply(M, z, L)(k) == r(k) {
        assert Apply(M, z, L)(k) == ZERO(k);
        MasterVectorZero(N, R, cut, k);
      }
      NoInjectionNoCurrent(A, N, y, L, cut, n, R, z);
    }
  }
}
