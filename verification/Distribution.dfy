/** The master's side of the distributed calculation, as loops over the servers. */
module Distribution {
  import opened Sums
  import opened LinearAlgebra
  import opened Laplacians
  import opened Woodbury
  import opened Gsl
  import opened PowerSlaves
  import opened Messages

  function DiagonalOf(a: array2<real>): Vec
    reads a
  {
    var A := MatrixContents(a);
    k => A(k, k)
  }

  ghost predicate IsDiagonal(a: array2<real>)
    reads a
  {
    && a.Length0 == a.Length1
    && forall i, j :: 0 <= i < a.Length0 && 0 <= j < a.Length0 && i != j ==> a[i, j] == 0.0
  }

  /** Where the servers' ranges begin; the grounded last index belongs to nobody. */
  function Cut(starts: seq<int>, switch_pi: int): seq<int> {
    starts + [switch_pi - 1]
  }

  /** The number of indices a server works on: the grounded one is taken off the last range. */
  function Width(starts: seq<int>, nums: seq<int>, switch_pi: int, s: int): int
    requires 0 <= s < |starts| == |nums|
  {
    if starts[s] + nums[s] == switch_pi then nums[s] - 1 else nums[s]
  }

  function NextStart(starts: seq<int>, switch_pi: int, s: int): int {
    if 0 <= s + 1 < |starts| then starts[s + 1] else switch_pi
  }

  /** The servers' ranges are nonempty and follow one another up to switch_pi. */
  ghost predicate ServersFit(starts: seq<int>, nums: seq<int>, switch_pi: int) {
    && |starts| == |nums| && switch_pi > 0 && Tiles(Cut(starts, switch_pi), switch_pi - 1)
    && forall s {:trigger nums[s]} :: 0 <= s < |nums|
         ==> nums[s] > 0 && starts[s] + nums[s] == NextStart(starts, switch_pi, s)
  }

  lemma WidthOfServer(starts: seq<int>, nums: seq<int>, switch_pi: int, s: int)
    requires ServersFit(starts, nums, switch_pi) && 0 <= s < |starts|
    ensures Cut(starts, switch_pi)[s] == starts[s]
    ensures Width(starts, nums, switch_pi, s) == Cut(starts, switch_pi)[s + 1] - Cut(starts, switch_pi)[s]
    ensures 0 <= starts[s] && 0 <= Width(starts, nums, switch_pi, s)
    ensures starts[s] + Width(starts, nums, switch_pi, s) <= switch_pi - 1
  {
    var cut := Cut(starts, switch_pi);
    var last := |starts|;
    assert cut[last] == switch_pi - 1 && cut[0] <= cut[s];
    if s + 1 < |starts| {
      assert cut[s] <= cut[s + 1] <= cut[last];
      assert starts[s] + nums[s] == cut[s + 1];
    } else {
      assert s + 1 == last;
      assert starts[s] + nums[s] == switch_pi;
    }
  }

  /** A := A + N y_L N' on the grounded part. */
  method AddCutTerm(A: array2<real>, N: array2<real>, y_L: array2<real>, m: nat)
    requires m <= A.Length0 && m <= A.Length1 && m <= N.Length0
    requires y_L.Length0 == N.Length1 && IsDiagonal(y_L) && A != N && A != y_L
    modifies A
    ensures forall i, j :: 0 <= i < m && 0 <= j < m
              ==> A[i, j] == CutMatrix(old(MatrixContents(A)), MatrixContents(N), DiagonalOf(y_L), N.Length1)(i, j)
    ensures forall i, j :: 0 <= i < A.Length0 && 0 <= j < A.Length1 && (i >= m || j >= m) ==> A[i, j] == old(A[i, j])
  {
    var L := N.Length1;
    var N1y_L := Dgemm(false, false, N, y_L, m, L, L);
    var T := Dgemm(false, true, N1y_L, N, m, L, m);
    ghost var C := CutTerm(MatrixContents(N), DiagonalOf(y_L), L);
    CutTermProducts(MatrixContents(N), MatrixContents(y_L), MatrixContents(N1y_L), DiagonalOf(y_L), m, L);
    AddMatrix(A, T, m, C);
  }

  /** A := A + T on the upper left part. */
  method AddMatrix(A: array2<real>, T: array2<real>, m: nat, ghost C: Mat)
    requires m <= A.Length0 && m <= A.Length1 && T.Length0 == T.Length1 == m && A != T
    requires forall i, j :: 0 <= i < m && 0 <= j < m ==> T[i, j] == C(i, j)
    modifies A
    ensures forall p, q :: 0 <= p < A.Length0 && 0 <= q < A.Length1
              ==> A[p, q] == old(A[p, q]) + if p < m && q < m then C(p, q) else 0.0
  {
    for i := 0 to m
      invariant forall p, q :: 0 <= p < A.Length0 && 0 <= q < A.Length1
                  ==> A[p, q] == old(A[p, q]) + if p < i && q < m then C(p, q) else 0.0
    {
      for j := 0 to m
        invariant forall p, q :: 0 <= p < A.Length0 && 0 <= q < A.Length1
                    ==> A[p, q] == old(A[p, q]) + if (p < i && q < m) || (p == i && q < j) then C(p, q) else 0.0
      {
        A[i, j] := A[i, j] + T[i, j];
      }
    }
  }

  lemma CutTermProducts(N: Mat, Y: Mat, P: Mat, y: Vec, m: int, L: int)
    requires forall k, l :: 0 <= k < L && 0 <= l < L ==> Y(k, l) == Diagonal(y)(k, l)
    requires forall i, l :: 0 <= i < m && 0 <= l < L ==> P(i, l) == MatMul(Op(false, N), Op(false, Y), L)(i, l)
    ensures forall i, j :: 0 <= i < m && 0 <= j < m
              ==> MatMul(Op(false, P), Op(true, N), L)(i, j) == CutTerm(N, y, L)(i, j)
  {
    var D := MatMul(N, Diagonal(y), L);
    forall i, l | 0 <= i < m && 0 <= l < L ensures P(i, l) == D(i, l) {
      DotExt(Row(N, i), Row(N, i), Row(Transpose(Y), l), Row(Transpose(Diagonal(y)), l), L);
    }
    forall i, j | 0 <= i < m && 0 <= j < m ensures MatMul(P, Transpose(N), L)(i, j) == CutTerm(N, y, L)(i, j) {
      DotExt(Row(P, i), Row(D, i), Row(Transpose(Transpose(N)), j), Row(Transpose(Transpose(N)), j), L);
    }
  }

  /** y_L^-1: the reciprocals of the diagonal. */
  method InvertDiagonal(y_L: array2<real>) returns (r: array2<real>)
    requires y_L.Length0 == y_L.Length1 && forall k :: 0 <= k < y_L.Length0 ==> y_L[k, k] != 0.0
    ensures fresh(r) && r.Length0 == r.Length1 == y_L.Length0
    ensures forall k, l :: 0 <= k < r.Length0 && 0 <= l < r.Length0
              ==> r[k, l] == Diagonal(Reciprocal(DiagonalOf(y_L)))(k, l)
  {
    var L := y_L.Length0;
    r := ZeroMatrix(L, L);
    for i := 0 to L
      invariant forall k, l :: 0 <= k < L && 0 <= l < L ==> r[k, l] == if k == l < i then 1.0 / y_L[k, k] else 0.0
    {
      var data := y_L[i, i];
      r[i, i] := 1.0 / data;
    }
  }

  /** The m entries of x from lo on. */
  function Part(x: Vec, lo: int, m: int): (v: seq<real>)
    ensures |v| == if m > 0 then m else 0
  {
    if m <= 0 then [] else seq(m, i => x(lo + i))
  }

  /** The servers' parts of x. */
  function Parts(x: Vec, cut: seq<int>): (vs: seq<seq<real>>)
    requires |cut| > 0
    ensures |vs| == |cut| - 1
  {
    seq(|cut| - 1, s requires 0 <= s < |cut| - 1 => Part(x, cut[s], cut[s + 1] - cut[s]))
  }

  /** Slave s answered the first phase for its range: it keeps the inverse R of its block of
      Y and its rows of N. */
  ghost predicate Holds(slave: PowerSlave, Y: Mat, N: Mat, R: Mat, lo: int, m: int, L: int)
  {
    && slave.Ready() && slave.n == m && slave.l == L
    && slave.Y_b_inv == R && IsInverse(Block(Y, lo), R, m)
    && forall i, l :: 0 <= i < m && 0 <= l < L ==> slave.N(i, l) == N(lo + i, l)
  }

  ghost predicate AllHold(slaves: seq<PowerSlave>, Y: Mat, N: Mat, R: seq<Mat>, cut: seq<int>, L: int)
    requires |slaves| == |R| < |cut|
  {
    forall s {:trigger slaves[s]} :: 0 <= s < |slaves| ==> Holds(slaves[s], Y, N, R[s], cut[s], cut[s + 1] - cut[s], L)
  }

  /** A further received matrix is subtracted from the total. */
  lemma EntriesAppend(F: seq<Mat>, X: Mat, k: int, l: int)
    ensures Sum(Entries(F + [X], k, l), 0, |F| + 1) == Sum(Entries(F, k, l), 0, |F|) + X(k, l)
  {
    SumExt(Entries(F + [X], k, l), Entries(F, k, l), 0, |F|);
  }

  lemma ComponentsAppend(v: seq<Vec>, x: Vec, k: int)
    ensures Sum(Components(v + [x], k), 0, |v| + 1) == Sum(Components(v, k), 0, |v|) + x(k)
  {
    SumExt(Components(v + [x], k), Components(v, k), 0, |v|);
  }

  /** The state after c servers have answered the first phase. */
  ghost predicate Collected(slaves: seq<PowerSlave>, Y: Mat, Nm: Mat, Iv: Vec, y: Vec, cut: seq<int>, L: int,
                            R: seq<Mat>, F: seq<Mat>, V: seq<Vec>, M: array2<real>, v: array<real>)
    reads M, v
  {
    && |slaves| == |R| == |F| == |V| < |cut| && M.Length0 == M.Length1 == v.Length == L
    && (forall s {:trigger F[s]} :: 0 <= s < |R|
          ==> F[s] == SlaveMatrix(RowsFrom(Nm, cut[s]), R[s], cut[s + 1] - cut[s]))
    && (forall s {:trigger V[s]} :: 0 <= s < |R|
          ==> V[s] == SlaveVector(RowsFrom(Nm, cut[s]), R[s], Slice(Iv, cut[s]), cut[s + 1] - cut[s]))
    && (forall k, l :: 0 <= k < L && 0 <= l < L ==> M[k, l] == MasterMatrix(y, F)(k, l))
    && (forall k :: 0 <= k < L ==> v[k] == MasterVector(V)(k))
  }

  lemma MasterAppend(y: Vec, F: seq<Mat>, X: Mat, V: seq<Vec>, x: Vec)
    ensures forall k, l :: MasterMatrix(y, F + [X])(k, l) == MasterMatrix(y, F)(k, l) - X(k, l)
    ensures forall k :: MasterVector(V + [x])(k) == MasterVector(V)(k) - x(k)
  {
    forall k, l ensures MasterMatrix(y, F + [X])(k, l) == MasterMatrix(y, F)(k, l) - X(k, l) {
      EntriesAppend(F, X, k, l);
    }
    forall k ensures MasterVector(V + [x])(k) == MasterVector(V)(k) - x(k) {
      ComponentsAppend(V, x, k);
    }
  }

  lemma MasterStart(y: Vec)
    ensures forall k, l :: MasterMatrix(y, [])(k, l) == Diagonal(Reciprocal(y))(k, l)
    ensures forall k :: MasterVector([])(k) == 0.0
  {}

  /** One round of the first phase: ask the next server and subtract its answer. */
  method FirstPhaseRound(Yb: array2<real>, N: array2<real>, I: array<real>, lo: nat, m: nat, M: array2<real>,
                         v: array<real>, ghost slaves: seq<PowerSlave>, ghost y: Vec, ghost cut: seq<int>,
                         ghost R: seq<Mat>, ghost F: seq<Mat>, ghost V: seq<Vec>)
    returns (slave: PowerSlave, ghost r: Mat, ghost X: Mat, ghost x: Vec)
    requires lo + m <= Yb.Length0 && lo + m <= Yb.Length1 && lo + m <= N.Length0 && lo + m <= I.Length
    requires Nonsingular(Block(MatrixContents(Yb), lo), m)
    requires Collected(slaves, MatrixContents(Yb), MatrixContents(N), Contents(I), y, cut, N.Length1, R, F, V, M, v)
    requires |R| + 1 < |cut| && cut[|R|] == lo && cut[|R| + 1] == lo + m
    requires M != Yb && M != N && v != I
    modifies M, v
    ensures fresh(slave)
    ensures Holds(slave, MatrixContents(Yb), MatrixContents(N), r, lo, m, N.Length1)
    ensures slave.I == Part(Contents(I), lo, m)
    ensures Collected(slaves + [slave], MatrixContents(Yb), MatrixContents(N), Contents(I), y, cut, N.Length1,
                      R + [r], F + [X], V + [x], M, v)
  {
    hide MasterMatrix, MasterVector, SlaveMatrix, SlaveVector, IsInverse, Nonsingular, Part1Sum, Part2Sum;
    hide RepliesInRange;
    var reply;
    slave, reply := RequestFirstPhase(Yb, N, I, lo, m, N.Length1);
    ghost var Nm, Iv := MatrixContents(N), Contents(I);
    r := slave.Y_b_inv;
    X, x := SlaveMatrix(RowsFrom(Nm, lo), r, m), SlaveVector(RowsFrom(Nm, lo), r, Slice(Iv, lo), m);
    SubtractReplies(reply, N.Length1, M, v);
    MasterAppend(y, F, X, V, x);
  }

  /** First phase over all servers: the master ends up with y_L^-1 - N'Y_b^-1 N and with
      -N'Y_b^-1 I, summed from the servers' answers. */
  method CollectFirstPhase(Yb: array2<real>, N: array2<real>, I: array<real>, y_L: array2<real>, switch_pi: nat,
                           starts: seq<int>, nums: seq<int>)
    returns (slaves: seq<PowerSlave>, M: array2<real>, v: array<real>, ghost R: seq<Mat>)
    requires Yb.Length0 == Yb.Length1 == N.Length0 == I.Length == switch_pi && ServersFit(starts, nums, switch_pi)
    requires y_L.Length0 == y_L.Length1 == N.Length1 && forall k :: 0 <= k < y_L.Length0 ==> y_L[k, k] != 0.0
    requires BlockDiagonal(MatrixContents(Yb), Cut(starts, switch_pi), switch_pi - 1)
    requires Nonsingular(MatrixContents(Yb), switch_pi - 1)
    ensures |slaves| == |R| == |starts| && fresh(M) && fresh(v) && M.Length0 == M.Length1 == v.Length == N.Length1
    ensures forall s :: 0 <= s < |slaves| ==> fresh(slaves[s])
    ensures DistinctSlaves(slaves)
    ensures AllHold(slaves, MatrixContents(Yb), MatrixContents(N), R, Cut(starts, switch_pi), N.Length1)
    ensures HoldInjections(slaves, Parts(Contents(I), Cut(starts, switch_pi)))
    ensures forall k, l :: 0 <= k < N.Length1 && 0 <= l < N.Length1
              ==> M[k, l]
                  == MasterMatrix(DiagonalOf(y_L), SlaveMatrices(MatrixContents(N), R, Cut(starts, switch_pi)))(k, l)
    ensures forall k :: 0 <= k < N.Length1
              ==> v[k] == MasterVector(SlaveVectors(MatrixContents(N), R, Contents(I), Cut(starts, switch_pi)))(k)
  {
    hide *;
    CutFacts(starts, nums, switch_pi);
    ghost var Y, Nm, Iv, y, cut :=
      MatrixContents(Yb), MatrixContents(N), Contents(I), DiagonalOf(y_L), Cut(starts, switch_pi);
    M := InvertDiagonal(y_L);
    v := Zeros(N.Length1);
    slaves := [];
    R := [];
    ghost var F: seq<Mat>, V: seq<Vec> := [], [];
    CollectedStart(slaves, Y, Nm, Iv, y, cut, N.Length1, R, F, V, M, v);
    for s := 0 to |starts|
      invariant fresh(M) && fresh(v) && |slaves| == |R| == s
      invariant MatrixContents(Yb) == Y && MatrixContents(N) == Nm && Contents(I) == Iv && DiagonalOf(y_L) == y
      invariant Collected(slaves, Y, Nm, Iv, y, cut, N.Length1, R, F, V, M, v)
      invariant forall t :: 0 <= t < s ==> fresh(slaves[t])
      invariant DistinctSlaves(slaves)
      invariant AllHold(slaves, Y, Nm, R, cut, N.Length1)
      invariant forall t {:trigger slaves[t]} :: 0 <= t < s ==> slaves[t].I == Parts(Iv, cut)[t]
    {
      WidthOfServer(starts, nums, switch_pi, s);
      ServerNonsingular(Y, starts, nums, switch_pi, s);
      var lo, m := starts[s], Width(starts, nums, switch_pi, s);
      var slave, r, X, x := FirstPhaseRound(Yb, N, I, lo, m, M, v, slaves, y, cut, R, F, V);
      DistinctAppend(slaves, slave);
      HoldAppend(slaves, slave, Y, Nm, R, r, cut, N.Length1);
      PartOfServer(Iv, cut, s);
      slaves := slaves + [slave];
      R := R + [r];
      F := F + [X];
      V := V + [x];
    }
    CollectedAll(slaves, Y, Nm, Iv, y, cut, N.Length1, R, F, V, M, v);
    AllInjected(slaves, Parts(Iv, cut));
  }

  lemma CutFacts(starts: seq<int>, nums: seq<int>, switch_pi: int)
    requires ServersFit(starts, nums, switch_pi)
    ensures |starts| == |nums| && switch_pi > 0 && Tiles(Cut(starts, switch_pi), switch_pi - 1)
    ensures |Cut(starts, switch_pi)| == |starts| + 1
    ensures forall s :: 0 <= s < |starts| ==> Cut(starts, switch_pi)[s] == starts[s]
  {}

  lemma ServerNonsingular(Y: Mat, starts: seq<int>, nums: seq<int>, switch_pi: int, s: int)
    requires ServersFit(starts, nums, switch_pi) && 0 <= s < |starts|
    requires BlockDiagonal(Y, Cut(starts, switch_pi), switch_pi - 1) && Nonsingular(Y, switch_pi - 1)
    ensures Nonsingular(Block(Y, starts[s]), Width(starts, nums, switch_pi, s))
  {
    hide BlockDiagonal, Nonsingular, Block, Tiles;
    WidthOfServer(starts, nums, switch_pi, s);
    BlockNonsingular(Y, Cut(starts, switch_pi), switch_pi - 1, s);
  }

  lemma CollectedStart(slaves: seq<PowerSlave>, Y: Mat, Nm: Mat, Iv: Vec, y: Vec, cut: seq<int>, L: int, R: seq<Mat>,
                       F: seq<Mat>, V: seq<Vec>, M: array2<real>, v: array<real>)
    requires slaves == [] && R == [] && F == [] && V == [] && |cut| > 0 && M.Length0 == M.Length1 == v.Length == L
    requires forall k, l :: 0 <= k < L && 0 <= l < L ==> M[k, l] == Diagonal(Reciprocal(y))(k, l)
    requires forall k :: 0 <= k < L ==> v[k] == 0.0
    ensures Collected(slaves, Y, Nm, Iv, y, cut, L, R, F, V, M, v)
    ensures AllHold(slaves, Y, Nm, R, cut, L) && DistinctSlaves(slaves)
  {
    MasterStart(y);
  }

  lemma HoldAppend(slaves: seq<PowerSlave>, slave: PowerSlave, Y: Mat, Nm: Mat, R: seq<Mat>, r: Mat, cut: seq<int>,
                   L: int)
    requires |slaves| == |R| && |R| + 1 < |cut| && AllHold(slaves, Y, Nm, R, cut, L)
    requires Holds(slave, Y, Nm, r, cut[|R|], cut[|R| + 1] - cut[|R|], L)
    ensures AllHold(slaves + [slave], Y, Nm, R + [r], cut, L)
  {
    hide Holds;
  }

  lemma CollectedAll(slaves: seq<PowerSlave>, Y: Mat, Nm: Mat, Iv: Vec, y: Vec, cut: seq<int>, L: int, R: seq<Mat>,
                     F: seq<Mat>, V: seq<Vec>, M: array2<real>, v: array<real>)
    requires Collected(slaves, Y, Nm, Iv, y, cut, L, R, F, V, M, v) && |cut| == |R| + 1
    ensures M.Length0 == M.Length1 == v.Length == L
    ensures forall k, l :: 0 <= k < L && 0 <= l < L ==> M[k, l] == MasterMatrix(y, SlaveMatrices(Nm, R, cut))(k, l)
    ensures forall k :: 0 <= k < L ==> v[k] == MasterVector(SlaveVectors(Nm, R, Iv, cut))(k)
  {
    hide *;
    CollectedReplies(slaves, Y, Nm, Iv, y, cut, L, R, F, V, M, v);
    MatricesAre(Nm, R, cut, F);
    VectorsAre(Nm, R, Iv, cut, V);
  }

  lemma CollectedReplies(slaves: seq<PowerSlave>, Y: Mat, Nm: Mat, Iv: Vec, y: Vec, cut: seq<int>, L: int, R: seq<Mat>,
                         F: seq<Mat>, V: seq<Vec>, M: array2<real>, v: array<real>)
    requires Collected(slaves, Y, Nm, Iv, y, cut, L, R, F, V, M, v) && |cut| == |R| + 1
    ensures |F| == |V| == |R| && M.Length0 == M.Length1 == v.Length == L
    ensures forall s {:trigger F[s]} :: 0 <= s < |R|
              ==> F[s] == SlaveMatrix(RowsFrom(Nm, cut[s]), R[s], cut[s + 1] - cut[s])
    ensures forall s {:trigger V[s]} :: 0 <= s < |R|
              ==> V[s] == SlaveVector(RowsFrom(Nm, cut[s]), R[s], Slice(Iv, cut[s]), cut[s + 1] - cut[s])
    ensures forall k, l :: 0 <= k < L && 0 <= l < L ==> M[k, l] == MasterMatrix(y, F)(k, l)
    ensures forall k :: 0 <= k < L ==> v[k] == MasterVector(V)(k)
  {
    hide MasterMatrix, MasterVector, SlaveMatrix, SlaveVector, RowsFrom, Slice;
  }

  lemma MatricesAre(Nm: Mat, R: seq<Mat>, cut: seq<int>, F: seq<Mat>)
    requires |cut| == |R| + 1 && |F| == |R|
    requires forall s {:trigger F[s]} :: 0 <= s < |R|
               ==> F[s] == SlaveMatrix(RowsFrom(Nm, cut[s]), R[s], cut[s + 1] - cut[s])
    ensures F == SlaveMatrices(Nm, R, cut)
  {
    hide SlaveMatrix, RowsFrom;
  }

  lemma VectorsAre(Nm: Mat, R: seq<Mat>, Iv: Vec, cut: seq<int>, V: seq<Vec>)
    requires |cut| == |R| + 1 && |V| == |R|
    requires forall s {:trigger V[s]} :: 0 <= s < |R|
               ==> V[s] == SlaveVector(RowsFrom(Nm, cut[s]), R[s], Slice(Iv, cut[s]), cut[s + 1] - cut[s])
    ensures V == SlaveVectors(Nm, R, Iv, cut)
  {
    hide SlaveVector, RowsFrom, Slice;
  }

  /** The slaves' vectors I are held. */
  ghost predicate HoldInjections(slaves: seq<PowerSlave>, held: seq<seq<real>>)
    reads (set s | 0 <= s < |slaves| :: slaves[s])`I
  {
    |held| == |slaves| && forall s {:trigger slaves[s]} :: 0 <= s < |slaves| ==> slaves[s].I == held[s]
  }

  // ----- second phase -----

  /** What a receiver holds after the nonzero entries of x have overwritten h: zero entries
      are never sent, so the old ones survive there. */
  function Overlay(h: Vec, x: Vec): Vec {
    i => if x(i) != 0.0 then x(i) else h(i)
  }

  /** One second-phase request. The first request clears the slave's I_x, an update does not. */
  method RequestSecondPhase(slave: PowerSlave, x: array<real>, lo: nat, m: nat, update: bool, ghost h: Vec)
    returns (u: seq<real>)
    requires slave.Ready() && slave.n == m && lo + m <= x.Length
    requires if update then slave.I_x == Part(h, lo, m) else h == ZERO
    modifies slave`I_x
    ensures slave.I_x == Part(Overlay(h, Contents(x)), lo, m)
    ensures |u| == m
    ensures forall i :: 0 <= i < m ==> u[i] == Apply(slave.Y_b_inv, Slice(Overlay(h, Contents(x)), lo), m)(i)
  {
    hide InRange, SlaveGain, PowerSlave.Ready;
    NoTokens();
    var tokens := VectorTokens(x, lo, m, slave.l, []);
    hide IAt;
    if update {
      u := slave.UpdateSecondPhase(tokens);
    } else {
      u := slave.SecondPhase(tokens);
    }
    ApplyExt(slave.Y_b_inv, slave.Y_b_inv, VecOf(slave.I_x), Slice(Overlay(h, Contents(x)), lo), m, m);
  }

  /** U holds the answer of a server from lo on. */
  method StoreAnswer(U: array<real>, lo: nat, u: seq<real>)
    requires lo + |u| <= U.Length
    modifies U
    ensures forall i :: 0 <= i < U.Length
              ==> Contents(U)(i) == if lo <= i < lo + |u| then u[i - lo] else old(Contents(U))(i)
  {
    for k := 0 to |u|
      invariant forall i :: 0 <= i < U.Length ==> U[i] == if lo <= i < lo + k then u[i - lo] else old(U[i])
    {
      U[lo + k] := u[k];
    }
  }

  /** One round of the second phase: the server's answer is stored in its range. */
  method SecondPhaseRound(slave: PowerSlave, x: array<real>, U: array<real>, lo: nat, m: nat, update: bool,
                          ghost h: Vec, ghost s: int, ghost cut: seq<int>, ghost R: seq<Mat>)
    requires Tiles(cut, U.Length) && |cut| == |R| + 1 && 0 <= s < |R| && cut[s] == lo && cut[s + 1] == lo + m
    requires slave.Ready() && slave.n == m && slave.Y_b_inv == R[s] && x.Length == U.Length && x != U
    requires if update then slave.I_x == Part(h, lo, m) else h == ZERO
    requires forall t {:trigger R[t]} :: 0 <= t < s
               ==> ServerAnswers(Contents(U), Overlay(h, Contents(x)), cut[t], cut[t + 1] - cut[t], R[t])
    modifies slave`I_x, U
    ensures slave.I_x == Part(Overlay(h, Contents(x)), lo, m)
    ensures forall t {:trigger R[t]} :: 0 <= t <= s
              ==> ServerAnswers(Contents(U), Overlay(h, Contents(x)), cut[t], cut[t + 1] - cut[t], R[t])
  {
    hide PowerSlave.Ready, ServerAnswers, Slice, Part, Overlay;
    assert lo + m <= U.Length;
    var u := RequestSecondPhase(slave, x, lo, m, update, h);
    ghost var V := Contents(U);
    StoreAnswer(U, lo, u);
    AnswerStored(V, Contents(U), Overlay(h, Contents(x)), cut, U.Length, R, s, u);
  }

  ghost predicate DistinctSlaves(slaves: seq<PowerSlave>) {
    forall s, t :: 0 <= s < t < |slaves| ==> slaves[s] != slaves[t]
  }

  lemma DistinctAppend(slaves: seq<PowerSlave>, slave: PowerSlave)
    requires DistinctSlaves(slaves) && slave !in slaves
    ensures DistinctSlaves(slaves + [slave])
  {}

  lemma OthersDiffer(slaves: seq<PowerSlave>, s: int)
    requires DistinctSlaves(slaves) && 0 <= s < |slaves|
    ensures forall t :: 0 <= t < |slaves| && t != s ==> slaves[t] != slaves[s]
  {}

  /** Second phase over all servers: their answers, put together. */
  method CollectSecondPhase(slaves: seq<PowerSlave>, x: array<real>, switch_pi: nat, starts: seq<int>, nums: seq<int>,
                            ghost Y: Mat, ghost Nm: Mat, ghost R: seq<Mat>, ghost L: int)
    returns (U: array<real>)
    requires ServersFit(starts, nums, switch_pi) && |slaves| == |R| == |starts| && x.Length == switch_pi - 1
    requires AllHold(slaves, Y, Nm, R, Cut(starts, switch_pi), L)
    requires DistinctSlaves(slaves)
    modifies (set s | 0 <= s < |slaves| :: slaves[s])`I_x
    ensures fresh(U) && U.Length == switch_pi - 1
    ensures HoldInputs(slaves, Parts(Overlay(ZERO, Contents(x)), Cut(starts, switch_pi)))
    ensures Answers(Contents(U), Overlay(ZERO, Contents(x)), Cut(starts, switch_pi), R)
  {
    hide *;
    CutFacts(starts, nums, switch_pi);
    ghost var cut, X := Cut(starts, switch_pi), Overlay(ZERO, Contents(x));
    U := Zeros(switch_pi - 1);
    for s := 0 to |slaves|
      invariant Overlay(ZERO, Contents(x)) == X
      invariant forall t {:trigger slaves[t]} :: 0 <= t < s ==> slaves[t].I_x == Parts(X, cut)[t]
      invariant forall t {:trigger R[t]} :: 0 <= t < s
                  ==> ServerAnswers(Contents(U), X, cut[t], cut[t + 1] - cut[t], R[t])
    {
      WidthOfServer(starts, nums, switch_pi, s);
      HoldsOne(slaves, Y, Nm, R, cut, L, s);
      OthersDiffer(slaves, s);
      SecondPhaseRound(slaves[s], x, U, starts[s], Width(starts, nums, switch_pi, s), false, ZERO, s, cut, R);
      PartOfServer(X, cut, s);
    }
    AllAnswered(slaves, Contents(U), X, cut, R);
  }

  /** The slaves' vectors I_x are held. */
  ghost predicate HoldInputs(slaves: seq<PowerSlave>, held: seq<seq<real>>)
    reads (set s | 0 <= s < |slaves| :: slaves[s])`I_x
  {
    |held| == |slaves| && forall s {:trigger slaves[s]} :: 0 <= s < |slaves| ==> slaves[s].I_x == held[s]
  }

  /** The update of the second phase: the slaves do not clear the h they held. */
  method UpdateSecondPhase(slaves: seq<PowerSlave>, x: array<real>, switch_pi: nat, starts: seq<int>, nums: seq<int>,
                           ghost Y: Mat, ghost Nm: Mat, ghost R: seq<Mat>, ghost L: int, ghost h: Vec)
    returns (U: array<real>)
    requires ServersFit(starts, nums, switch_pi) && |slaves| == |R| == |starts| && x.Length == switch_pi - 1
    requires AllHold(slaves, Y, Nm, R, Cut(starts, switch_pi), L)
    requires DistinctSlaves(slaves) && HoldInputs(slaves, Parts(h, Cut(starts, switch_pi)))
    modifies (set s | 0 <= s < |slaves| :: slaves[s])`I_x
    ensures fresh(U) && U.Length == switch_pi - 1
    ensures HoldInputs(slaves, Parts(Overlay(h, Contents(x)), Cut(starts, switch_pi)))
    ensures Answers(Contents(U), Overlay(h, Contents(x)), Cut(starts, switch_pi), R)
  {
    hide *;
    CutFacts(starts, nums, switch_pi);
    ghost var cut, X := Cut(starts, switch_pi), Overlay(h, Contents(x));
    ghost var held := Parts(h, cut);
    HeldFacts(slaves, held);
    ghost var P := Parts(X, cut);
    U := Zeros(switch_pi - 1);
    for s := 0 to |slaves|
      invariant Overlay(h, Contents(x)) == X
      invariant forall t {:trigger slaves[t]} :: 0 <= t < |slaves| ==> slaves[t].I_x == if t < s then P[t] else held[t]
      invariant forall t {:trigger R[t]} :: 0 <= t < s
                  ==> ServerAnswers(Contents(U), X, cut[t], cut[t + 1] - cut[t], R[t])
    {
      WidthOfServer(starts, nums, switch_pi, s);
      HoldsOne(slaves, Y, Nm, R, cut, L, s);
      OthersDiffer(slaves, s);
      PartOfServer(h, cut, s);
      PartOfServer(X, cut, s);
      SecondPhaseRound(slaves[s], x, U, starts[s], Width(starts, nums, switch_pi, s), true, h, s, cut, R);
    }
    AllAnswered(slaves, Contents(U), X, cut, R);
  }

  /** One round of the first phase's update: the slave overwrites what it held with the new
      nonzero injections of its range and answers from what it then holds. */
  method UpdateFirstPhaseRound(slave: PowerSlave, I: array<real>, lo: nat, m: nat, L: nat, v: array<real>,
                               ghost Y: Mat, ghost Nm: Mat, ghost r: Mat, ghost h: Vec)
    requires Holds(slave, Y, Nm, r, lo, m, L) && slave.I == Part(h, lo, m) && lo + m <= I.Length && v != I
    requires v.Length == L
    modifies slave`I, v
    ensures slave.I == Part(Overlay(h, Contents(I)), lo, m)
    ensures forall k :: 0 <= k < L
              ==> v[k] == old(v[k]) - SlaveVector(RowsFrom(Nm, lo), r, Slice(Overlay(h, Contents(I)), lo), m)(k)
  {
    hide SlaveVector, IsInverse, Part2Sum, RepliesInRange, PowerSlave.Ready;
    ghost var H := Overlay(h, Contents(I));
    NoTokens();
    var tokens := VectorTokens(I, lo, m, L, []);
    hide IAt;
    var reply := slave.UpdateFirstPhase(tokens);
    SlaveVectorExt(slave.N, RowsFrom(Nm, lo), r, VecOf(slave.I), Slice(H, lo), m, L);
    SubtractSecondParts(reply, L, v);
  }

  /** The master's vector after the first c answers. */
  function PartialVector(V: seq<Vec>, c: int): Vec {
    k => -Sum(Components(V, k), 0, c)
  }

  lemma PartialVectorEnds(V: seq<Vec>)
    ensures forall k :: PartialVector(V, 0)(k) == 0.0 && PartialVector(V, |V|)(k) == MasterVector(V)(k)
  {}

  lemma PartialVectorStep(Nm: Mat, R: seq<Mat>, H: Vec, cut: seq<int>, s: int)
    requires |cut| == |R| + 1 && 0 <= s < |R|
    ensures var V := SlaveVectors(Nm, R, H, cut);
            var next := SlaveVector(RowsFrom(Nm, cut[s]), R[s], Slice(H, cut[s]), cut[s + 1] - cut[s]);
            forall k :: PartialVector(V, s + 1)(k) == PartialVector(V, s)(k) - next(k)
  {
    hide SlaveVector;
  }

  /** The update of the first phase over all servers. */
  method UpdateFirstPhase(slaves: seq<PowerSlave>, I: array<real>, switch_pi: nat, starts: seq<int>, nums: seq<int>,
                          L: nat, ghost Y: Mat, ghost Nm: Mat, ghost R: seq<Mat>, ghost h: Vec)
    returns (v: array<real>)
    requires ServersFit(starts, nums, switch_pi) && |slaves| == |R| == |starts| && I.Length == switch_pi
    requires AllHold(slaves, Y, Nm, R, Cut(starts, switch_pi), L)
    requires DistinctSlaves(slaves) && HoldInjections(slaves, Parts(h, Cut(starts, switch_pi)))
    modifies (set s | 0 <= s < |slaves| :: slaves[s])`I
    ensures fresh(v) && v.Length == L
    ensures HoldInjections(slaves, Parts(Overlay(h, Contents(I)), Cut(starts, switch_pi)))
    ensures forall k :: 0 <= k < L
              ==> v[k] == MasterVector(SlaveVectors(Nm, R, Overlay(h, Contents(I)), Cut(starts, switch_pi)))(k)
  {
    hide *;
    CutFacts(starts, nums, switch_pi);
    ghost var cut, H := Cut(starts, switch_pi), Overlay(h, Contents(I));
    ghost var before, after := Parts(h, cut), Parts(H, cut);
    InjectedFacts(slaves, before);
    ghost var V := SlaveVectors(Nm, R, H, cut);
    PartialVectorEnds(V);
    v := Zeros(L);
    for s := 0 to |slaves|
      invariant Overlay(h, Contents(I)) == H
      invariant forall t {:trigger slaves[t]} :: 0 <= t < |slaves|
                  ==> slaves[t].I == if t < s then after[t] else before[t]
      invariant forall k :: 0 <= k < L ==> v[k] == PartialVector(V, s)(k)
    {
      WidthOfServer(starts, nums, switch_pi, s);
      OneHolds(slaves, Y, Nm, R, cut, L, s);
      OthersDiffer(slaves, s);
      PartOfServer(h, cut, s);
      PartOfServer(H, cut, s);
      UpdateFirstPhaseRound(slaves[s], I, starts[s], Width(starts, nums, switch_pi, s), L, v, Y, Nm, R[s], h);
      PartialVectorStep(Nm, R, H, cut, s);
    }
    AllInjected(slaves, after);
  }

  lemma OneHolds(slaves: seq<PowerSlave>, Y: Mat, Nm: Mat, R: seq<Mat>, cut: seq<int>, L: int, s: int)
    requires |slaves| == |R| < |cut| && AllHold(slaves, Y, Nm, R, cut, L) && 0 <= s < |slaves|
    ensures Holds(slaves[s], Y, Nm, R[s], cut[s], cut[s + 1] - cut[s], L)
  {
    hide Holds;
  }

  lemma InjectedFacts(slaves: seq<PowerSlave>, held: seq<seq<real>>)
    requires HoldInjections(slaves, held)
    ensures |held| == |slaves| && forall s {:trigger slaves[s]} :: 0 <= s < |slaves| ==> slaves[s].I == held[s]
  {}

  lemma AllInjected(slaves: seq<PowerSlave>, held: seq<seq<real>>)
    requires |held| == |slaves| && forall s {:trigger slaves[s]} :: 0 <= s < |slaves| ==> slaves[s].I == held[s]
    ensures HoldInjections(slaves, held)
  {}

  lemma PartOfServer(x: Vec, cut: seq<int>, s: int)
    requires 0 <= s < |cut| - 1
    ensures Parts(x, cut)[s] == Part(x, cut[s], cut[s + 1] - cut[s])
  {}

  lemma HeldFacts(slaves: seq<PowerSlave>, held: seq<seq<real>>)
    requires HoldInputs(slaves, held)
    ensures |held| == |slaves| && forall s {:trigger slaves[s]} :: 0 <= s < |slaves| ==> slaves[s].I_x == held[s]
  {}

  lemma HoldsOne(slaves: seq<PowerSlave>, Y: Mat, Nm: Mat, R: seq<Mat>, cut: seq<int>, L: int, s: int)
    requires |slaves| == |R| < |cut| && AllHold(slaves, Y, Nm, R, cut, L) && 0 <= s < |slaves|
    ensures slaves[s].Ready() && slaves[s].n == cut[s + 1] - cut[s] && slaves[s].l == L && slaves[s].Y_b_inv == R[s]
  {
    assert Holds(slaves[s], Y, Nm, R[s], cut[s], cut[s + 1] - cut[s], L);
  }

  lemma AnswerStored(V: Vec, U: Vec, x: Vec, cut: seq<int>, n: int, R: seq<Mat>, s: int, u: seq<real>)
    requires Tiles(cut, n) && |cut| == |R| + 1 && 0 <= s < |R| && |u| == cut[s + 1] - cut[s]
    requires forall t {:trigger R[t]} :: 0 <= t < s ==> ServerAnswers(V, x, cut[t], cut[t + 1] - cut[t], R[t])
    requires forall i :: 0 <= i < n ==> U(i) == if cut[s] <= i < cut[s + 1] then u[i - cut[s]] else V(i)
    requires forall i :: 0 <= i < |u| ==> u[i] == Apply(R[s], Slice(x, cut[s]), |u|)(i)
    ensures forall t {:trigger R[t]} :: 0 <= t <= s ==> ServerAnswers(U, x, cut[t], cut[t + 1] - cut[t], R[t])
  {
    forall t | 0 <= t <= s ensures ServerAnswers(U, x, cut[t], cut[t + 1] - cut[t], R[t]) {
      forall i | 0 <= i < cut[t + 1] - cut[t]
        ensures Slice(U, cut[t])(i) == Apply(R[t], Slice(x, cut[t]), cut[t + 1] - cut[t])(i)
      {
        var j := cut[t] + i;
        assert 0 <= cut[t] && cut[t + 1] <= n;
        if t < s {
          assert cut[t + 1] <= cut[s];
          assert ServerAnswers(V, x, cut[t], cut[t + 1] - cut[t], R[t]);
          assert Slice(V, cut[t])(i) == Apply(R[t], Slice(x, cut[t]), cut[t + 1] - cut[t])(i);
        } else {
          assert U(j) == u[i];
        }
      }
    }
  }

  lemma AllAnswered(slaves: seq<PowerSlave>, U: Vec, x: Vec, cut: seq<int>, R: seq<Mat>)
    requires |cut| == |R| + 1 && |slaves| == |R|
    requires forall t {:trigger R[t]} :: 0 <= t < |R| ==> ServerAnswers(U, x, cut[t], cut[t + 1] - cut[t], R[t])
    requires forall t {:trigger slaves[t]} :: 0 <= t < |slaves| ==> slaves[t].I_x == Parts(x, cut)[t]
    ensures Answers(U, x, cut, R) && HoldInputs(slaves, Parts(x, cut))
  {}
}
