/** One connected component: its matrices and the direct, distributed and cached
    calculations of the voltages of its switch interfaces. */
module ConnectedComponents {
  import opened Sums
  import opened LinearAlgebra
  import opened Laplacians
  import opened Woodbury
  import opened Gsl
  import opened PowerSlaves
  import opened Messages
  import opened Distribution

  class ConnectedComponent {
    var switch_pi: nat
    var A: array2<real>
    var A_inv: array2<real>
    var I: array<real>
    var N: array2<real>
    var y_L: array2<real>
    var y_L_inv_inv: array2<real>
    var servers_start_index: seq<int>
    var servers_pis_num: seq<int>
    var slaves: seq<PowerSlave>

    /** A component whose matrices have been filled, before any calculation. */
    constructor (A: array2<real>, I: array<real>, N: array2<real>, y_L: array2<real>, starts: seq<int>, nums: seq<int>)
      ensures this.A == A && this.I == I && this.N == N && this.y_L == y_L && switch_pi == I.Length
      ensures servers_start_index == starts && servers_pis_num == nums && slaves == []
    {
      this.A, this.I, this.N, this.y_L, switch_pi := A, I, N, y_L, I.Length;
      servers_start_index, servers_pis_num, slaves := starts, nums, [];
      A_inv, y_L_inv_inv := new real[0, 0], new real[0, 0];
    }

    /** What a direct calculation looks at fits together. */
    ghost predicate Grounded()
      reads `switch_pi, `A, `I
    {
      switch_pi > 0 && A.Length0 == A.Length1 == I.Length == switch_pi
    }

    /** The allocated sizes fit, and the matrices do not share storage. */
    ghost predicate Dimensioned()
      reads `switch_pi, `A, `I, `N, `y_L, `servers_start_index, `servers_pis_num
    {
      && Grounded() && N.Length0 == switch_pi && N.Length1 == y_L.Length0 == y_L.Length1
      && A != N && A != y_L
      && ServersFit(servers_start_index, servers_pis_num, switch_pi)
    }

    /** The network that the matrices describe can be solved in parts: the grounded network B is
        positive definite, and adding N y_L N' makes it block diagonal over the servers. */
    ghost predicate Separable(B: Mat)
      requires Dimensioned()
      reads `switch_pi, `A, `I, `N, `y_L, `servers_start_index, `servers_pis_num, N, y_L
    {
      && PositiveDefinite(B, switch_pi - 1)
      && IsDiagonal(y_L) && (forall k :: 0 <= k < y_L.Length0 ==> y_L[k, k] > 0.0)
      && BlockDiagonal(CutMatrix(B, MatrixContents(N), DiagonalOf(y_L), N.Length1),
                       Cut(servers_start_index, switch_pi), switch_pi - 1)
    }

    /** Direct calculation: invert the grounded matrix and multiply. The inverse is kept. */
    method LocalCalculation() returns (U: array<real>)
      requires Grounded() && Nonsingular(MatrixContents(A), switch_pi - 1)
      modifies this`A_inv
      ensures fresh(U) && U.Length == switch_pi - 1 && fresh(A_inv) && A_inv.Length0 == A_inv.Length1 == switch_pi - 1
      ensures OnlySolution(MatrixContents(A), Contents(U), Contents(I), switch_pi - 1)
      ensures IsInverse(MatrixContents(A), MatrixContents(A_inv), switch_pi - 1)
    {
      hide *;
      GroundedSizes();
      A_inv := Invert(A, switch_pi - 1);
      U := Dgemv(A_inv, switch_pi - 1, switch_pi - 1, I);
      DirectSolves(MatrixContents(A), MatrixContents(A_inv), Contents(I), Contents(U), switch_pi - 1);
      NonsingularOnly(MatrixContents(A), Contents(U), Contents(I), switch_pi - 1);
    }

    /** New injections with the inverse of an earlier direct calculation. */
    method LocalUpdate() returns (U: array<real>)
      requires Grounded() && Nonsingular(MatrixContents(A), switch_pi - 1)
      requires A_inv.Length0 == A_inv.Length1 == switch_pi - 1
      requires IsInverse(MatrixContents(A), MatrixContents(A_inv), switch_pi - 1)
      ensures fresh(U) && U.Length == switch_pi - 1
      ensures OnlySolution(MatrixContents(A), Contents(U), Contents(I), switch_pi - 1)
    {
      hide *;
      GroundedSizes();
      U := Dgemv(A_inv, switch_pi - 1, switch_pi - 1, I);
      DirectSolves(MatrixContents(A), MatrixContents(A_inv), Contents(I), Contents(U), switch_pi - 1);
      NonsingularOnly(MatrixContents(A), Contents(U), Contents(I), switch_pi - 1);
    }

    /** What the first phase leaves behind. */
    ghost predicate Prepared(B: Mat, R: seq<Mat>)
      reads this, N, y_L, y_L_inv_inv
    {
      && y_L_inv_inv.Length0 == y_L_inv_inv.Length1 == N.Length1 && |R| == |servers_start_index|
      && Prepares(slaves, MatrixContents(y_L_inv_inv), B, MatrixContents(N), DiagonalOf(y_L), N.Length1,
                  Cut(servers_start_index, switch_pi), switch_pi - 1, R)
    }

    /** A := A + N y_L N' on the grounded part: the lines between servers are cut. */
    method CutLines()
      requires Dimensioned() && Separable(MatrixContents(A))
      modifies A
      ensures forall i, j :: 0 <= i < switch_pi - 1 && 0 <= j < switch_pi - 1
                ==> MatrixContents(A)(i, j)
                    == CutMatrix(old(MatrixContents(A)), MatrixContents(N), DiagonalOf(y_L), N.Length1)(i, j)
      ensures BlockDiagonal(MatrixContents(A), Cut(servers_start_index, switch_pi), switch_pi - 1)
      ensures Nonsingular(MatrixContents(A), switch_pi - 1)
    {
      ghost var B := MatrixContents(A);
      hide *;
      Facts(B);
      AddCutTerm(A, N, y_L, switch_pi - 1);
      BlocksOfSum(B, MatrixContents(A), MatrixContents(N), DiagonalOf(y_L), N.Length1,
                  Cut(servers_start_index, switch_pi), switch_pi - 1);
    }

    /** First phase: A becomes Y_b on the grounded part, the servers invert their blocks, and
        the master inverts what remains. Returns -N'Y_b^-1 I. */
    method FirstPhase() returns (v: array<real>, ghost R: seq<Mat>)
      requires Dimensioned() && Separable(MatrixContents(A))
      modifies this`slaves, this`y_L_inv_inv, A
      ensures fresh(v) && v.Length == N.Length1 && fresh(y_L_inv_inv)
      ensures Prepared(old(MatrixContents(A)), R)
      ensures HoldInjections(slaves, Parts(Contents(I), Cut(servers_start_index, switch_pi)))
      ensures forall s :: 0 <= s < |slaves| ==> fresh(slaves[s])
      ensures Received(Contents(v), MatrixContents(N), R, Contents(I), Cut(servers_start_index, switch_pi), N.Length1)
    {
      ghost var B := MatrixContents(A);
      hide *;
      Facts(B);
      CutLines();
      var all, K;
      all, K, v, R := InvertParts(A, N, I, y_L, switch_pi, servers_start_index, servers_pis_num, B);
      slaves, y_L_inv_inv := all, K;
      IsPrepared(B, R);
    }

    /** Two-phase distributed calculation: what the servers return solves the network as it
        was before its lines were cut. */
    method DistributedCalculation() returns (U: array<real>, ghost R: seq<Mat>, ghost x: Vec)
      requires Dimensioned() && Separable(MatrixContents(A))
      modifies this`slaves, this`y_L_inv_inv, A
      ensures fresh(U) && U.Length == switch_pi - 1 && fresh(y_L_inv_inv)
      ensures OnlySolution(old(MatrixContents(A)), Contents(U), Contents(I), switch_pi - 1)
      ensures Prepared(old(MatrixContents(A)), R)
      ensures forall s :: 0 <= s < |slaves| ==> fresh(slaves[s])
      ensures HoldInjections(slaves, Parts(Contents(I), Cut(servers_start_index, switch_pi)))
      ensures HoldInputs(slaves, Parts(x, Cut(servers_start_index, switch_pi)))
      ensures |Cut(servers_start_index, switch_pi)| == |R| + 1
      ensures forall i :: 0 <= i < switch_pi - 1
                ==> x(i) == FreshInput(MatrixContents(N), MatrixContents(y_L_inv_inv), R, Contents(I),
                                       Cut(servers_start_index, switch_pi), N.Length1)(i)
    {
      ghost var B := MatrixContents(A);
      hide *;
      Facts(B);
      var v;
      v, R := FirstPhase();
      PreparedFacts(B, R);
      var sent, iL := SecondPhaseVector(y_L_inv_inv, N, I, v, switch_pi - 1);
      U, x := SolveParts(slaves, sent, switch_pi, servers_start_index, servers_pis_num, MatrixContents(y_L_inv_inv), B,
                         MatrixContents(N), DiagonalOf(y_L), N.Length1, R, Contents(I), Contents(v), iL);
      NonsingularOnly(B, Contents(U), Contents(I), switch_pi - 1);
      IsPrepared(B, R);
    }

    /** Cached update: new injections with the inverses of an earlier first phase. The servers do
        not clear what they held (h1 in I, h2 in I_x), so the result is the solution exactly when
        what they end up with is what a fresh calculation would have sent. */
    method DistributedUpdate(ghost B: Mat, ghost R: seq<Mat>, ghost h1: Vec, ghost h2: Vec)
      returns (U: array<real>, ghost x: Vec)
      requires Dimensioned() && Prepared(B, R) && Nonsingular(B, switch_pi - 1)
      requires HoldInjections(slaves, Parts(h1, Cut(servers_start_index, switch_pi)))
      requires HoldInputs(slaves, Parts(h2, Cut(servers_start_index, switch_pi)))
      modifies (set s | 0 <= s < |slaves| :: slaves[s])`I, (set s | 0 <= s < |slaves| :: slaves[s])`I_x
      ensures fresh(U) && U.Length == switch_pi - 1 && |Cut(servers_start_index, switch_pi)| == |R| + 1
      ensures HoldInjections(slaves, Parts(Overlay(h1, Contents(I)), Cut(servers_start_index, switch_pi)))
      ensures HoldInputs(slaves, Parts(x, Cut(servers_start_index, switch_pi)))
      ensures forall i :: 0 <= i < switch_pi - 1
                ==> x(i) == Overlay(h2, UpdateInput(MatrixContents(N), MatrixContents(y_L_inv_inv), R, h1, Contents(I),
                                                    Cut(servers_start_index, switch_pi), N.Length1))(i)
      ensures Solves(B, Contents(U), Contents(I), switch_pi - 1)
         <==> forall i :: 0 <= i < switch_pi - 1
                ==> x(i) == FreshInput(MatrixContents(N), MatrixContents(y_L_inv_inv), R, Contents(I),
                                       Cut(servers_start_index, switch_pi), N.Length1)(i)
      ensures var Nm, K, cut := MatrixContents(N), MatrixContents(y_L_inv_inv), Cut(servers_start_index, switch_pi);
              var n, L := switch_pi - 1, N.Length1;
              LeftFresh(Nm, K, R, h1, h2, cut, n, L) && BordersKeep(Nm, h1, Contents(I), n, L)
              ==> (Solves(B, Contents(U), Contents(I), n)
                   <==> NothingStale(h1, Contents(I), n)
                        && NothingStale(h2, UpdateInput(Nm, K, R, h1, Contents(I), cut, L), n))
    {
      hide *;
      Sizes();
      PreparedFacts(B, R);
      ghost var n, L, cut := switch_pi - 1, N.Length1, Cut(servers_start_index, switch_pi);
      ghost var Nm, K, y := MatrixContents(N), MatrixContents(y_L_inv_inv), DiagonalOf(y_L);
      ghost var Y := CutMatrix(B, Nm, y, L);
      var v := UpdateFirstPhase(slaves, I, switch_pi, servers_start_index, servers_pis_num, N.Length1, Y, Nm, R, h1);
      var sent, iL := SecondPhaseVector(y_L_inv_inv, N, I, v, switch_pi - 1);
      x := Overlay(h2, Contents(sent));
      U := UpdateSecondPhase(slaves, sent, switch_pi, servers_start_index, servers_pis_num, Y, Nm, R, L, h2);
      UpdateSent(Nm, K, R, h1, h2, Contents(I), Contents(v), iL, Contents(sent), cut, n, L);
      UpdateCorrectIff(slaves, K, B, Nm, y, L, cut, n, R, Contents(I), Contents(U), x);
      PreparedTiles(B, R);
      UpdateLaw(Nm, K, R, h1, h2, Contents(I), x, cut, n, L);
    }

    lemma GroundedSizes()
      requires Grounded()
      ensures switch_pi > 0 && A.Length0 == A.Length1 == I.Length == switch_pi
    {}

    lemma Sizes()
      requires Dimensioned()
      ensures switch_pi > 0 && A.Length0 == A.Length1 == I.Length == N.Length0 == switch_pi && A != N && A != y_L
      ensures N.Length1 == y_L.Length0 == y_L.Length1
      ensures ServersFit(servers_start_index, servers_pis_num, switch_pi)
    {}

    lemma PreparedFacts(B: Mat, R: seq<Mat>)
      requires Prepared(B, R)
      ensures y_L_inv_inv.Length0 == y_L_inv_inv.Length1 == N.Length1 && |R| == |servers_start_index|
      ensures Prepares(slaves, MatrixContents(y_L_inv_inv), B, MatrixContents(N), DiagonalOf(y_L), N.Length1,
                       Cut(servers_start_index, switch_pi), switch_pi - 1, R)
      ensures DistinctSlaves(slaves) && |slaves| == |R| == |Cut(servers_start_index, switch_pi)| - 1
      ensures AllHold(slaves, CutMatrix(B, MatrixContents(N), DiagonalOf(y_L), N.Length1), MatrixContents(N), R,
                      Cut(servers_start_index, switch_pi), N.Length1)
    {
      hide DistinctSlaves, Partitioned, AllHold, IsInverse, MasterMatrix, SlaveMatrices, CutMatrix;
    }

    lemma PreparedTiles(B: Mat, R: seq<Mat>)
      requires Prepared(B, R)
      ensures Tiles(Cut(servers_start_index, switch_pi), switch_pi - 1)
    {
      hide DistinctSlaves, AllHold, IsInverse, MasterMatrix, SlaveMatrices, CutMatrix, BlockDiagonal;
    }

    lemma Facts(B: Mat)
      requires Dimensioned() && Separable(B)
      ensures switch_pi > 0 && A.Length0 == A.Length1 == I.Length == N.Length0 == switch_pi && A != N && A != y_L
      ensures N.Length1 == y_L.Length0 == y_L.Length1 && IsDiagonal(y_L)
      ensures ServersFit(servers_start_index, servers_pis_num, switch_pi) && |servers_start_index| == |servers_pis_num|
      ensures var cut := Cut(servers_start_index, switch_pi);
              && |cut| == |servers_start_index| + 1 && Tiles(cut, switch_pi - 1)
              && BlockDiagonal(CutMatrix(B, MatrixContents(N), DiagonalOf(y_L), N.Length1), cut, switch_pi - 1)
      ensures forall k :: 0 <= k < N.Length1 ==> DiagonalOf(y_L)(k) > 0.0 && y_L[k, k] != 0.0
      ensures Nonsingular(CutMatrix(B, MatrixContents(N), DiagonalOf(y_L), N.Length1), switch_pi - 1)
      ensures Nonsingular(B, switch_pi - 1)
    {
      hide BlockDiagonal, Nonsingular, PositiveDefinite, CutMatrix;
      CutFacts(servers_start_index, servers_pis_num, switch_pi);
      SeparableFacts(B, y_L, MatrixContents(N), N.Length1, Cut(servers_start_index, switch_pi), switch_pi - 1);
    }

    lemma IsPrepared(B: Mat, R: seq<Mat>)
      requires y_L_inv_inv.Length0 == y_L_inv_inv.Length1 == N.Length1 && |R| == |servers_start_index|
      requires Prepares(slaves, MatrixContents(y_L_inv_inv), B, MatrixContents(N), DiagonalOf(y_L), N.Length1,
                        Cut(servers_start_index, switch_pi), switch_pi - 1, R)
      ensures Prepared(B, R)
    {
      hide Prepares;
    }
  }

  /** The slaves hold the inverses R of the blocks of Y_b = B + N y_L N', and K inverts the
      master's small matrix. */
  ghost predicate Prepares(slaves: seq<PowerSlave>, K: Mat, B: Mat, Nm: Mat, y: Vec, L: int, cut: seq<int>, n: int,
                           R: seq<Mat>) {
    && DistinctSlaves(slaves) && |slaves| == |R| == |cut| - 1
    && Partitioned(B, Nm, y, L, cut, n, R)
    && AllHold(slaves, CutMatrix(B, Nm, y, L), Nm, R, cut, L)
    && IsInverse(MasterMatrix(y, SlaveMatrices(Nm, R, cut)), K, L)
  }

  /** v is minus the sum of N'Y_b^-1 I over the servers. */
  ghost predicate Received(v: Vec, Nm: Mat, R: seq<Mat>, I: Vec, cut: seq<int>, L: int) {
    |cut| == |R| + 1 && forall k :: 0 <= k < L ==> v(k) == MasterVector(SlaveVectors(Nm, R, I, cut))(k)
  }

  lemma IsReceived(v: Vec, Nm: Mat, R: seq<Mat>, I: Vec, cut: seq<int>, L: int)
    requires |cut| == |R| + 1 && forall k :: 0 <= k < L ==> v(k) == MasterVector(SlaveVectors(Nm, R, I, cut))(k)
    ensures Received(v, Nm, R, I, cut, L)
  {}

  /** The servers' part and the master's part of the first phase, once Yb holds Y_b. */
  method InvertParts(Yb: array2<real>, N: array2<real>, I: array<real>, y_L: array2<real>, switch_pi: nat,
                     starts: seq<int>, nums: seq<int>, ghost B: Mat)
    returns (slaves: seq<PowerSlave>, K: array2<real>, v: array<real>, ghost R: seq<Mat>)
    requires Yb.Length0 == Yb.Length1 == N.Length0 == I.Length == switch_pi && ServersFit(starts, nums, switch_pi)
    requires y_L.Length0 == y_L.Length1 == N.Length1
    requires forall k :: 0 <= k < N.Length1 ==> DiagonalOf(y_L)(k) > 0.0 && y_L[k, k] != 0.0
    requires Nonsingular(B, switch_pi - 1)
    requires forall i, j :: 0 <= i < switch_pi - 1 && 0 <= j < switch_pi - 1
               ==> MatrixContents(Yb)(i, j) == CutMatrix(B, MatrixContents(N), DiagonalOf(y_L), N.Length1)(i, j)
    requires BlockDiagonal(MatrixContents(Yb), Cut(starts, switch_pi), switch_pi - 1)
    requires BlockDiagonal(CutMatrix(B, MatrixContents(N), DiagonalOf(y_L), N.Length1), Cut(starts, switch_pi),
                           switch_pi - 1)
    requires Nonsingular(MatrixContents(Yb), switch_pi - 1)
    ensures fresh(K) && K.Length0 == K.Length1 == N.Length1 && fresh(v) && v.Length == N.Length1 && |R| == |starts|
    ensures forall s :: 0 <= s < |slaves| ==> fresh(slaves[s])
    ensures Prepares(slaves, MatrixContents(K), B, MatrixContents(N), DiagonalOf(y_L), N.Length1,
                     Cut(starts, switch_pi), switch_pi - 1, R)
    ensures HoldInjections(slaves, Parts(Contents(I), Cut(starts, switch_pi)))
    ensures Received(Contents(v), MatrixContents(N), R, Contents(I), Cut(starts, switch_pi), N.Length1)
  {
    hide *;
    CutFacts(starts, nums, switch_pi);
    ghost var Y, Nm, y := MatrixContents(Yb), MatrixContents(N), DiagonalOf(y_L);
    ghost var L, cut, n := N.Length1, Cut(starts, switch_pi), switch_pi - 1;
    var M;
    slaves, M, v, R := CollectFirstPhase(Yb, N, I, y_L, switch_pi, starts, nums);
    HoldsPartition(slaves, B, Y, Nm, y, L, cut, n, R);
    K := InvertMaster(M, B, Nm, R, y, cut, n);
    AllPrepared(slaves, MatrixContents(K), B, Nm, y, L, cut, n, R);
    IsReceived(Contents(v), Nm, R, Contents(I), cut, L);
  }

  lemma AllPrepared(slaves: seq<PowerSlave>, K: Mat, B: Mat, Nm: Mat, y: Vec, L: int, cut: seq<int>, n: int,
                    R: seq<Mat>)
    requires DistinctSlaves(slaves) && |slaves| == |R| == |cut| - 1 && Partitioned(B, Nm, y, L, cut, n, R)
    requires AllHold(slaves, CutMatrix(B, Nm, y, L), Nm, R, cut, L)
    requires IsInverse(MasterMatrix(y, SlaveMatrices(Nm, R, cut)), K, L)
    ensures Prepares(slaves, K, B, Nm, y, L, cut, n, R)
  {
    hide DistinctSlaves, Partitioned, AllHold, IsInverse, MasterMatrix, SlaveMatrices, CutMatrix;
  }

  /** Inverts what the first phase left of y_L^-1. */
  method InvertMaster(M: array2<real>, ghost B: Mat, ghost Nm: Mat, ghost R: seq<Mat>, ghost y: Vec,
                      ghost cut: seq<int>, ghost n: int)
    returns (K: array2<real>)
    requires M.Length0 == M.Length1 && |cut| == |R| + 1 && Nonsingular(B, n)
    requires Partitioned(B, Nm, y, M.Length0, cut, n, R)
    requires forall k, l :: 0 <= k < M.Length0 && 0 <= l < M.Length0
               ==> M[k, l] == MasterMatrix(y, SlaveMatrices(Nm, R, cut))(k, l)
    ensures fresh(K) && K.Length0 == K.Length1 == M.Length0
    ensures IsInverse(MasterMatrix(y, SlaveMatrices(Nm, R, cut)), MatrixContents(K), M.Length0)
  {
    hide *;
    InvertibleMaster(B, Nm, y, M.Length0, cut, n, R, MatrixContents(M));
    K := Invert(M, M.Length0);
    InverseExt(MatrixContents(M), MasterMatrix(y, SlaveMatrices(Nm, R, cut)), MatrixContents(K), MatrixContents(K),
               M.Length0);
  }

  lemma PositiveDefiniteNonsingular(B: Mat, n: int)
    requires PositiveDefinite(B, n)
    ensures Nonsingular(B, n)
  {
    forall x: Vec | Solves(B, x, ZERO, n) ensures Vanishes(x, n) {
      QuadOfKernel(B, x, n);
    }
  }

  /** Replacing A by Y_b on the grounded part keeps its blocks and its nonsingularity. */
  lemma BlockDiagonalExt(Y: Mat, Y': Mat, cut: seq<int>, n: int)
    requires Tiles(cut, n) && BlockDiagonal(Y, cut, n)
    requires forall i, j :: 0 <= i < n && 0 <= j < n ==> Y(i, j) == Y'(i, j)
    ensures BlockDiagonal(Y', cut, n)
  {
    forall s, i, j | InTile(cut, s, i) && 0 <= j < n && !InTile(cut, s, j) ensures Y'(i, j) == 0.0 && Y'(j, i) == 0.0 {
      TileInside(cut, n, s, i);
    }
  }

  lemma TileInside(cut: seq<int>, n: int, s: int, i: int)
    requires Tiles(cut, n) && InTile(cut, s, i)
    ensures 0 <= i < n
  {
    assert cut[0] <= cut[s];
    var last := |cut| - 1;
    assert cut[s + 1] <= cut[last];
  }

  /** The inverses of the blocks of Y are inverses of the blocks of Y_b. */
  lemma HoldsPartition(slaves: seq<PowerSlave>, B: Mat, Y: Mat, Nm: Mat, y: Vec, L: int, cut: seq<int>, n: int,
                       R: seq<Mat>)
    requires Tiles(cut, n) && |cut| == |R| + 1 && |slaves| == |R| && L >= 0
    requires forall i, j :: 0 <= i < n && 0 <= j < n ==> Y(i, j) == CutMatrix(B, Nm, y, L)(i, j)
    requires AllHold(slaves, Y, Nm, R, cut, L)
    requires BlockDiagonal(CutMatrix(B, Nm, y, L), cut, n) && forall k :: 0 <= k < L ==> y(k) > 0.0
    ensures AllHold(slaves, CutMatrix(B, Nm, y, L), Nm, R, cut, L)
    ensures Partitioned(B, Nm, y, L, cut, n, R)
  {
    hide IsInverse, BlockDiagonal, CutMatrix, PowerSlave.Ready;
    var C := CutMatrix(B, Nm, y, L);
    forall s | 0 <= s < |slaves| ensures Holds(slaves[s], C, Nm, R[s], cut[s], cut[s + 1] - cut[s], L) {
      assert Holds(slaves[s], Y, Nm, R[s], cut[s], cut[s + 1] - cut[s], L);
      TileBoundsOf(cut, n, s);
      InverseExt(Block(Y, cut[s]), Block(C, cut[s]), R[s], R[s], cut[s + 1] - cut[s]);
    }
    forall s | 0 <= s < |R| ensures IsInverse(Block(C, cut[s]), R[s], cut[s + 1] - cut[s]) {
      assert Holds(slaves[s], C, Nm, R[s], cut[s], cut[s + 1] - cut[s], L);
    }
  }

  lemma TileBoundsOf(cut: seq<int>, n: int, s: int)
    requires Tiles(cut, n) && 0 <= s < |cut| - 1
    ensures 0 <= cut[s] <= cut[s + 1] <= n
  {
    var last := |cut| - 1;
    assert cut[0] <= cut[s] && cut[s + 1] <= cut[last];
  }

  lemma SeparableFacts(B: Mat, y_L: array2<real>, Nm: Mat, L: int, cut: seq<int>, n: int)
    requires PositiveDefinite(B, n) && IsDiagonal(y_L) && y_L.Length0 == L && forall k :: 0 <= k < L ==> y_L[k, k] > 0.0
    ensures forall k :: 0 <= k < L ==> DiagonalOf(y_L)(k) > 0.0 && y_L[k, k] != 0.0
    ensures Nonsingular(CutMatrix(B, Nm, DiagonalOf(y_L), L), n) && Nonsingular(B, n)
  {
    CutNonsingular(B, Nm, DiagonalOf(y_L), L, n);
    PositiveDefiniteNonsingular(B, n);
  }

  /** The matrix that now stands in A has the blocks of Y_b. */
  lemma BlocksOfSum(B: Mat, Y: Mat, Nm: Mat, y: Vec, L: int, cut: seq<int>, n: int)
    requires Tiles(cut, n) && BlockDiagonal(CutMatrix(B, Nm, y, L), cut, n) && Nonsingular(CutMatrix(B, Nm, y, L), n)
    requires forall i, j :: 0 <= i < n && 0 <= j < n ==> Y(i, j) == CutMatrix(B, Nm, y, L)(i, j)
    ensures BlockDiagonal(Y, cut, n) && Nonsingular(Y, n)
  {
    NonsingularExt(CutMatrix(B, Nm, y, L), Y, n);
    BlockDiagonalExt(CutMatrix(B, Nm, y, L), Y, cut, n);
  }

  lemma InvertibleMaster(B: Mat, Nm: Mat, y: Vec, L: int, cut: seq<int>, n: int, R: seq<Mat>, M: Mat)
    requires |cut| == |R| + 1 && Partitioned(B, Nm, y, L, cut, n, R) && Nonsingular(B, n)
    requires forall k, l :: 0 <= k < L && 0 <= l < L ==> M(k, l) == MasterMatrix(y, SlaveMatrices(Nm, R, cut))(k, l)
    ensures Nonsingular(M, L)
  {
    hide Nonsingular, Partitioned;
    MasterNonsingular(B, Nm, y, L, cut, n, R);
    NonsingularExt(MasterMatrix(y, SlaveMatrices(Nm, R, cut)), M, L);
  }

  /** What the master computes from the received sums is the line currents of the network. */
  lemma MasterSolves(y: Vec, F: seq<Mat>, V: seq<Vec>, L: int, K: Mat, v: Vec, iL: Vec)
    requires IsInverse(MasterMatrix(y, F), K, L)
    requires forall k :: 0 <= k < L ==> v(k) == MasterVector(V)(k)
    requires forall k :: 0 <= k < L ==> iL(k) == Apply(K, v, L)(k)
    ensures Solves(MasterMatrix(y, F), iL, MasterVector(V), L)
  {
    hide MasterMatrix, MasterVector;
    InverseSolves(MasterMatrix(y, F), K, v, L);
    SolvesExt(MasterMatrix(y, F), MasterMatrix(y, F), Apply(K, v, L), iL, v, MasterVector(V), L);
  }

  /** The right-hand side of the second phase: I - N i_L, with i_L from the master's inverse. */
  method SecondPhaseVector(K: array2<real>, N: array2<real>, I: array<real>, v: array<real>, n: nat)
    returns (x: array<real>, ghost iL: Vec)
    requires n <= N.Length0 && n <= I.Length && K.Length0 == K.Length1 == N.Length1 == v.Length
    ensures fresh(x) && x.Length == n
    ensures forall k :: 0 <= k < N.Length1 ==> iL(k) == Apply(MatrixContents(K), Contents(v), N.Length1)(k)
    ensures forall i :: 0 <= i < n
              ==> Contents(x)(i) == SecondPhaseInput(MatrixContents(N), Contents(I), iL, N.Length1)(i)
  {
    var i_L := Dgemv(K, N.Length1, N.Length1, v);
    x := Dgemv(N, n, N.Length1, i_L);
    iL := Contents(i_L);
    ghost var drop := Apply(MatrixContents(N), iL, N.Length1);
    for i := 0 to n
      invariant forall k :: 0 <= k < n ==> x[k] == if k < i then I[k] - drop(k) else drop(k)
    {
      x[i] := -x[i] + I[i];
    }
  }

  lemma DirectSolves(A: Mat, R: Mat, b: Vec, U: Vec, n: int)
    requires IsInverse(A, R, n) && forall i :: 0 <= i < n ==> U(i) == Apply(R, b, n)(i)
    ensures Solves(A, U, b, n)
  {
    hide *;
    InverseSolves(A, R, b, n);
    SolvesExt(A, A, Apply(R, b, n), U, b, b, n);
  }

  /** Second phase of the first calculation: the servers apply their inverses to what is sent. */
  method SolveParts(slaves: seq<PowerSlave>, sent: array<real>, switch_pi: nat, starts: seq<int>, nums: seq<int>,
                    ghost K: Mat, ghost B: Mat, ghost Nm: Mat, ghost y: Vec, ghost L: int, ghost R: seq<Mat>,
                    ghost I: Vec, ghost v: Vec, ghost iL: Vec)
    returns (U: array<real>, ghost x: Vec)
    requires ServersFit(starts, nums, switch_pi) && |R| == |starts| && sent.Length == switch_pi - 1
    requires Prepares(slaves, K, B, Nm, y, L, Cut(starts, switch_pi), switch_pi - 1, R)
    requires Received(v, Nm, R, I, Cut(starts, switch_pi), L)
    requires forall k :: 0 <= k < L ==> iL(k) == Apply(K, v, L)(k)
    requires forall i :: 0 <= i < switch_pi - 1 ==> Contents(sent)(i) == SecondPhaseInput(Nm, I, iL, L)(i)
    modifies (set s | 0 <= s < |slaves| :: slaves[s])`I_x
    ensures fresh(U) && U.Length == switch_pi - 1
    ensures Solves(B, Contents(U), I, switch_pi - 1)
    ensures HoldInputs(slaves, Parts(x, Cut(starts, switch_pi)))
    ensures |Cut(starts, switch_pi)| == |R| + 1
    ensures forall i :: 0 <= i < switch_pi - 1 ==> x(i) == FreshInput(Nm, K, R, I, Cut(starts, switch_pi), L)(i)
  {
    hide *;
    CutFacts(starts, nums, switch_pi);
    ghost var n, cut := switch_pi - 1, Cut(starts, switch_pi);
    PreparesFacts(slaves, K, B, Nm, y, L, cut, n, R);
    x := Overlay(ZERO, Contents(sent));
    FreshSent(Nm, K, R, I, v, iL, Contents(sent), cut, n, L);
    U := CollectSecondPhase(slaves, sent, switch_pi, starts, nums, CutMatrix(B, Nm, y, L), Nm, R, L);
    PartsSolve(slaves, K, B, Nm, y, L, cut, n, R, I, v, iL, Contents(sent), Contents(U));
  }

  lemma PreparesFacts(slaves: seq<PowerSlave>, K: Mat, B: Mat, Nm: Mat, y: Vec, L: int, cut: seq<int>, n: int,
                      R: seq<Mat>)
    requires Prepares(slaves, K, B, Nm, y, L, cut, n, R)
    ensures DistinctSlaves(slaves) && |slaves| == |R| == |cut| - 1
    ensures AllHold(slaves, CutMatrix(B, Nm, y, L), Nm, R, cut, L)
  {
    hide DistinctSlaves, Partitioned, AllHold, IsInverse, MasterMatrix, SlaveMatrices, CutMatrix;
  }

  /** The two phases put together: for the inverses that the servers and the master hold, the
      assembled answers solve the network. */
  lemma PartsSolve(slaves: seq<PowerSlave>, K: Mat, B: Mat, Nm: Mat, y: Vec, L: int, cut: seq<int>, n: int, R: seq<Mat>,
                   I: Vec, v: Vec, iL: Vec, x: Vec, U: Vec)
    requires Prepares(slaves, K, B, Nm, y, L, cut, n, R)
    requires Received(v, Nm, R, I, cut, L)
    requires forall k :: 0 <= k < L ==> iL(k) == Apply(K, v, L)(k)
    requires forall i :: 0 <= i < n ==> x(i) == SecondPhaseInput(Nm, I, iL, L)(i)
    requires Answers(U, Overlay(ZERO, x), cut, R)
    ensures Solves(B, U, I, n)
  {
    hide Partitioned, AllHold, Solves, IsInverse, MasterMatrix, MasterVector, SlaveMatrices, SlaveVectors;
    hide Answers, SecondPhaseInput, CutMatrix;
    MasterSolves(y, SlaveMatrices(Nm, R, cut), SlaveVectors(Nm, R, I, cut), L, K, v, iL);
    PartitionTiles(B, Nm, y, L, cut, n, R);
    AnswersExt(U, Overlay(ZERO, x), SecondPhaseInput(Nm, I, iL, L), cut, n, R);
    TwoPhaseSolves(B, Nm, y, L, cut, n, R, I, iL, U);
  }

  lemma PartitionTiles(B: Mat, Nm: Mat, y: Vec, L: int, cut: seq<int>, n: int, R: seq<Mat>)
    requires Partitioned(B, Nm, y, L, cut, n, R)
    ensures Tiles(cut, n) && |cut| == |R| + 1
  {}

  lemma AnswersExt(U: Vec, x: Vec, x': Vec, cut: seq<int>, n: int, R: seq<Mat>)
    requires Tiles(cut, n) && |cut| == |R| + 1 && Answers(U, x, cut, R)
    requires forall i :: 0 <= i < n ==> x(i) == x'(i)
    ensures Answers(U, x', cut, R)
  {
    forall s | 0 <= s < |R| ensures ServerAnswers(U, x', cut[s], cut[s + 1] - cut[s], R[s]) {
      assert ServerAnswers(U, x, cut[s], cut[s + 1] - cut[s], R[s]);
      TileBoundsOf(cut, n, s);
      ApplyExt(R[s], R[s], Slice(x, cut[s]), Slice(x', cut[s]), cut[s + 1] - cut[s], cut[s + 1] - cut[s]);
    }
  }

  /** What a fresh calculation for the injections I sends in its second phase. */
  function FreshInput(Nm: Mat, K: Mat, R: seq<Mat>, I: Vec, cut: seq<int>, L: int): Vec
    requires |cut| == |R| + 1
  {
    SecondPhaseInput(Nm, I, Apply(K, MasterVector(SlaveVectors(Nm, R, I, cut)), L), L)
  }

  lemma FreshSent(Nm: Mat, K: Mat, R: seq<Mat>, I: Vec, v: Vec, iL: Vec, sent: Vec, cut: seq<int>, n: int, L: int)
    requires Received(v, Nm, R, I, cut, L) && |cut| == |R| + 1
    requires forall k :: 0 <= k < L ==> iL(k) == Apply(K, v, L)(k)
    requires forall i :: 0 <= i < n ==> sent(i) == SecondPhaseInput(Nm, I, iL, L)(i)
    ensures forall i :: 0 <= i < n ==> Overlay(ZERO, sent)(i) == FreshInput(Nm, K, R, I, cut, L)(i)
  {
    hide MasterVector, SlaveVectors;
    var w := MasterVector(SlaveVectors(Nm, R, I, cut));
    ApplyExt(K, K, v, w, L, L);
    ApplyExt(Nm, Nm, iL, Apply(K, w, L), n, L);
  }

  /** What an update sends when the servers answered its first phase from h overlaid with I. */
  function UpdateInput(Nm: Mat, K: Mat, R: seq<Mat>, h: Vec, I: Vec, cut: seq<int>, L: int): Vec
    requires |cut| == |R| + 1
  {
    SecondPhaseInput(Nm, I, Apply(K, MasterVector(SlaveVectors(Nm, R, Overlay(h, I), cut)), L), L)
  }

  lemma UpdateSent(Nm: Mat, K: Mat, R: seq<Mat>, h1: Vec, h2: Vec, I: Vec, v: Vec, iL: Vec, sent: Vec, cut: seq<int>,
                   n: int, L: int)
    requires |cut| == |R| + 1
    requires forall k :: 0 <= k < L ==> v(k) == MasterVector(SlaveVectors(Nm, R, Overlay(h1, I), cut))(k)
    requires forall k :: 0 <= k < L ==> iL(k) == Apply(K, v, L)(k)
    requires forall i :: 0 <= i < n ==> sent(i) == SecondPhaseInput(Nm, I, iL, L)(i)
    ensures forall i :: 0 <= i < n ==> Overlay(h2, sent)(i) == Overlay(h2, UpdateInput(Nm, K, R, h1, I, cut, L))(i)
  {
    hide MasterVector, SlaveVectors;
    var w := MasterVector(SlaveVectors(Nm, R, Overlay(h1, I), cut));
    ApplyExt(K, K, v, w, L, L);
    ApplyExt(Nm, Nm, iL, Apply(K, w, L), n, L);
  }

  /** The servers' answers solve the network exactly when their input is that of a fresh calculation. */
  lemma UpdateCorrectIff(slaves: seq<PowerSlave>, K: Mat, B: Mat, Nm: Mat, y: Vec, L: int, cut: seq<int>, n: int,
                         R: seq<Mat>, I: Vec, U: Vec, x: Vec)
    requires Prepares(slaves, K, B, Nm, y, L, cut, n, R) && Nonsingular(B, n) && Answers(U, x, cut, R)
    ensures Solves(B, U, I, n) <==> forall i :: 0 <= i < n ==> x(i) == FreshInput(Nm, K, R, I, cut, L)(i)
  {
    hide AllHold, Solves, IsInverse, MasterMatrix, MasterVector, SlaveMatrices, SlaveVectors, Answers;
    hide CutMatrix, Nonsingular, BlockDiagonal, Tiles;
    var F, V := SlaveMatrices(Nm, R, cut), SlaveVectors(Nm, R, I, cut);
    var iL, Y := Apply(K, MasterVector(V), L), CutMatrix(B, Nm, y, L);
    var x' := FreshInput(Nm, K, R, I, cut, L);
    InverseSolves(MasterMatrix(y, F), K, MasterVector(V), L);
    if forall i :: 0 <= i < n ==> x(i) == x'(i) {
      AnswersExt(U, x, x', cut, n, R);
      TwoPhaseSolves(B, Nm, y, L, cut, n, R, I, iL, U);
    }
    if Solves(B, U, I, n) {
      var U' := Assembled(R, cut, n, x');
      AssembledAnswers(R, cut, n, x');
      TwoPhaseSolves(B, Nm, y, L, cut, n, R, I, iL, U');
      SolutionUnique(B, U, U', I, n);
      AnswersSolve(Y, cut, n, R, U, x);
      AnswersSolve(Y, cut, n, R, U', x');
      SameInput(Y, U, U', x, x', n);
    }
  }

  lemma SameInput(Y: Mat, U: Vec, U': Vec, x: Vec, x': Vec, n: int)
    requires Solves(Y, U, x, n) && Solves(Y, U', x', n) && forall i :: 0 <= i < n ==> U(i) == U'(i)
    ensures forall i :: 0 <= i < n ==> x(i) == x'(i)
  {
    forall i | 0 <= i < n ensures x(i) == x'(i) {
      assert Apply(Y, U, n)(i) == x(i) && Apply(Y, U', n)(i) == x'(i);
      DotExt(Row(Y, i), Row(Y, i), U, U', n);
    }
  }

  /** No injection drops to zero from a nonzero value, and no entry of the second phase's vector does. */
  ghost predicate NothingStale(h: Vec, x: Vec, n: int) {
    forall i :: 0 <= i < n && x(i) == 0.0 ==> h(i) == 0.0
  }

  /** When no injection drops to zero, an update sends what a fresh calculation would. */
  lemma {:induction false} SentIsFresh(Nm: Mat, K: Mat, R: seq<Mat>, h: Vec, I: Vec, cut: seq<int>, n: int, L: int)
    requires |cut| == |R| + 1 && Tiles(cut, n) && NothingStale(h, I, n)
    ensures forall i :: 0 <= i < n ==> UpdateInput(Nm, K, R, h, I, cut, L)(i) == FreshInput(Nm, K, R, I, cut, L)(i)
  {
    hide Tiles, MasterVector, SlaveVectors;
    var V, V' := SlaveVectors(Nm, R, I, cut), SlaveVectors(Nm, R, Overlay(h, I), cut);
    forall k ensures MasterVector(V)(k) == MasterVector(V')(k) {
      SameVector(Nm, R, I, Overlay(h, I), cut, n, k);
    }
    ApplyExt(K, K, MasterVector(V), MasterVector(V'), L, L);
    ApplyExt(Nm, Nm, Apply(K, MasterVector(V), L), Apply(K, MasterVector(V'), L), n, L);
  }

  /** Without such entries a cached update is as good as a fresh calculation. */
  lemma {:induction false} UpdateIsFresh(Nm: Mat, K: Mat, R: seq<Mat>, h1: Vec, h2: Vec, I: Vec, cut: seq<int>, n: int,
                                         L: int)
    requires |cut| == |R| + 1 && Tiles(cut, n)
    requires NothingStale(h1, I, n) && NothingStale(h2, FreshInput(Nm, K, R, I, cut, L), n)
    ensures forall i :: 0 <= i < n
              ==> Overlay(h2, UpdateInput(Nm, K, R, h1, I, cut, L))(i) == FreshInput(Nm, K, R, I, cut, L)(i)
  {
    SentIsFresh(Nm, K, R, h1, I, cut, n, L);
    hide Tiles, UpdateInput, FreshInput;
  }

  /** Injections that agree on the grounded network give the master the same sums. */
  lemma SameVector(Nm: Mat, R: seq<Mat>, I: Vec, I': Vec, cut: seq<int>, n: int, k: int)
    requires |cut| == |R| + 1 && Tiles(cut, n) && forall i :: 0 <= i < n ==> I(i) == I'(i)
    ensures MasterVector(SlaveVectors(Nm, R, I, cut))(k) == MasterVector(SlaveVectors(Nm, R, I', cut))(k)
  {
    hide SlaveVector, Tiles;
    var f, g := Components(SlaveVectors(Nm, R, I, cut), k), Components(SlaveVectors(Nm, R, I', cut), k);
    forall s | 0 <= s < |R| ensures f(s) == g(s) {
      TileBoundsOf(cut, n, s);
      SliceVectorExt(RowsFrom(Nm, cut[s]), R[s], Slice(I, cut[s]), Slice(I', cut[s]), cut[s + 1] - cut[s], k);
    }
    SumExt(f, g, 0, |R|);
  }

  lemma SliceVectorExt(N: Mat, R: Mat, I: Vec, I': Vec, m: int, k: int)
    requires forall i :: 0 <= i < m ==> I(i) == I'(i)
    ensures SlaveVector(N, R, I, m)(k) == SlaveVector(N, R, I', m)(k)
  {
    DotExt(Row(SlaveGain(N, R, m), k), Row(SlaveGain(N, R, m), k), I, I', m);
  }

  /** No line to another server ends at interface i. */
  predicate NoEdging(Nm: Mat, i: int, L: int) {
    forall k :: 0 <= k < L ==> Nm(i, k) == 0.0
  }

  /** At an interface without an edging line the second phase sends the injection itself. */
  lemma InteriorInput(Nm: Mat, K: Mat, R: seq<Mat>, h: Vec, I: Vec, cut: seq<int>, L: int, i: int)
    requires |cut| == |R| + 1 && NoEdging(Nm, i, L)
    ensures UpdateInput(Nm, K, R, h, I, cut, L)(i) == I(i) && FreshInput(Nm, K, R, I, cut, L)(i) == I(i)
  {
    hide MasterVector, SlaveVectors;
    var V, V' := SlaveVectors(Nm, R, I, cut), SlaveVectors(Nm, R, Overlay(h, I), cut);
    SumZero(Times(Row(Nm, i), Apply(K, MasterVector(V), L)), 0, L);
    SumZero(Times(Row(Nm, i), Apply(K, MasterVector(V'), L)), 0, L);
  }

  /** After a fresh calculation for the injections h the servers hold h, and h2 as its second phase
      sent it. */
  ghost predicate LeftFresh(Nm: Mat, K: Mat, R: seq<Mat>, h: Vec, h2: Vec, cut: seq<int>, n: int, L: int) {
    |cut| == |R| + 1 && forall i :: 0 <= i < n ==> h2(i) == FreshInput(Nm, K, R, h, cut, L)(i)
  }

  /** An injection that drops to zero at an interface without an edging line makes the input of
      the second phase wrong. */
  lemma {:induction false} DropMakesWrong(Nm: Mat, K: Mat, R: seq<Mat>, h: Vec, h2: Vec, I: Vec, cut: seq<int>, n: int,
                                          L: int, i: int)
    requires LeftFresh(Nm, K, R, h, h2, cut, n, L) && 0 <= i < n && NoEdging(Nm, i, L) && h(i) != 0.0 && I(i) == 0.0
    ensures Overlay(h2, UpdateInput(Nm, K, R, h, I, cut, L))(i) != FreshInput(Nm, K, R, I, cut, L)(i)
  {
    hide UpdateInput, FreshInput, NoEdging;
    InteriorInput(Nm, K, R, h, I, cut, L, i);
    InteriorInput(Nm, K, R, h, h, cut, L, i);
  }

  /** No injection drops to zero where an edging line ends. */
  ghost predicate BordersKeep(Nm: Mat, h: Vec, I: Vec, n: int, L: int) {
    forall i :: 0 <= i < n && I(i) == 0.0 && h(i) != 0.0 ==> NoEdging(Nm, i, L)
  }

  /** The exact law of the cached update after a fresh calculation, for injections that do not drop
      to zero where an edging line ends: the servers end up with what a fresh calculation would
      send if and only if no injection has dropped to zero at all, and nothing that the second
      phase sends has. All of it is known to the master before the servers answer. */
  lemma {:induction false} UpdateFreshIff(Nm: Mat, K: Mat, R: seq<Mat>, h: Vec, h2: Vec, I: Vec, cut: seq<int>, n: int,
                                          L: int)
    requires LeftFresh(Nm, K, R, h, h2, cut, n, L) && Tiles(cut, n) && BordersKeep(Nm, h, I, n, L)
    ensures (forall i :: 0 <= i < n
               ==> Overlay(h2, UpdateInput(Nm, K, R, h, I, cut, L))(i) == FreshInput(Nm, K, R, I, cut, L)(i))
       <==> NothingStale(h, I, n) && NothingStale(h2, UpdateInput(Nm, K, R, h, I, cut, L), n)
  {
    hide UpdateInput, FreshInput, NoEdging, Tiles;
    var x, f := UpdateInput(Nm, K, R, h, I, cut, L), FreshInput(Nm, K, R, I, cut, L);
    if NothingStale(h, I, n) {
      SentIsFresh(Nm, K, R, h, I, cut, n, L);
      assert forall i :: 0 <= i < n ==> x(i) == f(i);
    } else {
      var i :| 0 <= i < n && I(i) == 0.0 && h(i) != 0.0;
      DropMakesWrong(Nm, K, R, h, h2, I, cut, n, L, i);
    }
  }

  /** The law for the input x that the servers end up with. */
  lemma UpdateLaw(Nm: Mat, K: Mat, R: seq<Mat>, h: Vec, h2: Vec, I: Vec, x: Vec, cut: seq<int>, n: int, L: int)
    requires |cut| == |R| + 1 && Tiles(cut, n)
    requires forall i :: 0 <= i < n ==> x(i) == Overlay(h2, UpdateInput(Nm, K, R, h, I, cut, L))(i)
    ensures LeftFresh(Nm, K, R, h, h2, cut, n, L) && BordersKeep(Nm, h, I, n, L)
            ==> ((forall i :: 0 <= i < n ==> x(i) == FreshInput(Nm, K, R, I, cut, L)(i))
                 <==> NothingStale(h, I, n) && NothingStale(h2, UpdateInput(Nm, K, R, h, I, cut, L), n))
  {
    hide *;
    if LeftFresh(Nm, K, R, h, h2, cut, n, L) && BordersKeep(Nm, h, I, n, L) {
      UpdateFreshIff(Nm, K, R, h, h2, I, cut, n, L);
    }
  }
}
