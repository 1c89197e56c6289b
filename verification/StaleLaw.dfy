/** The exact law of the cached update when injections drop to zero where lines to other servers end:
    the servers still hold the old values there, and these enter the line currents. */
module StaleLaws {
  import opened Sums
  import opened LinearAlgebra
  import opened Laplacians
  import opened Woodbury
  import opened Distribution
  import opened ConnectedComponents

  /** The old injections that the servers still hold because their new values 0 are not sent. */
  function Stale(h: Vec, I: Vec): Vec {
    i => if I(i) == 0.0 then h(i) else 0.0
  }

  /** The sums that the master receives are linear in the injections. */
  lemma SumsOfStale(Nm: Mat, R: seq<Mat>, h: Vec, I: Vec, cut: seq<int>, k: int)
    requires |cut| == |R| + 1
    ensures MasterVector(SlaveVectors(Nm, R, Overlay(h, I), cut))(k)
         == MasterVector(SlaveVectors(Nm, R, I, cut))(k) + MasterVector(SlaveVectors(Nm, R, Stale(h, I), cut))(k)
  {
    var f, g, t := Components(SlaveVectors(Nm, R, Overlay(h, I), cut), k), Components(SlaveVectors(Nm, R, I, cut), k),
                   Components(SlaveVectors(Nm, R, Stale(h, I), cut), k);
    forall s | 0 <= s < |R| ensures f(s) == g(s) + t(s) {
      var lo, m := cut[s], cut[s + 1] - cut[s];
      var gain := SlaveGain(RowsFrom(Nm, lo), R[s], m);
      DotLinear(Row(gain, k), Slice(I, lo), 1.0, Slice(Stale(h, I), lo), Slice(Overlay(h, I), lo), m);
    }
    SumAdd(g, t, f, 0, |R|);
  }

  /** The line currents that the stale injections alone would drive. */
  function StaleCurrents(Nm: Mat, K: Mat, R: seq<Mat>, h: Vec, I: Vec, cut: seq<int>, L: int): Vec
    requires |cut| == |R| + 1
  {
    Apply(K, MasterVector(SlaveVectors(Nm, R, Stale(h, I), cut)), L)
  }

  lemma ApplySum(A: Mat, x: Vec, y: Vec, z: Vec, n: int, i: int)
    requires forall j :: 0 <= j < n ==> z(j) == x(j) + y(j)
    ensures Apply(A, z, n)(i) == Apply(A, x, n)(i) + Apply(A, y, n)(i)
  {
    DotLinear(Row(A, i), x, 1.0, y, z, n);
  }

  /** What an update sends differs from what it should send by these currents. */
  lemma SentDiffers(Nm: Mat, K: Mat, R: seq<Mat>, h: Vec, I: Vec, cut: seq<int>, L: int, i: int)
    requires |cut| == |R| + 1
    ensures UpdateInput(Nm, K, R, h, I, cut, L)(i)
         == FreshInput(Nm, K, R, I, cut, L)(i) - Apply(Nm, StaleCurrents(Nm, K, R, h, I, cut, L), L)(i)
  {
    hide MasterVector, SlaveVectors, Apply;
    var held, asked := MasterVector(SlaveVectors(Nm, R, Overlay(h, I), cut)), MasterVector(SlaveVectors(Nm, R, I, cut));
    var rest := MasterVector(SlaveVectors(Nm, R, Stale(h, I), cut));
    var a, b, z := Apply(K, held, L), Apply(K, asked, L), StaleCurrents(Nm, K, R, h, I, cut, L);
    forall k ensures a(k) == b(k) + z(k) {
      forall l ensures held(l) == asked(l) + rest(l) {
        SumsOfStale(Nm, R, h, I, cut, l);
      }
      ApplySum(K, asked, rest, held, L, k);
    }
    ApplySum(Nm, b, z, a, L, i);
  }

  /** The line currents of the stale injections belong to the voltages W that these injections alone
      would cause in the original network. */
  lemma StaleCurrentsAre(B: Mat, Nm: Mat, y: Vec, L: int, cut: seq<int>, n: int, R: seq<Mat>, K: Mat, h: Vec, I: Vec,
                         W: Vec, k: int)
    requires Partitioned(B, Nm, y, L, cut, n, R) && Nonsingular(B, n) && 0 <= k < L && |cut| == |R| + 1 && y(k) != 0.0
    requires IsInverse(MasterMatrix(y, SlaveMatrices(Nm, R, cut)), K, L) && Solves(B, W, Stale(h, I), n)
    ensures StaleCurrents(Nm, K, R, h, I, cut, L)(k) == -(y(k) * Apply(Transpose(Nm), W, n)(k))
  {
    hide IsInverse, MasterMatrix, MasterVector, SlaveMatrices, SlaveVectors, Answers, CutMatrix, Nonsingular;
    hide BlockDiagonal, Tiles;
    var d, z, M := Stale(h, I), StaleCurrents(Nm, K, R, h, I, cut, L), MasterMatrix(y, SlaveMatrices(Nm, R, cut));
    var v := MasterVector(SlaveVectors(Nm, R, d, cut));
    InverseSolves(M, K, v, L);
    assert Apply(M, z, L)(k) == v(k);
    hide Solves;
    var U := Assembled(R, cut, n, SecondPhaseInput(Nm, d, z, L));
    AssembledAnswers(R, cut, n, SecondPhaseInput(Nm, d, z, L));
    TwoPhaseSolves(B, Nm, y, L, cut, n, R, d, z, U);
    SolutionUnique(B, U, W, d, n);
    LineCurrents(Nm, y, cut, n, R, d, z, U, L, k);
    DotExt(Row(Transpose(Nm), k), Row(Transpose(Nm), k), U, W, n);
  }

  /** Currents that cancel at every interface are not there: they would come from no loss. */
  lemma NothingCancels(Nm: Mat, y: Vec, z: Vec, W: Vec, n: int, L: int)
    requires forall k :: 0 <= k < L ==> y(k) > 0.0 && z(k) == -(y(k) * Apply(Transpose(Nm), W, n)(k))
    ensures (forall i :: 0 <= i < n ==> Apply(Nm, z, L)(i) == 0.0) <==> Vanishes(Apply(Transpose(Nm), W, n), L)
  {
    var t := Apply(Transpose(Nm), W, n);
    hide Apply;
    if Vanishes(t, L) {
      forall i | 0 <= i < n ensures Apply(Nm, z, L)(i) == 0.0 {
        ApplyZero(Nm, z, L, i);
      }
    }
    if forall i :: 0 <= i < n ==> Apply(Nm, z, L)(i) == 0.0 {
      Adjoint(Nm, W, z, n, L);
      SumZero(Times(W, Apply(Nm, z, L)), 0, n);
      var loss := Times(t, Times(y, t));
      forall k | 0 <= k < L ensures loss(k) >= 0.0 && Times(t, z)(k) == -1.0 * loss(k) {
        WeightedSquare(y(k), t(k));
        assert t(k) * -(y(k) * t(k)) == -1.0 * (t(k) * (y(k) * t(k)));
      }
      SumScale(loss, Times(t, z), -1.0, 0, L);
      SumZeroTerms(loss, 0, L);
      forall k | 0 <= k < L ensures t(k) == 0.0 {
        assert loss(k) == t(k) * (y(k) * t(k));
        NoSquare(y(k), t(k));
      }
    }
  }

  lemma NoSquare(w: real, t: real)
    requires w > 0.0 && t * (w * t) == 0.0
    ensures t == 0.0
  {
    ZeroFactor(t, w * t);
    ZeroFactor(w, t);
  }

  /** Main result: whatever drops to zero, what an update sends in its second phase is what a fresh
      calculation would send if and only if the voltages that the stale injections alone would cause
      have sum 0 over the two ends of every line between servers. */
  lemma SentFreshIff(B: Mat, Nm: Mat, y: Vec, L: int, cut: seq<int>, n: int, R: seq<Mat>, K: Mat, h: Vec, I: Vec,
                     W: Vec)
    requires Partitioned(B, Nm, y, L, cut, n, R) && Nonsingular(B, n) && |cut| == |R| + 1
    requires forall k :: 0 <= k < L ==> y(k) > 0.0
    requires IsInverse(MasterMatrix(y, SlaveMatrices(Nm, R, cut)), K, L) && Solves(B, W, Stale(h, I), n)
    ensures (forall i :: 0 <= i < n ==> UpdateInput(Nm, K, R, h, I, cut, L)(i) == FreshInput(Nm, K, R, I, cut, L)(i))
       <==> Vanishes(Apply(Transpose(Nm), W, n), L)
  {
    hide *;
    var z := StaleCurrents(Nm, K, R, h, I, cut, L);
    forall k | 0 <= k < L ensures z(k) == -(y(k) * Apply(Transpose(Nm), W, n)(k)) {
      StaleCurrentsAre(B, Nm, y, L, cut, n, R, K, h, I, W, k);
    }
    NothingCancels(Nm, y, z, W, n, L);
    forall i ensures UpdateInput(Nm, K, R, h, I, cut, L)(i) == FreshInput(Nm, K, R, I, cut, L)(i) - Apply(Nm, z, L)(i) {
      SentDiffers(Nm, K, R, h, I, cut, L, i);
    }
  }

  /** Main result: unless the update sends a zero where a line between servers ends, the servers end up
      with the right input if and only if what is sent is right and no entry of it has dropped to
      zero. */
  lemma HeldFreshIff(B: Mat, Nm: Mat, y: Vec, L: int, cut: seq<int>, n: int, R: seq<Mat>, K: Mat, h: Vec, h2: Vec,
                     I: Vec, W: Vec)
    requires Partitioned(B, Nm, y, L, cut, n, R) && Nonsingular(B, n) && |cut| == |R| + 1
    requires forall k :: 0 <= k < L ==> y(k) > 0.0
    requires IsInverse(MasterMatrix(y, SlaveMatrices(Nm, R, cut)), K, L) && Solves(B, W, Stale(h, I), n)
    requires forall i :: 0 <= i < n && !NoEdging(Nm, i, L) ==> UpdateInput(Nm, K, R, h, I, cut, L)(i) != 0.0
    ensures (forall i :: 0 <= i < n
               ==> Overlay(h2, UpdateInput(Nm, K, R, h, I, cut, L))(i) == FreshInput(Nm, K, R, I, cut, L)(i))
       <==> Vanishes(Apply(Transpose(Nm), W, n), L) && NothingStale(h2, UpdateInput(Nm, K, R, h, I, cut, L), n)
  {
    hide UpdateInput, FreshInput, NoEdging, Partitioned, Nonsingular, IsInverse, MasterMatrix, SlaveMatrices, Solves;
    hide Apply, Vanishes;
    SentFreshIff(B, Nm, y, L, cut, n, R, K, h, I, W);
    forall i | 0 <= i < n && NoEdging(Nm, i, L)
      ensures UpdateInput(Nm, K, R, h, I, cut, L)(i) == FreshInput(Nm, K, R, I, cut, L)(i)
    {
      InteriorInput(Nm, K, R, h, I, cut, L, i);
    }
  }

  // ----- stale injections of one sign -----

  function Positive(x: Vec): Vec {
    i => if x(i) > 0.0 then x(i) else 0.0
  }

  function Negative(x: Vec): Vec {
    i => if x(i) < 0.0 then -x(i) else 0.0
  }

  ghost predicate NoPositiveCoupling(B: Mat, n: int) {
    forall i, j :: 0 <= i < n && 0 <= j < n && i != j ==> B(i, j) <= 0.0
  }

  lemma NotPositive(a: real, x: real)
    requires a <= 0.0 && x >= 0.0
    ensures a * x <= 0.0
  {}

  /** A row of B applied to voltages that are not negative, and zero at i. */
  lemma RowNotPositive(B: Mat, x: Vec, n: int, i: int)
    requires NoPositiveCoupling(B, n) && 0 <= i < n && x(i) == 0.0 && forall j :: 0 <= j < n ==> x(j) >= 0.0
    ensures Apply(B, x, n)(i) <= 0.0
  {
    var f := Times(Row(B, i), x);
    var g := j => -1.0 * f(j);
    forall j | 0 <= j < n ensures g(j) >= 0.0 {
      if j != i { NotPositive(B(i, j), x(j)); }
    }
    SumScale(f, g, -1.0, 0, n);
    SumNonNegative(g, 0, n);
  }

  /** The part of the voltages below zero carries no energy. */
  lemma NegativeQuad(B: Mat, W: Vec, d: Vec, n: int)
    requires NoPositiveCoupling(B, n) && Solves(B, W, d, n) && forall i :: 0 <= i < n ==> d(i) >= 0.0
    ensures Quad(B, Negative(W), n) <= 0.0
  {
    var P, Q := Positive(W), Negative(W);
    var a, b, c := Apply(B, P, n), Apply(B, Q, n), Apply(B, W, n);
    forall i | 0 <= i < n ensures c(i) == d(i) && a(i) == c(i) + 1.0 * b(i) {
      DotLinear(Row(B, i), W, 1.0, Q, P, n);
    }
    hide Apply, Solves;
    DotLinear(Q, c, 1.0, b, a, n);
    forall i | 0 <= i < n ensures Times(Q, c)(i) >= 0.0 && Times(Q, a)(i) <= 0.0 {
      ProductNonNegative(Q(i), d(i));
      if Q(i) > 0.0 {
        RowNotPositive(B, P, n, i);
        NotPositive(a(i), Q(i));
      }
    }
    SumNonNegative(Times(Q, c), 0, n);
    SumNotPositive(Times(Q, a), n);
  }

  lemma SumNotPositive(f: Vec, n: int)
    requires forall i :: 0 <= i < n ==> f(i) <= 0.0
    ensures Sum(f, 0, n) <= 0.0
  {
    var g := i => -1.0 * f(i);
    SumScale(f, g, -1.0, 0, n);
    SumNonNegative(g, 0, n);
  }

  /** Injections that are not negative cause no negative voltage, and a positive one causes a positive
      voltage where it is. */
  lemma NoNegativeVoltage(B: Mat, W: Vec, d: Vec, n: int)
    requires PositiveDefinite(B, n) && NoPositiveCoupling(B, n) && Solves(B, W, d, n)
    requires forall i :: 0 <= i < n ==> d(i) >= 0.0
    ensures forall i :: 0 <= i < n ==> W(i) >= 0.0 && (d(i) > 0.0 ==> W(i) > 0.0)
  {
    hide Apply, NoPositiveCoupling;
    NegativeQuad(B, W, d, n);
    assert Quad(B, Negative(W), n) >= 0.0;
    assert Vanishes(Negative(W), n);
    forall i | 0 <= i < n ensures W(i) >= 0.0 {
      assert Negative(W)(i) == 0.0;
    }
    forall i | 0 <= i < n && W(i) == 0.0 ensures d(i) <= 0.0 {
      RowNotPositive(B, W, n, i);
      assert Apply(B, W, n)(i) == d(i);
    }
  }

  lemma ProductPositive(s: real, t: real)
    requires s > 0.0 && t > 0.0
    ensures s * t > 0.0
  {}

  /** Voltages that are not negative, and positive at one end of line k, have no sum 0 over its ends. */
  lemma EndsDoNotCancel(Nm: Mat, W: Vec, n: int, k: int, i: int)
    requires forall j :: 0 <= j < n ==> W(j) >= 0.0 && Nm(j, k) >= 0.0
    requires 0 <= i < n && W(i) > 0.0 && Nm(i, k) > 0.0
    ensures Apply(Transpose(Nm), W, n)(k) > 0.0
  {
    var f := Times(Row(Transpose(Nm), k), W);
    forall j | 0 <= j < n ensures f(j) >= 0.0 {
      ProductNonNegative(Nm(j, k), W(j));
    }
    SumNonNegative(f, 0, n);
    ProductPositive(Nm(i, k), W(i));
    assert f(i) > 0.0;
    if Sum(f, 0, n) == 0.0 {
      SumZeroTerms(f, 0, n);
      assert false;
    }
  }

  /** All of x has one sign. */
  ghost predicate OneSign(x: Vec, n: int) {
    (forall i :: 0 <= i < n ==> x(i) >= 0.0) || (forall i :: 0 <= i < n ==> x(i) <= 0.0)
  }

  lemma OneSignEnds(B: Mat, Nm: Mat, W: Vec, d: Vec, n: int, k: int, i: int)
    requires PositiveDefinite(B, n) && NoPositiveCoupling(B, n) && Solves(B, W, d, n) && OneSign(d, n)
    requires (forall j :: 0 <= j < n ==> Nm(j, k) >= 0.0) && 0 <= i < n && d(i) != 0.0 && Nm(i, k) > 0.0
    ensures Apply(Transpose(Nm), W, n)(k) != 0.0
  {
    hide PositiveDefinite, NoPositiveCoupling, Apply;
    if d(i) > 0.0 {
      NoNegativeVoltage(B, W, d, n);
      EndsDoNotCancel(Nm, W, n, k, i);
    } else {
      var V, c := Minus(ZERO, W), Minus(ZERO, d);
      forall j | 0 <= j < n ensures Apply(B, V, n)(j) == c(j) {
        ApplyMinus(B, ZERO, W, n, j);
        ApplyZero(B, ZERO, n, j);
        assert Apply(B, W, n)(j) == d(j);
      }
      NoNegativeVoltage(B, V, c, n);
      EndsDoNotCancel(Nm, V, n, k, i);
      ApplyMinus(Transpose(Nm), ZERO, W, n, k);
      ApplyZero(Transpose(Nm), ZERO, n, k);
    }
  }

  /** Main result: if all that has dropped to zero had one sign, and something has dropped where a line
      between servers ends, the update sends something wrong. Unless it sends a zero where such a line
      ends, the servers end up with a wrong input. */
  lemma OneSignIsWrong(B: Mat, Nm: Mat, y: Vec, L: int, cut: seq<int>, n: int, R: seq<Mat>, K: Mat, h: Vec, h2: Vec,
                       I: Vec, i: int, k: int)
    requires Partitioned(B, Nm, y, L, cut, n, R) && PositiveDefinite(B, n) && NoPositiveCoupling(B, n)
    requires |cut| == |R| + 1
    requires (forall l :: 0 <= l < L ==> y(l) > 0.0) && IsInverse(MasterMatrix(y, SlaveMatrices(Nm, R, cut)), K, L)
    requires OneSign(Stale(h, I), n) && forall j :: 0 <= j < n ==> Nm(j, k) >= 0.0
    requires 0 <= i < n && 0 <= k < L && Stale(h, I)(i) != 0.0 && Nm(i, k) > 0.0
    ensures var sent, right := UpdateInput(Nm, K, R, h, I, cut, L), FreshInput(Nm, K, R, I, cut, L);
            && !(forall j :: 0 <= j < n ==> sent(j) == right(j))
            && ((forall j :: 0 <= j < n && !NoEdging(Nm, j, L) ==> sent(j) != 0.0)
                ==> !(forall j :: 0 <= j < n ==> Overlay(h2, sent)(j) == right(j)))
  {
    hide *;
    PositiveDefiniteNonsingular(B, n);
    var d := Stale(h, I);
    var W := GaussSolve(B, d, n);
    GaussSolves(B, d, n);
    OneSignEnds(B, Nm, W, d, n, k, i);
    NotVanishing(Apply(Transpose(Nm), W, n), L, k);
    SentFreshIff(B, Nm, y, L, cut, n, R, K, h, I, W);
    if forall j :: 0 <= j < n && !NoEdging(Nm, j, L) ==> UpdateInput(Nm, K, R, h, I, cut, L)(j) != 0.0 {
      HeldFreshIff(B, Nm, y, L, cut, n, R, K, h, h2, I, W);
    }
  }

  lemma NotVanishing(x: Vec, n: int, k: int)
    requires 0 <= k < n && x(k) != 0.0
    ensures !Vanishes(x, n)
  {}
}
