/** A cached update that goes wrong: four interfaces in a row, two on each of two servers, all
    lines of resistance 1, and an injection of 5 that drops to 0. */
module StaleUpdates {
  import opened Sums
  import opened LinearAlgebra
  import opened Laplacians
  import opened Woodbury
  import opened Gsl
  import opened Distribution
  import opened ConnectedComponents

  /** The conductances of the row 0 - 1 | 2 - 3. */
  function RowEntry(i: int, j: int): real {
    if i == j then (if i == 0 || i == 3 then 1.0 else 2.0)
    else if i == j + 1 || j == i + 1 then -1.0
    else 0.0
  }

  function RowMatrix(): Mat {
    (i, j) => RowEntry(i, j)
  }

  /** The line 1 - 2 joins the servers. */
  function EndEntry(i: int): real {
    if i == 1 || i == 2 then 1.0 else 0.0
  }

  lemma SumFour(f: Vec)
    ensures Sum(f, 0, 4) == f(0) + f(1) + f(2) + f(3)
  {
    assert Sum(f, 0, 3) == Sum(f, 0, 2) + f(2);
    assert Sum(f, 0, 1) == Sum(f, 0, 0) + f(0);
  }

  lemma RowIsLaplacian()
    ensures IsLaplacian(RowMatrix(), 4)
  {
    forall i | 0 <= i < 4 ensures Sum(Row(RowMatrix(), i), 0, 4) == 0.0 {
      SumFour(Row(RowMatrix(), i));
    }
  }

  lemma RowIsLinked()
    ensures LinkedToGround(RowMatrix(), 4)
  {
    forall i | 0 <= i < 4 ensures Linked(RowMatrix(), 4, i, 3) {
      var v := [i, if i < 3 then i + 1 else 3, if i < 2 then i + 2 else 3, 3];
      assert v[|v| - 1] == 3;
      assert IsWalk(RowMatrix(), 4, v);
    }
  }

  lemma RowPositiveDefinite(B: Mat)
    requires forall i, j :: 0 <= i < 4 && 0 <= j < 4 ==> B(i, j) == RowEntry(i, j)
    ensures PositiveDefinite(B, 3)
  {
    RowIsLaplacian();
    RowIsLinked();
    hide IsLaplacian, LinkedToGround, RowEntry;
    forall x: Vec ensures Quad(B, x, 3) >= 0.0 && (Quad(B, x, 3) == 0.0 ==> Vanishes(x, 3)) {
      ApplyExt(B, RowMatrix(), x, x, 3, 3);
      DotExt(x, x, Apply(B, x, 3), Apply(RowMatrix(), x, 3), 3);
      GroundedPositiveDefinite(RowMatrix(), x, 4);
    }
  }

  lemma OneLineTerm(N: Mat, y: Vec, i: int, j: int)
    ensures CutTerm(N, y, 1)(i, j) == N(i, 0) * y(0) * N(j, 0)
  {
    var M := MatMul(N, Diagonal(y), 1);
    var f, g := Times(Row(N, i), Row(Transpose(Diagonal(y)), 0)), Times(Row(M, i), Row(Transpose(Transpose(N)), j));
    assert Sum(f, 0, 1) == Sum(f, 0, 0) + f(0);
    assert Sum(g, 0, 1) == Sum(g, 0, 0) + g(0);
  }

  /** With the line cut nothing couples the servers. */
  lemma RowSeparates(B: Mat, N: Mat, y: Vec)
    requires forall i, j :: 0 <= i < 4 && 0 <= j < 4 ==> B(i, j) == RowEntry(i, j)
    requires (forall i :: 0 <= i < 4 ==> N(i, 0) == EndEntry(i)) && y(0) == 1.0
    ensures BlockDiagonal(CutMatrix(B, N, y, 1), [0, 2, 3], 3)
  {
    var Y, cut := CutMatrix(B, N, y, 1), [0, 2, 3];
    forall s, i, j | InTile(cut, s, i) && 0 <= j < 3 && !InTile(cut, s, j) ensures Y(i, j) == 0.0 && Y(j, i) == 0.0 {
      OneLineTerm(N, y, i, j);
      OneLineTerm(N, y, j, i);
    }
  }

  lemma TwoServers()
    ensures ServersFit([0, 2], [2, 2], 4) && Cut([0, 2], 4) == [0, 2, 3]
  {
    assert [0, 2] + [3] == [0, 2, 3];
  }

  lemma RowIsSeparable(c: ConnectedComponent)
    requires c.switch_pi == 4 == c.A.Length0 == c.A.Length1 == c.I.Length == c.N.Length0 && c.A != c.N && c.A != c.y_L
    requires c.N.Length1 == c.y_L.Length0 == c.y_L.Length1 == 1 && c.y_L[0, 0] == 1.0
    requires c.servers_start_index == [0, 2] && c.servers_pis_num == [2, 2]
    requires forall i, j :: 0 <= i < 4 && 0 <= j < 4 ==> c.A[i, j] == RowEntry(i, j)
    requires forall i :: 0 <= i < 4 ==> c.N[i, 0] == EndEntry(i)
    ensures c.Dimensioned() && c.Separable(MatrixContents(c.A)) && Nonsingular(MatrixContents(c.A), 3)
    ensures Cut(c.servers_start_index, 4) == [0, 2, 3]
  {
    TwoServers();
    RowPositiveDefinite(MatrixContents(c.A));
    RowSeparates(MatrixContents(c.A), MatrixContents(c.N), DiagonalOf(c.y_L));
    PositiveDefiniteNonsingular(MatrixContents(c.A), 3);
    hide ServersFit, PositiveDefinite, BlockDiagonal, CutMatrix, RowEntry, EndEntry, Nonsingular;
  }

  /** The component, with an injection of 5 at interface 0. */
  method RowComponent() returns (c: ConnectedComponent)
    ensures fresh(c) && fresh(c.A) && fresh(c.I) && c.switch_pi == 4 == c.I.Length && c.N.Length0 == 4
    ensures c.N.Length1 == 1
    ensures c.Dimensioned() && c.Separable(MatrixContents(c.A)) && Nonsingular(MatrixContents(c.A), 3)
    ensures c.servers_start_index == [0, 2] && Cut([0, 2], 4) == [0, 2, 3] && c.A != c.N && c.A != c.y_L
    ensures forall i, j :: 0 <= i < 3 && 0 <= j < 3 ==> MatrixContents(c.A)(i, j) == RowEntry(i, j)
    ensures (forall i :: 0 <= i < 3 ==> Contents(c.I)(i) == if i == 0 then 5.0 else 0.0)
    ensures MatrixContents(c.N)(0, 0) == 0.0
  {
    var A := new real[4, 4]((i, j) => RowEntry(i, j));
    var I := new real[4](i => if i == 0 then 5.0 else if i == 3 then -5.0 else 0.0);
    var N := new real[4, 1]((i, _) => EndEntry(i));
    var y_L := new real[1, 1]((_, _) => 1.0);
    c := new ConnectedComponent(A, I, N, y_L, [0, 2], [2, 2]);
    RowIsSeparable(c);
    hide ConnectedComponent.Dimensioned, ConnectedComponent.Separable, Nonsingular, RowEntry;
  }

  /** Main result: an input on which the cached update fails. A fresh calculation for an injection
      of 5 at interface 0 is followed by an update in which it has dropped to 0, together with what
      the grounded interface 3 takes; the right voltages are 0, and the update returns others. */
  method StaleUpdateFails() returns (U: array<real>)
    ensures U.Length == 3 && !Solves(RowMatrix(), Contents(U), ZERO, 3)
  {
    hide *;
    var c := RowComponent();
    ghost var B, h := MatrixContents(c.A), Contents(c.I);
    ghost var R, x;
    U, R, x := c.DistributedCalculation();
    ghost var Nm, K := MatrixContents(c.N), MatrixContents(c.y_L_inv_inv);
    assert Contents(c.I) == h;
    assert forall i :: 0 <= i < 3 ==> x(i) == FreshInput(Nm, K, R, h, [0, 2, 3], 1)(i);
    DropInjection(c.I);
    ghost var I, x' := Contents(c.I), h;
    U, x' := c.DistributedUpdate(B, R, h, x);
    assert Contents(c.I) == I;
    assert forall i :: 0 <= i < 3 ==> x'(i) == Overlay(x, UpdateInput(Nm, K, R, h, I, [0, 2, 3], 1))(i);
    DropsAt(Nm, K, R, h, x, I, x', [0, 2, 3]);
    NotSolved(B, Contents(U), Contents(c.I));
  }

  /** Interface 0 injects nothing any more, and the grounded one takes nothing. */
  method DropInjection(I: array<real>)
    requires I.Length == 4
    modifies I
    ensures forall i :: 0 <= i < 4 ==> I[i] == if i == 0 || i == 3 then 0.0 else old(I[i])
  {
    I[0], I[3] := 0.0, 0.0;
  }

  lemma DropsAt(Nm: Mat, K: Mat, R: seq<Mat>, h: Vec, h2: Vec, I: Vec, x: Vec, cut: seq<int>)
    requires |cut| == |R| + 1 && Nm(0, 0) == 0.0 && h(0) == 5.0 && I(0) == 0.0
    requires forall i :: 0 <= i < 3 ==> h2(i) == FreshInput(Nm, K, R, h, cut, 1)(i)
    requires forall i :: 0 <= i < 3 ==> x(i) == Overlay(h2, UpdateInput(Nm, K, R, h, I, cut, 1))(i)
    ensures x(0) != FreshInput(Nm, K, R, I, cut, 1)(0)
  {
    hide FreshInput, UpdateInput, Overlay;
    DropMakesWrong(Nm, K, R, h, h2, I, cut, 3, 1, 0);
  }

  lemma NotSolved(B: Mat, U: Vec, I: Vec)
    requires (forall i, j :: 0 <= i < 3 && 0 <= j < 3 ==> B(i, j) == RowEntry(i, j))
    requires forall i :: 0 <= i < 3 ==> I(i) == 0.0
    requires !Solves(B, U, I, 3)
    ensures !Solves(RowMatrix(), U, ZERO, 3)
  {
    hide Solves, RowEntry;
    if Solves(RowMatrix(), U, ZERO, 3) {
      SolvesExt(RowMatrix(), B, U, U, ZERO, I, 3);
    }
  }
}
