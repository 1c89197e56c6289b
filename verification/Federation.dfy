/** Federated solving against monolithic solving. Every host eliminates its interior, the
    coordinator solves for the boundary voltages, the hosts substitute back: together they
    solve the network that the tie lines make of all hosts' networks. */
module Federations {
  import opened Sums
  import opened LinearAlgebra
  import opened Laplacians
  import opened Woodbury
  import opened Registries

  /** One host's network, its interior interfaces before its boundary interfaces; A1_inv
      inverts the interior part of A. */
  datatype HostNetwork = HostNetwork(A: Mat, I: Vec, inner: nat, A1_inv: Mat)

  /** The couplings of the interior to the boundary. */
  function A1B(net: HostNetwork): Mat {
    (i, k) => net.A(i, net.inner + k)
  }

  function DeltaX(net: HostNetwork): Mat {
    SlaveMatrix(A1B(net), net.A1_inv, net.inner)
  }

  function DeltaY(net: HostNetwork): Vec {
    SlaveVector(A1B(net), net.A1_inv, net.I, net.inner)
  }

  /** A1^-1 (I1 - A1B v) for the boundary voltages v of the host. */
  function BackSubstitution(net: HostNetwork, v: Vec, b: int): Vec {
    Apply(net.A1_inv, SecondPhaseInput(A1B(net), net.I, v, b), net.inner)
  }

  /** All voltages of a host. */
  function HostVoltages(net: HostNetwork, v: Vec, b: int): Vec {
    i => if i < net.inner then BackSubstitution(net, v, b)(i) else v(i - net.inner)
  }

  /** The host eliminated its interior and sent the result; its boundary interfaces are not
      adjacent to one another and carry no injection. */
  ghost predicate Sent(net: HostNetwork, m: Registration) {
    var b, inner := |m.lines|, net.inner;
    && IsInverse(net.A, net.A1_inv, inner) && Symmetric(net.A, inner + b)
    && (forall k :: 0 <= k < b ==> m.lines[k].diagonal == net.A(inner + k, inner + k))
    && (forall i :: inner <= i < inner + b ==> net.I(i) == 0.0)
    && (forall i, j :: inner <= i < inner + b && inner <= j < inner + b && i != j ==> net.A(i, j) == 0.0)
    && (forall k, l :: 0 <= k < b && 0 <= l < b ==> EntryOf(m.deltaX, k, l) == DeltaX(net)(k, l))
  }

  // ----- rows of one host -----

  function Scaled(c: real, v: real): real {
    c * v
  }

  lemma SplitRow(net: HostNetwork, x: Vec, b: nat, i: int)
    ensures Apply(net.A, x, net.inner + b)(i) == Apply(net.A, x, net.inner)(i)
      + Apply(A1B(net), Slice(x, net.inner), b)(i)
  {
    var f, g := Times(Row(net.A, i), x), Times(Row(A1B(net), i), Slice(x, net.inner));
    SumSplit(f, 0, net.inner, net.inner + b);
    SumShift(f, g, net.inner, 0, b);
  }

  /** Back substitution satisfies the host's interior rows. */
  lemma InteriorRow(net: HostNetwork, v: Vec, b: nat, i: int)
    requires IsInverse(net.A, net.A1_inv, net.inner) && 0 <= i < net.inner
    ensures Apply(net.A, HostVoltages(net, v, b), net.inner + b)(i) == net.I(i)
  {
    var x, s := HostVoltages(net, v, b), SecondPhaseInput(A1B(net), net.I, v, b);
    SplitRow(net, x, b, i);
    InverseSolves(net.A, net.A1_inv, s, net.inner);
    assert Apply(net.A, BackSubstitution(net, v, b), net.inner)(i) == s(i);
    DotExt(Row(net.A, i), Row(net.A, i), x, BackSubstitution(net, v, b), net.inner);
    DotExt(Row(A1B(net), i), Row(A1B(net), i), Slice(x, net.inner), v, b);
  }

  /** In a boundary row the interior contributes what was eliminated. */
  lemma BoundaryRow(net: HostNetwork, m: Registration, v: Vec, k: int)
    requires Sent(net, m) && 0 <= k < |m.lines|
    ensures Apply(net.A, HostVoltages(net, v, |m.lines|), net.inner + |m.lines|)(net.inner + k)
         == DeltaY(net)(k) - Apply(DeltaX(net), v, |m.lines|)(k) + Scaled(m.lines[k].diagonal, v(k))
  {
    hide *;
    var b, inner, N := |m.lines|, net.inner, A1B(net);
    var x := HostVoltages(net, v, b);
    SplitRow(net, x, b, inner + k);
    InnerPart(net, m, v, k);
    BoundaryPart(net, m, v, k);
  }

  lemma InnerPart(net: HostNetwork, m: Registration, v: Vec, k: int)
    requires Sent(net, m) && 0 <= k < |m.lines|
    ensures Apply(net.A, HostVoltages(net, v, |m.lines|), net.inner)(net.inner + k)
         == DeltaY(net)(k) - Apply(DeltaX(net), v, |m.lines|)(k)
  {
    var b, inner, N := |m.lines|, net.inner, A1B(net);
    var x, u := HostVoltages(net, v, b), BackSubstitution(net, v, b);
    hide IsInverse, Nonsingular, SlaveMatrix, SlaveVector, Dot, SecondPhaseInput;
    SlaveFlow(N, net.A1_inv, net.I, v, u, inner, b, k);
    DotExt(Row(net.A, inner + k), Row(Transpose(N), k), x, u, inner);
  }

  /** Boundary interfaces are not adjacent to one another. */
  lemma BoundaryPart(net: HostNetwork, m: Registration, v: Vec, k: int)
    requires Sent(net, m) && 0 <= k < |m.lines|
    ensures Apply(A1B(net), Slice(HostVoltages(net, v, |m.lines|), net.inner), |m.lines|)(net.inner + k)
         == Scaled(m.lines[k].diagonal, v(k))
  {
    hide IsInverse, Nonsingular, DeltaX, BackSubstitution;
    var b, inner := |m.lines|, net.inner;
    var row, y := Row(A1B(net), inner + k), Slice(HostVoltages(net, v, b), inner);
    forall l | 0 <= l < b && l != k ensures row(l) == 0.0 {
      assert net.A(inner + k, inner + l) == 0.0;
    }
    OneEntry(row, y, b, k);
  }

  lemma OneEntry(a: Vec, x: Vec, n: int, k: int)
    requires 0 <= k < n && forall j :: 0 <= j < n && j != k ==> a(j) == 0.0
    ensures Dot(a, x, n) == a(k) * x(k)
  {
    SumSingle(Times(a, x), k, 0, n);
  }

  // ----- rows of the coordinator -----

  function TieMatrix(r: Registry): Mat {
    (i, j) => TieEntry(r.lines, i, j)
  }

  function CorrectionMatrix(r: Registry): Mat {
    (i, j) => Correction(r, i, j)
  }

  /** The index of an interface. */
  ghost function IndexOf(lines: seq<BoundaryLine>, p: string): (k: int)
    requires Listed(lines, p)
    ensures 0 <= k < |lines| && lines[k].id == p
  {
    var k :| 0 <= k < |lines| && lines[k].id == p; k
  }

  /** The current that leaves index i through its tie line, whose resistance is one. */
  ghost function TieFlow(lines: seq<BoundaryLine>, V: Vec, i: int): real {
    if 0 <= i < |lines| && Listed(lines, lines[i].partner) then V(i) - V(IndexOf(lines, lines[i].partner)) else 0.0
  }

  lemma DotCombination(a: Vec, V: Vec, n: int, i: int, c: real, s: int, d: real)
    requires 0 <= i < n && 0 <= s < n && i != s
    requires forall j :: 0 <= j < n ==> a(j) == if j == i then c else if j == s then d else 0.0
    ensures Dot(a, V, n) == c * V(i) + d * V(s)
  {
    var first := j => if j == i then c else 0.0;
    var second := j => if j == s then d else 0.0;
    OneEntry(first, V, n, i);
    OneEntry(second, V, n, s);
    DotCommutes(first, V, n);
    DotCommutes(second, V, n);
    DotCommutes(a, V, n);
    hide Dot;
    DotLinear(V, first, 1.0, second, a, n);
  }

  /** A row of the tie matrix: the original diagonal entry, plus the current into the tie. */
  lemma TieRow(r: Registry, V: Vec, i: int)
    requires Consistent(r) && 0 <= i < |r.lines|
    ensures Apply(TieMatrix(r), V, |r.lines|)(i) == Scaled(r.lines[i].diagonal, V(i)) + TieFlow(r.lines, V, i)
  {
    var n, a, d := |r.lines|, Row(TieMatrix(r), i), r.lines[i].diagonal;
    hide Tiled;
    if Listed(r.lines, r.lines[i].partner) {
      var s := IndexOf(r.lines, r.lines[i].partner);
      TieEntries(r.lines, i, s);
      DotCombination(a, V, n, i, d + 1.0, s, -1.0);
    } else {
      NoTieEntries(r.lines, i);
      SumSingle(Times(a, V), i, 0, n);
    }
  }

  lemma TieEntries(lines: seq<BoundaryLine>, i: int, s: int)
    requires DistinctIds(lines) && Mutual(lines) && 0 <= i < |lines| && 0 <= s < |lines|
    requires lines[s].id == lines[i].partner
    ensures i != s
    ensures forall j :: 0 <= j < |lines|
              ==> TieEntry(lines, i, j) == if j == i then lines[i].diagonal + 1.0 else if j == s then -1.0 else 0.0
  {
    forall j | 0 <= j < |lines| && j != s ensures lines[j].id != lines[s].id {
      assert lines[if j < s then j else s].id != lines[if j < s then s else j].id;
    }
  }

  lemma NoTieEntries(lines: seq<BoundaryLine>, i: int)
    requires 0 <= i < |lines| && !Listed(lines, lines[i].partner)
    ensures forall j :: 0 <= j < |lines| ==> TieEntry(lines, i, j) == if j == i then lines[i].diagonal else 0.0
  {}

  /** A row of the corrections only meets the host's own range. */
  lemma CorrectionRow(r: Registry, V: Vec, h: string, k: int)
    requires Consistent(r) && h in r.members && 0 <= k < |r.members[h].lines|
    ensures Ranged(r, h)
    ensures Apply(CorrectionMatrix(r), V, |r.lines|)(r.starts[h] + k)
         == Apply((k, l) => EntryOf(r.members[h].deltaX, k, l), Slice(V, r.starts[h]), |r.members[h].lines|)(k)
  {
    hide DistinctIds, Mutual, Registration.WellFormed, EntryOf;
    RangeInside(r, h);
    var C, lo, b, n := CorrectionMatrix(r), r.starts[h], |r.members[h].lines|, |r.lines|;
    var row := Row(C, lo + k);
    forall j | 0 <= j < n && !(lo <= j < lo + b) ensures row(j) == 0.0 {
      assert r.owners[lo + k] == h && r.owners[j] != h;
    }
    BlockRow(C, V, lo, lo + b, n, k);
    var D: Mat := (k, l) => EntryOf(r.members[h].deltaX, k, l);
    forall l | 0 <= l < b ensures Row(Block(C, lo), k)(l) == Row(D, k)(l) {
      assert r.owners[lo + k] == h && r.owners[lo + l] == h;
    }
    DotExt(Row(Block(C, lo), k), Row(D, k), Slice(V, lo), Slice(V, lo), b);
  }

  lemma MatrixRow(r: Registry, V: Vec, i: int)
    ensures Apply(BoundaryMatrix(r), V, |r.lines|)(i)
         == Apply(TieMatrix(r), V, |r.lines|)(i) - Apply(CorrectionMatrix(r), V, |r.lines|)(i)
  {
    var t, c, m, n := Row(TieMatrix(r), i), Row(CorrectionMatrix(r), i), Row(BoundaryMatrix(r), i), |r.lines|;
    DotCommutes(t, V, n);
    DotCommutes(c, V, n);
    DotCommutes(m, V, n);
    hide TieEntry, Correction;
    DotLinear(V, t, -1.0, c, m, n);
  }

  // ----- the whole federation -----

  /** The hosts' networks are the ones they registered. */
  ghost predicate Federated(r: Registry, nets: map<string, HostNetwork>) {
    && Consistent(r) && |r.lines| > 0
    && forall h :: h in r.members ==> h in nets && Sent(nets[h], r.members[h])
  }

  /** The boundary injections the coordinator works with: minus every host's deltaY. */
  ghost predicate BoundaryInjections(r: Registry, nets: map<string, HostNetwork>, I: Vec) {
    forall h, i :: Owns(r, h, i) && h in nets ==> I(i) == -DeltaY(nets[h])(i - r.starts[h])
  }

  /** Kirchhoff's current law at interface i of host h: what leaves through the lines of the
      host's own network, and through the tie line if i is a boundary interface with a partner,
      is what is injected. These are the rows of the interconnected network. */
  ghost predicate RowHolds(r: Registry, nets: map<string, HostNetwork>, x: Vec, V: Vec, h: string, i: int)
    requires h in nets && h in r.members && h in r.starts
  {
    var net, k := nets[h], i - nets[h].inner;
    Apply(net.A, x, net.inner + |r.members[h].lines|)(i)
      + (if k >= 0 then TieFlow(r.lines, V, r.starts[h] + k) else 0.0) == net.I(i)
  }

  /** Interface i of host h is the grounded one, the last boundary interface. */
  predicate Ground(r: Registry, nets: map<string, HostNetwork>, h: string, i: int)
    requires h in nets && h in r.starts
  {
    r.starts[h] + i - nets[h].inner == |r.lines| - 1
  }

  /** All rows but the grounded one hold, for the voltages x of each host. */
  ghost predicate MonolithicSolution(r: Registry, nets: map<string, HostNetwork>, x: map<string, Vec>, V: Vec) {
    && V(|r.lines| - 1) == 0.0 && (forall h :: h in r.members ==> h in r.starts && h in nets && h in x)
    && (forall h, i :: Owns(r, h, i) ==> x[h](nets[h].inner + (i - r.starts[h])) == V(i))
    && forall h, i :: h in r.members && 0 <= i < nets[h].inner + |r.members[h].lines| && !Ground(r, nets, h, i)
         ==> RowHolds(r, nets, x[h], V, h, i)
  }

  /** The coordinator's solution V, and the hosts' back substitutions. */
  ghost predicate FederatedSolution(r: Registry, nets: map<string, HostNetwork>, x: map<string, Vec>, V: Vec, I: Vec) {
    && V(|r.lines| - 1) == 0.0 && Solves(BoundaryMatrix(r), V, I, |r.lines| - 1)
    && (forall h :: h in r.members ==> h in r.starts && h in nets && h in x)
    && forall h, i :: h in r.members && 0 <= i < nets[h].inner + |r.members[h].lines|
         ==> x[h](i) == HostVoltages(nets[h], Slice(V, r.starts[h]), |r.members[h].lines|)(i)
  }

  /** A row of the coordinator's system is the row of that boundary interface in the
      interconnected network, with the interior eliminated. */
  lemma BoundaryRowIs(r: Registry, nets: map<string, HostNetwork>, V: Vec, I: Vec, h: string, k: int)
    requires Federated(r, nets) && BoundaryInjections(r, nets, I) && h in r.members && 0 <= k < |r.members[h].lines|
    ensures Ranged(r, h) && h in nets
    ensures Apply(BoundaryMatrix(r), V, |r.lines|)(r.starts[h] + k) == I(r.starts[h] + k)
       <==> RowHolds(r, nets, HostVoltages(nets[h], Slice(V, r.starts[h]), |r.members[h].lines|), V, h,
                     nets[h].inner + k)
  {
    hide *;
    FederatedFacts(r, nets, I, h, k);
    var net, m, i := nets[h], r.members[h], r.starts[h] + k;
    MatrixRow(r, V, i);
    CorrectionRow(r, V, h, k);
    SentFacts(r, h, net, Slice(V, r.starts[h]), k);
    TieRow(r, V, i);
    BoundaryRow(net, m, Slice(V, r.starts[h]), k);
    BoundaryRowHolds(r, nets, HostVoltages(net, Slice(V, r.starts[h]), |m.lines|), V, h, k);
    SliceAt(V, r.starts[h], k);
  }

  lemma SliceAt(V: Vec, lo: int, k: int)
    ensures Slice(V, lo)(k) == V(lo + k)
  {}

  lemma FederatedFacts(r: Registry, nets: map<string, HostNetwork>, I: Vec, h: string, k: int)
    requires Federated(r, nets) && BoundaryInjections(r, nets, I) && h in r.members && 0 <= k < |r.members[h].lines|
    ensures Consistent(r) && Ranged(r, h) && h in r.starts && h in nets && Sent(nets[h], r.members[h])
    ensures r.starts[h] + k < |r.lines| && I(r.starts[h] + k) == -DeltaY(nets[h])(k)
  {
    hide Sent, DistinctIds, Mutual, DeltaY, Registration.WellFormed;
    RangeInside(r, h);
    assert Owns(r, h, r.starts[h] + k);
  }

  lemma BoundaryRowHolds(r: Registry, nets: map<string, HostNetwork>, x: Vec, V: Vec, h: string, k: int)
    requires h in nets && h in r.members && h in r.starts && k >= 0 && nets[h].I(nets[h].inner + k) == 0.0
    ensures RowHolds(r, nets, x, V, h, nets[h].inner + k)
       <==> Apply(nets[h].A, x, nets[h].inner + |r.members[h].lines|)(nets[h].inner + k)
            + TieFlow(r.lines, V, r.starts[h] + k) == 0.0
  {
    hide TieFlow, Apply;
    var net, i := nets[h], nets[h].inner + k;
    var k' := i - net.inner;
    assert k' == k;
    var left, flow := Apply(net.A, x, net.inner + |r.members[h].lines|)(i), TieFlow(r.lines, V, r.starts[h] + k');
    assert RowHolds(r, nets, x, V, h, i) <==> left + flow == net.I(i);
  }

  lemma SentFacts(r: Registry, h: string, net: HostNetwork, v: Vec, k: int)
    requires Consistent(r) && h in r.members && Sent(net, r.members[h]) && 0 <= k < |r.members[h].lines|
    ensures Ranged(r, h)
    ensures var b, D: Mat := |r.members[h].lines|, (k, l) => EntryOf(r.members[h].deltaX, k, l);
            Apply(D, v, b)(k) == Apply(DeltaX(net), v, b)(k)
    ensures r.starts[h] + k < |r.lines| && r.lines[r.starts[h] + k] == r.members[h].lines[k]
    ensures net.I(net.inner + k) == 0.0
  {
    hide DeltaX, IsInverse, Nonsingular;
    RangeInside(r, h);
    OwnLine(r, r.starts[h] + k);
    var b, D: Mat := |r.members[h].lines|, (k, l) => EntryOf(r.members[h].deltaX, k, l);
    DotExt(Row(D, k), Row(DeltaX(net), k), v, v, b);
  }

  // ----- federated and monolithic solutions are the same -----

  /** The reduced system of the first n - 1 indices is the full one with the last voltage zero. */
  lemma ReducedRows(A: Mat, V: Vec, I: Vec, n: int)
    requires n > 0 && V(n - 1) == 0.0
    ensures Solves(A, V, I, n - 1) <==> SolvesRows(A, V, I, n - 1, n)
  {
    forall i ensures Apply(A, V, n)(i) == Apply(A, V, n - 1)(i) {
      DotTruncate(Row(A, i), V, n - 1, n);
    }
    hide Apply;
    if SolvesRows(A, V, I, n - 1, n) {
      forall i | 0 <= i < n - 1 ensures Apply(A, V, n - 1)(i) == I(i) { assert Apply(A, V, n)(i) == I(i); }
    }
    if Solves(A, V, I, n - 1) {
      forall i | 0 <= i < n - 1 ensures Apply(A, V, n)(i) == I(i) { assert Apply(A, V, n - 1)(i) == I(i); }
    }
  }

  /** A host's row only depends on the values of its voltages. */
  lemma RowHoldsExt(r: Registry, nets: map<string, HostNetwork>, x: Vec, y: Vec, V: Vec, h: string, i: int)
    requires h in nets && h in r.members && h in r.starts
    requires forall j :: 0 <= j < nets[h].inner + |r.members[h].lines| ==> x(j) == y(j)
    ensures RowHolds(r, nets, x, V, h, i) <==> RowHolds(r, nets, y, V, h, i)
  {
    DotExt(Row(nets[h].A, i), Row(nets[h].A, i), x, y, nets[h].inner + |r.members[h].lines|);
  }

  /** Main result: the coordinator's boundary voltages and the hosts' back substitutions
      satisfy every row of the interconnected network but the grounded one. */
  lemma {:induction false} FederatedSolvesMonolithic(r: Registry, nets: map<string, HostNetwork>, x: map<string, Vec>,
                                                     V: Vec, I: Vec)
    requires Federated(r, nets) && BoundaryInjections(r, nets, I) && FederatedSolution(r, nets, x, V, I)
    ensures MonolithicSolution(r, nets, x, V)
  {
    var n := |r.lines|;
    hide Sent, Consistent, RowHolds, HostVoltages, BoundaryMatrix, BoundaryInjections, SolvesRows;
    ReducedRows(BoundaryMatrix(r), V, I, n);
    forall h, i | h in r.members && 0 <= i < nets[h].inner + |r.members[h].lines| && !Ground(r, nets, h, i)
      ensures RowHolds(r, nets, x[h], V, h, i)
    {
      var y := HostVoltages(nets[h], Slice(V, r.starts[h]), |r.members[h].lines|);
      RowHoldsExt(r, nets, x[h], y, V, h, i);
      if i < nets[h].inner {
        InnerRowHolds(r, nets, V, h, i);
      } else {
        var k := i - nets[h].inner;
        BoundaryRowIs(r, nets, V, I, h, k);
        RangeLess(r, h, k);
        RowAt(BoundaryMatrix(r), V, I, n - 1, n, r.starts[h] + k);
      }
    }
    forall h, i | Owns(r, h, i) ensures x[h](nets[h].inner + (i - r.starts[h])) == V(i) {
      BoundaryVoltage(nets[h], V, r.starts[h], |r.members[h].lines|, i - r.starts[h]);
    }
  }

  lemma RowAt(A: Mat, V: Vec, I: Vec, m: int, n: int, i: int)
    requires SolvesRows(A, V, I, m, n) && 0 <= i < m
    ensures Apply(A, V, n)(i) == I(i)
  {}

  lemma RangeLess(r: Registry, h: string, k: int)
    requires Consistent(r) && h in r.members && 0 <= k < |r.members[h].lines|
    ensures h in r.starts && r.starts[h] + k < |r.lines|
  {
    RangeInside(r, h);
  }

  lemma BoundaryVoltage(net: HostNetwork, V: Vec, start: int, b: int, k: int)
    requires k >= 0
    ensures HostVoltages(net, Slice(V, start), b)(net.inner + k) == V(start + k)
  {
    hide BackSubstitution;
    assert net.inner + k - net.inner == k;
  }

  lemma InnerRowHolds(r: Registry, nets: map<string, HostNetwork>, V: Vec, h: string, i: int)
    requires Federated(r, nets) && h in r.members && h in r.starts && h in nets && 0 <= i < nets[h].inner
    ensures RowHolds(r, nets, HostVoltages(nets[h], Slice(V, r.starts[h]), |r.members[h].lines|), V, h, i)
  {
    hide TieFlow, HostVoltages, Consistent, IsInverse;
    InteriorRow(nets[h], Slice(V, r.starts[h]), |r.members[h].lines|, i);
  }

  /** The converse: nothing else satisfies them. */
  lemma {:induction false} MonolithicIsFederated(r: Registry, nets: map<string, HostNetwork>, x: map<string, Vec>,
                                                 V: Vec, I: Vec)
    requires Federated(r, nets) && BoundaryInjections(r, nets, I) && MonolithicSolution(r, nets, x, V)
    ensures FederatedSolution(r, nets, x, V, I)
  {
    var n := |r.lines|;
    hide Sent, Consistent, RowHolds, HostVoltages, BoundaryMatrix, BoundaryInjections;
    forall h | h in r.members
      ensures forall j :: 0 <= j < nets[h].inner + |r.members[h].lines|
                ==> x[h](j) == HostVoltages(nets[h], Slice(V, r.starts[h]), |r.members[h].lines|)(j)
    {
      InteriorDetermined(r, nets, x, V, h);
    }
    forall i | 0 <= i < n - 1 ensures Apply(BoundaryMatrix(r), V, n)(i) == I(i) {
      var h := OwnerOf(r, i);
      var k := i - r.starts[h];
      RowHoldsExt(r, nets, x[h], HostVoltages(nets[h], Slice(V, r.starts[h]), |r.members[h].lines|), V, h,
                  nets[h].inner + k);
      BoundaryRowIs(r, nets, V, I, h, k);
      assert !Ground(r, nets, h, nets[h].inner + k);
    }
    ReducedRows(BoundaryMatrix(r), V, I, n);
  }

  ghost function OwnerOf(r: Registry, i: int): (h: string)
    requires Consistent(r) && 0 <= i < |r.lines|
    ensures Owns(r, h, i)
  {
    OwnLine(r, i);
    r.owners[i]
  }

  /** The interior rows leave only the back substitution for the interior. */
  lemma JoinedVoltages(net: HostNetwork, x: Vec, v: Vec, b: nat)
    requires forall i :: 0 <= i < net.inner ==> x(i) == BackSubstitution(net, v, b)(i)
    requires forall k :: 0 <= k < b ==> x(net.inner + k) == v(k)
    ensures forall j :: 0 <= j < net.inner + b ==> x(j) == HostVoltages(net, v, b)(j)
  {
    hide BackSubstitution;
    forall j | 0 <= j < net.inner + b ensures x(j) == HostVoltages(net, v, b)(j) {
      if j >= net.inner { assert x(net.inner + (j - net.inner)) == v(j - net.inner); }
    }
  }

  /** The interior of a host sees its boundary voltages as injections. */
  lemma InteriorRows(r: Registry, nets: map<string, HostNetwork>, x: map<string, Vec>, V: Vec, h: string)
    requires Federated(r, nets) && MonolithicSolution(r, nets, x, V) && h in r.members
    ensures var net, b, v := nets[h], |r.members[h].lines|, Slice(V, r.starts[h]);
            && (forall k :: 0 <= k < b ==> x[h](net.inner + k) == v(k))
            && forall i :: 0 <= i < net.inner
                 ==> Apply(net.A, x[h], net.inner)(i) == SecondPhaseInput(A1B(net), net.I, v, b)(i)
  {
    hide *;
    MonolithicPlaces(r, nets, x, V, h);
    var net, b, v := nets[h], |r.members[h].lines|, Slice(V, r.starts[h]);
    forall k | 0 <= k < b ensures x[h](net.inner + k) == v(k) {
      BoundaryOf(r, nets, x, V, h, k);
    }
    forall i | 0 <= i < net.inner
      ensures Apply(net.A, x[h], net.inner)(i) == SecondPhaseInput(A1B(net), net.I, v, b)(i)
    {
      InteriorHolds(r, nets, x, V, h, i);
      InteriorInput(net, x[h], v, b, i);
    }
  }

  lemma MonolithicPlaces(r: Registry, nets: map<string, HostNetwork>, x: map<string, Vec>, V: Vec, h: string)
    requires MonolithicSolution(r, nets, x, V) && h in r.members
    ensures h in r.starts && h in nets && h in x
  {
    hide RowHolds;
  }

  lemma BoundaryOf(r: Registry, nets: map<string, HostNetwork>, x: map<string, Vec>, V: Vec, h: string, k: int)
    requires MonolithicSolution(r, nets, x, V) && h in r.members && 0 <= k < |r.members[h].lines|
    ensures h in r.starts && h in nets && h in x && x[h](nets[h].inner + k) == Slice(V, r.starts[h])(k)
  {
    hide RowHolds;
    assert Owns(r, h, r.starts[h] + k);
  }

  lemma InteriorHolds(r: Registry, nets: map<string, HostNetwork>, x: map<string, Vec>, V: Vec, h: string, i: int)
    requires Federated(r, nets) && MonolithicSolution(r, nets, x, V) && h in r.members && 0 <= i < nets[h].inner
    ensures Apply(nets[h].A, x[h], nets[h].inner + |r.members[h].lines|)(i) == nets[h].I(i)
  {
    hide Sent, TieFlow, Apply, Consistent;
    RangeNotEmpty(r, h);
    assert !Ground(r, nets, h, i);
    assert RowHolds(r, nets, x[h], V, h, i);
  }

  lemma RangeNotEmpty(r: Registry, h: string)
    requires Consistent(r) && h in r.members
    ensures h in r.starts && |r.members[h].lines| > 0 && r.starts[h] + |r.members[h].lines| <= |r.lines|
  {
    RangeInside(r, h);
  }

  /** A symmetric matrix with an inverse is nonsingular. */
  lemma {:induction false} SymmetricNonsingular(A: Mat, R: Mat, n: int)
    requires IsInverse(A, R, n) && Symmetric(A, n)
    ensures Nonsingular(A, n)
  {
    forall x: Vec | Solves(A, x, ZERO, n)
      ensures Vanishes(x, n)
    {
      forall k | 0 <= k < n
        ensures x(k) == 0.0
      {
        InKernel(A, x, Row(Transpose(R), k), k, n);
      }
    }
  }

  lemma InKernel(A: Mat, x: Vec, c: Vec, k: int, n: int)
    requires Symmetric(A, n) && Solves(A, x, ZERO, n) && Solves(A, c, Unit(k), n) && 0 <= k < n
    ensures x(k) == 0.0
  {
    Adjoint(A, x, c, n, n);
    DotExt(x, x, Apply(A, c, n), Unit(k), n);
    DotUnit(x, k, n);
    forall i | 0 <= i < n
      ensures Apply(Transpose(A), x, n)(i) == 0.0
    {
      DotExt(Row(Transpose(A), i), Row(A, i), x, x, n);
      assert Apply(A, x, n)(i) == ZERO(i);
    }
    SumZero(Times(Apply(Transpose(A), x, n), c), 0, n);
  }

  lemma IsSent(r: Registry, nets: map<string, HostNetwork>, h: string)
    requires Federated(r, nets) && h in r.members
    ensures Sent(nets[h], r.members[h])
  {
    hide Sent, Consistent;
  }

  lemma InteriorDetermined(r: Registry, nets: map<string, HostNetwork>, x: map<string, Vec>, V: Vec, h: string)
    requires Federated(r, nets) && MonolithicSolution(r, nets, x, V) && h in r.members
    ensures forall j :: 0 <= j < nets[h].inner + |r.members[h].lines|
              ==> x[h](j) == HostVoltages(nets[h], Slice(V, r.starts[h]), |r.members[h].lines|)(j)
  {
    InteriorRows(r, nets, x, V, h);
    IsSent(r, nets, h);
    SymmetricNonsingular(nets[h].A, nets[h].A1_inv, nets[h].inner);
    hide Federated, MonolithicSolution, IsInverse, BackSubstitution, Nonsingular, SecondPhaseInput, Apply, Slice;
    hide HostVoltages;
    var net, b, v := nets[h], |r.members[h].lines|, Slice(V, r.starts[h]);
    var s, u := SecondPhaseInput(A1B(net), net.I, v, b), BackSubstitution(net, v, b);
    BackSolves(net, v, b);
    SolutionUnique(net.A, x[h], u, s, net.inner);
    JoinedVoltages(net, x[h], v, b);
  }

  lemma BackSolves(net: HostNetwork, v: Vec, b: int)
    requires IsInverse(net.A, net.A1_inv, net.inner)
    ensures Solves(net.A, BackSubstitution(net, v, b), SecondPhaseInput(A1B(net), net.I, v, b), net.inner)
  {
    InverseSolves(net.A, net.A1_inv, SecondPhaseInput(A1B(net), net.I, v, b), net.inner);
  }

  lemma InteriorInput(net: HostNetwork, x: Vec, v: Vec, b: nat, i: int)
    requires Apply(net.A, x, net.inner + b)(i) == net.I(i)
    requires forall k :: 0 <= k < b ==> x(net.inner + k) == v(k)
    ensures Apply(net.A, x, net.inner)(i) == SecondPhaseInput(A1B(net), net.I, v, b)(i)
  {
    SplitRow(net, x, b, i);
    DotExt(Row(A1B(net), i), Row(A1B(net), i), Slice(x, net.inner), v, b);
  }
}
