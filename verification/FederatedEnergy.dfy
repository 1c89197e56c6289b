/** Why the coordinator can solve for the boundary voltages: the energy that boundary voltages
    without any injection would need vanishes only if they are all zero. */
module FederatedEnergy {
  import opened Sums
  import opened LinearAlgebra
  import opened Laplacians
  import opened Woodbury
  import opened Registries
  import opened Federations

  /** The tie lines alone. */
  function TieLaplacian(lines: seq<BoundaryLine>): Mat {
    (i, j) => if !(0 <= i < |lines| && 0 <= j < |lines|) then 0.0
              else if i == j then if Listed(lines, lines[i].partner) then 1.0 else 0.0
              else if lines[i].partner == lines[j].id then -1.0
              else 0.0
  }

  /** A row of the tie lines is the current into the tie. */
  lemma TieLaplacianRow(lines: seq<BoundaryLine>, V: Vec, i: int)
    requires DistinctIds(lines) && Mutual(lines) && 0 <= i < |lines|
    ensures Apply(TieLaplacian(lines), V, |lines|)(i) == TieFlow(lines, V, i)
  {
    var n, a := |lines|, Row(TieLaplacian(lines), i);
    if Listed(lines, lines[i].partner) {
      var s := IndexOf(lines, lines[i].partner);
      TieEntries(lines, i, s);
      forall j | 0 <= j < n ensures a(j) == if j == i then 1.0 else if j == s then -1.0 else 0.0 {
        assert TieEntry(lines, i, j) == if j == i then lines[i].diagonal + 1.0 else if j == s then -1.0 else 0.0;
      }
      DotCombination(a, V, n, i, 1.0, s, -1.0);
    } else {
      NoTieEntries(lines, i);
      OneEntry(a, V, n, i);
    }
  }

  lemma TiesAreLaplacian(lines: seq<BoundaryLine>)
    requires DistinctIds(lines) && Mutual(lines)
    ensures IsLaplacian(TieLaplacian(lines), |lines|)
  {
    var T, n, one := TieLaplacian(lines), |lines|, i => 1.0;
    forall i | 0 <= i < n ensures Sum(Row(T, i), 0, n) == 0.0 {
      TieLaplacianRow(lines, one, i);
      SumExt(Times(Row(T, i), one), Row(T, i), 0, n);
    }
  }

  /** The energy that enters the tie line of each index. */
  ghost function TieEnergy(lines: seq<BoundaryLine>, V: Vec): Vec {
    i => V(i) * TieFlow(lines, V, i)
  }

  lemma TieEnergyTotal(lines: seq<BoundaryLine>, V: Vec)
    requires DistinctIds(lines) && Mutual(lines)
    ensures Sum(TieEnergy(lines, V), 0, |lines|) == Quad(TieLaplacian(lines), V, |lines|) >= 0.0
  {
    var T, n := TieLaplacian(lines), |lines|;
    hide TieFlow, TieLaplacian, Listed, IsLaplacian, DistinctIds, Mutual, Apply;
    TiesAreLaplacian(lines);
    QuadNonNegative(T, V, n);
    forall i | 0 <= i < n ensures Times(V, Apply(T, V, n))(i) == TieEnergy(lines, V)(i) {
      TieLaplacianRow(lines, V, i);
    }
    SumExt(Times(V, Apply(T, V, n)), TieEnergy(lines, V), 0, n);
  }

  // ----- the energy of the hosts -----

  /** A federation of connected networks with positive resistances. */
  ghost predicate Physical(r: Registry, nets: map<string, HostNetwork>) {
    && Federated(r, nets)
    && forall h :: h in r.members ==> Conducting(nets[h], |r.members[h].lines|)
  }

  ghost predicate Conducting(net: HostNetwork, b: int) {
    IsLaplacian(net.A, net.inner + b) && AllLinked(net.A, net.inner + b)
  }

  lemma SumOfSlice(f: Vec, lo: int, b: nat)
    ensures Sum(Slice(f, lo), 0, b) == Sum(f, lo, lo + b)
  {
    SumShift(f, Slice(f, lo), lo, 0, b);
  }

  lemma EnergyOfRange(f: Vec, g: Vec, inner: nat, s: int, b: nat)
    requires forall i :: 0 <= i < inner ==> f(i) == 0.0
    requires forall k :: 0 <= k < b ==> Slice(f, inner)(k) == -1.0 * Slice(g, s)(k)
    ensures Sum(f, 0, inner + b) == -Sum(g, s, s + b)
  {
    hide Slice;
    SumSplit(f, 0, inner, inner + b);
    SumZero(f, 0, inner);
    SumOfSlice(f, inner, b);
    SumOfSlice(g, s, b);
    SumScale(Slice(g, s), Slice(f, inner), -1.0, 0, b);
  }

  /** Without injections, a host's energy is what its ties deliver. */
  lemma HostEnergy(r: Registry, nets: map<string, HostNetwork>, x: map<string, Vec>, V: Vec, h: string)
    requires Federated(r, nets) && MonolithicSolution(r, nets, x, V) && h in r.members
    requires forall i :: nets[h].I(i) == 0.0
    ensures Ranged(r, h)
    ensures Quad(nets[h].A, x[h], nets[h].inner + |r.members[h].lines|)
         == -Sum(TieEnergy(r.lines, V), r.starts[h], r.starts[h] + |r.members[h].lines|)
  {
    hide *;
    HostFacts(r, nets, x, V, h);
    var net, b, s := nets[h], |r.members[h].lines|, r.starts[h];
    var y := Apply(net.A, x[h], net.inner + b);
    var f, g := Times(x[h], y), TieEnergy(r.lines, V);
    forall i | 0 <= i < net.inner ensures f(i) == 0.0 {
      TimesAt(x[h], y, i);
      HostInteriorEnergy(r, nets, x, V, h, i);
    }
    forall k | 0 <= k < b ensures Slice(f, net.inner)(k) == -1.0 * Slice(g, s)(k) {
      TimesAt(x[h], y, net.inner + k);
      HostBoundaryEnergy(r, nets, x, V, h, k);
      SliceAt(f, net.inner, k);
      SliceAt(g, s, k);
    }
    EnergyOfRange(f, g, net.inner, s, b);
    QuadIs(net.A, x[h], net.inner + b);
  }

  lemma HostFacts(r: Registry, nets: map<string, HostNetwork>, x: map<string, Vec>, V: Vec, h: string)
    requires Federated(r, nets) && MonolithicSolution(r, nets, x, V) && h in r.members
    ensures Consistent(r) && Ranged(r, h) && h in r.starts && h in nets && h in x && |r.members[h].lines| > 0
    ensures r.starts[h] + |r.members[h].lines| <= |r.lines|
  {
    hide Sent, RowHolds, DistinctIds, Mutual, Registration.WellFormed;
    RangeInside(r, h);
  }

  lemma TimesAt(a: Vec, x: Vec, i: int)
    ensures Times(a, x)(i) == a(i) * x(i)
  {}

  lemma HostInteriorEnergy(r: Registry, nets: map<string, HostNetwork>, x: map<string, Vec>, V: Vec, h: string, i: int)
    requires Federated(r, nets) && MonolithicSolution(r, nets, x, V) && h in r.members && 0 <= i < nets[h].inner
    requires forall i :: nets[h].I(i) == 0.0
    ensures x[h](i) * Apply(nets[h].A, x[h], nets[h].inner + |r.members[h].lines|)(i) == 0.0
  {
    hide Sent, Consistent, TieFlow, Apply;
    HostFacts(r, nets, x, V, h);
    assert !Ground(r, nets, h, i);
    assert RowHolds(r, nets, x[h], V, h, i);
  }

  lemma HostBoundaryEnergy(r: Registry, nets: map<string, HostNetwork>, x: map<string, Vec>, V: Vec, h: string, k: int)
    requires Federated(r, nets) && MonolithicSolution(r, nets, x, V) && h in r.members && 0 <= k < |r.members[h].lines|
    requires forall i :: nets[h].I(i) == 0.0
    ensures Ranged(r, h)
    ensures var net := nets[h];
            x[h](net.inner + k) * Apply(net.A, x[h], net.inner + |r.members[h].lines|)(net.inner + k)
            == -1.0 * TieEnergy(r.lines, V)(r.starts[h] + k)
  {
    hide *;
    HostFacts(r, nets, x, V, h);
    var net, i := nets[h], r.starts[h] + k;
    var c, t := Apply(net.A, x[h], net.inner + |r.members[h].lines|)(net.inner + k), TieFlow(r.lines, V, i);
    TieEnergyAt(r.lines, V, i);
    BoundaryOf(r, nets, x, V, h, k);
    SliceAt(V, r.starts[h], k);
    BoundaryHolds(r, nets, x, V, h, k);
    if V(i) != 0.0 {
      BoundaryRowHolds(r, nets, x[h], V, h, k);
      Opposite(V(i), c, t);
    }
  }

  lemma TieEnergyAt(lines: seq<BoundaryLine>, V: Vec, i: int)
    ensures TieEnergy(lines, V)(i) == V(i) * TieFlow(lines, V, i)
  {}

  /** The row of every boundary interface but the grounded one holds, whose voltage is zero. */
  lemma BoundaryHolds(r: Registry, nets: map<string, HostNetwork>, x: map<string, Vec>, V: Vec, h: string, k: int)
    requires Consistent(r) && MonolithicSolution(r, nets, x, V) && h in r.members && 0 <= k < |r.members[h].lines|
    ensures h in r.starts && h in nets && h in x
    ensures RowHolds(r, nets, x[h], V, h, nets[h].inner + k) || V(r.starts[h] + k) == 0.0
  {
    hide RowHolds, Consistent;
    RangeLess(r, h, k);
    if !Ground(r, nets, h, nets[h].inner + k) {
      assert RowHolds(r, nets, x[h], V, h, nets[h].inner + k);
    }
  }

  lemma Opposite(v: real, c: real, t: real)
    requires c + t == 0.0
    ensures v * c == -1.0 * (v * t)
  {}

  /** A range begins at i, or the indices end there. */
  ghost predicate RangeBegins(r: Registry, i: int) {
    0 <= i <= |r.lines| == |r.owners| && (i < |r.lines| ==> r.owners[i] in r.starts && r.starts[r.owners[i]] == i)
  }

  /** The range before one that begins at i ends there. */
  lemma RangeBefore(r: Registry, i: int)
    requires Consistent(r) && RangeBegins(r, i) && i > 0
    ensures var g := r.owners[i - 1];
            Ranged(r, g) && r.starts[g] < i && r.starts[g] + |r.members[g].lines| == i && RangeBegins(r, r.starts[g])
  {
    hide DistinctIds, Mutual, Registration.WellFormed;
    var g := r.owners[i - 1];
    OwnLine(r, i - 1);
    RangeInside(r, g);
    if i < |r.lines| { OwnLine(r, i); }
  }

  /** Nonpositive shares of the ranges that tile the indices: the total is at most any share. */
  lemma {:induction false} PrefixShares(r: Registry, f: Vec, i: int, h: string)
    requires Consistent(r) && RangeBegins(r, i) && h in r.members
    requires forall g :: g in r.members
               ==> g in r.starts && Sum(f, r.starts[g], r.starts[g] + |r.members[g].lines|) <= 0.0
    ensures Sum(f, 0, i) <= 0.0
    ensures r.starts[h] + |r.members[h].lines| <= i
       ==> Sum(f, 0, i) <= Sum(f, r.starts[h], r.starts[h] + |r.members[h].lines|)
    decreases i
  {
    hide Consistent, Sum;
    if i > 0 {
      RangeBefore(r, i);
      var g := r.owners[i - 1];
      PrefixShares(r, f, r.starts[g], h);
      SumSplit(f, 0, r.starts[g], i);
      if h != g { ApartRanges(r, h, g); }
    } else {
      NonemptyRange(r, f, h);
    }
  }

  lemma ApartRanges(r: Registry, g: string, h: string)
    requires Consistent(r) && g in r.members && h in r.members && g != h
    ensures g in r.starts && h in r.starts
    ensures |r.members[g].lines| > 0
    ensures r.starts[g] + |r.members[g].lines| <= r.starts[h] || r.starts[h] + |r.members[h].lines| <= r.starts[g]
  {
    RangeInside(r, g);
    RangesApart(r, g, h);
  }

  lemma NonemptyRange(r: Registry, f: Vec, h: string)
    requires Consistent(r) && h in r.members
    ensures h in r.starts && r.starts[h] + |r.members[h].lines| > 0 && Sum(f, 0, 0) == 0.0
  {
    RangeInside(r, h);
  }

  // ----- the boundary matrix is nonsingular -----

  /** A tie line joins interfaces of hosts g and h. */
  ghost predicate Tied(r: Registry, g: string, h: string) {
    exists i, j :: Owns(r, g, i) && Owns(r, h, j) && i < |r.lines| && j < |r.lines|
      && r.lines[i].partner == r.lines[j].id
  }

  /** A chain of tied hosts. */
  ghost predicate IsChain(r: Registry, p: seq<string>) {
    |p| > 0 && forall k :: 0 <= k < |p| ==> ChainStep(r, p, k)
  }

  ghost predicate ChainStep(r: Registry, p: seq<string>, k: int)
    requires 0 <= k < |p|
  {
    p[k] in r.members && (k + 1 < |p| ==> Tied(r, p[k], p[k + 1]))
  }

  /** Every host reaches the grounded one over tie lines. */
  ghost predicate ConnectedFederation(r: Registry) {
    forall h :: h in r.members ==> ReachesGround(r, h)
  }

  ghost predicate ReachesGround(r: Registry, h: string) {
    exists p :: IsGroundChain(r, p, h)
  }

  ghost predicate IsGroundChain(r: Registry, p: seq<string>, h: string) {
    |p| > 0 && p[0] == h && GroundHost(r, p[|p| - 1]) && IsChain(r, p)
  }

  ghost predicate GroundHost(r: Registry, h: string) {
    Owns(r, h, |r.lines| - 1)
  }

  /** The same networks without any injection. */
  function Quiet(nets: map<string, HostNetwork>): map<string, HostNetwork> {
    map h | h in nets :: nets[h].(I := ZERO)
  }

  lemma QuietFederated(r: Registry, nets: map<string, HostNetwork>)
    requires Federated(r, nets)
    ensures Federated(r, Quiet(nets)) && BoundaryInjections(r, Quiet(nets), ZERO)
  {
    var q := Quiet(nets);
    hide Consistent, Sent, DeltaY;
    forall h | h in r.members ensures h in q && Sent(q[h], r.members[h]) {
      QuietSent(nets[h], r.members[h]);
    }
    forall h, i | Owns(r, h, i) && h in q ensures ZERO(i) == -DeltaY(q[h])(i - r.starts[h]) {
      QuietDeltaY(nets[h], i - r.starts[h]);
    }
  }

  lemma QuietSent(net: HostNetwork, m: Registration)
    requires Sent(net, m)
    ensures Sent(net.(I := ZERO), m)
  {
    hide IsInverse, Nonsingular, SlaveMatrix, Symmetric;
    assert A1B(net.(I := ZERO)) == A1B(net);
  }

  lemma QuietDeltaY(net: HostNetwork, k: int)
    ensures DeltaY(net.(I := ZERO))(k) == 0.0
  {
    ApplyZero(SlaveGain(A1B(net.(I := ZERO)), net.A1_inv, net.inner), ZERO, net.inner, k);
  }

  /** The voltages of all hosts that belong to boundary voltages V. */
  ghost function AllVoltages(r: Registry, nets: map<string, HostNetwork>, V: Vec): map<string, Vec>
    requires forall h :: h in r.members ==> h in nets && h in r.starts
  {
    map h | h in r.members :: HostVoltages(nets[h], Slice(V, r.starts[h]), |r.members[h].lines|)
  }

  lemma KernelSolution(r: Registry, nets: map<string, HostNetwork>, z: Vec)
    requires Federated(r, nets) && Solves(BoundaryMatrix(r), z, ZERO, |r.lines| - 1)
    ensures forall h :: h in r.members ==> h in Quiet(nets) && h in r.starts
    ensures MonolithicSolution(r, Quiet(nets), AllVoltages(r, Quiet(nets), Truncate(z, |r.lines| - 1)),
                               Truncate(z, |r.lines| - 1))
  {
    hide *;
    var m, q := |r.lines| - 1, Quiet(nets);
    var V := Truncate(z, m);
    QuietFederated(r, nets);
    InNets(r, q);
    Placed(r, q);
    forall h | h in r.members
      ensures h in AllVoltages(r, q, V)
      ensures AllVoltages(r, q, V)[h] == HostVoltages(q[h], Slice(V, r.starts[h]), |r.members[h].lines|)
    {
      VoltagesOf(r, q, V, h);
    }
    TruncatedSolves(BoundaryMatrix(r), z, m);
    IsFederatedSolution(r, q, AllVoltages(r, q, V), V);
    FederatedSolvesMonolithic(r, q, AllVoltages(r, q, V), V, ZERO);
  }

  lemma Placed(r: Registry, nets: map<string, HostNetwork>)
    requires Federated(r, nets)
    ensures |r.lines| > 0 && forall h :: h in r.members ==> h in r.starts
  {
    hide Sent, DistinctIds, Mutual;
    forall h | h in r.members ensures h in r.starts { RangeInside(r, h); }
  }

  lemma VoltagesOf(r: Registry, nets: map<string, HostNetwork>, V: Vec, h: string)
    requires (forall h :: h in r.members ==> h in nets && h in r.starts) && h in r.members
    ensures h in AllVoltages(r, nets, V)
    ensures AllVoltages(r, nets, V)[h] == HostVoltages(nets[h], Slice(V, r.starts[h]), |r.members[h].lines|)
  {}

  lemma TruncatedSolves(A: Mat, z: Vec, m: int)
    requires Solves(A, z, ZERO, m)
    ensures Solves(A, Truncate(z, m), ZERO, m) && Truncate(z, m)(m) == 0.0
  {
    forall i | 0 <= i < m ensures Apply(A, Truncate(z, m), m)(i) == ZERO(i) {
      DotExt(Row(A, i), Row(A, i), Truncate(z, m), z, m);
      assert Apply(A, z, m)(i) == ZERO(i);
    }
  }

  lemma IsFederatedSolution(r: Registry, nets: map<string, HostNetwork>, x: map<string, Vec>, V: Vec)
    requires V(|r.lines| - 1) == 0.0 && Solves(BoundaryMatrix(r), V, ZERO, |r.lines| - 1)
    requires forall h :: h in r.members ==> h in r.starts && h in nets && h in x
    requires forall h, i :: h in r.members && 0 <= i < nets[h].inner + |r.members[h].lines|
               ==> x[h](i) == HostVoltages(nets[h], Slice(V, r.starts[h]), |r.members[h].lines|)(i)
    ensures FederatedSolution(r, nets, x, V, ZERO)
  {
    hide Solves, BoundaryMatrix, HostVoltages;
  }

  /** Without injections no host and no tie line takes energy. */
  lemma NoEnergy(r: Registry, nets: map<string, HostNetwork>, x: map<string, Vec>, V: Vec, h: string)
    requires Physical(r, nets) && MonolithicSolution(r, nets, x, V) && h in r.members
    requires forall g, i :: g in r.members ==> nets[g].I(i) == 0.0
    ensures Ranged(r, h) && Quad(nets[h].A, x[h], nets[h].inner + |r.members[h].lines|) == 0.0
    ensures Quad(TieLaplacian(r.lines), V, |r.lines|) == 0.0
  {
    hide *;
    var f, n := TieEnergy(r.lines, V), |r.lines|;
    PhysicalParts(r, nets);
    forall g | g in r.members
      ensures g in r.starts && Sum(f, r.starts[g], r.starts[g] + |r.members[g].lines|) <= 0.0
    {
      HostFacts(r, nets, x, V, g);
      HostEnergy(r, nets, x, V, g);
      QuadNonNegative(nets[g].A, x[g], nets[g].inner + |r.members[g].lines|);
    }
    HostFacts(r, nets, x, V, h);
    HostEnergy(r, nets, x, V, h);
    QuadNonNegative(nets[h].A, x[h], nets[h].inner + |r.members[h].lines|);
    TieEnergyTotal(r.lines, V);
    PrefixShares(r, f, n, h);
  }

  lemma PhysicalParts(r: Registry, nets: map<string, HostNetwork>)
    requires Physical(r, nets)
    ensures Federated(r, nets) && Consistent(r) && DistinctIds(r.lines) && Mutual(r.lines) && RangeBegins(r, |r.lines|)
    ensures forall h :: h in r.members ==> h in nets && IsLaplacian(nets[h].A, nets[h].inner + |r.members[h].lines|)
  {
    hide Sent, DistinctIds, Mutual, IsLaplacian, AllLinked;
  }

  /** All boundary interfaces of a host are at one voltage, and so are both ends of a tie. */
  lemma Levels(r: Registry, nets: map<string, HostNetwork>, x: map<string, Vec>, V: Vec, h: string, i: int, j: int)
    requires Physical(r, nets) && MonolithicSolution(r, nets, x, V)
    requires forall g, i :: g in r.members ==> nets[g].I(i) == 0.0
    requires Owns(r, h, i) && Owns(r, h, j)
    ensures V(i) == V(j)
  {
    hide Federated, RowHolds, Quad;
    NoEnergy(r, nets, x, V, h);
    var net, n := nets[h], nets[h].inner + |r.members[h].lines|;
    var a, b := net.inner + (i - r.starts[h]), net.inner + (j - r.starts[h]);
    assert x[h](a) == V(i) && x[h](b) == V(j);
    assert Conducting(net, |r.members[h].lines|);
    SameLevel(net.A, x[h], n, a, b);
  }

  lemma TieLevels(r: Registry, nets: map<string, HostNetwork>, x: map<string, Vec>, V: Vec, h: string, i: int, j: int)
    requires Physical(r, nets) && MonolithicSolution(r, nets, x, V) && h in r.members
    requires forall g, i :: g in r.members ==> nets[g].I(i) == 0.0
    requires 0 <= i < |r.lines| && 0 <= j < |r.lines| && r.lines[i].partner == r.lines[j].id
    ensures V(i) == V(j)
  {
    hide RowHolds, Quad, Sent, Tiled, Listed;
    NoEnergy(r, nets, x, V, h);
    TiesAreLaplacian(r.lines);
    NoLossNoDifference(TieLaplacian(r.lines), V, |r.lines|, i, j);
  }

  lemma {:induction false} ChainLevel(r: Registry, nets: map<string, HostNetwork>, x: map<string, Vec>, V: Vec,
                                      p: seq<string>, i: int)
    requires Physical(r, nets) && MonolithicSolution(r, nets, x, V)
    requires forall g, i :: g in r.members ==> nets[g].I(i) == 0.0
    requires IsChain(r, p) && GroundHost(r, p[|p| - 1]) && Owns(r, p[0], i)
    ensures V(i) == 0.0
    decreases |p|
  {
    hide Physical, RowHolds;
    if |p| == 1 {
      Levels(r, nets, x, V, p[0], i, |r.lines| - 1);
    } else {
      assert ChainStep(r, p, 0);
      var a, b :| Owns(r, p[0], a) && Owns(r, p[1], b) && a < |r.lines| && b < |r.lines|
        && r.lines[a].partner == r.lines[b].id;
      Levels(r, nets, x, V, p[0], i, a);
      TieLevels(r, nets, x, V, p[0], a, b);
      var q := p[1..];
      assert q[|q| - 1] == p[|p| - 1];
      forall k | 0 <= k < |q| ensures ChainStep(r, q, k) {
        assert ChainStep(r, p, k + 1);
      }
      ChainLevel(r, nets, x, V, q, b);
    }
  }

  /** Main result: in a connected federation the matrix that the coordinator solves with, the
      boundary matrix without its last row and column, is nonsingular. */
  lemma {:induction false} BoundaryNonsingular(r: Registry, nets: map<string, HostNetwork>)
    requires Physical(r, nets) && ConnectedFederation(r)
    ensures Nonsingular(BoundaryMatrix(r), |r.lines| - 1)
  {
    var m := |r.lines| - 1;
    hide Consistent, BoundaryMatrix, MonolithicSolution, IsChain, Owns, Sent, ReachesGround;
    QuietPhysical(r, nets);
    forall z: Vec | Solves(BoundaryMatrix(r), z, ZERO, m) ensures Vanishes(z, m) {
      var q, V := Quiet(nets), Truncate(z, m);
      KernelSolution(r, nets, z);
      forall i | 0 <= i < m ensures z(i) == 0.0 {
        var h := OwnerOf(r, i);
        OwnerMember(r, h, i);
        ChainLevel(r, q, AllVoltages(r, q, V), V, ChainOf(r, h), i);
      }
    }
  }

  ghost function ChainOf(r: Registry, h: string): (p: seq<string>)
    requires ReachesGround(r, h)
    ensures IsGroundChain(r, p, h)
  {
    var p :| IsGroundChain(r, p, h); p
  }

  lemma OwnerMember(r: Registry, h: string, i: int)
    requires Owns(r, h, i)
    ensures h in r.members
  {}

  lemma QuietPhysical(r: Registry, nets: map<string, HostNetwork>)
    requires Physical(r, nets)
    ensures Physical(r, Quiet(nets)) && forall g, i :: g in r.members ==> Quiet(nets)[g].I(i) == 0.0
  {
    hide Federated, Conducting;
    QuietFederated(r, nets);
    InNets(r, nets);
    forall h | h in r.members ensures h in Quiet(nets) && Conducting(Quiet(nets)[h], |r.members[h].lines|) {
      QuietConducting(nets[h], |r.members[h].lines|);
    }
  }

  lemma QuietConducting(net: HostNetwork, b: int)
    requires Conducting(net, b)
    ensures Conducting(net.(I := ZERO), b)
  {
    hide IsLaplacian, AllLinked;
  }

  lemma InNets(r: Registry, nets: map<string, HostNetwork>)
    requires Federated(r, nets)
    ensures forall h :: h in r.members ==> h in nets
  {
    hide Sent, Consistent;
  }
}
