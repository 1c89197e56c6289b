/** What a host's calculation leaves in I, and what the updates that follow make of it: the first
    back substitution subtracts A1B VB from I in place, and a load update refills only the rows of
    interfaces with an appliance. */
module Leftovers {
  import opened Sums
  import opened LinearAlgebra
  import opened Laplacians
  import opened Woodbury
  import opened Gsl
  import opened Grids
  import opened LoadBalancing
  import opened Topology
  import opened Networks
  import opened Balancing
  import opened Injections
  import opened Assembly
  import opened Simulations
  import opened Federations
  import opened FederatedEnergy
  import opened SmallHosts
  import opened Reconstructions
  import opened HostRuns

  /** The host's network, with d missing from its injections. */
  function Short(net: HostNetwork, d: Vec): HostNetwork {
    net.(I := Minus(net.I, d))
  }

  // ----- voltages -----

  lemma ShortBackSubstitution(net: HostNetwork, d: Vec, v: Vec, b: int, i: int)
    ensures BackSubstitution(Short(net, d), v, b)(i)
      == BackSubstitution(net, v, b)(i) - Apply(net.A1_inv, d, net.inner)(i)
  {
    var s, t := SecondPhaseInput(A1B(net), net.I, v, b), SecondPhaseInput(A1B(Short(net, d)), Minus(net.I, d), v, b);
    hide Apply;
    forall j ensures t(j) == Minus(s, d)(j) {}
    RowExt(net.A1_inv, t, Minus(s, d), net.inner, i);
    ApplyMinus(net.A1_inv, s, d, net.inner, i);
  }

  lemma RowExt(A: Mat, x: Vec, y: Vec, n: int, i: int)
    requires forall j :: 0 <= j < n ==> x(j) == y(j)
    ensures Apply(A, x, n)(i) == Apply(A, y, n)(i)
  {
    DotExt(Row(A, i), Row(A, i), x, y, n);
  }

  /** The inverse maps no other vector to zero. */
  lemma InverseKernel(A: Mat, R: Mat, d: Vec, n: int)
    requires IsInverse(A, R, n)
    ensures Vanishes(Apply(R, d, n), n) <==> Vanishes(d, n)
  {
    InverseSolves(A, R, d, n);
    var u := Apply(R, d, n);
    if Vanishes(u, n) {
      forall i | 0 <= i < n ensures d(i) == 0.0 {
        SumZero(Times(Row(A, i), u), 0, n);
        assert Apply(A, u, n)(i) == d(i);
      }
    }
    if Vanishes(d, n) {
      forall i | 0 <= i < n ensures u(i) == 0.0 {
        SumZero(Times(Row(R, i), d), 0, n);
      }
    }
  }

  /** Main result: with d missing from the injections, back substitution returns the host's voltages
      if and only if nothing is missing in the interior. */
  lemma ShortVoltages(net: HostNetwork, d: Vec, v: Vec, b: nat)
    requires IsInverse(net.A, net.A1_inv, net.inner)
    ensures (forall i :: 0 <= i < net.inner + b ==> HostVoltages(Short(net, d), v, b)(i) == HostVoltages(net, v, b)(i))
       <==> Vanishes(d, net.inner)
  {
    hide IsInverse, Apply, BackSubstitution;
    InverseKernel(net.A, net.A1_inv, d, net.inner);
    var u := Apply(net.A1_inv, d, net.inner);
    forall i
      ensures HostVoltages(Short(net, d), v, b)(i) == HostVoltages(net, v, b)(i) - if i < net.inner then u(i) else 0.0
    {
      ShortBackSubstitution(net, d, v, b, i);
    }
  }

  // ----- corrections -----

  /** What is sent is short of the missing injections' share. */
  lemma ShortDeltaY(net: HostNetwork, d: Vec, k: int)
    ensures DeltaY(Short(net, d))(k) == DeltaY(net)(k) - SlaveVector(A1B(net), net.A1_inv, d, net.inner)(k)
  {
    var N := A1B(net);
    assert A1B(Short(net, d)) == N;
    ApplyMinus(SlaveGain(N, net.A1_inv, net.inner), net.I, d, net.inner, k);
  }

  /** The share of A1B v, weighted with v, is the energy of the voltages that it would cause in the
      interior. */
  lemma ShareEnergy(net: HostNetwork, v: Vec, b: nat)
    requires IsInverse(net.A, net.A1_inv, net.inner)
    ensures var d := Apply(A1B(net), v, b);
            Dot(v, SlaveVector(A1B(net), net.A1_inv, d, net.inner), b)
              == Quad(net.A, Apply(net.A1_inv, d, net.inner), net.inner)
  {
    var N, R, n := A1B(net), net.A1_inv, net.inner;
    var d := Apply(N, v, b);
    var u, e := Apply(R, d, n), SlaveVector(N, R, d, n);
    InverseSolves(net.A, R, d, n);
    hide IsInverse, Apply, Dot, Solves;
    forall k | 0 <= k < b ensures e(k) == Apply(Transpose(N), u, n)(k) {
      ApplyMatMul(Transpose(N), R, d, n, n, k);
    }
    DotExt(v, v, e, Apply(Transpose(N), u, n), b);
    Adjoint(Transpose(N), v, u, b, n);
    TwiceTransposed(N, v, b);
    SolvedAt(net.A, u, d, n);
    DotExt(Apply(Transpose(Transpose(N)), v, b), Apply(net.A, u, n), u, u, n);
    DotCommutes(Apply(net.A, u, n), u, n);
  }

  lemma TwiceTransposed(N: Mat, v: Vec, b: int)
    ensures forall i :: Apply(Transpose(Transpose(N)), v, b)(i) == Apply(N, v, b)(i)
  {
    forall i ensures Apply(Transpose(Transpose(N)), v, b)(i) == Apply(N, v, b)(i) {
      DotExt(Row(Transpose(Transpose(N)), i), Row(N, i), v, v, b);
    }
  }

  lemma SolvedAt(A: Mat, x: Vec, y: Vec, n: int)
    requires Solves(A, x, y, n)
    ensures forall i :: 0 <= i < n ==> Apply(A, x, n)(i) == y(i)
  {}

  /** Main result: if no row of the interior has been refilled, what a host sends afterwards is right
      if and only if the first back substitution had nothing to subtract. */
  lemma ShortSent(net: HostNetwork, v: Vec, b: nat)
    requires IsInverse(net.A, net.A1_inv, net.inner) && Conducting(net, b) && b > 0
    ensures var d := Apply(A1B(net), v, b);
            (forall k :: 0 <= k < b ==> DeltaY(Short(net, d))(k) == DeltaY(net)(k)) <==> Vanishes(d, net.inner)
  {
    var N, R, n := A1B(net), net.A1_inv, net.inner;
    var d := Apply(N, v, b);
    var u, e := Apply(R, d, n), SlaveVector(N, R, d, n);
    hide IsInverse, Apply, SlaveVector, DeltaY, IsLaplacian, AllLinked, Quad;
    InverseKernel(net.A, R, d, n);
    forall k ensures DeltaY(Short(net, d))(k) == DeltaY(net)(k) - e(k) {
      ShortDeltaY(net, d, k);
    }
    if Vanishes(d, n) {
      forall k | 0 <= k < b ensures e(k) == 0.0 {
        NothingSlave(N, R, d, n, k);
      }
    }
    if forall k :: 0 <= k < b ==> DeltaY(Short(net, d))(k) == DeltaY(net)(k) {
      assert Vanishes(e, b);
      ShareEnergy(net, v, b);
      SumZero(Times(v, e), 0, b);
      PartDefinite(net.A, u, n, n + b);
    }
  }

  lemma NothingSlave(N: Mat, R: Mat, d: Vec, n: int, k: int)
    requires Vanishes(d, n)
    ensures SlaveVector(N, R, d, n)(k) == 0.0
  {
    SumZero(Times(Row(SlaveGain(N, R, n), k), d), 0, n);
  }

  /** Only the interior part of the injections enters. */
  lemma SameInterior(net: HostNetwork, I: Vec, v: Vec, b: int)
    requires forall i :: 0 <= i < net.inner ==> I(i) == net.I(i)
    ensures forall k :: DeltaY(net.(I := I))(k) == DeltaY(net)(k)
    ensures forall i :: HostVoltages(net.(I := I), v, b)(i) == HostVoltages(net, v, b)(i)
  {
    var other := net.(I := I);
    assert A1B(other) == A1B(net);
    var s, t := SecondPhaseInput(A1B(net), I, v, b), SecondPhaseInput(A1B(net), net.I, v, b);
    hide Apply;
    forall k ensures DeltaY(other)(k) == DeltaY(net)(k) {
      RowExt(SlaveGain(A1B(net), net.A1_inv, net.inner), I, net.I, net.inner, k);
    }
    assert forall j :: 0 <= j < net.inner ==> s(j) == t(j);
    hide SecondPhaseInput;
    forall i ensures BackSubstitution(other, v, b)(i) == BackSubstitution(net, v, b)(i) {
      RowExt(net.A1_inv, s, t, net.inner, i);
    }
  }

  /** What an update computes from injections of which d is missing. */
  lemma ShortUpdate(net: HostNetwork, d: Vec, I: Vec, v: Vec, b: nat, U: Vec)
    requires IsInverse(net.A, net.A1_inv, net.inner) && forall i :: 0 <= i < net.inner ==> I(i) == net.I(i) - d(i)
    requires forall i :: 0 <= i < net.inner + b ==> U(i) == HostVoltages(net.(I := I), v, b)(i)
    ensures (forall i :: 0 <= i < net.inner + b ==> U(i) == HostVoltages(net, v, b)(i)) <==> Vanishes(d, net.inner)
  {
    hide IsInverse, HostVoltages, Vanishes, DeltaY;
    SameInterior(Short(net, d), I, v, b);
    ShortVoltages(net, d, v, b);
    assert Short(net, d).(I := I) == net.(I := I);
  }

  // ----- a boundary update after the calculation -----

  /** The first back substitution of a host, and a boundary update that follows it: the update is
      right if and only if the first one had nothing to subtract. */
  method BoundaryUpdateAfterCalculation(comp: DynamicComponent, VB0: array<real>, VB1: array<real>,
                                        ghost net: HostNetwork)
    returns (U0: array<real>, U1: array<real>)
    requires comp.Eliminated(net) && net.I == Contents(comp.I) && VB0 != comp.I && VB1 != comp.I
    requires VB0.Length == VB1.Length == |comp.boundary_set|
    modifies comp.I
    ensures U0.Length == U1.Length == comp.I.Length == net.inner + VB1.Length
    ensures forall i :: 0 <= i < U0.Length ==> U0[i] == HostVoltages(net, Contents(VB0), VB0.Length)(i)
    ensures (forall i :: 0 <= i < U1.Length ==> U1[i] == HostVoltages(net, Contents(VB1), VB1.Length)(i))
       <==> Vanishes(Apply(A1B(net), Contents(VB0), VB0.Length), net.inner)
  {
    hide *;
    ghost var b, v0, v1 := VB1.Length, Contents(VB0), Contents(VB1);
    EliminatedFacts(comp, net);
    U0 := comp.Substitute(VB0, net);
    ghost var d, I := Apply(A1B(net), v0, b), Contents(comp.I);
    ghost var after := net.(I := I);
    OtherInjections(comp, net, I);
    U1 := comp.DynamicCoordinatedBoundaryUpdate(VB1, after);
    SecondPhaseEntries(A1B(net), net.I, v0, b);
    ShortUpdate(net, d, I, v1, b, Contents(U1));
  }

  lemma OtherInjections(comp: DynamicComponent, net: HostNetwork, I: Vec)
    requires comp.Eliminated(net)
    ensures comp.Eliminated(net.(I := I)) && A1B(net.(I := I)) == A1B(net) && net.(I := I).I == I
  {
    hide IsInverse, Numbered, AtEnd, SlaveGain;
  }

  // ----- a load update after the calculation -----

  /** The adjacency list and the currents that the refilling loop looks up. */
  ghost predicate Known(ps: CurrentState, adj: AdjList, net: Network)
    reads ps`node_current
  {
    net.Valid() && ps.grid == net.g && adj == net.adj && forall id :: id in net.g.nodes ==> id in ps.node_current
  }

  /** The interface at index i has an appliance. */
  predicate WithAppliance(net: Network, i: int) {
    0 <= i < |net.order| && net.order[i] in net.adj && HasAppliance(net.g, net.adj[net.order[i]])
  }

  /** What is missing from I in the rows that are not refilled. */
  function Leftover(grid: Network, left: Vec): Vec {
    i => if WithAppliance(grid, i) then 0.0 else left(i)
  }

  /** One row: what stands in I is only replaced where an appliance is found. */
  method RefillRow(ps: CurrentState, adj: AdjList, pi: string, I: array<real>, i: nat, ghost net: Network)
    requires Known(ps, adj, net) && I.Length == |net.order| && i < |net.order| && net.order[i] == pi
    modifies I
    ensures pi in adj
    ensures forall r :: 0 <= r < I.Length
              ==> I[r] == if r == i then Accumulate(net.g, ps.node_current, adj[pi], old(I[i])).stored else old(I[r])
  {
    hide Network.Valid, Accumulate, IsSupply, IsDemand;
    NeighborFacts(net, i, -1);
    ghost var g, cur, before := net.g, ps.node_current, I[i];
    var ns, current := adj[pi], 0.0;
    NothingAccumulated(g, cur, ns, before);
    for k := 0 to |ns|
      invariant Accumulate(g, cur, ns[..k], before) == Accumulated(current, I[i])
      invariant forall r :: 0 <= r < I.Length && r != i ==> I[r] == old(I[r])
    {
      NeighborFacts(net, i, k);
      AccumulateNext(g, cur, ns, k, before);
      current := AddInjection(ps, ps.grid.nodes[ps.grid.nodeOf[ns[k]]], I, i, current);
    }
    assert ns[..|ns|] == ns;
  }

  lemma NothingAccumulated(g: Grid, cur: Currents, ns: seq<string>, before: real)
    ensures Accumulate(g, cur, ns[..0], before) == Accumulated(0.0, before)
  {}

  /** The loop that refills I in every load update. */
  method RefillInjections(ps: CurrentState, adj: AdjList, comp: DynamicComponent, ghost net: Network)
    requires comp.Valid() && Known(ps, adj, net) && |net.order| == comp.I.Length
    requires NumbersOf(net, comp.pi_index_mapping, comp.index_pi_mapping)
    requires net.order == NamesOf(comp.index_pi_mapping, |net.order|)
    modifies comp.I
    ensures forall i :: 0 <= i < comp.I.Length
              ==> comp.I[i] == if WithAppliance(net, i) then StoredInjections(net, ps.node_current)(i)
                               else old(comp.I[i])
  {
    hide Network.Valid, WithAppliance, StoredInjections, Accumulate, AtEnd, Numbered;
    for i := 0 to comp.I.Length
      invariant forall r :: 0 <= r < comp.I.Length
                  ==> comp.I[r] == if r < i && WithAppliance(net, r) then StoredInjections(net, ps.node_current)(r)
                                   else old(comp.I[r])
    {
      NameAt(net, comp.pi_index_mapping, comp.index_pi_mapping, i);
      NeighborFacts(net, i, -1);
      RefilledRow(net, ps.node_current, i, comp.I[i]);
      RefillRow(ps, adj, comp.index_pi_mapping[i], comp.I, i, net);
    }
  }

  lemma RefilledRow(net: Network, cur: Currents, i: int, before: real)
    requires 0 <= i < |net.order| && net.order[i] in net.adj
    ensures Accumulate(net.g, cur, net.adj[net.order[i]], before).stored
         == if WithAppliance(net, i) then StoredInjections(net, cur)(i) else before
    ensures !WithAppliance(net, i) ==> StoredInjections(net, cur)(i) == 0.0
  {
    var ns := net.adj[net.order[i]];
    StoredValue(net.g, cur, ns, before);
    StoredValue(net.g, cur, ns, 0.0);
    if !HasAppliance(net.g, ns) {
      NoApplianceNoCurrent(net.g, cur, ns);
    }
  }

  /** Main result: a load update and the boundary update that follows, of a host that left has been
      subtracted from. What is sent is short of the share of what is missing in the rows without an
      appliance, the voltages are right if and only if nothing is missing there, and it stays missing. */
  method LoadUpdate(ps: CurrentState, adj: AdjList, comp: DynamicComponent, VB: array<real>,
                    ghost grid: Network, ghost net: HostNetwork, ghost left: Vec)
    returns (deltaY: array<real>, U: array<real>, ghost asked: HostNetwork)
    requires comp.Eliminated(net) && VB != comp.I && VB.Length == |comp.boundary_set|
    requires Known(ps, adj, grid) && |grid.order| == comp.I.Length
    requires NumbersOf(grid, comp.pi_index_mapping, comp.index_pi_mapping)
    requires grid.order == NamesOf(comp.index_pi_mapping, |grid.order|)
    requires forall i :: 0 <= i < net.inner && !WithAppliance(grid, i) ==> Contents(comp.I)(i) == -left(i)
    modifies comp.I
    ensures comp.Eliminated(net) && asked == net.(I := StoredInjections(grid, ps.node_current))
    ensures deltaY.Length == VB.Length && U.Length == comp.I.Length == net.inner + VB.Length
    ensures forall k :: 0 <= k < deltaY.Length
              ==> deltaY[k] == DeltaY(asked)(k) - SlaveVector(A1B(net), net.A1_inv, Leftover(grid, left), net.inner)(k)
    ensures (forall i :: 0 <= i < U.Length ==> U[i] == HostVoltages(asked, Contents(VB), VB.Length)(i))
       <==> forall i :: 0 <= i < net.inner && !WithAppliance(grid, i) ==> left(i) == 0.0
    ensures forall i :: 0 <= i < net.inner && !WithAppliance(grid, i) ==> Contents(comp.I)(i) == -left(i)
  {
    hide *;
    ghost var b, v, rest := VB.Length, Contents(VB), Leftover(grid, left);
    EliminatedFacts(comp, net);
    ComponentValid(comp, net);
    RefillInjections(ps, adj, comp, grid);
    ghost var I := Contents(comp.I);
    asked := net.(I := StoredInjections(grid, ps.node_current));
    OtherInjections(comp, net, I);
    OtherInjections(comp, net, asked.I);
    RestIs(grid, ps.node_current, net.inner, left, I, rest);
    deltaY := comp.UpdatedCorrections(net.(I := I));
    U := comp.DynamicCoordinatedBoundaryUpdate(VB, net.(I := I));
    EliminatedFacts(comp, asked);
    ShortCorrections(asked, rest, I, Contents(deltaY), b);
    ShortUpdate(asked, rest, I, v, b, Contents(U));
    RestVanishes(grid, net.inner, left, rest);
  }

  /** Main result: a host's calculation and the first load update after it. */
  method LoadUpdateAfterCalculation(ps: CurrentState, adj: AdjList, comp: DynamicComponent, VB0: array<real>,
                                    VB1: array<real>, ghost grid: Network, ghost net: HostNetwork)
    returns (deltaY: array<real>, U: array<real>, ghost asked: HostNetwork)
    requires comp.Eliminated(net) && net.I == Contents(comp.I) && VB0 != comp.I && VB1 != comp.I
    requires VB0.Length == VB1.Length == |comp.boundary_set| && Known(ps, adj, grid) && |grid.order| == comp.I.Length
    requires NumbersOf(grid, comp.pi_index_mapping, comp.index_pi_mapping)
    requires grid.order == NamesOf(comp.index_pi_mapping, |grid.order|)
    requires forall i :: 0 <= i < net.inner && !WithAppliance(grid, i) ==> net.I(i) == 0.0
    modifies comp.I
    ensures asked == net.(I := StoredInjections(grid, ps.node_current))
    ensures deltaY.Length == VB1.Length && U.Length == comp.I.Length == net.inner + VB1.Length
    ensures var rest := Leftover(grid, Apply(A1B(net), Contents(VB0), VB0.Length));
            forall k :: 0 <= k < deltaY.Length
              ==> deltaY[k] == DeltaY(asked)(k) - SlaveVector(A1B(net), net.A1_inv, rest, net.inner)(k)
    ensures (forall i :: 0 <= i < U.Length ==> U[i] == HostVoltages(asked, Contents(VB1), VB1.Length)(i))
       <==> forall i :: 0 <= i < net.inner && !WithAppliance(grid, i)
              ==> Apply(A1B(net), Contents(VB0), VB0.Length)(i) == 0.0
    ensures comp.Eliminated(net)
    ensures forall i :: 0 <= i < net.inner && !WithAppliance(grid, i)
              ==> Contents(comp.I)(i) == -Apply(A1B(net), Contents(VB0), VB0.Length)(i)
  {
    hide *;
    ghost var v0 := Contents(VB0);
    EliminatedFacts(comp, net);
    var U0 := comp.Substitute(VB0, net);
    SecondPhaseEntries(A1B(net), net.I, v0, VB0.Length);
    deltaY, U, asked := LoadUpdate(ps, adj, comp, VB1, grid, net, Apply(A1B(net), v0, VB0.Length));
  }

  lemma ComponentValid(comp: DynamicComponent, net: HostNetwork)
    requires comp.Eliminated(net)
    ensures comp.Valid()
  {
    hide IsInverse, Numbered, AtEnd, SlaveGain;
  }

  lemma RestIs(grid: Network, cur: Currents, n: int, left: Vec, I: Vec, rest: Vec)
    requires rest == Leftover(grid, left) && n <= |grid.order|
    requires forall i :: 0 <= i < n
               ==> I(i) == if WithAppliance(grid, i) then StoredInjections(grid, cur)(i) else -left(i)
    ensures forall i :: 0 <= i < n ==> I(i) == StoredInjections(grid, cur)(i) - rest(i)
  {
    forall i | 0 <= i < n ensures I(i) == StoredInjections(grid, cur)(i) - rest(i) {
      if grid.order[i] in grid.adj {
        RefilledRow(grid, cur, i, 0.0);
      }
    }
  }

  lemma ShortCorrections(net: HostNetwork, d: Vec, I: Vec, dY: Vec, b: nat)
    requires forall i :: 0 <= i < net.inner ==> I(i) == net.I(i) - d(i)
    requires forall k :: 0 <= k < b ==> dY(k) == DeltaY(net.(I := I))(k)
    ensures forall k :: 0 <= k < b ==> dY(k) == DeltaY(net)(k) - SlaveVector(A1B(net), net.A1_inv, d, net.inner)(k)
  {
    hide HostVoltages, DeltaY, SlaveVector;
    SameInterior(Short(net, d), I, ZERO, b);
    forall k | 0 <= k < b ensures dY(k) == DeltaY(net)(k) - SlaveVector(A1B(net), net.A1_inv, d, net.inner)(k) {
      ShortDeltaY(net, d, k);
      assert Short(net, d).(I := I) == net.(I := I);
    }
  }

  lemma RestVanishes(grid: Network, n: int, left: Vec, rest: Vec)
    requires rest == Leftover(grid, left)
    ensures Vanishes(rest, n) <==> forall i :: 0 <= i < n && !WithAppliance(grid, i) ==> left(i) == 0.0
  {
    hide WithAppliance;
    forall i ensures rest(i) == if WithAppliance(grid, i) then 0.0 else left(i) {}
  }

  // ----- when nothing is left, and when something is -----

  /** A host that registers a single boundary interface is safe: that interface is the last one, whose
      voltage is 0. */
  lemma OneInterfaceLeavesNothing(net: HostNetwork, v: Vec)
    requires v(0) == 0.0
    ensures Vanishes(Apply(A1B(net), v, 1), net.inner)
  {
    forall i ensures Apply(A1B(net), v, 1)(i) == 0.0 {
      SumZero(Times(Row(A1B(net), i), v), 0, 1);
    }
  }

  /** A host without appliances, with one interface in the middle joined to two boundary interfaces, is
      told boundary voltages 5 and 0. It computes 2.5 in the middle, which is right; told
      the same voltages once more it computes 5, and sends corrections although it injects nothing. */
  lemma SubtractedTwice(v: Vec)
    requires v(0) == 5.0 && v(1) == 0.0
    ensures var net, rest := Fork(), Apply(A1B(Fork()), v, 2);
            && IsInverse(net.A, net.A1_inv, net.inner) && Conducting(net, 2) && !Vanishes(rest, net.inner)
            && HostVoltages(net, v, 2)(0) == 2.5 && HostVoltages(Short(net, rest), v, 2)(0) == 5.0
            && DeltaY(net)(0) == 0.0 && DeltaY(Short(net, rest))(0) == -2.5
  {
    var net, rest := Fork(), Apply(A1B(Fork()), v, 2);
    ForkConducts();
    ForkInverse();
    ForkVoltages(net, v);
    ForkVoltages(Short(net, rest), v);
    ForkDeltaY(net, 0);
    ForkDeltaY(Short(net, rest), 0);
    hide Conducting, IsInverse, BackSubstitution, DeltaY, Apply;
    assert rest(0) == -5.0 && Short(net, rest).I(0) == 5.0;
  }
}
