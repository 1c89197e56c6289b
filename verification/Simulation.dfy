/** The simulation of one component from end to end: balance the loads, number the switch
    interfaces, fill the matrices, calculate directly or over the servers, and read off the
    currents of the transmission lines. */
module Simulations {
  import opened Sums
  import opened LinearAlgebra
  import opened Laplacians
  import opened Woodbury
  import opened Gsl
  import opened Sequences
  import opened Grids
  import opened Topology
  import opened LoadBalancing
  import opened Networks
  import opened Injections
  import opened Balancing
  import opened Distribution
  import opened Assembly
  import opened ConnectedComponents

  /** The component of a grid with its adjacency lists: a class of connected interfaces in which
      everything that is wired to a switch interface and is none itself has no other neighbour. */
  ghost predicate IsComponent(g: Grid, adj: AdjList, component: seq<string>) {
    && g.Valid() && "" !in g.lines && adj.Keys == g.nodeOf.Keys && (forall p :: p in adj ==> adj[p] == g.Adjacency(p))
    && Distinct(component) && (forall p, q :: p in component ==> p in adj && (q in component <==> Reachable(adj, p, q)))
  }

  ghost predicate AppliancesAreLeaves(g: Grid, adj: AdjList, component: seq<string>) {
    forall p, q :: p in component && IsSwitchPi(g, p) && p in adj && q in adj[p] && !IsSwitchPi(g, q) && q in adj
      ==> forall r :: r in adj[q] ==> r == p
  }

  /** The components that the search finds are components in this sense. */
  lemma FoundComponents(g: Grid, adj: AdjList, components: seq<seq<string>>, k: int)
    requires g.Valid() && "" !in g.lines && adj.Keys == g.nodeOf.Keys
    requires (forall p :: p in adj ==> adj[p] == g.Adjacency(p))
    requires IsPartition(adj, components) && 0 <= k < |components|
    ensures IsComponent(g, adj, components[k])
  {
    hide Grid.Adjacency, Grid.Valid, Reachable;
  }

  /** order numbers the switch interfaces of the component. */
  ghost predicate Numbers(g: Grid, component: seq<string>, order: seq<string>) {
    Distinct(order) && forall p :: p in order <==> p in component && IsSwitchPi(g, p)
  }

  lemma NeighborInComponent(g: Grid, adj: AdjList, component: seq<string>, p: string, q: string)
    requires IsComponent(g, adj, component) && p in component && q in adj[p]
    ensures q in component
  {
    assert g.Adjacent(p, q);
    hide Grid.Adjacency, Grid.Valid, Reachable;
    AdjacencySymmetric(g, p, q);
    NeighborReachable(adj, p, q);
  }

  lemma NeighborReachable(adj: AdjList, p: string, q: string)
    requires p in adj && q in adj[p] && q in adj
    ensures Reachable(adj, p, q)
  {
    ReachableSelf(adj, adj.Keys, p);
    hide ReachableIn;
    ReachableStep(adj, adj.Keys, p, p, q);
  }

  /** A numbered component is a network that is connected without its appliances. */
  lemma {:induction false} ComponentIsNetwork(g: Grid, adj: AdjList, component: seq<string>, order: seq<string>)
    requires IsComponent(g, adj, component) && AppliancesAreLeaves(g, adj, component) && Numbers(g, component, order)
    ensures Network(g, adj, order).Valid() && Connected(Network(g, adj, order))
  {
    var net := Network(g, adj, order);
    hide Grid.Valid, Grid.Adjacency, Reachable;
    forall p, q | p in order && q in adj[p] ensures q in component {
      NeighborInComponent(g, adj, component, p, q);
    }
    assert net.Valid();
    hide Network.Valid;
    forall p, q | IsLeafLink(net, p, q) ensures forall r :: r in adj[q] ==> r == p {
      assert q in component && !IsSwitchPi(g, q);
    }
  }

  /** The injections as simulate stores them. */
  ghost function StoredInjections(net: Network, cur: Currents): Vec {
    i => if 0 <= i < |net.order| && net.order[i] in net.adj
         then Accumulate(net.g, cur, net.adj[net.order[i]], 0.0).stored else 0.0
  }

  // ----- from the filled arrays to the network -----

  lemma OnlySolutionExt(A: Mat, A': Mat, x: Vec, b: Vec, b': Vec, n: int)
    requires OnlySolution(A, x, b, n)
    requires forall i, j :: 0 <= i < n && 0 <= j < n ==> A(i, j) == A'(i, j)
    requires forall i :: 0 <= i < n ==> b(i) == b'(i)
    ensures OnlySolution(A', x, b', n)
  {
    hide Solves;
    SolvesExt(A, A', x, x, b, b', n);
    forall z: Vec | Solves(A', z, b', n) ensures forall i :: 0 <= i < n ==> z(i) == x(i) {
      SolvesExt(A', A, z, z, b', b, n);
    }
  }

  lemma PositiveDefiniteExt(A: Mat, A': Mat, n: int)
    requires PositiveDefinite(A, n)
    requires forall i, j :: 0 <= i < n && 0 <= j < n ==> A(i, j) == A'(i, j)
    ensures PositiveDefinite(A', n)
  {
    forall x: Vec ensures Quad(A, x, n) == Quad(A', x, n) {
      ApplyExt(A, A', x, x, n, n);
      DotExt(x, x, Apply(A, x, n), Apply(A', x, n), n);
    }
    hide Quad, Vanishes;
  }

  lemma CutMatrixExt(A: Mat, A': Mat, N: Mat, N': Mat, y: Vec, y': Vec, L: int, n: int)
    requires forall i, j :: 0 <= i < n && 0 <= j < n ==> A(i, j) == A'(i, j)
    requires forall i, k :: 0 <= i < n && 0 <= k < L ==> N(i, k) == N'(i, k)
    requires forall k :: 0 <= k < L ==> y(k) == y'(k)
    ensures forall i, j :: 0 <= i < n && 0 <= j < n ==> CutMatrix(A, N, y, L)(i, j) == CutMatrix(A', N', y', L)(i, j)
  {
    forall i, j | 0 <= i < n && 0 <= j < n ensures CutMatrix(A, N, y, L)(i, j) == CutMatrix(A', N', y', L)(i, j) {
      CutTermSame(N, N', y, y', L, i, j);
      hide CutTerm;
    }
  }

  /** The terms of an entry of N y_L N'. */
  function CutTerms(N: Mat, y: Vec, i: int, j: int): Vec {
    k => N(i, k) * y(k) * N(j, k)
  }

  lemma CutTermSame(N: Mat, N': Mat, y: Vec, y': Vec, L: int, i: int, j: int)
    requires forall k :: 0 <= k < L ==> N(i, k) == N'(i, k) && N(j, k) == N'(j, k) && y(k) == y'(k)
    ensures CutTerm(N, y, L)(i, j) == CutTerm(N', y', L)(i, j)
  {
    CutTermIs(N, y, L, i, j);
    CutTermIs(N', y', L, i, j);
    forall k | 0 <= k < L ensures CutTerms(N, y, i, j)(k) == CutTerms(N', y', i, j)(k) {
      SameTerm(N, N', y, y', i, j, k);
    }
    hide *;
    SumExt(CutTerms(N, y, i, j), CutTerms(N', y', i, j), 0, L);
  }

  lemma CutTermIs(N: Mat, y: Vec, L: int, i: int, j: int)
    ensures CutTerm(N, y, L)(i, j) == Sum(CutTerms(N, y, i, j), 0, L)
  {
    hide CutTerm;
    CutTermEntry(N, y, L, CutTerms(N, y, i, j), i, j);
  }

  lemma SameTerm(N: Mat, N': Mat, y: Vec, y': Vec, i: int, j: int, k: int)
    requires N(i, k) == N'(i, k) && N(j, k) == N'(j, k) && y(k) == y'(k)
    ensures CutTerms(N, y, i, j)(k) == CutTerms(N', y', i, j)(k)
  {}

  /** What the filled arrays hold. */
  ghost predicate HoldsNetwork(net: Network, cur: Currents, A: Mat, I: Vec)
    requires net.Valid()
  {
    && (forall i, j :: 0 <= i < |net.order| && 0 <= j < |net.order| ==> A(i, j) == net.Conductances()(i, j))
    && (forall i :: 0 <= i < |net.order| ==> I(i) == StoredInjections(net, cur)(i))
  }

  /** A direct calculation may invert what the arrays hold. */
  lemma HeldIsNonsingular(net: Network, cur: Currents, A: Mat, I: Vec)
    requires net.Valid() && Connected(net) && |net.order| > 0 && HoldsNetwork(net, cur, A, I)
    ensures Nonsingular(A, |net.order| - 1) && PositiveDefinite(A, |net.order| - 1)
  {
    hide Network.Valid, Connected, Network.Conductances, Nonsingular, PositiveDefinite;
    NetworkNonsingular(net);
    NonsingularExt(net.Conductances(), A, |net.order| - 1);
    PositiveDefiniteExt(net.Conductances(), A, |net.order| - 1);
  }

  /** What solves the held equations solves those of the network. */
  lemma HeldSolution(net: Network, cur: Currents, A: Mat, I: Vec, U: Vec)
    requires net.Valid() && HoldsNetwork(net, cur, A, I) && OnlySolution(A, U, I, |net.order| - 1)
    ensures OnlySolution(net.Conductances(), U, StoredInjections(net, cur), |net.order| - 1)
  {
    hide Network.Valid, Network.Conductances, OnlySolution, StoredInjections;
    OnlySolutionExt(A, net.Conductances(), U, I, StoredInjections(net, cur), |net.order| - 1);
  }

  /** The arrays of a component with lines between its servers can be calculated in parts. */
  lemma HeldIsSeparable(net: Network, cur: Currents, edging: seq<string>, starts: seq<int>, nums: seq<int>,
                        A: Mat, I: Vec, N: Mat, y: Vec)
    requires net.Valid() && Connected(net) && |net.order| > 0 && HoldsNetwork(net, cur, A, I)
    requires ListsEdging(net, edging)
    requires ServersFit(starts, nums, |net.order|) && |starts| > 0 && Served(net, starts + [|net.order|])
    requires forall i, k :: 0 <= i < |net.order| && 0 <= k < |edging| ==> N(i, k) == Incidence(net, edging)(i, k)
    requires forall k :: 0 <= k < |edging| ==> y(k) == LineConductance(net, edging)(k)
    ensures BlockDiagonal(CutMatrix(A, N, y, |edging|), Cut(starts, |net.order|), |net.order| - 1)
  {
    hide Network.Valid, Connected, Network.Conductances, ListsEdging, Incidence, LineConductance, CutMatrix;
    hide Tiles, ServersFit, BlockDiagonal;
    var n, L := |net.order|, |edging|;
    CutIsBlockDiagonal(net, edging, starts + [n]);
    var Y := CutMatrix(net.Conductances(), Incidence(net, edging), LineConductance(net, edging), L);
    CutMatrixExt(net.Conductances(), A, Incidence(net, edging), N, LineConductance(net, edging), y, L, n);
    ServedTiles(net, starts + [n]);
    BlockDiagonalExt(Y, CutMatrix(A, N, y, L), starts + [n], n);
    GroundedBlocks(CutMatrix(A, N, y, L), starts, nums, n);
  }

  lemma ServedTiles(net: Network, cut: seq<int>)
    requires net.Valid() && Served(net, cut)
    ensures Tiles(cut, |net.order|)
  {}

  // ----- the currents of the transmission lines -----

  /** Line l runs from switch interface i to switch interface j of another switch. */
  ghost predicate RunsBetween(net: Network, i: int, j: int, l: string) {
    && net.Coupled(i, j) && Joins(net, i, j, l, false)
    && l in net.g.lines && net.g.lines[l].lpeer == net.order[i] && net.g.lines[l].rpeer == net.order[j]
  }

  /** Ohm's law, with the GUI's direction of the line. */
  function OhmCurrent(u: real, v: real, resistor: real): real
    requires resistor != 0.0
  {
    (u - v) / resistor
  }

  /** Every transmission line carries the current its end voltages drive through it. */
  ghost predicate OhmsLaw(net: Network, line_current: Currents, U: Vec) {
    forall i, j, l :: RunsBetween(net, i, j, l) && net.g.lines[l].resistor > 0.0
      ==> l in line_current && line_current[l] == OhmCurrent(U(i), U(j), net.g.lines[l].resistor)
  }

  /** trans lists the transmission lines. */
  ghost predicate ListsTransmission(net: Network, trans: seq<string>) {
    Collects(net, trans, |net.order|, 0, false)
  }

  /** Both ends of a transmission line are numbered. */
  lemma TransmissionEnds(net: Network, trans: seq<string>, k: int)
    requires net.Valid() && ListsTransmission(net, trans) && 0 <= k < |trans|
    ensures trans[k] in net.g.lines && net.g.lines[trans[k]].resistor > 0.0
    ensures net.g.lines[trans[k]].lpeer in net.order && net.g.lines[trans[k]].rpeer in net.order
    ensures net.g.lines[trans[k]].lpeer != net.g.lines[trans[k]].rpeer
  {
    hide Network.Valid, Grid.LineBetween;
    assert Found(net, |net.order|, 0, trans[k], false);
    var a, b :| Met(net, |net.order|, 0, a, b) && Joins(net, a, b, trans[k], false);
    CoupledPair(net, a, b);
  }

  /** A line that runs between two numbered interfaces is listed. */
  lemma RunningIsListed(net: Network, trans: seq<string>, i: int, j: int, l: string)
    requires net.Valid() && ListsTransmission(net, trans) && RunsBetween(net, i, j, l)
    ensures l in trans
  {
    hide Network.Valid, Joins;
    assert Met(net, |net.order|, 0, i, j);
    assert Found(net, |net.order|, 0, l, false);
  }

  /** The voltage difference along a row with 1 at a and -1 at b; the grounded voltage is 0. */
  lemma {:induction false} BranchVoltage(row: Vec, U: Vec, a: int, b: int, n: int)
    requires 0 <= a <= n && 0 <= b <= n && a != b && U(n) == 0.0
    requires forall j :: 0 <= j < n ==> row(j) == if j == b then -1.0 else if j == a then 1.0 else 0.0
    ensures Dot(row, U, n) == U(a) - U(b)
  {
    var plus, minus := j => if j == a then U(a) else 0.0, j => if j == b then -U(b) else 0.0;
    SumAdd(plus, minus, Times(row, U), 0, n);
    if a < n { SumSingle(plus, a, 0, n); } else { SumZero(plus, 0, n); }
    if b < n { SumSingle(minus, b, 0, n); } else { SumZero(minus, 0, n); }
  }

  /** Entry j of the row of B for line l: 1 where the line begins, -1 where it ends. */
  function BranchEntry(net: Network, idx: map<string, int>, l: string, j: int): real {
    if l in net.g.lines && net.g.lines[l].rpeer in idx && j == idx[net.g.lines[l].rpeer] then -1.0
    else if l in net.g.lines && net.g.lines[l].lpeer in idx && j == idx[net.g.lines[l].lpeer] then 1.0
    else 0.0
  }

  lemma NumberOf(net: Network, idx: map<string, int>, p: string)
    requires net.Valid() && p in net.order
    requires forall i {:trigger net.order[i]} :: 0 <= i < |net.order| ==> net.order[i] in idx && idx[net.order[i]] == i
    ensures p in idx && 0 <= idx[p] < |net.order| && net.order[idx[p]] == p
  {}

  /** The ends of a transmission line, by number. */
  lemma BranchOf(net: Network, idx: map<string, int>, trans: seq<string>, k: int)
    requires net.Valid() && ListsTransmission(net, trans) && 0 <= k < |trans|
    requires forall i {:trigger net.order[i]} :: 0 <= i < |net.order| ==> net.order[i] in idx && idx[net.order[i]] == i
    ensures trans[k] in net.g.lines && net.g.lines[trans[k]].resistor > 0.0
    ensures var line := net.g.lines[trans[k]];
            && line.lpeer in idx && line.rpeer in idx && 0 <= idx[line.lpeer] < |net.order|
            && 0 <= idx[line.rpeer] < |net.order|
            && net.order[idx[line.lpeer]] == line.lpeer && net.order[idx[line.rpeer]] == line.rpeer
            && idx[line.lpeer] != idx[line.rpeer]
            && forall j :: BranchEntry(net, idx, trans[k], j)
                           == if j == idx[line.rpeer] then -1.0 else if j == idx[line.lpeer] then 1.0 else 0.0
  {
    hide Network.Valid, ListsTransmission;
    TransmissionEnds(net, trans, k);
    NumberOf(net, idx, net.g.lines[trans[k]].lpeer);
    NumberOf(net, idx, net.g.lines[trans[k]].rpeer);
  }

  method FillBranches(net: Network, idx: map<string, int>, trans: seq<string>) returns (B: array2<real>)
    requires net.Valid() && ListsTransmission(net, trans)
    requires forall i {:trigger net.order[i]} :: 0 <= i < |net.order| ==> net.order[i] in idx && idx[net.order[i]] == i
    ensures fresh(B) && B.Length0 == |trans| && B.Length1 == |net.order|
    ensures forall k, j :: 0 <= k < |trans| && 0 <= j < |net.order| ==> B[k, j] == BranchEntry(net, idx, trans[k], j)
  {
    hide *;
    B := ZeroMatrix(|trans|, |net.order|);
    for i := 0 to |trans|
      invariant forall k, j :: 0 <= k < |trans| && 0 <= j < |net.order|
                  ==> B[k, j] == if k < i then BranchEntry(net, idx, trans[k], j) else 0.0
    {
      BranchOf(net, idx, trans, i);
      var line := net.g.lines[trans[i]];
      var sw1, sw2 := idx[line.lpeer], idx[line.rpeer];
      B[i, sw1] := 1.0;
      B[i, sw2] := -1.0;
    }
  }

  /** What the branch matrix makes of the voltages. */
  lemma BranchDrop(net: Network, idx: map<string, int>, trans: seq<string>, k: int, B: Mat, U: Vec)
    requires net.Valid() && ListsTransmission(net, trans) && 0 <= k < |trans| && U(|net.order| - 1) == 0.0
    requires forall i {:trigger net.order[i]} :: 0 <= i < |net.order| ==> net.order[i] in idx && idx[net.order[i]] == i
    requires forall j :: 0 <= j < |net.order| ==> B(k, j) == BranchEntry(net, idx, trans[k], j)
    ensures trans[k] in net.g.lines && net.g.lines[trans[k]].resistor > 0.0
    ensures var line := net.g.lines[trans[k]];
            && line.lpeer in idx && line.rpeer in idx
            && Apply(B, U, |net.order| - 1)(k) == U(idx[line.lpeer]) - U(idx[line.rpeer])
  {
    hide Network.Valid, ListsTransmission, BranchEntry;
    BranchOf(net, idx, trans, k);
    var line := net.g.lines[trans[k]];
    BranchVoltage(Row(B, k), U, idx[line.lpeer], idx[line.rpeer], |net.order| - 1);
  }

  /** The listed lines carry what Ohm's law says; other lines what they carried. */
  ghost predicate CarriesCurrents(net: Network, idx: map<string, int>, trans: seq<string>, t: int, before: Currents,
                                  after: Currents, U: Vec) {
    && (forall k :: 0 <= k < t <= |trans| ==> CarriesCurrent(net, idx, trans[k], after, U))
    && (forall l :: l in before && l !in trans ==> l in after && after[l] == before[l])
  }

  ghost predicate CarriesCurrent(net: Network, idx: map<string, int>, l: string, after: Currents, U: Vec) {
    && l in net.g.lines && net.g.lines[l].lpeer in idx && net.g.lines[l].rpeer in idx && net.g.lines[l].resistor > 0.0
    && l in after
    && after[l] == OhmCurrent(U(idx[net.g.lines[l].lpeer]), U(idx[net.g.lines[l].rpeer]), net.g.lines[l].resistor)
  }

  lemma CarriesNext(net: Network, idx: map<string, int>, trans: seq<string>, t: int, before: Currents,
                    after: Currents, U: Vec, current: real)
    requires CarriesCurrents(net, idx, trans, t, before, after, U) && 0 <= t < |trans|
    requires CarriesCurrent(net, idx, trans[t], after[trans[t] := current], U)
    ensures CarriesCurrents(net, idx, trans, t + 1, before, after[trans[t] := current], U)
  {
    var after' := after[trans[t] := current];
    forall k | 0 <= k < t + 1 ensures CarriesCurrent(net, idx, trans[k], after', U) {
      if k < t { assert CarriesCurrent(net, idx, trans[k], after, U); }
    }
  }

  /** The end of both calculations: branch voltages B1 U, divided by the resistances. */
  method UpdateLineCurrents(ps: CurrentState, net: Network, idx: map<string, int>, trans: seq<string>, U: array<real>)
    requires net.Valid() && ListsTransmission(net, trans) && U.Length == |net.order| - 1
    requires forall i {:trigger net.order[i]} :: 0 <= i < |net.order| ==> net.order[i] in idx && idx[net.order[i]] == i
    modifies ps`line_current
    ensures OhmsLaw(net, ps.line_current, Contents(U))
    ensures forall l :: l in old(ps.line_current) && l !in trans
              ==> l in ps.line_current && ps.line_current[l] == old(ps.line_current)[l]
  {
    hide *;
    ghost var before, Uv := ps.line_current, Contents(U);
    GroundedVoltage(U);
    var B := FillBranches(net, idx, trans);
    var I_b := Dgemv(B, |trans|, |net.order| - 1, U);
    ghost var Bm := MatrixContents(B);
    CarriesNothing(net, idx, trans, before, Uv);
    for i := 0 to |trans|
      invariant forall k :: 0 <= k < |trans| ==> I_b[k] == Apply(Bm, Uv, |net.order| - 1)(k)
      invariant CarriesCurrents(net, idx, trans, i, before, ps.line_current, Uv)
    {
      BranchDrop(net, idx, trans, i, Bm, Uv);
      var resistor := net.g.lines[trans[i]].resistor;
      var current := I_b[i] / resistor;
      IsCurrent(net, idx, trans[i], ps.line_current[trans[i] := current], Uv, I_b[i], current);
      CarriesNext(net, idx, trans, i, before, ps.line_current, Uv, current);
      ps.line_current := ps.line_current[trans[i] := current];
    }
    CarriesAll(net, idx, trans, before, ps.line_current, Uv);
  }

  lemma GroundedVoltage(U: array<real>)
    ensures Contents(U)(U.Length) == 0.0
  {}

  lemma CarriesNothing(net: Network, idx: map<string, int>, trans: seq<string>, before: Currents, U: Vec)
    ensures CarriesCurrents(net, idx, trans, 0, before, before, U)
  {}

  lemma IsCurrent(net: Network, idx: map<string, int>, l: string, after: Currents, U: Vec, drop: real, current: real)
    requires l in net.g.lines && net.g.lines[l].lpeer in idx && net.g.lines[l].rpeer in idx
    requires net.g.lines[l].resistor > 0.0
    requires drop == U(idx[net.g.lines[l].lpeer]) - U(idx[net.g.lines[l].rpeer])
    requires l in after && after[l] == current == drop / net.g.lines[l].resistor
    ensures CarriesCurrent(net, idx, l, after, U)
  {}

  lemma CarriesAll(net: Network, idx: map<string, int>, trans: seq<string>, before: Currents, after: Currents, U: Vec)
    requires net.Valid() && ListsTransmission(net, trans) && CarriesCurrents(net, idx, trans, |trans|, before, after, U)
    requires forall i {:trigger net.order[i]} :: 0 <= i < |net.order| ==> net.order[i] in idx && idx[net.order[i]] == i
    ensures OhmsLaw(net, after, U)
    ensures forall l :: l in before && l !in trans ==> l in after && after[l] == before[l]
  {
    hide Network.Valid, ListsTransmission, CarriesCurrents, OhmCurrent, Joins, Network.Coupled;
    forall i, j, l | RunsBetween(net, i, j, l) && net.g.lines[l].resistor > 0.0
      ensures l in after && after[l] == OhmCurrent(U(i), U(j), net.g.lines[l].resistor)
    {
      CarriesOne(net, idx, trans, before, after, U, i, j, l);
    }
    OthersKeep(net, idx, trans, before, after, U);
  }

  lemma CarriesOne(net: Network, idx: map<string, int>, trans: seq<string>, before: Currents, after: Currents, U: Vec,
                   i: int, j: int, l: string)
    requires net.Valid() && ListsTransmission(net, trans) && CarriesCurrents(net, idx, trans, |trans|, before, after, U)
    requires forall i {:trigger net.order[i]} :: 0 <= i < |net.order| ==> net.order[i] in idx && idx[net.order[i]] == i
    requires RunsBetween(net, i, j, l) && net.g.lines[l].resistor > 0.0
    ensures l in after && after[l] == OhmCurrent(U(i), U(j), net.g.lines[l].resistor)
  {
    hide Network.Valid, ListsTransmission, OhmCurrent, Joins;
    RunningIsListed(net, trans, i, j, l);
    var k :| 0 <= k < |trans| && trans[k] == l;
    assert CarriesCurrent(net, idx, trans[k], after, U);
    assert 0 <= i < |net.order| && 0 <= j < |net.order|;
  }

  lemma OthersKeep(net: Network, idx: map<string, int>, trans: seq<string>, before: Currents, after: Currents, U: Vec)
    requires CarriesCurrents(net, idx, trans, |trans|, before, after, U)
    ensures forall l :: l in before && l !in trans ==> l in after && after[l] == before[l]
  {
    hide CarriesCurrent;
    assert trans[..|trans|] == trans;
  }

  // ----- the whole run -----

  /** Both filling loops. */
  method FillMatrices(ps: CurrentState, net: Network, idx: map<string, int>)
    returns (A: array2<real>, I: array<real>, trans: seq<string>, edging: seq<string>)
    requires Ready(ps, net, idx)
    ensures fresh(A) && fresh(I) && A.Length0 == A.Length1 == I.Length == |net.order|
    ensures net.Valid() && HoldsNetwork(net, ps.node_current, MatrixContents(A), Contents(I))
    ensures ListsTransmission(net, trans) && ListsEdging(net, edging)
  {
    hide *;
    A, I, trans, edging := FillRows(ps, net, idx);
    ghost var C := net.Coupling();
    RowsAreCouplings(net, ps.node_current, A, I, trans, edging);
    FillDiagonal(A, |net.order|, C);
    FilledHolds(net, ps.node_current, MatrixContents(A), Contents(I));
  }

  lemma RowsAreCouplings(net: Network, cur: Currents, A: array2<real>, I: array<real>, trans: seq<string>,
                         edging: seq<string>)
    requires net.Valid() && A.Length0 == A.Length1 == I.Length == |net.order|
    requires RowsDone(net, cur, MatrixContents(A), Contents(I), |net.order|)
    requires Collects(net, trans, |net.order|, 0, false) && Collects(net, edging, |net.order|, 0, true)
    ensures forall r, c :: 0 <= r < |net.order| && 0 <= c < |net.order| ==> A[r, c] == net.Coupling()(r, c)
    ensures forall r :: 0 <= r < |net.order| ==> Contents(I)(r) == StoredInjections(net, cur)(r)
    ensures ListsTransmission(net, trans) && ListsEdging(net, edging)
  {
    hide *;
    CollectsEdging(net, edging);
    AllListed(net, trans);
    var Am, Iv := MatrixContents(A), Contents(I);
    forall r | 0 <= r < |net.order| ensures Contents(I)(r) == StoredInjections(net, cur)(r) {
      RowIsCoupling(net, cur, Am, Iv, r);
    }
    forall r, c | 0 <= r < |net.order| && 0 <= c < |net.order| ensures A[r, c] == net.Coupling()(r, c) {
      RowIsCoupling(net, cur, Am, Iv, r);
    }
  }

  lemma AllListed(net: Network, trans: seq<string>)
    requires Collects(net, trans, |net.order|, 0, false)
    ensures ListsTransmission(net, trans)
  {}

  lemma RowIsCoupling(net: Network, cur: Currents, A: Mat, I: Vec, r: int)
    requires net.Valid() && RowsDone(net, cur, A, I, |net.order|) && 0 <= r < |net.order|
    ensures I(r) == StoredInjections(net, cur)(r)
    ensures forall c :: 0 <= c < |net.order| ==> A(r, c) == net.Coupling()(r, c)
  {
    hide Network.Valid, Network.Coupling, Accumulate;
    assert RowDone(net, cur, A, I, r, |net.order|);
  }

  lemma FilledHolds(net: Network, cur: Currents, A: Mat, I: Vec)
    requires net.Valid()
    requires forall r, c :: 0 <= r < |net.order| && 0 <= c < |net.order|
               ==> A(r, c) == if r == c then -Sum(Row(net.Coupling(), r), 0, |net.order|) else net.Coupling()(r, c)
    requires forall r :: 0 <= r < |net.order| ==> I(r) == StoredInjections(net, cur)(r)
    ensures HoldsNetwork(net, cur, A, I)
  {
    hide Network.Valid, Network.Coupling, StoredInjections;
  }

  /** Direct if no line joins two servers, otherwise over the servers; either way the voltages
      are the only ones that satisfy the equations of the network. */
  method Calculate(net: Network, ghost cur: Currents, idx: map<string, int>, A: array2<real>, I: array<real>,
                   edging: seq<string>, starts: seq<int>, nums: seq<int>)
    returns (component: ConnectedComponent, U: array<real>)
    requires net.Valid() && Connected(net) && |net.order| > 0 && A.Length0 == A.Length1 == I.Length == |net.order|
    requires HoldsNetwork(net, cur, MatrixContents(A), Contents(I)) && ListsEdging(net, edging)
    requires ServersFit(starts, nums, |net.order|) && |starts| > 0 && Served(net, starts + [|net.order|])
    requires forall i {:trigger net.order[i]} :: 0 <= i < |net.order| ==> net.order[i] in idx && idx[net.order[i]] == i
    modifies A
    ensures fresh(component) && fresh(U) && U.Length == |net.order| - 1
    ensures OnlySolution(net.Conductances(), Contents(U), StoredInjections(net, cur), |net.order| - 1)
  {
    hide *;
    ghost var held := MatrixContents(A);
    HeldIsNonsingular(net, cur, held, Contents(I));
    if |edging| > 0 {
      var y_L := FillLineConductances(net, edging);
      var N := FillIncidence(net, idx, edging);
      component := new ConnectedComponent(A, I, N, y_L, starts, nums);
      IsSeparable(net, cur, edging, component);
      ghost var R, x;
      U, R, x := component.DistributedCalculation();
    } else {
      var N := ZeroMatrix(1, 1);
      var y_L := ZeroMatrix(0, 0);
      component := new ConnectedComponent(A, I, N, y_L, starts, nums);
      IsGrounded(component);
      U := component.LocalCalculation();
    }
    HeldSolution(net, cur, held, Contents(I), Contents(U));
  }

  lemma IsGrounded(c: ConnectedComponent)
    requires c.switch_pi > 0 && c.A.Length0 == c.A.Length1 == c.I.Length == c.switch_pi
    ensures c.Grounded()
  {}

  lemma IsSeparable(net: Network, cur: Currents, edging: seq<string>, c: ConnectedComponent)
    requires net.Valid() && Connected(net) && c.switch_pi == |net.order| > 0 && ListsEdging(net, edging)
    requires c.A.Length0 == c.A.Length1 == c.I.Length == c.N.Length0 == |net.order| && c.A != c.N && c.A != c.y_L
    requires c.N.Length1 == c.y_L.Length0 == c.y_L.Length1 == |edging|
    requires HoldsNetwork(net, cur, MatrixContents(c.A), Contents(c.I))
    requires ServersFit(c.servers_start_index, c.servers_pis_num, |net.order|) && |c.servers_start_index| > 0
    requires Served(net, c.servers_start_index + [|net.order|])
    requires forall i, k :: 0 <= i < |net.order| && 0 <= k < |edging| ==> c.N[i, k] == Incidence(net, edging)(i, k)
    requires forall k, l :: 0 <= k < |edging| && 0 <= l < |edging|
               ==> c.y_L[k, l] == if k == l then LineConductance(net, edging)(k) else 0.0
    requires forall k :: 0 <= k < |edging| ==> LineConductance(net, edging)(k) > 0.0
    ensures c.Dimensioned() && c.Separable(MatrixContents(c.A))
  {
    hide Network.Valid, Connected, HoldsNetwork, ListsEdging, ServersFit, Served, Incidence, LineConductance;
    hide BlockDiagonal, CutMatrix, PositiveDefinite, Nonsingular;
    HeldIsNonsingular(net, cur, MatrixContents(c.A), Contents(c.I));
    HeldIsSeparable(net, cur, edging, c.servers_start_index, c.servers_pis_num, MatrixContents(c.A), Contents(c.I),
                    MatrixContents(c.N), DiagonalOf(c.y_L));
  }

  /** Nothing is divided by a desired total of zero. */
  ghost predicate CanBalance(g: Grid, component: seq<string>) {
    var s, d := DesiredSupplies(Nodes(g, component)), DesiredDemands(Nodes(g, component));
    Divisible(g, component, s >= d, if s >= d then s else d)
  }

  /** The whole run; its result in terms of the network's matrix. */
  method CalculateCurrents(ps: CurrentState, adj: AdjList, component: seq<string>)
    returns (order: seq<string>, trans: seq<string>, U: array<real>)
    requires IsComponent(ps.grid, adj, component) && AppliancesAreLeaves(ps.grid, adj, component)
    requires CanBalance(ps.grid, component) && forall id :: id in ps.grid.nodes ==> id in ps.node_current
    modifies ps`node_current, ps`line_current
    ensures Numbers(ps.grid, component, order) && InServerOrder(ps.grid, component, order)
    ensures HoldsShares(ps.grid, ps.node_current, component,
                        DesiredSupplies(Nodes(ps.grid, component)), DesiredDemands(Nodes(ps.grid, component)))
    ensures var net := Network(ps.grid, adj, order); net.Valid() && Connected(net) && ListsTransmission(net, trans)
    ensures U.Length == if trans == [] then 0 else |order| - 1
    ensures trans != [] ==> OnlySolution(Network(ps.grid, adj, order).Conductances(), Contents(U),
                                         StoredInjections(Network(ps.grid, adj, order), ps.node_current), |order| - 1)
    ensures OhmsLaw(Network(ps.grid, adj, order), ps.line_current, Contents(U))
    ensures ps.BalancedByRole(component)
  {
    hide *;
    ComponentIsKnown(ps.grid, adj, component);
    var _ := ps.LoadBalancing(component);
    var servers, groups, switch_pi := GroupByServer(ps.grid, component);
    OrderIsSwitches(ps.grid, component, servers, groups);
    var idx, pis, starts, nums := NumberInterfaces(groups);
    order, trans, U := Concat(groups), [], new real[0];
    IsNumbered(ps.grid, component, order);
    ComponentIsNetwork(ps.grid, adj, component, order);
    var net := Network(ps.grid, adj, order);
    IsReady(ps, net, idx, pis);
    if switch_pi <= 1 {
      NoTransmission(net, ps.line_current, Contents(U));
      return;
    }
    var A, I, edging;
    A, I, trans, edging := FillMatrices(ps, net, idx);
    if |trans| == 0 {
      NothingRuns(net, trans, ps.line_current, Contents(U));
      return;
    }
    RangesReady(net, component, servers, groups, starts, nums);
    var calculated;
    calculated, U := Calculate(net, ps.node_current, idx, A, I, edging, starts, nums);
    UpdateLineCurrents(ps, net, idx, trans, U);
  }

  /** Main result: after simulate every appliance holds its share, the voltages are the only ones
      that satisfy the grounded equations of the network of the component's switch interfaces, and
      every transmission line carries the current these voltages drive through it. Without a
      transmission line nothing is calculated. The last three clauses say the same of the grid alone:
      the roles and modes of its nodes, the flags of its switches, the ends and resistances of its lines. */
  method Simulate(ps: CurrentState, adj: AdjList, component: seq<string>)
    returns (order: seq<string>, trans: seq<string>, U: array<real>)
    requires IsComponent(ps.grid, adj, component) && AppliancesAreLeaves(ps.grid, adj, component)
    requires CanBalance(ps.grid, component) && forall id :: id in ps.grid.nodes ==> id in ps.node_current
    modifies ps`node_current, ps`line_current
    ensures Numbers(ps.grid, component, order) && InServerOrder(ps.grid, component, order)
    ensures HoldsShares(ps.grid, ps.node_current, component,
                        DesiredSupplies(Nodes(ps.grid, component)), DesiredDemands(Nodes(ps.grid, component)))
    ensures var net := Network(ps.grid, adj, order); net.Valid() && Connected(net) && ListsTransmission(net, trans)
    ensures U.Length == if trans == [] then 0 else |order| - 1
    ensures trans != [] ==> OnlySolution(Network(ps.grid, adj, order).Conductances(), Contents(U),
                                         StoredInjections(Network(ps.grid, adj, order), ps.node_current), |order| - 1)
    ensures OhmsLaw(Network(ps.grid, adj, order), ps.line_current, Contents(U))
    ensures ps.BalancedByRole(component)
    ensures ListsLines(ps.grid, order, trans) && OhmByEnds(ps.grid, order, trans, ps.line_current, Contents(U))
    ensures trans != [] ==> ObeysCurrentLaw(ps.grid, adj, component, order, trans, ps.node_current, ps.line_current,
                                            Contents(U))
  {
    order, trans, U := CalculateCurrents(ps, adj, component);
    hide *;
    var net := Network(ps.grid, adj, order);
    TransmissionLines(net, trans);
    OhmAtEnds(net, trans, ps.line_current, Contents(U));
    if trans != [] {
      TransmissionNeedsTwo(net, trans);
      GroundedVoltage(U);
      ObeysLaw(net, component, trans, ps.node_current, ps.line_current, Contents(U));
    }
  }

  /** A transmission line has two ends. */
  lemma TransmissionNeedsTwo(net: Network, trans: seq<string>)
    requires net.Valid() && ListsTransmission(net, trans) && trans != []
    ensures |net.order| > 0
  {
    hide Network.Valid, ListsTransmission;
    TransmissionEnds(net, trans, 0);
  }

  /** Kirchhoff's current law for what is stored: at every interface but the last it holds exactly unless a
      standing storage behind other appliances wiped out what they inject; where every switch interface has
      at most one appliance and every appliance one switch interface, it holds everywhere. */
  ghost predicate ObeysCurrentLaw(g: Grid, adj: AdjList, component: seq<string>, order: seq<string>,
                                  trans: seq<string>, cur: Currents, line_current: Currents, U: Vec) {
    && (forall i :: 0 <= i < |order| - 1
                    ==> && order[i] in adj
                        && (CurrentLaw(g, adj, order, trans, cur, line_current, U, i)
                            <==> !StandingLast(g, adj[order[i]]) || InjectedByRole(g, cur, adj[order[i]]) == 0.0))
    && (Wired(Network(g, adj, order), component) && NonNegative(Nodes(g, component))
        ==> forall i :: 0 <= i < |order| ==> CurrentLaw(g, adj, order, trans, cur, line_current, U, i))
  }

  lemma {:induction false} ObeysLaw(net: Network, component: seq<string>, trans: seq<string>, cur: Currents,
                                    line_current: Currents, U: Vec)
    requires net.Valid() && ListsTransmission(net, trans) && OhmsLaw(net, line_current, U)
    requires OnlySolution(net.Conductances(), U, StoredInjections(net, cur), |net.order| - 1)
    requires |net.order| > 0 && U(|net.order| - 1) == 0.0
    requires HoldsShares(net.g, cur, component, DesiredSupplies(Nodes(net.g, component)),
                         DesiredDemands(Nodes(net.g, component)))
    ensures ObeysCurrentLaw(net.g, net.adj, component, net.order, trans, cur, line_current, U)
  {
    hide Network.Valid, ListsTransmission, OhmsLaw, OnlySolution, HoldsShares, Wired, NonNegative, CurrentLaw;
    hide StandingLast, InjectedByRole;
    var g, adj, order := net.g, net.adj, net.order;
    forall i | 0 <= i < |order| - 1
      ensures order[i] in adj
      ensures CurrentLaw(g, adj, order, trans, cur, line_current, U, i)
         <==> !StandingLast(g, adj[order[i]]) || InjectedByRole(g, cur, adj[order[i]]) == 0.0
    {
      CurrentLawIff(net, trans, cur, line_current, U, i);
    }
    if Wired(Network(g, adj, order), component) && NonNegative(Nodes(g, component)) {
      forall i | 0 <= i < |order| ensures CurrentLaw(g, adj, order, trans, cur, line_current, U, i) {
        CurrentLawEverywhere(net, trans, cur, line_current, component, U, i);
      }
    }
  }

  lemma ComponentIsKnown(g: Grid, adj: AdjList, component: seq<string>)
    requires IsComponent(g, adj, component) && CanBalance(g, component)
    ensures Distinct(component) && Known(g, component) && (forall l :: l in g.lineOrder ==> l in g.lines)
    ensures forall p :: p in component ==> p in g.nodeOf && g.nodeOf[p] in g.nodes
    ensures var s, d := DesiredSupplies(Nodes(g, component)), DesiredDemands(Nodes(g, component));
            Divisible(g, component, s >= d, if s >= d then s else d)
  {
    hide Grid.Adjacency, Reachable, DesiredSupplies, DesiredDemands, Divisible, Nodes;
    LineFacts(g);
  }

  lemma IsNumbered(g: Grid, component: seq<string>, order: seq<string>)
    requires Distinct(order) && forall p :: p in order <==> p in component && IsSwitchPi(g, p)
    ensures Numbers(g, component, order)
  {
    hide Distinct, IsSwitchPi;
  }

  lemma IsReady(ps: CurrentState, net: Network, idx: map<string, int>, pis: map<int, string>)
    requires net.Valid() && ps.grid == net.g && NumberedBy(idx, pis, net.order)
    requires forall id :: id in net.g.nodes ==> id in ps.node_current
    ensures Ready(ps, net, idx)
    ensures forall i {:trigger net.order[i]} :: 0 <= i < |net.order| ==> net.order[i] in idx && idx[net.order[i]] == i
  {
    hide Network.Valid;
  }

  lemma RangesReady(net: Network, component: seq<string>, servers: seq<string>, groups: seq<seq<string>>,
                    starts: seq<int>, nums: seq<int>)
    requires net.Valid() && net.order == Concat(groups) && Grouped(net.g, component, servers, groups)
    requires Ranges(starts, nums, groups)
    requires |net.order| > 0
    ensures ServersFit(starts, nums, |net.order|) && |starts| > 0 && Served(net, starts + [|net.order|])
  {
    NonemptyGroups(net.g, component, servers, groups, starts, nums);
    hide *;
    RangesFit(starts, nums, groups);
    RangesServe(net, component, servers, groups, starts, nums);
  }

  lemma NonemptyGroups(g: Grid, component: seq<string>, servers: seq<string>, groups: seq<seq<string>>,
                       starts: seq<int>, nums: seq<int>)
    requires Grouped(g, component, servers, groups) && Ranges(starts, nums, groups) && |Concat(groups)| > 0
    ensures forall k {:trigger groups[k]} :: 0 <= k < |groups| ==> groups[k] != []
    ensures |starts| > 0
  {
    hide OnServer, Offset;
    SomeGroup(groups);
  }

  /** One switch interface alone has no transmission line. */
  lemma NoTransmission(net: Network, line_current: Currents, U: Vec)
    requires net.Valid() && |net.order| <= 1
    ensures ListsTransmission(net, []) && OhmsLaw(net, line_current, U)
  {
    forall i, j | net.Coupled(i, j) ensures false {
      CoupledFacts(net, i, j);
    }
    hide Network.Valid, Network.Coupled, Joins;
    assert Collects(net, [], |net.order|, 0, false);
    NothingRuns(net, [], line_current, U);
  }

  lemma NothingRuns(net: Network, trans: seq<string>, line_current: Currents, U: Vec)
    requires net.Valid() && ListsTransmission(net, trans) && trans == []
    ensures OhmsLaw(net, line_current, U)
  {
    hide Network.Valid, ListsTransmission, RunsBetween;
    forall i, j, l | RunsBetween(net, i, j, l) ensures false {
      RunningIsListed(net, trans, i, j, l);
    }
  }

  // ----- Kirchhoff's current law -----

  /** The current that a voltage drop drives through a coupling. */
  function Driven(coupling: real, drop: real): real {
    -coupling * drop
  }

  /** What flows from switch interface i to every other one. */
  ghost function Leaving(net: Network, U: Vec, i: int): Vec
    requires net.Valid()
  {
    j => Driven(net.Coupling()(i, j), U(i) - U(j))
  }

  lemma FlowTerm(c: real, u: real, v: real)
    ensures Driven(c, u - v) == c * v + -u * c
  {}

  lemma DiagonalTerm(a: real, c: real, u: real)
    ensures a * u == c * u + (a - c) * u
  {}

  /** A row whose diagonal entry is minus the sum of the others takes the differences. */
  lemma {:induction false} RowTakesDifferences(row: Vec, C: Vec, F: Vec, U: Vec, i: int, n: int)
    requires 0 <= i < n && C(i) == 0.0 && row(i) == -Sum(C, 0, n)
    requires forall j :: 0 <= j < n && j != i ==> row(j) == C(j)
    requires forall j :: 0 <= j < n ==> F(j) == Driven(C(j), U(i) - U(j))
    ensures Sum(F, 0, n) == Dot(row, U, n)
  {
    DiagonalPart(row, C, U, i, n);
    DifferencePart(C, F, U, i, n);
    Commutes(-Sum(C, 0, n), U(i));
  }

  lemma Commutes(a: real, u: real)
    ensures a * u == -u * -a
  {}

  lemma {:induction false} DiagonalPart(row: Vec, C: Vec, U: Vec, i: int, n: int)
    requires 0 <= i < n && C(i) == 0.0 && forall j :: 0 <= j < n && j != i ==> row(j) == C(j)
    ensures Dot(row, U, n) == Dot(C, U, n) + row(i) * U(i)
  {
    var u := row(i) * U(i);
    var self := j => if j == i then u else 0.0;
    forall j | 0 <= j < n ensures Times(row, U)(j) == Times(C, U)(j) + self(j) {
      DiagonalTerm(row(j), C(j), U(j));
    }
    hide Times;
    SumAdd(Times(C, U), self, Times(row, U), 0, n);
    SumSingle(self, i, 0, n);
  }

  lemma {:induction false} DifferencePart(C: Vec, F: Vec, U: Vec, i: int, n: int)
    requires forall j :: 0 <= j < n ==> F(j) == Driven(C(j), U(i) - U(j))
    ensures Sum(F, 0, n) == Dot(C, U, n) + -U(i) * Sum(C, 0, n)
  {
    assert Dot(C, U, n) == Sum(Times(C, U), 0, n);
    var scaled := Scaling(-U(i), C);
    hide *;
    forall j | 0 <= j < n ensures F(j) == Times(C, U)(j) + scaled(j) {
      DifferenceTerm(C, U, i, j);
    }
    ScalesBy(-U(i), C);
    SumScale(C, scaled, -U(i), 0, n);
    SumAdd(Times(C, U), scaled, F, 0, n);
  }

  function Scaling(c: real, C: Vec): Vec {
    j => c * C(j)
  }

  lemma ScalesBy(c: real, C: Vec)
    ensures forall j :: Scaling(c, C)(j) == c * C(j)
  {}

  lemma DifferenceTerm(C: Vec, U: Vec, i: int, j: int)
    ensures Driven(C(j), U(i) - U(j)) == Times(C, U)(j) + Scaling(-U(i), C)(j)
  {
    FlowTerm(C(j), U(i), U(j));
  }

  lemma {:induction false} FlowsAreRow(net: Network, U: Vec, i: int)
    requires net.Valid() && 0 <= i < |net.order|
    ensures Sum(Leaving(net, U, i), 0, |net.order|) == Apply(net.Conductances(), U, |net.order|)(i)
  {
    hide Network.Valid, Network.Coupling;
    SelfCoupling(net, i);
    RowTakesDifferences(Row(net.Conductances(), i), Row(net.Coupling(), i), Leaving(net, U, i), U, i, |net.order|);
  }

  /** A solution of all equations lets leave every switch interface what is injected there. */
  lemma {:induction false} FlowsBalance(net: Network, U: Vec, b: Vec, i: int)
    requires net.Valid() && Solves(net.Conductances(), U, b, |net.order|) && 0 <= i < |net.order|
    ensures Sum(Leaving(net, U, i), 0, |net.order|) == b(i)
  {
    FlowsAreRow(net, U, i);
    assert Apply(net.Conductances(), U, |net.order|)(i) == b(i);
  }

  lemma SelfCoupling(net: Network, i: int)
    requires net.Valid()
    ensures net.Coupling()(i, i) == 0.0
  {
    hide Network.Valid, Network.Weight;
    if net.Coupled(i, i) { CoupledFacts(net, i, i); }
  }

  lemma {:induction false} StoredIsInjected(net: Network, cur: Currents, component: seq<string>, i: int)
    requires Wired(net, component)
    ensures StoredInjections(net, cur)(i) == InjectionVector(net, cur)(i)
  {
    if 0 <= i < |net.order| {
      OneApplianceIsStored(net.g, cur, net.adj[net.order[i]]);
    }
  }

  /** Main result: what simulate computes satisfies Kirchhoff's current law everywhere, also at
      the grounded interface whose equation was never solved. */
  lemma {:induction false} KirchhoffEverywhere(net: Network, cur: Currents, component: seq<string>, U: Vec, i: int)
    requires net.Valid() && |net.order| > 0 && Wired(net, component) && NonNegative(Nodes(net.g, component))
    requires HoldsShares(net.g, cur, component, DesiredSupplies(Nodes(net.g, component)),
                         DesiredDemands(Nodes(net.g, component)))
    requires OnlySolution(net.Conductances(), U, StoredInjections(net, cur), |net.order| - 1)
    requires U(|net.order| - 1) == 0.0
    requires 0 <= i < |net.order|
    ensures Sum(Leaving(net, U, i), 0, |net.order|) == NetCurrent(net.g, cur, net.adj[net.order[i]])
  {
    hide Network.Valid, Network.Conductances, StoredInjections, InjectionVector, Wired, NonNegative, HoldsShares;
    hide Leaving, Solves;
    forall k ensures StoredInjections(net, cur)(k) == InjectionVector(net, cur)(k) {
      StoredIsInjected(net, cur, component, k);
    }
    var b, n := InjectionVector(net, cur), |net.order|;
    SolvesExt(net.Conductances(), net.Conductances(), U, U, StoredInjections(net, cur), b, n - 1);
    GroundedRowHolds(net, cur, component, U);
    FlowsBalance(net, U, b, i);
    IsInjection(net, cur, i);
  }

  lemma IsInjection(net: Network, cur: Currents, i: int)
    requires net.Valid() && 0 <= i < |net.order|
    ensures net.order[i] in net.adj && InjectionVector(net, cur)(i) == NetCurrent(net.g, cur, net.adj[net.order[i]])
  {}

  // ----- the laws in terms of what is stored -----

  /** The current of every listed line that begins at p. */
  function BeginningAt(g: Grid, trans: seq<string>, line_current: Currents, p: string): Vec {
    k => if 0 <= k < |trans| && trans[k] in g.lines && g.lines[trans[k]].lpeer == p && trans[k] in line_current
         then line_current[trans[k]] else 0.0
  }

  /** The current of every listed line that ends at p. */
  function EndingAt(g: Grid, trans: seq<string>, line_current: Currents, p: string): Vec {
    k => if 0 <= k < |trans| && trans[k] in g.lines && g.lines[trans[k]].rpeer == p && trans[k] in line_current
         then line_current[trans[k]] else 0.0
  }

  /** The voltage difference between interface i and every other one that its switch joins to it. */
  ghost function Inside(g: Grid, order: seq<string>, U: Vec, i: int): Vec {
    j => if 0 <= i < |order| && 0 <= j < |order| && order[i] in g.nodeOf && order[j] in g.nodeOf
            && g.nodeOf[order[i]] == g.nodeOf[order[j]] && WiredOrJoined(g, order[i], order[j])
         then U(i) - U(j) else 0.0
  }

  /** What leaves switch interface i: along the lines that begin there, less what arrives along those that end
      there, and inside the switch. */
  ghost function Outflow(g: Grid, order: seq<string>, trans: seq<string>, line_current: Currents, U: Vec, i: int): real
    requires 0 <= i < |order|
  {
    Sum(BeginningAt(g, trans, line_current, order[i]), 0, |trans|)
    - Sum(EndingAt(g, trans, line_current, order[i]), 0, |trans|) + Sum(Inside(g, order, U, i), 0, |order|)
  }

  /** l is line k of the order and joins two switch interfaces of different switches; no later line does. */
  ghost predicate IsTransmissionAt(g: Grid, order: seq<string>, k: int, l: string) {
    && 0 <= k < |g.lineOrder| && g.lineOrder[k] == l && l in g.lines
    && var p, q := g.lines[l].lpeer, g.lines[l].rpeer;
       && p in order && q in order && p in g.nodeOf && q in g.nodeOf && g.nodeOf[p] != g.nodeOf[q]
       && forall j :: k < j ==> !Between(g, p, q, j)
  }

  ghost predicate ListsLines(g: Grid, order: seq<string>, trans: seq<string>) {
    Distinct(trans) && forall l :: l in trans <==> exists k :: IsTransmissionAt(g, order, k, l)
  }

  /** A line that is listed as a transmission line runs from the one end to the other. */
  lemma {:induction false} ListedRuns(net: Network, trans: seq<string>, i: int, j: int, l: string)
    requires net.Valid() && ListsTransmission(net, trans) && l in trans && l in net.g.lines
    requires 0 <= i < |net.order| && net.g.lines[l].lpeer == net.order[i]
    requires 0 <= j < |net.order| && net.g.lines[l].rpeer == net.order[j]
    ensures RunsBetween(net, i, j, l) && net.g.lines[l].resistor > 0.0
  {
    hide Network.Valid, Grid.LineBetween;
    assert Found(net, |net.order|, 0, l, false);
    var a, b :| Met(net, |net.order|, 0, a, b) && Joins(net, a, b, l, false);
    CoupledPair(net, a, b);
    CoupledFacts(net, a, b);
    NeighborFacts(net, a, -1);
    ValidGrid(net);
    SameIndex(net.order, a, i);
    SameIndex(net.order, b, j);
    SameIndex(net.order, a, j);
    SameIndex(net.order, b, i);
    LineBetweenFound(net.g, net.order[a], net.order[b], |net.g.lineOrder|);
  }

  /** Seen from either end, the line takes its current out or brings it in. */
  lemma {:induction false} LineTakes(net: Network, line_current: Currents, U: Vec, i: int, j: int, l: string)
    requires net.Valid() && OhmsLaw(net, line_current, U) && RunsBetween(net, i, j, l)
    requires net.g.lines[l].resistor > 0.0
    ensures l in line_current && Leaving(net, U, i)(j) == line_current[l] && Leaving(net, U, j)(i) == -line_current[l]
    ensures line_current[l] * net.g.lines[l].resistor == U(i) - U(j)
  {
    hide Network.Valid, Grid.LineBetween;
    CoupledFacts(net, i, j);
    var r := net.g.lines[l].resistor;
    assert net.Coupling()(i, j) == net.Coupling()(j, i) == -1.0 / r;
    Conducts(U(i), U(j), r);
  }

  lemma Conducts(u: real, v: real, r: real)
    requires r > 0.0
    ensures -(-1.0 / r) * (u - v) == OhmCurrent(u, v, r) && -(-1.0 / r) * (v - u) == -OhmCurrent(u, v, r)
    ensures OhmCurrent(u, v, r) * r == u - v
  {
    assert -(-1.0 / r) == 1.0 / r;
  }

  /** Line l runs between i and j, in either direction. */
  ghost predicate RunsAlong(net: Network, i: int, j: int, l: string) {
    RunsBetween(net, i, j, l) || RunsBetween(net, j, i, l)
  }

  /** What leaves i along lines, by the far end. */
  ghost function Across(net: Network, U: Vec, i: int): Vec
    requires net.Valid()
  {
    j => if net.Coupled(i, j) && net.order[i] in net.g.nodeOf && net.order[j] in net.g.nodeOf
            && net.g.nodeOf[net.order[i]] != net.g.nodeOf[net.order[j]]
         then Leaving(net, U, i)(j) else 0.0
  }

  lemma CoupledIsWired(net: Network, i: int, j: int)
    requires net.Valid() && 0 <= i < |net.order| && 0 <= j < |net.order|
    ensures net.Coupled(i, j) <==> WiredOrJoined(net.g, net.order[i], net.order[j])
    ensures net.order[i] in net.g.nodeOf && net.order[j] in net.g.nodeOf
  {
    AdjacentByFlagOrLine(net.g, net.order[i], net.order[j]);
    hide WiredOrJoined, Grid.Adjacency, Grid.Valid;
    assert net.order[i] in net.order && net.order[j] in net.order;
  }

  lemma LeavesInOrAcross(net: Network, U: Vec, i: int, j: int)
    requires net.Valid() && 0 <= i < |net.order| && 0 <= j < |net.order|
    ensures Leaving(net, U, i)(j) == Inside(net.g, net.order, U, i)(j) + Across(net, U, i)(j)
  {
    CoupledIsWired(net, i, j);
    LeavesInside(net, U, i, j);
    hide Network.Valid, Network.Coupled, Leaving, WiredOrJoined;
  }

  lemma LeavesInside(net: Network, U: Vec, i: int, j: int)
    requires net.Valid() && 0 <= i < |net.order| && 0 <= j < |net.order|
    ensures !net.Coupled(i, j) ==> Leaving(net, U, i)(j) == 0.0
    ensures net.Coupled(i, j) ==> net.order[i] in net.g.nodeOf && net.order[j] in net.g.nodeOf
    ensures net.Coupled(i, j) && net.g.nodeOf[net.order[i]] == net.g.nodeOf[net.order[j]]
        ==> Leaving(net, U, i)(j) == U(i) - U(j)
  {
    hide *;
    InsideCoupling(net, i, j);
    UnitFlow(net.Coupling()(i, j), U(i) - U(j));
    IsLeaving(net, U, i, j);
  }

  lemma IsLeaving(net: Network, U: Vec, i: int, j: int)
    requires net.Valid()
    ensures Leaving(net, U, i)(j) == Driven(net.Coupling()(i, j), U(i) - U(j))
  {
    hide Network.Coupling;
  }

  lemma InsideCoupling(net: Network, i: int, j: int)
    requires net.Valid() && 0 <= i < |net.order| && 0 <= j < |net.order|
    ensures !net.Coupled(i, j) ==> net.Coupling()(i, j) == 0.0
    ensures net.Coupled(i, j) ==> net.order[i] in net.g.nodeOf && net.order[j] in net.g.nodeOf
    ensures net.Coupled(i, j) && net.g.nodeOf[net.order[i]] == net.g.nodeOf[net.order[j]]
        ==> net.Coupling()(i, j) == -1.0
  {
    hide Network.Valid, Grid.LineBetween;
    if net.Coupled(i, j) {
      CoupledFacts(net, i, j);
    }
  }

  lemma UnitFlow(c: real, drop: real)
    ensures c == 0.0 ==> Driven(c, drop) == 0.0
    ensures c == -1.0 ==> Driven(c, drop) == drop
  {}

  lemma {:induction false} FlowsInOrAcross(net: Network, U: Vec, i: int)
    requires net.Valid() && 0 <= i < |net.order|
    ensures Sum(Leaving(net, U, i), 0, |net.order|)
         == Sum(Inside(net.g, net.order, U, i), 0, |net.order|) + Sum(Across(net, U, i), 0, |net.order|)
  {
    hide Network.Valid, Leaving, Inside, Across;
    forall j | 0 <= j < |net.order|
      ensures Leaving(net, U, i)(j) == Inside(net.g, net.order, U, i)(j) + Across(net, U, i)(j)
    {
      LeavesInOrAcross(net, U, i, j);
    }
    SumAdd(Inside(net.g, net.order, U, i), Across(net, U, i), Leaving(net, U, i), 0, |net.order|);
  }

  /** What line k of the list takes from i to j. */
  ghost function AlongLine(net: Network, trans: seq<string>, U: Vec, i: int): Mat
    requires net.Valid()
  {
    (j, k) => if 0 <= k < |trans| && RunsAlong(net, i, j, trans[k]) then Leaving(net, U, i)(j) else 0.0
  }

  /** Between two interfaces runs the one line that was found for them. */
  lemma AlongFound(net: Network, i: int, j: int, l: string)
    requires net.Valid()
    ensures RunsAlong(net, i, j, l)
       <==> && net.Coupled(i, j) && net.g.nodeOf[net.order[i]] != net.g.nodeOf[net.order[j]]
            && (forall l :: l in net.g.lineOrder ==> l in net.g.lines)
            && l == net.g.LineBetween(net.order[i], net.order[j], |net.g.lineOrder|)
  {
    hide Network.Valid, Grid.LineBetween;
    if net.Coupled(i, j) || net.Coupled(j, i) {
      if net.Coupled(i, j) { CoupledPair(net, i, j); CoupledFacts(net, i, j); }
      if net.Coupled(j, i) { CoupledPair(net, j, i); CoupledFacts(net, j, i); }
      ValidGrid(net);
      LineBetweenFound(net.g, net.order[i], net.order[j], |net.g.lineOrder|);
    }
  }

  lemma RunsListed(net: Network, trans: seq<string>, i: int, j: int, l: string)
    requires net.Valid() && ListsTransmission(net, trans) && RunsAlong(net, i, j, l)
    ensures exists k :: 0 <= k < |trans| && trans[k] == l
  {
    hide Network.Valid, ListsTransmission, RunsBetween;
    if RunsBetween(net, i, j, l) {
      RunningIsListed(net, trans, i, j, l);
    } else {
      RunningIsListed(net, trans, j, i, l);
    }
  }

  /** What leaves i towards j runs along one listed line. */
  lemma {:induction false} AcrossIsRow(net: Network, trans: seq<string>, U: Vec, i: int, j: int)
    requires net.Valid() && ListsTransmission(net, trans) && 0 <= i < |net.order| && 0 <= j < |net.order|
    ensures Across(net, U, i)(j) == Sum(k => AlongLine(net, trans, U, i)(j, k), 0, |trans|)
  {
    hide Network.Valid, ListsTransmission, Leaving, RunsAlong, Across, AlongLine;
    var f := k => AlongLine(net, trans, U, i)(j, k);
    forall k | 0 <= k < |trans|
      ensures f(k) == if RunsAlong(net, i, j, trans[k]) then Leaving(net, U, i)(j) else 0.0
    {
      AlongCell(net, trans, U, i, j, k);
    }
    if l :| RunsAlong(net, i, j, l) {
      RunsListed(net, trans, i, j, l);
      var k0 :| 0 <= k0 < |trans| && trans[k0] == l;
      forall k | 0 <= k < |trans| && k != k0 ensures f(k) == 0.0 {
        if RunsAlong(net, i, j, trans[k]) {
          OneAlong(net, i, j, l, trans[k]);
          OnlyListed(net, trans, k0, k);
        }
      }
      AcrossAlong(net, U, i, j, l);
      SumSingle(f, k0, 0, |trans|);
    } else {
      NothingAlong(net, U, i, j);
      SumZero(f, 0, |trans|);
    }
  }

  lemma AlongCell(net: Network, trans: seq<string>, U: Vec, i: int, j: int, k: int)
    requires net.Valid() && 0 <= k < |trans|
    ensures AlongLine(net, trans, U, i)(j, k)
         == if RunsAlong(net, i, j, trans[k]) then Leaving(net, U, i)(j) else 0.0
  {}

  lemma OneAlong(net: Network, i: int, j: int, l: string, m: string)
    requires net.Valid() && RunsAlong(net, i, j, l) && RunsAlong(net, i, j, m)
    ensures l == m
  {
    AlongFound(net, i, j, l);
    AlongFound(net, i, j, m);
  }

  lemma AcrossAlong(net: Network, U: Vec, i: int, j: int, l: string)
    requires net.Valid() && RunsAlong(net, i, j, l) && 0 <= i < |net.order| && 0 <= j < |net.order|
    ensures Across(net, U, i)(j) == Leaving(net, U, i)(j)
  {
    AlongFound(net, i, j, l);
    CoupledIsWired(net, i, j);
    hide Network.Valid, Leaving, RunsAlong, Grid.LineBetween, WiredOrJoined;
  }

  lemma NothingAlong(net: Network, U: Vec, i: int, j: int)
    requires net.Valid() && (forall l :: !RunsAlong(net, i, j, l)) && 0 <= i < |net.order| && 0 <= j < |net.order|
    ensures Across(net, U, i)(j) == 0.0
  {
    NeighborFacts(net, i, -1);
    AlongFound(net, i, j, net.g.LineBetween(net.order[i], net.order[j], |net.g.lineOrder|));
    hide Network.Valid, Leaving, RunsAlong, Grid.LineBetween;
  }

  lemma OnlyListed(net: Network, trans: seq<string>, k: int, m: int)
    requires ListsTransmission(net, trans) && 0 <= k < |trans| && 0 <= m < |trans|
    ensures trans[k] == trans[m] <==> k == m
  {
    SameIndex(trans, k, m);
  }

  /** The current of line k, counted from i. */
  lemma {:induction false} LineIsColumn(net: Network, trans: seq<string>, line_current: Currents, U: Vec, i: int,
                                        k: int)
    requires net.Valid() && ListsTransmission(net, trans) && OhmsLaw(net, line_current, U)
    requires 0 <= i < |net.order| && 0 <= k < |trans|
    ensures BeginningAt(net.g, trans, line_current, net.order[i])(k)
            - EndingAt(net.g, trans, line_current, net.order[i])(k)
         == Sum(j => AlongLine(net, trans, U, i)(j, k), 0, |net.order|)
  {
    hide Network.Valid, ListsTransmission, OhmsLaw, Leaving, RunsBetween, RunsAlong, AlongLine;
    var n, f := |net.order|, j => AlongLine(net, trans, U, i)(j, k);
    TransmissionEnds(net, trans, k);
    var l := trans[k];
    var a :| 0 <= a < n && net.order[a] == net.g.lines[l].lpeer;
    var b :| 0 <= b < n && net.order[b] == net.g.lines[l].rpeer;
    ListedRuns(net, trans, a, b, l);
    LineTakes(net, line_current, U, a, b, l);
    forall j ensures f(j) == if (i == a && j == b) || (i == b && j == a) then Leaving(net, U, i)(j) else 0.0 {
      AlongEnds(net, a, b, i, j, l);
      AlongCell(net, trans, U, i, j, k);
    }
    NumberedOnce(net, a, i);
    NumberedOnce(net, b, i);
    if i == a {
      SumSingle(f, b, 0, n);
    } else if i == b {
      SumSingle(f, a, 0, n);
    } else {
      SumZero(f, 0, n);
    }
  }

  lemma NumberedOnce(net: Network, a: int, i: int)
    requires net.Valid() && 0 <= a < |net.order| && 0 <= i < |net.order|
    ensures net.order[a] == net.order[i] <==> a == i
  {
    SameIndex(net.order, a, i);
  }

  lemma AlongEnds(net: Network, a: int, b: int, i: int, j: int, l: string)
    requires net.Valid() && RunsBetween(net, a, b, l)
    ensures RunsAlong(net, i, j, l) <==> (i == a && j == b) || (i == b && j == a)
  {
    hide Network.Valid, Joins;
    if RunsBetween(net, i, j, l) {
      NumberedOnce(net, a, i);
      NumberedOnce(net, b, j);
    }
    if RunsBetween(net, j, i, l) {
      NumberedOnce(net, a, j);
      NumberedOnce(net, b, i);
    }
  }

  /** What is stored lets leave every switch interface what the couplings let leave. */
  lemma {:induction false} OutflowIsLeaving(net: Network, trans: seq<string>, line_current: Currents, U: Vec, i: int)
    requires net.Valid() && ListsTransmission(net, trans) && OhmsLaw(net, line_current, U)
    requires 0 <= i < |net.order|
    ensures Outflow(net.g, net.order, trans, line_current, U, i) == Sum(Leaving(net, U, i), 0, |net.order|)
  {
    hide Network.Valid, ListsTransmission, OhmsLaw, Leaving, Inside, Across, AlongLine, BeginningAt, EndingAt;
    var n, m, p := |net.order|, |trans|, net.order[i];
    var out, inn := BeginningAt(net.g, trans, line_current, p), EndingAt(net.g, trans, line_current, p);
    var net_out := k => out(k) - inn(k);
    FlowsInOrAcross(net, U, i);
    forall j | 0 <= j < n ensures Across(net, U, i)(j) == Sum(k => AlongLine(net, trans, U, i)(j, k), 0, m) {
      AcrossIsRow(net, trans, U, i, j);
    }
    forall k | 0 <= k < m ensures net_out(k) == Sum(j => AlongLine(net, trans, U, i)(j, k), 0, n) {
      LineIsColumn(net, trans, line_current, U, i, k);
    }
    SumSwap(AlongLine(net, trans, U, i), Across(net, U, i), net_out, n, m);
    SumAdd(net_out, inn, out, 0, m);
  }

  lemma LastIsTransmission(g: Grid, order: seq<string>, p: string, q: string)
    requires p != q && p in order && q in order && p in g.nodeOf && q in g.nodeOf && g.nodeOf[p] != g.nodeOf[q]
    requires (forall l :: l in g.lineOrder ==> l in g.lines) && g.LineBetween(p, q, |g.lineOrder|) != ""
    ensures exists k :: IsTransmissionAt(g, order, k, g.LineBetween(p, q, |g.lineOrder|))
  {
    hide Grid.LineBetween;
    var k := LineBetweenAt(g, p, q, |g.lineOrder|);
    var l := g.lineOrder[k];
    forall j | k < j ensures !Between(g, g.lines[l].lpeer, g.lines[l].rpeer, j) {
      assert !Between(g, p, q, j);
    }
    assert IsTransmissionAt(g, order, k, l);
  }

  lemma ListedIsLine(net: Network, trans: seq<string>, l: string)
    requires net.Valid() && ListsTransmission(net, trans) && l in trans
    ensures exists k :: IsTransmissionAt(net.g, net.order, k, l)
  {
    hide Network.Valid, Grid.LineBetween, IsTransmissionAt;
    assert Found(net, |net.order|, 0, l, false);
    var a, b :| Met(net, |net.order|, 0, a, b) && Joins(net, a, b, l, false);
    CoupledPair(net, a, b);
    ValidGrid(net);
    LastIsTransmission(net.g, net.order, net.order[a], net.order[b]);
  }

  lemma LineIsFound(net: Network, a: int, b: int, k: int, l: string)
    requires net.Valid() && IsTransmissionAt(net.g, net.order, k, l)
    requires 0 <= a < |net.order| && net.order[a] == net.g.lines[l].lpeer
    requires 0 <= b < |net.order| && net.order[b] == net.g.lines[l].rpeer
    ensures net.Coupled(a, b) && Joins(net, a, b, l, false)
  {
    CoupledIsWired(net, a, b);
    NeighborFacts(net, a, -1);
    NeighborFacts(net, b, -1);
    hide Network.Valid, Network.Coupled, Grid.LineBetween;
    assert Between(net.g, net.order[a], net.order[b], k);
    LineBetweenIsLast(net.g, net.order[a], net.order[b], k);
  }

  lemma LineIsListed(net: Network, trans: seq<string>, k: int, l: string)
    requires net.Valid() && ListsTransmission(net, trans) && IsTransmissionAt(net.g, net.order, k, l)
    ensures l in trans
  {
    var a :| 0 <= a < |net.order| && net.order[a] == net.g.lines[l].lpeer;
    var b :| 0 <= b < |net.order| && net.order[b] == net.g.lines[l].rpeer;
    LineIsFound(net, a, b, k, l);
    hide Network.Valid, Joins, IsTransmissionAt;
    assert Met(net, |net.order|, 0, a, b);
    assert Found(net, |net.order|, 0, l, false);
  }

  lemma {:induction false} TransmissionLines(net: Network, trans: seq<string>)
    requires net.Valid() && ListsTransmission(net, trans)
    ensures ListsLines(net.g, net.order, trans)
  {
    hide Network.Valid, IsTransmissionAt;
    forall l ensures l in trans <==> exists k :: IsTransmissionAt(net.g, net.order, k, l) {
      if l in trans {
        ListedIsLine(net, trans, l);
      }
      if k :| IsTransmissionAt(net.g, net.order, k, l) {
        LineIsListed(net, trans, k, l);
      }
    }
  }

  /** Every listed line carries the voltage difference of its two ends divided by its resistance. */
  ghost predicate OhmByEnds(g: Grid, order: seq<string>, trans: seq<string>, line_current: Currents, U: Vec) {
    forall l, i, j :: l in trans && l in g.lines && 0 <= i < |order| && 0 <= j < |order|
                      && g.lines[l].lpeer == order[i] && g.lines[l].rpeer == order[j]
      ==> l in line_current && line_current[l] * g.lines[l].resistor == U(i) - U(j)
  }

  lemma {:induction false} OhmAtEnds(net: Network, trans: seq<string>, line_current: Currents, U: Vec)
    requires net.Valid() && ListsTransmission(net, trans) && OhmsLaw(net, line_current, U)
    ensures OhmByEnds(net.g, net.order, trans, line_current, U)
  {
    hide Network.Valid, ListsTransmission, OhmsLaw, RunsBetween;
    forall l, i, j | l in trans && l in net.g.lines && 0 <= i < |net.order| && 0 <= j < |net.order|
                     && net.g.lines[l].lpeer == net.order[i] && net.g.lines[l].rpeer == net.order[j]
      ensures l in line_current && line_current[l] * net.g.lines[l].resistor == U(i) - U(j)
    {
      ListedRuns(net, trans, i, j, l);
      LineTakes(net, line_current, U, i, j, l);
    }
  }

  /** What the appliances wired to an interface inject there, by role and mode. */
  function InjectedByRole(g: Grid, cur: Currents, neighbors: seq<string>): real {
    Carried(g, cur, neighbors, (n: Node) => n.role == WindTurbine || n.role == SolarPanel || n.role == PowerPlant
                                            || (n.role == Storage && n.mode == Discharging))
    - Carried(g, cur, neighbors, (n: Node) => n.role == Demander || (n.role == Storage && n.mode == Charging))
  }

  /** Kirchhoff's current law at interface i: what leaves it is what is injected. */
  ghost predicate CurrentLaw(g: Grid, adj: AdjList, order: seq<string>, trans: seq<string>, cur: Currents,
                             line_current: Currents, U: Vec, i: int) {
    && 0 <= i < |order| && order[i] in adj
    && Outflow(g, order, trans, line_current, U, i) == InjectedByRole(g, cur, adj[order[i]])
  }

  /** Everywhere but at the grounded interface the current law holds exactly unless a standing storage was the
      last appliance to be looked at and there is something to lose. */
  lemma {:induction false} CurrentLawIff(net: Network, trans: seq<string>, cur: Currents, line_current: Currents,
                                         U: Vec, i: int)
    requires net.Valid() && ListsTransmission(net, trans) && OhmsLaw(net, line_current, U)
    requires OnlySolution(net.Conductances(), U, StoredInjections(net, cur), |net.order| - 1)
    requires U(|net.order| - 1) == 0.0 && 0 <= i < |net.order| - 1
    ensures net.order[i] in net.adj
    ensures CurrentLaw(net.g, net.adj, net.order, trans, cur, line_current, U, i)
       <==> !StandingLast(net.g, net.adj[net.order[i]]) || InjectedByRole(net.g, cur, net.adj[net.order[i]]) == 0.0
  {
    hide *;
    var ns := NeighborsOf(net, i);
    OutflowIsLeaving(net, trans, line_current, U, i);
    FlowsAreRow(net, U, i);
    SolvedRow(net, cur, U, i);
    NetIsByRole(net.g, cur, ns);
    StoredIsNet(net.g, cur, ns);
    EndsStandingIff(net.g, ns);
    IsCurrentLaw(net, trans, cur, line_current, U, i);
  }

  lemma NeighborsOf(net: Network, i: int) returns (ns: seq<string>)
    requires net.Valid() && 0 <= i < |net.order|
    ensures net.order[i] in net.adj && ns == net.adj[net.order[i]]
  {
    NeighborFacts(net, i, -1);
    hide *;
    ns := net.adj[net.order[i]];
  }

  lemma NetIsByRole(g: Grid, cur: Currents, ns: seq<string>)
    ensures NetCurrent(g, cur, ns) == InjectedByRole(g, cur, ns)
  {
    NetByRole(g, cur, ns);
  }

  lemma SolvedRow(net: Network, cur: Currents, U: Vec, i: int)
    requires net.Valid() && 0 <= i < |net.order| - 1 && U(|net.order| - 1) == 0.0 && net.order[i] in net.adj
    requires OnlySolution(net.Conductances(), U, StoredInjections(net, cur), |net.order| - 1)
    ensures Apply(net.Conductances(), U, |net.order|)(i)
         == Accumulate(net.g, cur, net.adj[net.order[i]], 0.0).stored
  {
    hide Network.Valid, Network.Conductances, Accumulate;
    var A, n := net.Conductances(), |net.order|;
    DotTruncate(Row(A, i), U, n - 1, n);
    assert Apply(A, U, n - 1)(i) == StoredInjections(net, cur)(i);
  }

  lemma IsCurrentLaw(net: Network, trans: seq<string>, cur: Currents, line_current: Currents, U: Vec, i: int)
    requires 0 <= i < |net.order| && net.order[i] in net.adj
    ensures CurrentLaw(net.g, net.adj, net.order, trans, cur, line_current, U, i)
       <==> Outflow(net.g, net.order, trans, line_current, U, i)
              == InjectedByRole(net.g, cur, net.adj[net.order[i]])
  {}

  /** With one appliance per switch interface it holds everywhere, also at the grounded interface. */
  lemma {:induction false} CurrentLawEverywhere(net: Network, trans: seq<string>, cur: Currents, line_current: Currents,
                                                component: seq<string>, U: Vec, i: int)
    requires net.Valid() && ListsTransmission(net, trans) && OhmsLaw(net, line_current, U)
    requires OnlySolution(net.Conductances(), U, StoredInjections(net, cur), |net.order| - 1)
    requires U(|net.order| - 1) == 0.0 && 0 <= i < |net.order|
    requires Wired(net, component) && NonNegative(Nodes(net.g, component))
    requires HoldsShares(net.g, cur, component, DesiredSupplies(Nodes(net.g, component)),
                         DesiredDemands(Nodes(net.g, component)))
    ensures CurrentLaw(net.g, net.adj, net.order, trans, cur, line_current, U, i)
  {
    hide *;
    var ns := NeighborsOf(net, i);
    OutflowIsLeaving(net, trans, line_current, U, i);
    KirchhoffEverywhere(net, cur, component, U, i);
    NetIsByRole(net.g, cur, ns);
    IsCurrentLaw(net, trans, cur, line_current, U, i);
  }
}
