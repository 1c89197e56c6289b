/** What a host does before it registers with the coordinator, from the matrix that simulate has
    filled to the message it sends: the message describes the host's network. */
module HostRuns {
  import opened Sequences
  import opened DynamicConnections
  import opened Sums
  import opened LinearAlgebra
  import opened Laplacians
  import opened Woodbury
  import opened Gsl
  import opened Grids
  import opened Topology
  import opened Networks
  import opened Injections
  import opened Assembly
  import opened Simulations
  import opened Registries
  import opened Federations
  import opened FederatedEnergy
  import opened Reconstructions

  // ----- another numbering of the same network -----

  /** The interfaces in the order of their numbers. */
  function NamesOf(pis: map<int, string>, n: nat): (s: seq<string>)
    ensures |s| == n
  {
    seq(n, i requires 0 <= i < n => if i in pis then pis[i] else "")
  }

  /** The network, numbered as pis says. */
  function Renumber(net: Network, pis: map<int, string>): Network {
    net.(order := NamesOf(pis, |net.order|))
  }

  /** The maps number the network's interfaces. */
  ghost predicate NumbersOf(net: Network, idx: map<string, int>, pis: map<int, string>) {
    Numbered(idx, pis, |net.order|) && forall p :: p in idx <==> p in net.order
  }

  lemma NamesNumbered(net: Network, idx: map<string, int>, pis: map<int, string>)
    requires NumbersOf(net, idx, pis)
    ensures Distinct(NamesOf(pis, |net.order|)) && forall p :: p in NamesOf(pis, |net.order|) <==> p in net.order
    ensures forall p :: p in idx ==> 0 <= idx[p] < |net.order| && NamesOf(pis, |net.order|)[idx[p]] == p
  {
    var names := NamesOf(pis, |net.order|);
    forall i, j | 0 <= i < j < |names| ensures names[i] != names[j] {
      assert idx[names[i]] == i && idx[names[j]] == j;
    }
    forall p | p in net.order ensures p in names {
      assert names[idx[p]] == p;
    }
    forall p | p in names ensures p in net.order {
      var i :| 0 <= i < |names| && names[i] == p;
      assert p in idx;
    }
  }

  /** It is a connected network as well. */
  lemma RenumberedIsNetwork(net: Network, idx: map<string, int>, pis: map<int, string>)
    requires net.Valid() && Connected(net) && NumbersOf(net, idx, pis)
    ensures Renumber(net, pis).Valid() && Connected(Renumber(net, pis))
  {
    NamesNumbered(net, idx, pis);
    hide NamesOf, Distinct, Numbered;
    SameInterfaces(net, NamesOf(pis, |net.order|));
  }

  lemma SameInterfaces(net: Network, order: seq<string>)
    requires net.Valid() && Connected(net) && Distinct(order) && forall p :: p in order <==> p in net.order
    ensures var other := net.(order := order);
            other.Valid() && Connected(other)
  {
    var other := net.(order := order);
    SameIndexed(net, other);
    hide Network.Indexed, Grid.Valid, Grid.Adjacency, Reachable;
    assert other.Valid();
    hide Network.Valid;
    forall p, q | IsLeafLink(other, p, q) ensures forall r :: r in other.adj[q] ==> r == p {
      assert IsLeafLink(net, p, q);
    }
  }

  lemma SameIndexed(net: Network, other: Network)
    requires net.Indexed() && other.g == net.g && other.adj == net.adj
    requires Distinct(other.order) && forall p :: p in other.order <==> p in net.order
    ensures other.Indexed()
  {
    hide Distinct;
  }

  /** Index i under pis has index To(..)[i] under the other numbering. */
  function To(idx: map<string, int>, pis: map<int, string>, n: nat): (s: seq<int>)
    ensures |s| == n
  {
    seq(n, i requires 0 <= i < n => if i in pis && pis[i] in idx then idx[pis[i]] else 0)
  }

  lemma SameCoupling(net: Network, other: Network, i: int, j: int, i': int, j': int)
    requires net.Valid() && other.Valid() && other.g == net.g && other.adj == net.adj
    requires 0 <= i < |net.order| && 0 <= j < |net.order| && 0 <= i' < |other.order| && 0 <= j' < |other.order|
    requires other.order[i'] == net.order[i] && other.order[j'] == net.order[j]
    ensures other.Coupling()(i', j') == net.Coupling()(i, j)
  {
    if net.Coupled(i, j) {
      CoupledFacts(net, i, j);
      SameWeight(net, other, net.order[i], net.order[j]);
    }
    hide Network.Valid, Network.Weight;
  }

  lemma SameWeight(net: Network, other: Network, p: string, q: string)
    requires other.g == net.g && p in net.g.nodeOf && q in net.g.nodeOf
    requires forall l :: l in net.g.lineOrder ==> l in net.g.lines
    ensures other.Weight(p, q) == net.Weight(p, q)
  {}

  lemma SplitConductance(net: Network, i: int, j: int)
    requires net.Valid()
    ensures net.Conductances()(i, j) == if i == j then -Sum(Row(net.Coupling(), i), 0, |net.order|)
                                        else net.Coupling()(i, j)
  {
    hide Network.Valid;
  }

  /** Couplings and conductances depend on the names only. */
  lemma {:induction false} RenumberedEntry(net: Network, idx: map<string, int>, pis: map<int, string>,
                                           idx': map<string, int>, pis': map<int, string>,
                                           p: string, q: string)
    requires net.Valid() && NumbersOf(net, idx, pis) && NumbersOf(net, idx', pis') && p in idx && q in idx
    requires net.order == NamesOf(pis, |net.order|) && Renumber(net, pis').Valid()
    ensures p in idx' && q in idx'
    ensures Renumber(net, pis').Conductances()(idx'[p], idx'[q]) == net.Conductances()(idx[p], idx[q])
  {
    hide *;
    var other, n := Renumber(net, pis'), |net.order|;
    SameParts(net, pis');
    NumberAt(net, idx, pis, p, q);
    NumberAt(net, idx', pis', p, q);
    SplitConductance(net, idx[p], idx[q]);
    SplitConductance(other, idx'[p], idx'[q]);
    if p == q {
      CouplingRows(net, idx, pis, idx', pis', p);
    } else {
      SameCoupling(net, other, idx[p], idx[q], idx'[p], idx'[q]);
    }
  }

  lemma CouplingRows(net: Network, idx: map<string, int>, pis: map<int, string>, idx': map<string, int>,
                     pis': map<int, string>, p: string)
    requires net.Valid() && NumbersOf(net, idx, pis) && NumbersOf(net, idx', pis') && p in idx && p in idx'
    requires net.order == NamesOf(pis, |net.order|) && Renumber(net, pis').Valid()
    ensures Sum(Row(Renumber(net, pis').Coupling(), idx'[p]), 0, |net.order|)
      == Sum(Row(net.Coupling(), idx[p]), 0, |net.order|)
  {
    hide *;
    var other := Renumber(net, pis');
    SameParts(net, pis');
    MapsNumbered(net, idx, pis, idx', pis');
    forall r | r in idx ensures Row(other.Coupling(), idx'[p])(idx'[r]) == Row(net.Coupling(), idx[p])(idx[r]) {
      NumberAt(net, idx, pis, p, r);
      NumberAt(net, idx', pis', p, r);
      SameCoupling(net, other, idx[p], idx[r], idx'[p], idx'[r]);
    }
    RowsPermuted(Row(net.Coupling(), idx[p]), Row(other.Coupling(), idx'[p]), idx, pis, idx', pis', |net.order|);
  }

  lemma MapsNumbered(net: Network, idx: map<string, int>, pis: map<int, string>, idx': map<string, int>,
                     pis': map<int, string>)
    requires NumbersOf(net, idx, pis) && NumbersOf(net, idx', pis')
    ensures Numbered(idx, pis, |net.order|) && Numbered(idx', pis', |net.order|) && idx.Keys == idx'.Keys
  {
    hide Numbered;
  }

  /** Two names of the network under one numbering. */
  lemma NumberAt(net: Network, idx: map<string, int>, pis: map<int, string>, p: string, q: string)
    requires NumbersOf(net, idx, pis) && (p in net.order || p in idx) && (q in net.order || q in idx)
    ensures p in net.order && q in net.order && p in idx && q in idx && (idx[p] == idx[q] <==> p == q)
    ensures 0 <= idx[p] < |net.order| && NamesOf(pis, |net.order|)[idx[p]] == p
    ensures 0 <= idx[q] < |net.order| && NamesOf(pis, |net.order|)[idx[q]] == q
  {}

  lemma SameParts(net: Network, pis: map<int, string>)
    ensures var other := Renumber(net, pis);
            other.g == net.g && other.adj == net.adj && other.order == NamesOf(pis, |net.order|)
    ensures forall A: Mat, i, j :: Row(A, i)(j) == A(i, j)
  {}

  lemma RowsPermuted(f: Vec, g: Vec, idx: map<string, int>, pis: map<int, string>, idx': map<string, int>,
                     pis': map<int, string>, n: nat)
    requires Numbered(idx, pis, n) && Numbered(idx', pis', n) && idx.Keys == idx'.Keys
    requires forall r :: r in idx ==> g(idx'[r]) == f(idx[r])
    ensures Sum(g, 0, n) == Sum(f, 0, n)
  {
    var to, back := To(idx, pis', n), To(idx', pis, n);
    forall i | 0 <= i < n ensures 0 <= to[i] < n && back[to[i]] == i && g(i) == f(to[i]) {
      assert pis'[i] in idx' && idx'[pis'[i]] == i;
    }
    forall j | 0 <= j < n ensures 0 <= back[j] < n && to[back[j]] == j {
      assert pis[j] in idx && idx[pis[j]] == j;
    }
    SumPermuted(f, g, to, back, n);
  }

  lemma RenumberedInjection(net: Network, cur: Currents, idx: map<string, int>, pis: map<int, string>,
                            idx': map<string, int>, pis': map<int, string>, p: string)
    requires NumbersOf(net, idx, pis) && NumbersOf(net, idx', pis') && p in idx
    requires net.order == NamesOf(pis, |net.order|)
    ensures StoredInjections(Renumber(net, pis'), cur)(idx'[p]) == StoredInjections(net, cur)(idx[p])
  {
    NamesNumbered(net, idx, pis);
    NamesNumbered(net, idx', pis');
    hide NamesOf, Accumulate, Distinct;
  }

  // ----- the matrix after the reconstruction -----

  /** A and I hold the network that the maps number. */
  ghost predicate HoldsComponent(net: Network, cur: Currents, A: Mat, I: Vec, idx: map<string, int>,
                                 pis: map<int, string>) {
    && net.Valid() && Connected(net) && NumbersOf(net, idx, pis) && net.order == NamesOf(pis, |net.order|)
    && HoldsNetwork(net, cur, A, I)
  }

  /** This is where simulate leaves off: its matrices are numbered by its maps. */
  lemma SimulatedHolds(net: Network, cur: Currents, A: Mat, I: Vec, idx: map<string, int>, pis: map<int, string>)
    requires net.Valid() && Connected(net) && HoldsNetwork(net, cur, A, I) && NumberedBy(idx, pis, net.order)
    ensures HoldsComponent(net, cur, A, I, idx, pis)
  {
    hide Network.Valid, Connected, HoldsNetwork;
    forall p | p in idx ensures 0 <= idx[p] < |net.order| && idx[p] in pis && pis[idx[p]] == p {
      var i :| 0 <= i < |net.order| && net.order[i] == p;
    }
    forall i | 0 <= i < |net.order| ensures i in pis && pis[i] in idx && idx[pis[i]] == i {
      assert net.order[i] in net.order;
    }
  }

  /** The reconstruction keeps that: only the numbering is another one. */
  lemma {:induction false} ReconstructionHolds(net: Network, cur: Currents, A: Mat, B: Mat, I: Vec,
                                               idx: map<string, int>, pis: map<int, string>,
                                               A': Mat, B': Mat, I': Vec, idx': map<string, int>,
                                               pis': map<int, string>, rows: int)
    requires HoldsComponent(net, cur, A, I, idx, pis) && Numbered(idx', pis', |net.order|)
    requires SameByName(A, B, I, idx, A', B', I', idx', rows)
    ensures HoldsComponent(Renumber(net, pis'), cur, A', I', idx', pis')
  {
    hide *;
    var other, n := Renumber(net, pis'), |net.order|;
    ComponentFacts(net, cur, A, I, idx, pis);
    SameParts(net, pis');
    StillNumbered(net, A, B, I, idx, pis, A', B', I', idx', pis', rows);
    RenumberedIsNetwork(net, idx', pis');
    forall i, j | 0 <= i < n && 0 <= j < n ensures A'(i, j) == other.Conductances()(i, j) {
      NameAt(net, idx', pis', i);
      NameAt(net, idx', pis', j);
      HeldByName(net, cur, A, B, I, idx, pis, A', B', I', idx', pis', rows, pis'[i], pis'[j]);
    }
    forall i | 0 <= i < n ensures I'(i) == StoredInjections(other, cur)(i) {
      NameAt(net, idx', pis', i);
      HeldByName(net, cur, A, B, I, idx, pis, A', B', I', idx', pis', rows, pis'[i], pis'[i]);
    }
    OtherNumbered(net, idx', pis');
    HoldsAll(other, cur, A', I', idx', pis');
  }

  lemma ComponentFacts(net: Network, cur: Currents, A: Mat, I: Vec, idx: map<string, int>, pis: map<int, string>)
    requires HoldsComponent(net, cur, A, I, idx, pis)
    ensures net.Valid() && Connected(net) && NumbersOf(net, idx, pis) && net.order == NamesOf(pis, |net.order|)
    ensures HoldsNetwork(net, cur, A, I)
  {
    hide Network.Valid, Connected, NumbersOf, NamesOf, HoldsNetwork;
  }

  lemma HoldsAll(net: Network, cur: Currents, A: Mat, I: Vec, idx: map<string, int>, pis: map<int, string>)
    requires net.Valid() && Connected(net) && NumbersOf(net, idx, pis) && net.order == NamesOf(pis, |net.order|)
    requires forall i, j :: 0 <= i < |net.order| && 0 <= j < |net.order| ==> A(i, j) == net.Conductances()(i, j)
    requires forall i :: 0 <= i < |net.order| ==> I(i) == StoredInjections(net, cur)(i)
    ensures HoldsComponent(net, cur, A, I, idx, pis)
  {
    hide Network.Valid, Connected, NumbersOf, NamesOf, StoredInjections, Network.Conductances;
  }

  lemma StillNumbered(net: Network, A: Mat, B: Mat, I: Vec, idx: map<string, int>, pis: map<int, string>,
                      A': Mat, B': Mat, I': Vec, idx': map<string, int>, pis': map<int, string>, rows: int)
    requires NumbersOf(net, idx, pis) && Numbered(idx', pis', |net.order|)
    requires SameByName(A, B, I, idx, A', B', I', idx', rows)
    ensures NumbersOf(net, idx', pis')
  {
    hide Numbered;
  }

  lemma NameAt(net: Network, idx: map<string, int>, pis: map<int, string>, i: int)
    requires NumbersOf(net, idx, pis) && 0 <= i < |net.order|
    ensures i in pis && pis[i] in idx && pis[i] in net.order && idx[pis[i]] == i
  {}

  /** What the arrays hold for two names is what the network says of them. */
  lemma HeldByName(net: Network, cur: Currents, A: Mat, B: Mat, I: Vec, idx: map<string, int>, pis: map<int, string>,
                   A': Mat, B': Mat, I': Vec, idx': map<string, int>, pis': map<int, string>, rows: int, p: string,
                   q: string)
    requires net.Valid() && NumbersOf(net, idx, pis) && NumbersOf(net, idx', pis') && p in idx' && q in idx'
    requires net.order == NamesOf(pis, |net.order|) && Renumber(net, pis').Valid() && HoldsNetwork(net, cur, A, I)
    requires SameByName(A, B, I, idx, A', B', I', idx', rows)
    ensures A'(idx'[p], idx'[q]) == Renumber(net, pis').Conductances()(idx'[p], idx'[q])
    ensures I'(idx'[p]) == StoredInjections(Renumber(net, pis'), cur)(idx'[p])
  {
    hide Network.Valid, NumbersOf, NamesOf, Renumber, StoredInjections, Network.Conductances;
    NumberAt(net, idx', pis', p, q);
    NumberAt(net, idx, pis, p, q);
    RenumberedEntry(net, idx, pis, idx', pis', p, q);
    RenumberedInjection(net, cur, idx, pis, idx', pis', p);
  }

  lemma OtherNumbered(net: Network, idx: map<string, int>, pis: map<int, string>)
    requires NumbersOf(net, idx, pis)
    ensures NumbersOf(Renumber(net, pis), idx, pis)
  {
    NamesNumbered(net, idx, pis);
    hide NamesOf, Numbered, Distinct;
  }

  // ----- the matrix is that of a connected conducting network -----

  lemma LaplacianExt(A: Mat, A': Mat, n: int)
    requires IsLaplacian(A, n) && forall i, j :: 0 <= i < n && 0 <= j < n ==> A'(i, j) == A(i, j)
    ensures IsLaplacian(A', n)
  {
    forall i | 0 <= i < n ensures Sum(Row(A', i), 0, n) == 0.0 {
      SumExt(Row(A, i), Row(A', i), 0, n);
    }
  }

  lemma AllLinkedExt(A: Mat, A': Mat, n: int)
    requires AllLinked(A, n) && forall i, j :: 0 <= i < n && 0 <= j < n ==> A'(i, j) == A(i, j)
    ensures AllLinked(A', n)
  {
    forall i, j | 0 <= i < n && 0 <= j < n ensures Linked(A', n, i, j) {
      assert Linked(A, n, i, j);
      var w: seq<int> :| |w| > 0 && w[0] == i && w[|w| - 1] == j && IsWalk(A, n, w);
      assert IsWalk(A', n, w);
    }
  }

  /** All switch interfaces of a component are linked to one another. */
  lemma {:induction false} NetworkAllLinked(net: Network)
    requires net.Valid() && Connected(net)
    ensures AllLinked(net.Conductances(), |net.order|)
  {
    hide Network.Valid, Linked;
    var n, A := |net.order|, net.Conductances();
    forall i, j | 0 <= i < n && 0 <= j < n ensures Linked(A, n, i, j) {
      assert Reachable(net.adj, net.order[i], net.order[j]);
      var w :| IsPath(net.adj, net.adj.Keys, w) && w[0] == net.order[i] && w[|w| - 1] == net.order[j];
      PathLinks(net, w, i, j);
    }
  }

  lemma HeldConducts(net: Network, cur: Currents, A: Mat, I: Vec)
    requires net.Valid() && Connected(net) && HoldsNetwork(net, cur, A, I)
    ensures IsLaplacian(A, |net.order|) && AllLinked(A, |net.order|)
  {
    hide Network.Valid, Connected, Network.Conductances, IsLaplacian, AllLinked;
    ConductancesAreLaplacian(net);
    NetworkAllLinked(net);
    LaplacianExt(net.Conductances(), A, |net.order|);
    AllLinkedExt(net.Conductances(), A, |net.order|);
  }

  // ----- what is sent describes the network -----

  /** Boundary interfaces are not adjacent to one another, and no appliance is wired to them. */
  ghost predicate Apart(g: Grid, adj: AdjList, bs: seq<string>) {
    && (forall p, q :: p in bs && q in bs && p in adj ==> q !in adj[p])
    && forall p :: p in bs && p in adj ==> !HasAppliance(g, adj[p])
  }

  lemma BoundaryInjection(net: Network, cur: Currents, bs: seq<string>, i: int)
    requires Apart(net.g, net.adj, bs) && 0 <= i < |net.order| && net.order[i] in bs
    ensures StoredInjections(net, cur)(i) == 0.0
  {
    if net.order[i] in net.adj {
      StoredValue(net.g, cur, net.adj[net.order[i]], 0.0);
      NoApplianceNoCurrent(net.g, cur, net.adj[net.order[i]]);
    }
  }

  lemma BoundaryCoupling(net: Network, bs: seq<string>, i: int, j: int)
    requires net.Valid() && Apart(net.g, net.adj, bs) && 0 <= i < |net.order| && 0 <= j < |net.order| && i != j
    requires net.order[i] in bs && net.order[j] in bs
    ensures net.Conductances()(i, j) == 0.0
  {
    hide Network.Valid, Network.Weight;
    SplitConductance(net, i, j);
  }

  /** Main result: what the reconstruction, the elimination and the message have been proved to
      leave behind describes the host's network, which is a connected network of positive
      conductances. This is what the theorems about the federation assume of every host. */
  lemma {:induction false} MessageDescribes(net: Network, cur: Currents, hn: HostNetwork, m: Registration,
                                            bs: seq<string>)
    requires net.Valid() && Connected(net) && HoldsNetwork(net, cur, hn.A, hn.I) && |net.order| == hn.inner + |bs|
    requires (forall k :: 0 <= k < |bs| ==> net.order[hn.inner + k] == bs[k]) && Apart(net.g, net.adj, bs)
    requires IsInverse(hn.A, hn.A1_inv, hn.inner) && |m.lines| == |bs|
    requires forall k :: 0 <= k < |bs| ==> m.lines[k].diagonal == hn.A(hn.inner + k, hn.inner + k)
    requires forall k, l :: 0 <= k < |bs| && 0 <= l < |bs| ==> EntryOf(m.deltaX, k, l) == DeltaX(hn)(k, l)
    ensures Sent(hn, m) && Conducting(hn, |m.lines|)
  {
    hide *;
    HeldConducts(net, cur, hn.A, hn.I);
    BoundaryIsQuiet(net, cur, hn, bs);
    BoundaryIsApart(net, cur, hn, bs);
    IsSentMessage(hn, m);
  }

  lemma BoundaryIsQuiet(net: Network, cur: Currents, hn: HostNetwork, bs: seq<string>)
    requires net.Valid() && HoldsNetwork(net, cur, hn.A, hn.I) && |net.order| == hn.inner + |bs|
    requires Apart(net.g, net.adj, bs)
    requires forall k :: 0 <= k < |bs| ==> net.order[hn.inner + k] == bs[k]
    ensures forall i :: hn.inner <= i < hn.inner + |bs| ==> hn.I(i) == 0.0
  {
    hide Network.Valid, Network.Conductances, StoredInjections, Apart;
    forall i | hn.inner <= i < hn.inner + |bs| ensures hn.I(i) == 0.0 {
      var k := i - hn.inner;
      assert net.order[hn.inner + k] == bs[k];
      BoundaryInjection(net, cur, bs, i);
    }
  }

  lemma BoundaryIsApart(net: Network, cur: Currents, hn: HostNetwork, bs: seq<string>)
    requires net.Valid() && HoldsNetwork(net, cur, hn.A, hn.I) && |net.order| == hn.inner + |bs|
    requires Apart(net.g, net.adj, bs)
    requires forall k :: 0 <= k < |bs| ==> net.order[hn.inner + k] == bs[k]
    ensures forall i, j :: hn.inner <= i < hn.inner + |bs| && hn.inner <= j < hn.inner + |bs| && i != j
              ==> hn.A(i, j) == 0.0
  {
    hide Network.Valid, Network.Conductances, StoredInjections, Apart;
    forall i, j | hn.inner <= i < hn.inner + |bs| && hn.inner <= j < hn.inner + |bs| && i != j
      ensures hn.A(i, j) == 0.0
    {
      var k, l := i - hn.inner, j - hn.inner;
      assert net.order[hn.inner + k] == bs[k] && net.order[hn.inner + l] == bs[l];
      BoundaryCoupling(net, bs, i, j);
    }
  }

  lemma IsSentMessage(hn: HostNetwork, m: Registration)
    requires IsLaplacian(hn.A, hn.inner + |m.lines|) && AllLinked(hn.A, hn.inner + |m.lines|)
    requires IsInverse(hn.A, hn.A1_inv, hn.inner)
    requires forall k :: 0 <= k < |m.lines| ==> m.lines[k].diagonal == hn.A(hn.inner + k, hn.inner + k)
    requires forall i :: hn.inner <= i < hn.inner + |m.lines| ==> hn.I(i) == 0.0
    requires forall i, j :: hn.inner <= i < hn.inner + |m.lines| && hn.inner <= j < hn.inner + |m.lines| && i != j
               ==> hn.A(i, j) == 0.0
    requires forall k, l :: 0 <= k < |m.lines| && 0 <= l < |m.lines| ==> EntryOf(m.deltaX, k, l) == DeltaX(hn)(k, l)
    ensures Sent(hn, m) && Conducting(hn, |m.lines|)
  {
    hide IsInverse, AllLinked, DeltaX, EntryOf;
  }

  /** All that a host does until its message is sent: the reconstruction, the elimination, and the
      message itself. */
  method RegisterHost(comp: DynamicComponent, host: string, ghost net: Network, ghost cur: Currents)
    returns (m: Registration, deltaY: seq<real>, ghost hn: HostNetwork)
    requires comp.Valid() && |net.order| == comp.I.Length && comp.dynamic_connections != []
    requires HoldsComponent(net, cur, MatrixContents(comp.A), Contents(comp.I), comp.pi_index_mapping,
                            comp.index_pi_mapping)
    requires forall i :: 0 <= i < |comp.dynamic_connections|
               ==> comp.dynamic_connections[i].local_pi in comp.pi_index_mapping
    requires var bs := Boundaries(comp.boundary_set, comp.dynamic_connections);
             |bs| <= |comp.dynamic_connections| && Apart(net.g, net.adj, bs)
    modifies comp`pi_index_mapping, comp`index_pi_mapping, comp`boundary_set, comp`A1_inv, comp`A1B, comp`AB1_A1_inv
    modifies comp.A, comp.B, comp.I
    ensures comp.Valid() && comp.boundary_set == Boundaries(old(comp.boundary_set), comp.dynamic_connections)
    ensures HoldsComponent(Renumber(net, comp.index_pi_mapping), cur, MatrixContents(comp.A), Contents(comp.I),
                           comp.pi_index_mapping, comp.index_pi_mapping)
    ensures comp.Eliminated(hn) && hn.I == Contents(comp.I) && |m.lines| == |comp.boundary_set|
    ensures Sent(hn, m) && Conducting(hn, |m.lines|) && m.WellFormed()
    ensures |deltaY| == |m.lines| && forall k :: 0 <= k < |deltaY| ==> deltaY[k] == DeltaY(hn)(k)
    ensures NamesPartners(m.lines, host, comp.boundary_set, comp.dynamic_connections)
  {
    hide *;
    ghost var A0, B0, I0, rows := MatrixContents(comp.A), MatrixContents(comp.B), Contents(comp.I), comp.B.Length0;
    ghost var idx0, pis0 := comp.pi_index_mapping, comp.index_pi_mapping;
    comp.DynamicReconstruct();
    CompFacts(comp);
    BoundariesGrow(old(comp.boundary_set), comp.dynamic_connections);
    ReconstructionHolds(net, cur, A0, B0, I0, idx0, pis0, MatrixContents(comp.A), MatrixContents(comp.B),
                        Contents(comp.I), comp.pi_index_mapping, comp.index_pi_mapping, rows);
    ghost var after := Renumber(net, comp.index_pi_mapping);
    RenumberedParts(net, comp.index_pi_mapping);
    ComponentFacts(after, cur, MatrixContents(comp.A), Contents(comp.I), comp.pi_index_mapping, comp.index_pi_mapping);
    HeldConducts(after, cur, MatrixContents(comp.A), Contents(comp.I));
    var deltaX, dY;
    deltaX, dY, hn := comp.Eliminate();
    EliminatedFacts(comp, hn);
    var lines := comp.RegistrationLines(host);
    m, deltaY := Registration(lines, MatrixRows(deltaX)), dY[..];
    BoundaryNames(comp, after);
    RowEntries(deltaX);
    MessageDescribes(after, cur, hn, m, comp.boundary_set);
    IsWellFormed(m, host, comp.boundary_set, comp.dynamic_connections);
  }

  lemma CompFacts(comp: DynamicComponent)
    requires comp.Valid()
    ensures comp.A.Length0 == comp.A.Length1 == comp.I.Length
    ensures Numbered(comp.pi_index_mapping, comp.index_pi_mapping, comp.I.Length)
  {
    hide Numbered, AtEnd;
  }

  lemma RenumberedParts(net: Network, pis: map<int, string>)
    ensures Renumber(net, pis).g == net.g && Renumber(net, pis).adj == net.adj
    ensures |Renumber(net, pis).order| == |net.order|
  {}

  lemma EliminatedFacts(comp: DynamicComponent, hn: HostNetwork)
    requires comp.Eliminated(hn)
    ensures hn.A == MatrixContents(comp.A) && hn.inner == comp.I.Length - |comp.boundary_set| == comp.Inner()
    ensures IsInverse(hn.A, hn.A1_inv, hn.inner)
  {
    hide IsInverse, Numbered, AtEnd;
  }

  /** The boundary set stands at the end of the order, without repetition. */
  lemma BoundaryNames(comp: DynamicComponent, net: Network)
    requires comp.Valid() && NumbersOf(net, comp.pi_index_mapping, comp.index_pi_mapping)
    requires |net.order| == comp.I.Length
    requires net.order == NamesOf(comp.index_pi_mapping, |net.order|)
    ensures Distinct(comp.boundary_set) && |comp.boundary_set| <= comp.I.Length
    ensures forall k :: 0 <= k < |comp.boundary_set|
              ==> net.order[comp.I.Length - |comp.boundary_set| + k] == comp.boundary_set[k]
  {
    var bs, idx, n := comp.boundary_set, comp.pi_index_mapping, comp.I.Length;
    forall i, j | 0 <= i < j < |bs| ensures bs[i] != bs[j] {
      assert idx[bs[i]] == n - |bs| + i && idx[bs[j]] == n - |bs| + j;
    }
    forall k | 0 <= k < |bs| ensures net.order[n - |bs| + k] == bs[k] {
      assert idx[bs[k]] == n - |bs| + k;
    }
  }

  lemma RowEntries(a: array2<real>)
    requires a.Length0 == a.Length1
    ensures |MatrixRows(a)| == a.Length0 && forall i :: 0 <= i < a.Length0 ==> |MatrixRows(a)[i]| == a.Length0
    ensures forall k, l :: 0 <= k < a.Length0 && 0 <= l < a.Length0 ==> EntryOf(MatrixRows(a), k, l) == a[k, l]
  {}

  lemma IsWellFormed(m: Registration, host: string, bs: seq<string>, dcs: seq<DynamicConnection>)
    requires |m.lines| == |bs| == |m.deltaX| > 0 && Distinct(bs)
    requires forall i :: 0 <= i < |m.deltaX| ==> |m.deltaX[i]| == |m.lines|
    requires NamesPartners(m.lines, host, bs, dcs)
    ensures m.WellFormed()
  {
    forall i, j | 0 <= i < j < |bs| ensures m.lines[i].id != m.lines[j].id {
      var p, q := host + bs[i], host + bs[j];
      assert p[|host|..] == bs[i] && q[|host|..] == bs[j];
    }
  }

  // ----- a host that has calculated distributed before -----

  /** What a distributed calculation leaves in the part of A that it solves for is the host's network,
      which a registration needs, if and only if no line of the component joins two servers. */
  lemma CutLeavesNetwork(net: Network, edging: seq<string>)
    requires net.Valid() && ListsEdging(net, edging)
    ensures var Y, m :=
      CutMatrix(net.Conductances(), Incidence(net, edging), LineConductance(net, edging), |edging|), |net.order| - 1;
            (forall i, j :: 0 <= i < m && 0 <= j < m ==> Y(i, j) == net.Conductances()(i, j)) <==> edging == []
  {
    hide *;
    var A, N, y, L, m :=
      net.Conductances(), Incidence(net, edging), LineConductance(net, edging), |edging|, |net.order| - 1;
    forall i, j ensures CutMatrix(A, N, y, L)(i, j) == A(i, j) + Sum(EdgeTerms(net, edging, i, j), 0, L) {
      CutEntry(net, edging, i, j);
    }
    if edging == [] {
      forall i, j ensures Sum(EdgeTerms(net, edging, i, j), 0, L) == 0.0 {
        SumZero(EdgeTerms(net, edging, i, j), 0, L);
      }
    } else {
      var i := LineEnd(net, edging);
      LineEndTerms(net, edging, i);
      if Sum(EdgeTerms(net, edging, i, i), 0, L) == 0.0 {
        SumZeroTerms(EdgeTerms(net, edging, i, i), 0, L);
        assert false;
      }
      SumNonNegative(EdgeTerms(net, edging, i, i), 0, L);
    }
  }

  lemma CutEntry(net: Network, edging: seq<string>, i: int, j: int)
    requires net.Valid()
    ensures CutMatrix(net.Conductances(), Incidence(net, edging), LineConductance(net, edging), |edging|)(i, j)
         == net.Conductances()(i, j) + Sum(EdgeTerms(net, edging, i, j), 0, |edging|)
  {
    hide Network.Valid, Incidence, LineConductance, Network.Coupling;
    CutTermEntry(Incidence(net, edging), LineConductance(net, edging), |edging|, EdgeTerms(net, edging, i, j), i, j);
  }

  /** An end of the first line that is not the grounded interface. */
  lemma LineEnd(net: Network, edging: seq<string>) returns (i: int)
    requires net.Valid() && ListsEdging(net, edging) && edging != []
    ensures 0 <= i < |net.order| - 1 && edging[0] in net.g.lines && net.g.lines[edging[0]].IsPeer(net.order[i])
  {
    hide Network.Valid, Grid.LineBetween, LineConductance;
    assert CrossesBorder(net, edging[0]);
    var a, b :| CrossesAt(net, a, b, edging[0]);
    CoupledPair(net, a, b);
    i := if a < b then a else b;
  }

  lemma LineEndTerms(net: Network, edging: seq<string>, i: int)
    requires net.Valid() && ListsEdging(net, edging) && edging != []
    requires 0 <= i < |net.order| && edging[0] in net.g.lines && net.g.lines[edging[0]].IsPeer(net.order[i])
    ensures EdgeTerms(net, edging, i, i)(0) > 0.0
    ensures forall k :: 0 <= k < |edging| ==> EdgeTerms(net, edging, i, i)(k) >= 0.0
  {
    hide Network.Valid, ListsEdging, LineConductance, EdgeTerms;
    forall k | 0 <= k < |edging| ensures EdgeTerms(net, edging, i, i)(k) >= 0.0 {
      EdgeEnds(net, edging, k);
      EdgeTerm(net, edging, i, i, k);
    }
    EdgeEnds(net, edging, 0);
    EdgeTerm(net, edging, i, i, 0);
  }
}
