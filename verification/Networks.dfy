/** The conductance matrix of the switch interfaces of one component. */
module Networks {
  import opened Sums
  import opened LinearAlgebra
  import opened Laplacians
  import opened Woodbury
  import opened Sequences
  import opened Grids
  import opened Topology

  /** The switch interfaces of a component in index order, with their adjacency lists. */
  datatype Network = Network(g: Grid, adj: AdjList, order: seq<string>) {

    /** adj is the adjacency of the grid; order lists switch interfaces, and every switch
        interface adjacent to one of them. */
    ghost predicate Valid() {
      && g.Valid() && "" !in g.lines
      && adj.Keys == g.nodeOf.Keys && (forall p :: p in adj ==> adj[p] == g.Adjacency(p))
      && Indexed()
    }

    ghost predicate Indexed() {
      && Distinct(order)
      && (forall p :: p in order ==> p in adj && p in g.nodeOf && g.nodeOf[p] in g.nodes && g.RoleAt(p) == Switch)
      && (forall p, q :: p in order && q in adj[p] && q in g.nodeOf && g.nodeOf[q] in g.nodes && g.RoleAt(q) == Switch
                         ==> q in order)
    }

    ghost predicate Coupled(i: int, j: int) {
      && 0 <= i < |order| && 0 <= j < |order|
      && order[i] in adj && order[j] in adj[order[i]]
    }

    /** Minus the conductance between two adjacent interfaces: 1 inside a switch,
        1 / resistor along a line. */
    function Weight(p: string, q: string): real
      requires p in g.nodeOf && q in g.nodeOf
      requires forall l :: l in g.lineOrder ==> l in g.lines
    {
      if g.nodeOf[p] == g.nodeOf[q] then -1.0
      else
        var l := g.LineBetween(p, q, |g.lineOrder|);
        if l in g.lines && g.lines[l].resistor != 0.0 then -1.0 / g.lines[l].resistor else 0.0
    }

    ghost function Coupling(): Mat
      requires Valid()
    {
      (i, j) => if Coupled(i, j) then Weight(order[i], order[j]) else 0.0
    }

    /** The matrix A of the component: couplings off the diagonal, minus the row sum on it. */
    ghost function Conductances(): Mat
      requires Valid()
    {
      (i, j) => if i == j then -Sum(Row(Coupling(), i), 0, |order|) else Coupling()(i, j)
    }
  }

  lemma {:induction false} CoupledFacts(net: Network, i: int, j: int)
    requires net.Valid() && net.Coupled(i, j)
    ensures i != j && net.Coupled(j, i)
    ensures net.order[i] in net.g.nodeOf && net.order[j] in net.g.nodeOf
    ensures forall l :: l in net.g.lineOrder ==> l in net.g.lines
    ensures net.Weight(net.order[i], net.order[j]) == net.Weight(net.order[j], net.order[i]) < 0.0
  {
    hide Grid.Adjacency, Grid.NodesValid, Grid.LinesValid, Network.Indexed, Grid.LineBetween, PowerLine.IsPeer;
    var g, p, q := net.g, net.order[i], net.order[j];
    assert g.Adjacent(p, q);
    AdjacencySymmetric(g, p, q);
    LineFacts(g);
    if g.nodeOf[p] != g.nodeOf[q] {
      LineOfAdjacent(g, p, q);
    }
  }

  /** Adjacent interfaces of different nodes have a line, the same seen from both ends. */
  lemma {:induction false} LineOfAdjacent(g: Grid, p: string, q: string)
    requires g.Valid() && "" !in g.lines && g.Adjacent(p, q) && q in g.nodeOf && g.nodeOf[p] != g.nodeOf[q]
    ensures var l := g.LineBetween(p, q, |g.lineOrder|);
            && l in g.lines && l == g.LineBetween(q, p, |g.lineOrder|)
            && g.lines[l].IsPeer(p) && g.lines[l].IsPeer(q) && g.lines[l].resistor > 0.0
  {
    hide Grid.Adjacency, Grid.NodesValid, Node.IsConnected;
    AdjacentIff(g, p, q);
    var l :| l in g.lines && g.lines[l].IsPeer(p) && g.lines[l].IsPeer(q);
    assert l in g.lineOrder;
    var i :| 0 <= i < |g.lineOrder| && g.lineOrder[i] == l;
    LineBetweenFound(g, p, q, |g.lineOrder|);
  }

  /** Main result: the matrix the program fills in is a Laplacian. */
  lemma {:induction false} ConductancesAreLaplacian(net: Network)
    requires net.Valid()
    ensures IsLaplacian(net.Conductances(), |net.order|)
  {
    hide Network.Valid, Network.Coupled, Network.Weight;
    var A, C, n := net.Conductances(), net.Coupling(), |net.order|;
    forall i, j | 0 <= i < n && 0 <= j < n
      ensures A(i, j) == A(j, i) && (i != j ==> A(i, j) <= 0.0) && C(i, i) == 0.0
    {
      if net.Coupled(i, j) { CoupledFacts(net, i, j); }
      if net.Coupled(j, i) { CoupledFacts(net, j, i); }
      if net.Coupled(i, i) { CoupledFacts(net, i, i); }
    }
    forall i | 0 <= i < n ensures Sum(Row(A, i), 0, n) == 0.0 {
      var d := j => if j == i then A(i, i) else 0.0;
      SumAdd(Row(C, i), d, Row(A, i), 0, n);
      SumSingle(d, i, 0, n);
    }
  }

  // ----- the switch interfaces stay connected without the appliances -----

  /** All switch interfaces are in one component, and every other interface next to them is a
      leaf: its one neighbour is the switch interface it is wired to. */
  ghost predicate Connected(net: Network)
    requires net.Valid()
  {
    && (forall p, q :: p in net.order && q in net.order ==> Reachable(net.adj, p, q))
    && (forall p, q :: IsLeafLink(net, p, q) ==> forall r :: r in net.adj[q] ==> r == p)
  }

  /** q is wired to the switch interface p and is itself no switch interface of the component. */
  ghost predicate IsLeafLink(net: Network, p: string, q: string) {
    p in net.order && p in net.adj && q in net.adj[p] && q !in net.order && q in net.adj
  }

  lemma CoupledEntry(net: Network, i: int, j: int)
    requires net.Valid() && net.Coupled(i, j)
    ensures net.Conductances()(i, j) < 0.0
  {
    hide Network.Valid, Network.Weight;
    CoupledFacts(net, i, j);
    assert net.Coupling()(i, j) == net.Weight(net.order[i], net.order[j]);
  }

  lemma LinkedSelf(A: Mat, n: int, i: int)
    requires 0 <= i < n
    ensures Linked(A, n, i, i)
  {
    assert IsWalk(A, n, [i]);
  }

  lemma LinkedStep(A: Mat, n: int, i: int, j: int, k: int)
    requires 0 <= i < n && A(i, j) != 0.0 && Linked(A, n, j, k)
    ensures Linked(A, n, i, k)
  {
    var w: seq<int> :| |w| > 0 && w[0] == j && w[|w| - 1] == k && IsWalk(A, n, w);
    var v := [i] + w;
    forall a | 0 <= a < |v| - 1 ensures v[a] == v[a + 1] || A(v[a], v[a + 1]) != 0.0 {
      if a > 0 {
        assert v[a] == w[a - 1] && v[a + 1] == w[(a - 1) + 1];
      }
    }
    assert IsWalk(A, n, v);
  }

  /** Leaves can be cut out of a path: whoever enters one returns to where he came from. */
  lemma {:induction false} PathLinks(net: Network, w: seq<string>, i: int, k: int)
    requires net.Valid() && Connected(net) && IsPath(net.adj, net.adj.Keys, w)
    requires 0 <= i < |net.order| && 0 <= k < |net.order| && w[0] == net.order[i] && w[|w| - 1] == net.order[k]
    ensures Linked(net.Conductances(), |net.order|, i, k)
    decreases |w|
  {
    hide Network.Valid, Network.Weight, Linked, IsLaplacian;
    IndexFacts(net);
    var A, n := net.Conductances(), |net.order|;
    if |w| == 1 {
      LinkedSelf(A, n, i);
    } else {
      PathStep(net, w);
      if w[1] in net.order {
        var j :| 0 <= j < n && net.order[j] == w[1];
        PathLinks(net, w[1..], j, k);
        assert net.Coupled(i, j);
        CoupledEntry(net, i, j);
        LinkedStep(A, n, i, j, k);
      } else {
        PathLinks(net, w[2..], i, k);
      }
    }
  }

  lemma IndexFacts(net: Network)
    requires net.Valid()
    ensures Distinct(net.order) && SymmetricAdj(net.adj)
    ensures forall p :: p in net.order ==> p in net.adj
  {
    hide Grid.Adjacency, Grid.NodesValid, Grid.LinesValid;
    forall p, q | p in net.adj && q in net.adj[p]
      ensures q in net.adj && p in net.adj[q]
    {
      assert net.g.Adjacent(p, q);
      AdjacencySymmetric(net.g, p, q);
    }
  }

  lemma PathStep(net: Network, w: seq<string>)
    requires net.Valid() && Connected(net) && IsPath(net.adj, net.adj.Keys, w) && |w| > 1
    requires w[0] in net.order && w[|w| - 1] in net.order
    ensures w[1] in net.adj[w[0]] && IsPath(net.adj, net.adj.Keys, w[1..])
    ensures w[1] !in net.order ==> |w| > 2 && w[2] == w[0] && IsPath(net.adj, net.adj.Keys, w[2..])
  {
    IndexFacts(net);
    hide Network.Valid, SymmetricAdj;
    var zero, one, two := 0, 1, 2;
    assert w[one] in net.adj[w[zero]];
    PathSuffix(net.adj, w, 1);
    if w[1] !in net.order {
      assert w[two] in net.adj[w[one]];
      PathSuffix(net.adj, w, 2);
      assert IsLeafLink(net, w[0], w[1]);
    }
  }

  lemma PathSuffix(adj: AdjList, w: seq<string>, c: nat)
    requires IsPath(adj, adj.Keys, w) && c < |w|
    ensures IsPath(adj, adj.Keys, w[c..])
  {
    var v := w[c..];
    forall i, j | 0 <= i && j == i + 1 < |v| ensures v[j] in adj[v[i]] {
      var a, b := c + i, c + j;
      assert w[b] in adj[w[a]];
    }
  }

  lemma {:induction false} NetworkLinked(net: Network)
    requires net.Valid() && Connected(net)
    ensures LinkedToGround(net.Conductances(), |net.order|)
  {
    hide Network.Valid;
    var n, A := |net.order|, net.Conductances();
    var ground := n - 1;
    forall i | 0 <= i < n ensures Linked(A, n, i, ground) {
      assert Reachable(net.adj, net.order[i], net.order[ground]);
      var w :| IsPath(net.adj, net.adj.Keys, w) && w[0] == net.order[i] && w[|w| - 1] == net.order[ground];
      PathLinks(net, w, i, ground);
    }
  }

  /** Main result: the grounded matrix of every component is nonsingular. */
  lemma {:induction false} NetworkNonsingular(net: Network)
    requires net.Valid() && Connected(net) && |net.order| > 0
    ensures Nonsingular(net.Conductances(), |net.order| - 1)
    ensures PositiveDefinite(net.Conductances(), |net.order| - 1)
  {
    hide Network.Valid, Connected, IsLaplacian, LinkedToGround, Network.Conductances, Quad, Vanishes;
    ConductancesAreLaplacian(net);
    NetworkLinked(net);
    GroundedNonsingular(net.Conductances(), |net.order|);
    var A, n, m := net.Conductances(), |net.order|, |net.order| - 1;
    forall x: Vec ensures Quad(A, x, m) >= 0.0 && (Quad(A, x, m) == 0.0 ==> Vanishes(x, m)) {
      GroundedPositiveDefinite(A, x, n);
    }
  }

  // ----- cutting the network at the servers' borders -----

  function LocationAt(g: Grid, p: string): string
    requires p in g.nodeOf && g.nodeOf[p] in g.nodes
  {
    g.NodeAt(p).location
  }

  /** Line l is the one between two coupled interfaces on different servers. */
  ghost predicate CrossesBorder(net: Network, l: string)
    requires net.Valid()
  {
    exists i, j :: CrossesAt(net, i, j, l)
  }

  predicate InOrder(net: Network, i: int) {
    0 <= i < |net.order| && net.order[i] in net.g.nodeOf && net.g.nodeOf[net.order[i]] in net.g.nodes
  }

  ghost predicate CrossesAt(net: Network, i: int, j: int, l: string) {
    && net.Coupled(i, j) && InOrder(net, i) && InOrder(net, j)
    && (forall l :: l in net.g.lineOrder ==> l in net.g.lines)
    && LocationAt(net.g, net.order[i]) != LocationAt(net.g, net.order[j])
    && l == net.g.LineBetween(net.order[i], net.order[j], |net.g.lineOrder|)
  }

  /** edging lists the lines between servers, once each. */
  ghost predicate ListsEdging(net: Network, edging: seq<string>)
    requires net.Valid()
  {
    Distinct(edging) && forall l :: l in edging <==> CrossesBorder(net, l)
  }

  /** Both ends of an edging line get the entry 1. */
  function Incidence(net: Network, edging: seq<string>): Mat {
    (i, k) => if 0 <= i < |net.order| && 0 <= k < |edging| && edging[k] in net.g.lines
                 && net.g.lines[edging[k]].IsPeer(net.order[i]) then 1.0 else 0.0
  }

  function LineConductance(net: Network, edging: seq<string>): Vec {
    k => if 0 <= k < |edging| && edging[k] in net.g.lines && net.g.lines[edging[k]].resistor != 0.0
         then 1.0 / net.g.lines[edging[k]].resistor else 0.0
  }

  /** The ranges tile the indices, and two indices have the same location exactly when they
      are in the same range. */
  ghost predicate Served(net: Network, cut: seq<int>)
    requires net.Valid()
  {
    && Tiles(cut, |net.order|)
    && forall s, i, j :: InTile(cut, s, i) && 0 <= i < |net.order| && 0 <= j < |net.order|
         ==> (LocationAt(net.g, net.order[i]) == LocationAt(net.g, net.order[j]) <==> InTile(cut, s, j))
  }

  lemma {:induction false} CutTermEntry(N: Mat, y: Vec, L: int, t: Vec, i: int, j: int)
    requires forall k :: 0 <= k < L ==> t(k) == N(i, k) * y(k) * N(j, k)
    ensures CutTerm(N, y, L)(i, j) == Sum(t, 0, L)
  {
    var M := MatMul(N, Diagonal(y), L);
    forall k | 0 <= k < L ensures Times(Row(M, i), Row(Transpose(Transpose(N)), j))(k) == t(k) {
      var f := Times(Row(N, i), Row(Transpose(Diagonal(y)), k));
      SumSingle(f, k, 0, L);
    }
    SumExt(Times(Row(M, i), Row(Transpose(Transpose(N)), j)), t, 0, L);
  }

  /** An edging line whose ends are the interfaces i and j is the line between them. */
  lemma {:induction false} EdgeOfPair(net: Network, edging: seq<string>, k: int, i: int, j: int)
    requires net.Valid() && ListsEdging(net, edging) && 0 <= k < |edging|
    requires 0 <= i < |net.order| && 0 <= j < |net.order| && i != j
    requires edging[k] in net.g.lines
    requires net.g.lines[edging[k]].IsPeer(net.order[i]) && net.g.lines[edging[k]].IsPeer(net.order[j])
    ensures net.Coupled(i, j) && net.order[i] in net.g.nodeOf && net.order[j] in net.g.nodeOf
    ensures edging[k] == net.g.LineBetween(net.order[i], net.order[j], |net.g.lineOrder|)
  {
    hide Grid.Adjacency, Grid.NodesValid;
    var g := net.g;
    assert CrossesBorder(net, edging[k]);
    var a, b :| CrossesAt(net, a, b, edging[k]);
    CoupledFacts(net, a, b);
    assert g.nodeOf[net.order[a]] != g.nodeOf[net.order[b]];
    assert g.Adjacent(net.order[a], net.order[b]);
    LineOfAdjacent(g, net.order[a], net.order[b]);
    assert net.order[i] != net.order[j];
    assert (i == a && j == b) || (i == b && j == a);
  }

  /** The contribution of every edging line to an entry of N y_L N'. */
  function EdgeTerms(net: Network, edging: seq<string>, i: int, j: int): Vec {
    k => Incidence(net, edging)(i, k) * LineConductance(net, edging)(k) * Incidence(net, edging)(j, k)
  }

  lemma TripleProduct(a: real, y: real, b: real)
    ensures a == 0.0 || b == 0.0 ==> a * y * b == 0.0
    ensures a == 1.0 && b == 1.0 ==> a * y * b == y
  {}

  /** Only a line with both interfaces at its ends contributes, and it contributes its conductance. */
  lemma EdgeTerm(net: Network, edging: seq<string>, i: int, j: int, k: int)
    requires 0 <= k < |edging| && 0 <= i < |net.order| && 0 <= j < |net.order|
    ensures if edging[k] in net.g.lines && net.g.lines[edging[k]].IsPeer(net.order[i])
      && net.g.lines[edging[k]].IsPeer(net.order[j])
            then EdgeTerms(net, edging, i, j)(k) == LineConductance(net, edging)(k)
            else EdgeTerms(net, edging, i, j)(k) == 0.0
  {
    hide LineConductance;
    TripleProduct(Incidence(net, edging)(i, k), LineConductance(net, edging)(k), Incidence(net, edging)(j, k));
  }

  /** Across a border the line's term cancels the coupling. */
  lemma {:induction false} BorderCancels(net: Network, edging: seq<string>, i: int, j: int)
    requires net.Valid() && ListsEdging(net, edging)
    requires 0 <= i < |net.order| && 0 <= j < |net.order|
    requires net.order[i] in net.g.nodeOf && net.g.nodeOf[net.order[i]] in net.g.nodes
    requires net.order[j] in net.g.nodeOf && net.g.nodeOf[net.order[j]] in net.g.nodes
    requires LocationAt(net.g, net.order[i]) != LocationAt(net.g, net.order[j])
    ensures Sum(EdgeTerms(net, edging, i, j), 0, |edging|) == -net.Coupling()(i, j)
  {
    hide Grid.Adjacency, Grid.NodesValid, Network.Indexed, EdgeTerms;
    var g, L, t := net.g, |edging|, EdgeTerms(net, edging, i, j);
    var l := g.LineBetween(net.order[i], net.order[j], |g.lineOrder|);
    forall k | 0 <= k < L && t(k) != 0.0 ensures net.Coupled(i, j) && edging[k] == l {
      EdgeTerm(net, edging, i, j, k);
      EdgeOfPair(net, edging, k, i, j);
    }
    if net.Coupled(i, j) {
      LineFacts(g);
      assert CrossesAt(net, i, j, l);
      assert CrossesBorder(net, l);
      var k0 :| 0 <= k0 < L && edging[k0] == l;
      assert g.Adjacent(net.order[i], net.order[j]);
      LineOfAdjacent(g, net.order[i], net.order[j]);
      EdgeTerm(net, edging, i, j, k0);
      SumSingle(t, k0, 0, L);
    } else {
      SumZero(t, 0, L);
    }
  }

  /** Main result: adding N y_L N' makes the matrix block diagonal over the servers, so that
      sending only the diagonal blocks loses nothing. */
  lemma {:induction false} CutIsBlockDiagonal(net: Network, edging: seq<string>, cut: seq<int>)
    requires net.Valid() && ListsEdging(net, edging) && Served(net, cut)
    ensures BlockDiagonal(CutMatrix(net.Conductances(), Incidence(net, edging), LineConductance(net, edging), |edging|),
                          cut, |net.order|)
  {
    var Y := CutMatrix(net.Conductances(), Incidence(net, edging), LineConductance(net, edging), |edging|);
    forall i, j | 0 <= i < |net.order| && 0 <= j < |net.order|
                  && LocationAt(net.g, net.order[i]) != LocationAt(net.g, net.order[j])
      ensures Y(i, j) == 0.0
    {
      BorderEntry(net, edging, i, j);
    }
  }

  lemma BorderEntry(net: Network, edging: seq<string>, i: int, j: int)
    requires net.Valid() && ListsEdging(net, edging)
    requires 0 <= i < |net.order| && 0 <= j < |net.order|
    requires net.order[i] in net.g.nodeOf && net.g.nodeOf[net.order[i]] in net.g.nodes
    requires net.order[j] in net.g.nodeOf && net.g.nodeOf[net.order[j]] in net.g.nodes
    requires LocationAt(net.g, net.order[i]) != LocationAt(net.g, net.order[j])
    ensures CutMatrix(net.Conductances(), Incidence(net, edging), LineConductance(net, edging), |edging|)(i, j) == 0.0
  {
    hide Network.Valid, ListsEdging, Incidence, LineConductance, Network.Coupling;
    BorderCancels(net, edging, i, j);
    CutTermEntry(Incidence(net, edging), LineConductance(net, edging), |edging|, EdgeTerms(net, edging, i, j), i, j);
  }
}
