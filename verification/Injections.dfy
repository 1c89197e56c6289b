/** The current injected at every switch interface by the appliances wired to it. */
module Injections {
  import opened Sums
  import opened LinearAlgebra
  import opened Laplacians
  import opened Sequences
  import opened Grids
  import opened Topology
  import opened LoadBalancing
  import opened Networks

  /** Node currents, by node id. */
  type Currents = map<string, real>

  /** The node behind an interface; a nameless tunnel for an unknown interface, which
      supplies and demands nothing. */
  function NodeOrNone(g: Grid, p: string): Node {
    if p in g.nodeOf && g.nodeOf[p] in g.nodes then g.NodeAt(p) else Node("", Tunnel, 0, "", [], 0.0, Standing)
  }

  function CurrentAt(g: Grid, cur: Currents, p: string): real {
    if p in g.nodeOf && g.nodeOf[p] in cur then cur[g.nodeOf[p]] else 0.0
  }

  /** What the appliance at p injects: plus its current if it supplies, minus if it demands. */
  function Signed(g: Grid, cur: Currents, p: string): real {
    var n := NodeOrNone(g, p);
    if IsSupply(n) then CurrentAt(g, cur, p) else if IsDemand(n) then -CurrentAt(g, cur, p) else 0.0
  }

  /** The running sum over a list of neighbours, and the value last stored in I. */
  datatype Accumulated = Accumulated(current: real, stored: real)

  function Accumulate(g: Grid, cur: Currents, neighbors: seq<string>, initial: real): Accumulated {
    if neighbors == [] then Accumulated(0.0, initial)
    else
      var last := neighbors[|neighbors| - 1];
      var before := Accumulate(g, cur, neighbors[..|neighbors| - 1], initial);
      var n := NodeOrNone(g, last);
      if IsSupply(n) || IsDemand(n) then
        var c := before.current + Signed(g, cur, last);
        Accumulated(c, c)
      else if n.role == Storage then Accumulated(before.current, 0.0)
      else before
  }

  function NetCurrent(g: Grid, cur: Currents, neighbors: seq<string>): real {
    if neighbors == [] then 0.0
    else NetCurrent(g, cur, neighbors[..|neighbors| - 1]) + Signed(g, cur, neighbors[|neighbors| - 1])
  }

  /** The currents of the picked nodes behind a list of interfaces, one entry per interface. */
  function Carried(g: Grid, cur: Currents, ps: seq<string>, picked: Node -> bool): real {
    if ps == [] then 0.0
    else Carried(g, cur, ps[..|ps| - 1], picked)
         + if picked(NodeOrNone(g, ps[|ps| - 1])) then CurrentAt(g, cur, ps[|ps| - 1]) else 0.0
  }

  lemma {:induction false} NetIsCarried(g: Grid, cur: Currents, ps: seq<string>, supplying: Node -> bool,
                                        demanding: Node -> bool)
    requires forall n :: supplying(n) <==> IsSupply(n)
    requires forall n :: demanding(n) <==> IsDemand(n)
    ensures NetCurrent(g, cur, ps) == Carried(g, cur, ps, supplying) - Carried(g, cur, ps, demanding)
  {
    if ps != [] {
      NetIsCarried(g, cur, ps[..|ps| - 1], supplying, demanding);
      NotBoth(NodeOrNone(g, ps[|ps| - 1]));
      hide IsSupply, IsDemand;
    }
  }

  /** Main result: wind turbines, solar panels, power plants and discharging storages inject their currents,
      demanders and charging storages take theirs, and nobody else contributes. */
  lemma {:induction false} NetByRole(g: Grid, cur: Currents, ps: seq<string>)
    ensures NetCurrent(g, cur, ps)
         == Carried(g, cur, ps, (n: Node) => n.role == WindTurbine || n.role == SolarPanel || n.role == PowerPlant
                                     || (n.role == Storage && n.mode == Discharging))
            - Carried(g, cur, ps, (n: Node) => n.role == Demander || (n.role == Storage && n.mode == Charging))
  {
    NetIsCarried(g, cur, ps,
                 (n: Node) => n.role == WindTurbine || n.role == SolarPanel || n.role == PowerPlant
                      || (n.role == Storage && n.mode == Discharging),
                 (n: Node) => n.role == Demander || (n.role == Storage && n.mode == Charging));
  }

  /** The last appliance of the list is a standing storage. */
  predicate EndsStanding(g: Grid, neighbors: seq<string>) {
    neighbors != [] &&
    var n := NodeOrNone(g, neighbors[|neighbors| - 1]);
    if IsAppliance(n) then !IsSupply(n) && !IsDemand(n) else EndsStanding(g, neighbors[..|neighbors| - 1])
  }

  predicate HasAppliance(g: Grid, neighbors: seq<string>) {
    exists k :: 0 <= k < |neighbors| && IsAppliance(NodeOrNone(g, neighbors[k]))
  }

  /** What ends up in I: nothing new without an appliance, 0 after a standing storage, the
      net current otherwise. */
  lemma {:induction false} StoredValue(g: Grid, cur: Currents, neighbors: seq<string>, initial: real)
    ensures Accumulate(g, cur, neighbors, initial).current == NetCurrent(g, cur, neighbors)
    ensures Accumulate(g, cur, neighbors, initial).stored
         == if EndsStanding(g, neighbors) then 0.0
            else if HasAppliance(g, neighbors) then NetCurrent(g, cur, neighbors) else initial
  {
    if neighbors != [] {
      var front := neighbors[..|neighbors| - 1];
      StoredValue(g, cur, front, initial);
      assert forall k :: 0 <= k < |front| ==> front[k] == neighbors[k];
    }
  }

  /** Among the neighbours a standing storage is the last appliance. */
  ghost predicate StandingLast(g: Grid, neighbors: seq<string>) {
    exists k :: 0 <= k < |neighbors| && NodeOrNone(g, neighbors[k]).role == Storage
                && NodeOrNone(g, neighbors[k]).mode == Standing && NoneAfter(g, neighbors, k)
  }

  ghost predicate NoneAfter(g: Grid, neighbors: seq<string>, k: int) {
    forall m :: k < m < |neighbors| && 0 <= m
      ==> NodeOrNone(g, neighbors[m]).role == Switch || NodeOrNone(g, neighbors[m]).role == Tunnel
  }

  lemma {:induction false} EndsStandingIff(g: Grid, neighbors: seq<string>)
    ensures EndsStanding(g, neighbors) <==> StandingLast(g, neighbors)
  {
    hide NodeOrNone;
    if neighbors != [] {
      var n := |neighbors| - 1;
      var front := neighbors[..n];
      var role, mode := NodeOrNone(g, neighbors[n]).role, NodeOrNone(g, neighbors[n]).mode;
      if role == Switch || role == Tunnel {
        EndsStandingIff(g, front);
        forall k | 0 <= k < n ensures NoneAfter(g, neighbors, k) <==> NoneAfter(g, front, k) {
          NoneAfterFront(g, neighbors, k);
        }
        hide NoneAfter;
        assert forall k :: 0 <= k < n ==> front[k] == neighbors[k];
      } else {
        assert NoneAfter(g, neighbors, n);
      }
    }
  }

  lemma NoneAfterFront(g: Grid, neighbors: seq<string>, k: int)
    requires neighbors != [] && 0 <= k < |neighbors| - 1
    requires NodeOrNone(g, neighbors[|neighbors| - 1]).role == Switch
             || NodeOrNone(g, neighbors[|neighbors| - 1]).role == Tunnel
    ensures NoneAfter(g, neighbors, k) <==> NoneAfter(g, neighbors[..|neighbors| - 1], k)
  {
    hide NodeOrNone;
    var front := neighbors[..|neighbors| - 1];
    assert forall m :: 0 <= m < |front| ==> front[m] == neighbors[m];
  }

  /** The stored injection is the net current of the neighbours if and only if it was not
      overwritten by a standing storage, or the net current is zero anyway. */
  lemma {:induction false} StoredIsNet(g: Grid, cur: Currents, neighbors: seq<string>)
    ensures Accumulate(g, cur, neighbors, 0.0).stored == NetCurrent(g, cur, neighbors)
       <==> (!EndsStanding(g, neighbors) || NetCurrent(g, cur, neighbors) == 0.0)
  {
    StoredValue(g, cur, neighbors, 0.0);
    if !HasAppliance(g, neighbors) {
      NoApplianceNoCurrent(g, cur, neighbors);
    }
  }

  lemma {:induction false} NoApplianceNoCurrent(g: Grid, cur: Currents, neighbors: seq<string>)
    requires !HasAppliance(g, neighbors)
    ensures NetCurrent(g, cur, neighbors) == 0.0 && !EndsStanding(g, neighbors)
  {
    if neighbors != [] {
      var front, n := neighbors[..|neighbors| - 1], |neighbors| - 1;
      assert !IsAppliance(NodeOrNone(g, neighbors[n]));
      forall k | 0 <= k < |front| ensures !IsAppliance(NodeOrNone(g, front[k])) {
        assert front[k] == neighbors[k];
      }
      NoApplianceNoCurrent(g, cur, front);
    }
  }

  /** A switch interface with two lines: one to a power plant, one to a standing storage. */
  function PlantAndStorage(): Grid {
    Grid(map["p" := Node("p", PowerPlant, 0, "", ["p0"], 1.0, Standing),
             "s" := Node("s", Switch, 0, "", ["s0"], 0.0, Standing),
             "t" := Node("t", Storage, 0, "", ["t0"], 1.0, Standing)],
         map["p0" := "p", "s0" := "s", "t0" := "t"],
         map["k" := PowerLine("s0", "p0", 1.0), "l" := PowerLine("s0", "t0", 1.0)],
         ["p0", "s0", "t0"], ["k", "l"])
  }

  /** What it consists of. */
  lemma PlantAndStorageParts()
    ensures var g := PlantAndStorage();
            && (forall p :: p in g.nodeOf <==> p == "p0" || p == "s0" || p == "t0")
            && (forall n :: n in g.nodes <==> n == "p" || n == "s" || n == "t")
            && (forall l :: l in g.lines <==> l == "k" || l == "l")
            && g.nodeOf["p0"] == "p" && g.nodeOf["s0"] == "s" && g.nodeOf["t0"] == "t"
            && g.nodes["p"] == Node("p", PowerPlant, 0, "", ["p0"], 1.0, Standing)
            && g.nodes["s"] == Node("s", Switch, 0, "", ["s0"], 0.0, Standing)
            && g.nodes["t"] == Node("t", Storage, 0, "", ["t0"], 1.0, Standing)
            && g.lines["k"] == PowerLine("s0", "p0", 1.0) && g.lines["l"] == PowerLine("s0", "t0", 1.0)
            && g.piOrder == ["p0", "s0", "t0"] && g.lineOrder == ["k", "l"]
  {}

  lemma ListsThree(s: seq<string>, keys: set<string>)
    requires |s| == 3 && s[0] != s[1] && s[0] != s[2] && s[1] != s[2]
    requires forall x :: x in keys <==> x == s[0] || x == s[1] || x == s[2]
    ensures Lists(s, keys)
  {}

  lemma ListsTwo(s: seq<string>, keys: set<string>)
    requires |s| == 2 && s[0] != s[1] && forall x :: x in keys <==> x == s[0] || x == s[1]
    ensures Lists(s, keys)
  {}

  lemma PlantAndStorageNodes()
    ensures PlantAndStorage().NodesValid()
  {
    PlantAndStorageParts();
    NamesDiffer();
    hide PlantAndStorage, Grid.NodesValid;
    assert HasOnly(PlantAndStorage(), "p", "p0") && HasOnly(PlantAndStorage(), "s", "s0")
      && HasOnly(PlantAndStorage(), "t", "t0");
    hide *;
    OneInterfaceEach(PlantAndStorage(), "p0", "s0", "t0", "p", "s", "t");
  }

  /** A node with the one interface p. */
  ghost predicate HasOnly(g: Grid, id: string, p: string) {
    id in g.nodes && g.nodes[id].id == id && g.nodes[id].interfaces == [p] && p in g.nodeOf && g.nodeOf[p] == id
      && p == id + ['0']
  }

  lemma HasOnlyFacts(g: Grid, id: string, p: string)
    requires HasOnly(g, id, p)
    ensures id in g.nodes && g.nodes[id].id == id && g.nodes[id].WellNamed() && p in g.nodes[id].interfaces
    ensures p in g.nodeOf && g.nodeOf[p] == id && forall q :: q in g.nodes[id].interfaces ==> q == p
  {
    assert p[..|p| - 1] == id;
  }

  /** A grid of three nodes with one interface each. */
  lemma OneInterfaceEach(g: Grid, p: string, s: string, t: string, a: string, b: string, c: string)
    requires g.piOrder == [p, s, t] && p != s && p != t && s != t && HasOnly(g, a, p) && HasOnly(g, b, s)
    requires HasOnly(g, c, t)
    requires forall q :: q in g.nodeOf <==> q == p || q == s || q == t
    requires forall id :: id in g.nodes <==> id == a || id == b || id == c
    ensures g.NodesValid()
  {
    hide *;
    HasOnlyFacts(g, a, p);
    HasOnlyFacts(g, b, s);
    HasOnlyFacts(g, c, t);
    ListsThree(g.piOrder, g.nodeOf.Keys);
    AreNodes(g);
  }

  lemma AreNodes(g: Grid)
    requires Lists(g.piOrder, g.nodeOf.Keys)
    requires forall p :: p in g.nodeOf ==> g.nodeOf[p] in g.nodes && p in g.nodes[g.nodeOf[p]].interfaces
    requires forall id :: id in g.nodes ==> g.nodes[id].id == id && g.nodes[id].WellNamed()
    requires forall id, p :: id in g.nodes && p in g.nodes[id].interfaces ==> p in g.nodeOf && g.nodeOf[p] == id
    ensures g.NodesValid()
  {
    hide Lists, Node.WellNamed;
  }

  lemma NamesDiffer()
    ensures "p" + ['0'] == "p0" && "s" + ['0'] == "s0" && "t" + ['0'] == "t0"
    ensures "p0" != "s0" && "p0" != "t0" && "s0" != "t0" && "k" != "l" && "" != "k" && "" != "l"
  {
    assert "p0"[0] != "s0"[0] && "p0"[0] != "t0"[0] && "s0"[0] != "t0"[0] && "k"[0] != "l"[0];
  }

  lemma PlantAndStorageValid()
    ensures PlantAndStorage().Valid() && "" !in PlantAndStorage().lines
  {
    PlantAndStorageNodes();
    PlantAndStorageParts();
    NamesDiffer();
    hide PlantAndStorage, Lists, Grid.NodesValid;
    var g := PlantAndStorage();
    ListsTwo(g.lineOrder, g.lines.Keys);
  }

  lemma SwitchNeighbors()
    requires PlantAndStorage().Valid()
    ensures PlantAndStorage().Adjacency("s0") == ["p0", "t0"]
  {
    PlantAndStorageParts();
    hide PlantAndStorage, Grid.Valid, Node.IsConnected;
    var g := PlantAndStorage();
    NamesDiffer();
    OneInterfaceAlone(g.nodes["s"], "s0");
    TwoLines(g, "s0", "k", "l", "p0", "t0");
  }

  lemma OneInterfaceAlone(n: Node, pi: string)
    requires |pi| > 0 && n.interfaces == [pi]
    ensures n.NeighborsWithin(pi) == []
  {
    hide Node.IsConnected, Node.PiToIndex, Node.IndexToPi, Node.IsUsed;
    var front := n.interfaces[..|n.interfaces| - 1];
    assert front == [] && n.JoinedTo(pi, front) == [];
    assert n.JoinedTo(pi, n.interfaces) == [];
  }

  lemma TwoLines(g: Grid, p: string, k: string, l: string, q: string, r: string)
    requires g.lineOrder == [k, l] && k in g.lines && l in g.lines && q != "" && r != ""
    requires g.lines[k].lpeer == p && g.lines[k].rpeer == q && g.lines[l].lpeer == p && g.lines[l].rpeer == r
    ensures (forall x :: x in g.lineOrder ==> x in g.lines) && g.LineNeighbors(p, |g.lineOrder|) == [q, r]
  {
    assert g.LineNeighbors(p, 0) == [];
    assert g.LineNeighbors(p, 1) == [q];
  }

  /** A standing storage behind a power plant, on two lines of one switch interface: the plant's
      current is lost. */
  lemma StandingStorageOverwrites(cur: Currents)
    requires "p" in cur && cur["p"] != 0.0
    ensures var g := PlantAndStorage();
            && g.Valid() && "s0" in g.nodeOf && g.nodeOf["s0"] in g.nodes && g.RoleAt("s0") == Switch
            && NetCurrent(g, cur, g.Adjacency("s0")) == cur["p"]
            && Accumulate(g, cur, g.Adjacency("s0"), 0.0).stored == 0.0
  {
    PlantAndStorageParts();
    PlantAndStorageValid();
    SwitchNeighbors();
    hide PlantAndStorage, Grid.Valid, Grid.Adjacency;
    StorageLast(PlantAndStorage(), cur, "p0", "t0");
  }

  lemma StorageLast(g: Grid, cur: Currents, plant: string, store: string)
    requires NodeOrNone(g, plant).role == PowerPlant && NodeOrNone(g, store).role == Storage
    requires NodeOrNone(g, store).mode == Standing
    ensures NetCurrent(g, cur, [plant, store]) == CurrentAt(g, cur, plant)
    ensures Accumulate(g, cur, [plant, store], 0.0).stored == 0.0
  {
    hide NodeOrNone, CurrentAt;
    var one, both := [plant], [plant, store];
    assert one[..0] == [] && both[..1] == one;
    assert NetCurrent(g, cur, one) == CurrentAt(g, cur, plant);
  }

  ghost predicate AtMostOneAppliance(g: Grid, neighbors: seq<string>) {
    forall j, k :: (0 <= j < k < |neighbors| && IsAppliance(NodeOrNone(g, neighbors[j])))
                   ==> !IsAppliance(NodeOrNone(g, neighbors[k]))
  }

  lemma {:induction false} SingleAppliance(g: Grid, cur: Currents, neighbors: seq<string>, k: nat)
    requires AtMostOneAppliance(g, neighbors) && k < |neighbors| && IsAppliance(NodeOrNone(g, neighbors[k]))
    ensures NetCurrent(g, cur, neighbors) == Signed(g, cur, neighbors[k])
    ensures EndsStanding(g, neighbors) ==> Signed(g, cur, neighbors[k]) == 0.0
  {
    var n := |neighbors| - 1;
    var front := neighbors[..n];
    if k == n {
      forall j | 0 <= j < |front| ensures !IsAppliance(NodeOrNone(g, front[j])) {
        assert neighbors[j] == front[j];
      }
      NoApplianceNoCurrent(g, cur, front);
    } else {
      assert !IsAppliance(NodeOrNone(g, neighbors[n]));
      forall i, j | 0 <= i < j < |front| && IsAppliance(NodeOrNone(g, front[i]))
        ensures !IsAppliance(NodeOrNone(g, front[j]))
      {
        assert front[i] == neighbors[i] && front[j] == neighbors[j];
      }
      SingleAppliance(g, cur, front, k);
    }
  }

  /** With at most one appliance per switch interface nothing is ever lost. */
  lemma {:induction false} OneApplianceIsStored(g: Grid, cur: Currents, neighbors: seq<string>)
    requires AtMostOneAppliance(g, neighbors)
    ensures Accumulate(g, cur, neighbors, 0.0).stored == NetCurrent(g, cur, neighbors)
  {
    StoredIsNet(g, cur, neighbors);
    if EndsStanding(g, neighbors) {
      StoredValue(g, cur, neighbors, 0.0);
      if HasAppliance(g, neighbors) {
        var k :| 0 <= k < |neighbors| && IsAppliance(NodeOrNone(g, neighbors[k]));
        SingleAppliance(g, cur, neighbors, k);
      } else {
        NoApplianceNoCurrent(g, cur, neighbors);
      }
    }
  }

  // ----- balanced currents inject nothing in total -----

  /** The injection vector of a network: net currents in index order. */
  ghost function InjectionVector(net: Network, cur: Currents): Vec {
    i => if 0 <= i < |net.order| && net.order[i] in net.adj then NetCurrent(net.g, cur, net.adj[net.order[i]]) else 0.0
  }

  function Nodes(g: Grid, component: seq<string>): (ns: seq<Node>)
    ensures |ns| == |component|
  {
    seq(|component|, k requires 0 <= k < |component| => NodeOrNone(g, component[k]))
  }

  /** Currents that are a fixed fraction of what is desired add up to that fraction. */
  lemma {:induction false} CarriedFraction(g: Grid, cur: Currents, ps: seq<string>, picked: Node -> bool, loads: real,
                                           total: real)
    requires forall p :: p in ps && picked(NodeOrNone(g, p))
               ==> CurrentAt(g, cur, p) * total == loads * NodeOrNone(g, p).desired
    ensures Carried(g, cur, ps, picked) * total == loads * Desired(Nodes(g, ps), picked)
  {
    hide *;
    if ps == [] {
      NothingCarried(g, cur, ps, picked);
    } else {
      var n := |ps| - 1;
      CarriedFraction(g, cur, ps[..n], picked, loads, total);
      var c, d := CarriedLast(g, cur, ps, picked);
      assert c * total == loads * d;
      Distributes(Carried(g, cur, ps[..n], picked), c, total, loads, Desired(Nodes(g, ps[..n]), picked), d);
    }
  }

  lemma NothingCarried(g: Grid, cur: Currents, ps: seq<string>, picked: Node -> bool)
    requires ps == []
    ensures Carried(g, cur, ps, picked) == 0.0 && Desired(Nodes(g, ps), picked) == 0.0
  {}

  lemma CarriedLast(g: Grid, cur: Currents, ps: seq<string>, picked: Node -> bool) returns (c: real, d: real)
    requires ps != []
    ensures Carried(g, cur, ps, picked) == Carried(g, cur, ps[..|ps| - 1], picked) + c
    ensures Desired(Nodes(g, ps), picked) == Desired(Nodes(g, ps[..|ps| - 1]), picked) + d
    ensures if picked(NodeOrNone(g, ps[|ps| - 1]))
            then c == CurrentAt(g, cur, ps[|ps| - 1]) && d == NodeOrNone(g, ps[|ps| - 1]).desired
            else c == 0.0 && d == 0.0
  {
    hide NodeOrNone, CurrentAt;
    var n := |ps| - 1;
    assert Nodes(g, ps)[..n] == Nodes(g, ps[..n]);
    c := if picked(NodeOrNone(g, ps[n])) then CurrentAt(g, cur, ps[n]) else 0.0;
    d := if picked(NodeOrNone(g, ps[n])) then NodeOrNone(g, ps[n]).desired else 0.0;
  }

  /** Every appliance interface of the component is wired to exactly one switch interface,
      and no switch interface has two appliances. */
  ghost predicate Wired(net: Network, component: seq<string>) {
    && Distinct(component)
    && (forall i :: 0 <= i < |net.order|
          ==> net.order[i] in net.adj && AtMostOneAppliance(net.g, net.adj[net.order[i]]))
    && (forall i, p :: 0 <= i < |net.order| && p in net.adj[net.order[i]] ==> p in component)
    && (forall p :: p in component && IsAppliance(NodeOrNone(net.g, p)) ==> HasHost(net, p))
  }

  ghost predicate HasHost(net: Network, p: string) {
    exists i :: IsHost(net, p, i) && forall j :: IsHost(net, p, j) ==> i == j
  }

  ghost predicate IsHost(net: Network, p: string, i: int) {
    0 <= i < |net.order| && net.order[i] in net.adj && p in net.adj[net.order[i]]
  }

  /** What interface k of the component injects at switch interface i. */
  ghost function InjectedAt(net: Network, cur: Currents, component: seq<string>): Mat {
    (k, i) => if 0 <= k < |component| && IsHost(net, component[k], i) then Signed(net.g, cur, component[k]) else 0.0
  }

  function SignedAll(g: Grid, cur: Currents, component: seq<string>): Vec {
    k => if 0 <= k < |component| then Signed(g, cur, component[k]) else 0.0
  }

  lemma {:induction false} RowOfInterface(net: Network, cur: Currents, component: seq<string>, k: int)
    requires Wired(net, component) && 0 <= k < |component|
    ensures SignedAll(net.g, cur, component)(k) == Sum(i => InjectedAt(net, cur, component)(k, i), 0, |net.order|)
  {
    var p, F := component[k], InjectedAt(net, cur, component);
    var f := i => F(k, i);
    if IsAppliance(NodeOrNone(net.g, p)) {
      assert HasHost(net, p);
      var i :| IsHost(net, p, i) && forall j :: IsHost(net, p, j) ==> i == j;
      SumSingle(f, i, 0, |net.order|);
    } else {
      SumZero(f, 0, |net.order|);
    }
  }

  lemma {:induction false} ColumnOfSwitch(net: Network, cur: Currents, component: seq<string>, i: int)
    requires Wired(net, component) && 0 <= i < |net.order|
    ensures InjectionVector(net, cur)(i) == Sum(k => InjectedAt(net, cur, component)(k, i), 0, |component|)
  {
    var ns, F := net.adj[net.order[i]], InjectedAt(net, cur, component);
    var f := k => F(k, i);
    if HasAppliance(net.g, ns) {
      var a :| 0 <= a < |ns| && IsAppliance(NodeOrNone(net.g, ns[a]));
      SingleAppliance(net.g, cur, ns, a);
      assert ns[a] in component;
      var k :| 0 <= k < |component| && component[k] == ns[a];
      forall c | 0 <= c < |component| && c != k ensures f(c) == 0.0 {
        OtherInterface(net.g, ns, a, component[c]);
      }
      SumSingle(f, k, 0, |component|);
    } else {
      NoApplianceNoCurrent(net.g, cur, ns);
      forall c | 0 <= c < |component| ensures f(c) == 0.0 {
        if component[c] in ns {
          var b :| 0 <= b < |ns| && ns[b] == component[c];
          assert !IsAppliance(NodeOrNone(net.g, ns[b]));
        }
      }
      SumZero(f, 0, |component|);
    }
  }

  lemma OtherInterface(g: Grid, ns: seq<string>, a: int, p: string)
    requires AtMostOneAppliance(g, ns) && 0 <= a < |ns| && IsAppliance(NodeOrNone(g, ns[a]))
    requires p != ns[a]
    ensures p in ns ==> !IsAppliance(NodeOrNone(g, p))
  {
    if p in ns {
      var b :| 0 <= b < |ns| && ns[b] == p;
    }
  }

  /** All injections together are what the component's appliances inject together. */
  lemma {:induction false} InjectionTotal(net: Network, cur: Currents, component: seq<string>)
    requires Wired(net, component)
    ensures Sum(InjectionVector(net, cur), 0, |net.order|) == Sum(SignedAll(net.g, cur, component), 0, |component|)
  {
    forall k | 0 <= k < |component|
      ensures SignedAll(net.g, cur, component)(k) == Sum(i => InjectedAt(net, cur, component)(k, i), 0, |net.order|)
    {
      RowOfInterface(net, cur, component, k);
    }
    forall i | 0 <= i < |net.order|
      ensures InjectionVector(net, cur)(i) == Sum(k => InjectedAt(net, cur, component)(k, i), 0, |component|)
    {
      ColumnOfSwitch(net, cur, component, i);
    }
    SumSwap(InjectedAt(net, cur, component), SignedAll(net.g, cur, component), InjectionVector(net, cur), |component|,
            |net.order|);
  }

  /** The currents are the shares computed by load balancing. */
  ghost predicate HoldsShares(g: Grid, cur: Currents, component: seq<string>, s: real, d: real) {
    forall p :: p in component && IsAppliance(NodeOrNone(g, p))
      ==> CurrentAt(g, cur, p) == Share(NodeOrNone(g, p), s, d)
  }

  lemma {:induction false} SignedTotal(g: Grid, cur: Currents, component: seq<string>, s: real, d: real)
    requires HoldsShares(g, cur, component, s, d)
    ensures Sum(SignedAll(g, cur, component), 0, |component|)
         == Supplied(Nodes(g, component), s, d) - Drawn(Nodes(g, component), s, d)
  {
    if component != [] {
      var n := |component| - 1;
      var front := component[..n];
      SignedTotal(g, cur, front, s, d);
      SumExt(SignedAll(g, cur, component), SignedAll(g, cur, front), 0, n);
      LastSigned(g, cur, component, s, d);
    }
  }

  lemma LastSigned(g: Grid, cur: Currents, component: seq<string>, s: real, d: real)
    requires HoldsShares(g, cur, component, s, d) && component != []
    ensures var n, ns := |component| - 1, Nodes(g, component);
            && ns[..n] == Nodes(g, component[..n])
            && SignedAll(g, cur, component)(n)
              == Supplied(ns, s, d) - Supplied(ns[..n], s, d) - (Drawn(ns, s, d) - Drawn(ns[..n], s, d))
  {
    hide Share, CurrentAt;
    var n := |component| - 1;
    assert component[n] in component && Nodes(g, component)[..n] == Nodes(g, component[..n]);
    NotBoth(NodeOrNone(g, component[n]));
    SuppliesOrDemands(NodeOrNone(g, component[n]));
    hide NodeOrNone, IsSupply, IsDemand, IsAppliance;
  }

  lemma SuppliesOrDemands(n: Node)
    ensures IsSupply(n) || IsDemand(n) ==> IsAppliance(n)
  {}

  /** Main result: after load balancing the injections of a component sum to zero. */
  lemma {:induction false} BalancedInjections(net: Network, cur: Currents, component: seq<string>)
    requires Wired(net, component) && NonNegative(Nodes(net.g, component))
    requires HoldsShares(net.g, cur, component, DesiredSupplies(Nodes(net.g, component)),
                         DesiredDemands(Nodes(net.g, component)))
    ensures Sum(InjectionVector(net, cur), 0, |net.order|) == 0.0
  {
    InjectionTotal(net, cur, component);
    var ns := Nodes(net.g, component);
    SignedTotal(net.g, cur, component, DesiredSupplies(ns), DesiredDemands(ns));
    Conserved(ns);
  }

  /** Kirchhoff's current law at the grounded interface, for a component after balancing. */
  lemma {:induction false} GroundedRowHolds(net: Network, cur: Currents, component: seq<string>, U: Vec)
    requires net.Valid() && |net.order| > 0 && Wired(net, component) && NonNegative(Nodes(net.g, component))
    requires HoldsShares(net.g, cur, component, DesiredSupplies(Nodes(net.g, component)),
                         DesiredDemands(Nodes(net.g, component)))
    requires U(|net.order| - 1) == 0.0
    requires Solves(net.Conductances(), U, InjectionVector(net, cur), |net.order| - 1)
    ensures Solves(net.Conductances(), U, InjectionVector(net, cur), |net.order|)
  {
    hide Network.Valid, Network.Conductances, InjectionVector, IsLaplacian, Wired;
    var A, n, b := net.Conductances(), |net.order|, InjectionVector(net, cur);
    ConductancesAreLaplacian(net);
    BalancedInjections(net, cur, component);
    forall i | 0 <= i < n - 1 ensures Apply(A, U, n)(i) == b(i) {
      DotTruncate(Row(A, i), U, n - 1, n);
      assert Apply(A, U, n - 1)(i) == b(i);
    }
    DroppedRowHolds(A, U, b, n);
  }
}
