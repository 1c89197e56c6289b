/** A federation in which a third host comes and goes, and leaves the coordinator with voltages that are
    not those of the network that remains. */
module Cancellations {
  import opened Sequences
  import opened Sums
  import opened LinearAlgebra
  import opened Woodbury
  import opened Gsl
  import opened Registries
  import opened BoundaryArrays
  import opened Coordinators
  import opened Federations
  import opened FederatedEnergy
  import opened FederatedRuns
  import opened SmallHosts

  /** Host a is tied to b, and b to c. */
  const A1 := BoundaryLine("a1", 1.0, "b1")
  const B1 := BoundaryLine("b1", 1.0, "a1")
  const B2 := BoundaryLine("b2", 1.0, "c1")
  const C1 := BoundaryLine("c1", 1.0, "b2")
  const OF_A := Registration([A1], [[1.0]])
  const OF_B := Registration([B1, B2], [[0.5, 0.5], [0.5, 0.5]])
  const OF_C := Registration([C1], [[1.0]])

  const NO_LOAD := Load(0.0, 0.0)

  /** The networks of the hosts that stay: 5 is injected at a. */
  function Hosts(): map<string, HostNetwork> {
    map["a" := Pair(5.0), "b" := Fork()]
  }

  function OneHost(): Registry {
    Registry(map["a" := NO_LOAD], map["a" := OF_A], map["a" := 0], [A1], ["a"])
  }

  function TwoHosts(): Registry {
    Registry(map["a" := NO_LOAD, "b" := NO_LOAD], map["a" := OF_A, "b" := OF_B], map["a" := 0, "b" := 1],
             [A1, B1, B2], ["a", "b", "b"])
  }

  lemma NamesApart()
    ensures "a" != "b" && "a" != "c" && "b" != "c"
    ensures "a1" != "b1" && "a1" != "b2" && "a1" != "c1" && "b1" != "b2" && "b1" != "c1" && "b2" != "c1"
  {
    assert "a"[0] != "b"[0] && "a"[0] != "c"[0] && "b"[0] != "c"[0];
    assert "a1"[0] != "b1"[0] && "a1"[0] != "b2"[0] && "a1"[0] != "c1"[0] && "b1"[1] != "b2"[1] && "b1"[0] != "c1"[0]
      && "b2"[0] != "c1"[0];
  }

  lemma LinesMatch()
    ensures DistinctIds([A1, B1, B2, C1]) && Mutual([A1, B1, B2, C1])
  {
    NamesApart();
  }

  lemma FirstMatch(n: nat)
    requires n <= 4
    ensures DistinctIds([A1, B1, B2, C1][..n]) && Mutual([A1, B1, B2, C1][..n])
  {
    LinesMatch();
    var all := [A1, B1, B2, C1];
    forall i | 0 <= i < n ensures all[..n][i] == all[i] {}
  }

  lemma AComes()
    ensures CanRegister(LoadUpdated(NO_REGISTRY, "a", NO_LOAD), "a", OF_A)
    ensures Registered(LoadUpdated(NO_REGISTRY, "a", NO_LOAD), "a", OF_A) == OneHost()
  {
    FirstMatch(1);
    assert [A1, B1, B2, C1][..1] == [] + OF_A.lines == OF_A.lines;
    var r := LoadUpdated(NO_REGISTRY, "a", NO_LOAD);
    assert r.owners + seq(1, _ => "a") == ["a"];
  }

  lemma BComes()
    ensures CanRegister(LoadUpdated(OneHost(), "b", NO_LOAD), "b", OF_B)
    ensures Registered(LoadUpdated(OneHost(), "b", NO_LOAD), "b", OF_B) == TwoHosts()
  {
    NamesApart();
    FirstMatch(3);
    assert [A1, B1, B2, C1][..3] == [A1] + OF_B.lines;
    LinesOfB();
    hide Mutual, DistinctIds;
    assert ["a"] + seq(2, _ => "b") == ["a", "b", "b"];
  }

  lemma LinesOfB()
    ensures OF_B.WellFormed()
  {
    NamesApart();
  }

  lemma CComes()
    ensures "c" !in TwoHosts().loads && CanRegister(LoadUpdated(TwoHosts(), "c", NO_LOAD), "c", OF_C)
  {
    NamesApart();
    FirstMatch(4);
    assert [A1, B1, B2, C1][..4] == TwoHosts().lines + OF_C.lines;
    hide Mutual;
  }

  lemma CLeaves()
    ensures var r := Registered(LoadUpdated(TwoHosts(), "c", NO_LOAD), "c", OF_C);
            CanCancel(r, "c") && ListsHost(["c1"], r, "c")
  {
    NamesApart();
    var r := Registered(LoadUpdated(TwoHosts(), "c", NO_LOAD), "c", OF_C);
    assert r.lines == [A1, B1, B2, C1] && r.starts["c"] == 3;
    assert r.lines[2].id == "b2" && r.lines[3].id == "c1";
  }

  lemma ASent()
    ensures Sent(Pair(5.0), OF_A)
  {
    PairConducts(5.0);
    PairProducts(5.0);
    hide IsInverse, DeltaX;
  }

  lemma BSent()
    ensures Sent(Fork(), OF_B)
  {
    ForkInverse();
    forall k, l | 0 <= k < 2 && 0 <= l < 2 ensures DeltaX(Fork())(k, l) == 0.5 && EntryOf(OF_B.deltaX, k, l) == 0.5 {
      ForkDeltaX(Fork(), k, l);
    }
    hide IsInverse, DeltaX, EntryOf;
  }

  /** What c joins and leaves is a connected federation, and its hosts have sent what they should have. */
  lemma TwoHostsPhysical()
    requires Consistent(TwoHosts())
    ensures Physical(TwoHosts(), Hosts())
  {
    NamesApart();
    ASent();
    BSent();
    PairConducts(5.0);
    ForkConducts();
    hide Consistent, Conducting, Sent, Pair, Fork;
  }

  lemma TwoHostsConnected()
    ensures ConnectedFederation(TwoHosts())
  {
    NamesApart();
    var r := TwoHosts();
    assert Owns(r, "a", 0) && Owns(r, "b", 1) && Owns(r, "b", 2) && r.lines[0].partner == r.lines[1].id;
    assert Tied(r, "a", "b");
    hide Tied;
    var p, q := ["a", "b"], ["b"];
    assert ChainStep(r, p, 0) && ChainStep(r, p, 1) && ChainStep(r, q, 0);
    assert IsGroundChain(r, p, "a") && IsGroundChain(r, q, "b");
  }

  lemma Members()
    ensures var r := TwoHosts();
            (forall h :: h in r.members ==> h in Hosts() && h in r.starts) && |r.lines| == 3
    ensures forall h, i :: Owns(TwoHosts(), h, i) <==> (h == "a" && i == 0) || (h == "b" && 1 <= i < 3)
    ensures TwoHosts().starts["a"] == 0 && TwoHosts().starts["b"] == 1
    ensures Hosts()["a"] == Pair(5.0) && Hosts()["b"] == Fork()
  {
    NamesApart();
  }

  lemma VoltagesAre(V: Vec)
    ensures forall h :: h in TwoHosts().members ==> h in Hosts() && h in TwoHosts().starts
    ensures var r, nets, x := TwoHosts(), Hosts(), AllVoltages(TwoHosts(), Hosts(), V);
            && (forall h :: h in r.members ==> h in x)
            && forall h, i :: h in r.members && 0 <= i < nets[h].inner + |r.members[h].lines|
                 ==> x[h](i) == HostVoltages(nets[h], Slice(V, r.starts[h]), |r.members[h].lines|)(i)
  {
    Members();
    hide TwoHosts, Hosts, HostVoltages;
  }

  /** The log before c comes. */
  function LogOfTwo(): seq<Event> {
    [] + [HostLoads("a", NO_LOAD)] + [HostJoins("a", OF_A, [-5.0])] + [HostLoads("b", NO_LOAD)]
      + [HostJoins("b", OF_B, [0.0, 0.0])]
  }

  lemma SentByTwo()
    ensures SentSince(LogOfTwo()) == map["a" := [-5.0]]["b" := [0.0, 0.0]]
  {
    var first := [] + [HostLoads("a", NO_LOAD)];
    var second := first + [HostJoins("a", OF_A, [-5.0])];
    var third := second + [HostLoads("b", NO_LOAD)];
    SentNext([], HostLoads("a", NO_LOAD));
    SentNext(first, HostJoins("a", OF_A, [-5.0]));
    SentNext(second, HostLoads("b", NO_LOAD));
    SentNext(third, HostJoins("b", OF_B, [0.0, 0.0]));
  }

  lemma EntriesOfTwo()
    ensures var sent := map["a" := [-5.0]]["b" := [0.0, 0.0]];
            "a" in sent && sent["a"] == [-5.0] && "b" in sent && sent["b"] == [0.0, 0.0]
  {
    NamesApart();
  }

  lemma TwoHostsUpToDate()
    ensures UpToDate(LogOfTwo(), TwoHosts(), Hosts())
  {
    hide SentSince, DeltaY, Owns, TwoHosts, Hosts, LogOfTwo, Pair;
    SentByTwo();
    EntriesOfTwo();
    Members();
    PairProducts(5.0);
    ForkDeltaY(Fork(), 0);
    ForkDeltaY(Fork(), 1);
    assert Fork().I(0) == 0.0;
  }

  lemma TwoHostsNotQuiet()
    ensures Owns(TwoHosts(), "a", 0) && "a" in Hosts() && 0 < |TwoHosts().lines| - 1
    ensures DeltaY(Hosts()["a"])(0 - TwoHosts().starts["a"]) == -5.0
  {
    Members();
    PairProducts(5.0);
  }

  /** Main result: a run in which a cancellation makes the voltages wrong. Before c comes, the coordinator
      holds those of the network that a and b make. After it has left, the network is the same, but the
      coordinator has forgotten what a has sent. */
  method CancellationForgets() returns (c: Coordinator, ghost before: Vec)
    ensures c.Valid() && c.reg == TwoHosts() && Physical(c.reg, Hosts()) && ConnectedFederation(c.reg)
    ensures forall h :: h in c.reg.members ==> h in Hosts() && h in c.reg.starts
    ensures MonolithicSolution(c.reg, Hosts(), AllVoltages(c.reg, Hosts(), before), before)
    ensures SentSince(c.log) == map[] && !UpToDate(c.log, c.reg, Hosts())
    ensures !MonolithicSolution(c.reg, Hosts(), AllVoltages(c.reg, Hosts(), Contents(c.VB)), Contents(c.VB))
  {
    hide *;
    c := TwoJoin();
    before := Contents(c.VB);
    c.ValidFacts();
    BoundaryFacts(c.boundary_nodes_number, c.YBB, c.IB, c.VB, c.pi_index_mapping, c.index_pi_mapping, c.pis, c.reg);
    IsLogOfTwo();
    TwoHostsPhysical();
    TwoHostsConnected();
    Members();
    VoltagesAre(before);
    TwoHostsUpToDate();
    CoordinatedIsMonolithic(c, Hosts(), AllVoltages(c.reg, Hosts(), before));
    CComes();
    CLeaves();
    JoinAndLeave(c, "c", NO_LOAD, OF_C, [0.0], ["c1"]);
    ghost var after := Contents(c.VB);
    VoltagesAre(after);
    NothingUpToDate(c.log, c.reg, Hosts());
    CoordinatedIsMonolithic(c, Hosts(), AllVoltages(c.reg, Hosts(), after));
    TwoHostsNotQuiet();
  }

  method TwoJoin() returns (c: Coordinator)
    ensures fresh(c) && c.Valid() && c.reg == TwoHosts() && c.log == LogOfTwo()
  {
    hide *;
    AComes();
    BComes();
    IsLogOfTwo();
    c := new Coordinator();
    var share := c.LoadUpdate("a", 0.0, 0.0);
    var answers := c.Coordinate("a", OF_A, [-5.0]);
    share := c.LoadUpdate("b", 0.0, 0.0);
    answers := c.Coordinate("b", OF_B, [0.0, 0.0]);
  }

  lemma IsLogOfTwo()
    ensures LogOfTwo() == [] + [HostLoads("a", NO_LOAD)] + [HostJoins("a", OF_A, [-5.0])] + [HostLoads("b", NO_LOAD)]
                          + [HostJoins("b", OF_B, [0.0, 0.0])]
    ensures NO_LOAD == Load(0.0, 0.0) && |OF_A.lines| == 1 && |OF_B.lines| == 2 && |OF_C.lines| == 1
  {}
}
