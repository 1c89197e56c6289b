/** The coordinator and its hosts together: what a run of the federation has computed. */
module FederatedRuns {
  import opened Sums
  import opened LinearAlgebra
  import opened Woodbury
  import opened Gsl
  import opened Sequences
  import opened Grids
  import opened LoadBalancing
  import opened Registries
  import opened BoundaryArrays
  import opened Coordinators
  import opened Federations
  import opened FederatedEnergy

  /** Whether every host has sent, since the last cancellation, the corrections of its injections as
      they are now. The grounded boundary interface does not matter. */
  ghost predicate UpToDate(events: seq<Event>, r: Registry, nets: map<string, HostNetwork>) {
    forall h, i :: Owns(r, h, i) && h in nets && i < |r.lines| - 1
      ==> SentEntry(events, h, i - r.starts[h]) == DeltaY(nets[h])(i - r.starts[h])
  }

  /** The injections that the hosts' networks ask for. */
  function Reduced(r: Registry, nets: map<string, HostNetwork>): Vec {
    i => if 0 <= i < |r.owners| && r.owners[i] in nets && r.owners[i] in r.starts
         then -DeltaY(nets[r.owners[i]])(i - r.starts[r.owners[i]]) else 0.0
  }

  /** Main result: in every reachable state of the coordinator of a connected federation, the
      boundary voltages that it holds and the hosts' back substitutions are the solution of the
      interconnected network, with the last boundary interface grounded, if and only if what the
      hosts have sent since the last cancellation is up to date. */
  lemma {:induction false} CoordinatedIsMonolithic(c: Coordinator, nets: map<string, HostNetwork>, x: map<string, Vec>)
    requires c.Valid() && Physical(c.reg, nets) && ConnectedFederation(c.reg)
    requires forall h :: h in c.reg.members ==> h in x && h in nets && h in c.reg.starts
    requires forall h, i :: h in c.reg.members && 0 <= i < nets[h].inner + |c.reg.members[h].lines|
               ==> x[h](i) == HostVoltages(nets[h], Slice(Contents(c.VB), c.reg.starts[h]), |c.reg.members[h].lines|)(i)
    ensures Reaches(c.log, c.reg)
    ensures MonolithicSolution(c.reg, nets, x, Contents(c.VB)) <==> UpToDate(c.log, c.reg, nets)
  {
    hide *;
    PhysicalFacts(c.reg, nets);
    c.ValidFacts();
    BoundaryFacts(c.boundary_nodes_number, c.YBB, c.IB, c.VB, c.pi_index_mapping, c.index_pi_mapping, c.pis, c.reg);
    BoundaryNonsingular(c.reg, nets);
    var I, V, R := Contents(c.IB), Contents(c.VB), Reduced(c.reg, nets);
    RunFacts(I, V, c.log, c.reg);
    ReducedInjections(c.reg, nets);
    UpToDateIff(I, V, c.log, c.reg, nets);
    if UpToDate(c.log, c.reg, nets) {
      SolvesExt(BoundaryMatrix(c.reg), BoundaryMatrix(c.reg), V, V, I, R, |c.reg.lines| - 1);
      SolvedBoundary(c.reg, nets, x, V, R);
      FederatedSolvesMonolithic(c.reg, nets, x, V, R);
    }
    if MonolithicSolution(c.reg, nets, x, V) {
      MonolithicIsFederated(c.reg, nets, x, V, R);
      SolvedRows(c.reg, nets, x, V, R);
      SameRows(BoundaryMatrix(c.reg), V, I, R, |c.reg.lines| - 1);
    }
  }

  /** Kirchhoff's current law at every boundary interface but the grounded one, with the current that its host
      was told: what leaves into the host's network is what enters through the tie and what is injected. */
  ghost predicate CurrentsEnter(r: Registry, nets: map<string, HostNetwork>, x: map<string, Vec>,
                                answers: map<string, seq<BoundaryAnswer>>) {
    forall h, k :: IsTold(r, answers, h, k) && h in nets && h in x && h in r.starts
                   && r.starts[h] + k != |r.lines| - 1
      ==> Apply(nets[h].A, x[h], nets[h].inner + |r.members[h].lines|)(nets[h].inner + k)
          == answers[h][k].current + nets[h].I(nets[h].inner + k)
  }

  /** Main result: a host is told the voltages that it will hold, and the currents it is told are those that
      enter its network if and only if what the hosts have sent is up to date. */
  lemma {:induction false} AnswersAreCurrents(c: Coordinator, nets: map<string, HostNetwork>, x: map<string, Vec>,
                                              answers: map<string, seq<BoundaryAnswer>>)
    requires c.Valid() && Physical(c.reg, nets) && ConnectedFederation(c.reg)
    requires forall h :: h in c.reg.members ==> h in x && h in nets && h in c.reg.starts
    requires forall h, i :: h in c.reg.members && 0 <= i < nets[h].inner + |c.reg.members[h].lines|
               ==> x[h](i) == HostVoltages(nets[h], Slice(Contents(c.VB), c.reg.starts[h]), |c.reg.members[h].lines|)(i)
    requires TellsVoltages(c.reg, Contents(c.VB), answers) && TellsTies(c.reg, answers)
    ensures forall h, k :: h in c.reg.members && 0 <= k < |c.reg.members[h].lines|
              ==> IsTold(c.reg, answers, h, k) && answers[h][k].voltage == x[h](nets[h].inner + k)
    ensures CurrentsEnter(c.reg, nets, x, answers) <==> UpToDate(c.log, c.reg, nets)
  {
    hide *;
    CoordinatedIsMonolithic(c, nets, x);
    PhysicalFacts(c.reg, nets);
    c.ValidFacts();
    BoundaryFacts(c.boundary_nodes_number, c.YBB, c.IB, c.VB, c.pi_index_mapping, c.index_pi_mapping, c.pis, c.reg);
    RightVoltages(c.reg, nets, x, Contents(c.VB), answers);
    RightCurrents(c.reg, nets, x, Contents(c.VB), answers);
  }

  lemma RightVoltages(r: Registry, nets: map<string, HostNetwork>, x: map<string, Vec>, V: Vec,
                      answers: map<string, seq<BoundaryAnswer>>)
    requires TellsVoltages(r, V, answers) && forall h :: h in r.members ==> h in x && h in nets && h in r.starts
    requires forall h, i :: h in r.members && 0 <= i < nets[h].inner + |r.members[h].lines|
               ==> x[h](i) == HostVoltages(nets[h], Slice(V, r.starts[h]), |r.members[h].lines|)(i)
    ensures forall h, k :: h in r.members && 0 <= k < |r.members[h].lines|
              ==> IsTold(r, answers, h, k) && answers[h][k].voltage == x[h](nets[h].inner + k)
  {
    hide HostVoltages;
    forall h, k | h in r.members && 0 <= k < |r.members[h].lines|
      ensures IsTold(r, answers, h, k) && answers[h][k].voltage == x[h](nets[h].inner + k)
    {
      BoundaryVoltage(nets[h], V, r.starts[h], |r.members[h].lines|, k);
    }
  }

  /** The current told is minus the current that leaves through the tie. */
  lemma ToldTie(r: Registry, V: Vec, answers: map<string, seq<BoundaryAnswer>>, h: string, k: int)
    requires Consistent(r) && TellsVoltages(r, V, answers) && TellsTies(r, answers) && IsTold(r, answers, h, k)
    ensures h in r.starts && answers[h][k].current == -TieFlow(r.lines, V, r.starts[h] + k)
  {
    hide Consistent, TellsVoltages, TellsTies, TieFlow, Listed;
    ToldFacts(r, answers, h, k);
    var i, partner := PlaceOf(r, answers, h, k);
    if Listed(r.lines, partner) {
      var j := IndexOf(r.lines, partner);
      var g := OwnerOfLine(r, j);
      var l := j - r.starts[g];
      VoltageAt(r, V, answers, g, l);
      VoltageAt(r, V, answers, h, k);
      TieOf(r, answers, h, k, g, l);
    } else {
      forall g, l | IsTold(r, answers, g, l) ensures partner != r.members[g].lines[l].id {
        var _, _ := PlaceOf(r, answers, g, l);
      }
      NoTieOf(r, answers, h, k);
    }
    TieFlowIs(r.lines, V, i);
  }

  /** Where an interface stands in the boundary matrix. */
  lemma PlaceOf(r: Registry, answers: map<string, seq<BoundaryAnswer>>, h: string, k: int)
    returns (i: int, partner: string)
    requires Consistent(r) && IsTold(r, answers, h, k)
    ensures h in r.members && h in r.starts && 0 <= k < |r.members[h].lines|
    ensures i == r.starts[h] + k && 0 <= i < |r.lines| && r.lines[i] == r.members[h].lines[k]
    ensures partner == r.lines[i].partner && Listed(r.lines, r.lines[i].id)
  {
    hide DistinctIds, Mutual, Registration.WellFormed;
    RangeInside(r, h);
    i := r.starts[h] + k;
    assert Owns(r, h, i);
    OwnLine(r, i);
    partner := r.lines[i].partner;
  }

  lemma VoltageAt(r: Registry, V: Vec, answers: map<string, seq<BoundaryAnswer>>, h: string, k: int)
    requires TellsVoltages(r, V, answers) && h in r.members && 0 <= k < |r.members[h].lines|
    ensures IsTold(r, answers, h, k) && h in r.starts && answers[h][k].voltage == V(r.starts[h] + k)
  {}

  lemma TieOf(r: Registry, answers: map<string, seq<BoundaryAnswer>>, h: string, k: int, g: string, l: int)
    requires TellsTies(r, answers) && IsTold(r, answers, h, k) && IsTold(r, answers, g, l)
    requires r.members[h].lines[k].partner == r.members[g].lines[l].id
    ensures answers[h][k].current == answers[g][l].voltage - answers[h][k].voltage
  {}

  lemma NoTieOf(r: Registry, answers: map<string, seq<BoundaryAnswer>>, h: string, k: int)
    requires TellsTies(r, answers) && IsTold(r, answers, h, k)
    requires forall g, l :: IsTold(r, answers, g, l) ==> r.members[h].lines[k].partner != r.members[g].lines[l].id
    ensures answers[h][k].current == 0.0
  {}

  lemma TieFlowIs(lines: seq<BoundaryLine>, V: Vec, i: int)
    requires 0 <= i < |lines|
    ensures if Listed(lines, lines[i].partner) then TieFlow(lines, V, i) == V(i) - V(IndexOf(lines, lines[i].partner))
            else TieFlow(lines, V, i) == 0.0
  {}

  /** The law with the currents told is the row of the interconnected network. */
  lemma RowTold(r: Registry, nets: map<string, HostNetwork>, x: map<string, Vec>, V: Vec,
                answers: map<string, seq<BoundaryAnswer>>, h: string, k: int)
    requires Consistent(r) && TellsVoltages(r, V, answers) && TellsTies(r, answers) && IsTold(r, answers, h, k)
    requires h in nets && h in x && h in r.starts
    ensures RowHolds(r, nets, x[h], V, h, nets[h].inner + k)
       <==> Apply(nets[h].A, x[h], nets[h].inner + |r.members[h].lines|)(nets[h].inner + k)
              == answers[h][k].current + nets[h].I(nets[h].inner + k)
  {
    ToldTie(r, V, answers, h, k);
    hide Apply, TieFlow, Consistent, TellsVoltages, TellsTies;
  }

  lemma RightCurrents(r: Registry, nets: map<string, HostNetwork>, x: map<string, Vec>, V: Vec,
                      answers: map<string, seq<BoundaryAnswer>>)
    requires Federated(r, nets) && V(|r.lines| - 1) == 0.0
    requires forall h :: h in r.members ==> h in x && h in nets && h in r.starts
    requires forall h, i :: h in r.members && 0 <= i < nets[h].inner + |r.members[h].lines|
               ==> x[h](i) == HostVoltages(nets[h], Slice(V, r.starts[h]), |r.members[h].lines|)(i)
    requires TellsVoltages(r, V, answers) && TellsTies(r, answers)
    ensures CurrentsEnter(r, nets, x, answers) <==> MonolithicSolution(r, nets, x, V)
  {
    hide Consistent, Sent, HostVoltages, RowHolds, TellsVoltages, TellsTies, Apply;
    forall h, k | h in r.members && 0 <= k < |r.members[h].lines|
      ensures IsTold(r, answers, h, k) && h in answers && k < |answers[h]|
      ensures RowHolds(r, nets, x[h], V, h, nets[h].inner + k)
         <==> Apply(nets[h].A, x[h], nets[h].inner + |r.members[h].lines|)(nets[h].inner + k)
                == answers[h][k].current + nets[h].I(nets[h].inner + k)
    {
      VoltageAt(r, V, answers, h, k);
      RowTold(r, nets, x, V, answers, h, k);
    }
    if CurrentsEnter(r, nets, x, answers) {
      forall h, i | h in r.members && 0 <= i < nets[h].inner + |r.members[h].lines| && !Ground(r, nets, h, i)
        ensures RowHolds(r, nets, x[h], V, h, i)
      {
        if i < nets[h].inner {
          RowHoldsExt(r, nets, x[h], HostVoltages(nets[h], Slice(V, r.starts[h]), |r.members[h].lines|), V, h, i);
          InnerRowHolds(r, nets, V, h, i);
        } else {
          var k := i - nets[h].inner;
          assert i == nets[h].inner + k && IsTold(r, answers, h, k);
        }
      }
      forall h, i | Owns(r, h, i) ensures x[h](nets[h].inner + (i - r.starts[h])) == V(i) {
        BoundaryVoltage(nets[h], V, r.starts[h], |r.members[h].lines|, i - r.starts[h]);
      }
    }
    if MonolithicSolution(r, nets, x, V) {
      forall h, k | IsTold(r, answers, h, k) && h in nets && h in x && h in r.starts && r.starts[h] + k != |r.lines| - 1
        ensures RowHolds(r, nets, x[h], V, h, nets[h].inner + k)
      {
        ToldFacts(r, answers, h, k);
      }
    }
  }

  /** Main result: right after a cancellation they are the solution if and only if no host has anything
      to send, apart from the grounded interface. */
  lemma AfterCancellation(c: Coordinator, nets: map<string, HostNetwork>, x: map<string, Vec>)
    requires c.Valid() && Physical(c.reg, nets) && ConnectedFederation(c.reg)
    requires forall h :: h in c.reg.members ==> h in x && h in nets && h in c.reg.starts
    requires forall h, i :: h in c.reg.members && 0 <= i < nets[h].inner + |c.reg.members[h].lines|
               ==> x[h](i) == HostVoltages(nets[h], Slice(Contents(c.VB), c.reg.starts[h]), |c.reg.members[h].lines|)(i)
    requires c.log != [] && c.log[|c.log| - 1].HostLeaves?
    ensures MonolithicSolution(c.reg, nets, x, Contents(c.VB))
       <==> forall h, i :: Owns(c.reg, h, i) && h in nets && i < |c.reg.lines| - 1
              ==> DeltaY(nets[h])(i - c.reg.starts[h]) == 0.0
  {
    hide *;
    CoordinatedIsMonolithic(c, nets, x);
    NothingUpToDate(c.log, c.reg, nets);
  }

  lemma NothingUpToDate(events: seq<Event>, r: Registry, nets: map<string, HostNetwork>)
    requires events != [] && events[|events| - 1].HostLeaves?
    ensures SentSince(events) == map[]
    ensures UpToDate(events, r, nets)
       <==> forall h, i :: Owns(r, h, i) && h in nets && i < |r.lines| - 1 ==> DeltaY(nets[h])(i - r.starts[h]) == 0.0
  {
    hide DeltaY;
    assert SentSince(events) == map[];
  }

  lemma RunFacts(I: Vec, V: Vec, events: seq<Event>, r: Registry)
    requires RunOk(I, V, events, r) && Nonsingular(BoundaryMatrix(r), |r.lines| - 1)
    ensures Reaches(events, r) && Solves(BoundaryMatrix(r), V, I, |r.lines| - 1)
  {
    hide Reaches, Nonsingular, Solves, SentSince;
  }

  lemma ReducedInjections(r: Registry, nets: map<string, HostNetwork>)
    requires Federated(r, nets)
    ensures BoundaryInjections(r, nets, Reduced(r, nets))
  {
    hide Sent, DeltaY, DistinctIds, Mutual, Registration.WellFormed;
    forall h, i | Owns(r, h, i) && h in nets ensures Reduced(r, nets)(i) == -DeltaY(nets[h])(i - r.starts[h]) {
      assert r.owners[i] == h;
    }
  }

  /** The coordinator's injections are those asked for exactly when what was sent is up to date. */
  lemma UpToDateIff(I: Vec, V: Vec, events: seq<Event>, r: Registry, nets: map<string, HostNetwork>)
    requires Federated(r, nets) && RunOk(I, V, events, r) && BoundaryInjections(r, nets, Reduced(r, nets))
    ensures UpToDate(events, r, nets) <==> forall i :: 0 <= i < |r.lines| - 1 ==> I(i) == Reduced(r, nets)(i)
  {
    hide Sent, DeltaY, DistinctIds, Mutual, Registration.WellFormed, SentSince, Reaches, Voltages, Reduced, SentEntry;
    forall i | 0 <= i < |r.lines| - 1
      ensures Owns(r, r.owners[i], i) && r.owners[i] in nets
    {
      OwnLine(r, i);
    }
    if UpToDate(events, r, nets) {
      forall i | 0 <= i < |r.lines| - 1 ensures I(i) == Reduced(r, nets)(i) {
        assert Owns(r, r.owners[i], i);
      }
    }
    if forall i :: 0 <= i < |r.lines| - 1 ==> I(i) == Reduced(r, nets)(i) {
      forall h, i | Owns(r, h, i) && h in nets && i < |r.lines| - 1
        ensures SentEntry(events, h, i - r.starts[h]) == DeltaY(nets[h])(i - r.starts[h])
      {
        assert i >= 0;
      }
    }
  }

  lemma SolvedRows(r: Registry, nets: map<string, HostNetwork>, x: map<string, Vec>, V: Vec, I: Vec)
    requires FederatedSolution(r, nets, x, V, I)
    ensures Solves(BoundaryMatrix(r), V, I, |r.lines| - 1)
  {
    hide Solves, BoundaryMatrix, HostVoltages;
  }

  lemma SameRows(A: Mat, V: Vec, I: Vec, J: Vec, n: int)
    requires Solves(A, V, I, n) && Solves(A, V, J, n)
    ensures forall i :: 0 <= i < n ==> I(i) == J(i)
  {
    forall i | 0 <= i < n ensures I(i) == J(i) {
      assert Apply(A, V, n)(i) == I(i) && Apply(A, V, n)(i) == J(i);
    }
  }

  lemma PhysicalFacts(r: Registry, nets: map<string, HostNetwork>)
    requires Physical(r, nets)
    ensures Federated(r, nets) && |r.lines| > 0
  {
    hide Consistent, Sent;
  }

  lemma SolvedBoundary(r: Registry, nets: map<string, HostNetwork>, x: map<string, Vec>, V: Vec, I: Vec)
    requires Solves(BoundaryMatrix(r), V, I, |r.lines| - 1) && V(|r.lines| - 1) == 0.0
    requires forall h :: h in r.members ==> h in r.starts && h in nets && h in x
    requires forall h, i :: h in r.members && 0 <= i < nets[h].inner + |r.members[h].lines|
               ==> x[h](i) == HostVoltages(nets[h], Slice(V, r.starts[h]), |r.members[h].lines|)(i)
    ensures FederatedSolution(r, nets, x, V, I)
  {
    hide Solves, BoundaryMatrix, HostVoltages;
  }

  // ----- loads -----

  /** names lists the hosts once each, and nodes the appliances behind each of them. */
  ghost predicate LoadsOf(loads: map<string, Load>, names: seq<string>, nodes: seq<seq<Node>>) {
    && |names| == |nodes| && Distinct(names) && (forall h :: h in names <==> h in loads)
    && forall k :: 0 <= k < |names| ==> loads[names[k]] == Load(DesiredDemands(nodes[k]), DesiredSupplies(nodes[k]))
  }

  /** What the coordinator has added up are the totals over all appliances of all hosts. */
  lemma {:induction false} TotalsOverHosts(loads: map<string, Load>, names: seq<string>, nodes: seq<seq<Node>>)
    requires LoadsOf(loads, names, nodes)
    ensures Total(loads, SuppliesOf) == HostSupplies(nodes) && Total(loads, DemandsOf) == HostDemands(nodes)
    decreases |names|
  {
    hide *;
    if names == [] {
      NoHosts(loads, names, nodes);
    } else {
      var n := |names| - 1;
      var h := names[n];
      LastHost(loads, names, nodes);
      LastTotals(nodes);
      TotalSplits(loads, SuppliesOf, h);
      TotalSplits(loads, DemandsOf, h);
      TotalsOverHosts(loads - {h}, names[..n], nodes[..n]);
    }
  }

  lemma NoHosts(loads: map<string, Load>, names: seq<string>, nodes: seq<seq<Node>>)
    requires LoadsOf(loads, names, nodes) && names == []
    ensures Total(loads, SuppliesOf) == HostSupplies(nodes) && Total(loads, DemandsOf) == HostDemands(nodes)
  {
    assert loads == map[];
  }

  lemma LastTotals(nodes: seq<seq<Node>>)
    requires nodes != []
    ensures var n := |nodes| - 1;
            && HostSupplies(nodes) == HostSupplies(nodes[..n]) + DesiredSupplies(nodes[n])
            && HostDemands(nodes) == HostDemands(nodes[..n]) + DesiredDemands(nodes[n])
  {}

  lemma LastHost(loads: map<string, Load>, names: seq<string>, nodes: seq<seq<Node>>)
    requires LoadsOf(loads, names, nodes) && names != []
    ensures LoadsOf(loads - {names[|names| - 1]}, names[..|names| - 1], nodes[..|names| - 1])
    ensures var n := |names| - 1;
            && |nodes| == |names| && names[n] in loads
            && SuppliesOf(loads[names[n]]) == DesiredSupplies(nodes[n])
            && DemandsOf(loads[names[n]]) == DesiredDemands(nodes[n])
  {
    var n := |names| - 1;
    hide DesiredDemands, DesiredSupplies;
    forall h ensures h in names[..n] <==> h in loads && h != names[n] {
      assert names == names[..n] + [names[n]];
      if h in names[..n] {
        var k :| 0 <= k < n && names[k] == h;
      }
    }
  }

  /** Main result: in every reachable state of the coordinator, a host that splits the share it was given
      over its own appliances gives one of them exactly what balancing the appliances of all hosts
      together would have given it, if and only if it does not divide by a desired total of 0 where that
      balancing does not. */
  lemma CoordinatedSharingIsFlat(c: Coordinator, names: seq<string>, nodes: seq<seq<Node>>, k: nat, n: Node)
    requires c.Valid() && LoadsOf(c.reg.loads, names, nodes) && k < |names| && n in nodes[k]
    ensures names[k] in c.hosts
    ensures var h, s, d := c.hosts[names[k]], DesiredSupplies(nodes[k]), DesiredDemands(nodes[k]);
            var share := HostShare(c.total_desired_demands > c.total_desired_supplies, h.demands, h.supplies);
            ShareWithinHost(n, share, s, d)
              == Balanced(n, DesiredSupplies(Flatten(nodes)), DesiredDemands(Flatten(nodes)))
            <==> HostDivides(n, s, d, c.total_desired_supplies, c.total_desired_demands)
  {
    hide *;
    c.ValidFacts();
    HostOfList(c.hosts, c.total_desired_supplies, c.total_desired_demands, c.reg, names, nodes, k);
    TotalsOverHosts(c.reg.loads, names, nodes);
    TwoLevelIsFlat(nodes, k, n);
  }

  lemma HostOfList(hosts: map<string, Host>, supplies: real, demands: real, r: Registry, names: seq<string>,
                   nodes: seq<seq<Node>>, k: nat)
    requires LoadsOk(hosts, supplies, demands, r) && SharesCurrent(hosts, supplies, demands)
    requires LoadsOf(r.loads, names, nodes) && k < |names|
    ensures names[k] in hosts && |names| == |nodes|
    ensures supplies == Total(r.loads, SuppliesOf) && demands == Total(r.loads, DemandsOf)
    ensures HostShare(demands > supplies, hosts[names[k]].demands, hosts[names[k]].supplies)
         == ShareOfHost(DesiredSupplies(nodes[k]), DesiredDemands(nodes[k]), supplies, demands)
  {
    hide DesiredDemands, DesiredSupplies, Total, Quota;
    var h := names[k];
    assert h in names && h in r.loads;
    assert HostMatches(hosts[h], r, h);
    assert hosts[h] == Shared(hosts[h], supplies, demands);
  }
}
