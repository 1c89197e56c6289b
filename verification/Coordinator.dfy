/** The coordinator of a federation: loads, registrations, updates and cancellations of hosts,
    over a boundary matrix that grows and shrinks. */
module Coordinators {
  import opened Sequences
  import opened Sums
  import opened LinearAlgebra
  import opened Gsl
  import opened LoadBalancing
  import opened Registries
  import opened BoundaryArrays

  datatype Host = Host(desired_demands: real, desired_supplies: real, demands: Option<real>, supplies: Option<real>,
                       boundary_node_num: nat, start_index: int)

  ghost predicate HostMatches(host: Host, r: Registry, h: string) {
    && h in r.loads && host.desired_demands == r.loads[h].demands && host.desired_supplies == r.loads[h].supplies
    && if h in r.members && h in r.starts
       then host.boundary_node_num == |r.members[h].lines| && host.start_index == r.starts[h]
       else host.boundary_node_num == 0
  }

  ghost predicate HostsMatch(hosts: map<string, Host>, r: Registry) {
    hosts.Keys == r.loads.Keys && forall h :: h in hosts ==> HostMatches(hosts[h], r, h)
  }

  /** The array holds the registry's boundary matrix. */
  ghost predicate HoldsMatrix(Y: array2<real>, r: Registry)
    reads Y
  {
    && Y.Length0 == Y.Length1 == |r.lines|
    && forall j, k :: 0 <= j < Y.Length0 && 0 <= k < Y.Length0 ==> Y[j, k] == BoundaryMatrix(r)(j, k)
  }

  function Corrections(r: Registry): Mat {
    (j, k) => Correction(r, j, k)
  }

  // ----- registration -----

  lemma GrownHoldsTies(Y: array2<real>, Z: array2<real>, r: Registry, b: nat)
    requires Consistent(r) && HoldsMatrix(Y, r) && Z.Length0 == Z.Length1 == |r.lines| + b
    requires forall j, k :: 0 <= j < Z.Length0 && 0 <= k < Z.Length0
               ==> Z[j, k] == if j < |r.lines| && k < |r.lines| then Y[j, k] else 0.0
    ensures HoldsTies(Z, r.lines, Corrections(r))
    ensures forall j, k :: 0 <= j < Z.Length0 && 0 <= k < Z.Length0 && (j >= |r.lines| || k >= |r.lines|)
              ==> Corrections(r)(j, k) == 0.0
  {
    hide DistinctIds, Mutual;
    assert |r.owners| == |r.lines|;
  }

  lemma TiesLessDelta(Z: array2<real>, W: Mat, r: Registry, h: string, m: Registration)
    requires Consistent(r) && CanRegister(r, h, m) && Z.Length0 == Z.Length1 == |r.lines| + |m.lines|
    requires forall j, k :: 0 <= j < Z.Length0 && 0 <= k < Z.Length0
               ==> W(j, k) == TieEntry(r.lines + m.lines, j, k) - Corrections(r)(j, k)
    requires forall j, k :: 0 <= j < Z.Length0 && 0 <= k < Z.Length0
               ==> Z[j, k] == W(j, k) - if j >= |r.lines|
                   && k >= |r.lines| then EntryOf(m.deltaX, j - |r.lines|, k - |r.lines|) else 0.0
    ensures HoldsMatrix(Z, Registered(r, h, m))
  {
    hide TieEntry, Correction, Registration.WellFormed, Mutual, DistinctIds, EntryOf;
    var s := Registered(r, h, m);
    forall j, k | 0 <= j < Z.Length0 && 0 <= k < Z.Length0 ensures Z[j, k] == BoundaryMatrix(s)(j, k) {
      RegisterCorrection(r, h, m, j, k);
      if j >= |r.lines| || k >= |r.lines| {
        OutsideCorrection(r, j, k);
      }
    }
  }

  lemma OutsideCorrection(r: Registry, j: int, k: int)
    requires Consistent(r) && (j >= |r.lines| || k >= |r.lines|)
    ensures Correction(r, j, k) == 0.0
  {
    hide DistinctIds, Mutual;
    assert |r.owners| == |r.lines|;
  }

  lemma RegistrationFacts(r: Registry, h: string, m: Registration)
    requires Consistent(r) && CanRegister(r, h, m)
    ensures DistinctIds(r.lines + m.lines) && Mutual(r.lines + m.lines)
    ensures |m.deltaX| == |m.lines| > 0 && forall i :: 0 <= i < |m.deltaX| ==> |m.deltaX[i]| == |m.deltaX|
    ensures Registered(r, h, m).lines == r.lines + m.lines
  {}

  lemma TiesAre(Z: array2<real>, lines: seq<BoundaryLine>, C: Mat)
    requires HoldsTies(Z, lines, C)
    ensures Z.Length0 == Z.Length1
    ensures forall j, k :: 0 <= j < Z.Length0 && 0 <= k < Z.Length0
              ==> MatrixContents(Z)(j, k) == TieEntry(lines, j, k) - C(j, k)
  {
    hide TieEntry;
  }

  /** The new boundary matrix and index maps of a registration. */
  method RegisterBoundary(YBB: array2<real>, n: nat, m: Registration, pi_index: map<string, int>,
                          index_pi: map<int, string>, pis: map<string, PowerInterface>, ghost r: Registry,
                          ghost h: string)
    returns (Z: array2<real>, pi_index': map<string, int>, index_pi': map<int, string>,
             pis': map<string, PowerInterface>)
    requires Consistent(r) && CanRegister(r, h, m) && n == |r.lines|
    requires HoldsMatrix(YBB, r) && Indexed(pi_index, index_pi, r.lines) && Describes(pis, r.lines)
    ensures fresh(Z) && HoldsMatrix(Z, Registered(r, h, m))
    ensures Indexed(pi_index', index_pi', Registered(r, h, m).lines) && Describes(pis', Registered(r, h, m).lines)
  {
    hide *;
    HoldsSize(YBB, r);
    RegistrationFacts(r, h, m);
    Z := Grown(YBB, n, |m.lines|);
    GrownHoldsTies(YBB, Z, r, |m.lines|);
    pi_index', index_pi', pis' := RegisterLines(Z, n, m.lines, pi_index, index_pi, pis, r.lines, Corrections(r));
    TiesAre(Z, r.lines + m.lines, Corrections(r));
    ghost var W := MatrixContents(Z);
    SubtractDelta(Z, n, m.deltaX);
    TiesLessDelta(Z, W, r, h, m);
  }

  lemma HoldsSize(Y: array2<real>, r: Registry)
    requires HoldsMatrix(Y, r)
    ensures Y.Length0 == Y.Length1 == |r.lines|
  {}

  // ----- cancellation -----

  /** ids lists the interfaces of host h, in any order. */
  ghost predicate ListsHost(ids: seq<string>, r: Registry, h: string) {
    && |ids| > 0 && Distinct(ids) && h in r.members && h in r.starts
    && ListsRange(ids, r.lines, r.starts[h], |r.members[h].lines|)
    && (forall p :: p in ids ==> Listed(r.lines, p))
  }

  lemma CancelFacts(r: Registry, h: string, ids: seq<string>)
    requires Consistent(r) && CanCancel(r, h) && ListsHost(ids, r, h)
    ensures Ranged(r, h) && h in r.members && h in r.starts && r.starts[h] + |r.members[h].lines| <= |r.lines|
    ensures |r.members[h].lines| > 0 && DistinctIds(r.lines) && Mutual(r.lines) && PartnersListed(r.lines, ids)
    ensures |ids| > 0 && Distinct(ids) && ListsRange(ids, r.lines, r.starts[h], |r.members[h].lines|)
    ensures Listed(r.lines, ids[0])
    ensures forall i :: 0 <= i < |r.lines| - |r.members[h].lines|
              ==> 0 <= Unshifted(i, r.starts[h], |r.members[h].lines|) < |r.lines|
    ensures |r.members[h].lines| < |r.lines|
       ==> Cancelled(r, h).lines == Without(r.lines, r.starts[h], |r.members[h].lines|)
    ensures |r.members[h].lines| == |r.lines| ==> Cancelled(r, h) == NO_REGISTRY
  {
    hide DistinctIds, Mutual, Registration.WellFormed, Listed, Without;
    RangeInside(r, h);
    forall i | 0 <= i < |r.lines| && r.lines[i].id in ids ensures Listed(r.lines, r.lines[i].partner) {
      OwnLine(r, i);
    }
    assert ids[0] in ids;
  }

  lemma InRangeListed(lines: seq<BoundaryLine>, ids: seq<string>, start: int, count: int, p: string)
    requires ListsRange(ids, lines, start, count)
    ensures p in ids && Listed(lines, p) <==> ListedBetween(lines, start, start + count, p)
  {}

  lemma DroppedEntries(Y: Mat, Z: array2<real>, r: Registry, h: string, ids: seq<string>)
    requires Consistent(r) && Ranged(r, h)
    requires |r.members[h].lines| < |r.lines| && ListsRange(ids, r.lines, r.starts[h], |r.members[h].lines|)
    requires forall j, k :: 0 <= j < |r.lines| && 0 <= k < |r.lines|
               ==> Y(j, k) == BoundaryMatrix(r)(j, k)
                     - if j == k && r.lines[j].partner in ids && Listed(r.lines, r.lines[j].partner) then 1.0 else 0.0
    requires Z.Length0 == Z.Length1 == |r.lines| - |r.members[h].lines|
    requires forall i, j :: 0 <= i < Z.Length0 && 0 <= j < Z.Length0
               ==> Z[i, j]
                   == Y(Unshifted(i, r.starts[h], |r.members[h].lines|),
                        Unshifted(j, r.starts[h], |r.members[h].lines|))
    ensures HoldsMatrix(Z, Cancelled(r, h))
  {
    var start, count, s := r.starts[h], |r.members[h].lines|, Cancelled(r, h);
    assert s.lines == Without(r.lines, start, count) && DistinctIds(r.lines);
    hide TieEntry, Correction, Listed, ListedBetween, Consistent, ListsRange, Without, Cancelled;
    forall i, j | 0 <= i < Z.Length0 && 0 <= j < Z.Length0 ensures Z[i, j] == BoundaryMatrix(s)(i, j) {
      CancelCorrection(r, h, i, j);
      CancelTie(r.lines, start, count, i, j);
      InRangeListed(r.lines, ids, start, count, r.lines[Unshifted(i, start, count)].partner);
    }
  }

  lemma MatrixIs(Y: array2<real>, r: Registry)
    requires HoldsMatrix(Y, r)
    ensures Y.Length0 == Y.Length1 == |r.lines|
    ensures forall j, k :: 0 <= j < |r.lines| && 0 <= k < |r.lines| ==> Y[j, k] == BoundaryMatrix(r)(j, k)
  {
    hide TieEntry, Correction;
  }

  /** The boundary matrix and index maps that remain when other interfaces do. */
  method CancelBoundary(YBB: array2<real>, n: nat, start: nat, count: nat, ids: seq<string>, pi_index: map<string, int>,
                        pis: map<string, PowerInterface>, ghost index_pi: map<int, string>, ghost r: Registry,
                        ghost h: string)
    returns (Z: array2<real>, pi_index': map<string, int>, index_pi': map<int, string>,
             pis': map<string, PowerInterface>)
    requires Consistent(r) && CanCancel(r, h) && ListsHost(ids, r, h) && n == |r.lines|
    requires Ranged(r, h) && start == r.starts[h] && count == |r.members[h].lines| < n
    requires HoldsMatrix(YBB, r) && Indexed(pi_index, index_pi, r.lines) && Describes(pis, r.lines)
    modifies YBB
    ensures fresh(Z) && HoldsMatrix(Z, Cancelled(r, h))
    ensures Indexed(pi_index', index_pi', Cancelled(r, h).lines) && Describes(pis', Cancelled(r, h).lines)
  {
    hide *;
    CancelFacts(r, h, ids);
    MatrixIs(YBB, r);
    IndexedListed(pi_index, index_pi, r.lines, ids[0]);
    DropTies(YBB, ids, pis, pi_index, index_pi, r.lines);
    ghost var Y := MatrixContents(YBB);
    Z := Contracted(YBB, n, start, count);
    DroppedEntries(Y, Z, r, h, ids);
    pi_index', index_pi', pis' := CancelMaps(pi_index, pis, ids, count, index_pi, r.lines, start);
  }

  // ----- loads -----

  function DemandsOf(l: Load): real {
    l.demands
  }

  function SuppliesOf(l: Load): real {
    l.supplies
  }

  function Shared(host: Host, supplies: real, demands: real): Host {
    var share := ShareOfHost(host.desired_supplies, host.desired_demands, supplies, demands);
    host.(demands := share.demands, supplies := share.supplies)
  }

  /** Every host holds its share of the totals. */
  ghost predicate SharesCurrent(hosts: map<string, Host>, supplies: real, demands: real) {
    forall h :: h in hosts ==> hosts[h] == Shared(hosts[h], supplies, demands)
  }

  lemma AreCurrent(hosts: map<string, Host>, supplies: real, demands: real)
    requires forall h :: h in hosts ==> hosts[h] == Shared(hosts[h], supplies, demands)
    ensures SharesCurrent(hosts, supplies, demands)
  {
    hide Shared;
  }

  lemma RangeKeepsShares(hosts: map<string, Host>, supplies: real, demands: real, h: string, count: nat, start: int)
    requires SharesCurrent(hosts, supplies, demands) && h in hosts
    ensures SharesCurrent(hosts[h := hosts[h].(boundary_node_num := count, start_index := start)], supplies, demands)
  {
    hide ShareOfHost;
  }

  /** Every host gets its proportional share of the totals. */
  method ShareLoads(hosts: map<string, Host>, supplies: real, demands: real) returns (shared: map<string, Host>)
    ensures shared.Keys == hosts.Keys && forall h :: h in hosts ==> shared[h] == Shared(hosts[h], supplies, demands)
  {
    shared := hosts;
    var todo := hosts.Keys;
    while todo != {}
      invariant todo <= hosts.Keys == shared.Keys
      invariant forall h :: h in hosts
                  ==> shared[h] == if h in todo then hosts[h] else Shared(hosts[h], supplies, demands)
      decreases |todo|
    {
      var h :| h in todo;
      shared := shared[h := Shared(shared[h], supplies, demands)];
      todo := todo - {h};
    }
  }

  /** The starts of the hosts behind a cancelled range move down. */
  method ShiftStarts(hosts: map<string, Host>, start: int, count: int) returns (shifted: map<string, Host>)
    ensures shifted.Keys == hosts.Keys
    ensures forall h :: h in hosts
              ==> shifted[h]
                  == if hosts[h].start_index > start then hosts[h].(start_index := hosts[h].start_index - count)
                     else hosts[h]
  {
    shifted := hosts;
    var todo := hosts.Keys;
    while todo != {}
      invariant todo <= hosts.Keys == shifted.Keys
      invariant forall h :: h in hosts
                  ==> shifted[h] == if h !in todo && hosts[h].start_index > start
                                    then hosts[h].(start_index := hosts[h].start_index - count) else hosts[h]
      decreases |todo|
    {
      var h :| h in todo;
      if shifted[h].start_index > start {
        shifted := shifted[h := shifted[h].(start_index := shifted[h].start_index - count)];
      }
      todo := todo - {h};
    }
  }

  /** A boundary voltage and the current of its tie line, as sent to the interface's host. */
  datatype BoundaryAnswer = BoundaryAnswer(voltage: real, current: real)

  function AnswerAt(V: Vec, pi_index: map<string, int>, lines: seq<BoundaryLine>, i: int): BoundaryAnswer {
    BoundaryAnswer(V(i), if 0 <= i < |lines| && lines[i].partner in pi_index then V(pi_index[lines[i].partner]) - V(i)
                         else 0.0)
  }

  /** The answers for the range of one host. */
  function HostAnswers(V: Vec, pi_index: map<string, int>, lines: seq<BoundaryLine>,
                       host: Host): (a: seq<BoundaryAnswer>) {
    seq(host.boundary_node_num, k => AnswerAt(V, pi_index, lines, host.start_index + k))
  }

  /** The k-th boundary interface of host h has an answer. */
  ghost predicate IsTold(r: Registry, answers: map<string, seq<BoundaryAnswer>>, h: string, k: int) {
    h in r.members && h in answers && 0 <= k < |r.members[h].lines| == |answers[h]|
  }

  /** Every registered host is told the voltages of its boundary interfaces, in order. */
  ghost predicate TellsVoltages(r: Registry, V: Vec, answers: map<string, seq<BoundaryAnswer>>) {
    forall h, k :: h in r.members && 0 <= k < |r.members[h].lines|
      ==> IsTold(r, answers, h, k) && h in r.starts && answers[h][k].voltage == V(r.starts[h] + k)
  }

  /** The current told is what enters an interface through its tie, whose resistance is one: the voltage at the
      partner less the voltage at the interface; 0 without a registered partner. */
  ghost predicate TellsTies(r: Registry, answers: map<string, seq<BoundaryAnswer>>) {
    && (forall h, k, g, l :: IsTold(r, answers, h, k) && IsTold(r, answers, g, l)
                             && r.members[h].lines[k].partner == r.members[g].lines[l].id
          ==> answers[h][k].current == answers[g][l].voltage - answers[h][k].voltage)
    && (forall h, k :: IsTold(r, answers, h, k)
                       && (forall g, l :: IsTold(r, answers, g, l)
                             ==> r.members[h].lines[k].partner != r.members[g].lines[l].id)
          ==> answers[h][k].current == 0.0)
  }

  /** The answers as the coordinator puts them together. */
  ghost predicate AreAnswers(hosts: map<string, Host>, V: Vec, pi_index: map<string, int>, r: Registry,
                             answers: map<string, seq<BoundaryAnswer>>) {
    && answers.Keys == hosts.Keys
    && forall h :: h in answers ==> answers[h] == HostAnswers(V, pi_index, r.lines, hosts[h])
  }

  lemma AnswerIs(hosts: map<string, Host>, V: Vec, pi_index: map<string, int>, r: Registry,
                 answers: map<string, seq<BoundaryAnswer>>, h: string, k: int)
    requires Consistent(r) && HostsMatch(hosts, r) && AreAnswers(hosts, V, pi_index, r, answers)
    requires h in r.members && 0 <= k < |r.members[h].lines|
    ensures IsTold(r, answers, h, k) && h in r.starts && 0 <= r.starts[h] + k < |r.lines|
    ensures r.lines[r.starts[h] + k] == r.members[h].lines[k]
    ensures answers[h][k] == AnswerAt(V, pi_index, r.lines, r.starts[h] + k)
  {
    hide DistinctIds, Mutual, Registration.WellFormed, AnswerAt;
    RangeInside(r, h);
    assert Owns(r, h, r.starts[h] + k);
    OwnLine(r, r.starts[h] + k);
    assert h in hosts && HostMatches(hosts[h], r, h);
  }

  lemma {:induction false} VoltagesTold(hosts: map<string, Host>, V: Vec, pi_index: map<string, int>, r: Registry,
                                        answers: map<string, seq<BoundaryAnswer>>)
    requires Consistent(r) && HostsMatch(hosts, r) && AreAnswers(hosts, V, pi_index, r, answers)
    ensures TellsVoltages(r, V, answers)
  {
    hide Consistent, HostsMatch, AreAnswers, IsTold;
    forall h, k | h in r.members && 0 <= k < |r.members[h].lines|
      ensures IsTold(r, answers, h, k) && h in r.starts && h in answers && k < |answers[h]|
      ensures answers[h][k].voltage == V(r.starts[h] + k)
    {
      AnswerIs(hosts, V, pi_index, r, answers, h, k);
      ToldFacts(r, answers, h, k);
    }
  }

  lemma ToldFacts(r: Registry, answers: map<string, seq<BoundaryAnswer>>, h: string, k: int)
    requires IsTold(r, answers, h, k)
    ensures h in r.members && h in answers && 0 <= k < |r.members[h].lines| == |answers[h]|
  {}

  lemma {:induction false} TiesTold(hosts: map<string, Host>, V: Vec, pi_index: map<string, int>,
                                    index_pi: map<int, string>, r: Registry,
                                    answers: map<string, seq<BoundaryAnswer>>)
    requires Consistent(r) && HostsMatch(hosts, r) && AreAnswers(hosts, V, pi_index, r, answers)
    requires Indexed(pi_index, index_pi, r.lines)
    ensures TellsTies(r, answers)
  {
    hide Consistent, HostsMatch, AreAnswers, Indexed;
    forall h, k | IsTold(r, answers, h, k)
      ensures forall g, l :: IsTold(r, answers, g, l) && r.members[h].lines[k].partner == r.members[g].lines[l].id
                ==> answers[h][k].current == answers[g][l].voltage - answers[h][k].voltage
      ensures (forall g, l :: IsTold(r, answers, g, l) ==> r.members[h].lines[k].partner != r.members[g].lines[l].id)
          ==> answers[h][k].current == 0.0
    {
      AnswerIs(hosts, V, pi_index, r, answers, h, k);
      forall g, l | IsTold(r, answers, g, l) && r.members[h].lines[k].partner == r.members[g].lines[l].id
        ensures answers[h][k].current == answers[g][l].voltage - answers[h][k].voltage
      {
        AnswerIs(hosts, V, pi_index, r, answers, g, l);
        IndexOfLine(pi_index, index_pi, r.lines, r.starts[g] + l);
      }
      if r.members[h].lines[k].partner in pi_index {
        var j := LineOfIndex(pi_index, index_pi, r.lines, r.members[h].lines[k].partner);
        var g := OwnerOfLine(r, j);
        AnswerIs(hosts, V, pi_index, r, answers, g, j - r.starts[g]);
      }
    }
  }

  lemma IndexOfLine(pi_index: map<string, int>, index_pi: map<int, string>, lines: seq<BoundaryLine>, i: int)
    requires Indexed(pi_index, index_pi, lines) && 0 <= i < |lines|
    ensures lines[i].id in pi_index && pi_index[lines[i].id] == i
  {}

  lemma LineOfIndex(pi_index: map<string, int>, index_pi: map<int, string>, lines: seq<BoundaryLine>, p: string)
    returns (j: int)
    requires Indexed(pi_index, index_pi, lines) && p in pi_index
    ensures 0 <= j < |lines| && lines[j].id == p
  {
    j := pi_index[p];
  }

  lemma OwnerOfLine(r: Registry, j: int) returns (g: string)
    requires Consistent(r) && 0 <= j < |r.lines|
    ensures g in r.members && g in r.starts && 0 <= j - r.starts[g] < |r.members[g].lines|
    ensures r.members[g].lines[j - r.starts[g]] == r.lines[j]
  {
    hide DistinctIds, Mutual, Registration.WellFormed;
    OwnLine(r, j);
    g := r.owners[j];
  }

  /** The totals and the hosts after one host has sent its desired totals. */
  method UpdatedLoads(hosts: map<string, Host>, demandsBefore: real, suppliesBefore: real, host: string, demands: real,
                      supplies: real, ghost r: Registry)
    returns (shared: map<string, Host>, totalDemands: real, totalSupplies: real)
    requires Consistent(r) && LoadsOk(hosts, suppliesBefore, demandsBefore, r)
    ensures LoadsOk(shared, totalSupplies, totalDemands, LoadUpdated(r, host, Load(demands, supplies)))
    ensures SharesCurrent(shared, totalSupplies, totalDemands)
  {
    hide *;
    LoadsFacts(hosts, suppliesBefore, demandsBefore, r);
    TotalsUpdated(hosts, r, host, Load(demands, supplies));
    var all;
    if host in hosts {
      totalDemands := demandsBefore - hosts[host].desired_demands + demands;
      totalSupplies := suppliesBefore - hosts[host].desired_supplies + supplies;
      all := hosts[host := hosts[host].(desired_demands := demands, desired_supplies := supplies)];
    } else {
      totalDemands := demandsBefore + demands;
      totalSupplies := suppliesBefore + supplies;
      all := hosts[host := Host(demands, supplies, None, None, 0, 0)];
    }
    shared := ShareLoads(all, totalSupplies, totalDemands);
    HostsUpdated(hosts, all, shared, r, host, Load(demands, supplies), totalSupplies, totalDemands);
    IsLoadsOk(shared, totalSupplies, totalDemands, LoadUpdated(r, host, Load(demands, supplies)));
    AreCurrent(shared, totalSupplies, totalDemands);
  }

  lemma LoadsFacts(hosts: map<string, Host>, supplies: real, demands: real, r: Registry)
    requires LoadsOk(hosts, supplies, demands, r)
    ensures HostsMatch(hosts, r) && demands == Total(r.loads, DemandsOf) && supplies == Total(r.loads, SuppliesOf)
  {
    hide HostsMatch;
  }

  lemma IsLoadsOk(hosts: map<string, Host>, supplies: real, demands: real, r: Registry)
    requires HostsMatch(hosts, r) && demands == Total(r.loads, DemandsOf) && supplies == Total(r.loads, SuppliesOf)
    ensures LoadsOk(hosts, supplies, demands, r)
  {
    hide HostsMatch;
  }

  /** V solves the boundary network with the last boundary interface at voltage zero. */
  ghost predicate Voltages(V: Vec, I: Vec, r: Registry) {
    Nonsingular(BoundaryMatrix(r), |r.lines| - 1) ==> Solves(BoundaryMatrix(r), V, I, |r.lines| - 1)
  }

  /** The boundary voltages; a singular matrix leaves them as they were. */
  method SolveBoundary(YBB: array2<real>, IB: array<real>, VB: array<real>, n: nat, ghost r: Registry)
    requires HoldsMatrix(YBB, r) && IB.Length == VB.Length == n == |r.lines| && n > 0 && IB != VB
    modifies VB
    ensures VB[n - 1] == old(VB[n - 1])
    ensures Voltages(Contents(VB), Contents(IB), r)
    ensures !Nonsingular(BoundaryMatrix(r), n - 1) ==> VB[..] == old(VB[..])
  {
    hide *;
    ghost var Y, before := MatrixContents(YBB), VB[..];
    MatrixIs(YBB, r);
    RegularIffNonsingular(Y, n - 1);
    SameNonsingular(Y, BoundaryMatrix(r), n - 1);
    if Regular(MatrixContents(YBB), n - 1) {
      var x := Solve(YBB, IB, n - 1);
      CopyInto(x, VB);
      SolvesExt(Y, BoundaryMatrix(r), Contents(x), Contents(VB), Contents(IB), Contents(IB), n - 1);
    }
    IsVoltages(Contents(VB), Contents(IB), r);
  }

  method CopyInto(x: array<real>, v: array<real>)
    requires x.Length <= v.Length && x != v
    modifies v
    ensures forall i :: 0 <= i < v.Length ==> v[i] == if i < x.Length then x[i] else old(v[i])
  {
    for i := 0 to x.Length
      invariant forall k :: 0 <= k < v.Length ==> v[k] == if k < i then x[k] else old(v[k])
    {
      v[i] := x[i];
    }
  }

  /** Injections and voltages after a registration. */
  method RegisterVectors(IB: array<real>, VB: array<real>, n: nat, deltaY: seq<real>, Z: array2<real>,
                         ghost r: Registry)
    returns (I: array<real>, V: array<real>)
    requires IB.Length == VB.Length == n && |deltaY| > 0 && HoldsMatrix(Z, r) && |r.lines| == n + |deltaY|
    ensures fresh(I) && fresh(V) && I != V && I.Length == V.Length == n + |deltaY|
    ensures forall i :: 0 <= i < n + |deltaY| ==> I[i] == if i < n then IB[i] else -deltaY[i - n]
    ensures V[n + |deltaY| - 1] == 0.0 && Voltages(Contents(V), Contents(I), r)
  {
    hide *;
    I := GrownVector(IB, n, |deltaY|);
    EnterInjections(I, n, deltaY);
    V := GrownVector(VB, n, |deltaY|);
    SolveBoundary(Z, I, V, n + |deltaY|, r);
  }

  lemma IsVoltages(V: Vec, I: Vec, r: Registry)
    requires Nonsingular(BoundaryMatrix(r), |r.lines| - 1) ==> Solves(BoundaryMatrix(r), V, I, |r.lines| - 1)
    ensures Voltages(V, I, r)
  {
    hide Nonsingular, Solves, BoundaryMatrix;
  }

  lemma SameNonsingular(A: Mat, B: Mat, n: int)
    requires forall i, j :: 0 <= i < n && 0 <= j < n ==> A(i, j) == B(i, j)
    ensures Nonsingular(A, n) <==> Nonsingular(B, n)
  {
    hide *;
    if Nonsingular(A, n) { NonsingularExt(A, B, n); }
    if Nonsingular(B, n) { NonsingularExt(B, A, n); }
  }

  /** The host's range, once it has registered. */
  lemma HostRegistered(hosts: map<string, Host>, supplies: real, demands: real, r: Registry, h: string, m: Registration)
    requires Consistent(r) && CanRegister(r, h, m) && LoadsOk(hosts, supplies, demands, r)
    ensures h in hosts
    ensures LoadsOk(hosts[h := hosts[h].(boundary_node_num := |m.lines|, start_index := |r.lines|)], supplies, demands,
                    Registered(r, h, m))
    ensures |Registered(r, h, m).lines| == |r.lines| + |m.lines|
  {
    hide DistinctIds, Mutual, Tiled, Registration.WellFormed;
  }

  /** The boundary matrix, the index maps and the interfaces are those of the registry. */
  ghost predicate BoundaryOk(n: nat, YBB: array2<real>, IB: array<real>, VB: array<real>, pi_index: map<string, int>,
                             index_pi: map<int, string>, pis: map<string, PowerInterface>, r: Registry)
    reads YBB, VB
  {
    && Consistent(r) && n == |r.lines| == IB.Length == VB.Length && IB != VB
    && HoldsMatrix(YBB, r) && (n > 0 ==> VB[n - 1] == 0.0)
    && Indexed(pi_index, index_pi, r.lines) && Describes(pis, r.lines)
  }

  lemma BoundaryFacts(n: nat, YBB: array2<real>, IB: array<real>, VB: array<real>, pi_index: map<string, int>,
                      index_pi: map<int, string>, pis: map<string, PowerInterface>, r: Registry)
    requires BoundaryOk(n, YBB, IB, VB, pi_index, index_pi, pis, r)
    ensures Consistent(r) && n == |r.lines| == IB.Length == VB.Length && IB != VB
    ensures HoldsMatrix(YBB, r) && (n > 0 ==> VB[n - 1] == 0.0)
    ensures Indexed(pi_index, index_pi, r.lines) && Describes(pis, r.lines)
  {
    hide Consistent, HoldsMatrix, Indexed, Describes;
  }

  lemma BoundarySizes(n: nat, YBB: array2<real>, IB: array<real>, VB: array<real>, pi_index: map<string, int>,
                      index_pi: map<int, string>, pis: map<string, PowerInterface>, r: Registry)
    requires BoundaryOk(n, YBB, IB, VB, pi_index, index_pi, pis, r)
    ensures Consistent(r) && n == |r.lines| == IB.Length == VB.Length && IB != VB
  {
    hide Consistent, HoldsMatrix, Indexed, Describes;
  }

  lemma IsBoundaryOk(n: nat, YBB: array2<real>, IB: array<real>, VB: array<real>, pi_index: map<string, int>,
                     index_pi: map<int, string>, pis: map<string, PowerInterface>, r: Registry)
    requires Consistent(r) && n == |r.lines| == IB.Length == VB.Length && IB != VB
    requires HoldsMatrix(YBB, r) && (n > 0 ==> VB[n - 1] == 0.0)
    requires Indexed(pi_index, index_pi, r.lines) && Describes(pis, r.lines)
    ensures BoundaryOk(n, YBB, IB, VB, pi_index, index_pi, pis, r)
  {
    hide Consistent, HoldsMatrix, Indexed, Describes;
  }

  /** The hosts are those of the registry, and the totals kept are the sums over them. */
  ghost predicate LoadsOk(hosts: map<string, Host>, supplies: real, demands: real, r: Registry) {
    HostsMatch(hosts, r) && demands == Total(r.loads, DemandsOf) && supplies == Total(r.loads, SuppliesOf)
  }

  /** The events have led to r; since the last cancellation every host's part of I is minus what
      it sent last, and 0 if it has sent nothing; and V solves the boundary equations for I. */
  ghost predicate RunOk(I: Vec, V: Vec, events: seq<Event>, r: Registry) {
    && Reaches(events, r) && Voltages(V, I, r)
    && forall h, i :: Owns(r, h, i) ==> I(i) == -SentEntry(events, h, i - r.starts[h])
  }

  lemma RunEmpty(I: Vec, V: Vec, events: seq<Event>)
    requires Reaches(events, NO_REGISTRY)
    ensures RunOk(I, V, events, NO_REGISTRY)
  {}

  lemma RunLoads(I: Vec, V: Vec, events: seq<Event>, r: Registry, h: string, load: Load)
    requires RunOk(I, V, events, r)
    ensures RunOk(I, V, events + [HostLoads(h, load)], LoadUpdated(r, h, load))
  {
    var s, e := LoadUpdated(r, h, load), HostLoads(h, load);
    hide SentSince, Reaches;
    ReachesNext(events, r, e, s);
    SentNext(events, e);
    forall g, i | Owns(s, g, i) ensures I(i) == -SentEntry(events + [e], g, i - s.starts[g]) {
      assert Owns(r, g, i);
    }
    hide TieEntry, EntryOf;
    forall j, k ensures BoundaryMatrix(s)(j, k) == BoundaryMatrix(r)(j, k) {}
    SameVoltages(V, I, r, s);
  }

  lemma SameVoltages(V: Vec, I: Vec, r: Registry, s: Registry)
    requires Voltages(V, I, r) && |r.lines| == |s.lines|
    requires forall j, k :: BoundaryMatrix(s)(j, k) == BoundaryMatrix(r)(j, k)
    ensures Voltages(V, I, s)
  {
    hide BoundaryMatrix, Nonsingular, Solves;
    var n := |r.lines| - 1;
    if Nonsingular(BoundaryMatrix(s), n) {
      NonsingularExt(BoundaryMatrix(s), BoundaryMatrix(r), n);
      SolvesExt(BoundaryMatrix(r), BoundaryMatrix(s), V, V, I, I, n);
    }
  }

  lemma RunJoins(I0: Vec, V0: Vec, I: Vec, V: Vec, events: seq<Event>, r: Registry, h: string, m: Registration,
                 deltaY: seq<real>)
    requires Consistent(r) && CanRegister(r, h, m) && |deltaY| == |m.lines| && RunOk(I0, V0, events, r)
    requires forall i :: 0 <= i < |r.lines| + |m.lines|
               ==> I(i) == if i < |r.lines| then I0(i) else -deltaY[i - |r.lines|]
    requires Voltages(V, I, Registered(r, h, m))
    ensures RunOk(I, V, events + [HostJoins(h, m, deltaY)], Registered(r, h, m))
  {
    var s, e := Registered(r, h, m), HostJoins(h, m, deltaY);
    hide SentSince, Reaches, Voltages, DistinctIds, Mutual, Registration.WellFormed;
    ReachesNext(events, r, e, s);
    SentNext(events, e);
    forall g, i | Owns(s, g, i) ensures I(i) == -SentEntry(events + [e], g, i - s.starts[g]) {
      if g != h { assert Owns(r, g, i); }
    }
  }

  lemma RunUpdates(I0: Vec, V0: Vec, I: Vec, V: Vec, events: seq<Event>, r: Registry, h: string, deltaY: seq<real>)
    requires Consistent(r) && h in r.loads && |deltaY| == Size(r, h) && RunOk(I0, V0, events, r) && Voltages(V, I, r)
    requires forall i :: 0 <= i < |r.lines| ==> I(i) == if Owns(r, h, i) then -deltaY[i - r.starts[h]] else I0(i)
    ensures RunOk(I, V, events + [HostUpdates(h, deltaY)], r)
  {
    var e := HostUpdates(h, deltaY);
    hide SentSince, Reaches, Voltages, DistinctIds, Mutual, Registration.WellFormed;
    ReachesNext(events, r, e, r);
    SentNext(events, e);
    forall g, i | Owns(r, g, i) ensures I(i) == -SentEntry(events + [e], g, i - r.starts[g]) {
      assert r.owners[i] == g;
    }
  }

  lemma RunLeaves(I0: Vec, V0: Vec, I: Vec, V: Vec, events: seq<Event>, r: Registry, h: string)
    requires RunOk(I0, V0, events, r) && CanCancel(r, h) && Ranged(r, h)
    requires forall i :: 0 <= i < |Cancelled(r, h).lines| ==> I(i) == 0.0 && V(i) == 0.0
    requires Consistent(Cancelled(r, h))
    ensures RunOk(I, V, events + [HostLeaves(h)], Cancelled(r, h))
  {
    hide *;
    var s, e := Cancelled(r, h), HostLeaves(h);
    LeftReaches(I0, V0, events, r, h);
    NothingVoltages(I, V, s);
    NothingSent(I, V, events + [e], s);
  }

  lemma LeftReaches(I0: Vec, V0: Vec, events: seq<Event>, r: Registry, h: string)
    requires RunOk(I0, V0, events, r) && CanCancel(r, h) && Ranged(r, h)
    ensures Reaches(events + [HostLeaves(h)], Cancelled(r, h)) && SentSince(events + [HostLeaves(h)]) == map[]
  {
    hide Reaches, SentSince, Cancelled, CanCancel, Voltages;
    ReachesNext(events, r, HostLeaves(h), Cancelled(r, h));
    SentNext(events, HostLeaves(h));
  }

  lemma NothingVoltages(I: Vec, V: Vec, s: Registry)
    requires forall i :: 0 <= i < |s.lines| ==> I(i) == 0.0 && V(i) == 0.0
    ensures Voltages(V, I, s)
  {
    hide BoundaryMatrix, Nonsingular;
    forall i | 0 <= i < |s.lines| - 1 ensures Apply(BoundaryMatrix(s), V, |s.lines| - 1)(i) == I(i) {
      SumZero(Times(Row(BoundaryMatrix(s), i), V), 0, |s.lines| - 1);
    }
  }

  lemma NothingSent(I: Vec, V: Vec, events: seq<Event>, s: Registry)
    requires Reaches(events, s) && SentSince(events) == map[] && Voltages(V, I, s) && Consistent(s)
    requires forall i :: 0 <= i < |s.lines| ==> I(i) == 0.0
    ensures RunOk(I, V, events, s)
  {
    hide Reaches, SentSince, Voltages, DistinctIds, Mutual, Registration.WellFormed;
    forall g, i | Owns(s, g, i) ensures I(i) == -SentEntry(events, g, i - s.starts[g]) {
      assert 0 <= i < |s.owners|;
    }
  }

  method Empty() returns (Y: array2<real>, I: array<real>, V: array<real>)
    ensures fresh(Y) && fresh(I) && fresh(V) && I.Length == 0
    ensures BoundaryOk(0, Y, I, V, map[], map[], map[], NO_REGISTRY) && LoadsOk(map[], 0.0, 0.0, NO_REGISTRY)
    ensures SharesCurrent(map[], 0.0, 0.0)
  {
    Y, I, V := new real[0, 0], new real[0], new real[0];
    EmptyConsistent();
  }

  /** The whole boundary state after a registration. */
  method Joined(YBB: array2<real>, IB: array<real>, VB: array<real>, n: nat, m: Registration, deltaY: seq<real>,
                pi_index: map<string, int>, index_pi: map<int, string>, pis: map<string, PowerInterface>,
                ghost r: Registry, ghost h: string)
    returns (Y: array2<real>, I: array<real>, V: array<real>, pi_index': map<string, int>, index_pi': map<int, string>,
             pis': map<string, PowerInterface>)
    requires BoundaryOk(n, YBB, IB, VB, pi_index, index_pi, pis, r) && CanRegister(r, h, m) && |deltaY| == |m.lines|
    ensures fresh(Y) && fresh(I) && fresh(V)
    ensures BoundaryOk(n + |m.lines|, Y, I, V, pi_index', index_pi', pis', Registered(r, h, m))
    ensures forall i :: 0 <= i < n + |m.lines| ==> Contents(I)(i) == if i < n then Contents(IB)(i) else -deltaY[i - n]
    ensures Voltages(Contents(V), Contents(I), Registered(r, h, m))
  {
    hide *;
    BoundaryFacts(n, YBB, IB, VB, pi_index, index_pi, pis, r);
    RegisteredFacts(r, h, m);
    Y, pi_index', index_pi', pis' := RegisterBoundary(YBB, n, m, pi_index, index_pi, pis, r, h);
    I, V := RegisterVectors(IB, VB, n, deltaY, Y, Registered(r, h, m));
    IsBoundaryOk(n + |m.lines|, Y, I, V, pi_index', index_pi', pis', Registered(r, h, m));
  }

  lemma RegisteredFacts(r: Registry, h: string, m: Registration)
    requires Consistent(r) && CanRegister(r, h, m)
    ensures Consistent(Registered(r, h, m)) && |Registered(r, h, m).lines| == |r.lines| + |m.lines| && |m.lines| > 0
  {
    RegisterKeeps(r, h, m);
  }

  lemma MemberRange(hosts: map<string, Host>, supplies: real, demands: real, r: Registry, h: string)
    requires Consistent(r) && LoadsOk(hosts, supplies, demands, r) && h in hosts && h in r.members
    ensures h in r.starts && hosts[h].start_index == r.starts[h]
    ensures hosts[h].boundary_node_num == |r.members[h].lines| > 0
    ensures r.starts[h] + |r.members[h].lines| <= |r.lines|
  {
    hide DistinctIds, Mutual, Registration.WellFormed, Tiled;
    assert Tiled(r);
    RangeInside(r, h);
  }

  /** Where the corrections of a host belong; a host that has not registered sends none. */
  lemma UpdateRange(hosts: map<string, Host>, supplies: real, demands: real, r: Registry, h: string, deltaY: seq<real>)
    requires Consistent(r) && LoadsOk(hosts, supplies, demands, r) && h in hosts && |deltaY| == Size(r, h)
    ensures h in r.loads
    ensures |deltaY| > 0 ==> 0 <= hosts[h].start_index && hosts[h].start_index + |deltaY| <= |r.lines|
    ensures forall i :: Owns(r, h, i) <==> hosts[h].start_index <= i < hosts[h].start_index + |deltaY|
    ensures forall i :: Owns(r, h, i) ==> r.starts[h] == hosts[h].start_index
  {
    hide DistinctIds, Mutual, Registration.WellFormed, Tiled, Total;
    assert HostMatches(hosts[h], r, h);
    if h in r.members {
      assert Tiled(r);
      RangeInside(r, h);
    }
  }

  lemma FewVoltages(V: Vec, I: Vec, r: Registry)
    requires |r.lines| <= 1
    ensures Voltages(V, I, r)
  {
    hide BoundaryMatrix, Nonsingular;
  }

  method Clear(v: array<real>)
    modifies v
    ensures forall i :: 0 <= i < v.Length ==> v[i] == 0.0
  {
    for i := 0 to v.Length
      invariant forall k :: 0 <= k < i ==> v[k] == 0.0
    {
      v[i] := 0.0;
    }
  }

  /** The hosts that remain, renumbered and with their shares of the remaining totals. */
  method LoadsLess(hosts: map<string, Host>, suppliesBefore: real, demandsBefore: real, host: string, start: nat,
                   count: nat, ghost r: Registry)
    returns (shared: map<string, Host>, supplies: real, demands: real)
    requires Consistent(r) && LoadsOk(hosts, suppliesBefore, demandsBefore, r) && host in hosts && Ranged(r, host)
    requires start == r.starts[host] && count == |r.members[host].lines| < |r.lines|
    ensures LoadsOk(shared, supplies, demands, Cancelled(r, host)) && shared != map[]
    ensures SharesCurrent(shared, supplies, demands)
  {
    hide *;
    LoadsFacts(hosts, suppliesBefore, demandsBefore, r);
    TotalsLess(hosts, r, host);
    demands := demandsBefore - hosts[host].desired_demands;
    supplies := suppliesBefore - hosts[host].desired_supplies;
    var shifted := ShiftStarts(hosts - {host}, start, count);
    shared := ShareLoads(shifted, supplies, demands);
    HostsLess(hosts, shifted, shared, r, host, supplies, demands);
    IsLoadsOk(shared, supplies, demands, Cancelled(r, host));
    AreCurrent(shared, supplies, demands);
  }

  lemma TotalsLess(hosts: map<string, Host>, r: Registry, h: string)
    requires HostsMatch(hosts, r) && h in hosts && Ranged(r, h) && |r.members[h].lines| < |r.lines|
    ensures Total(Cancelled(r, h).loads, DemandsOf) == Total(r.loads, DemandsOf) - hosts[h].desired_demands
    ensures Total(Cancelled(r, h).loads, SuppliesOf) == Total(r.loads, SuppliesOf) - hosts[h].desired_supplies
  {
    TotalSplits(r.loads, DemandsOf, h);
    TotalSplits(r.loads, SuppliesOf, h);
  }

  lemma HostsLess(hosts: map<string, Host>, shifted: map<string, Host>, shared: map<string, Host>, r: Registry,
                  h: string, supplies: real, demands: real)
    requires Consistent(r) && HostsMatch(hosts, r) && h in hosts && Ranged(r, h) && |r.members[h].lines| < |r.lines|
    requires shifted.Keys == hosts.Keys - {h}
    requires forall g :: g in shifted
               ==> shifted[g] == if hosts[g].start_index > r.starts[h]
                                 then hosts[g].(start_index := hosts[g].start_index - |r.members[h].lines|)
                                 else hosts[g]
    requires shared.Keys == shifted.Keys
    requires forall g :: g in shifted ==> shared[g] == Shared(shifted[g], supplies, demands)
    ensures HostsMatch(shared, Cancelled(r, h)) && shared != map[]
    ensures forall g :: g in shared ==> shared[g] == Shared(shared[g], supplies, demands)
  {
    var s := Cancelled(r, h);
    hide Consistent, Shared;
    assert s.loads == r.loads - {h};
    forall g | g in shared ensures HostMatches(shared[g], s, g) && shared[g] == Shared(shared[g], supplies, demands) {
      HostLess(hosts[g], shifted[g], shared[g], r, h, g, supplies, demands);
    }
    OtherOwner(r, h);
  }

  lemma HostLess(host: Host, shifted: Host, shared: Host, r: Registry, h: string, g: string, supplies: real,
                 demands: real)
    requires Consistent(r) && HostMatches(host, r, g) && g != h && Ranged(r, h) && |r.members[h].lines| < |r.lines|
    requires shifted
      == if host.start_index > r.starts[h] then host.(start_index := host.start_index - |r.members[h].lines|) else host
    requires shared == Shared(shifted, supplies, demands)
    ensures HostMatches(shared, Cancelled(r, h), g) && shared == Shared(shared, supplies, demands)
  {
    hide DistinctIds, Mutual, Tiled, ShareOfHost, Without, Registration.WellFormed;
    if g in r.members {
      StartLess(r, h, g);
    }
  }

  lemma StartLess(r: Registry, h: string, g: string)
    requires Consistent(r) && h in r.members && h in r.starts && g in r.members && g != h
    ensures g in r.starts
    ensures var start, count := r.starts[h], |r.members[h].lines|;
            var shifted := ShiftedStarts(r.starts, h, start, count);
            g in shifted && shifted[g] as int == if r.starts[g] > start then r.starts[g] - count else r.starts[g]
  {
    RangesApart(r, g, h);
  }

  /** A host remains when the cancelled one did not have all interfaces. */
  lemma OtherOwner(r: Registry, h: string)
    requires Consistent(r) && Ranged(r, h) && |r.members[h].lines| < |r.lines|
    ensures exists g :: g in r.loads && g != h
  {
    var other := if r.starts[h] > 0 then 0 else |r.members[h].lines|;
    RangeInside(r, h);
    OwnLine(r, other);
    assert r.owners[other] in r.loads;
  }

  /** The boundary state after a cancellation that leaves other interfaces. */
  method BoundaryLess(YBB: array2<real>, IB: array<real>, VB: array<real>, n: nat, start: nat, count: nat,
                      ids: seq<string>, pi_index: map<string, int>, index_pi: map<int, string>,
                      pis: map<string, PowerInterface>, ghost r: Registry, ghost h: string)
    returns (Y: array2<real>, I: array<real>, V: array<real>, pi_index': map<string, int>, index_pi': map<int, string>,
             pis': map<string, PowerInterface>)
    requires BoundaryOk(n, YBB, IB, VB, pi_index, index_pi, pis, r) && CanCancel(r, h) && ListsHost(ids, r, h)
    requires Ranged(r, h) && start == r.starts[h] && count == |r.members[h].lines| < n
    modifies YBB
    ensures fresh(Y) && fresh(I) && fresh(V) && I.Length == V.Length == n - count
    ensures forall i :: 0 <= i < n - count ==> I[i] == 0.0 && V[i] == 0.0
    ensures BoundaryOk(n - count, Y, I, V, pi_index', index_pi', pis', Cancelled(r, h))
  {
    hide *;
    BoundaryFacts(n, YBB, IB, VB, pi_index, index_pi, pis, r);
    Y, pi_index', index_pi', pis' := CancelBoundary(YBB, n, start, count, ids, pi_index, pis, index_pi, r, h);
    I := Zeros(n - count);
    V := Zeros(n - count);
    CancelledFacts(r, h);
    IsBoundaryOk(n - count, Y, I, V, pi_index', index_pi', pis', Cancelled(r, h));
  }

  lemma CancelledFacts(r: Registry, h: string)
    requires Consistent(r) && Ranged(r, h) && |r.members[h].lines| < |r.lines|
    ensures Consistent(Cancelled(r, h)) && |Cancelled(r, h).lines| == |r.lines| - |r.members[h].lines|
  {
    CancelKeeps(r, h);
  }

  class Coordinator {
    var total_desired_supplies: real
    var total_desired_demands: real
    var total_supplies: real
    var total_demands: real
    var hosts: map<string, Host>
    var boundary_nodes_number: nat
    var YBB: array2<real>
    var IB: array<real>
    var VB: array<real>
    var pi_index_mapping: map<string, int>
    var index_pi_mapping: map<int, string>
    var pis: map<string, PowerInterface>
    var is_ok_next: bool
    ghost var reg: Registry
    ghost var log: seq<Event>

    constructor ()
      ensures Valid() && reg == NO_REGISTRY && log == [] && is_ok_next
      ensures fresh(YBB) && fresh(IB) && fresh(VB)
    {
      hide *;
      var Y, I, V := Empty();
      total_desired_supplies, total_desired_demands, total_supplies, total_demands := 0.0, 0.0, 0.0, 0.0;
      hosts, boundary_nodes_number := map[], 0;
      YBB, IB, VB := Y, I, V;
      pi_index_mapping, index_pi_mapping, pis := map[], map[], map[];
      is_ok_next, reg, log := true, NO_REGISTRY, [];
      new;
      NothingReached();
      RunEmpty(Contents(IB), Contents(VB), []);
      IsValid();
    }

    /** The concrete state is the one the registry stands for, the log of what the coordinator was
        told has led to it, the injections and voltages are those of the log, and every host holds its
        share of the desired totals. */
    ghost predicate Valid()
      reads `hosts, `total_desired_supplies, `total_desired_demands, `boundary_nodes_number, `YBB, `IB, `VB
      reads `pi_index_mapping, `index_pi_mapping, `pis, `reg, `log, YBB, IB, VB
    {
      && BoundaryOk(boundary_nodes_number, YBB, IB, VB, pi_index_mapping, index_pi_mapping, pis, reg)
      && LoadsOk(hosts, total_desired_supplies, total_desired_demands, reg)
      && RunOk(Contents(IB), Contents(VB), log, reg)
      && SharesCurrent(hosts, total_desired_supplies, total_desired_demands)
    }

    /** New totals and hosts; what is exchanged is the smaller desired total. */
    method SetLoads(shared: map<string, Host>, supplies: real, demands: real)
      modifies `total_desired_supplies, `total_desired_demands, `total_supplies, `total_demands, `hosts
      ensures hosts == shared && total_desired_supplies == supplies && total_desired_demands == demands
      ensures total_supplies == total_demands == Min(supplies, demands)
    {
      total_desired_supplies, total_desired_demands, hosts := supplies, demands, shared;
      if demands > supplies {
        total_supplies, total_demands := supplies, supplies;
      } else {
        total_supplies, total_demands := demands, demands;
      }
    }

    method SetBoundary(n: nat, Y: array2<real>, I: array<real>, V: array<real>, pi_index: map<string, int>,
                       index_pi: map<int, string>, interfaces: map<string, PowerInterface>)
      modifies `boundary_nodes_number, `YBB, `IB, `VB, `pi_index_mapping, `index_pi_mapping, `pis
      ensures boundary_nodes_number == n && YBB == Y && IB == I && VB == V
      ensures pi_index_mapping == pi_index && index_pi_mapping == index_pi && pis == interfaces
    {
      boundary_nodes_number, YBB, IB, VB := n, Y, I, V;
      pi_index_mapping, index_pi_mapping, pis := pi_index, index_pi, interfaces;
    }

    /** A whole new state. */
    method Install(shared: map<string, Host>, supplies: real, demands: real, n: nat, Y: array2<real>, I: array<real>,
                   V: array<real>, pi_index: map<string, int>, index_pi: map<int, string>,
                   interfaces: map<string, PowerInterface>, ghost r: Registry, ghost events: seq<Event>)
      requires BoundaryOk(n, Y, I, V, pi_index, index_pi, interfaces, r) && LoadsOk(shared, supplies, demands, r)
      requires SharesCurrent(shared, supplies, demands) && RunOk(Contents(I), Contents(V), events, r)
      modifies `total_desired_supplies, `total_desired_demands, `total_supplies, `total_demands, `hosts
      modifies `boundary_nodes_number, `YBB, `IB, `VB, `pi_index_mapping, `index_pi_mapping, `pis, `reg, `log
      ensures Valid() && reg == r && log == events && hosts == shared && YBB == Y && IB == I && VB == V
    {
      hide *;
      SetLoads(shared, supplies, demands);
      InstallBoundary(n, Y, I, V, pi_index, index_pi, interfaces, r, events);
    }

    method InstallBoundary(n: nat, Y: array2<real>, I: array<real>, V: array<real>, pi_index: map<string, int>,
                           index_pi: map<int, string>, interfaces: map<string, PowerInterface>,
                           ghost r: Registry, ghost events: seq<Event>)
      requires BoundaryOk(n, Y, I, V, pi_index, index_pi, interfaces, r)
      requires LoadsOk(hosts, total_desired_supplies, total_desired_demands, r)
      requires SharesCurrent(hosts, total_desired_supplies, total_desired_demands)
      requires RunOk(Contents(I), Contents(V), events, r)
      modifies `boundary_nodes_number, `YBB, `IB, `VB, `pi_index_mapping, `index_pi_mapping, `pis, `reg, `log
      ensures Valid() && reg == r && log == events && YBB == Y && IB == I && VB == V
    {
      hide *;
      SetBoundary(n, Y, I, V, pi_index, index_pi, interfaces);
      reg, log := r, events;
      IsValid();
    }

    /** A host's desired totals replace the ones it sent before, and all shares are computed anew. */
    method LoadUpdate(host: string, demands: real, supplies: real) returns (share: HostShare)
      requires Valid()
      modifies `total_desired_supplies, `total_desired_demands, `total_supplies, `total_demands, `hosts, `reg, `log
      ensures Valid() && reg == LoadUpdated(old(reg), host, Load(demands, supplies))
      ensures log == old(log) + [HostLoads(host, Load(demands, supplies))]
      ensures total_supplies == total_demands == Min(total_desired_supplies, total_desired_demands)
      ensures share == ShareOfHost(supplies, demands, total_desired_supplies, total_desired_demands)
    {
      hide *;
      ValidFacts();
      BoundaryFacts(boundary_nodes_number, YBB, IB, VB, pi_index_mapping, index_pi_mapping, pis, reg);
      var shared, totalDemands, totalSupplies :=
        UpdatedLoads(hosts, total_desired_demands, total_desired_supplies, host, demands, supplies, reg);
      LoadKeepsMatrix(YBB, reg, host, Load(demands, supplies));
      IsBoundaryOk(boundary_nodes_number, YBB, IB, VB, pi_index_mapping, index_pi_mapping, pis,
                   LoadUpdated(reg, host, Load(demands, supplies)));
      SetLoads(shared, totalSupplies, totalDemands);
      RunLoads(Contents(IB), Contents(VB), log, reg, host, Load(demands, supplies));
      reg, log := LoadUpdated(reg, host, Load(demands, supplies)), log + [HostLoads(host, Load(demands, supplies))];
      share := ShareOfHost(supplies, demands, totalSupplies, totalDemands);
      IsValid();
    }

    /** A host registers its boundary interfaces: the boundary matrix grows by them and their
        ties, less the host's corrections, and the boundary voltages are computed anew. A single
        boundary interface has nothing to be told. */
    method Coordinate(host: string, m: Registration, deltaY: seq<real>)
      returns (answers: map<string, seq<BoundaryAnswer>>)
      requires Valid() && CanRegister(reg, host, m) && |deltaY| == |m.lines|
      modifies `hosts, `boundary_nodes_number, `YBB, `IB, `VB, `pi_index_mapping, `index_pi_mapping, `pis, `is_ok_next
      modifies `reg, `log
      ensures Valid() && reg == Registered(old(reg), host, m) && log == old(log) + [HostJoins(host, m, deltaY)]
      ensures is_ok_next
      ensures fresh(YBB) && fresh(IB) && fresh(VB)
      ensures forall i :: 0 <= i < |reg.lines|
                ==> Contents(IB)(i) == if i < |old(reg).lines| then old(Contents(IB))(i)
                                       else -deltaY[i - |old(reg).lines|]
      ensures Voltages(Contents(VB), Contents(IB), reg)
      ensures boundary_nodes_number != 1
          ==> Answered(answers) && TellsVoltages(reg, Contents(VB), answers) && TellsTies(reg, answers)
      ensures boundary_nodes_number == 1 ==> answers == map[]
    {
      hide *;
      Join(host, m, deltaY);
      if boundary_nodes_number == 1 {
        answers := map[];
      } else {
        answers := Answers();
      }
      is_ok_next := true;
    }

    /** The part of a registration before the answers are sent. */
    method Join(host: string, m: Registration, deltaY: seq<real>)
      requires Valid() && CanRegister(reg, host, m) && |deltaY| == |m.lines|
      modifies `hosts, `boundary_nodes_number, `YBB, `IB, `VB, `pi_index_mapping, `index_pi_mapping, `pis, `reg, `log
      ensures Valid() && reg == Registered(old(reg), host, m) && log == old(log) + [HostJoins(host, m, deltaY)]
      ensures fresh(YBB) && fresh(IB) && fresh(VB)
      ensures forall i :: 0 <= i < |reg.lines|
                ==> Contents(IB)(i) == if i < |old(reg).lines| then old(Contents(IB))(i)
                                       else -deltaY[i - |old(reg).lines|]
      ensures Voltages(Contents(VB), Contents(IB), reg)
    {
      hide *;
      ValidFacts();
      BoundarySizes(boundary_nodes_number, YBB, IB, VB, pi_index_mapping, index_pi_mapping, pis, reg);
      var n, b := boundary_nodes_number, |m.lines|;
      ghost var I0, V0 := Contents(IB), Contents(VB);
      HostRegistered(hosts, total_desired_supplies, total_desired_demands, reg, host, m);
      var Y, I, V, pi_index, index_pi, interfaces :=
        Joined(YBB, IB, VB, n, m, deltaY, pi_index_mapping, index_pi_mapping, pis, reg, host);
      ghost var I1, V1 := Contents(I), Contents(V);
      RunJoins(I0, V0, I1, V1, log, reg, host, m, deltaY);
      RangeKeepsShares(hosts, total_desired_supplies, total_desired_demands, host, b, n);
      hosts := hosts[host := hosts[host].(boundary_node_num := b, start_index := n)];
      InstallBoundary(n + b, Y, I, V, pi_index, index_pi, interfaces, Registered(reg, host, m),
                      log + [HostJoins(host, m, deltaY)]);
    }

    /** A host sends new corrections of its injections; the voltages are computed anew. With at
        most one boundary interface nothing is computed, and a host that is alone is told 0 and 0. */
    method CoordinateUpdate(host: string, deltaY: seq<real>) returns (answers: map<string, seq<BoundaryAnswer>>)
      requires Valid() && (host in hosts ==> |deltaY| == Size(reg, host))
      modifies IB, VB, `log
      ensures Valid() && log == if host in hosts then old(log) + [HostUpdates(host, deltaY)] else old(log)
      ensures host in hosts && boundary_nodes_number > 1
         ==> && Voltages(Contents(VB), Contents(IB), reg) && Answered(answers)
             && TellsVoltages(reg, Contents(VB), answers) && TellsTies(reg, answers)
      ensures host in hosts && boundary_nodes_number <= 1 && |hosts| == 1
         ==> answers == map[host := [BoundaryAnswer(0.0, 0.0)]]
      ensures host in hosts && boundary_nodes_number <= 1 && |hosts| != 1 ==> answers == map[]
      ensures host !in hosts ==> answers == map[]
      ensures forall i :: 0 <= i < IB.Length
                ==> IB[i] == if host in hosts && Owns(reg, host, i) && i - reg.starts[host] < |deltaY|
                             then -deltaY[i - reg.starts[host]] else old(IB[i])
    {
      hide *;
      answers := map[];
      if host in hosts {
        Correct(host, deltaY);
        if boundary_nodes_number > 1 {
          answers := Answers();
        } else if |hosts| == 1 {
          answers := map[host := [BoundaryAnswer(0.0, 0.0)]];
        }
      }
    }

    /** The part of an update before the answers are sent. */
    method Correct(host: string, deltaY: seq<real>)
      requires Valid() && host in hosts && |deltaY| == Size(reg, host)
      modifies IB, VB, `log
      ensures Valid() && log == old(log) + [HostUpdates(host, deltaY)]
      ensures boundary_nodes_number > 1 ==> Voltages(Contents(VB), Contents(IB), reg)
      ensures forall i :: 0 <= i < IB.Length
                ==> IB[i] == if Owns(reg, host, i) && i - reg.starts[host] < |deltaY| then -deltaY[i - reg.starts[host]]
                             else old(IB[i])
    {
      hide *;
      ValidFacts();
      BoundaryFacts(boundary_nodes_number, YBB, IB, VB, pi_index_mapping, index_pi_mapping, pis, reg);
      ghost var I0, V0 := Contents(IB), Contents(VB);
      UpdateRange(hosts, total_desired_supplies, total_desired_demands, reg, host, deltaY);
      EnterInjections(IB, hosts[host].start_index, deltaY);
      if boundary_nodes_number <= 1 {
        FewVoltages(Contents(VB), Contents(IB), reg);
      } else {
        Clear(VB);
        SolveBoundary(YBB, IB, VB, boundary_nodes_number, reg);
      }
      RunUpdates(I0, V0, Contents(IB), Contents(VB), log, reg, host, deltaY);
      log := log + [HostUpdates(host, deltaY)];
      IsBoundaryOk(boundary_nodes_number, YBB, IB, VB, pi_index_mapping, index_pi_mapping, pis, reg);
      IsValid();
    }

    /** A host leaves: its partners lose their ties, its rows and columns go, the interfaces
        behind move up, and the totals and shares are those of the remaining hosts. */
    method UnRegisterRequest(host: string, ids: seq<string>)
      requires Valid() && (host in hosts ==> CanCancel(reg, host) && ListsHost(ids, reg, host))
      modifies this, YBB
      ensures Valid()
      ensures log == if host in old(hosts) then old(log) + [HostLeaves(host)] else old(log)
      ensures host in old(hosts)
         ==> Ranged(old(reg), host) && reg == Cancelled(old(reg), host) && fresh(YBB) && fresh(IB) && fresh(VB)
      ensures host in old(hosts) ==> forall i :: 0 <= i < IB.Length ==> IB[i] == 0.0
      ensures host !in old(hosts)
         ==> reg == old(reg) && hosts == old(hosts) && YBB == old(YBB) && IB == old(IB) && VB == old(VB)
      ensures is_ok_next == (old(is_ok_next) || (host in old(hosts) && hosts == map[]))
    {
      hide *;
      if host in hosts {
        ValidFacts();
        BoundarySizes(boundary_nodes_number, YBB, IB, VB, pi_index_mapping, index_pi_mapping, pis, reg);
        CancelFacts(reg, host, ids);
        MemberRange(hosts, total_desired_supplies, total_desired_demands, reg, host);
        var start, length := hosts[host].start_index, hosts[host].boundary_node_num;
        if boundary_nodes_number - length <= 0 {
          LeftReaches(Contents(IB), Contents(VB), log, reg, host);
          Reset(log + [HostLeaves(host)]);
        } else {
          Leave(host, ids, start, length);
        }
      }
    }

    method Reset(ghost events: seq<Event>)
      requires Reaches(events, NO_REGISTRY)
      modifies this
      ensures Valid() && reg == NO_REGISTRY && log == events && hosts == map[] && is_ok_next
      ensures fresh(YBB) && fresh(IB) && fresh(VB) && IB.Length == 0
    {
      hide *;
      var Y, I, V := Empty();
      RunEmpty(Contents(I), Contents(V), events);
      Install(map[], 0.0, 0.0, 0, Y, I, V, map[], map[], map[], NO_REGISTRY, events);
      is_ok_next := true;
    }

    method Leave(host: string, ids: seq<string>, start: nat, length: nat)
      requires Valid() && host in hosts && CanCancel(reg, host) && ListsHost(ids, reg, host)
      requires Ranged(reg, host) && start == reg.starts[host] && length == |reg.members[host].lines| < |reg.lines|
      modifies `total_desired_supplies, `total_desired_demands, `total_supplies, `total_demands, `hosts
      modifies `boundary_nodes_number, `YBB, `IB, `VB, `pi_index_mapping, `index_pi_mapping, `pis, `reg, `log, YBB
      ensures Valid() && reg == Cancelled(old(reg), host) && log == old(log) + [HostLeaves(host)] && hosts != map[]
      ensures fresh(YBB) && fresh(IB) && fresh(VB) && forall i :: 0 <= i < IB.Length ==> IB[i] == 0.0
    {
      hide *;
      ValidFacts();
      BoundarySizes(boundary_nodes_number, YBB, IB, VB, pi_index_mapping, index_pi_mapping, pis, reg);
      ghost var I0, V0 := Contents(IB), Contents(VB);
      var shared, totalSupplies, totalDemands :=
        LoadsLess(hosts, total_desired_supplies, total_desired_demands, host, start, length, reg);
      var Y, I, V, pi_index, index_pi, interfaces :=
        BoundaryLess(YBB, IB, VB, boundary_nodes_number, start, length, ids, pi_index_mapping, index_pi_mapping, pis,
                     reg, host);
      CancelledFacts(reg, host);
      RunLeaves(I0, V0, Contents(I), Contents(V), log, reg, host);
      Install(shared, totalSupplies, totalDemands, boundary_nodes_number - length, Y, I, V, pi_index, index_pi,
              interfaces, Cancelled(reg, host), log + [HostLeaves(host)]);
    }

    /** Every host's answers: the voltages of its range and the currents of its ties. */
    ghost predicate Answered(answers: map<string, seq<BoundaryAnswer>>)
      reads `hosts, `VB, `pi_index_mapping, `reg, VB
    {
      AreAnswers(hosts, Contents(VB), pi_index_mapping, reg, answers)
    }

    method Answers() returns (answers: map<string, seq<BoundaryAnswer>>)
      requires Valid()
      ensures Answered(answers) && TellsVoltages(reg, Contents(VB), answers) && TellsTies(reg, answers)
    {
      hide *;
      ValidFacts();
      BoundaryFacts(boundary_nodes_number, YBB, IB, VB, pi_index_mapping, index_pi_mapping, pis, reg);
      LoadsFacts(hosts, total_desired_supplies, total_desired_demands, reg);
      answers := map[];
      var todo := hosts.Keys;
      while todo != {}
        invariant todo <= hosts.Keys && answers.Keys == hosts.Keys - todo
        invariant forall h :: h in answers
                    ==> answers[h] == HostAnswers(Contents(VB), pi_index_mapping, reg.lines, hosts[h])
        decreases |todo|
      {
        var h :| h in todo;
        HostRange(hosts, reg, h);
        var a := AnswersOf(hosts[h]);
        answers := answers[h := a];
        todo := todo - {h};
      }
      IsAnswered(answers);
      VoltagesTold(hosts, Contents(VB), pi_index_mapping, reg, answers);
      TiesTold(hosts, Contents(VB), pi_index_mapping, index_pi_mapping, reg, answers);
    }

    lemma IsAnswered(answers: map<string, seq<BoundaryAnswer>>)
      requires answers.Keys == hosts.Keys
      requires forall h :: h in answers
                 ==> answers[h] == HostAnswers(Contents(VB), pi_index_mapping, reg.lines, hosts[h])
      ensures Answered(answers) && AreAnswers(hosts, Contents(VB), pi_index_mapping, reg, answers)
    {
      hide HostAnswers;
    }

    method AnswersOf(host: Host) returns (a: seq<BoundaryAnswer>)
      requires VB.Length == |reg.lines|
      requires host.boundary_node_num > 0
         ==> 0 <= host.start_index && host.start_index + host.boundary_node_num <= |reg.lines|
      requires Indexed(pi_index_mapping, index_pi_mapping, reg.lines) && Describes(pis, reg.lines)
      ensures a == HostAnswers(Contents(VB), pi_index_mapping, reg.lines, host)
    {
      hide AnswerAt, Indexed, Describes;
      a := [];
      ghost var all := HostAnswers(Contents(VB), pi_index_mapping, reg.lines, host);
      for i := 0 to host.boundary_node_num
        invariant a == all[..i]
      {
        var answer := AnswerOf(host.start_index + i);
        assert answer == all[i];
        a := a + [answer];
      }
    }

    /** The voltage of one boundary interface, and the current its tie carries towards it. */
    method AnswerOf(at: nat) returns (answer: BoundaryAnswer)
      requires at < |reg.lines| == VB.Length && Indexed(pi_index_mapping, index_pi_mapping, reg.lines)
      requires Describes(pis, reg.lines)
      ensures answer == AnswerAt(Contents(VB), pi_index_mapping, reg.lines, at)
    {
      assert reg.lines[at].id == index_pi_mapping[at];
      var neighbor := pis[index_pi_mapping[at]].neighbor;
      var current := 0.0;
      if neighbor in pi_index_mapping {
        current := VB[pi_index_mapping[neighbor]] - VB[at];
      }
      answer := BoundaryAnswer(VB[at], current);
    }

    lemma ValidFacts()
      requires Valid()
      ensures BoundaryOk(boundary_nodes_number, YBB, IB, VB, pi_index_mapping, index_pi_mapping, pis, reg)
      ensures LoadsOk(hosts, total_desired_supplies, total_desired_demands, reg)
      ensures SharesCurrent(hosts, total_desired_supplies, total_desired_demands)
      ensures RunOk(Contents(IB), Contents(VB), log, reg)
    {
      hide BoundaryOk, LoadsOk, RunOk, SharesCurrent;
    }

    lemma IsValid()
      requires BoundaryOk(boundary_nodes_number, YBB, IB, VB, pi_index_mapping, index_pi_mapping, pis, reg)
      requires LoadsOk(hosts, total_desired_supplies, total_desired_demands, reg)
      requires SharesCurrent(hosts, total_desired_supplies, total_desired_demands)
      requires RunOk(Contents(IB), Contents(VB), log, reg)
      ensures Valid()
    {
      hide BoundaryOk, LoadsOk, RunOk, SharesCurrent;
    }
  }

  lemma TotalsUpdated(hosts: map<string, Host>, r: Registry, h: string, load: Load)
    requires HostsMatch(hosts, r)
    ensures DemandsOf(load) == load.demands && SuppliesOf(load) == load.supplies
    ensures Total(r.loads[h := load], DemandsOf)
         == Total(r.loads, DemandsOf) + load.demands - if h in hosts then hosts[h].desired_demands else 0.0
    ensures Total(r.loads[h := load], SuppliesOf)
         == Total(r.loads, SuppliesOf) + load.supplies - if h in hosts then hosts[h].desired_supplies else 0.0
    ensures LoadUpdated(r, h, load).loads == r.loads[h := load]
  {
    TotalUpdate(r.loads, DemandsOf, h, load);
    TotalUpdate(r.loads, SuppliesOf, h, load);
  }

  lemma HostsUpdated(hosts: map<string, Host>, all: map<string, Host>, shared: map<string, Host>, r: Registry,
                     h: string, load: Load, supplies: real, demands: real)
    requires Consistent(r) && HostsMatch(hosts, r)
    requires all
      == hosts[h := if h in hosts then hosts[h].(desired_demands := load.demands, desired_supplies := load.supplies)
                               else Host(load.demands, load.supplies, None, None, 0, 0)]
    requires shared.Keys == all.Keys && forall g :: g in all ==> shared[g] == Shared(all[g], supplies, demands)
    ensures HostsMatch(shared, LoadUpdated(r, h, load))
    ensures forall g :: g in shared ==> shared[g] == Shared(shared[g], supplies, demands)
  {
    hide DistinctIds, Mutual, Tiled, ShareOfHost;
  }

  /** Loads do not enter the boundary matrix. */
  lemma LoadKeepsMatrix(Y: array2<real>, r: Registry, h: string, load: Load)
    requires Consistent(r) && HoldsMatrix(Y, r)
    ensures var s := LoadUpdated(r, h, load);
            Consistent(s) && HoldsMatrix(Y, s) && s.lines == r.lines
  {
    LoadUpdateKeeps(r, h, load);
    var s := LoadUpdated(r, h, load);
    hide TieEntry, Consistent, EntryOf;
    forall j, k ensures BoundaryMatrix(s)(j, k) == BoundaryMatrix(r)(j, k) {}
  }

  method EnterInjections(I: array<real>, start: int, deltaY: seq<real>)
    requires |deltaY| > 0 ==> 0 <= start && start + |deltaY| <= I.Length
    modifies I
    ensures forall i :: 0 <= i < I.Length
              ==> I[i] == if start <= i < start + |deltaY| then -deltaY[i - start] else old(I[i])
  {
    for k := 0 to |deltaY|
      invariant forall i :: 0 <= i < I.Length
                  ==> I[i] == if start <= i < start + k then -deltaY[i - start] else old(I[i])
    {
      I[start + k] := -deltaY[k];
    }
  }

  lemma HostRange(hosts: map<string, Host>, r: Registry, h: string)
    requires Consistent(r) && HostsMatch(hosts, r) && h in hosts
    ensures hosts[h].boundary_node_num > 0
       ==> 0 <= hosts[h].start_index && hosts[h].start_index + hosts[h].boundary_node_num <= |r.lines|
  {
    hide DistinctIds, Mutual, Registration.WellFormed, Tiled;
    if h in r.members { RangeInside(r, h); }
  }

  // ----- what holds over whole runs -----

  /** Index i is in the range that the coordinator keeps for this host. */
  predicate InRange(host: Host, i: int) {
    host.start_index <= i < host.start_index + host.boundary_node_num
  }

  /** What the names of two boundary interfaces say: the original diagonal entry and one more for a
      partner that is registered, -1 for a pair of partners, and nothing otherwise. */
  function NamedEntry(pis: map<string, PowerInterface>, pi_index: map<string, int>, p: string, q: string): real
    requires p in pis
  {
    if p == q then pis[p].original_diagonal_entry + if pis[p].neighbor in pi_index then 1.0 else 0.0
    else if pis[p].neighbor == q then -1.0
    else 0.0
  }

  /** Main result: in every valid state each entry of YBB is what the two interfaces' names say,
      less the entry of deltaX that their host sent for the pair if they are of one host. */
  lemma EntryByName(c: Coordinator, p: string, q: string)
    requires c.Valid() && p in c.pi_index_mapping && q in c.pi_index_mapping
    ensures p in c.pis && 0 <= c.pi_index_mapping[p] < c.YBB.Length0 && 0 <= c.pi_index_mapping[q] < c.YBB.Length1
    ensures var i, j := c.pi_index_mapping[p], c.pi_index_mapping[q];
            forall h :: h in c.hosts && InRange(c.hosts[h], i) && InRange(c.hosts[h], j)
              ==> && h in c.reg.members
                  && c.YBB[i, j] == NamedEntry(c.pis, c.pi_index_mapping, p, q)
                                    - EntryOf(c.reg.members[h].deltaX, i - c.hosts[h].start_index,
                                              j - c.hosts[h].start_index)
    ensures var i, j := c.pi_index_mapping[p], c.pi_index_mapping[q];
            (forall h :: h in c.hosts ==> !(InRange(c.hosts[h], i) && InRange(c.hosts[h], j)))
              ==> c.YBB[i, j] == NamedEntry(c.pis, c.pi_index_mapping, p, q)
  {
    hide *;
    c.ValidFacts();
    BoundaryFacts(c.boundary_nodes_number, c.YBB, c.IB, c.VB, c.pi_index_mapping, c.index_pi_mapping, c.pis, c.reg);
    LoadsFacts(c.hosts, c.total_desired_supplies, c.total_desired_demands, c.reg);
    MatrixIs(c.YBB, c.reg);
    var i, j := c.pi_index_mapping[p], c.pi_index_mapping[q];
    NumberOf(c.pi_index_mapping, c.index_pi_mapping, c.reg.lines, p);
    NumberOf(c.pi_index_mapping, c.index_pi_mapping, c.reg.lines, q);
    NamedTie(c.pis, c.pi_index_mapping, c.index_pi_mapping, c.reg.lines, p, q);
    SplitEntry(c.reg, i, j);
    forall h | h in c.hosts && InRange(c.hosts[h], i) && InRange(c.hosts[h], j)
      ensures h in c.reg.members
      ensures Correction(c.reg, i, j)
        == EntryOf(c.reg.members[h].deltaX, i - c.hosts[h].start_index, j - c.hosts[h].start_index)
    {
      CorrectionOfHost(c.hosts, c.reg, h, i, j);
    }
    if forall h :: h in c.hosts ==> !(InRange(c.hosts[h], i) && InRange(c.hosts[h], j)) {
      NoCorrection(c.hosts, c.reg, i, j);
    }
  }

  lemma SplitEntry(r: Registry, i: int, j: int)
    ensures BoundaryMatrix(r)(i, j) == TieEntry(r.lines, i, j) - Correction(r, i, j)
  {}

  lemma NamedTie(pis: map<string, PowerInterface>, pi_index: map<string, int>, index_pi: map<int, string>,
                 lines: seq<BoundaryLine>, p: string, q: string)
    requires Indexed(pi_index, index_pi, lines) && Describes(pis, lines) && p in pi_index && q in pi_index
    ensures p in pis && TieEntry(lines, pi_index[p], pi_index[q]) == NamedEntry(pis, pi_index, p, q)
  {
    var i, j := pi_index[p], pi_index[q];
    assert lines[i].id == p && lines[j].id == q;
    IndexedListed(pi_index, index_pi, lines, lines[i].partner);
  }

  lemma CorrectionOfHost(hosts: map<string, Host>, r: Registry, h: string, i: int, j: int)
    requires Consistent(r) && HostsMatch(hosts, r) && h in hosts && InRange(hosts[h], i) && InRange(hosts[h], j)
    ensures h in r.members
    ensures Correction(r, i, j) == EntryOf(r.members[h].deltaX, i - hosts[h].start_index, j - hosts[h].start_index)
  {
    hide DistinctIds, Mutual, Registration.WellFormed, EntryOf;
    assert HostMatches(hosts[h], r, h);
    assert Owns(r, h, i) && Owns(r, h, j);
  }

  lemma NoCorrection(hosts: map<string, Host>, r: Registry, i: int, j: int)
    requires Consistent(r) && HostsMatch(hosts, r) && 0 <= i < |r.lines| && 0 <= j < |r.lines|
    requires forall h :: h in hosts ==> !(InRange(hosts[h], i) && InRange(hosts[h], j))
    ensures Correction(r, i, j) == 0.0
  {
    hide DistinctIds, Mutual, Registration.WellFormed, EntryOf;
    OwnLine(r, i);
    OwnLine(r, j);
    var h := r.owners[i];
    assert HostMatches(hosts[h], r, h);
  }

  /** Two coordinators with the same hosts hold the same boundary matrix, entry for entry by
      interface name, however their hosts came and went. */
  lemma SameHostsSameMatrix(c: Coordinator, d: Coordinator, p: string, q: string)
    requires c.Valid() && d.Valid() && c.reg.members == d.reg.members
    requires p in c.pi_index_mapping && q in c.pi_index_mapping && p in d.pi_index_mapping && q in d.pi_index_mapping
    ensures var i, j, i', j' :=
      c.pi_index_mapping[p], c.pi_index_mapping[q], d.pi_index_mapping[p], d.pi_index_mapping[q];
            && 0 <= i < c.YBB.Length0 && 0 <= j < c.YBB.Length1 && 0 <= i' < d.YBB.Length0 && 0 <= j' < d.YBB.Length1
            && c.YBB[i, j] == d.YBB[i', j']
  {
    hide *;
    c.ValidFacts();
    d.ValidFacts();
    BoundaryFacts(c.boundary_nodes_number, c.YBB, c.IB, c.VB, c.pi_index_mapping, c.index_pi_mapping, c.pis, c.reg);
    BoundaryFacts(d.boundary_nodes_number, d.YBB, d.IB, d.VB, d.pi_index_mapping, d.index_pi_mapping, d.pis, d.reg);
    NumberOf(c.pi_index_mapping, c.index_pi_mapping, c.reg.lines, p);
    NumberOf(c.pi_index_mapping, c.index_pi_mapping, c.reg.lines, q);
    NumberOf(d.pi_index_mapping, d.index_pi_mapping, d.reg.lines, p);
    NumberOf(d.pi_index_mapping, d.index_pi_mapping, d.reg.lines, q);
    MatrixIs(c.YBB, c.reg);
    MatrixIs(d.YBB, d.reg);
    MembersDetermineMatrix(c.reg, d.reg, c.pi_index_mapping[p], c.pi_index_mapping[q], d.pi_index_mapping[p],
                           d.pi_index_mapping[q]);
  }

  lemma NumberOf(pi_index: map<string, int>, index_pi: map<int, string>, lines: seq<BoundaryLine>, p: string)
    requires Indexed(pi_index, index_pi, lines) && p in pi_index
    ensures 0 <= pi_index[p] < |lines| && lines[pi_index[p]].id == p
  {}

  lemma SameMaps(a: map<string, int>, a': map<int, string>, b: map<string, int>, b': map<int, string>,
                 lines: seq<BoundaryLine>)
    requires Indexed(a, a', lines) && Indexed(b, b', lines)
    ensures a == b && a' == b'
  {
    forall p ensures p in a <==> p in b {
      IndexedListed(a, a', lines, p);
      IndexedListed(b, b', lines, p);
    }
    forall p | p in a ensures a[p] == b[p] {
      assert lines[a[p]].id == p;
    }
    forall i | 0 <= i < |lines| ensures i in a' && i in b' && a'[i] == lines[i].id == b'[i] {
      assert lines[i].id in a;
    }
    forall i | i in a' ensures i in b' && a'[i] == b'[i] {
      assert 0 <= i < |lines|;
    }
    forall i | i in b' ensures i in a' {
      assert 0 <= i < |lines|;
    }
  }

  lemma HostListed(hosts: map<string, Host>, supplies: real, demands: real, s: Registry, r: Registry, h: string,
                   load: Load, m: Registration)
    requires LoadsOk(hosts, supplies, demands, s) && s == Registered(LoadUpdated(r, h, load), h, m)
    ensures h in hosts
  {}

  lemma SameRanges(hosts: map<string, Host>, supplies: real, demands: real, hosts': map<string, Host>,
                   supplies': real, demands': real, r: Registry)
    requires Consistent(r) && LoadsOk(hosts, supplies, demands, r) && LoadsOk(hosts', supplies', demands', r)
    ensures supplies == supplies' && demands == demands' && hosts.Keys == hosts'.Keys
    ensures forall h :: h in r.members
              ==> && h in hosts && h in hosts' && hosts'[h].start_index == hosts[h].start_index
                  && hosts'[h].boundary_node_num == hosts[h].boundary_node_num
  {
    hide DistinctIds, Mutual, Registration.WellFormed;
  }

  /** A host that joins others and leaves again leaves no trace: boundary matrix, index maps,
      the ranges of the other hosts and the desired totals are what they were. */
  method JoinAndLeave(c: Coordinator, host: string, load: Load, m: Registration, deltaY: seq<real>, ids: seq<string>)
    requires c.Valid() && c.boundary_nodes_number > 0 && |c.reg.lines| > 0 && host !in c.reg.loads
    requires |deltaY| == |m.lines|
    requires CanRegister(LoadUpdated(c.reg, host, load), host, m)
    requires CanCancel(Registered(LoadUpdated(c.reg, host, load), host, m), host)
    requires ListsHost(ids, Registered(LoadUpdated(c.reg, host, load), host, m), host)
    modifies c
    ensures c.Valid() && c.reg == old(c.reg)
    ensures c.log == old(c.log) + [HostLoads(host, load)] + [HostJoins(host, m, deltaY)] + [HostLeaves(host)]
    ensures c.YBB.Length0 == c.YBB.Length1 == old(c.YBB.Length0) == old(c.YBB.Length1)
    ensures forall i, j :: 0 <= i < c.YBB.Length0 && 0 <= j < c.YBB.Length0 ==> c.YBB[i, j] == old(c.YBB[i, j])
    ensures c.pi_index_mapping == old(c.pi_index_mapping) && c.index_pi_mapping == old(c.index_pi_mapping)
    ensures c.total_desired_demands == old(c.total_desired_demands)
    ensures c.total_desired_supplies == old(c.total_desired_supplies)
    ensures c.hosts.Keys == old(c.hosts.Keys)
    ensures forall h :: h in c.reg.members
              ==> && h in c.hosts && c.hosts[h].start_index == old(c.hosts)[h].start_index
                  && c.hosts[h].boundary_node_num == old(c.hosts)[h].boundary_node_num
  {
    hide *;
    c.ValidFacts();
    ghost var r, maps := c.reg, (c.pi_index_mapping, c.index_pi_mapping);
    ghost var loads := (c.hosts, c.total_desired_supplies, c.total_desired_demands);
    BoundaryFacts(c.boundary_nodes_number, c.YBB, c.IB, c.VB, c.pi_index_mapping, c.index_pi_mapping, c.pis, r);
    MatrixIs(c.YBB, r);
    RegisterThenCancel(r, host, load, m);
    var share := c.LoadUpdate(host, load.demands, load.supplies);
    var answers := c.Coordinate(host, m, deltaY);
    c.ValidFacts();
    HostListed(c.hosts, c.total_desired_supplies, c.total_desired_demands, c.reg, r, host, load, m);
    c.UnRegisterRequest(host, ids);
    c.ValidFacts();
    BoundaryFacts(c.boundary_nodes_number, c.YBB, c.IB, c.VB, c.pi_index_mapping, c.index_pi_mapping, c.pis, r);
    MatrixIs(c.YBB, r);
    SameMaps(maps.0, maps.1, c.pi_index_mapping, c.index_pi_mapping, r.lines);
    SameRanges(loads.0, loads.1, loads.2, c.hosts, c.total_desired_supplies, c.total_desired_demands, r);
  }
}
