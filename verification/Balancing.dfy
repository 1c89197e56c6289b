/** The currents of nodes and power lines, and the loops that balance them: inside one
    component, and with a share that the coordinator has assigned. */
module Balancing {
  import opened Sequences
  import opened Grids
  import opened LoadBalancing
  import opened Topology
  import opened Networks
  import opened Injections

  /** The last of the first k lines that ends at pi, or "". */
  function LastLineAt(g: Grid, pi: string, k: nat): string
    requires k <= |g.lineOrder| && forall l :: l in g.lineOrder ==> l in g.lines
  {
    if k == 0 then "" else if g.lines[g.lineOrder[k - 1]].IsPeer(pi) then g.lineOrder[k - 1]
                           else LastLineAt(g, pi, k - 1)
  }

  /** The line of an appliance: the last one at its first interface. */
  function ApplianceLine(g: Grid, n: Node): string
    requires forall l :: l in g.lineOrder ==> l in g.lines
  {
    if |n.interfaces| > 0 then LastLineAt(g, n.interfaces[0], |g.lineOrder|) else ""
  }

  /** Line i of the order ends at pi. */
  ghost predicate EndsAt(g: Grid, pi: string, i: int) {
    && 0 <= i < |g.lineOrder| && g.lineOrder[i] in g.lines
    && (g.lines[g.lineOrder[i]].lpeer == pi || g.lines[g.lineOrder[i]].rpeer == pi)
  }

  /** Line i of the order is the last one that ends at the first interface of n. */
  ghost predicate LastAtFirst(g: Grid, n: Node, i: int) {
    |n.interfaces| > 0 && EndsAt(g, n.interfaces[0], i) && forall j :: i < j ==> !EndsAt(g, n.interfaces[0], j)
  }

  /** The index of the last line that ends at pi, or -1. */
  lemma {:induction false} LastLineIndex(g: Grid, pi: string, k: nat) returns (i: int)
    requires k <= |g.lineOrder| && forall l :: l in g.lineOrder ==> l in g.lines
    ensures -1 <= i < k && (forall j :: i < j < k ==> !EndsAt(g, pi, j))
    ensures i >= 0 ==> EndsAt(g, pi, i)
    ensures LastLineAt(g, pi, k) == if i >= 0 then g.lineOrder[i] else ""
  {
    if k == 0 {
      i := -1;
    } else if g.lines[g.lineOrder[k - 1]].IsPeer(pi) {
      i := k - 1;
    } else {
      i := LastLineIndex(g, pi, k - 1);
    }
  }

  lemma OutsideTheOrder(g: Grid, pi: string)
    ensures forall j :: j >= |g.lineOrder| ==> !EndsAt(g, pi, j)
  {}

  /** The line of an appliance ends at its first interface, and no later line does; there is none only if no
      line ends there. */
  lemma ApplianceLineIsLast(g: Grid, n: Node, i: int)
    requires |n.interfaces| > 0 && forall l :: l in g.lineOrder ==> l in g.lines
    ensures LastAtFirst(g, n, i) ==> 0 <= i < |g.lineOrder| && ApplianceLine(g, n) == g.lineOrder[i]
    ensures ApplianceLine(g, n) != "" ==> exists j :: LastAtFirst(g, n, j) && g.lineOrder[j] == ApplianceLine(g, n)
    ensures (forall j :: !EndsAt(g, n.interfaces[0], j)) ==> ApplianceLine(g, n) == ""
  {
    hide LastLineAt;
    OutsideTheOrder(g, n.interfaces[0]);
    var k := LastLineIndex(g, n.interfaces[0], |g.lineOrder|);
    assert k >= 0 ==> LastAtFirst(g, n, k);
  }

  /** The currents hold v for this node or line; one that is not a number is not there. */
  predicate Stored(cur: Currents, id: string, v: Option<real>) {
    match v
    case Some(c) => id in cur && cur[id] == c
    case None => id !in cur
  }

  function Put(cur: Currents, id: string, v: Option<real>): (after: Currents)
    ensures Stored(after, id, v) && forall other :: other != id ==> (other in after <==> other in cur)
    ensures forall other :: other != id && other in cur ==> after[other] == cur[other]
  {
    match v
    case Some(c) => cur[id := c]
    case None => cur - {id}
  }

  /** The node has all it desires, or such a part of loads as it desires of total; no number if total is 0. */
  ghost predicate Gets(cur: Currents, id: string, desired: real, full: bool, loads: real, total: real) {
    if full then id in cur && cur[id] == desired
    else if total == 0.0 then id !in cur
    else id in cur && cur[id] * total == loads * desired
  }

  lemma FullGets(cur: Currents, id: string, desired: real, loads: real, total: real)
    requires Stored(cur, id, Some(desired))
    ensures Gets(cur, id, desired, true, loads, total)
  {}

  lemma QuotaGets(cur: Currents, id: string, desired: real, loads: real, total: real)
    requires Stored(cur, id, Quota(Some(loads), desired, total))
    ensures Gets(cur, id, desired, false, loads, total)
  {
    if total != 0.0 {
      RatioTimes(loads, desired, total);
    }
  }

  /** The interfaces belong to nodes of the grid, and every appliance has an interface. */
  ghost predicate Known(g: Grid, component: seq<string>) {
    && (forall p :: p in component
          ==> p in g.nodeOf && g.nodeOf[p] in g.nodes && g.nodes[g.nodeOf[p]].id == g.nodeOf[p])
    && (forall p :: p in component && IsAppliance(NodeOrNone(g, p)) ==> |NodeOrNone(g, p).interfaces| > 0)
  }

  /** Nothing is divided by a total of zero. */
  ghost predicate Divisible(g: Grid, component: seq<string>, plenty: bool, total: real) {
    total != 0.0
    || forall p :: p in component
         ==> if plenty then !IsSupply(NodeOrNone(g, p)) else !IsDemand(NodeOrNone(g, p))
  }

  lemma DivisiblePortion(g: Grid, component: seq<string>, plenty: bool, loads: real, total: real, p: string)
    requires Divisible(g, component, plenty, total) && p in component
    ensures Portion(NodeOrNone(g, p), plenty, Some(loads), total).Some?
  {
    hide IsSupply, IsDemand;
  }

  /** Some appliance interface among ps belongs to this node. */
  predicate Feeds(g: Grid, ps: seq<string>, id: string) {
    exists k :: 0 <= k < |ps| && ps[k] in g.nodeOf && g.nodeOf[ps[k]] == id && id in g.nodes && IsAppliance(g.nodes[id])
  }

  lemma FeedsAppend(g: Grid, ps: seq<string>, i: nat, id: string)
    requires i < |ps|
    ensures Feeds(g, ps[..i + 1], id)
       <==> Feeds(g, ps[..i], id)
            || (ps[i] in g.nodeOf && g.nodeOf[ps[i]] == id && id in g.nodes && IsAppliance(g.nodes[id]))
  {
    hide IsAppliance;
    if Feeds(g, ps[..i], id) {
      var k :| 0 <= k < i && ps[..i][k] in g.nodeOf && g.nodeOf[ps[..i][k]] == id && id in g.nodes
        && IsAppliance(g.nodes[id]);
      assert ps[..i + 1][k] == ps[..i][k];
    }
    assert ps[..i + 1][i] == ps[i];
    if Feeds(g, ps[..i + 1], id) {
      var k :| 0 <= k <= i && ps[..i + 1][k] in g.nodeOf && g.nodeOf[ps[..i + 1][k]] == id && id in g.nodes
        && IsAppliance(g.nodes[id]);
      if k < i { assert ps[..i][k] == ps[..i + 1][k]; }
    }
  }

  lemma FeedsNone(g: Grid)
    ensures forall ps: seq<string>, id :: ps == [] ==> !Feeds(g, ps, id)
  {}

  /** The appliance whose line l is: the last one of the list if several share it. */
  function LineUser(g: Grid, ps: seq<string>, l: string): Option<string>
    requires forall l :: l in g.lineOrder ==> l in g.lines
  {
    if ps == [] then None
    else
      var p := ps[|ps| - 1];
      if p in g.nodeOf && g.nodeOf[p] in g.nodes && IsAppliance(g.nodes[g.nodeOf[p]]) && l != ""
         && ApplianceLine(g, g.nodes[g.nodeOf[p]]) == l
      then Some(g.nodeOf[p])
      else LineUser(g, ps[..|ps| - 1], l)
  }

  lemma {:induction false} LineUserFeeds(g: Grid, ps: seq<string>, l: string)
    requires forall l :: l in g.lineOrder ==> l in g.lines
    ensures match LineUser(g, ps, l)
            case Some(id) => l != "" && Feeds(g, ps, id) && id in g.nodes && ApplianceLine(g, g.nodes[id]) == l
            case None => forall id :: l != "" && Feeds(g, ps, id) ==> ApplianceLine(g, g.nodes[id]) != l
  {
    hide IsAppliance, ApplianceLine;
    if ps != [] {
      var n := |ps| - 1;
      LineUserFeeds(g, ps[..n], l);
      assert ps[..n + 1] == ps;
      forall id ensures Feeds(g, ps, id)
        <==> Feeds(g, ps[..n], id)
             || (ps[n] in g.nodeOf && g.nodeOf[ps[n]] == id && id in g.nodes && IsAppliance(g.nodes[id]))
      {
        FeedsAppend(g, ps, n, id);
      }
      hide Feeds;
    }
  }

  /** The mutable currents of a simulated grid, by node and by power line. */
  class CurrentState {
    const grid: Grid
    var node_current: Currents
    var line_current: Currents

    constructor (g: Grid)
      ensures grid == g && node_current == map id | id in g.nodes :: 0.0
      ensures line_current == map l | l in g.lines :: 0.0
    {
      grid := g;
      node_current := map id | id in g.nodes :: 0.0;
      line_current := map l | l in g.lines :: 0.0;
    }

    method FindPowerLine(peer1: string, peer2: string) returns (line: string)
      requires forall l :: l in grid.lineOrder ==> l in grid.lines
      ensures line == grid.LineBetween(peer1, peer2, |grid.lineOrder|)
      ensures peer1 != peer2
          ==> && (forall i :: Between(grid, peer1, peer2, i) && (forall j :: i < j ==> !Between(grid, peer1, peer2, j))
                    ==> line == grid.lineOrder[i])
              && ((forall i :: !Between(grid, peer1, peer2, i)) ==> line == "")
    {
      line := "";
      for k := 0 to |grid.lineOrder|
        invariant line == grid.LineBetween(peer1, peer2, k)
      {
        var l := grid.lineOrder[k];
        if grid.lines[l].IsPeer(peer1) && grid.lines[l].IsPeer(peer2) {
          line := l;
        }
      }
      if peer1 != peer2 {
        LastBetween(peer1, peer2);
      }
    }

    lemma LastBetween(p: string, q: string)
      requires p != q && forall l :: l in grid.lineOrder ==> l in grid.lines
      ensures var line := grid.LineBetween(p, q, |grid.lineOrder|);
              && (forall i :: Between(grid, p, q, i) && (forall j :: i < j ==> !Between(grid, p, q, j))
                    ==> line == grid.lineOrder[i])
              && ((forall i :: !Between(grid, p, q, i)) ==> line == "")
    {
      forall i | Between(grid, p, q, i) && (forall j :: i < j ==> !Between(grid, p, q, j))
        ensures grid.LineBetween(p, q, |grid.lineOrder|) == grid.lineOrder[i]
      {
        LineBetweenIsLast(grid, p, q, i);
      }
      LineBetweenIsLast(grid, p, q, 0);
    }

    method FindAppPowerLine(id: string) returns (line: string)
      requires id in grid.nodes && (forall l :: l in grid.lineOrder ==> l in grid.lines)
      requires IsAppliance(grid.nodes[id]) && |grid.nodes[id].interfaces| > 0
      ensures line == ApplianceLine(grid, grid.nodes[id])
      ensures forall i :: LastAtFirst(grid, grid.nodes[id], i) ==> line == grid.lineOrder[i]
      ensures (forall i :: !EndsAt(grid, grid.nodes[id].interfaces[0], i)) ==> line == ""
    {
      line := "";
      var pi := grid.nodes[id].interfaces[0];
      for k := 0 to |grid.lineOrder|
        invariant line == LastLineAt(grid, pi, k)
      {
        if grid.lines[grid.lineOrder[k]].IsPeer(pi) {
          line := grid.lineOrder[k];
        }
      }
      forall i ensures LastAtFirst(grid, grid.nodes[id], i) ==> line == grid.lineOrder[i] {
        ApplianceLineIsLast(grid, grid.nodes[id], i);
      }
      ApplianceLineIsLast(grid, grid.nodes[id], 0);
    }

    /** An appliance's current, and that of its line. */
    method UpdateAppliance(id: string, current: Option<real>) returns (success: bool)
      requires id in grid.nodes && (forall l :: l in grid.lineOrder ==> l in grid.lines)
      requires IsAppliance(grid.nodes[id]) ==> |grid.nodes[id].interfaces| > 0
      modifies this`node_current, this`line_current
      ensures success == (IsAppliance(grid.nodes[id]) && ApplianceLine(grid, grid.nodes[id]) != "")
      ensures node_current == if IsAppliance(grid.nodes[id]) then Put(old(node_current), id, current)
                              else old(node_current)
      ensures line_current
           == if success then Put(old(line_current), ApplianceLine(grid, grid.nodes[id]), current)
              else old(line_current)
    {
      success := false;
      if IsAppliance(grid.nodes[id]) {
        node_current := Put(node_current, id, current);
        var line := FindAppPowerLine(id);
        if line != "" {
          line_current := Put(line_current, line, current);
          success := true;
        }
      }
    }

    /** The desired totals of a component. */
    method DesiredTotals(component: seq<string>) returns (supplies: real, demands: real)
      requires Known(grid, component)
      ensures supplies == DesiredSupplies(Nodes(grid, component)) && demands == DesiredDemands(Nodes(grid, component))
    {
      supplies, demands := 0.0, 0.0;
      ghost var ns := Nodes(grid, component);
      for i := 0 to |component|
        invariant supplies == DesiredSupplies(ns[..i]) && demands == DesiredDemands(ns[..i])
      {
        var n := grid.nodes[grid.nodeOf[component[i]]];
        assert ns[..i + 1][..i] == ns[..i] && ns[i] == n;
        if n.role == WindTurbine || n.role == SolarPanel || n.role == PowerPlant {
          supplies := supplies + n.desired;
        }
        if n.role == Demander {
          demands := demands + n.desired;
        }
        if n.role == Storage {
          if n.mode == Charging {
            demands := demands + n.desired;
          } else if n.mode == Discharging {
            supplies := supplies + n.desired;
          }
        }
      }
      assert ns[..|component|] == ns;
    }

    /** The branches of the balancing loops for one node. */
    method PortionOf(n: Node, plenty: bool, loads: Option<real>, total: real) returns (current: Option<real>)
      ensures current == Portion(n, plenty, loads, total)
    {
      current := Some(0.0);
      if n.role == WindTurbine || n.role == SolarPanel || n.role == PowerPlant
        || (n.role == Storage && n.mode == Discharging) {
        current := Some(n.desired);
        if plenty {
          current := ShareOf(loads, n.desired, total);
        }
      } else if n.role == Demander || (n.role == Storage && n.mode == Charging) {
        current := Some(n.desired);
        if !plenty {
          current := ShareOf(loads, n.desired, total);
        }
      }
    }

    /** Division by 0 gives no number, and neither does a product with something that is none. */
    method ShareOf(loads: Option<real>, desired: real, total: real) returns (current: Option<real>)
      ensures current == Quota(loads, desired, total)
    {
      if total == 0.0 || loads.None? {
        current := None;
      } else {
        var ratio := desired / total;
        var share := loads.value * ratio;
        current := Some(share);
        assert Quota(loads, desired, total).value == share;
      }
    }

    /** The loop over the interfaces of a component that all three balancings share. */
    method Distribute(component: seq<string>, plenty: bool, loads: Option<real>, total: real)
      requires Known(grid, component)
      requires forall l :: l in grid.lineOrder ==> l in grid.lines
      modifies this`node_current, this`line_current
      ensures Distributed(old(node_current), component, plenty, loads, total)
      ensures LinesDistributed(old(line_current), component, plenty, loads, total)
    {
      hide Portion, IsSupply, IsDemand, Feeds, Put, Stored, LineHolds, ApplianceLine;
      ghost var before, linesBefore := node_current, line_current;
      FeedsNone(grid);
      NoLineYet(component[..0], plenty, loads, total);
      for i := 0 to |component|
        invariant Distributed(before, component[..i], plenty, loads, total)
        invariant LinesDistributed(linesBefore, component[..i], plenty, loads, total)
      {
        var id := grid.nodeOf[component[i]];
        var n := grid.nodes[id];
        assert NodeOrNone(grid, component[i]) == n;
        assert component[i] in component;
        var current := PortionOf(n, plenty, loads, total);
        ghost var now, linesNow := node_current, line_current;
        var _ := UpdateAppliance(id, current);
        DistributedNext(before, now, component, i, plenty, loads, total);
        LinesNext(linesBefore, linesNow, component, i, plenty, loads, total);
      }
      assert component[..|component|] == component;
    }

    /** The appliances of the component hold their portions, all other nodes what they held. */
    ghost predicate Distributed(before: Currents, component: seq<string>, plenty: bool, loads: Option<real>,
                                total: real)
      reads this`node_current
    {
      && (forall id :: Feeds(grid, component, id)
            ==> Stored(node_current, id, Portion(grid.nodes[id], plenty, loads, total)))
      && (forall id :: !Feeds(grid, component, id) ==> (id in node_current <==> id in before))
      && (forall id :: !Feeds(grid, component, id) && id in before ==> node_current[id] == before[id])
    }

    lemma DistributedNext(before: Currents, now: Currents, component: seq<string>, i: nat, plenty: bool,
                          loads: Option<real>, total: real)
      requires i < |component| && Known(grid, component)
      requires forall id :: Feeds(grid, component[..i], id)
                 ==> Stored(now, id, Portion(grid.nodes[id], plenty, loads, total))
      requires forall id :: !Feeds(grid, component[..i], id) ==> (id in now <==> id in before)
      requires forall id :: !Feeds(grid, component[..i], id) && id in before ==> now[id] == before[id]
      requires var id := grid.nodeOf[component[i]];
               node_current
                 == if IsAppliance(grid.nodes[id]) then Put(now, id, Portion(grid.nodes[id], plenty, loads, total))
                    else now
      ensures Distributed(before, component[..i + 1], plenty, loads, total)
    {
      hide Feeds, IsAppliance, Portion, Put, Known;
      KnownNext(grid, component, i);
      var last := grid.nodeOf[component[i]];
      forall id ensures Feeds(grid, component[..i + 1], id)
        <==> Feeds(grid, component[..i], id) || (last == id && IsAppliance(grid.nodes[id]))
      {
        FeedsAppend(grid, component, i, id);
      }
    }

    /** The line of an appliance of the component holds its portion, all other lines what they held. */
    ghost predicate LinesDistributed(before: Currents, component: seq<string>, plenty: bool, loads: Option<real>,
                                     total: real)
      requires forall l :: l in grid.lineOrder ==> l in grid.lines
      reads this`line_current
    {
      forall l :: LineHolds(before, line_current, component, plenty, loads, total, l)
    }

    ghost predicate LineHolds(before: Currents, after: Currents, component: seq<string>, plenty: bool,
                              loads: Option<real>, total: real, l: string)
      requires forall l :: l in grid.lineOrder ==> l in grid.lines
    {
      match LineUser(grid, component, l)
      case Some(id) => id in grid.nodes && Stored(after, l, Portion(grid.nodes[id], plenty, loads, total))
      case None => (l in after <==> l in before) && (l in before ==> after[l] == before[l])
    }

    lemma NoLineYet(component: seq<string>, plenty: bool, loads: Option<real>, total: real)
      requires component == [] && forall l :: l in grid.lineOrder ==> l in grid.lines
      ensures LinesDistributed(line_current, component, plenty, loads, total)
    {}

    lemma LinesNext(before: Currents, now: Currents, component: seq<string>, i: nat, plenty: bool,
                    loads: Option<real>, total: real)
      requires i < |component| && Known(grid, component) && forall l :: l in grid.lineOrder ==> l in grid.lines
      requires forall l :: LineHolds(before, now, component[..i], plenty, loads, total, l)
      requires var id := grid.nodeOf[component[i]];
               line_current
                 == if IsAppliance(grid.nodes[id]) && ApplianceLine(grid, grid.nodes[id]) != ""
                    then Put(now, ApplianceLine(grid, grid.nodes[id]), Portion(grid.nodes[id], plenty, loads, total))
                    else now
      ensures LinesDistributed(before, component[..i + 1], plenty, loads, total)
    {
      hide IsAppliance, ApplianceLine, Portion, Put, Known;
      KnownNext(grid, component, i);
      var front, all := component[..i], component[..i + 1];
      assert all[..|all| - 1] == front && all[|all| - 1] == component[i];
      forall l ensures LineHolds(before, line_current, all, plenty, loads, total, l) {
        assert LineHolds(before, now, front, plenty, loads, total, l);
      }
    }

    lemma KnownNext(g: Grid, component: seq<string>, i: nat)
      requires Known(g, component) && i < |component|
      ensures component[i] in g.nodeOf && g.nodeOf[component[i]] in g.nodes
    {
      assert component[i] in component;
    }

    /** Every appliance of the component holds its portion, which may be no number. */
    ghost predicate HoldsPortions(component: seq<string>, portion: Node -> Option<real>)
      reads this`node_current
    {
      forall p :: p in component && IsAppliance(NodeOrNone(grid, p)) && p in grid.nodeOf
        ==> Stored(node_current, grid.nodeOf[p], portion(NodeOrNone(grid, p)))
    }

    /** The balance of a component in terms of roles and modes: whoever is on the scarce side has what he
        desires, the other side shares as much in proportion, standing storages have nothing; and unless it is
        divided by 0, what is supplied is what is drawn, the smaller of the two desired totals. */
    ghost predicate BalancedByRole(component: seq<string>)
      reads this`node_current
    {
      var supplying := (n: Node) => n.role == WindTurbine || n.role == SolarPanel || n.role == PowerPlant
                                    || (n.role == Storage && n.mode == Discharging);
      var demanding := (n: Node) => n.role == Demander || (n.role == Storage && n.mode == Charging);
      var s, d := Desired(Nodes(grid, component), supplying), Desired(Nodes(grid, component), demanding);
      && (forall p :: p in component && p in grid.nodeOf && grid.nodeOf[p] in grid.nodes
                      ==> HoldsByRole(grid.nodeOf[p], s, d))
      && ((if s >= d then s else d) != 0.0
          ==> && Carried(grid, node_current, component, supplying) == (if s >= d then d else s)
              && Carried(grid, node_current, component, demanding) == (if s >= d then d else s))
    }

    ghost predicate HoldsByRole(id: string, s: real, d: real)
      requires id in grid.nodes
      reads this`node_current
    {
      var n := grid.nodes[id];
      match n.role
      case WindTurbine => Gets(node_current, id, n.desired, s < d, d, s)
      case SolarPanel => Gets(node_current, id, n.desired, s < d, d, s)
      case PowerPlant => Gets(node_current, id, n.desired, s < d, d, s)
      case Demander => Gets(node_current, id, n.desired, s >= d, s, d)
      case Storage =>
        if n.mode == Discharging then Gets(node_current, id, n.desired, s < d, d, s)
        else if n.mode == Charging then Gets(node_current, id, n.desired, s >= d, s, d)
        else id in node_current && node_current[id] == 0.0
      case Switch => true
      case Tunnel => true
    }

    lemma PortionByRole(component: seq<string>, p: string, s: real, d: real)
      requires Known(grid, component) && p in component && HoldsPortions(component, n => Balanced(n, s, d))
      ensures p in grid.nodeOf && grid.nodeOf[p] in grid.nodes && NodeOrNone(grid, p) == grid.nodes[grid.nodeOf[p]]
      ensures HoldsByRole(grid.nodeOf[p], s, d)
    {
      hide Quota, Gets;
      var id := grid.nodeOf[p];
      var n := grid.nodes[id];
      if (IsSupply(n) && s < d) || (IsDemand(n) && s >= d) {
        FullGets(node_current, id, n.desired, if s >= d then s else d, if s >= d then d else s);
      } else if IsSupply(n) {
        QuotaGets(node_current, id, n.desired, d, s);
      } else if IsDemand(n) {
        QuotaGets(node_current, id, n.desired, s, d);
      }
    }

    lemma OneCarries(p: string, s: real, d: real, side: bool)
      requires p in grid.nodeOf && grid.nodeOf[p] in grid.nodes && HoldsByRole(grid.nodeOf[p], s, d)
      requires var n := NodeOrNone(grid, p);
               if side then n.role == WindTurbine || n.role == SolarPanel || n.role == PowerPlant
                            || (n.role == Storage && n.mode == Discharging)
               else n.role == Demander || (n.role == Storage && n.mode == Charging)
      requires (if s >= d then s else d) != 0.0
      ensures (if side then s < d else s >= d) ==> CurrentAt(grid, node_current, p) == NodeOrNone(grid, p).desired
      ensures !(if side then s < d else s >= d)
          ==> CurrentAt(grid, node_current, p) * (if side then s else d)
              == (if side then d else s) * NodeOrNone(grid, p).desired
    {
      var full := if side then s < d else s >= d;
      assert Gets(node_current, grid.nodeOf[p], NodeOrNone(grid, p).desired, full, if side then d else s,
                  if side then s else d);
      hide HoldsByRole;
    }

    /** What one side carries together, given that everybody holds what his role says. */
    lemma SideCarries(component: seq<string>, s: real, d: real, picked: Node -> bool, side: bool)
      requires Known(grid, component)
      requires forall p :: p in component ==> HoldsByRole(grid.nodeOf[p], s, d)
      requires forall n :: picked(n)
                 <==> if side then n.role == WindTurbine || n.role == SolarPanel || n.role == PowerPlant
                                   || (n.role == Storage && n.mode == Discharging)
                      else n.role == Demander || (n.role == Storage && n.mode == Charging)
      requires Desired(Nodes(grid, component), picked) == (if side then s else d)
      requires (if s >= d then s else d) != 0.0
      ensures Carried(grid, node_current, component, picked) == if s >= d then d else s
    {
      hide Desired, Carried, Nodes, HoldsByRole;
      var full := if side then s < d else s >= d;
      var loads := if full then 1.0 else if side then d else s;
      var total := if full then 1.0 else if side then s else d;
      forall p | p in component && picked(NodeOrNone(grid, p))
        ensures CurrentAt(grid, node_current, p) * total == loads * NodeOrNone(grid, p).desired
      {
        OneCarries(p, s, d, side);
      }
      hide *;
      CarriedFraction(grid, node_current, component, picked, loads, total);
      Cancels(Carried(grid, node_current, component, picked), total, if s >= d then d else s);
    }

    lemma IsBalancedByRole(component: seq<string>, s: real, d: real)
      requires Known(grid, component) && HoldsPortions(component, n => Balanced(n, s, d))
      requires s == DesiredSupplies(Nodes(grid, component)) && d == DesiredDemands(Nodes(grid, component))
      ensures BalancedByRole(component)
    {
      var supplying := (n: Node) => n.role == WindTurbine || n.role == SolarPanel || n.role == PowerPlant
                                    || (n.role == Storage && n.mode == Discharging);
      var demanding := (n: Node) => n.role == Demander || (n.role == Storage && n.mode == Charging);
      DesiredTotal(Nodes(grid, component), supplying, demanding);
      forall p | p in component
        ensures p in grid.nodeOf && grid.nodeOf[p] in grid.nodes && HoldsByRole(grid.nodeOf[p], s, d)
      {
        PortionByRole(component, p, s, d);
      }
      hide Desired, HoldsByRole, Nodes, Carried, DesiredSupplies, DesiredDemands, HoldsPortions;
      if (if s >= d then s else d) != 0.0 {
        SideCarries(component, s, d, supplying, true);
        SideCarries(component, s, d, demanding, false);
      }
    }

    /** The line of an appliance that shares it with no other one carries what the appliance does; a line that
        belongs to no appliance of the component carries what it did. */
    ghost predicate LinesCarry(component: seq<string>, before: Currents)
      reads this`node_current, this`line_current
    {
      && (forall p, i :: HasLine(component, p, i) && (forall q :: HasLine(component, q, i)
                                                        ==> grid.nodeOf[q] == grid.nodeOf[p])
                         ==> && (grid.lineOrder[i] in line_current <==> grid.nodeOf[p] in node_current)
                             && (grid.nodeOf[p] in node_current
                                 ==> line_current[grid.lineOrder[i]] == node_current[grid.nodeOf[p]]))
      && (forall l :: l in before && (forall p, i :: HasLine(component, p, i) ==> grid.lineOrder[i] != l)
                      ==> l in line_current && line_current[l] == before[l])
    }

    /** p belongs to an appliance whose line is line i of the order. */
    ghost predicate HasLine(component: seq<string>, p: string, i: int) {
      && p in component && p in grid.nodeOf && grid.nodeOf[p] in grid.nodes
      && grid.nodes[grid.nodeOf[p]].role != Switch && grid.nodes[grid.nodeOf[p]].role != Tunnel
      && 0 <= i < |grid.lineOrder| && grid.lineOrder[i] != "" && LastAtFirst(grid, grid.nodes[grid.nodeOf[p]], i)
    }

    lemma UserOfLine(component: seq<string>, p: string, i: int)
      requires Known(grid, component) && (forall l :: l in grid.lineOrder ==> l in grid.lines)
      requires HasLine(component, p, i) && Distinct(grid.lineOrder)
      ensures LineUser(grid, component, grid.lineOrder[i]).Some?
      ensures exists q :: HasLine(component, q, i)
                          && grid.nodeOf[q] == LineUser(grid, component, grid.lineOrder[i]).value
    {
      var l, n := grid.lineOrder[i], grid.nodes[grid.nodeOf[p]];
      ApplianceLineIsLast(grid, n, i);
      LineUserFeeds(grid, component, l);
      RoleOfAppliance(n);
      FeedsOwn(grid, component, p);
      hide ApplianceLine, LineUser, Feeds, IsAppliance;
      var id := LineUser(grid, component, l).value;
      var q := FedBy(grid, component, id);
      OwnLine(component, q, i, l);
    }

    lemma OwnLine(component: seq<string>, q: string, i: int, l: string)
      requires Known(grid, component) && (forall l :: l in grid.lineOrder ==> l in grid.lines)
      requires q in component && q in grid.nodeOf && grid.nodeOf[q] in grid.nodes
      requires IsAppliance(grid.nodes[grid.nodeOf[q]]) && ApplianceLine(grid, grid.nodes[grid.nodeOf[q]]) == l != ""
      requires 0 <= i < |grid.lineOrder| && grid.lineOrder[i] == l && Distinct(grid.lineOrder)
      ensures HasLine(component, q, i)
    {
      var n := grid.nodes[grid.nodeOf[q]];
      RoleOfAppliance(n);
      hide IsAppliance;
      ApplianceLineIsLast(grid, n, i);
    }

    lemma RoleOfAppliance(n: Node)
      ensures IsAppliance(n) <==> n.role != Switch && n.role != Tunnel
    {}

    lemma LinesFollow(before: Currents, component: seq<string>, plenty: bool, loads: Option<real>, total: real)
      requires Known(grid, component) && (forall l :: l in grid.lineOrder ==> l in grid.lines)
      requires Distinct(grid.lineOrder) && LinesDistributed(before, component, plenty, loads, total)
      requires forall p :: p in component && IsAppliance(NodeOrNone(grid, p))
                 ==> Stored(node_current, grid.nodeOf[p], Portion(NodeOrNone(grid, p), plenty, loads, total))
      ensures LinesCarry(component, before)
    {
      hide Portion, LineUser, LastAtFirst, IsAppliance;
      forall p, i | HasLine(component, p, i) && (forall q :: HasLine(component, q, i)
                                                   ==> grid.nodeOf[q] == grid.nodeOf[p])
        ensures grid.lineOrder[i] in line_current <==> grid.nodeOf[p] in node_current
        ensures grid.nodeOf[p] in node_current
            ==> line_current[grid.lineOrder[i]] == node_current[grid.nodeOf[p]]
      {
        UserOfLine(component, p, i);
        RoleOfAppliance(grid.nodes[grid.nodeOf[p]]);
        assert LineHolds(before, line_current, component, plenty, loads, total, grid.lineOrder[i]);
        assert NodeOrNone(grid, p) == grid.nodes[grid.nodeOf[p]];
      }
      forall l | l in before && (forall p, i :: HasLine(component, p, i) ==> grid.lineOrder[i] != l)
        ensures l in line_current && line_current[l] == before[l]
      {
        NoUser(component, l);
        assert LineHolds(before, line_current, component, plenty, loads, total, l);
      }
    }

    lemma LinesHeld(nodesBefore: Currents, before: Currents, component: seq<string>, plenty: bool,
                    loads: Option<real>, total: real)
      requires Known(grid, component) && (forall l :: l in grid.lineOrder ==> l in grid.lines)
      requires Distinct(grid.lineOrder) && Distributed(nodesBefore, component, plenty, loads, total)
      requires LinesDistributed(before, component, plenty, loads, total)
      ensures LinesCarry(component, before)
    {
      hide Portion, Feeds, IsAppliance, LinesDistributed, LinesCarry;
      forall p | p in component && IsAppliance(NodeOrNone(grid, p))
        ensures Stored(node_current, grid.nodeOf[p], Portion(NodeOrNone(grid, p), plenty, loads, total))
      {
        FeedsOwn(grid, component, p);
      }
      LinesFollow(before, component, plenty, loads, total);
    }

    lemma NoUser(component: seq<string>, l: string)
      requires Known(grid, component) && (forall l :: l in grid.lineOrder ==> l in grid.lines)
      requires Distinct(grid.lineOrder)
      requires forall p, i :: HasLine(component, p, i) ==> grid.lineOrder[i] != l
      ensures LineUser(grid, component, l).None?
    {
      LineUserFeeds(grid, component, l);
      hide ApplianceLine, LineUser, Feeds, IsAppliance, HasLine;
      if LineUser(grid, component, l).Some? {
        var id := LineUser(grid, component, l).value;
        var q := FedBy(grid, component, id);
        ApplianceLineIsLast(grid, grid.nodes[id], 0);
        var i :| LastAtFirst(grid, grid.nodes[id], i) && grid.lineOrder[i] == l;
        OwnLine(component, q, i, l);
        assert false;
      }
    }

    /** Balancing inside one component. Where nothing is divided by 0 the portions are numbers and
        are the shares. */
    method LoadBalancing(component: seq<string>) returns (balanced: bool)
      requires Known(grid, component) && (forall l :: l in grid.lineOrder ==> l in grid.lines)
      modifies this`node_current, this`line_current
      ensures balanced
      ensures var s, d := DesiredSupplies(Nodes(grid, component)), DesiredDemands(Nodes(grid, component));
              && HoldsPortions(component, n => Balanced(n, s, d))
              && (Divisible(grid, component, s >= d, if s >= d then s else d)
                  ==> && HoldsShares(grid, node_current, component, s, d)
                      && forall id :: id in old(node_current) ==> id in node_current)
      ensures BalancedByRole(component)
      ensures Distinct(grid.lineOrder) ==> LinesCarry(component, old(line_current))
      ensures forall id :: IsUninvolved(component, id) && id in old(node_current)
                ==> id in node_current && node_current[id] == old(node_current)[id]
    {
      hide Distributed, LinesDistributed, BalancedByRole, LinesCarry, HoldsPortions, HoldsShares, Divisible, Known;
      hide IsUninvolved, DesiredSupplies, DesiredDemands;
      ghost var before, linesBefore := node_current, line_current;
      var supplies, demands := DesiredTotals(component);
      if supplies >= demands {
        Distribute(component, true, Some(demands), supplies);
        PortionsHeld(before, component, true, Some(demands), supplies, n => Balanced(n, supplies, demands));
        OthersHeld(before, linesBefore, component, true, Some(demands), supplies);
      } else {
        Distribute(component, false, Some(supplies), demands);
        PortionsHeld(before, component, false, Some(supplies), demands, n => Balanced(n, supplies, demands));
        OthersHeld(before, linesBefore, component, false, Some(supplies), demands);
      }
      IsBalancedByRole(component, supplies, demands);
      if Divisible(grid, component, supplies >= demands, if supplies >= demands then supplies else demands) {
        SharesHeld(component, supplies, demands);
      }
      balanced := true;
    }

    /** No appliance of the component. */
    ghost predicate IsUninvolved(component: seq<string>, id: string) {
      || id !in grid.nodes || grid.nodes[id].role == Switch || grid.nodes[id].role == Tunnel
      || forall p :: p in component && p in grid.nodeOf ==> grid.nodeOf[p] != id
    }

    lemma UninvolvedFeeds(component: seq<string>, id: string)
      ensures IsUninvolved(component, id) <==> !Feeds(grid, component, id)
    {
      if id in grid.nodes {
        RoleOfAppliance(grid.nodes[id]);
        hide IsAppliance;
        if p :| p in component && p in grid.nodeOf && grid.nodeOf[p] == id {
          var k :| 0 <= k < |component| && component[k] == p;
          assert component[k] in grid.nodeOf;
        }
      }
    }

    lemma OthersHeld(before: Currents, linesBefore: Currents, component: seq<string>, plenty: bool,
                     loads: Option<real>, total: real)
      requires Known(grid, component) && (forall l :: l in grid.lineOrder ==> l in grid.lines)
      requires Distributed(before, component, plenty, loads, total)
      requires LinesDistributed(linesBefore, component, plenty, loads, total)
      ensures Distinct(grid.lineOrder) ==> LinesCarry(component, linesBefore)
      ensures forall id :: IsUninvolved(component, id) && id in before
                ==> id in node_current && node_current[id] == before[id]
    {
      hide Known, LinesDistributed, LinesCarry, Portion, Feeds, IsUninvolved;
      if Distinct(grid.lineOrder) {
        LinesHeld(before, linesBefore, component, plenty, loads, total);
      }
      forall id | IsUninvolved(component, id) ensures !Feeds(grid, component, id) {
        UninvolvedFeeds(component, id);
      }
    }

    lemma PortionsHeld(before: Currents, component: seq<string>, plenty: bool, loads: Option<real>, total: real,
                       portion: Node -> Option<real>)
      requires Known(grid, component) && Distributed(before, component, plenty, loads, total)
      requires forall n :: portion(n) == Portion(n, plenty, loads, total)
      ensures HoldsPortions(component, portion)
      ensures loads.Some? && Divisible(grid, component, plenty, total)
        ==> forall id :: id in before ==> id in node_current
    {
      hide Portion, Feeds, IsSupply, IsDemand, Divisible, IsAppliance;
      forall p | p in component && IsAppliance(NodeOrNone(grid, p))
        ensures Stored(node_current, grid.nodeOf[p], portion(NodeOrNone(grid, p)))
      {
        FeedsOwn(grid, component, p);
      }
      if loads.Some? && Divisible(grid, component, plenty, total) {
        forall id | id in before ensures id in node_current {
          if Feeds(grid, component, id) {
            var p := FedBy(grid, component, id);
            DivisiblePortion(grid, component, plenty, loads.value, total, p);
          }
        }
      }
    }

    lemma SharesHeld(component: seq<string>, s: real, d: real)
      requires Known(grid, component) && HoldsPortions(component, n => Balanced(n, s, d))
      requires Divisible(grid, component, s >= d, if s >= d then s else d)
      ensures HoldsShares(grid, node_current, component, s, d)
    {
      hide Share, Portion, IsSupply, IsDemand, Divisible, IsAppliance;
      forall p | p in component && IsAppliance(NodeOrNone(grid, p))
        ensures CurrentAt(grid, node_current, p) == Share(NodeOrNone(grid, p), s, d)
      {
        BalancedIsShare(NodeOrNone(grid, p), s, d);
        DivisiblePortion(grid, component, s >= d, if s >= d then d else s, if s >= d then s else d, p);
      }
    }

    /** What the coordinator's share makes of the component's currents: DynamicLoadBalancing with
        its answer, and every later DynamicCoordinatedLoadUpdate. */
    method CoordinatedBalancing(component: seq<string>, share: HostShare, supplies: real, demands: real)
      requires Known(grid, component) && (forall l :: l in grid.lineOrder ==> l in grid.lines)
      requires supplies == DesiredSupplies(Nodes(grid, component)) && demands == DesiredDemands(Nodes(grid, component))
      modifies this`node_current, this`line_current
      ensures HoldsPortions(component, n => ShareWithinHost(n, share, supplies, demands))
      ensures Distinct(grid.lineOrder) ==> LinesCarry(component, old(line_current))
      ensures forall id :: IsUninvolved(component, id) && id in old(node_current)
                ==> id in node_current && node_current[id] == old(node_current)[id]
    {
      hide Distributed, LinesDistributed, LinesCarry, HoldsPortions, Known, IsUninvolved, DesiredSupplies;
      hide DesiredDemands;
      ghost var before, linesBefore := node_current, line_current;
      ghost var portion := n => ShareWithinHost(n, share, supplies, demands);
      if !share.scarceSupply {
        Distribute(component, true, share.supplies, supplies);
        PortionsHeld(before, component, true, share.supplies, supplies, portion);
        OthersHeld(before, linesBefore, component, true, share.supplies, supplies);
      } else {
        Distribute(component, false, share.demands, demands);
        PortionsHeld(before, component, false, share.demands, demands, portion);
        OthersHeld(before, linesBefore, component, false, share.demands, demands);
      }
    }
  }

  ghost function FedBy(g: Grid, component: seq<string>, id: string): (p: string)
    requires Feeds(g, component, id)
    ensures p in component && p in g.nodeOf && g.nodeOf[p] == id && id in g.nodes && IsAppliance(g.nodes[id])
  {
    var k :| 0 <= k < |component| && component[k] in g.nodeOf && g.nodeOf[component[k]] == id && id in g.nodes
      && IsAppliance(g.nodes[id]);
    component[k]
  }

  lemma FeedsOwn(g: Grid, component: seq<string>, p: string)
    requires Known(g, component) && p in component && IsAppliance(NodeOrNone(g, p))
    ensures Feeds(g, component, g.nodeOf[p]) && g.nodes[g.nodeOf[p]] == NodeOrNone(g, p)
  {
    var k :| 0 <= k < |component| && component[k] == p;
    assert component[k] in g.nodeOf;
  }
}
