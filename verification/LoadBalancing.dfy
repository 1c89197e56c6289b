/** Proportional sharing of current between supplies and demands, inside one component and,
    through the coordinator, over several hosts. Node lists stand for the interfaces of a
    component, one entry per interface. */
module LoadBalancing {
  import opened Sequences
  import opened Grids

  predicate IsSupply(n: Node) {
    n.role == WindTurbine || n.role == SolarPanel || n.role == PowerPlant
      || (n.role == Storage && n.mode == Discharging)
  }

  predicate IsDemand(n: Node) {
    n.role == Demander || (n.role == Storage && n.mode == Charging)
  }

  predicate IsAppliance(n: Node) {
    n.role == Demander || n.role == WindTurbine || n.role == SolarPanel || n.role == PowerPlant || n.role == Storage
  }

  function DesiredSupplies(ns: seq<Node>): real {
    if ns == [] then 0.0
    else DesiredSupplies(ns[..|ns| - 1]) + if IsSupply(ns[|ns| - 1]) then ns[|ns| - 1].desired else 0.0
  }

  function DesiredDemands(ns: seq<Node>): real {
    if ns == [] then 0.0
    else DesiredDemands(ns[..|ns| - 1]) + if IsDemand(ns[|ns| - 1]) then ns[|ns| - 1].desired else 0.0
  }

  /** What the picked nodes desire together. */
  function Desired(ns: seq<Node>, picked: Node -> bool): real {
    if ns == [] then 0.0
    else Desired(ns[..|ns| - 1], picked) + if picked(ns[|ns| - 1]) then ns[|ns| - 1].desired else 0.0
  }

  lemma {:induction false} DesiredTotal(ns: seq<Node>, supplying: Node -> bool, demanding: Node -> bool)
    requires forall n :: supplying(n) <==> IsSupply(n)
    requires forall n :: demanding(n) <==> IsDemand(n)
    ensures Desired(ns, supplying) == DesiredSupplies(ns) && Desired(ns, demanding) == DesiredDemands(ns)
  {
    hide IsSupply, IsDemand;
    if ns != [] {
      DesiredTotal(ns[..|ns| - 1], supplying, demanding);
    }
  }

  /** Exact division; the value for divisor zero is of no meaning. */
  function Ratio(a: real, b: real): real {
    if b == 0.0 then 0.0 else a / b
  }

  /** The current of one appliance, given the desired totals of the component. */
  function Share(n: Node, supplies: real, demands: real): real {
    if supplies >= demands then
      if IsSupply(n) then demands * Ratio(n.desired, supplies) else if IsDemand(n) then n.desired else 0.0
    else
      if IsDemand(n) then supplies * Ratio(n.desired, demands) else if IsSupply(n) then n.desired else 0.0
  }

  /** A share of loads in proportion to total: no number if total is 0 or there is no number to share. */
  function Quota(loads: Option<real>, desired: real, total: real): Option<real> {
    if loads.None? || total == 0.0 then None else Some(loads.value * Ratio(desired, total))
  }

  /** What an appliance gets: the scarce side is served in full, the other side shares loads in
      proportion to what it desires of total. */
  function Portion(n: Node, plenty: bool, loads: Option<real>, total: real): Option<real> {
    if plenty then
      if IsSupply(n) then Quota(loads, n.desired, total) else if IsDemand(n) then Some(n.desired) else Some(0.0)
    else if IsDemand(n) then Quota(loads, n.desired, total) else if IsSupply(n) then Some(n.desired) else Some(0.0)
  }

  /** What balancing one component gives an appliance, if it is a number. */
  function Balanced(n: Node, supplies: real, demands: real): Option<real> {
    if supplies >= demands then Portion(n, true, Some(demands), supplies)
    else Portion(n, false, Some(supplies), demands)
  }

  lemma BalancedIsShare(n: Node, s: real, d: real)
    ensures Balanced(n, s, d).Some? ==> Balanced(n, s, d).value == Share(n, s, d)
  {}

  ghost predicate NonNegative(ns: seq<Node>) {
    forall n :: n in ns ==> n.desired >= 0.0
  }

  /** What all supplying appliances deliver together. */
  function Supplied(ns: seq<Node>, supplies: real, demands: real): real {
    if ns == [] then 0.0
    else
      var last := ns[|ns| - 1];
      Supplied(ns[..|ns| - 1], supplies, demands) + if IsSupply(last) then Share(last, supplies, demands) else 0.0
  }

  /** What all demanding appliances draw together. */
  function Drawn(ns: seq<Node>, supplies: real, demands: real): real {
    if ns == [] then 0.0
    else
      var last := ns[|ns| - 1];
      Drawn(ns[..|ns| - 1], supplies, demands) + if IsDemand(last) then Share(last, supplies, demands) else 0.0
  }

  function Min(a: real, b: real): real {
    if a <= b then a else b
  }

  // ----- conservation -----

  lemma ShareSum(c: real, a: real, b: real, d: real)
    ensures c * Ratio(a, d) + c * Ratio(b, d) == c * Ratio(a + b, d)
  {
    if d != 0.0 {
      assert a / d + b / d == (a + b) / d;
      assert c * (a / d) + c * (b / d) == c * (a / d + b / d);
    }
  }

  lemma NotBoth(n: Node)
    ensures !(IsSupply(n) && IsDemand(n))
  {}

  lemma RatioOfNothing(c: real, d: real)
    ensures c * Ratio(0.0, d) == 0.0
  {}

  lemma {:induction false} SuppliedTotal(ns: seq<Node>, s: real, d: real)
    ensures Supplied(ns, s, d) == if s >= d then d * Ratio(DesiredSupplies(ns), s) else DesiredSupplies(ns)
  {
    hide Ratio, IsSupply, IsDemand;
    if ns != [] {
      var front, last := ns[..|ns| - 1], ns[|ns| - 1];
      SuppliedTotal(front, s, d);
      NotBoth(last);
      ShareSum(d, DesiredSupplies(front), last.desired, s);
    } else {
      RatioOfNothing(d, s);
    }
  }

  lemma {:induction false} DrawnTotal(ns: seq<Node>, s: real, d: real)
    ensures Drawn(ns, s, d) == if s >= d then DesiredDemands(ns) else s * Ratio(DesiredDemands(ns), d)
  {
    hide Ratio, IsSupply, IsDemand;
    if ns != [] {
      var front, last := ns[..|ns| - 1], ns[|ns| - 1];
      DrawnTotal(front, s, d);
      NotBoth(last);
      ShareSum(s, DesiredDemands(front), last.desired, d);
    } else {
      RatioOfNothing(s, d);
    }
  }

  lemma {:induction false} TotalsNonNegative(ns: seq<Node>)
    requires NonNegative(ns)
    ensures DesiredSupplies(ns) >= 0.0 && DesiredDemands(ns) >= 0.0
  {
    if ns != [] {
      TotalsNonNegative(ns[..|ns| - 1]);
    }
  }

  /** Main result: what is supplied equals what is drawn, and both equal the smaller of the
      two desired totals. */
  lemma {:induction false} Conserved(ns: seq<Node>)
    requires NonNegative(ns)
    ensures var s, d := DesiredSupplies(ns), DesiredDemands(ns);
            Supplied(ns, s, d) == Drawn(ns, s, d) == Min(s, d)
  {
    var s, d := DesiredSupplies(ns), DesiredDemands(ns);
    TotalsNonNegative(ns);
    SuppliedTotal(ns, s, d);
    DrawnTotal(ns, s, d);
    RatioSelf(d, s);
    RatioSelf(s, d);
  }

  lemma RatioSelf(c: real, d: real)
    ensures d != 0.0 ==> c * Ratio(d, d) == c
    ensures d == 0.0 ==> c * Ratio(d, d) == 0.0
  {
    if d != 0.0 {
      assert d / d == 1.0;
    }
  }

  /** Nobody gets more than he asked for, nobody a negative current; the scarce side is
      served in full and standing storages get nothing. */
  lemma {:induction false} ShareBounded(n: Node, s: real, d: real)
    requires n.desired >= 0.0 && s >= 0.0 && d >= 0.0
    ensures IsSupply(n) || IsDemand(n) ==> 0.0 <= Share(n, s, d) <= n.desired
    ensures IsDemand(n) && s >= d ==> Share(n, s, d) == n.desired
    ensures IsSupply(n) && s <= d && s != 0.0 ==> Share(n, s, d) == n.desired
    ensures !IsSupply(n) && !IsDemand(n) ==> Share(n, s, d) == 0.0
  {
    if s >= d { ScaledDown(n.desired, d, s); } else { ScaledDown(n.desired, s, d); }
  }

  lemma ScaledDown(x: real, part: real, whole: real)
    requires x >= 0.0 && 0.0 <= part <= whole
    ensures 0.0 <= part * Ratio(x, whole) <= x
    ensures part == whole != 0.0 ==> part * Ratio(x, whole) == x
  {
    if whole > 0.0 {
      var r := x / whole;
      assert whole * r == x;
      assert r >= 0.0;
      assert part * r <= whole * r;
      assert part * r >= 0.0;
    }
  }

  // ----- sharing through the coordinator -----

  /** What the coordinator computes for one host, given that host's desired totals and the
      totals over all hosts. */
  datatype HostShare = HostShare(scarceSupply: bool, demands: Option<real>, supplies: Option<real>)

  function ShareOfHost(hostSupplies: real, hostDemands: real, totalSupplies: real, totalDemands: real): HostShare {
    if totalDemands > totalSupplies
    then HostShare(true, Quota(Some(totalSupplies), hostDemands, totalDemands), Some(hostSupplies))
    else HostShare(false, Some(hostDemands), Quota(Some(totalDemands), hostSupplies, totalSupplies))
  }

  /** The scarce side of a host is served in full; the other side gets such a part of the scarce total as it
      desires of its own total. */
  lemma HostShareIs(hs: real, hd: real, s: real, d: real)
    ensures var h := ShareOfHost(hs, hd, s, d);
            if d > s
            then && h.scarceSupply && h.supplies == Some(hs)
                 && (if d == 0.0 then h.demands.None? else h.demands.Some? && h.demands.value * d == s * hd)
            else && !h.scarceSupply && h.demands == Some(hd)
                 && (if s == 0.0 then h.supplies.None? else h.supplies.Some? && h.supplies.value * s == d * hs)
  {
    if d > s && d != 0.0 {
      RatioTimes(s, hd, d);
    } else if d <= s && s != 0.0 {
      RatioTimes(d, hs, s);
    }
  }

  lemma RatioTimes(loads: real, x: real, total: real)
    requires total != 0.0
    ensures loads * Ratio(x, total) * total == loads * x
  {
    var r := x / total;
    assert r * total == x;
    assert loads * r * total == loads * (r * total);
  }

  /** What all hosts may supply, and what they may draw, by the coordinator's shares. */
  function SharedSupplies(hosts: seq<seq<Node>>, s: real, d: real): real {
    if hosts == [] then 0.0
    else
      var last := hosts[|hosts| - 1];
      var h := ShareOfHost(DesiredSupplies(last), DesiredDemands(last), s, d);
      SharedSupplies(hosts[..|hosts| - 1], s, d) + if h.supplies.Some? then h.supplies.value else 0.0
  }

  function SharedDemands(hosts: seq<seq<Node>>, s: real, d: real): real {
    if hosts == [] then 0.0
    else
      var last := hosts[|hosts| - 1];
      var h := ShareOfHost(DesiredSupplies(last), DesiredDemands(last), s, d);
      SharedDemands(hosts[..|hosts| - 1], s, d) + if h.demands.Some? then h.demands.value else 0.0
  }

  lemma {:induction false} SharedTotals(hosts: seq<seq<Node>>, s: real, d: real)
    requires (if s >= d then s else d) != 0.0
    ensures if s >= d then SharedSupplies(hosts, s, d) * s == d * HostSupplies(hosts)
            else SharedSupplies(hosts, s, d) == HostSupplies(hosts)
    ensures if s >= d then SharedDemands(hosts, s, d) == HostDemands(hosts)
            else SharedDemands(hosts, s, d) * d == s * HostDemands(hosts)
  {
    hide *;
    if hosts == [] {
      NothingShared(hosts, s, d);
    } else {
      var front := hosts[..|hosts| - 1];
      SharedTotals(front, s, d);
      var x, y, a, b := LastShared(hosts, s, d);
      if s >= d {
        Distributes(SharedSupplies(front, s, d), a, s, d, HostSupplies(front), x);
      } else {
        Distributes(SharedDemands(front, s, d), b, d, s, HostDemands(front), y);
      }
    }
  }

  lemma NothingShared(hosts: seq<seq<Node>>, s: real, d: real)
    requires hosts == []
    ensures SharedSupplies(hosts, s, d) == SharedDemands(hosts, s, d) == 0.0
    ensures HostSupplies(hosts) == HostDemands(hosts) == 0.0
  {}

  /** The part of the last host. */
  lemma LastShared(hosts: seq<seq<Node>>, s: real, d: real) returns (x: real, y: real, a: real, b: real)
    requires hosts != [] && (if s >= d then s else d) != 0.0
    ensures var front := hosts[..|hosts| - 1];
            && HostSupplies(hosts) == HostSupplies(front) + x && HostDemands(hosts) == HostDemands(front) + y
            && SharedSupplies(hosts, s, d) == SharedSupplies(front, s, d) + a
            && SharedDemands(hosts, s, d) == SharedDemands(front, s, d) + b
    ensures if s >= d then a * s == d * x && b == y else a == x && b * d == s * y
  {
    hide ShareOfHost, DesiredSupplies, DesiredDemands;
    var last := hosts[|hosts| - 1];
    x, y := DesiredSupplies(last), DesiredDemands(last);
    var h := ShareOfHost(x, y, s, d);
    HostShareIs(x, y, s, d);
    a := if h.supplies.Some? then h.supplies.value else 0.0;
    b := if h.demands.Some? then h.demands.value else 0.0;
  }

  lemma Distributes(a: real, b: real, total: real, loads: real, x: real, y: real)
    requires a * total == loads * x && b * total == loads * y
    ensures (a + b) * total == loads * (x + y)
  {}

  /** Main result: unless it divides by 0, the coordinator gives away as much supply as demand, the smaller of
      the two totals over all hosts. */
  lemma {:induction false} SharesBalance(hosts: seq<seq<Node>>)
    requires (if HostSupplies(hosts) >= HostDemands(hosts) then HostSupplies(hosts) else HostDemands(hosts)) != 0.0
    ensures var s, d := HostSupplies(hosts), HostDemands(hosts);
            SharedSupplies(hosts, s, d) == SharedDemands(hosts, s, d) == Min(s, d)
  {
    hide SharedSupplies, SharedDemands, HostSupplies, HostDemands;
    var s, d := HostSupplies(hosts), HostDemands(hosts);
    SharedTotals(hosts, s, d);
    if s >= d {
      Cancels(SharedSupplies(hosts, s, d), s, d);
    } else {
      Cancels(SharedDemands(hosts, s, d), d, s);
    }
  }

  lemma Cancels(c: real, total: real, loads: real)
    requires total != 0.0 && c * total == loads * total
    ensures c == loads
  {}

  /** How the host splits what it got over its own appliances. */
  function ShareWithinHost(n: Node, h: HostShare, hostSupplies: real, hostDemands: real): Option<real> {
    if h.scarceSupply then Portion(n, false, h.demands, hostDemands) else Portion(n, true, h.supplies, hostSupplies)
  }

  function Flatten(hosts: seq<seq<Node>>): seq<Node> {
    if hosts == [] then [] else Flatten(hosts[..|hosts| - 1]) + hosts[|hosts| - 1]
  }

  lemma {:induction false} TotalsOfConcat(a: seq<Node>, b: seq<Node>)
    ensures DesiredSupplies(a + b) == DesiredSupplies(a) + DesiredSupplies(b)
    ensures DesiredDemands(a + b) == DesiredDemands(a) + DesiredDemands(b)
  {
    if b == [] {
      assert a + b == a;
    } else {
      var b' := b[..|b| - 1];
      TotalsOfConcat(a, b');
      assert (a + b)[..|a + b| - 1] == a + b';
    }
  }

  function HostSupplies(hosts: seq<seq<Node>>): real {
    if hosts == [] then 0.0 else HostSupplies(hosts[..|hosts| - 1]) + DesiredSupplies(hosts[|hosts| - 1])
  }

  function HostDemands(hosts: seq<seq<Node>>): real {
    if hosts == [] then 0.0 else HostDemands(hosts[..|hosts| - 1]) + DesiredDemands(hosts[|hosts| - 1])
  }

  /** The coordinator's totals are the totals of the union. */
  lemma {:induction false} TotalsOfFlatten(hosts: seq<seq<Node>>)
    ensures DesiredSupplies(Flatten(hosts)) == HostSupplies(hosts)
    ensures DesiredDemands(Flatten(hosts)) == HostDemands(hosts)
  {
    if hosts != [] {
      var front, last := hosts[..|hosts| - 1], hosts[|hosts| - 1];
      TotalsOfFlatten(front);
      TotalsOfConcat(Flatten(front), last);
    }
  }

  lemma RatioTwice(whole: real, host: real, x: real, amount: real, part: real)
    requires host != 0.0 && whole != 0.0 && part == amount * Ratio(host, whole)
    ensures part * Ratio(x, host) == amount * Ratio(x, whole)
  {
    var a, b := amount / whole, x / host;
    assert amount * (host / whole) == host * a;
    assert host * b == x;
    assert (host * a) * b == a * (host * b);
    assert a * x == amount * (x / whole);
  }

  lemma QuotaValue(amount: real, x: real, whole: real)
    requires whole != 0.0
    ensures Quota(Some(amount), x, whole).Some? && Quota(Some(amount), x, whole).value == amount * Ratio(x, whole)
  {}

  /** Dividing amount first in proportion to host and then in proportion to x. */
  lemma QuotaTwice(whole: real, host: real, x: real, amount: real)
    ensures Quota(Quota(Some(amount), host, whole), x, host) == Quota(Some(amount), x, whole)
       <==> host != 0.0 || whole == 0.0
  {
    if host != 0.0 && whole != 0.0 {
      QuotaValue(amount, host, whole);
      var part := Quota(Some(amount), host, whole).value;
      QuotaValue(part, x, host);
      QuotaValue(amount, x, whole);
      RatioTwice(whole, host, x, amount, part);
      hide *;
      assert Quota(Some(amount), host, whole) == Some(part);
    }
  }

  /** The host that divides what it got can do so, unless nothing can be divided anyway. */
  predicate HostDivides(n: Node, hostSupplies: real, hostDemands: real, totalSupplies: real, totalDemands: real) {
    && (IsSupply(n) && totalSupplies >= totalDemands ==> hostSupplies != 0.0 || totalSupplies == 0.0)
    && (IsDemand(n) && totalSupplies < totalDemands ==> hostDemands != 0.0 || totalDemands == 0.0)
  }

  lemma TwoLevelShare(n: Node, hs: real, hd: real, s: real, d: real)
    ensures ShareWithinHost(n, ShareOfHost(hs, hd, s, d), hs, hd) == Balanced(n, s, d) <==> HostDivides(n, hs, hd, s, d)
  {
    NotBoth(n);
    hide IsSupply, IsDemand, Quota;
    QuotaTwice(s, hs, n.desired, d);
    QuotaTwice(d, hd, n.desired, s);
  }

  /** Main result: splitting over hosts and then over appliances gives an appliance the current that
      balancing the union of all hosts would give it, if and only if its host does not divide by a
      desired total of 0 where the union does not. */
  lemma {:induction false} TwoLevelIsFlat(hosts: seq<seq<Node>>, h: nat, n: Node)
    requires h < |hosts| && n in hosts[h]
    ensures var s, d := DesiredSupplies(hosts[h]), DesiredDemands(hosts[h]);
            ShareWithinHost(n, ShareOfHost(s, d, HostSupplies(hosts), HostDemands(hosts)), s, d)
            == Balanced(n, DesiredSupplies(Flatten(hosts)), DesiredDemands(Flatten(hosts)))
            <==> HostDivides(n, s, d, HostSupplies(hosts), HostDemands(hosts))
  {
    hide *;
    TotalsOfFlatten(hosts);
    TwoLevelShare(n, DesiredSupplies(hosts[h]), DesiredDemands(hosts[h]), HostSupplies(hosts), HostDemands(hosts));
  }
}
