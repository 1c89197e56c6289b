/** How a component is set up for calculation: its switch interfaces are grouped by server and
    numbered, and its matrices are filled from the adjacency lists. */
module Assembly {
  import opened Sums
  import opened LinearAlgebra
  import opened Woodbury
  import opened Gsl
  import opened Sequences
  import opened Grids
  import opened Topology
  import opened Networks
  import opened LoadBalancing
  import opened Injections
  import opened Distribution
  import opened Balancing

  // ----- grouping by server -----

  predicate IsSwitchPi(g: Grid, p: string) {
    p in g.nodeOf && g.nodeOf[p] in g.nodes && g.RoleAt(p) == Switch
  }

  /** A switch interface on the given server. */
  predicate IsOn(g: Grid, p: string, server: string) {
    IsSwitchPi(g, p) && LocationAt(g, p) == server
  }

  /** The switch interfaces of a component on one server, in order. */
  function OnServer(g: Grid, component: seq<string>, server: string): seq<string> {
    if component == [] then []
    else
      var last := component[|component| - 1];
      OnServer(g, component[..|component| - 1], server) + if IsOn(g, last, server) then [last] else []
  }

  /** groups holds the interfaces of each server, and every switch interface has a server. */
  ghost predicate Grouped(g: Grid, component: seq<string>, servers: seq<string>, groups: seq<seq<string>>) {
    && Distinct(servers) && |groups| == |servers|
    && (forall k {:trigger groups[k]} :: 0 <= k < |servers| ==> groups[k] == OnServer(g, component, servers[k]) != [])
    && (forall p :: p in component && IsSwitchPi(g, p) ==> LocationAt(g, p) in servers)
  }

  lemma {:induction false} InOnServer(g: Grid, component: seq<string>, server: string, p: string)
    ensures p in OnServer(g, component, server) <==> p in component && IsOn(g, p, server)
  {
    if component != [] {
      var front, last := component[..|component| - 1], component[|component| - 1];
      InOnServer(g, front, server, p);
      assert component == front + [last];
    }
  }

  lemma {:induction false} OnServerDistinct(g: Grid, component: seq<string>, server: string)
    requires Distinct(component)
    ensures Distinct(OnServer(g, component, server))
  {
    if component != [] {
      var front, last := component[..|component| - 1], component[|component| - 1];
      OnServerDistinct(g, front, server);
      InOnServer(g, front, server, last);
      assert last !in front;
    }
  }

  /** The first loop of simulate. */
  method GroupByServer(g: Grid, component: seq<string>)
    returns (servers: seq<string>, groups: seq<seq<string>>, switch_pi: nat)
    requires forall p :: p in component ==> p in g.nodeOf && g.nodeOf[p] in g.nodes
    ensures Grouped(g, component, servers, groups)
    ensures switch_pi == |Concat(groups)|
    ensures GroupedByLocation(g, component, servers, groups) && InServerOrder(g, component, Concat(groups))
  {
    hide ServersInOrder, Grouped, Concat, GroupedByLocation, InServerOrder;
    servers, groups, switch_pi := [], [], 0;
    NoServersYet(g, component[..0]);
    for i := 0 to |component|
      invariant Grouped(g, component[..i], servers, groups) && ServersInOrder(g, component[..i], servers)
      invariant switch_pi == |Concat(groups)|
    {
      var p := component[i];
      assert p in component;
      ghost var before := component[..i];
      assert component[..i + 1] == before + [p];
      var node := g.nodes[g.nodeOf[p]];
      ServersNext(g, before, servers, groups, p);
      if node.role == Switch {
        servers, groups := AddToGroup(g, before, servers, groups, p);
        switch_pi := switch_pi + 1;
      } else {
        NotGrouped(g, before, servers, groups, p);
      }
    }
    assert component[..|component|] == component;
    GroupsAreLocations(g, component, servers, groups);
    GroupsInOrder(g, component, servers, groups);
  }

  /** Entry a of the component is a switch interface at this location. */
  ghost predicate SwitchAt(g: Grid, component: seq<string>, a: int, location: string) {
    && 0 <= a < |component| && component[a] in g.nodeOf && g.nodeOf[component[a]] in g.nodes
    && g.nodes[g.nodeOf[component[a]]].role == Switch && g.nodes[g.nodeOf[component[a]]].location == location
  }

  /** The first location is met before the second. */
  ghost predicate MetBefore(g: Grid, component: seq<string>, first: string, second: string) {
    forall b :: SwitchAt(g, component, b, second) ==> exists a :: a < b && SwitchAt(g, component, a, first)
  }

  /** Of two interfaces at one location p is met first; of two locations that of p is. */
  ghost predicate ComesBefore(g: Grid, component: seq<string>, p: string, q: string) {
    && p in g.nodeOf && g.nodeOf[p] in g.nodes && q in g.nodeOf && g.nodeOf[q] in g.nodes
    && if g.nodes[g.nodeOf[p]].location == g.nodes[g.nodeOf[q]].location
       then exists a, b :: 0 <= a < b < |component| && component[a] == p && component[b] == q
       else MetBefore(g, component, g.nodes[g.nodeOf[p]].location, g.nodes[g.nodeOf[q]].location)
  }

  /** The numbering goes location by location in the order in which they are met, and keeps the order of the
      component within each; the last interface is the grounded one. */
  ghost predicate InServerOrder(g: Grid, component: seq<string>, order: seq<string>) {
    forall i, j :: 0 <= i < j < |order| ==> ComesBefore(g, component, order[i], order[j])
  }

  ghost predicate ServersInOrder(g: Grid, component: seq<string>, servers: seq<string>) {
    forall k, l :: 0 <= k < l < |servers| ==> MetBefore(g, component, servers[k], servers[l])
  }

  lemma NoServersYet(g: Grid, component: seq<string>)
    requires component == []
    ensures Grouped(g, component, [], []) && ServersInOrder(g, component, []) && |Concat([])| == 0
  {}

  /** Every known server has been met, so that a further interface changes nothing about their order. */
  lemma {:induction false} ServersNext(g: Grid, component: seq<string>, servers: seq<string>, groups: seq<seq<string>>,
                                       p: string)
    requires Grouped(g, component, servers, groups) && ServersInOrder(g, component, servers)
    ensures ServersInOrder(g, component + [p], servers)
    ensures IsSwitchPi(g, p) && LocationAt(g, p) !in servers
        ==> ServersInOrder(g, component + [p], servers + [LocationAt(g, p)])
  {
    var all := component + [p];
    hide Grouped;
    forall first, second | first in servers && MetBefore(g, component, first, second)
      ensures MetBefore(g, all, first, second)
    {
      ServerMet(g, component, servers, groups, first);
      MetStill(g, component, p, first, second);
    }
    if IsSwitchPi(g, p) && LocationAt(g, p) !in servers {
      forall first | first in servers ensures MetBefore(g, all, first, LocationAt(g, p)) {
        ServerMet(g, component, servers, groups, first);
        NewServer(g, component, servers, groups, LocationAt(g, p));
        MetStill(g, component, p, first, LocationAt(g, p));
      }
    }
    hide MetBefore;
  }

  lemma ServerMet(g: Grid, component: seq<string>, servers: seq<string>, groups: seq<seq<string>>, server: string)
    requires Grouped(g, component, servers, groups) && server in servers
    ensures exists a :: SwitchAt(g, component, a, server)
  {
    var k :| 0 <= k < |servers| && servers[k] == server;
    assert groups[k] == OnServer(g, component, server) != [];
    var q := groups[k][0];
    assert q in groups[k];
    InOnServer(g, component, server, q);
    var a :| 0 <= a < |component| && component[a] == q;
    assert SwitchAt(g, component, a, server);
  }

  lemma MetIsServer(g: Grid, component: seq<string>, servers: seq<string>, groups: seq<seq<string>>, b: int,
                    location: string)
    requires Grouped(g, component, servers, groups) && SwitchAt(g, component, b, location)
    ensures location in servers
  {
    hide OnServer;
    assert component[b] in component && IsSwitchPi(g, component[b]) && LocationAt(g, component[b]) == location;
  }

  lemma NewServer(g: Grid, component: seq<string>, servers: seq<string>, groups: seq<seq<string>>, location: string)
    requires Grouped(g, component, servers, groups) && location !in servers
    ensures forall b :: !SwitchAt(g, component, b, location)
  {
    hide Grouped, SwitchAt;
    forall b ensures SwitchAt(g, component, b, location) ==> location in servers {
      if SwitchAt(g, component, b, location) {
        MetIsServer(g, component, servers, groups, b, location);
      }
    }
  }

  lemma MetStill(g: Grid, component: seq<string>, p: string, first: string, second: string)
    requires exists a :: SwitchAt(g, component, a, first)
    requires MetBefore(g, component, first, second)
    ensures MetBefore(g, component + [p], first, second)
  {
    var all := component + [p];
    var c :| SwitchAt(g, component, c, first);
    assert SwitchAt(g, all, c, first);
    forall b | SwitchAt(g, all, b, second) ensures exists a :: a < b && SwitchAt(g, all, a, first) {
      if b < |component| {
        assert SwitchAt(g, component, b, second);
        var a :| a < b && SwitchAt(g, component, a, first);
        assert SwitchAt(g, all, a, first);
      }
    }
  }

  lemma {:induction false} OnServerInOrder(g: Grid, component: seq<string>, server: string, x: int, y: int)
    requires 0 <= x < y < |OnServer(g, component, server)|
    ensures exists a, b :: 0 <= a < b < |component| && component[a] == OnServer(g, component, server)[x]
                           && component[b] == OnServer(g, component, server)[y]
  {
    var n := |component| - 1;
    var front := component[..n];
    var before := OnServer(g, front, server);
    if y < |before| {
      OnServerInOrder(g, front, server, x, y);
      var a, b :| 0 <= a < b < |front| && front[a] == before[x] && front[b] == before[y];
      assert component[a] == before[x] && component[b] == before[y];
    } else {
      assert before[x] in before;
      InOnServer(g, front, server, before[x]);
      var a :| 0 <= a < |front| && front[a] == before[x];
      assert component[a] == before[x] && component[n] == OnServer(g, component, server)[y];
    }
  }

  /** Where an entry of all groups comes from. */
  lemma {:induction false} ConcatFrom(groups: seq<seq<string>>, i: int, j: int) returns (s: int, x: int, t: int, y: int)
    requires 0 <= i < j < |Concat(groups)|
    ensures 0 <= s <= t < |groups| && 0 <= x < |groups[s]| && 0 <= y < |groups[t]| && (s == t ==> x < y)
    ensures groups[s][x] == Concat(groups)[i] && groups[t][y] == Concat(groups)[j]
  {
    var n := |groups| - 1;
    var front := Concat(groups[..n]);
    if j < |front| {
      s, x, t, y := ConcatFrom(groups[..n], i, j);
    } else {
      t, y := n, j - |front|;
      if i >= |front| {
        s, x := n, i - |front|;
      } else {
        s, x := ConcatPlace(groups[..n], i);
      }
    }
  }

  lemma {:induction false} ConcatPlace(groups: seq<seq<string>>, i: int) returns (s: int, x: int)
    requires 0 <= i < |Concat(groups)|
    ensures 0 <= s < |groups| && 0 <= x < |groups[s]| && groups[s][x] == Concat(groups)[i]
  {
    var n := |groups| - 1;
    var front := Concat(groups[..n]);
    if i < |front| {
      s, x := ConcatPlace(groups[..n], i);
    } else {
      s, x := n, i - |front|;
    }
  }

  lemma {:induction false} GroupsInOrder(g: Grid, component: seq<string>, servers: seq<string>,
                                         groups: seq<seq<string>>)
    requires Grouped(g, component, servers, groups) && ServersInOrder(g, component, servers)
    ensures InServerOrder(g, component, Concat(groups))
  {
    var order := Concat(groups);
    hide Concat;
    forall i, j | 0 <= i < j < |order| ensures ComesBefore(g, component, order[i], order[j]) {
      var s, x, t, y := ConcatFrom(groups, i, j);
      PairInOrder(g, component, servers, groups, s, x, t, y);
    }
  }

  lemma PairInOrder(g: Grid, component: seq<string>, servers: seq<string>, groups: seq<seq<string>>, s: int, x: int,
                    t: int, y: int)
    requires Grouped(g, component, servers, groups) && ServersInOrder(g, component, servers)
    requires 0 <= s <= t < |groups| && 0 <= x < |groups[s]| && 0 <= y < |groups[t]| && (s == t ==> x < y)
    ensures ComesBefore(g, component, groups[s][x], groups[t][y])
  {
    hide OnServer, MetBefore;
    assert groups[s] == OnServer(g, component, servers[s]) && groups[t] == OnServer(g, component, servers[t]);
    InOnServer(g, component, servers[s], groups[s][x]);
    InOnServer(g, component, servers[t], groups[t][y]);
    if s == t {
      OnServerInOrder(g, component, servers[s], x, y);
    } else {
      assert servers[s] != servers[t];
    }
  }

  /** Group k has the switch interfaces whose nodes are at the k-th location, and every location is there. */
  ghost predicate GroupedByLocation(g: Grid, component: seq<string>, servers: seq<string>, groups: seq<seq<string>>) {
    && |groups| == |servers|
    && (forall k, p :: 0 <= k < |groups|
          ==> (p in groups[k]
               <==> && p in component && p in g.nodeOf && g.nodeOf[p] in g.nodes && g.nodes[g.nodeOf[p]].role == Switch
                    && g.nodes[g.nodeOf[p]].location == servers[k]))
    && (forall p :: p in component && p in g.nodeOf && g.nodeOf[p] in g.nodes && g.nodes[g.nodeOf[p]].role == Switch
          ==> g.nodes[g.nodeOf[p]].location in servers)
  }

  lemma {:induction false} GroupsAreLocations(g: Grid, component: seq<string>, servers: seq<string>,
                                              groups: seq<seq<string>>)
    requires Grouped(g, component, servers, groups)
    ensures GroupedByLocation(g, component, servers, groups)
  {
    forall k, p | 0 <= k < |groups|
      ensures p in groups[k]
         <==> && p in component && p in g.nodeOf && g.nodeOf[p] in g.nodes && g.nodes[g.nodeOf[p]].role == Switch
              && g.nodes[g.nodeOf[p]].location == servers[k]
    {
      InOnServer(g, component, servers[k], p);
    }
  }

  lemma NotGrouped(g: Grid, component: seq<string>, servers: seq<string>, groups: seq<seq<string>>, p: string)
    requires Grouped(g, component, servers, groups) && !IsSwitchPi(g, p)
    ensures Grouped(g, component + [p], servers, groups)
  {
    assert (component + [p])[..|component|] == component;
  }

  /** All interfaces of all groups, one group after the other. */
  function Concat(groups: seq<seq<string>>): seq<string> {
    if groups == [] then [] else Concat(groups[..|groups| - 1]) + groups[|groups| - 1]
  }

  lemma {:induction false} ConcatUpdate(groups: seq<seq<string>>, k: nat, p: string)
    requires k < |groups|
    ensures |Concat(groups[k := groups[k] + [p]])| == |Concat(groups)| + 1
  {
    var n := |groups| - 1;
    var updated := groups[k := groups[k] + [p]];
    if k == n {
      assert updated[..n] == groups[..n];
    } else {
      ConcatUpdate(groups[..n], k, p);
      assert updated[..n] == groups[..n][k := groups[k] + [p]];
    }
  }

  lemma ConcatAppend(groups: seq<seq<string>>, last: seq<string>)
    ensures Concat(groups + [last]) == Concat(groups) + last
  {
    assert (groups + [last])[..|groups|] == groups;
  }

  /** The inner loop over the servers known so far; a new server is appended. */
  method AddToGroup(g: Grid, ghost component: seq<string>, servers: seq<string>, groups: seq<seq<string>>, p: string)
    returns (servers': seq<string>, groups': seq<seq<string>>)
    requires Grouped(g, component, servers, groups) && IsSwitchPi(g, p)
    ensures Grouped(g, component + [p], servers', groups')
    ensures servers' == if LocationAt(g, p) in servers then servers else servers + [LocationAt(g, p)]
    ensures |Concat(groups')| == |Concat(groups)| + 1
  {
    hide OnServer, Grouped;
    GroupSizes(g, component, servers, groups);
    var location := g.nodes[g.nodeOf[p]].location;
    var is_server_taken := false;
    servers', groups' := servers, groups;
    ghost var at := 0;
    for k := 0 to |servers|
      invariant |groups'| == |groups|
      invariant is_server_taken ==> 0 <= at < k && servers[at] == location && groups' == groups[at := groups[at] + [p]]
      invariant !is_server_taken ==> groups' == groups && location !in servers[..k]
    {
      if location == servers[k] {
        assert !is_server_taken;
        is_server_taken := true;
        at := k;
        groups' := groups'[k := groups'[k] + [p]];
      }
    }
    if !is_server_taken {
      servers', groups' := servers + [location], groups + [[p]];
      ConcatAppend(groups, [p]);
      NewGroup(g, component, servers, groups, p);
    } else {
      ConcatUpdate(groups, at, p);
      GrownGroup(g, component, servers, groups, at, p);
    }
  }

  lemma GroupSizes(g: Grid, component: seq<string>, servers: seq<string>, groups: seq<seq<string>>)
    requires Grouped(g, component, servers, groups)
    ensures |groups| == |servers| && Distinct(servers)
  {}

  lemma OnServerNext(g: Grid, component: seq<string>, server: string, p: string)
    ensures OnServer(g, component + [p], server)
         == OnServer(g, component, server) + if IsOn(g, p, server) then [p] else []
  {
    assert (component + [p])[..|component|] == component;
  }

  lemma {:induction false} NoneOnServer(g: Grid, component: seq<string>, server: string)
    requires forall p :: p in component && IsSwitchPi(g, p) ==> LocationAt(g, p) != server
    ensures OnServer(g, component, server) == []
  {
    if component != [] {
      var front, last := component[..|component| - 1], component[|component| - 1];
      assert component == front + [last];
      NoneOnServer(g, front, server);
    }
  }

  lemma NewGroup(g: Grid, component: seq<string>, servers: seq<string>, groups: seq<seq<string>>, p: string)
    requires Grouped(g, component, servers, groups) && IsSwitchPi(g, p) && LocationAt(g, p) !in servers
    ensures Grouped(g, component + [p], servers + [LocationAt(g, p)], groups + [[p]])
  {
    var location := LocationAt(g, p);
    var servers', groups' := servers + [location], groups + [[p]];
    hide OnServer;
    NoneOnServer(g, component, location);
    forall k | 0 <= k < |servers'| ensures groups'[k] == OnServer(g, component + [p], servers'[k]) != [] {
      OnServerNext(g, component, servers'[k], p);
      if k < |servers| { assert groups[k] == OnServer(g, component, servers[k]); }
    }
  }

  lemma GrownGroup(g: Grid, component: seq<string>, servers: seq<string>, groups: seq<seq<string>>, at: nat, p: string)
    requires Grouped(g, component, servers, groups) && IsSwitchPi(g, p) && at < |servers|
    requires servers[at] == LocationAt(g, p)
    ensures Grouped(g, component + [p], servers, groups[at := groups[at] + [p]])
  {
    var groups' := groups[at := groups[at] + [p]];
    hide OnServer;
    forall k | 0 <= k < |servers| ensures groups'[k] == OnServer(g, component + [p], servers[k]) != [] {
      OnServerNext(g, component, servers[k], p);
      assert groups[k] == OnServer(g, component, servers[k]);
    }
  }

  // ----- numbering -----

  /** Where the group of server s begins. */
  function Offset(groups: seq<seq<string>>, s: nat): (o: nat)
    requires s <= |groups|
  {
    |Concat(groups[..s])|
  }

  /** The index maps are inverse to each other and follow the groups; each server has its range. */
  ghost predicate NumberedBy(idx: map<string, int>, pis: map<int, string>, order: seq<string>) {
    && (forall p :: p in idx <==> p in order)
    && (forall i {:trigger order[i]} :: 0 <= i < |order| ==> idx[order[i]] == i && i in pis && pis[i] == order[i])
    && (forall i :: i in pis ==> 0 <= i < |order|)
  }

  ghost predicate Ranges(starts: seq<int>, nums: seq<int>, groups: seq<seq<string>>) {
    && |starts| == |nums| == |groups|
    && forall s {:trigger groups[s]} :: 0 <= s < |groups| ==> starts[s] == Offset(groups, s) && nums[s] == |groups[s]|
  }

  /** The sum of the sizes of the groups before i, as the program computes it each time. */
  method SizeBefore(groups: seq<seq<string>>, i: nat) returns (size: nat)
    requires i <= |groups|
    ensures size == Offset(groups, i)
  {
    size := 0;
    for k := 0 to i
      invariant size == Offset(groups, k)
    {
      OffsetNext(groups, k);
      size := size + |groups[k]|;
    }
  }

  lemma OffsetNext(groups: seq<seq<string>>, k: nat)
    requires k < |groups|
    ensures Concat(groups[..k + 1]) == Concat(groups[..k]) + groups[k]
    ensures Offset(groups, k + 1) == Offset(groups, k) + |groups[k]|
  {
    assert groups[..k + 1][..k] == groups[..k];
  }

  /** The second loop of simulate. */
  method NumberInterfaces(groups: seq<seq<string>>)
    returns (idx: map<string, int>, pis: map<int, string>, starts: seq<int>, nums: seq<int>)
    requires Distinct(Concat(groups))
    ensures NumberedBy(idx, pis, Concat(groups)) && Ranges(starts, nums, groups)
  {
    hide Distinct, Concat;
    idx, pis, starts, nums := map[], map[], [], [];
    NoGroups(groups);
    for i := 0 to |groups|
      invariant NumberedBy(idx, pis, Concat(groups[..i])) && Ranges(starts, nums, groups[..i])
    {
      ghost var done := Concat(groups[..i]);
      OffsetNext(groups, i);
      assert done + groups[i][..0] == done;
      for j := 0 to |groups[i]|
        invariant NumberedBy(idx, pis, done + groups[i][..j])
      {
        var pre_index := SizeBefore(groups, i);
        var p := groups[i][j];
        PrefixDistinct(groups, i, j);
        NumberNext(idx, pis, done + groups[i][..j], p);
        assert done + groups[i][..j] + [p] == done + groups[i][..j + 1];
        idx := idx[p := pre_index + j];
        pis := pis[pre_index + j := p];
      }
      assert groups[i][..|groups[i]|] == groups[i];
      var pre_size := SizeBefore(groups, i);
      RangeNext(starts, nums, groups, i);
      starts := starts + [pre_size];
      nums := nums + [|groups[i]|];
    }
    assert groups[..|groups|] == groups;
  }

  lemma NoGroups(groups: seq<seq<string>>)
    ensures Concat(groups[..0]) == [] && NumberedBy(map[], map[], []) && Ranges([], [], groups[..0])
  {}

  /** The next interface has not been numbered yet. */
  lemma {:induction false} PrefixDistinct(groups: seq<seq<string>>, i: nat, j: nat)
    requires i < |groups| && j < |groups[i]| && Distinct(Concat(groups))
    ensures groups[i][j] !in Concat(groups[..i]) + groups[i][..j]
    decreases |groups|
  {
    var n := |groups| - 1;
    if i < n {
      var front := groups[..n];
      assert Concat(groups) == Concat(front) + groups[n];
      assert front[..i] == groups[..i];
      PrefixOfDistinct(Concat(front), groups[n]);
      PrefixDistinct(front, i, j);
    } else {
      var done, last := Concat(groups[..i]), groups[i];
      assert Concat(groups) == done + last;
      forall k | 0 <= k < |done + last[..j]| ensures (done + last[..j])[k] != last[j] {
        assert (done + last)[k] == (done + last[..j])[k] && (done + last)[|done| + j] == last[j];
      }
    }
  }

  lemma PrefixOfDistinct(a: seq<string>, b: seq<string>)
    requires Distinct(a + b)
    ensures Distinct(a)
  {
    forall i, j | 0 <= i < j < |a| ensures a[i] != a[j] {
      assert (a + b)[i] == a[i] && (a + b)[j] == a[j];
    }
  }

  lemma NumberNext(idx: map<string, int>, pis: map<int, string>, order: seq<string>, p: string)
    requires NumberedBy(idx, pis, order) && p !in order
    ensures NumberedBy(idx[p := |order|], pis[|order| := p], order + [p])
  {
    var after, idx', pis' := order + [p], idx[p := |order|], pis[|order| := p];
    forall i | 0 <= i < |after| ensures idx'[after[i]] == i && i in pis' && pis'[i] == after[i] {
      if i < |order| { assert after[i] == order[i] && order[i] in order; }
    }
  }

  lemma RangeNext(starts: seq<int>, nums: seq<int>, groups: seq<seq<string>>, i: nat)
    requires i < |groups| && Ranges(starts, nums, groups[..i])
    ensures Ranges(starts + [Offset(groups, i)], nums + [|groups[i]|], groups[..i + 1])
  {
    var after := groups[..i + 1];
    forall s | 0 <= s < |after|
      ensures (starts + [Offset(groups, i)])[s] == Offset(after, s) && (nums + [|groups[i]|])[s] == |after[s]|
    {
      assert after[..s] == groups[..s];
      if s < i { assert groups[..i][..s] == groups[..s] && groups[..i][s] == groups[s]; }
    }
  }

  // ----- what the numbering guarantees -----

  ghost predicate InSome(groups: seq<seq<string>>, p: string) {
    exists k :: 0 <= k < |groups| && p in groups[k]
  }

  lemma {:induction false} InConcat(groups: seq<seq<string>>, p: string)
    ensures p in Concat(groups) <==> InSome(groups, p)
  {
    if groups != [] {
      var n := |groups| - 1;
      var front, last := groups[..n], groups[n];
      InConcat(front, p);
      InSomeSplit(groups, p);
      hide InSome;
      assert Concat(groups) == Concat(front) + last;
    }
  }

  lemma InSomeSplit(groups: seq<seq<string>>, p: string)
    requires groups != []
    ensures InSome(groups, p) <==> InSome(groups[..|groups| - 1], p) || p in groups[|groups| - 1]
  {
    var n := |groups| - 1;
    var front := groups[..n];
    if InSome(front, p) {
      var k :| 0 <= k < |front| && p in front[k];
      assert p in groups[k];
    }
    if InSome(groups, p) {
      var k :| 0 <= k < |groups| && p in groups[k];
      if k < n { assert p in front[k]; }
    }
  }

  lemma {:induction false} ConcatDistinct(groups: seq<seq<string>>)
    requires forall k {:trigger groups[k]} :: 0 <= k < |groups| ==> Distinct(groups[k])
    requires forall k, l, p :: 0 <= k < l < |groups| && p in groups[k] ==> p !in groups[l]
    ensures Distinct(Concat(groups))
  {
    if groups != [] {
      var n := |groups| - 1;
      var front, last := groups[..n], groups[n];
      ConcatDistinct(front);
      forall p | p in Concat(front) ensures p !in last {
        InConcat(front, p);
        var k :| 0 <= k < |front| && p in front[k];
        assert p in groups[k];
      }
      DistinctJoin(Concat(front), last);
    }
  }

  lemma DistinctJoin(a: seq<string>, b: seq<string>)
    requires Distinct(a) && Distinct(b) && forall p :: p in a ==> p !in b
    ensures Distinct(a + b)
  {
    forall i, j | 0 <= i < j < |a + b| ensures (a + b)[i] != (a + b)[j] {
      if i < |a| <= j { assert a[i] !in b && b[j - |a|] in b; }
    }
  }

  /** The numbered interfaces are exactly the switch interfaces of the component, once each. */
  lemma {:induction false} OrderIsSwitches(g: Grid, component: seq<string>, servers: seq<string>,
                                           groups: seq<seq<string>>)
    requires Grouped(g, component, servers, groups) && Distinct(component)
    ensures Distinct(Concat(groups))
    ensures forall p :: p in Concat(groups) <==> p in component && IsSwitchPi(g, p)
  {
    hide OnServer;
    forall k | 0 <= k < |groups| ensures Distinct(groups[k]) {
      OnServerDistinct(g, component, servers[k]);
    }
    forall k, l, p | 0 <= k < l < |groups| && p in groups[k] ensures p !in groups[l] {
      InOnServer(g, component, servers[k], p);
      InOnServer(g, component, servers[l], p);
    }
    ConcatDistinct(groups);
    forall p ensures p in Concat(groups) <==> p in component && IsSwitchPi(g, p) {
      SwitchInGroup(g, component, servers, groups, p);
    }
  }

  lemma SwitchInGroup(g: Grid, component: seq<string>, servers: seq<string>, groups: seq<seq<string>>, p: string)
    requires Grouped(g, component, servers, groups)
    ensures p in Concat(groups) <==> p in component && IsSwitchPi(g, p)
  {
    hide OnServer, Concat;
    InConcat(groups, p);
    if InSome(groups, p) {
      var k :| 0 <= k < |groups| && p in groups[k];
      assert groups[k] == OnServer(g, component, servers[k]);
      InOnServer(g, component, servers[k], p);
      assert p in component && IsSwitchPi(g, p);
    }
    if p in component && IsSwitchPi(g, p) {
      var k :| 0 <= k < |servers| && servers[k] == LocationAt(g, p);
      assert groups[k] == OnServer(g, component, servers[k]);
      InOnServer(g, component, servers[k], p);
      assert IsOn(g, p, servers[k]);
      assert p in groups[k];
      assert InSome(groups, p);
    }
  }

  lemma {:induction false} OffsetsOrdered(groups: seq<seq<string>>, s: nat, t: nat)
    requires s <= t <= |groups|
    ensures Offset(groups, s) <= Offset(groups, t)
    ensures s < t ==> Offset(groups, s) + |groups[s]| <= Offset(groups, t)
    decreases t
  {
    if s < t {
      OffsetsOrdered(groups, s, t - 1);
      OffsetNext(groups, t - 1);
    }
  }

  lemma {:induction false} ConcatAt(groups: seq<seq<string>>, s: nat, j: nat)
    requires s < |groups| && j < |groups[s]|
    ensures Offset(groups, s) + j < |Concat(groups)| && Concat(groups)[Offset(groups, s) + j] == groups[s][j]
    decreases |groups|
  {
    var n := |groups| - 1;
    var front := groups[..n];
    assert front[..s] == groups[..s];
    if s < n {
      ConcatAt(front, s, j);
    }
  }

  lemma AllGroups(groups: seq<seq<string>>)
    ensures Offset(groups, |groups|) == |Concat(groups)| && Offset(groups, 0) == 0
  {
    assert groups[..|groups|] == groups;
  }

  /** The servers' ranges follow one another and fill the indices. */
  lemma {:induction false} RangesFit(starts: seq<int>, nums: seq<int>, groups: seq<seq<string>>)
    requires Ranges(starts, nums, groups) && |Concat(groups)| > 0
    requires forall k {:trigger groups[k]} :: 0 <= k < |groups| ==> groups[k] != []
    ensures ServersFit(starts, nums, |Concat(groups)|)
  {
    var n, m := |Concat(groups)|, |groups|;
    hide Concat, Offset;
    AllGroups(groups);
    SomeGroup(groups);
    var cut := Cut(starts, n);
    forall s, t | 0 <= s <= t < |cut| ensures cut[s] <= cut[t] {
      CutOrdered(starts, nums, groups, s, t);
    }
    assert cut[0] == 0 by {
      assert groups[0] != [];
    }
    forall s | 0 <= s < |nums| ensures nums[s] > 0 && starts[s] + nums[s] == NextStart(starts, n, s) {
      assert groups[s] != [];
      OffsetNext(groups, s);
      if s + 1 < m { assert groups[s + 1] != []; }
    }
  }

  lemma SomeGroup(groups: seq<seq<string>>)
    requires |Concat(groups)| > 0
    ensures |groups| > 0
  {}

  lemma CutOrdered(starts: seq<int>, nums: seq<int>, groups: seq<seq<string>>, s: int, t: int)
    requires Ranges(starts, nums, groups) && |Concat(groups)| > 0
    requires forall k {:trigger groups[k]} :: 0 <= k < |groups| ==> groups[k] != []
    requires 0 <= s <= t < |Cut(starts, |Concat(groups)|)|
    ensures Cut(starts, |Concat(groups)|)[s] <= Cut(starts, |Concat(groups)|)[t]
  {
    hide Concat, Offset;
    AllGroups(groups);
    if t < |groups| {
      OffsetsOrdered(groups, s, t);
      assert groups[s] != [] && groups[t] != [];
    } else if s < |groups| {
      OffsetsOrdered(groups, s, |groups|);
      assert groups[s] != [];
    }
  }

  /** The interfaces of a range are on the range's server. */
  lemma RangeOnServer(net: Network, component: seq<string>, servers: seq<string>, groups: seq<seq<string>>,
                      starts: seq<int>, nums: seq<int>,
                      s: int, i: int)
    requires net.Valid() && net.order == Concat(groups) && Grouped(net.g, component, servers, groups)
    requires Ranges(starts, nums, groups)
    requires ServersFit(starts, nums, |net.order|) && InTile(starts + [|net.order|], s, i)
    ensures 0 <= s < |servers| && 0 <= i < |net.order| && IsOn(net.g, net.order[i], servers[s])
  {
    hide Network.Valid, Concat, Offset, OnServer, Tiles;
    assert nums[s] > 0 && starts[s] + nums[s] == NextStart(starts, |net.order|, s);
    assert groups[s] == OnServer(net.g, component, servers[s]);
    AllGroups(groups);
    OffsetsOrdered(groups, 0, s);
    ConcatAt(groups, s, i - starts[s]);
    InOnServer(net.g, component, servers[s], net.order[i]);
  }

  lemma FullTiles(starts: seq<int>, nums: seq<int>, n: int)
    requires ServersFit(starts, nums, n) && |starts| > 0
    ensures Tiles(starts + [n], n)
  {
    var cut, full := Cut(starts, n), starts + [n];
    var last := |starts|;
    forall s, t | 0 <= s <= t < |full| ensures full[s] <= full[t] {
      assert cut[s] <= cut[t] && cut[s] <= cut[last];
    }
  }

  /** Two interfaces are on the same server exactly when they are in the same range. */
  lemma {:induction false} RangesServe(net: Network, component: seq<string>, servers: seq<string>,
                                       groups: seq<seq<string>>, starts: seq<int>, nums: seq<int>)
    requires net.Valid() && net.order == Concat(groups) && Grouped(net.g, component, servers, groups)
    requires Ranges(starts, nums, groups)
    requires ServersFit(starts, nums, |net.order|) && |starts| > 0
    ensures Served(net, starts + [|net.order|])
  {
    hide Network.Valid, Concat, Ranges, OnServer, Tiles, ServersFit;
    var n, cut := |net.order|, starts + [|net.order|];
    FullTiles(starts, nums, n);
    forall s, i, j | InTile(cut, s, i) && 0 <= i < n && 0 <= j < n
      ensures InOrder(net, i) && InOrder(net, j)
      ensures LocationAt(net.g, net.order[i]) == LocationAt(net.g, net.order[j]) <==> InTile(cut, s, j)
    {
      RangeOnServer(net, component, servers, groups, starts, nums, s, i);
      var t := TileOf(cut, n, j);
      RangeOnServer(net, component, servers, groups, starts, nums, t, j);
      if s != t { OneTile(cut, n, s, t, j); }
    }
  }

  lemma OneTile(cut: seq<int>, n: int, s: int, t: int, j: int)
    requires Tiles(cut, n) && InTile(cut, t, j) && s != t
    ensures !InTile(cut, s, j)
  {
    if s < t && s >= 0 { assert cut[s + 1] <= cut[t]; }
    if t < s && s < |cut| - 1 { assert cut[t + 1] <= cut[s]; }
  }

  /** Grounding the last index leaves the blocks as they are. */
  lemma GroundedBlocks(Y: Mat, starts: seq<int>, nums: seq<int>, n: int)
    requires ServersFit(starts, nums, n) && |starts| > 0 && BlockDiagonal(Y, starts + [n], n)
    ensures BlockDiagonal(Y, Cut(starts, n), n - 1)
  {
    var cut, full := Cut(starts, n), starts + [n];
    hide Tiles;
    forall s, i, j | InTile(cut, s, i) && 0 <= j < n - 1 && !InTile(cut, s, j)
      ensures Y(i, j) == 0.0 && Y(j, i) == 0.0
    {
      assert InTile(full, s, i) && !InTile(full, s, j);
    }
  }

  // ----- filling the matrices -----

  /** Line l joins the switch interfaces a and b, of different nodes, and if across is set of
      different servers. */
  ghost predicate Joins(net: Network, a: int, b: int, l: string, across: bool) {
    && InOrder(net, a) && InOrder(net, b) && (forall l :: l in net.g.lineOrder ==> l in net.g.lines)
    && net.g.nodeOf[net.order[a]] != net.g.nodeOf[net.order[b]]
    && (across ==> LocationAt(net.g, net.order[a]) != LocationAt(net.g, net.order[b]))
    && l == net.g.LineBetween(net.order[a], net.order[b], |net.g.lineOrder|)
  }

  /** The pairs met in the first i rows and the first k neighbours of row i. */
  ghost predicate Met(net: Network, i: int, k: int, a: int, b: int) {
    && net.Coupled(a, b)
    && (a < i || (a == i && 0 <= k <= |net.adj[net.order[i]]| && net.order[b] in net.adj[net.order[i]][..k]))
  }

  ghost predicate Found(net: Network, i: int, k: int, l: string, across: bool) {
    exists a, b :: Met(net, i, k, a, b) && Joins(net, a, b, l, across)
  }

  /** lines lists what has been found so far, once each. */
  ghost predicate Collects(net: Network, lines: seq<string>, i: int, k: int, across: bool) {
    Distinct(lines) && forall l :: l in lines <==> Found(net, i, k, l, across)
  }

  lemma MetNext(net: Network, i: int, k: int, a: int, b: int)
    requires 0 <= i < |net.order| && net.order[i] in net.adj && 0 <= k < |net.adj[net.order[i]]|
    ensures Met(net, i, k + 1, a, b)
       <==> Met(net, i, k, a, b) || (net.Coupled(a, b) && a == i && net.order[b] == net.adj[net.order[i]][k])
  {
    var ns := net.adj[net.order[i]];
    assert ns[..k + 1] == ns[..k] + [ns[k]];
  }

  lemma MetRow(net: Network, i: int, a: int, b: int)
    requires 0 <= i < |net.order| && net.order[i] in net.adj
    ensures Met(net, i, |net.adj[net.order[i]]|, a, b) <==> Met(net, i + 1, 0, a, b)
  {
    var ns := net.adj[net.order[i]];
    assert ns[..|ns|] == ns;
  }

  /** A neighbour that is no switch interface adds no line. */
  lemma CollectsSkip(net: Network, lines: seq<string>, i: int, k: int, across: bool)
    requires 0 <= i < |net.order| && net.order[i] in net.adj && 0 <= k < |net.adj[net.order[i]]|
    requires Collects(net, lines, i, k, across) && net.adj[net.order[i]][k] !in net.order
    ensures Collects(net, lines, i, k + 1, across)
  {
    hide Joins, Met;
    var k' := k + 1;
    forall a, b ensures Met(net, i, k', a, b) <==> Met(net, i, k, a, b) {
      MetNext(net, i, k, a, b);
    }
    forall l ensures Found(net, i, k', l, across) <==> Found(net, i, k, l, across) {
      if Found(net, i, k, l, across) {
        var a, b :| Met(net, i, k, a, b) && Joins(net, a, b, l, across);
        assert Met(net, i, k', a, b);
      }
      if Found(net, i, k', l, across) {
        var a, b :| Met(net, i, k', a, b) && Joins(net, a, b, l, across);
        assert Met(net, i, k, a, b);
      }
    }
    hide Found;
  }

  /** A switch interface adds its line, if it is one of the wanted and not yet listed. */
  lemma CollectsNext(net: Network, lines: seq<string>, i: int, k: int, c: int, across: bool, wanted: bool, l: string)
    requires 0 <= i < |net.order| && net.order[i] in net.adj && 0 <= k < |net.adj[net.order[i]]|
    requires Collects(net, lines, i, k, across) && 0 <= c < |net.order| && net.order[c] == net.adj[net.order[i]][k]
    requires Distinct(net.order)
    requires forall m :: Joins(net, i, c, m, across) <==> wanted && m == l
    ensures Collects(net, if wanted && l !in lines then lines + [l] else lines, i, k + 1, across)
  {
    hide Joins, Met;
    var k' := k + 1;
    assert net.Coupled(i, c) by { assert net.adj[net.order[i]][k] in net.adj[net.order[i]]; }
    forall a, b ensures Met(net, i, k', a, b) <==> Met(net, i, k, a, b) || (a == i && b == c) {
      MetNext(net, i, k, a, b);
      if net.Coupled(a, b) { SameIndex(net.order, b, c); }
    }
    forall m ensures Found(net, i, k', m, across) <==> Found(net, i, k, m, across) || (wanted && m == l) {
      if Found(net, i, k, m, across) {
        var a, b :| Met(net, i, k, a, b) && Joins(net, a, b, m, across);
        assert Met(net, i, k', a, b);
      }
      if wanted && m == l {
        assert Joins(net, i, c, m, across);
        assert Met(net, i, k', i, c);
      }
      if Found(net, i, k', m, across) {
        var a, b :| Met(net, i, k', a, b) && Joins(net, a, b, m, across);
        if !(a == i && b == c) { assert Met(net, i, k, a, b); }
      }
    }
    hide Found;
  }

  lemma SameIndex(order: seq<string>, b: int, c: int)
    requires Distinct(order) && 0 <= b < |order| && 0 <= c < |order|
    ensures order[b] == order[c] <==> b == c
  {
    if b != c {
      assert order[if b < c then b else c] != order[if b < c then c else b];
    }
  }

  lemma CollectsRow(net: Network, lines: seq<string>, i: int, across: bool)
    requires 0 <= i < |net.order| && net.order[i] in net.adj
    requires Collects(net, lines, i, |net.adj[net.order[i]]|, across)
    ensures Collects(net, lines, i + 1, 0, across)
  {
    hide Joins, Met;
    var k, i' := |net.adj[net.order[i]]|, i + 1;
    forall a, b ensures Met(net, i, k, a, b) <==> Met(net, i', 0, a, b) {
      MetRow(net, i, a, b);
    }
    forall l ensures Found(net, i, k, l, across) <==> Found(net, i', 0, l, across) {
      if Found(net, i, k, l, across) {
        var a, b :| Met(net, i, k, a, b) && Joins(net, a, b, l, across);
        assert Met(net, i', 0, a, b);
      }
      if Found(net, i', 0, l, across) {
        var a, b :| Met(net, i', 0, a, b) && Joins(net, a, b, l, across);
        assert Met(net, i, k, a, b);
      }
    }
    hide Found;
  }

  /** Row i of A after k neighbours: the weights of those that are switch interfaces. */
  function PartialRow(net: Network, i: int, k: int): Vec {
    c => if 0 <= i < |net.order| && net.order[i] in net.adj && 0 <= k <= |net.adj[net.order[i]]|
            && 0 <= c < |net.order| && net.order[c] in net.adj[net.order[i]][..k]
            && net.order[i] in net.g.nodeOf && net.order[c] in net.g.nodeOf
            && (forall l :: l in net.g.lineOrder ==> l in net.g.lines)
         then net.Weight(net.order[i], net.order[c]) else 0.0
  }

  /** What the loop over the neighbours of row i keeps up. */
  ghost predicate RowState(net: Network, cur: Currents, A: Mat, I: Vec, current: real, trans: seq<string>,
                           edging: seq<string>, i: int, k: int) {
    && 0 <= i < |net.order| && net.order[i] in net.adj && 0 <= k <= |net.adj[net.order[i]]|
    && (forall c :: 0 <= c < |net.order| ==> A(i, c) == PartialRow(net, i, k)(c))
    && Accumulate(net.g, cur, net.adj[net.order[i]][..k], 0.0) == Accumulated(current, I(i))
    && Collects(net, trans, i, k, false) && Collects(net, edging, i, k, true)
  }

  /** Row r is complete if it is one of the first i, and empty otherwise. */
  ghost predicate RowDone(net: Network, cur: Currents, A: Mat, I: Vec, r: int, i: int)
    requires net.Valid()
  {
    && 0 <= r < |net.order| && net.order[r] in net.adj
    && (forall c :: 0 <= c < |net.order| ==> A(r, c) == if r < i then net.Coupling()(r, c) else 0.0)
    && I(r) == if r < i then Accumulate(net.g, cur, net.adj[net.order[r]], 0.0).stored else 0.0
  }

  /** The rows above i are complete, the others empty. */
  ghost predicate RowsDone(net: Network, cur: Currents, A: Mat, I: Vec, i: int)
    requires net.Valid()
  {
    forall r :: 0 <= r < |net.order| ==> RowDone(net, cur, A, I, r, i)
  }

  /** What the filling loops need to look things up. */
  ghost predicate Ready(ps: CurrentState, net: Network, idx: map<string, int>)
    reads ps`node_current
  {
    && net.Valid() && ps.grid == net.g && (forall id :: id in net.g.nodes ==> id in ps.node_current)
    && (forall i {:trigger net.order[i]} :: 0 <= i < |net.order| ==> net.order[i] in idx && idx[net.order[i]] == i)
  }

  ghost predicate KnownNeighbor(net: Network, q: string) {
    && q in net.g.nodeOf && net.g.nodeOf[q] in net.g.nodes && net.g.nodes[net.g.nodeOf[q]].id == net.g.nodeOf[q]
    && (q in net.order <==> net.g.nodes[net.g.nodeOf[q]].role == Switch)
  }

  /** A neighbour of a switch interface is known, and if it is a switch interface it is numbered. */
  lemma NeighborFacts(net: Network, i: int, k: int)
    requires net.Valid() && 0 <= i < |net.order|
    ensures InOrder(net, i) && net.order[i] in net.adj && Distinct(net.order)
    ensures forall l :: l in net.g.lineOrder ==> l in net.g.lines
    ensures 0 <= k < |net.adj[net.order[i]]| ==> KnownNeighbor(net, net.adj[net.order[i]][k])
  {
    hide Grid.Adjacency, Grid.NodesValid;
    LineFacts(net.g);
    if 0 <= k < |net.adj[net.order[i]]| {
      var p, q := net.order[i], net.adj[net.order[i]][k];
      assert p in net.g.nodeOf && q in net.g.Adjacency(p);
      NeighborKnown(net, p, q);
    }
  }

  lemma NeighborKnown(net: Network, p: string, q: string)
    requires net.Valid() && p in net.order && p in net.adj && q in net.adj[p]
    ensures KnownNeighbor(net, q)
  {
    hide Grid.Adjacency;
    assert net.g.Adjacent(p, q);
    AdjacencySymmetric(net.g, p, q);
  }

  /** The branches on the role of a neighbour that change the injection. */
  method AddInjection(ps: CurrentState, n: Node, I: array<real>, i: nat, before: real) returns (current: real)
    requires i < I.Length && n.id in ps.node_current
    modifies I
    ensures current == if IsSupply(n) then before + ps.node_current[n.id]
                       else if IsDemand(n) then before - ps.node_current[n.id] else before
    ensures forall j :: 0 <= j < I.Length
              ==> I[j] == if j != i then old(I[j]) else if IsSupply(n) || IsDemand(n) then current
                          else if n.role == Storage then 0.0 else old(I[i])
  {
    current := before;
    if n.role == WindTurbine || n.role == SolarPanel || n.role == PowerPlant {
      current := current + ps.node_current[n.id];
      I[i] := current;
    }
    if n.role == Demander {
      current := current - ps.node_current[n.id];
      I[i] := current;
    }
    if n.role == Storage {
      if n.mode == Charging {
        current := current - ps.node_current[n.id];
        I[i] := current;
      } else if n.mode == Discharging {
        current := current + ps.node_current[n.id];
        I[i] := current;
      } else {
        I[i] := 0.0;
      }
    }
  }

  lemma AccumulateNext(g: Grid, cur: Currents, ns: seq<string>, k: nat, initial: real)
    requires k < |ns| && ns[k] in g.nodeOf && g.nodeOf[ns[k]] in g.nodes && g.nodeOf[ns[k]] in cur
    ensures var n, before := g.nodes[g.nodeOf[ns[k]]], Accumulate(g, cur, ns[..k], initial);
            var c := if IsSupply(n) then before.current + cur[g.nodeOf[ns[k]]]
                     else if IsDemand(n) then before.current - cur[g.nodeOf[ns[k]]] else before.current;
            Accumulate(g, cur, ns[..k + 1], initial)
            == Accumulated(c, if IsSupply(n) || IsDemand(n) then c else if n.role == Storage then 0.0
                                                                        else before.stored)
  {
    assert ns[..k + 1][..k] == ns[..k];
  }

  /** Searches a list of lines, as the program does before it appends. */
  method Append(lines: seq<string>, l: string) returns (lines': seq<string>)
    ensures lines' == if l in lines then lines else lines + [l]
  {
    var is_exist := false;
    for i := 0 to |lines|
      invariant is_exist <==> l in lines[..i]
    {
      if l == lines[i] {
        is_exist := true;
      }
    }
    assert lines[..|lines|] == lines;
    lines' := if is_exist then lines else lines + [l];
  }

  /** The branch for a neighbour that is a switch interface. */
  method AddCoupling(ps: CurrentState, net: Network, idx: map<string, int>, A: array2<real>, i: nat, q: string,
                     trans: seq<string>, edging: seq<string>)
    returns (trans': seq<string>, edging': seq<string>)
    requires Ready(ps, net, idx) && A.Length0 == A.Length1 == |net.order| && i < |net.order| && q in net.order
    requires InOrder(net, i) && InOrder(net, idx[q]) && net.Coupled(i, idx[q])
    requires forall l :: l in net.g.lineOrder ==> l in net.g.lines
    modifies A
    ensures forall r, c :: 0 <= r < |net.order| && 0 <= c < |net.order|
              ==> A[r, c] == if r == i && c == idx[q] then net.Weight(net.order[i], q) else old(A[r, c])
    ensures var l := net.g.LineBetween(net.order[i], q, |net.g.lineOrder|);
            var other := net.g.nodeOf[net.order[i]] != net.g.nodeOf[q];
            var far := other && LocationAt(net.g, net.order[i]) != LocationAt(net.g, q);
            && trans' == (if other && l !in trans then trans + [l] else trans)
            && edging' == if far && l !in edging then edging + [l] else edging
  {
    hide Network.Valid, Network.Coupled, IsSwitchPi;
    trans', edging' := trans, edging;
    var p, sw2 := net.order[i], idx[q];
    assert net.order[sw2] == q;
    A[i, sw2] := -1.0;
    if net.g.nodeOf[p] != net.g.nodeOf[q] {
      CoupledLine(net, i, sw2);
      var power_line := ps.FindPowerLine(p, q);
      A[i, sw2] := -1.0 / net.g.lines[power_line].resistor;
      trans' := Append(trans, power_line);
      if net.g.nodes[net.g.nodeOf[p]].location != net.g.nodes[net.g.nodeOf[q]].location {
        edging' := Append(edging, power_line);
      }
    }
  }

  lemma CoupledLine(net: Network, i: int, j: int)
    requires net.Valid() && net.Coupled(i, j) && InOrder(net, i) && InOrder(net, j)
    requires net.g.nodeOf[net.order[i]] != net.g.nodeOf[net.order[j]]
    requires forall l :: l in net.g.lineOrder ==> l in net.g.lines
    ensures var l := net.g.LineBetween(net.order[i], net.order[j], |net.g.lineOrder|);
            l in net.g.lines && net.g.lines[l].resistor > 0.0
  {
    hide Grid.Adjacency, Grid.NodesValid;
    assert net.g.Adjacent(net.order[i], net.order[j]);
    LineOfAdjacent(net.g, net.order[i], net.order[j]);
  }

  /** One neighbour of row i. */
  method AddNeighbor(ps: CurrentState, net: Network, idx: map<string, int>, A: array2<real>, I: array<real>, i: nat,
                     k: nat, current: real, trans: seq<string>, edging: seq<string>)
    returns (current': real, trans': seq<string>, edging': seq<string>)
    requires Ready(ps, net, idx) && A.Length0 == A.Length1 == I.Length == |net.order|
    requires RowState(net, ps.node_current, MatrixContents(A), Contents(I), current, trans, edging, i, k)
    requires k < |net.adj[net.order[i]]|
    modifies A, I
    ensures RowState(net, ps.node_current, MatrixContents(A), Contents(I), current', trans', edging', i, k + 1)
    ensures forall r, c :: 0 <= r < |net.order| && 0 <= c < |net.order| && r != i ==> A[r, c] == old(A[r, c])
    ensures forall r :: 0 <= r < |net.order| && r != i ==> I[r] == old(I[r])
  {
    hide Network.Valid, Network.Weight, Network.Coupled, Accumulate, PartialRow, Collects, IsSupply, IsDemand, Joins;
    ghost var A0, I0, cur := MatrixContents(A), Contents(I), ps.node_current;
    NeighborFacts(net, i, k);
    var ns := net.adj[net.order[i]];
    var q := ns[k];
    var n := net.g.nodes[net.g.nodeOf[q]];
    AccumulateNext(net.g, cur, ns, k, 0.0);
    current' := AddInjection(ps, n, I, i, current);
    trans', edging' := trans, edging;
    if n.role == Switch {
      NumberedNeighbor(ps, net, idx, i, k);
      trans', edging' := AddCoupling(ps, net, idx, A, i, q, trans, edging);
      CouplingCollected(net, i, k, idx[q], trans, edging);
      RowNext(net, i, k, idx[q]);
    } else {
      CollectsSkip(net, trans, i, k, false);
      CollectsSkip(net, edging, i, k, true);
      RowSkip(net, i, k);
    }
  }

  lemma NumberedNeighbor(ps: CurrentState, net: Network, idx: map<string, int>, i: int, k: int)
    requires Ready(ps, net, idx) && 0 <= i < |net.order| && net.order[i] in net.adj && 0 <= k < |net.adj[net.order[i]]|
    requires net.adj[net.order[i]][k] in net.order
    ensures var q := net.adj[net.order[i]][k];
            && q in idx && 0 <= idx[q] < |net.order| && net.order[idx[q]] == q
            && InOrder(net, idx[q]) && net.Coupled(i, idx[q])
  {
    var q := net.adj[net.order[i]][k];
    var c :| 0 <= c < |net.order| && net.order[c] == q;
    hide Network.Valid;
    NeighborFacts(net, c, -1);
  }

  lemma CouplingCollected(net: Network, i: int, k: int, c: int, trans: seq<string>, edging: seq<string>)
    requires InOrder(net, i) && InOrder(net, c) && net.order[i] in net.adj && 0 <= k < |net.adj[net.order[i]]|
    requires net.order[c] == net.adj[net.order[i]][k] && Distinct(net.order)
    requires forall l :: l in net.g.lineOrder ==> l in net.g.lines
    requires Collects(net, trans, i, k, false) && Collects(net, edging, i, k, true)
    ensures var p, q := net.order[i], net.order[c];
            var l := net.g.LineBetween(p, q, |net.g.lineOrder|);
            var other := net.g.nodeOf[p] != net.g.nodeOf[q];
            var far := other && LocationAt(net.g, p) != LocationAt(net.g, q);
            && Collects(net, if other && l !in trans then trans + [l] else trans, i, k + 1, false)
            && Collects(net, if far && l !in edging then edging + [l] else edging, i, k + 1, true)
  {
    var p, q := net.order[i], net.order[c];
    var l := net.g.LineBetween(p, q, |net.g.lineOrder|);
    var other := net.g.nodeOf[p] != net.g.nodeOf[q];
    var far := other && LocationAt(net.g, p) != LocationAt(net.g, q);
    assert forall m :: Joins(net, i, c, m, false) <==> other && m == l;
    assert forall m :: Joins(net, i, c, m, true) <==> far && m == l;
    hide Collects, Joins;
    CollectsNext(net, trans, i, k, c, false, other, l);
    CollectsNext(net, edging, i, k, c, true, far, l);
  }

  lemma RowNext(net: Network, i: int, k: int, c: int)
    requires InOrder(net, i) && net.order[i] in net.adj && 0 <= k < |net.adj[net.order[i]]| && InOrder(net, c)
    requires net.order[c] == net.adj[net.order[i]][k] && Distinct(net.order)
    requires forall l :: l in net.g.lineOrder ==> l in net.g.lines
    ensures PartialRow(net, i, k + 1)(c) == net.Weight(net.order[i], net.order[c])
    ensures forall d :: 0 <= d < |net.order| && d != c ==> PartialRow(net, i, k + 1)(d) == PartialRow(net, i, k)(d)
  {
    var ns := net.adj[net.order[i]];
    assert ns[..k + 1] == ns[..k] + [ns[k]];
    hide Network.Weight;
    forall d | 0 <= d < |net.order| && d != c ensures PartialRow(net, i, k + 1)(d) == PartialRow(net, i, k)(d) {
      SameIndex(net.order, d, c);
    }
  }

  lemma RowSkip(net: Network, i: int, k: int)
    requires 0 <= i < |net.order| && net.order[i] in net.adj && 0 <= k < |net.adj[net.order[i]]|
    requires net.adj[net.order[i]][k] !in net.order
    ensures forall d :: 0 <= d < |net.order| ==> PartialRow(net, i, k + 1)(d) == PartialRow(net, i, k)(d)
  {
    var ns := net.adj[net.order[i]];
    assert ns[..k + 1] == ns[..k] + [ns[k]];
    hide Network.Weight;
    forall d | 0 <= d < |net.order| ensures PartialRow(net, i, k + 1)(d) == PartialRow(net, i, k)(d) {
      assert net.order[d] in net.order;
    }
  }

  /** All neighbours of row i. */
  method FillRow(ps: CurrentState, net: Network, idx: map<string, int>, A: array2<real>, I: array<real>, i: nat,
                 trans: seq<string>, edging: seq<string>)
    returns (trans': seq<string>, edging': seq<string>)
    requires Ready(ps, net, idx) && A.Length0 == A.Length1 == I.Length == |net.order| && i < |net.order|
    requires RowsDone(net, ps.node_current, MatrixContents(A), Contents(I), i)
    requires Collects(net, trans, i, 0, false) && Collects(net, edging, i, 0, true)
    modifies A, I
    ensures RowsDone(net, ps.node_current, MatrixContents(A), Contents(I), i + 1)
    ensures Collects(net, trans', i + 1, 0, false) && Collects(net, edging', i + 1, 0, true)
  {
    hide *;
    ghost var A0, I0, cur := MatrixContents(A), Contents(I), ps.node_current;
    ReadyFacts(ps, net, idx, i);
    RowStart(net, cur, A0, I0, trans, edging, i);
    var current := 0.0;
    trans', edging' := trans, edging;
    for k := 0 to |net.adj[net.order[i]]|
      invariant RowState(net, cur, MatrixContents(A), Contents(I), current, trans', edging', i, k)
      invariant forall r, c :: 0 <= r < |net.order| && 0 <= c < |net.order| && r != i
                  ==> MatrixContents(A)(r, c) == A0(r, c)
      invariant forall r :: 0 <= r < |net.order| && r != i ==> Contents(I)(r) == I0(r)
    {
      current, trans', edging' := AddNeighbor(ps, net, idx, A, I, i, k, current, trans', edging');
    }
    RowEnd(net, cur, A0, I0, MatrixContents(A), Contents(I), current, trans', edging', i);
  }

  lemma ReadyFacts(ps: CurrentState, net: Network, idx: map<string, int>, i: int)
    requires Ready(ps, net, idx)
    ensures net.Valid() && (0 <= i < |net.order| ==> net.order[i] in net.adj)
  {
    hide Network.Valid;
    if 0 <= i < |net.order| { NeighborFacts(net, i, -1); }
  }

  lemma RowStart(net: Network, cur: Currents, A: Mat, I: Vec, trans: seq<string>, edging: seq<string>, i: int)
    requires net.Valid() && 0 <= i < |net.order| && net.order[i] in net.adj && RowsDone(net, cur, A, I, i)
    requires Collects(net, trans, i, 0, false) && Collects(net, edging, i, 0, true)
    ensures RowState(net, cur, A, I, 0.0, trans, edging, i, 0)
  {
    hide Network.Valid, Collects, Network.Weight;
    assert RowDone(net, cur, A, I, i, i);
  }

  lemma RowEnd(net: Network, cur: Currents, A0: Mat, I0: Vec, A: Mat, I: Vec, current: real, trans: seq<string>,
               edging: seq<string>, i: int)
    requires net.Valid() && 0 <= i < |net.order| && net.order[i] in net.adj && RowsDone(net, cur, A0, I0, i)
    requires RowState(net, cur, A, I, current, trans, edging, i, |net.adj[net.order[i]]|)
    requires forall r, c :: 0 <= r < |net.order| && 0 <= c < |net.order| && r != i ==> A(r, c) == A0(r, c)
    requires forall r :: 0 <= r < |net.order| && r != i ==> I(r) == I0(r)
    ensures RowsDone(net, cur, A, I, i + 1)
    ensures Collects(net, trans, i + 1, 0, false) && Collects(net, edging, i + 1, 0, true)
  {
    hide Network.Valid, Collects, Network.Coupling, Accumulate, PartialRow;
    CollectsRow(net, trans, i, false);
    CollectsRow(net, edging, i, true);
    var ns := net.adj[net.order[i]];
    assert ns[..|ns|] == ns;
    FullRow(net, i);
    RowsNext(net, cur, A0, I0, A, I, i);
  }

  lemma RowsNext(net: Network, cur: Currents, A0: Mat, I0: Vec, A: Mat, I: Vec, i: int)
    requires net.Valid() && 0 <= i < |net.order| && net.order[i] in net.adj && RowsDone(net, cur, A0, I0, i)
    requires forall c :: 0 <= c < |net.order| ==> A(i, c) == net.Coupling()(i, c)
    requires I(i) == Accumulate(net.g, cur, net.adj[net.order[i]], 0.0).stored
    requires forall r, c :: 0 <= r < |net.order| && 0 <= c < |net.order| && r != i ==> A(r, c) == A0(r, c)
    requires forall r :: 0 <= r < |net.order| && r != i ==> I(r) == I0(r)
    ensures RowsDone(net, cur, A, I, i + 1)
  {
    hide Network.Valid, Network.Coupling, Accumulate;
    var i' := i + 1;
    forall r | 0 <= r < |net.order| ensures RowDone(net, cur, A, I, r, i') {
      assert RowDone(net, cur, A0, I0, r, i);
    }
  }

  lemma FullRow(net: Network, i: int)
    requires net.Valid() && 0 <= i < |net.order| && net.order[i] in net.adj
    ensures forall c :: 0 <= c < |net.order| ==> PartialRow(net, i, |net.adj[net.order[i]]|)(c) == net.Coupling()(i, c)
  {
    var k := |net.adj[net.order[i]]|;
    forall c | 0 <= c < |net.order| ensures PartialRow(net, i, k)(c) == net.Coupling()(i, c) {
      FullEntry(net, i, c);
    }
  }

  lemma FullEntry(net: Network, i: int, c: int)
    requires net.Valid() && 0 <= i < |net.order| && net.order[i] in net.adj && 0 <= c < |net.order|
    ensures PartialRow(net, i, |net.adj[net.order[i]]|)(c) == net.Coupling()(i, c)
  {
    NeighborFacts(net, c, -1);
    NeighborFacts(net, i, -1);
    hide Network.Valid, Network.Weight;
    var ns := net.adj[net.order[i]];
    assert ns[..|ns|] == ns;
  }

  /** The third loop of simulate: couplings, injections, and the lists of lines. */
  method FillRows(ps: CurrentState, net: Network, idx: map<string, int>)
    returns (A: array2<real>, I: array<real>, trans: seq<string>, edging: seq<string>)
    requires Ready(ps, net, idx)
    ensures fresh(A) && fresh(I) && A.Length0 == A.Length1 == I.Length == |net.order|
    ensures net.Valid() && RowsDone(net, ps.node_current, MatrixContents(A), Contents(I), |net.order|)
    ensures Collects(net, trans, |net.order|, 0, false) && Collects(net, edging, |net.order|, 0, true)
  {
    hide *;
    ghost var cur := ps.node_current;
    ReadyFacts(ps, net, idx, -1);
    A := ZeroMatrix(|net.order|, |net.order|);
    I := Zeros(|net.order|);
    trans, edging := [], [];
    NothingYet(net, cur, MatrixContents(A), Contents(I));
    for i := 0 to |net.order|
      invariant RowsDone(net, cur, MatrixContents(A), Contents(I), i)
      invariant Collects(net, trans, i, 0, false) && Collects(net, edging, i, 0, true)
    {
      trans, edging := FillRow(ps, net, idx, A, I, i, trans, edging);
    }
  }

  lemma NothingYet(net: Network, cur: Currents, A: Mat, I: Vec)
    requires net.Valid() && (forall r, c :: 0 <= r < |net.order| && 0 <= c < |net.order| ==> A(r, c) == 0.0)
    requires forall r :: 0 <= r < |net.order| ==> I(r) == 0.0
    ensures RowsDone(net, cur, A, I, 0) && Collects(net, [], 0, 0, false) && Collects(net, [], 0, 0, true)
  {
    hide *;
    forall r | 0 <= r < |net.order| ensures RowDone(net, cur, A, I, r, 0) {
      NoRowYet(net, cur, A, I, r);
    }
    AreDone(net, cur, A, I);
    NothingCollected(net, false);
    NothingCollected(net, true);
  }

  lemma NoRowYet(net: Network, cur: Currents, A: Mat, I: Vec, r: int)
    requires net.Valid() && 0 <= r < |net.order| && I(r) == 0.0 && forall c :: 0 <= c < |net.order| ==> A(r, c) == 0.0
    ensures RowDone(net, cur, A, I, r, 0)
  {
    hide Network.Valid, Network.Coupling, Accumulate, Distinct;
    NeighborFacts(net, r, -1);
  }

  lemma AreDone(net: Network, cur: Currents, A: Mat, I: Vec)
    requires net.Valid() && forall r :: 0 <= r < |net.order| ==> RowDone(net, cur, A, I, r, 0)
    ensures RowsDone(net, cur, A, I, 0)
  {
    hide Network.Valid, RowDone;
  }

  lemma NothingCollected(net: Network, across: bool)
    ensures Collects(net, [], 0, 0, across)
  {
    hide Joins;
  }

  /** The fourth loop: the diagonal is minus the row sum. */
  method FillDiagonal(A: array2<real>, n: nat, ghost C: Mat)
    requires A.Length0 == A.Length1 == n
    requires forall r, c :: 0 <= r < n && 0 <= c < n ==> A[r, c] == C(r, c)
    modifies A
    ensures forall r, c :: 0 <= r < n && 0 <= c < n ==> A[r, c] == if r == c then -Sum(Row(C, r), 0, n) else C(r, c)
  {
    for i := 0 to n
      invariant forall r, c :: 0 <= r < n && 0 <= c < n
                  ==> A[r, c] == if r == c && r < i then -Sum(Row(C, r), 0, n) else C(r, c)
    {
      var sum := 0.0;
      for j := 0 to n
        invariant sum == Sum(Row(C, i), 0, j)
      {
        sum := sum + A[i, j];
      }
      A[i, i] := -1.0 * sum;
    }
  }

  /** The lines collected across servers are the edging lines. */
  lemma CollectsEdging(net: Network, edging: seq<string>)
    requires net.Valid() && Collects(net, edging, |net.order|, 0, true)
    ensures ListsEdging(net, edging)
  {
    var n := |net.order|;
    forall l ensures Found(net, n, 0, l, true) <==> CrossesBorder(net, l) {
      EdgingFound(net, l);
    }
    hide Network.Valid, Found, CrossesBorder;
  }

  /** Two coupled interfaces, as the program sees them. */
  lemma CoupledPair(net: Network, a: int, b: int)
    requires net.Valid() && net.Coupled(a, b)
    ensures InOrder(net, a) && InOrder(net, b) && (forall l :: l in net.g.lineOrder ==> l in net.g.lines)
    ensures net.order[a] != net.order[b]
    ensures var l := net.g.LineBetween(net.order[a], net.order[b], |net.g.lineOrder|);
            net.g.nodeOf[net.order[a]] != net.g.nodeOf[net.order[b]] ==> LineJoining(net, a, b, l)
  {
    NeighborFacts(net, a, -1);
    NeighborFacts(net, b, -1);
    CoupledFacts(net, a, b);
    SameIndex(net.order, a, b);
    if net.g.nodeOf[net.order[a]] != net.g.nodeOf[net.order[b]] {
      assert net.g.Adjacent(net.order[a], net.order[b]) by { hide Grid.Adjacency; }
      hide Network.Valid, Grid.Adjacent, Grid.LineBetween;
      ValidGrid(net);
      LineOfAdjacent(net.g, net.order[a], net.order[b]);
    }
  }

  lemma ValidGrid(net: Network)
    requires net.Valid()
    ensures net.g.Valid() && "" !in net.g.lines
  {
    hide Grid.Valid;
  }

  ghost predicate LineJoining(net: Network, a: int, b: int, l: string) {
    && InOrder(net, a) && InOrder(net, b) && l in net.g.lines && net.g.lines[l].resistor > 0.0
    && net.g.lines[l].IsPeer(net.order[a]) && net.g.lines[l].IsPeer(net.order[b])
  }

  lemma EdgingFound(net: Network, l: string)
    requires net.Valid()
    ensures Found(net, |net.order|, 0, l, true) <==> CrossesBorder(net, l)
  {
    var n := |net.order|;
    hide Network.Valid, Grid.LineBetween;
    if Found(net, n, 0, l, true) {
      var a, b :| Met(net, n, 0, a, b) && Joins(net, a, b, l, true);
      CoupledPair(net, a, b);
      assert CrossesAt(net, a, b, l);
    }
    if CrossesBorder(net, l) {
      var a, b :| CrossesAt(net, a, b, l);
      CoupledPair(net, a, b);
      assert Met(net, n, 0, a, b) && Joins(net, a, b, l, true);
    }
  }

  /** Both ends of an edging line are numbered. */
  lemma EdgeEnds(net: Network, edging: seq<string>, k: int)
    requires net.Valid() && ListsEdging(net, edging) && 0 <= k < |edging|
    ensures edging[k] in net.g.lines && net.g.lines[edging[k]].resistor > 0.0
    ensures net.g.lines[edging[k]].lpeer in net.order && net.g.lines[edging[k]].rpeer in net.order
    ensures LineConductance(net, edging)(k) == 1.0 / net.g.lines[edging[k]].resistor > 0.0
  {
    hide Network.Valid, Grid.LineBetween, LineConductance;
    assert CrossesBorder(net, edging[k]);
    var a, b :| CrossesAt(net, a, b, edging[k]);
    CoupledPair(net, a, b);
    ConductanceOf(net, edging, k);
  }

  lemma ConductanceOf(net: Network, edging: seq<string>, k: int)
    requires 0 <= k < |edging| && edging[k] in net.g.lines && net.g.lines[edging[k]].resistor > 0.0
    ensures LineConductance(net, edging)(k) == 1.0 / net.g.lines[edging[k]].resistor > 0.0
  {}

  /** The conductances of the edging lines, on the diagonal of y_L. */
  method FillLineConductances(net: Network, edging: seq<string>) returns (y_L: array2<real>)
    requires net.Valid() && ListsEdging(net, edging)
    ensures fresh(y_L) && y_L.Length0 == y_L.Length1 == |edging|
    ensures forall k, l :: 0 <= k < |edging| && 0 <= l < |edging|
              ==> y_L[k, l] == if k == l then LineConductance(net, edging)(k) else 0.0
    ensures forall k :: 0 <= k < |edging| ==> LineConductance(net, edging)(k) > 0.0
  {
    hide *;
    var L := |edging|;
    y_L := ZeroMatrix(L, L);
    for i := 0 to L
      invariant forall k, l :: 0 <= k < L && 0 <= l < L
                  ==> y_L[k, l] == if k == l && k < i then LineConductance(net, edging)(k) else 0.0
      invariant forall k :: 0 <= k < i ==> LineConductance(net, edging)(k) > 0.0
    {
      EdgeEnds(net, edging, i);
      y_L[i, i] := 1.0 / net.g.lines[edging[i]].resistor;
    }
  }

  /** The incidence of the ends of the edging lines. */
  method FillIncidence(net: Network, idx: map<string, int>, edging: seq<string>) returns (N: array2<real>)
    requires net.Valid() && ListsEdging(net, edging)
    requires forall i {:trigger net.order[i]} :: 0 <= i < |net.order| ==> net.order[i] in idx && idx[net.order[i]] == i
    ensures fresh(N) && N.Length0 == |net.order| && N.Length1 == |edging|
    ensures forall i, k :: 0 <= i < |net.order| && 0 <= k < |edging| ==> N[i, k] == Incidence(net, edging)(i, k)
  {
    hide *;
    var L, n := |edging|, |net.order|;
    NeighborsDistinct(net);
    N := ZeroMatrix(n, L);
    for k := 0 to L
      invariant forall i, l :: 0 <= i < n && 0 <= l < L
                  ==> N[i, l] == if l < k then Incidence(net, edging)(i, l) else 0.0
    {
      EdgeEnds(net, edging, k);
      var line := net.g.lines[edging[k]];
      EndIndexes(net, idx, edging, k);
      N[idx[line.lpeer], k] := 1.0;
      N[idx[line.rpeer], k] := 1.0;
    }
  }

  lemma NeighborsDistinct(net: Network)
    requires net.Valid()
    ensures Distinct(net.order)
  {}

  lemma EndIndexes(net: Network, idx: map<string, int>, edging: seq<string>, k: int)
    requires Distinct(net.order) && 0 <= k < |edging| && edging[k] in net.g.lines
    requires net.g.lines[edging[k]].lpeer in net.order && net.g.lines[edging[k]].rpeer in net.order
    requires forall i {:trigger net.order[i]} :: 0 <= i < |net.order| ==> net.order[i] in idx && idx[net.order[i]] == i
    ensures var line := net.g.lines[edging[k]];
            line.lpeer in idx && line.rpeer in idx && 0 <= idx[line.lpeer] < |net.order|
              && 0 <= idx[line.rpeer] < |net.order|
    ensures var line := net.g.lines[edging[k]];
            forall i :: 0 <= i < |net.order|
              ==> Incidence(net, edging)(i, k) == if i == idx[line.lpeer] || i == idx[line.rpeer] then 1.0 else 0.0
  {
    var line := net.g.lines[edging[k]];
    var a :| 0 <= a < |net.order| && net.order[a] == line.lpeer;
    var b :| 0 <= b < |net.order| && net.order[b] == line.rpeer;
    forall i | 0 <= i < |net.order|
      ensures Incidence(net, edging)(i, k) == if i == a || i == b then 1.0 else 0.0
    {
      SameIndex(net.order, i, a);
      SameIndex(net.order, i, b);
      assert line.IsPeer(net.order[i]) <==> i == a || i == b;
    }
  }
}
