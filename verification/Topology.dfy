/** Adjacency lists, coloured depth-first search and connected components. */
module Topology {
  import opened Sequences
  import opened Grids

  type AdjList = map<string, seq<string>>

  datatype Color = White | Grey | Black | Green

  /** Every neighbour is itself a known interface. */
  ghost predicate Closed(adj: AdjList) {
    forall p, q :: p in adj && q in adj[p] ==> q in adj
  }

  ghost predicate SymmetricAdj(adj: AdjList) {
    forall p, q :: p in adj && q in adj[p] ==> q in adj && p in adj[q]
  }

  /** A path of adjacent interfaces inside the set s. */
  ghost predicate IsPath(adj: AdjList, s: set<string>, w: seq<string>) {
    && |w| > 0
    && (forall k :: 0 <= k < |w| ==> w[k] in s && w[k] in adj)
    && (forall i, j :: 0 <= i && j == i + 1 < |w| ==> w[j] in adj[w[i]])
  }

  ghost predicate ReachableIn(adj: AdjList, s: set<string>, p: string, q: string) {
    exists w :: IsPath(adj, s, w) && w[0] == p && w[|w| - 1] == q
  }

  ghost predicate Reachable(adj: AdjList, p: string, q: string) {
    ReachableIn(adj, adj.Keys, p, q)
  }

  function Whites(color: map<string, Color>): set<string> {
    set p | p in color && color[p] == White
  }

  // ----- paths -----

  lemma ReachableSelf(adj: AdjList, s: set<string>, p: string)
    requires p in s && p in adj
    ensures ReachableIn(adj, s, p, p)
  {
    assert IsPath(adj, s, [p]);
  }

  lemma ReachableStep(adj: AdjList, s: set<string>, p: string, q: string, r: string)
    requires q in adj && r in adj[q] && r in s && r in adj
    requires ReachableIn(adj, s, p, q)
    ensures ReachableIn(adj, s, p, r)
  {
    var w :| IsPath(adj, s, w) && w[0] == p && w[|w| - 1] == q;
    assert IsPath(adj, s, w + [r]);
  }

  lemma {:induction false} ReachableTransitive(adj: AdjList, s: set<string>, p: string, q: string, r: string)
    requires ReachableIn(adj, s, p, q) && ReachableIn(adj, s, q, r)
    ensures ReachableIn(adj, s, p, r)
  {
    var v :| IsPath(adj, s, v) && v[0] == p && v[|v| - 1] == q;
    var w :| IsPath(adj, s, w) && w[0] == q && w[|w| - 1] == r;
    var u := v + w[1..];
    forall i, j | 0 <= i && j == i + 1 < |u| ensures u[j] in adj[u[i]] {
      if j < |v| {
        assert v[j] in adj[v[i]];
      } else {
        var a, b := i - |v| + 1, j - |v| + 1;
        assert u[i] == w[a] && u[j] == w[b];
      }
    }
    assert IsPath(adj, s, u);
  }

  lemma {:induction false} ReachableSymmetric(adj: AdjList, s: set<string>, p: string, q: string)
    requires SymmetricAdj(adj) && ReachableIn(adj, s, p, q)
    ensures ReachableIn(adj, s, q, p)
  {
    var w :| IsPath(adj, s, w) && w[0] == p && w[|w| - 1] == q;
    var r := Reverse(w);
    forall i, j | 0 <= i && j == i + 1 < |r| ensures r[j] in adj[r[i]] {
      var a, b := |w| - 1 - j, |w| - 1 - i;
      assert w[b] in adj[w[a]];
    }
    assert IsPath(adj, s, r);
  }

  /** A larger set allows every path of a smaller one. */
  lemma ReachableMonotone(adj: AdjList, s: set<string>, t: set<string>, p: string, q: string)
    requires s <= t && ReachableIn(adj, s, p, q)
    ensures ReachableIn(adj, t, p, q)
  {
    var w :| IsPath(adj, s, w) && w[0] == p && w[|w| - 1] == q;
    assert IsPath(adj, t, w);
  }

  /** A set that contains the start and every neighbour inside s of its members contains
      everything reachable inside s. */
  lemma {:induction false} ClosedContainsPath(adj: AdjList, s: set<string>, t: set<string>, w: seq<string>, k: nat)
    requires IsPath(adj, s, w) && k < |w| && w[0] in t
    requires forall p, q :: p in t && p in adj && q in adj[p] && q in s ==> q in t
    ensures w[k] in t
  {
    if k > 0 {
      ClosedContainsPath(adj, s, t, w, k - 1);
      var i := k - 1;
      assert w[k] in adj[w[i]];
    }
  }

  lemma ClosedContainsReachable(adj: AdjList, s: set<string>, t: set<string>, p: string, q: string)
    requires p in t && ReachableIn(adj, s, p, q)
    requires forall p, q :: p in t && p in adj && q in adj[p] && q in s ==> q in t
    ensures q in t
  {
    var w :| IsPath(adj, s, w) && w[0] == p && w[|w| - 1] == q;
    ClosedContainsPath(adj, s, t, w, |w| - 1);
  }

  /** The components found: they cover all interfaces, share none, and two interfaces are in
      one component exactly when a path connects them. */
  ghost predicate IsPartition(adj: AdjList, components: seq<seq<string>>) {
    && Covers(adj, components, adj.Keys)
    && ConnectedClasses(adj, components)
  }

  ghost predicate Covers(adj: AdjList, components: seq<seq<string>>, s: set<string>) {
    forall p :: p in s ==> exists k :: 0 <= k < |components| && p in components[k]
  }

  ghost predicate ConnectedClasses(adj: AdjList, components: seq<seq<string>>) {
    && (forall k :: 0 <= k < |components| ==> components[k] != [] && Distinct(components[k]))
    && (forall k, p, q :: 0 <= k < |components| && p in components[k]
                          ==> p in adj && (q in components[k] <==> Reachable(adj, p, q)))
    && (forall j, k, p :: 0 <= j < k < |components| && p in components[j] ==> p !in components[k])
  }

  lemma NodeFacts(g: Grid, pi: string)
    requires g.NodesValid() && pi in g.nodeOf
    ensures g.nodeOf[pi] in g.nodes && |pi| > 0 && forall q :: q in g.NodeAt(pi).interfaces ==> |q| > 0
  {
    EndsAreNamed(g, pi);
  }

  lemma OrderFacts(g: Grid)
    requires g.NodesValid()
    ensures Distinct(g.piOrder) && forall p :: p in g.piOrder <==> p in g.nodeOf
  {}

  lemma LineFacts(g: Grid)
    requires g.LinesValid()
    ensures forall l :: l in g.lineOrder ==> l in g.lines
  {}

  class PowerSimulator {
    const grid: Grid
    var adj_list: AdjList
    var color: map<string, Color>
    var connected_components: seq<seq<string>>

    constructor (g: Grid)
      ensures grid == g && adj_list == map[] && connected_components == []
      ensures color == map p | p in g.nodeOf :: White
    {
      grid := g;
      adj_list := map[];
      color := map p | p in g.nodeOf :: White;
      connected_components := [];
    }

    /** The adjacency lists of a grid, for the interfaces in keys. */
    ghost predicate ListsAdjacency(adj: AdjList, keys: set<string>)
      requires grid.Valid()
    {
      adj.Keys == keys && forall p :: p in adj ==> p in grid.nodeOf && adj[p] == grid.Adjacency(p)
    }

    method CreateAdjList()
      requires grid.Valid() && adj_list == map[]
      modifies this`adj_list
      ensures ListsAdjacency(adj_list, grid.nodeOf.Keys)
      ensures SymmetricAdj(adj_list) && Closed(adj_list) && FollowsFlagsAndLines(adj_list)
    {
      hide FollowsFlagsAndLines, Grid.Adjacency, Grid.NodesValid, Grid.LinesValid;
      OrderFacts(grid);
      for i := 0 to |grid.piOrder|
        invariant ListsAdjacency(adj_list, set k | 0 <= k < i :: grid.piOrder[k])
      {
        var pi := grid.piOrder[i];
        var neighbors := FindNeighbors(pi);
        adj_list := adj_list[pi := neighbors];
      }
      AdjacencyListsSymmetric(adj_list);
      ListsFollow(adj_list);
    }

    /** The neighbours are those that the lines and the flags of the nodes make neighbours. */
    ghost predicate FollowsFlagsAndLines(adj: AdjList) {
      forall p, q :: p in adj ==> (q in adj[p] <==> WiredOrJoined(grid, p, q))
    }

    lemma ListsFollow(adj: AdjList)
      requires grid.Valid() && ListsAdjacency(adj, grid.nodeOf.Keys)
      ensures FollowsFlagsAndLines(adj)
    {
      hide Grid.Adjacency, Grid.NodesValid, Grid.LinesValid, WiredOrJoined;
      forall p, q | p in adj ensures q in adj[p] <==> WiredOrJoined(grid, p, q) {
        AdjacentByFlagOrLine(grid, p, q);
      }
    }

    lemma AdjacencyListsSymmetric(adj: AdjList)
      requires grid.Valid() && ListsAdjacency(adj, grid.nodeOf.Keys)
      ensures SymmetricAdj(adj) && Closed(adj)
    {
      hide Grid.Adjacency, Grid.NodesValid, Grid.LinesValid;
      forall p, q | p in adj && q in adj[p]
        ensures q in adj && p in adj[q]
      {
        AdjacencySymmetric(grid, p, q);
      }
    }

    /** The neighbours of one interface: inside its node first, then along the lines. */
    method FindNeighbors(pi: string) returns (neighbors: seq<string>)
      requires grid.Valid() && pi in grid.nodeOf
      ensures neighbors == grid.Adjacency(pi)
    {
      hide Node.NeighborsWithin, Node.WellNamed, Grid.NodesValid, Grid.LinesValid;
      NodeFacts(grid, pi);
      LineFacts(grid);
      neighbors := PiNeighbors(grid.NodeAt(pi), pi);
      for j := 0 to |grid.lineOrder|
        invariant neighbors == grid.NodeAt(pi).NeighborsWithin(pi) + grid.LineNeighbors(pi, j)
      {
        var s := grid.lines[grid.lineOrder[j]].OtherPeer(pi);
        if s != "" {
          neighbors := neighbors + [s];
        }
      }
    }

    /** Blackens exactly the interfaces that p reaches through white ones. */
    method DfsVisit(p: string)
      requires Closed(adj_list) && color.Keys == adj_list.Keys
      requires p in color && color[p] == White
      modifies this`color
      ensures color.Keys == old(color.Keys) && Visited(adj_list, old(color), color, p)
      decreases Whites(color)
    {
      hide Visiting, Visited;
      ghost var start := color;
      color := color[p := Grey];
      VisitBegins(adj_list, start, p);
      for i := 0 to |adj_list[p]|
        invariant Visiting(adj_list, start, color, p)
        invariant color.Keys == adj_list.Keys
        invariant forall k :: 0 <= k < i ==> color[adj_list[p][k]] != White
      {
        var neighbor := adj_list[p][i];
        VisitKeys(adj_list, start, color, p);
        if color[neighbor] == White {
          ghost var before := color;
          VisitShrinks(adj_list, start, color, p);
          DfsVisit(neighbor);
          VisitExtends(adj_list, start, before, color, p, neighbor);
        }
      }
      ghost var last := color;
      VisitKeys(adj_list, start, color, p);
      color := color[p := Black];
      VisitCompletes(adj_list, start, last, color, p);
    }

    method FindConnectedComponents()
      requires SymmetricAdj(adj_list) && color.Keys == adj_list.Keys
      requires Lists(grid.piOrder, adj_list.Keys)
      requires connected_components == []
      modifies this`color, this`connected_components
      ensures IsPartition(adj_list, connected_components)
    {
      hide *;
      ListedAreKeys(grid.piOrder, adj_list.Keys);
      for i := 0 to |grid.piOrder|
        invariant color.Keys == adj_list.Keys && connected_components == []
        invariant forall k :: 0 <= k < i ==> color[grid.piOrder[k]] == White
      {
        color := color[grid.piOrder[i] := White];
      }
      EmptyIsConnected(adj_list, connected_components);
      CollectedAtStart(adj_list, color, connected_components, grid.piOrder);
      NoneGreen(color, grid.piOrder);
      for i := 0 to |grid.piOrder|
        invariant Collected(adj_list, color, connected_components)
        invariant color.Keys == adj_list.Keys && GreenUpTo(color, grid.piOrder, i)
      {
        ghost var before := color;
        CollectFrom(grid.piOrder[i]);
        GreenNext(before, color, grid.piOrder, i);
      }
      CollectedAll(adj_list, color, connected_components, grid.piOrder);
    }

    /** One round of the search: the component of pi, unless it has been collected before. */
    method CollectFrom(pi: string)
      requires SymmetricAdj(adj_list) && Lists(grid.piOrder, adj_list.Keys) && pi in adj_list
      requires Collected(adj_list, color, connected_components) && color.Keys == adj_list.Keys
      modifies this`color, this`connected_components
      ensures Collected(adj_list, color, connected_components) && color.Keys == adj_list.Keys && color[pi] == Green
      ensures forall q :: q in old(color) && old(color)[q] == Green ==> color[q] == Green
    {
      hide *;
      ghost var before := color;
      SymmetricIsClosed(adj_list);
      if color[pi] == White {
        DfsVisit(pi);
      }
      ghost var visited := color;
      var connected_component := CollectBlackOnes();
      CollectBlack(adj_list, grid.piOrder, before, visited, color, connected_components, pi);
      if connected_component != [] {
        connected_components := connected_components + [connected_component];
      }
    }

    /** Turns the black interfaces green and returns them in order. */
    method CollectBlackOnes() returns (connected_component: seq<string>)
      requires Lists(grid.piOrder, color.Keys)
      modifies this`color
      ensures connected_component == BlackOnes(grid.piOrder, old(color), |grid.piOrder|)
      ensures color.Keys == old(color.Keys)
      ensures forall p :: p in color ==> color[p] == if p in connected_component then Green else old(color[p])
    {
      ListedAreKeys(grid.piOrder, color.Keys);
      hide Lists;
      connected_component := [];
      for j := 0 to |grid.piOrder|
        invariant color.Keys == old(color.Keys)
        invariant connected_component == BlackOnes(grid.piOrder, old(color), j)
        invariant forall p :: p in color ==> color[p] == if p in connected_component then Green else old(color[p])
      {
        var p := grid.piOrder[j];
        NotYetCollected(grid.piOrder, old(color), j);
        if color[p] == Black {
          connected_component := connected_component + [p];
          color := color[p := Green];
        }
      }
    }

    /** The index of the first component that contains the interface, or -1. */
    method FindComponent(pi: string) returns (index: int)
      ensures -1 <= index < |connected_components|
      ensures index >= 0 ==> pi in connected_components[index]
      ensures forall k :: 0 <= k < (if index < 0 then |connected_components| else index)
                ==> pi !in connected_components[k]
    {
      for i := 0 to |connected_components|
        invariant forall k :: 0 <= k < i ==> pi !in connected_components[k]
      {
        for j := 0 to |connected_components[i]|
          invariant pi !in connected_components[i][..j]
        {
          if pi == connected_components[i][j] {
            return i;
          }
        }
      }
      return -1;
    }
  }

  /** The black interfaces among the first k of the order. */
  function BlackOnes(order: seq<string>, color: map<string, Color>, k: nat): (s: seq<string>)
    requires k <= |order| && forall p :: p in order ==> p in color
  {
    if k == 0 then []
    else BlackOnes(order, color, k - 1) + if color[order[k - 1]] == Black then [order[k - 1]] else []
  }

  lemma {:induction false} InBlackOnes(order: seq<string>, color: map<string, Color>, k: nat)
    requires k <= |order| && forall p :: p in order ==> p in color
    ensures forall p :: p in BlackOnes(order, color, k) ==> p in color && color[p] == Black
    ensures forall p :: p in BlackOnes(order, color, k) ==> exists i :: 0 <= i < k && order[i] == p
    ensures forall i :: 0 <= i < k && color[order[i]] == Black ==> order[i] in BlackOnes(order, color, k)
  {
    if k > 0 {
      InBlackOnes(order, color, k - 1);
    }
  }

  lemma {:induction false} BlackOnesDistinct(order: seq<string>, color: map<string, Color>, k: nat)
    requires k <= |order| && (forall p :: p in order ==> p in color) && Distinct(order)
    ensures Distinct(BlackOnes(order, color, k))
  {
    if k > 0 {
      BlackOnesDistinct(order, color, k - 1);
      InBlackOnes(order, color, k - 1);
      var s := BlackOnes(order, color, k - 1);
      forall i | 0 <= i < |s| ensures s[i] != order[k - 1] { assert s[i] in s; }
    }
  }

  lemma {:induction false} NoBlackNothing(order: seq<string>, color: map<string, Color>, k: nat)
    requires k <= |order| && forall p :: p in order ==> p in color
    requires forall p :: p in color ==> color[p] != Black
    ensures BlackOnes(order, color, k) == []
  {
    if k > 0 {
      NoBlackNothing(order, color, k - 1);
    }
  }

  lemma NotYetCollected(order: seq<string>, color: map<string, Color>, k: nat)
    requires k < |order| && Lists(order, color.Keys)
    ensures order[k] !in BlackOnes(order, color, k)
  {
    InBlackOnes(order, color, k);
  }

  /** Between two searches every interface is white or green, and the green ones are those
      of the components collected so far. */
  ghost predicate Collected(adj: AdjList, color: map<string, Color>, components: seq<seq<string>>) {
    && color.Keys == adj.Keys
    && (forall p :: p in color ==> color[p] == White || color[p] == Green)
    && (forall p :: p in color ==> (color[p] == Green <==> exists k :: 0 <= k < |components| && p in components[k]))
    && ConnectedClasses(adj, components)
  }

  /** After the visit exactly the interfaces reachable through white ones are black. */
  ghost predicate Visited(adj: AdjList, start: map<string, Color>, now: map<string, Color>, p: string) {
    && now.Keys == start.Keys
    && forall q :: q in now ==> now[q] == if ReachableIn(adj, Whites(start), p, q) then Black else start[q]
  }

  /** The invariant while p is grey: what has changed is black, was reached through white
      interfaces, and has no white neighbour left. */
  ghost predicate Visiting(adj: AdjList, start: map<string, Color>, now: map<string, Color>, p: string) {
    && now.Keys == start.Keys == adj.Keys && p in now && now[p] == Grey
    && (forall q :: q in now && q != p ==> now[q] == start[q] || (start[q] == White && now[q] == Black))
    && (forall q :: q in now && now[q] != start[q] ==> ReachableIn(adj, Whites(start), p, q))
    && (forall q, r :: q in now && q != p && now[q] != start[q] && r in adj[q] && r in now ==> now[r] != White)
  }

  lemma VisitBegins(adj: AdjList, start: map<string, Color>, p: string)
    requires start.Keys == adj.Keys && p in start && start[p] == White
    ensures Visiting(adj, start, start[p := Grey], p)
  {
    ReachableSelf(adj, Whites(start), p);
  }

  /** The colours that remain to be visited become fewer, which bounds the recursion. */
  lemma VisitShrinks(adj: AdjList, start: map<string, Color>, now: map<string, Color>, p: string)
    requires Visiting(adj, start, now, p) && start[p] == White
    ensures Whites(now) < Whites(start)
  {
    assert p in Whites(start) && p !in Whites(now);
  }

  lemma VisitKeys(adj: AdjList, start: map<string, Color>, now: map<string, Color>, p: string)
    requires Visiting(adj, start, now, p)
    ensures now.Keys == adj.Keys && p in now
  {}

  lemma {:induction false} VisitExtends(adj: AdjList, start: map<string, Color>, before: map<string, Color>,
                                        after: map<string, Color>, p: string, neighbor: string)
    requires Visiting(adj, start, before, p) && start[p] == White && Closed(adj)
    requires neighbor in adj[p] && before[neighbor] == White && Visited(adj, before, after, neighbor)
    ensures Visiting(adj, start, after, p) && after[neighbor] != White
    ensures forall q :: q in before && before[q] != White ==> after[q] == before[q]
  {
    var s, w := Whites(start), Whites(before);
    ReachableSelf(adj, w, neighbor);
    ReachableSelf(adj, s, p);
    ReachableStep(adj, s, p, p, neighbor);
    forall q | q in before && ReachableIn(adj, w, neighbor, q)
      ensures q in w && ReachableIn(adj, s, p, q)
      ensures forall r :: r in adj[q] ==> after[r] != White
    {
      var path :| IsPath(adj, w, path) && path[0] == neighbor && path[|path| - 1] == q;
      assert path[|path| - 1] in w;
      ReachableMonotone(adj, w, s, neighbor, q);
      ReachableTransitive(adj, s, p, neighbor, q);
      forall r | r in adj[q] ensures after[r] != White {
        if before[r] == White {
          ReachableStep(adj, w, neighbor, q, r);
        }
      }
    }
  }

  lemma {:induction false} VisitCompletes(adj: AdjList, start: map<string, Color>, last: map<string, Color>,
                                          after: map<string, Color>, p: string)
    requires Visiting(adj, start, last, p) && start[p] == White && Closed(adj)
    requires forall k :: 0 <= k < |adj[p]| ==> last[adj[p][k]] != White
    requires after == last[p := Black]
    ensures Visited(adj, start, after, p)
  {
    var s := Whites(start);
    var visited := set r | r in s && after[r] != White;
    forall q | q in after && ReachableIn(adj, s, p, q) ensures after[q] == Black {
      ClosedContainsReachable(adj, s, visited, p, q);
    }
  }

  lemma ListedAreKeys(order: seq<string>, keys: set<string>)
    requires Lists(order, keys)
    ensures forall k :: 0 <= k < |order| ==> order[k] in keys
  {}

  lemma SymmetricIsClosed(adj: AdjList)
    requires SymmetricAdj(adj)
    ensures Closed(adj)
  {}

  /** The first i interfaces have been collected. */
  ghost predicate GreenUpTo(color: map<string, Color>, order: seq<string>, i: int) {
    forall k :: 0 <= k < i && k < |order| ==> order[k] in color && color[order[k]] == Green
  }

  lemma NoneGreen(color: map<string, Color>, order: seq<string>)
    ensures GreenUpTo(color, order, 0)
  {}

  lemma GreenNext(before: map<string, Color>, after: map<string, Color>, order: seq<string>, i: int)
    requires GreenUpTo(before, order, i) && 0 <= i < |order| && after.Keys == before.Keys
    requires order[i] in after && after[order[i]] == Green
    requires forall q :: q in before && before[q] == Green ==> after[q] == Green
    ensures GreenUpTo(after, order, i + 1)
  {}

  lemma CollectedAtStart(adj: AdjList, color: map<string, Color>, components: seq<seq<string>>, order: seq<string>)
    requires color.Keys == adj.Keys && components == [] && ConnectedClasses(adj, components) && Lists(order, adj.Keys)
    requires forall k :: 0 <= k < |order| ==> order[k] in color && color[order[k]] == White
    ensures Collected(adj, color, components)
  {}

  lemma CollectedAll(adj: AdjList, color: map<string, Color>, components: seq<seq<string>>, order: seq<string>)
    requires Collected(adj, color, components) && Lists(order, adj.Keys)
    requires GreenUpTo(color, order, |order|)
    ensures IsPartition(adj, components)
  {}

  lemma EmptyIsConnected(adj: AdjList, components: seq<seq<string>>)
    requires components == []
    ensures ConnectedClasses(adj, components)
  {}

  /** A search from a white interface finds exactly its class: no path enters a component
      collected earlier. */
  lemma {:induction false} VisitIsClass(adj: AdjList, color: map<string, Color>, components: seq<seq<string>>,
                                        p: string, q: string)
    requires SymmetricAdj(adj) && Collected(adj, color, components)
    requires p in color && color[p] == White
    ensures ReachableIn(adj, Whites(color), p, q) <==> Reachable(adj, p, q)
  {
    var w := Whites(color);
    if Reachable(adj, p, q) {
      var t := set r | r in color && color[r] == White && ReachableIn(adj, w, p, r);
      ReachableSelf(adj, w, p);
      forall a, b | a in t && a in adj && b in adj[a] && b in adj.Keys
        ensures b in t
      {
        if color[b] == Green {
          var k :| 0 <= k < |components| && b in components[k];
          assert a in adj[b];
          ReachableSelf(adj, adj.Keys, b);
          ReachableStep(adj, adj.Keys, b, b, a);
        } else {
          ReachableStep(adj, w, p, a, b);
        }
      }
      ClosedContainsReachable(adj, adj.Keys, t, p, q);
    }
    if ReachableIn(adj, w, p, q) {
      ReachableMonotone(adj, w, adj.Keys, p, q);
    }
  }

  /** Collecting the black interfaces of one search adds the class of its start. */
  lemma {:induction false} CollectBlack(adj: AdjList, order: seq<string>, before: map<string, Color>,
                                        visited: map<string, Color>, after: map<string, Color>,
                                        components: seq<seq<string>>, p: string)
    requires SymmetricAdj(adj) && Collected(adj, before, components) && Lists(order, adj.Keys) && p in adj
    requires if before[p] == White then Visited(adj, before, visited, p) else visited == before
    requires after.Keys == adj.Keys == visited.Keys
    requires forall q :: q in after
               ==> after[q] == if q in BlackOnes(order, visited, |order|) then Green else visited[q]
    ensures var c := BlackOnes(order, visited, |order|);
            Collected(adj, after, if c == [] then components else components + [c])
    ensures after[p] == Green
    ensures forall q :: q in before && before[q] == Green ==> after[q] == Green
  {
    hide ConnectedClasses, SymmetricAdj, ReachableIn;
    var c := BlackOnes(order, visited, |order|);
    InBlackOnes(order, visited, |order|);
    BlackOnesDistinct(order, visited, |order|);
    if before[p] == White {
      BlackOnesReached(adj, order, before, visited, p);
      BlackIsClass(adj, before, components, p, c);
      ClassAdded(adj, components, c, p);
      GreenAdded(adj, before, after, components, c);
    } else {
      NoBlackNothing(order, visited, |order|);
    }
  }

  lemma BlackOnesReached(adj: AdjList, order: seq<string>, before: map<string, Color>, visited: map<string, Color>,
                         p: string)
    requires before.Keys == adj.Keys && Lists(order, adj.Keys) && Visited(adj, before, visited, p)
    requires forall q :: q in before ==> before[q] != Black
    ensures forall q :: q in BlackOnes(order, visited, |order|) <==> q in adj && ReachableIn(adj, Whites(before), p, q)
  {
    hide ReachableIn;
    InBlackOnes(order, visited, |order|);
    forall q | q in adj && ReachableIn(adj, Whites(before), p, q)
      ensures q in BlackOnes(order, visited, |order|)
    {
      assert q in order;
    }
  }

  lemma BlackIsClass(adj: AdjList, before: map<string, Color>, components: seq<seq<string>>, p: string, c: seq<string>)
    requires SymmetricAdj(adj) && Collected(adj, before, components) && p in before && before[p] == White
    requires forall q :: q in c <==> q in adj && ReachableIn(adj, Whites(before), p, q)
    ensures p in c && forall q :: q in c <==> Reachable(adj, p, q)
    ensures forall q :: q in c ==> before[q] == White
  {
    hide ConnectedClasses, SymmetricAdj;
    ReachableSelf(adj, Whites(before), p);
    forall q ensures q in c <==> Reachable(adj, p, q) {
      VisitIsClass(adj, before, components, p, q);
      ReachableIsKnown(adj, p, q);
    }
    forall q | q in c ensures before[q] == White {
      var w :| IsPath(adj, Whites(before), w) && w[0] == p && w[|w| - 1] == q;
      assert w[|w| - 1] in Whites(before);
    }
  }

  lemma GreenAdded(adj: AdjList, before: map<string, Color>, after: map<string, Color>, components: seq<seq<string>>,
                   c: seq<string>)
    requires Collected(adj, before, components) && ConnectedClasses(adj, components + [c])
    requires after.Keys == adj.Keys
    requires forall q :: q in after ==> after[q] == if q in c then Green else before[q]
    ensures Collected(adj, after, components + [c])
  {
    hide ConnectedClasses;
    var all := components + [c];
    forall q | q in after
      ensures after[q] == Green <==> exists k :: 0 <= k < |all| && q in all[k]
    {
      if q in c {
        assert q in all[|components|];
      } else if k :| 0 <= k < |components| && q in components[k] {
        assert q in all[k];
      }
    }
  }

  lemma ReachableIsKnown(adj: AdjList, p: string, q: string)
    ensures Reachable(adj, p, q) ==> q in adj
  {
    if Reachable(adj, p, q) {
      var w :| IsPath(adj, adj.Keys, w) && w[0] == p && w[|w| - 1] == q;
      assert w[|w| - 1] in adj;
    }
  }

  lemma {:induction false} ClassAdded(adj: AdjList, components: seq<seq<string>>, c: seq<string>, p: string)
    requires SymmetricAdj(adj) && ConnectedClasses(adj, components) && Distinct(c) && p in c
    requires forall q :: q in c <==> Reachable(adj, p, q)
    requires forall k :: 0 <= k < |components| ==> p !in components[k]
    ensures ConnectedClasses(adj, components + [c])
  {
    forall q, r | q in c
      ensures q in adj && (r in c <==> Reachable(adj, q, r))
    {
      ReachableIsKnown(adj, p, q);
      ReachableSymmetric(adj, adj.Keys, p, q);
      if Reachable(adj, q, r) {
        ReachableTransitive(adj, adj.Keys, p, q, r);
      }
      if r in c {
        ReachableTransitive(adj, adj.Keys, q, p, r);
      }
    }
    forall k, q | 0 <= k < |components| && q in components[k]
      ensures q !in c
    {
      if q in c {
        ReachableSymmetric(adj, adj.Keys, p, q);
      }
    }
  }
}
