/** The parsed description of a power network: nodes with numbered power interfaces, the
    internal connections a switch makes between its interfaces, and the power lines. */
module Grids {
  import opened Sequences

  datatype Role = WindTurbine | SolarPanel | PowerPlant | Demander | Storage | Switch | Tunnel

  /** Any operation mode other than charging and discharging counts as standing. */
  datatype Mode = Charging | Discharging | Standing

  datatype PowerLine = PowerLine(lpeer: string, rpeer: string, resistor: real) {

    predicate IsPeer(pi: string) {
      pi == lpeer || pi == rpeer
    }

    /** The interface at the other end, or the empty string if pi is at neither end. */
    function OtherPeer(pi: string): string {
      if IsPeer(pi) then (if pi == lpeer then rpeer else lpeer) else ""
    }
  }

  /** C's atoi on a single character. */
  function DigitValue(c: char): (d: nat)
    ensures d < 10
  {
    if '0' <= c <= '9' then c as int - '0' as int else 0
  }

  function DigitChar(d: nat): char
    requires d < 10
  {
    (d + '0' as int) as char
  }

  function Pow2(k: nat): (p: nat)
    ensures p > 0
  {
    if k == 0 then 1 else 2 * Pow2(k - 1)
  }

  /** C's (flag >> k) % 2 == 1: false for every negative flag, since the shift keeps the
      sign and the remainder of a negative number is never 1. */
  predicate BitSet(flag: int, k: nat) {
    flag >= 0 && flag / Pow2(k) % 2 == 1
  }

  /** The bit of a switch's flag that joins two of its interfaces 1..6, lower index first. */
  function PairBit(i: nat, j: nat): (b: int)
    ensures -1 <= b < 15
  {
    match (i, j)
    case (1, 2) => 0
    case (1, 3) => 1
    case (1, 4) => 2
    case (1, 5) => 3
    case (1, 6) => 4
    case (2, 3) => 5
    case (2, 4) => 6
    case (2, 5) => 7
    case (2, 6) => 8
    case (3, 4) => 9
    case (3, 5) => 10
    case (3, 6) => 11
    case (4, 5) => 12
    case (4, 6) => 13
    case (5, 6) => 14
    case _ => -1
  }

  /** The flag of a switch whose k-th pair of interfaces, in the order (1, 2), (1, 3), ..., (5, 6), is
      joined if joined[k]: a binary number, lowest bit first. */
  function FlagOf(joined: seq<bool>): nat {
    if joined == [] then 0 else (if joined[0] then 1 else 0) + 2 * FlagOf(joined[1..])
  }

  datatype Node = Node(id: string, role: Role, flag: int, location: string, interfaces: seq<string>,
                       desired: real, mode: Mode) {

    predicate IsConnected(i: nat, j: nat) {
      var bit := if i > j then PairBit(j, i) else PairBit(i, j);
      bit >= 0 && BitSet(flag, bit)
    }

    function PiToIndex(pi: string): (d: nat)
      requires |pi| > 0
      ensures d < 10
    {
      DigitValue(pi[|pi| - 1])
    }

    function IndexToPi(d: nat): string
      requires d < 10
    {
      id + [DigitChar(d)]
    }

    predicate IsUsed(d: nat)
      requires d < 10
    {
      IndexToPi(d) in interfaces
    }

    /** The interfaces among candidates that the switch joins to pi, in order. */
    function JoinedTo(pi: string, candidates: seq<string>): seq<string>
      requires |pi| > 0 && forall q :: q in candidates ==> |q| > 0
    {
      if candidates == [] then []
      else
        var last := candidates[|candidates| - 1];
        JoinedTo(pi, candidates[..|candidates| - 1])
        + if last != pi && IsConnected(PiToIndex(pi), PiToIndex(last)) then [IndexToPi(PiToIndex(last))] else []
    }

    /** What the search for neighbours inside this node finds; nothing for an interface that
        is not named after the node or is not one of its interfaces. */
    function NeighborsWithin(pi: string): seq<string>
      requires |pi| > 0 && forall q :: q in interfaces ==> |q| > 0
    {
      if pi[..|pi| - 1] != id || !IsUsed(PiToIndex(pi)) then [] else JoinedTo(pi, interfaces)
    }

    /** Every interface is named after the node, with one digit. */
    predicate WellNamed() {
      forall q :: q in interfaces ==> |q| > 0 && q[..|q| - 1] == id && '0' <= q[|q| - 1] <= '9'
    }
  }

  method PiNeighbors(node: Node, pi: string) returns (neighbors: seq<string>)
    requires |pi| > 0 && forall q :: q in node.interfaces ==> |q| > 0
    ensures neighbors == node.NeighborsWithin(pi)
  {
    neighbors := [];
    if pi[..|pi| - 1] != node.id {
      return;
    }
    if !node.IsUsed(node.PiToIndex(pi)) {
      return;
    }
    for i := 0 to |node.interfaces|
      invariant neighbors == node.JoinedTo(pi, node.interfaces[..i])
    {
      assert node.interfaces[..i + 1][..i] == node.interfaces[..i];
      if node.interfaces[i] != pi {
        if node.IsConnected(node.PiToIndex(pi), node.PiToIndex(node.interfaces[i])) {
          neighbors := neighbors + [node.IndexToPi(node.PiToIndex(node.interfaces[i]))];
        }
      }
    }
    assert node.interfaces[..|node.interfaces|] == node.interfaces;
  }

  /** nodeOf maps every power interface to its node. The two orders list the keys of the
      ordered maps that the program iterates over. */
  datatype Grid = Grid(nodes: map<string, Node>, nodeOf: map<string, string>, lines: map<string, PowerLine>,
                       piOrder: seq<string>, lineOrder: seq<string>) {

    ghost predicate NodesValid() {
      && (forall p :: p in nodeOf ==> nodeOf[p] in nodes && p in nodes[nodeOf[p]].interfaces)
      && (forall id :: id in nodes ==> nodes[id].id == id && nodes[id].WellNamed())
      && (forall id, p :: id in nodes && p in nodes[id].interfaces ==> p in nodeOf && nodeOf[p] == id)
      && Lists(piOrder, nodeOf.Keys)
    }

    /** No line joins an interface to itself, and resistances are positive. */
    ghost predicate LinesValid() {
      && (forall l :: l in lines ==> lines[l].lpeer in nodeOf && lines[l].rpeer in nodeOf
                                     && lines[l].lpeer != lines[l].rpeer && lines[l].resistor > 0.0)
      && Lists(lineOrder, lines.Keys)
    }

    ghost predicate Valid() {
      NodesValid() && LinesValid()
    }

    function NodeAt(p: string): Node
      requires p in nodeOf && nodeOf[p] in nodes
    {
      nodes[nodeOf[p]]
    }

    function RoleAt(p: string): Role
      requires p in nodeOf && nodeOf[p] in nodes
    {
      NodeAt(p).role
    }

    /** The far ends of the first k lines that have an end at p. */
    function LineNeighbors(p: string, k: nat): seq<string>
      requires k <= |lineOrder| && forall l :: l in lineOrder ==> l in lines
    {
      if k == 0 then []
      else
        var q := lines[lineOrder[k - 1]].OtherPeer(p);
        LineNeighbors(p, k - 1) + if q != "" then [q] else []
    }

    /** The neighbours of p in the order in which the program finds them. */
    function Adjacency(p: string): seq<string>
      requires Valid() && p in nodeOf
    {
      NodeAt(p).NeighborsWithin(p) + LineNeighbors(p, |lineOrder|)
    }

    ghost predicate Adjacent(p: string, q: string)
      requires Valid()
    {
      p in nodeOf && q in Adjacency(p)
    }

    /** The last line among the first k with both interfaces at its ends, or "". */
    function LineBetween(p: string, q: string, k: nat): string
      requires k <= |lineOrder| && forall l :: l in lineOrder ==> l in lines
    {
      if k == 0 then ""
      else if lines[lineOrder[k - 1]].IsPeer(p) && lines[lineOrder[k - 1]].IsPeer(q) then lineOrder[k - 1]
      else LineBetween(p, q, k - 1)
    }
  }

  // ----- what the bits of a flag join -----

  lemma PairBitAt(i: nat, j: nat)
    ensures PairBit(i, j) == if 1 <= i < j <= 6 then (i - 1) * (12 - i) / 2 + j - i - 1 else -1
  {}

  lemma PowersOfTwo(k: nat)
    requires k < 15
    ensures Pow2(k) == [1, 2, 4, 8, 16, 32, 64, 128, 256, 512, 1024, 2048, 4096, 8192, 16384][k]
  {
    assert Pow2(2) == 4 && Pow2(4) == 16 && Pow2(6) == 64 && Pow2(8) == 256 && Pow2(10) == 1024 && Pow2(12) == 4096;
  }

  /** The pairs of interfaces 1..6 take the bits of the flag in order, and no other index is joined. */
  lemma ConnectedByFlag(n: Node, i: nat, j: nat)
    requires i <= j
    ensures n.IsConnected(i, j)
       <==> && 1 <= i < j <= 6 && n.flag >= 0
            && n.flag / [1, 2, 4, 8, 16, 32, 64, 128, 256, 512, 1024, 2048, 4096, 8192, 16384]
                        [(i - 1) * (12 - i) / 2 + j - i - 1] % 2 == 1
  {
    PairBitAt(i, j);
    hide PairBit, Pow2;
    if 1 <= i < j <= 6 {
      PowersOfTwo((i - 1) * (12 - i) / 2 + j - i - 1);
    }
  }

  lemma HalfPower(x: nat, k: nat)
    requires k > 0
    ensures x / Pow2(k) == x / 2 / Pow2(k - 1)
  {
    var p, r := Pow2(k - 1), x / 2 / Pow2(k - 1);
    assert Pow2(k) == 2 * p;
    hide Pow2;
    DividedTwice(x, p);
  }

  lemma DividedTwice(x: nat, p: nat)
    requires p > 0
    ensures x / (2 * p) == x / 2 / p
  {
    var h := x / 2;
    var r, m := h / p, h % p;
    assert h == p * r + m && x == 2 * h + x % 2;
    assert x == 2 * p * r + (2 * m + x % 2);
    QuotientIs(x, 2 * p, r, 2 * m + x % 2);
    assert 2 * p * r == (2 * p) * r;
  }

  lemma QuotientIs(x: nat, d: nat, q: nat, m: nat)
    requires d > 0 && x == d * q + m && m < d
    ensures x / d == q
  {
    var t: int := q - x / d;
    assert d * t == x % d - m;
    LargeTimes(d, t);
  }

  lemma LargeTimes(d: nat, t: int)
    ensures t >= 1 ==> d * t >= d
    ensures t <= -1 ==> d * t + d <= 0
  {}

  lemma {:induction false} FlagBit(joined: seq<bool>, k: nat)
    requires k < |joined|
    ensures BitSet(FlagOf(joined), k) <==> joined[k]
    decreases k
  {
    if k > 0 {
      FlagBit(joined[1..], k - 1);
      HalfPower(FlagOf(joined), k);
    }
  }

  // ----- adjacency is symmetric -----

  /** The name of an interface is recovered from its index. */
  lemma NameRecovered(node: Node, pi: string)
    requires node.WellNamed() && pi in node.interfaces
    ensures |pi| > 0 && pi[..|pi| - 1] == node.id && node.IndexToPi(node.PiToIndex(pi)) == pi
  {
    assert pi == pi[..|pi| - 1] + [pi[|pi| - 1]];
  }

  lemma {:induction false} InJoinedTo(node: Node, pi: string, candidates: seq<string>, q: string)
    requires node.WellNamed() && pi in node.interfaces
    requires forall c :: c in candidates ==> c in node.interfaces
    ensures q in node.JoinedTo(pi, candidates)
       <==> q in candidates && q != pi && node.IsConnected(node.PiToIndex(pi), node.PiToIndex(q))
  {
    hide Node.IsConnected, Node.PiToIndex, Node.IndexToPi;
    if candidates != [] {
      var n := |candidates| - 1;
      var last := candidates[n];
      InJoinedTo(node, pi, candidates[..n], q);
      assert candidates == candidates[..n] + [last];
      NameRecovered(node, last);
    }
  }

  lemma ConnectionSymmetric(node: Node, i: nat, j: nat)
    ensures node.IsConnected(i, j) <==> node.IsConnected(j, i)
  {}

  lemma {:induction false} InLineNeighbors(g: Grid, p: string, k: nat, q: string)
    requires k <= |g.lineOrder| && (forall l :: l in g.lineOrder ==> l in g.lines)
    ensures q in g.LineNeighbors(p, k)
       <==> q != "" && exists i :: 0 <= i < k && g.lines[g.lineOrder[i]].OtherPeer(p) == q
  {
    if k > 0 {
      InLineNeighbors(g, p, k - 1, q);
    }
  }

  lemma InNeighborsWithin(node: Node, p: string, q: string)
    requires node.WellNamed() && p in node.interfaces
    ensures q in node.NeighborsWithin(p)
       <==> q in node.interfaces && q != p && node.IsConnected(node.PiToIndex(p), node.PiToIndex(q))
  {
    hide Node.IsConnected, Node.PiToIndex, Node.IndexToPi;
    NameRecovered(node, p);
    InJoinedTo(node, p, node.interfaces, q);
  }

  ghost predicate LineJoins(g: Grid, p: string, q: string) {
    exists l :: l in g.lines && g.lines[l].IsPeer(p) && g.lines[l].IsPeer(q)
  }

  lemma {:induction false} InAllLineNeighbors(g: Grid, p: string, q: string)
    requires g.LinesValid() && p in g.nodeOf && "" !in g.nodeOf
    ensures q in g.LineNeighbors(p, |g.lineOrder|) <==> q != p && LineJoins(g, p, q)
  {
    InLineNeighbors(g, p, |g.lineOrder|, q);
    if q in g.LineNeighbors(p, |g.lineOrder|) {
      var i :| 0 <= i < |g.lineOrder| && g.lines[g.lineOrder[i]].OtherPeer(p) == q;
      assert g.lineOrder[i] in g.lines;
    }
    if l :| q != p && l in g.lines && g.lines[l].IsPeer(p) && g.lines[l].IsPeer(q) {
      assert l in g.lineOrder;
      var i :| 0 <= i < |g.lineOrder| && g.lineOrder[i] == l;
      assert g.lines[g.lineOrder[i]].OtherPeer(p) == q;
    }
  }

  lemma EndsAreNamed(g: Grid, p: string)
    requires g.NodesValid() && p in g.nodeOf
    ensures p != "" && g.NodeAt(p).WellNamed() && p in g.NodeAt(p).interfaces
  {}

  /** Two interfaces are adjacent when their switch joins them or a line runs between them. */
  lemma {:induction false} AdjacentIff(g: Grid, p: string, q: string)
    requires g.Valid() && p in g.nodeOf
    ensures g.Adjacent(p, q) <==>
              || (q in g.nodeOf && g.nodeOf[q] == g.nodeOf[p] && q != p
                  && g.NodeAt(p).IsConnected(g.NodeAt(p).PiToIndex(p), g.NodeAt(p).PiToIndex(q)))
              || (q != p && LineJoins(g, p, q))
  {
    hide Node.IsConnected, Node.PiToIndex, Node.NeighborsWithin, Node.WellNamed, LineJoins, Grid.LineNeighbors;
    EndsAreNamed(g, p);
    forall r | r in g.nodeOf ensures r != "" { EndsAreNamed(g, r); }
    InNeighborsWithin(g.NodeAt(p), p, q);
    InAllLineNeighbors(g, p, q);
  }

  /** Indices c and d of one switch are joined by a flag. */
  ghost predicate JoinedByFlag(flag: int, c: char, d: char) {
    var i, j := if c < d then c as int - '0' as int else d as int - '0' as int,
                if c < d then d as int - '0' as int else c as int - '0' as int;
    && 1 <= i < j <= 6 && flag >= 0
    && flag / [1, 2, 4, 8, 16, 32, 64, 128, 256, 512, 1024, 2048, 4096, 8192, 16384]
              [(i - 1) * (12 - i) / 2 + j - i - 1] % 2 == 1
  }

  /** Main result: a flag that was put together from a choice of pairs joins exactly these pairs. */
  lemma FlagJoins(joined: seq<bool>, c: char, d: char)
    requires |joined| == 15 && '1' <= c < d <= '6'
    ensures var i, j := c as int - '0' as int, d as int - '0' as int;
            JoinedByFlag(FlagOf(joined), c, d) <==> joined[(i - 1) * (12 - i) / 2 + j - i - 1]
    ensures JoinedByFlag(FlagOf(joined), d, c) <==> JoinedByFlag(FlagOf(joined), c, d)
  {
    var i, j := c as int - '0' as int, d as int - '0' as int;
    PairBitAt(i, j);
    var k := (i - 1) * (12 - i) / 2 + j - i - 1;
    FlagBit(joined, k);
    PowersOfTwo(k);
    hide Pow2, FlagOf;
  }

  /** A line has one of the interfaces at each end, or both belong to one node whose flag has the bit of
      their pair. */
  ghost predicate WiredOrJoined(g: Grid, p: string, q: string) {
    || (exists l :: l in g.lines && ((g.lines[l].lpeer == p && g.lines[l].rpeer == q)
                                     || (g.lines[l].lpeer == q && g.lines[l].rpeer == p)))
    || (p in g.nodeOf && q in g.nodeOf && g.nodeOf[p] == g.nodeOf[q] && g.nodeOf[p] in g.nodes && |p| > 0 && |q| > 0
        && JoinedByFlag(g.nodes[g.nodeOf[p]].flag, p[|p| - 1], q[|q| - 1]))
  }

  lemma IndexIsDigit(n: Node, p: string)
    requires n.WellNamed() && p in n.interfaces
    ensures |p| > 0 && '0' <= p[|p| - 1] <= '9' && n.PiToIndex(p) == p[|p| - 1] as int - '0' as int
  {}

  lemma JoinedIsConnected(n: Node, p: string, q: string)
    requires n.WellNamed() && p in n.interfaces && q in n.interfaces
    ensures |p| > 0 && |q| > 0
    ensures JoinedByFlag(n.flag, p[|p| - 1], q[|q| - 1]) <==> n.IsConnected(n.PiToIndex(p), n.PiToIndex(q))
  {
    IndexIsDigit(n, p);
    IndexIsDigit(n, q);
    hide Node.IsConnected, Node.PiToIndex, Node.WellNamed;
    var i, j := n.PiToIndex(p), n.PiToIndex(q);
    if i <= j { ConnectedByFlag(n, i, j); } else { ConnectedByFlag(n, j, i); }
    ConnectionSymmetric(n, i, j);
  }

  /** Main result: adjacency in terms of what the file format says. */
  lemma {:induction false} AdjacentByFlagOrLine(g: Grid, p: string, q: string)
    requires g.Valid() && p in g.nodeOf
    ensures g.Adjacent(p, q) <==> WiredOrJoined(g, p, q)
  {
    AdjacentIff(g, p, q);
    EndsAreNamed(g, p);
    EndsOfLine(g, p, q);
    hide Node.IsConnected, Node.PiToIndex, Node.WellNamed, JoinedByFlag, Grid.Adjacent, LineJoins;
    if q in g.nodeOf && g.nodeOf[p] == g.nodeOf[q] {
      EndsAreNamed(g, q);
      JoinedIsConnected(g.NodeAt(p), p, q);
      NotSelf(g.NodeAt(p), p);
    }
  }

  lemma EndsOfLine(g: Grid, p: string, q: string)
    requires g.LinesValid()
    ensures q != p && LineJoins(g, p, q)
       <==> exists l :: l in g.lines && ((g.lines[l].lpeer == p && g.lines[l].rpeer == q)
                                         || (g.lines[l].lpeer == q && g.lines[l].rpeer == p))
  {}

  lemma NotSelf(n: Node, p: string)
    requires |p| > 0
    ensures !n.IsConnected(n.PiToIndex(p), n.PiToIndex(p))
  {
    PairBitAt(n.PiToIndex(p), n.PiToIndex(p));
  }

  lemma {:induction false} AdjacencySymmetric(g: Grid, p: string, q: string)
    requires g.Valid() && g.Adjacent(p, q)
    ensures q in g.nodeOf && g.Adjacent(q, p) && p != q
  {
    hide Node.IsConnected, Node.PiToIndex, Node.WellNamed, Grid.Adjacency;
    AdjacentIff(g, p, q);
    EndsAreNamed(g, p);
    if q in g.nodeOf && g.nodeOf[q] == g.nodeOf[p] {
      EndsAreNamed(g, q);
      ConnectionSymmetric(g.NodeAt(p), g.NodeAt(p).PiToIndex(p), g.NodeAt(p).PiToIndex(q));
    }
    AdjacentIff(g, q, p);
  }

  /** find_power_line finds a line exactly when there is one, and the same one from both ends. */
  lemma {:induction false} LineBetweenFound(g: Grid, p: string, q: string, k: nat)
    requires k <= |g.lineOrder| && forall l :: l in g.lineOrder ==> l in g.lines
    requires "" !in g.lines
    ensures g.LineBetween(p, q, k) == g.LineBetween(q, p, k)
    ensures var l := g.LineBetween(p, q, k);
            if exists i :: 0 <= i < k && g.lines[g.lineOrder[i]].IsPeer(p) && g.lines[g.lineOrder[i]].IsPeer(q)
            then l in g.lines && g.lines[l].IsPeer(p) && g.lines[l].IsPeer(q)
            else l == ""
  {
    if k > 0 {
      LineBetweenFound(g, p, q, k - 1);
    }
  }

  /** Line i of the order has the two interfaces at its ends. */
  ghost predicate Between(g: Grid, p: string, q: string, i: int) {
    && 0 <= i < |g.lineOrder| && g.lineOrder[i] in g.lines
    && var l := g.lines[g.lineOrder[i]];
       (l.lpeer == p && l.rpeer == q) || (l.lpeer == q && l.rpeer == p)
  }

  /** The index of the line found, or -1. */
  lemma {:induction false} LineBetweenAt(g: Grid, p: string, q: string, k: nat) returns (i: int)
    requires k <= |g.lineOrder| && p != q && forall l :: l in g.lineOrder ==> l in g.lines
    ensures -1 <= i < k && (forall j :: i < j < k ==> !Between(g, p, q, j))
    ensures i >= 0 ==> Between(g, p, q, i)
    ensures g.LineBetween(p, q, k) == if i >= 0 then g.lineOrder[i] else ""
  {
    if k == 0 {
      i := -1;
    } else if g.lines[g.lineOrder[k - 1]].IsPeer(p) && g.lines[g.lineOrder[k - 1]].IsPeer(q) {
      i := k - 1;
    } else {
      i := LineBetweenAt(g, p, q, k - 1);
    }
  }

  /** Of all lines between two interfaces the one found is the last; none is found only if there is none. */
  lemma LineBetweenIsLast(g: Grid, p: string, q: string, i: int)
    requires p != q && forall l :: l in g.lineOrder ==> l in g.lines
    ensures Between(g, p, q, i) && (forall j :: i < j ==> !Between(g, p, q, j))
        ==> g.LineBetween(p, q, |g.lineOrder|) == g.lineOrder[i]
    ensures (forall j :: !Between(g, p, q, j)) ==> g.LineBetween(p, q, |g.lineOrder|) == ""
  {
    var k := LineBetweenAt(g, p, q, |g.lineOrder|);
    hide *;
  }
}
