/** What the coordinator knows about the hosts that take part in a federation, as a value:
    which hosts registered which boundary interfaces, at which indices, and with which
    corrections deltaX from the eliminated interior of each host. */
module Registries {
  import opened LinearAlgebra

  /** One line of a registration: a boundary interface, its diagonal entry in the host's own
      matrix, and the interface of another host to which it is to be tied. */
  datatype BoundaryLine = BoundaryLine(id: string, diagonal: real, partner: string)

  datatype Registration = Registration(lines: seq<BoundaryLine>, deltaX: seq<seq<real>>) {
    /** deltaX is square, and no interface is listed twice. */
    ghost predicate WellFormed() {
      && |lines| > 0 && |deltaX| == |lines| && DistinctIds(lines)
      && forall i :: 0 <= i < |deltaX| ==> |deltaX[i]| == |lines|
    }
  }

  datatype Load = Load(demands: real, supplies: real)

  /** lines[i] is the interface at index i, owners[i] the host that registered it; starts gives
      the index of each host's first interface. */
  datatype Registry = Registry(
    loads: map<string, Load>,
    members: map<string, Registration>,
    starts: map<string, nat>,
    lines: seq<BoundaryLine>,
    owners: seq<string>)

  const NO_REGISTRY := Registry(map[], map[], map[], [], [])

  ghost predicate DistinctIds(lines: seq<BoundaryLine>) {
    forall k, l :: 0 <= k < l < |lines| ==> lines[k].id != lines[l].id
  }

  predicate Listed(lines: seq<BoundaryLine>, p: string) {
    exists k :: 0 <= k < |lines| && lines[k].id == p
  }

  /** Tie partners name each other, and nobody is his own partner. */
  ghost predicate Mutual(lines: seq<BoundaryLine>) {
    forall i, j :: 0 <= i < |lines| && 0 <= j < |lines| && lines[i].partner == lines[j].id
      ==> i != j && lines[j].partner == lines[i].id
  }

  // ----- the boundary matrix -----

  /** The original diagonal entries, plus one for every registered partner, and -1 for tied pairs. */
  function TieEntry(lines: seq<BoundaryLine>, i: int, j: int): real {
    if !(0 <= i < |lines| && 0 <= j < |lines|) then 0.0
    else if i == j then lines[i].diagonal + if Listed(lines, lines[i].partner) then 1.0 else 0.0
    else if lines[i].partner == lines[j].id then -1.0
    else 0.0
  }

  /** What the elimination of the interior of their host subtracts for a pair of indices. */
  function Correction(r: Registry, i: int, j: int): real {
    if 0 <= i < |r.owners| && 0 <= j < |r.owners| && r.owners[i] == r.owners[j] then
      var h := r.owners[i];
      if h in r.starts && h in r.members then EntryOf(r.members[h].deltaX, i - r.starts[h], j - r.starts[h]) else 0.0
    else 0.0
  }

  function EntryOf(rows: seq<seq<real>>, k: int, l: int): real {
    if 0 <= k < |rows| && 0 <= l < |rows[k]| then rows[k][l] else 0.0
  }

  function BoundaryMatrix(r: Registry): Mat {
    (i, j) => TieEntry(r.lines, i, j) - Correction(r, i, j)
  }

  // ----- consistent registries -----

  /** Index i lies in the range of host h. */
  predicate Owns(r: Registry, h: string, i: int) {
    h in r.members && h in r.starts && r.starts[h] <= i < r.starts[h] + |r.members[h].lines|
  }

  predicate Holds(r: Registry, h: string, i: int) {
    Owns(r, h, i) && 0 <= i < |r.lines| && r.lines[i] == r.members[h].lines[i - r.starts[h]]
  }

  /** The hosts' ranges tile the indices, and each holds its host's interfaces in order. */
  ghost predicate Tiled(r: Registry) {
    && r.members.Keys == r.starts.Keys && |r.owners| == |r.lines|
    && (forall h {:trigger r.members[h]} :: h in r.members ==> r.members[h].WellFormed())
    && (forall i {:trigger r.owners[i]} :: 0 <= i < |r.owners| ==> Holds(r, r.owners[i], i))
    && (forall h, i :: Owns(r, h, i) ==> i < |r.owners| && r.owners[i] == h)
  }

  ghost predicate Consistent(r: Registry) {
    r.members.Keys <= r.loads.Keys && DistinctIds(r.lines) && Mutual(r.lines) && Tiled(r)
  }

  // ----- transitions -----

  function LoadUpdated(r: Registry, h: string, load: Load): Registry {
    r.(loads := r.loads[h := load])
  }

  function Registered(r: Registry, h: string, m: Registration): Registry {
    Registry(r.loads, r.members[h := m], r.starts[h := |r.lines|], r.lines + m.lines, r.owners + seq(|m.lines|, _ => h))
  }

  /** What the program requires of a registration. */
  ghost predicate CanRegister(r: Registry, h: string, m: Registration) {
    h in r.loads && h !in r.members && m.WellFormed() && DistinctIds(r.lines + m.lines) && Mutual(r.lines + m.lines)
  }

  predicate Ranged(r: Registry, h: string) {
    h in r.members && h in r.starts && r.starts[h] + |r.members[h].lines| <= |r.lines| == |r.owners|
  }

  /** Removing a host; with the last interface everything is forgotten. */
  function Cancelled(r: Registry, h: string): Registry
    requires Ranged(r, h)
  {
    var start, count := r.starts[h], |r.members[h].lines|;
    if |r.lines| <= count then NO_REGISTRY
    else Registry(r.loads - {h}, r.members - {h}, ShiftedStarts(r.starts, h, start, count),
                  Without(r.lines, start, count), Without(r.owners, start, count))
  }

  function ShiftedStarts(starts: map<string, nat>, h: string, start: nat, count: nat): map<string, nat> {
    map g | g in starts && g != h :: if starts[g] > start && starts[g] >= count then starts[g] - count else starts[g]
  }

  function Without<T>(s: seq<T>, start: nat, count: nat): (t: seq<T>)
    requires start + count <= |s|
    ensures |t| == |s| - count
    ensures forall i :: 0 <= i < start ==> t[i] == s[i]
    ensures forall i :: start <= i < |t| ==> t[i] == s[i + count]
  {
    var after := start + count;
    s[..start] + s[after..]
  }

  /** What the program requires of a cancellation: every tie partner is still registered. */
  ghost predicate CanCancel(r: Registry, h: string) {
    h in r.members && forall k :: 0 <= k < |r.members[h].lines| ==> Listed(r.lines, r.members[h].lines[k].partner)
  }

  // ----- every transition keeps the registry consistent -----

  lemma RegisterTiles(r: Registry, h: string, m: Registration)
    requires Tiled(r) && h !in r.members && m.WellFormed()
    ensures Tiled(Registered(r, h, m))
  {
    hide Registration.WellFormed;
    var s, n := Registered(r, h, m), |r.lines|;
    forall g, i | Owns(s, g, i) ensures i < |s.owners| && s.owners[i] == g {
      if g != h { assert Owns(r, g, i); }
    }
    forall i | 0 <= i < |s.owners| ensures Holds(s, s.owners[i], i) {
      if i < n {
        assert Holds(r, r.owners[i], i);
      }
    }
  }

  lemma RegisterKeeps(r: Registry, h: string, m: Registration)
    requires Consistent(r) && CanRegister(r, h, m)
    ensures Consistent(Registered(r, h, m))
  {
    hide Tiled, DistinctIds, Mutual, Registration.WellFormed;
    RegisterTiles(r, h, m);
  }

  lemma LoadUpdateKeeps(r: Registry, h: string, load: Load)
    requires Consistent(r)
    ensures Consistent(LoadUpdated(r, h, load))
  {
    var s := LoadUpdated(r, h, load);
    forall g, i | Owns(s, g, i) ensures i < |s.owners| && s.owners[i] == g { assert Owns(r, g, i); }
    forall i | 0 <= i < |s.owners| ensures Holds(s, s.owners[i], i) { assert Holds(r, r.owners[i], i); }
  }

  /** A host's range lies within the indices. */
  lemma RangeInside(r: Registry, h: string)
    requires Tiled(r) && h in r.members
    ensures Ranged(r, h) && |r.members[h].lines| > 0
    ensures forall i :: 0 <= i < |r.owners|
              ==> (r.owners[i] == h <==> r.starts[h] <= i < r.starts[h] + |r.members[h].lines|)
  {
    var last := r.starts[h] + |r.members[h].lines| - 1;
    assert r.members[h].WellFormed();
    assert Owns(r, h, last);
    forall i | 0 <= i < |r.owners| ensures r.owners[i] == h <==> r.starts[h] <= i <= last {
      assert Holds(r, r.owners[i], i);
      if r.starts[h] <= i <= last { assert Owns(r, h, i); }
    }
  }

  /** Two hosts' ranges do not meet. */
  lemma RangesApart(r: Registry, g: string, h: string)
    requires Tiled(r) && g in r.members && h in r.members && g != h
    ensures g in r.starts && h in r.starts
    ensures r.starts[g] + |r.members[g].lines| <= r.starts[h] || r.starts[h] + |r.members[h].lines| <= r.starts[g]
    ensures r.starts[g] != r.starts[h]
  {
    RangeInside(r, g);
    RangeInside(r, h);
    var i := if r.starts[g] < r.starts[h] then r.starts[h] else r.starts[g];
    if Owns(r, g, i) && Owns(r, h, i) { assert false; }
  }

  /** The old index of the entry that a cancellation moves to i. */
  function Unshifted(i: int, start: int, count: int): int {
    if i < start then i else i + count
  }

  lemma CancelTiles(r: Registry, h: string)
    requires Tiled(r) && Ranged(r, h) && |r.members[h].lines| < |r.lines|
    ensures Tiled(Cancelled(r, h))
  {
    hide Registration.WellFormed;
    var s, start, count := Cancelled(r, h), r.starts[h], |r.members[h].lines|;
    RangeInside(r, h);
    forall g, i | Owns(s, g, i) ensures i < |s.owners| && s.owners[i] == g {
      RangesApart(r, g, h);
      RangeInside(r, g);
      assert Owns(r, g, Unshifted(i, start, count));
    }
    forall i | 0 <= i < |s.owners| ensures Holds(s, s.owners[i], i) {
      CancelHolds(r, h, i);
    }
  }

  lemma CancelHolds(r: Registry, h: string, i: int)
    requires Tiled(r) && Ranged(r, h) && |r.members[h].lines| < |r.lines|
    requires 0 <= i < |Cancelled(r, h).owners|
    ensures Holds(Cancelled(r, h), Cancelled(r, h).owners[i], i)
  {
    hide Registration.WellFormed;
    var start, count := r.starts[h], |r.members[h].lines|;
    RangeInside(r, h);
    var g := r.owners[Unshifted(i, start, count)];
    assert Holds(r, g, Unshifted(i, start, count));
    RangesApart(r, g, h);
  }

  lemma CancelLines(lines: seq<BoundaryLine>, start: nat, count: nat)
    requires start + count <= |lines| && DistinctIds(lines) && Mutual(lines)
    ensures DistinctIds(Without(lines, start, count)) && Mutual(Without(lines, start, count))
  {
    var t := Without(lines, start, count);
    forall i | 0 <= i < |t| ensures t[i] == lines[Unshifted(i, start, count)] {}
  }

  lemma CancelKeeps(r: Registry, h: string)
    requires Consistent(r) && h in r.members
    ensures Ranged(r, h) && Consistent(Cancelled(r, h))
  {
    hide Tiled, DistinctIds, Mutual, Registration.WellFormed, Without;
    RangeInside(r, h);
    if |r.members[h].lines| < |r.lines| {
      CancelTiles(r, h);
      CancelLines(r.lines, r.starts[h], |r.members[h].lines|);
    } else {
      EmptyConsistent();
    }
  }

  lemma EmptyConsistent()
    ensures Consistent(NO_REGISTRY)
  {}

  // ----- what the registry determines -----

  lemma WithoutAppended<T>(s: seq<T>, t: seq<T>)
    ensures Without(s + t, |s|, |t|) == s
  {}

  lemma KeyRestored<T>(m: map<string, T>, h: string, v: T)
    requires h !in m
    ensures m[h := v] - {h} == m
  {}

  lemma StartsRestored(starts: map<string, nat>, h: string, start: nat, count: nat)
    requires h !in starts && forall g :: g in starts ==> starts[g] < start
    ensures ShiftedStarts(starts[h := start], h, start, count) == starts
  {}

  lemma StartsBefore(r: Registry)
    requires Tiled(r)
    ensures forall g :: g in r.starts ==> g in r.members && r.starts[g] < |r.lines|
  {
    hide Registration.WellFormed;
    forall g | g in r.starts ensures r.starts[g] < |r.lines| {
      RangeInside(r, g);
    }
  }

  /** Registering a host next to others and cancelling it again changes nothing. */
  lemma RegisterThenCancel(r: Registry, h: string, load: Load, m: Registration)
    requires Consistent(r) && |r.lines| > 0 && h !in r.loads && CanRegister(LoadUpdated(r, h, load), h, m)
    ensures var s := Registered(LoadUpdated(r, h, load), h, m);
            Ranged(s, h) && Cancelled(s, h) == r
  {
    hide Mutual, DistinctIds, Tiled, ShiftedStarts, Without;
    StartsBefore(r);
    assert h !in r.starts && |r.owners| == |r.lines| by { TiledSizes(r); }
    KeyRestored(r.members, h, m);
    KeyRestored(r.loads, h, load);
    StartsRestored(r.starts, h, |r.lines|, |m.lines|);
    WithoutAppended(r.lines, m.lines);
    WithoutAppended(r.owners, seq(|m.lines|, _ => h));
  }

  lemma TiledSizes(r: Registry)
    requires Tiled(r)
    ensures |r.owners| == |r.lines| && r.members.Keys == r.starts.Keys
  {
    hide Registration.WellFormed;
  }

  lemma OwnLine(r: Registry, i: int)
    requires Tiled(r) && 0 <= i < |r.lines|
    ensures var h := r.owners[i];
            Owns(r, h, i) && r.lines[i] == r.members[h].lines[i - r.starts[h]]
  {
    assert Holds(r, r.owners[i], i);
  }

  /** An interface has the same host, and the same place among the host's interfaces, in every
      registry with the same members. */
  lemma SamePlace(r: Registry, s: Registry, i: int, j: int)
    requires Consistent(r) && Consistent(s) && r.members == s.members
    requires 0 <= i < |r.lines| && 0 <= j < |s.lines| && r.lines[i].id == s.lines[j].id
    ensures r.owners[i] == s.owners[j] && r.lines[i] == s.lines[j]
    ensures Owns(r, r.owners[i], i) && Owns(s, s.owners[j], j)
    ensures i - r.starts[r.owners[i]] == j - s.starts[s.owners[j]]
  {
    hide Mutual, Registration.WellFormed;
    OwnLine(r, i);
    OwnLine(s, j);
    var g := s.owners[j];
    var i' := r.starts[g] + (j - s.starts[g]);
    assert Owns(r, g, i');
    OwnLine(r, i');
    assert r.lines[i'].id == r.lines[i].id;
  }

  lemma SameListed(r: Registry, s: Registry, p: string)
    requires Consistent(r) && Consistent(s) && r.members == s.members && Listed(r.lines, p)
    ensures Listed(s.lines, p)
  {
    hide Mutual, DistinctIds, Registration.WellFormed;
    var i :| 0 <= i < |r.lines| && r.lines[i].id == p;
    OwnLine(r, i);
    var g := r.owners[i];
    var j := s.starts[g] + (i - r.starts[g]);
    assert Owns(s, g, j);
    OwnLine(s, j);
    assert s.lines[j].id == p;
  }

  /** Main result: the boundary matrix depends only on which hosts are registered with what,
      never on the order of the registrations and cancellations that led there; two registries
      with the same members differ only in how they number the interfaces. */
  lemma MembersDetermineMatrix(r: Registry, s: Registry, i: int, j: int, i': int, j': int)
    requires Consistent(r) && Consistent(s) && r.members == s.members
    requires 0 <= i < |r.lines| && 0 <= i' < |s.lines| && r.lines[i].id == s.lines[i'].id
    requires 0 <= j < |r.lines| && 0 <= j' < |s.lines| && r.lines[j].id == s.lines[j'].id
    ensures BoundaryMatrix(r)(i, j) == BoundaryMatrix(s)(i', j')
  {
    SamePlace(r, s, i, i');
    SamePlace(r, s, j, j');
    hide Tiled, Mutual, Listed;
    assert i == j <==> i' == j';
    if Listed(r.lines, r.lines[i].partner) { SameListed(r, s, r.lines[i].partner); }
    if Listed(s.lines, r.lines[i].partner) { SameListed(s, r, r.lines[i].partner); }
  }

  lemma ListedAppend(a: seq<BoundaryLine>, b: seq<BoundaryLine>, p: string)
    ensures Listed(a + b, p) <==> Listed(a, p) || Listed(b, p)
  {
    if Listed(a, p) {
      var k :| 0 <= k < |a| && a[k].id == p;
      assert (a + b)[k].id == p;
    }
    if Listed(b, p) {
      var k :| 0 <= k < |b| && b[k].id == p;
      assert (a + b)[|a| + k].id == p;
    }
    if Listed(a + b, p) {
      var k :| 0 <= k < |a + b| && (a + b)[k].id == p;
      assert if k < |a| then a[k].id == p else b[k - |a|].id == p;
    }
  }

  /** The corrections of the hosts already there stay, those of the new host join them. */
  lemma RegisterCorrection(r: Registry, h: string, m: Registration, i: int, j: int)
    requires Consistent(r) && CanRegister(r, h, m)
    ensures var n := |r.lines|;
            Correction(Registered(r, h, m), i, j)
            == if i < n && j < n then Correction(r, i, j)
               else if i >= n && j >= n then EntryOf(m.deltaX, i - n, j - n) else 0.0
  {
    if 0 <= i < |r.lines| { OwnLine(r, i); }
    if 0 <= j < |r.lines| { OwnLine(r, j); }
  }

  /** A cancellation keeps the owner of every index that remains, and its place in the owner's range. */
  lemma CancelOwner(r: Registry, h: string, i: int)
    requires Consistent(r) && Ranged(r, h)
    requires |r.members[h].lines| < |r.lines| && 0 <= i < |r.lines| - |r.members[h].lines|
    ensures var s, i' := Cancelled(r, h), Unshifted(i, r.starts[h], |r.members[h].lines|);
            var g := r.owners[i'];
            && |s.owners| == |r.owners| - |r.members[h].lines| && s.owners[i] == g && g in r.members && g in r.starts
            && g in s.members && s.members[g] == r.members[g] && g in s.starts && i - s.starts[g] == i' - r.starts[g]
  {
    hide Registration.WellFormed, DistinctIds, Mutual;
    var i' := Unshifted(i, r.starts[h], |r.members[h].lines|);
    OwnLine(r, i');
    RangeInside(r, h);
    RangesApart(r, r.owners[i'], h);
  }

  /** Cancelling renumbers the corrections that remain. */
  lemma CancelCorrection(r: Registry, h: string, i: int, j: int)
    requires Consistent(r) && Ranged(r, h)
    requires |r.members[h].lines| < |r.lines|
    requires 0 <= i < |r.lines| - |r.members[h].lines| && 0 <= j < |r.lines| - |r.members[h].lines|
    ensures var start, count := r.starts[h], |r.members[h].lines|;
            Correction(Cancelled(r, h), i, j) == Correction(r, Unshifted(i, start, count), Unshifted(j, start, count))
  {
    hide Consistent, Cancelled, EntryOf;
    CancelOwner(r, h, i);
    CancelOwner(r, h, j);
  }

  predicate ListedBetween(lines: seq<BoundaryLine>, lo: int, hi: int, p: string) {
    exists k :: lo <= k < hi && 0 <= k < |lines| && lines[k].id == p
  }

  /** What was listed is either removed or stays, never both. */
  lemma ListedWithout(lines: seq<BoundaryLine>, start: nat, count: nat, p: string)
    requires start + count <= |lines| && DistinctIds(lines)
    ensures Listed(lines, p)
       <==> Listed(Without(lines, start, count), p) || ListedBetween(lines, start, start + count, p)
    ensures !(Listed(Without(lines, start, count), p) && ListedBetween(lines, start, start + count, p))
  {
    var t := Without(lines, start, count);
    hide Without;
    if Listed(t, p) {
      var l :| 0 <= l < |t| && t[l].id == p;
      var u := Unshifted(l, start, count);
      assert lines[u].id == p;
      forall k | start <= k < start + count ensures lines[k].id != p {
        assert lines[if k < u then k else u].id != lines[if k < u then u else k].id;
      }
    }
    if Listed(lines, p) {
      var k :| 0 <= k < |lines| && lines[k].id == p;
      if k < start { assert t[k].id == p; }
      if k >= start + count { assert t[k - count].id == p; }
    }
  }

  /** Cancelling takes one off the diagonal of every tie partner of the host. */
  lemma CancelTie(lines: seq<BoundaryLine>, start: nat, count: nat, i: int, j: int)
    requires start + count <= |lines| && DistinctIds(lines)
    requires 0 <= i < |lines| - count && 0 <= j < |lines| - count
    ensures var i', j' := Unshifted(i, start, count), Unshifted(j, start, count);
            TieEntry(Without(lines, start, count), i, j)
            == TieEntry(lines, i', j') - if i == j
              && ListedBetween(lines, start, start + count, lines[i'].partner) then 1.0 else 0.0
  {
    ListedWithout(lines, start, count, lines[Unshifted(i, start, count)].partner);
    hide DistinctIds, Listed, ListedBetween;
  }

  /** After h has left, a host g that could have left before still can exactly when none of its
      interfaces was tied to one of h: the program looks up every partner of a leaving host. */
  lemma CanLeaveAfter(r: Registry, h: string, g: string)
    requires Consistent(r) && Ranged(r, h) && |r.members[h].lines| < |r.lines| && CanCancel(r, g) && g != h
    ensures CanCancel(Cancelled(r, h), g)
       <==> forall k :: 0 <= k < |r.members[g].lines|
              ==> !ListedBetween(r.lines, r.starts[h], r.starts[h] + |r.members[h].lines|,
                                 r.members[g].lines[k].partner)
  {
    var s, start, count, own := Cancelled(r, h), r.starts[h], |r.members[h].lines|, r.members[g].lines;
    assert s.lines == Without(r.lines, start, count) && g in s.members && s.members[g].lines == own;
    forall k | 0 <= k < |own|
      ensures Listed(s.lines, own[k].partner) <==> !ListedBetween(r.lines, start, start + count, own[k].partner)
    {
      ListedWithout(r.lines, start, count, own[k].partner);
    }
    hide Listed, ListedBetween, Without, Consistent;
  }

  // ----- whole runs -----

  /** What the coordinator is told, one message after the other: a host's loads, its registration
      with the corrections deltaY of its injections, new corrections, and its cancellation. */
  datatype Event = HostLoads(host: string, load: Load) | HostJoins(host: string, m: Registration, deltaY: seq<real>)
                 | HostUpdates(host: string, deltaY: seq<real>) | HostLeaves(host: string)

  /** The number of boundary interfaces of a host. */
  function Size(r: Registry, h: string): nat {
    if h in r.members then |r.members[h].lines| else 0
  }

  /** One event, where the program allows it. */
  ghost predicate Happens(r: Registry, e: Event, s: Registry) {
    match e
    case HostLoads(h, load) => s == LoadUpdated(r, h, load)
    case HostJoins(h, m, deltaY) => CanRegister(r, h, m) && |deltaY| == |m.lines| && s == Registered(r, h, m)
    case HostUpdates(h, deltaY) => h in r.loads && |deltaY| == Size(r, h) && s == r
    case HostLeaves(h) => CanCancel(r, h) && Ranged(r, h) && s == Cancelled(r, h)
  }

  /** The events lead from the empty registry to r. */
  ghost predicate Reaches(events: seq<Event>, r: Registry) {
    if events == [] then r == NO_REGISTRY
    else
      var front, last := events[..|events| - 1], events[|events| - 1];
      exists before :: Happens(before, last, r) && Reaches(front, before)
  }

  /** The corrections that each host has sent since the last cancellation, which forgets them all. */
  function SentSince(events: seq<Event>): map<string, seq<real>> {
    if events == [] then map[]
    else
      var before := SentSince(events[..|events| - 1]);
      match events[|events| - 1]
      case HostLoads(_, _) => before
      case HostJoins(h, _, deltaY) => before[h := deltaY]
      case HostUpdates(h, deltaY) => before[h := deltaY]
      case HostLeaves(_) => map[]
  }

  function SentEntry(events: seq<Event>, h: string, k: int): real {
    var sent := SentSince(events);
    if h in sent && 0 <= k < |sent[h]| then sent[h][k] else 0.0
  }

  lemma ReachesNext(events: seq<Event>, r: Registry, e: Event, s: Registry)
    requires Reaches(events, r) && Happens(r, e, s)
    ensures Reaches(events + [e], s)
  {
    hide Happens;
    var all := events + [e];
    assert all[..|all| - 1] == events && all[|all| - 1] == e;
  }

  lemma SentNext(events: seq<Event>, e: Event)
    ensures SentSince(events + [e])
         == match e
            case HostLoads(_, _) => SentSince(events)
            case HostJoins(h, _, deltaY) => SentSince(events)[h := deltaY]
            case HostUpdates(h, deltaY) => SentSince(events)[h := deltaY]
            case HostLeaves(_) => map[]
  {
    var all := events + [e];
    assert all[..|all| - 1] == events;
  }

  lemma {:induction false} ReachedIsConsistent(events: seq<Event>, r: Registry)
    requires Reaches(events, r)
    ensures Consistent(r)
  {
    if events == [] {
      EmptyConsistent();
    } else {
      var front, last := events[..|events| - 1], events[|events| - 1];
      var before :| Happens(before, last, r) && Reaches(front, before);
      ReachedIsConsistent(front, before);
      hide Consistent;
      match last {
        case HostLoads(h, load) => LoadUpdateKeeps(before, h, load);
        case HostJoins(h, m, _) => RegisterKeeps(before, h, m);
        case HostUpdates(_, _) =>
        case HostLeaves(h) => CancelKeeps(before, h);
      }
    }
  }

  /** Main result: two runs that end with the same registered hosts end with the same boundary
      matrix, interface by interface, whatever the order in which hosts came, changed their loads
      and left. */
  lemma {:induction false} RunsAgree(events: seq<Event>, r: Registry, others: seq<Event>, s: Registry, i: int, j: int,
                                     i': int, j': int)
    requires Reaches(events, r) && Reaches(others, s) && r.members == s.members
    requires 0 <= i < |r.lines| && 0 <= i' < |s.lines| && r.lines[i].id == s.lines[i'].id
    requires 0 <= j < |r.lines| && 0 <= j' < |s.lines| && r.lines[j].id == s.lines[j'].id
    ensures BoundaryMatrix(r)(i, j) == BoundaryMatrix(s)(i', j')
  {
    hide *;
    ReachedIsConsistent(events, r);
    ReachedIsConsistent(others, s);
    MembersDetermineMatrix(r, s, i, j, i', j');
  }

  /** Host a or b with one boundary interface, tied to the other one's. */
  function Single(id: string, partner: string): Registration {
    Registration([BoundaryLine(id, 1.0, partner)], [[0.0]])
  }

  /** Two tied hosts: once b has left, a cannot leave any more, since its partner is looked up
      and not found. */
  lemma PartnerGone(load: Load)
    ensures exists r ::
      && Reaches([HostLoads("a", load), HostJoins("a", Single("a1", "b1"), [0.0]), HostLoads("b", load),
                  HostJoins("b", Single("b1", "a1"), [0.0]), HostLeaves("b")], r)
                        && "a" in r.members && !CanCancel(r, "a")
  {
    hide *;
    var ma, mb := Single("a1", "b1"), Single("b1", "a1");
    var e0, e1, e2 := HostLoads("a", load), HostJoins("a", ma, [0.0]), HostLoads("b", load);
    var e3, e4 := HostJoins("b", mb, [0.0]), HostLeaves("b");
    var r1 := LoadUpdated(NO_REGISTRY, "a", load);
    var r2 := Registered(r1, "a", ma);
    var r3 := LoadUpdated(r2, "b", load);
    var r4 := Registered(r3, "b", mb);
    assert "a"[0] != "b"[0] && "a1"[0] != "b1"[0];
    FirstJoins(load, r1, r2);
    SecondJoins(load, r1, r2, r3, r4);
    SecondLeaves(load, r1, r2, r3, r4);
    assert [] + [e0] == [e0] && [e0] + [e1] == [e0, e1] && [e0, e1] + [e2] == [e0, e1, e2];
    assert [e0, e1, e2] + [e3] == [e0, e1, e2, e3] && [e0, e1, e2, e3] + [e4] == [e0, e1, e2, e3, e4];
    NothingReached();
    ReachesNext([], NO_REGISTRY, e0, r1);
    ReachesNext([e0], r1, e1, r2);
    ReachesNext([e0, e1], r2, e2, r3);
    ReachesNext([e0, e1, e2], r3, e3, r4);
    ReachesNext([e0, e1, e2, e3], r4, e4, Cancelled(r4, "b"));
  }

  lemma NothingReached()
    ensures Reaches([], NO_REGISTRY)
  {}

  lemma SingleLine(id: string, partner: string)
    requires id != partner
    ensures Single(id, partner).WellFormed() && DistinctIds(Single(id, partner).lines)
    ensures Mutual(Single(id, partner).lines)
    ensures Single(id, partner).lines == [BoundaryLine(id, 1.0, partner)]
  {}

  lemma PairOfLines(p: string, q: string)
    requires p != q
    ensures DistinctIds([BoundaryLine(p, 1.0, q)] + [BoundaryLine(q, 1.0, p)])
    ensures Mutual([BoundaryLine(p, 1.0, q)] + [BoundaryLine(q, 1.0, p)])
  {}

  lemma FirstJoins(load: Load, r1: Registry, r2: Registry)
    requires "a1" != "b1" && r1 == LoadUpdated(NO_REGISTRY, "a", load) && r2 == Registered(r1, "a", Single("a1", "b1"))
    ensures Happens(NO_REGISTRY, HostLoads("a", load), r1) && Happens(r1, HostJoins("a", Single("a1", "b1"), [0.0]), r2)
  {
    SingleLine("a1", "b1");
    hide Registration.WellFormed, DistinctIds, Mutual, Single;
    assert r1.lines + Single("a1", "b1").lines == Single("a1", "b1").lines;
  }

  lemma SecondJoins(load: Load, r1: Registry, r2: Registry, r3: Registry, r4: Registry)
    requires "a" != "b" && "a1" != "b1" && r1 == LoadUpdated(NO_REGISTRY, "a", load)
    requires r2 == Registered(r1, "a", Single("a1", "b1"))
    requires r3 == LoadUpdated(r2, "b", load) && r4 == Registered(r3, "b", Single("b1", "a1"))
    ensures Happens(r2, HostLoads("b", load), r3) && Happens(r3, HostJoins("b", Single("b1", "a1"), [0.0]), r4)
  {
    SingleLine("a1", "b1");
    SingleLine("b1", "a1");
    PairOfLines("a1", "b1");
    hide Registration.WellFormed, DistinctIds, Mutual, Single;
    assert r1.lines + Single("a1", "b1").lines == Single("a1", "b1").lines;
  }

  lemma SecondLeaves(load: Load, r1: Registry, r2: Registry, r3: Registry, r4: Registry)
    requires "a" != "b" && "a1" != "b1" && r1 == LoadUpdated(NO_REGISTRY, "a", load)
    requires r2 == Registered(r1, "a", Single("a1", "b1"))
    requires r3 == LoadUpdated(r2, "b", load) && r4 == Registered(r3, "b", Single("b1", "a1"))
    ensures Ranged(r4, "b") && Happens(r4, HostLeaves("b"), Cancelled(r4, "b"))
    ensures "a" in Cancelled(r4, "b").members && !CanCancel(Cancelled(r4, "b"), "a")
  {
    SingleLine("a1", "b1");
    SingleLine("b1", "a1");
    hide Registration.WellFormed, DistinctIds, Mutual, Single, ShiftedStarts, Listed;
    var a, b := BoundaryLine("a1", 1.0, "b1"), BoundaryLine("b1", 1.0, "a1");
    assert r4.lines == [a, b] && r4.owners == ["a", "b"] && r4.starts["b"] == 1;
    assert Without(r4.lines, 1, 1) == [a];
    HasFirst(a, b);
    HasOnly(a, "b1");
  }

  lemma HasFirst(a: BoundaryLine, b: BoundaryLine)
    ensures Listed([a, b], a.id)
  {
    assert [a, b][0].id == a.id;
  }

  lemma HasOnly(a: BoundaryLine, p: string)
    ensures Listed([a], p) <==> p == a.id
  {
    assert [a][0].id == a.id;
  }

  // ----- totals -----

  ghost function AnyHost(loads: map<string, Load>): (h: string)
    requires |loads| != 0
    ensures h in loads
  {
    var h :| h in loads; h
  }

  /** The total of f over all loads. */
  ghost function Total(loads: map<string, Load>, f: Load -> real): real
    decreases |loads|
  {
    if |loads| == 0 then 0.0
    else
      var h := AnyHost(loads);
      f(loads[h]) + Total(loads - {h}, f)
  }

  /** The total does not depend on the order of the hosts. */
  lemma {:induction false} TotalSplits(loads: map<string, Load>, f: Load -> real, h: string)
    requires h in loads
    ensures Total(loads, f) == f(loads[h]) + Total(loads - {h}, f)
    decreases |loads|
  {
    hide AnyHost;
    var g := AnyHost(loads);
    if g != h {
      var both := loads - {g} - {h};
      assert loads - {h} - {g} == both;
      TotalSplits(loads - {g}, f, h);
      TotalSplits(loads - {h}, f, g);
    }
  }

  lemma TotalUpdate(loads: map<string, Load>, f: Load -> real, h: string, load: Load)
    ensures Total(loads[h := load], f) == Total(loads, f) + f(load) - if h in loads then f(loads[h]) else 0.0
  {
    TotalSplits(loads[h := load], f, h);
    assert loads[h := load] - {h} == loads - {h};
    if h in loads {
      TotalSplits(loads, f, h);
    } else {
      assert loads - {h} == loads;
    }
  }
}
