/** A host that joins a federation: its boundary interfaces are moved to the end of its
    matrices in place, its interior is eliminated, and coordinated boundary voltages are
    substituted back. */
module Reconstructions {
  import opened Sequences
  import opened DynamicConnections
  import opened Sums
  import opened LinearAlgebra
  import opened Laplacians
  import opened Woodbury
  import opened Gsl
  import opened PowerSlaves
  import opened Messages
  import opened Registries
  import opened Federations

  // ----- the order of the boundary interfaces -----

  /** What the reconstruction makes of the boundary set: interfaces it does not know yet are
      put in front, in the order of the connections. */
  function Boundaries(bs: seq<string>, dcs: seq<DynamicConnection>): seq<string>
    decreases dcs
  {
    if dcs == [] then bs
    else Boundaries(if dcs[0].local_pi in bs then bs else [dcs[0].local_pi] + bs, dcs[1..])
  }

  function Locals(dcs: seq<DynamicConnection>): (s: seq<string>)
    ensures |s| == |dcs| && forall i :: 0 <= i < |s| ==> s[i] == dcs[i].local_pi
  {
    seq(|dcs|, i requires 0 <= i < |dcs| => dcs[i].local_pi)
  }

  /** New connections end up in front of the set, in reverse. */
  lemma {:induction false} NewInFront(bs: seq<string>, dcs: seq<DynamicConnection>)
    requires Distinct(Locals(dcs)) && forall i :: 0 <= i < |dcs| ==> dcs[i].local_pi !in bs
    ensures Boundaries(bs, dcs) == Reverse(Locals(dcs)) + bs
    decreases dcs
  {
    if dcs == [] {
      assert Reverse(Locals(dcs)) + bs == bs;
    } else {
      var rest, bs' := dcs[1..], [dcs[0].local_pi] + bs;
      var all := Locals(dcs);
      assert Locals(rest) == all[1..];
      assert all[0] == dcs[0].local_pi;
      NewInFront(bs', rest);
      assert Reverse(Locals(rest)) + bs' == Reverse(all) + bs;
    }
  }

  /** Connections already known change nothing. */
  lemma {:induction false} KnownStay(bs: seq<string>, dcs: seq<DynamicConnection>)
    requires forall i :: 0 <= i < |dcs| ==> dcs[i].local_pi in bs
    ensures Boundaries(bs, dcs) == bs
    decreases dcs
  {
    if dcs != [] {
      KnownStay(bs, dcs[1..]);
    }
  }

  lemma {:induction false} BoundariesConcat(bs: seq<string>, a: seq<DynamicConnection>, b: seq<DynamicConnection>)
    ensures Boundaries(bs, a + b) == Boundaries(Boundaries(bs, a), b)
    decreases a
  {
    if a == [] {
      assert a + b == b;
    } else {
      assert (a + b)[1..] == a[1..] + b;
      BoundariesConcat(if a[0].local_pi in bs then bs else [a[0].local_pi] + bs, a[1..], b);
    }
  }

  /** The boundary set runs against the connections: what the registration message relies on. */
  ghost predicate Aligned(bs: seq<string>, dcs: seq<DynamicConnection>) {
    bs == Reverse(Locals(dcs))
  }

  /** One batch of connections is aligned. */
  lemma OneBatchAligned(dcs: seq<DynamicConnection>)
    requires Distinct(Locals(dcs))
    ensures Aligned(Boundaries([], dcs), dcs)
  {
    NewInFront([], dcs);
    assert Reverse(Locals(dcs)) + [] == Reverse(Locals(dcs));
  }

  lemma BatchesDiffer(a: seq<DynamicConnection>, b: seq<DynamicConnection>)
    requires Distinct(Locals(b + a))
    ensures Distinct(Locals(a)) && Distinct(Locals(b))
    ensures forall i :: 0 <= i < |b| ==> b[i].local_pi !in Locals(a)
  {
    var all := Locals(b + a);
    forall i, j | 0 <= i < j < |a| ensures Locals(a)[i] != Locals(a)[j] {
      assert all[|b| + i] == Locals(a)[i] && all[|b| + j] == Locals(a)[j];
    }
    forall i, j | 0 <= i < j < |b| ensures Locals(b)[i] != Locals(b)[j] {
      assert all[i] == Locals(b)[i] && all[j] == Locals(b)[j];
    }
    forall i, k | 0 <= i < |b| && 0 <= k < |a| ensures b[i].local_pi != Locals(a)[k] {
      assert all[i] == b[i].local_pi && all[|b| + k] == Locals(a)[k];
    }
  }

  /** A further batch b is put in front of the connections a by AddDynamicConnection; the
      reconstruction then puts b's interfaces in front of those it knows as well. */
  lemma FurtherBatch(bs: seq<string>, a: seq<DynamicConnection>, b: seq<DynamicConnection>)
    requires Distinct(Locals(b + a)) && forall p :: p in bs <==> p in Locals(a)
    ensures Boundaries(bs, b + a) == Reverse(Locals(b)) + bs
  {
    BatchesDiffer(a, b);
    var after := Reverse(Locals(b)) + bs;
    hide Distinct, Reverse;
    NewInFront(bs, b);
    forall i | 0 <= i < |a| ensures a[i].local_pi in after {
      assert Locals(a)[i] in Locals(a);
    }
    KnownStay(after, a);
    BoundariesConcat(bs, b, a);
  }

  /** All connections after a run of batches. */
  function Connections(batches: seq<seq<DynamicConnection>>): seq<DynamicConnection> {
    if batches == [] then [] else batches[|batches| - 1] + Connections(batches[..|batches| - 1])
  }

  /** The boundary set after a run of batches with a reconstruction behind each of them. */
  function Reconstructed(batches: seq<seq<DynamicConnection>>): seq<string> {
    if batches == [] then [] else Boundaries(Reconstructed(batches[..|batches| - 1]), Connections(batches))
  }

  /** At most one batch contributed anything. */
  predicate OneBatch(batches: seq<seq<DynamicConnection>>) {
    forall i, j :: 0 <= i < j < |batches| ==> batches[i] == [] || batches[j] == []
  }

  lemma {:induction false} ReconstructedSet(batches: seq<seq<DynamicConnection>>, p: string)
    requires Distinct(Locals(Connections(batches)))
    ensures p in Reconstructed(batches) <==> p in Locals(Connections(batches))
  {
    if batches != [] {
      var front, b := batches[..|batches| - 1], batches[|batches| - 1];
      BatchesDiffer(Connections(front), b);
      hide Distinct, Reverse, Boundaries;
      forall q ensures q in Reconstructed(front) <==> q in Locals(Connections(front)) {
        ReconstructedSet(front, q);
      }
      FurtherBatch(Reconstructed(front), Connections(front), b);
      InReverse(Locals(b), p);
      LocalsConcat(b, Connections(front));
    }
  }

  lemma {:induction false} NoConnections(batches: seq<seq<DynamicConnection>>)
    ensures Connections(batches) == [] <==> forall i :: 0 <= i < |batches| ==> batches[i] == []
  {
    if batches != [] {
      var front := batches[..|batches| - 1];
      NoConnections(front);
      forall i | 0 <= i < |front| ensures front[i] == batches[i] {}
    }
  }

  /** Whatever the number of batches, the registration message names the right partners exactly
      when all connections came in one batch. */
  lemma {:induction false} BatchesAligned(batches: seq<seq<DynamicConnection>>)
    requires Distinct(Locals(Connections(batches)))
    ensures Aligned(Reconstructed(batches), Connections(batches)) <==> OneBatch(batches)
  {
    if batches != [] {
      var front, b := batches[..|batches| - 1], batches[|batches| - 1];
      var a, bs := Connections(front), Reconstructed(front);
      BatchesDiffer(a, b);
      forall q ensures q in bs <==> q in Locals(a) {
        ReconstructedSet(front, q);
      }
      BatchesAligned(front);
      NoConnections(front);
      hide Distinct, Boundaries, Reconstructed;
      LastBatch(bs, a, b);
      OneBatchMore(batches);
      ReconstructedLast(batches);
    }
  }

  lemma ReconstructedLast(batches: seq<seq<DynamicConnection>>)
    requires batches != []
    ensures Reconstructed(batches) == Boundaries(Reconstructed(batches[..|batches| - 1]), Connections(batches))
    ensures Connections(batches) == batches[|batches| - 1] + Connections(batches[..|batches| - 1])
  {}

  lemma OneBatchMore(batches: seq<seq<DynamicConnection>>)
    requires batches != []
    ensures var front, b := batches[..|batches| - 1], batches[|batches| - 1];
            OneBatch(batches) <==> if b == [] then OneBatch(front) else forall i :: 0 <= i < |front| ==> front[i] == []
  {
    var front, n := batches[..|batches| - 1], |batches| - 1;
    forall i | 0 <= i < |front| ensures front[i] == batches[i] {}
  }

  /** Two batches of one connection each: every interface is given the other one's partner. */
  lemma SecondBatchMisaligned(c: DynamicConnection, d: DynamicConnection)
    requires c.local_pi != d.local_pi
    ensures var batches := [[c], [d]];
            && Connections(batches) == [d, c] && Reconstructed(batches) == [d.local_pi, c.local_pi]
            && !Aligned(Reconstructed(batches), Connections(batches))
  {
    var one, batches := [[c]], [[c], [d]];
    ReconstructedLast(one);
    ReconstructedLast(batches);
    assert one[..|one| - 1] == [] && batches[..|batches| - 1] == one;
    assert Connections(one) == [c] && Connections(batches) == [d, c];
    assert [c][1..] == [] && [d, c][1..] == [c];
    assert Reconstructed(one) == [c.local_pi];
    assert Locals([d, c]) == [d.local_pi, c.local_pi] && Locals([c]) == [c.local_pi] && Locals([d]) == [d.local_pi];
    FurtherBatch([c.local_pi], [c], [d]);
    assert [d] + [c] == [d, c] && Reverse(Locals([d])) == [d.local_pi];
    assert [d.local_pi, c.local_pi][0] != Reverse([d.local_pi, c.local_pi])[0];
  }

  /** One more batch: it keeps the alignment if it is empty, and is aligned itself if nothing
      came before. */
  lemma LastBatch(bs: seq<string>, a: seq<DynamicConnection>, b: seq<DynamicConnection>)
    requires Distinct(Locals(b + a)) && forall p :: p in bs <==> p in Locals(a)
    ensures Aligned(Boundaries(bs, b + a), b + a) <==> if b == [] then Aligned(bs, a) else a == []
  {
    hide *;
    FurtherBatch(bs, a, b);
    LocalsConcat(b, a);
    ReverseConcat(Locals(b), Locals(a));
    ReversedHeads(a, b);
    var x, y := Reverse(Locals(b)), Reverse(Locals(a));
    IsAligned(x + bs, b + a);
    IsAligned(bs, a);
    if b == [] {
      assert x == [] && x + bs == bs && y + x == y;
    } else if a == [] {
      HeadKnown(bs);
      assert y == [] && x + bs == x && y + x == x;
    } else {
      assert (x + bs)[0] == x[0] && (y + x)[0] == y[0];
    }
  }

  lemma HeadKnown(bs: seq<string>)
    ensures bs == [] || bs[0] in bs
  {}

  lemma IsAligned(bs: seq<string>, dcs: seq<DynamicConnection>)
    ensures Aligned(bs, dcs) <==> bs == Reverse(Locals(dcs))
  {}

  lemma LocalsConcat(b: seq<DynamicConnection>, a: seq<DynamicConnection>)
    ensures Locals(b + a) == Locals(b) + Locals(a)
  {}

  lemma ReversedHeads(a: seq<DynamicConnection>, b: seq<DynamicConnection>)
    requires Distinct(Locals(b + a))
    ensures |Reverse(Locals(a))| == |a| && |Reverse(Locals(b))| == |b|
    ensures a != [] && b != [] ==> Reverse(Locals(b))[0] != Reverse(Locals(a))[0]
  {
    BatchesDiffer(a, b);
    if a != [] && b != [] {
      var last := |b| - 1;
      assert b[last].local_pi !in Locals(a);
    }
  }

  /** A line of the message: the interface with the name it has at the coordinator, and the name that
      the other end of the connection has there. */
  predicate NamesPartner(line: BoundaryLine, host: string, pi: string, dc: DynamicConnection) {
    line.id == host + pi && line.partner == dc.remote_ip + dc.remote_pi
  }

  /** All lines of the message, the connections read backwards. */
  predicate NamesPartners(lines: seq<BoundaryLine>, host: string, bs: seq<string>, dcs: seq<DynamicConnection>) {
    && |lines| == |bs| <= |dcs|
    && forall i :: 0 <= i < |bs| ==> NamesPartner(lines[i], host, bs[i], dcs[|bs| - 1 - i])
  }

  // ----- swapping two indices -----

  function Swapped(i: int, j: int, k: int): int {
    if k == i then j else if k == j then i else k
  }

  method SwapRows(A: array2<real>, i: nat, j: nat)
    requires i < A.Length0 && j < A.Length0
    modifies A
    ensures forall r, c :: 0 <= r < A.Length0 && 0 <= c < A.Length1 ==> A[r, c] == old(A[Swapped(i, j, r), c])
  {
    for k := 0 to A.Length1
      invariant forall r, c :: 0 <= r < A.Length0 && 0 <= c < A.Length1
                  ==> A[r, c] == if c < k then old(A[Swapped(i, j, r), c]) else old(A[r, c])
    {
      A[i, k], A[j, k] := A[j, k], A[i, k];
    }
  }

  method SwapColumns(A: array2<real>, i: nat, j: nat)
    requires i < A.Length1 && j < A.Length1
    modifies A
    ensures forall r, c :: 0 <= r < A.Length0 && 0 <= c < A.Length1 ==> A[r, c] == old(A[r, Swapped(i, j, c)])
  {
    for k := 0 to A.Length0
      invariant forall r, c :: 0 <= r < A.Length0 && 0 <= c < A.Length1
                  ==> A[r, c] == if r < k then old(A[r, Swapped(i, j, c)]) else old(A[r, c])
    {
      A[k, i], A[k, j] := A[k, j], A[k, i];
    }
  }

  method SwapEntries(v: array<real>, i: nat, j: nat)
    requires i < v.Length && j < v.Length
    modifies v
    ensures forall k :: 0 <= k < v.Length ==> v[k] == old(v[Swapped(i, j, k)])
  {
    v[i], v[j] := v[j], v[i];
  }

  /** The matrices and the vector after two indices have been exchanged everywhere. */
  method SwapIndices(A: array2<real>, B: array2<real>, I: array<real>, i: nat, j: nat)
    requires A.Length0 == A.Length1 == B.Length1 == I.Length && A != B && i < I.Length && j < I.Length
    modifies A, B, I
    ensures forall r, c :: 0 <= r < I.Length && 0 <= c < I.Length
              ==> A[r, c] == old(A[Swapped(i, j, r), Swapped(i, j, c)])
    ensures forall r, c :: 0 <= r < B.Length0 && 0 <= c < I.Length ==> B[r, c] == old(B[r, Swapped(i, j, c)])
    ensures forall k :: 0 <= k < I.Length ==> I[k] == old(I[Swapped(i, j, k)])
  {
    SwapEntries(I, i, j);
    SwapRows(A, i, j);
    SwapColumns(A, i, j);
    SwapColumns(B, i, j);
  }

  // ----- index maps -----

  /** The two maps number the interfaces from 0 to n - 1 and are inverse to each other. */
  ghost predicate Numbered(idx: map<string, int>, pis: map<int, string>, n: int) {
    && (forall p :: p in idx ==> 0 <= idx[p] < n && idx[p] in pis && pis[idx[p]] == p)
    && (forall i :: i in pis ==> 0 <= i < n)
    && (forall i :: 0 <= i < n ==> i in pis && pis[i] in idx && idx[pis[i]] == i)
  }

  /** The boundary set occupies the last indices, in order. */
  ghost predicate AtEnd(bs: seq<string>, idx: map<string, int>, n: int) {
    |bs| <= n && forall k :: 0 <= k < |bs| ==> bs[k] in idx && idx[bs[k]] == n - |bs| + k
  }

  /** Entries by interface name are what they were, under any numbering. */
  ghost predicate SameByName(A: Mat, B: Mat, I: Vec, idx: map<string, int>, A': Mat, B': Mat, I': Vec,
                             idx': map<string, int>, rows: int) {
    && idx.Keys == idx'.Keys
    && (forall p, q :: p in idx && q in idx ==> A'(idx'[p], idx'[q]) == A(idx[p], idx[q]))
    && (forall p, t :: p in idx && 0 <= t < rows ==> B'(t, idx'[p]) == B(t, idx[p]))
    && (forall p :: p in idx ==> I'(idx'[p]) == I(idx[p]))
  }

  lemma SameByNameTransitive(A: Mat, B: Mat, I: Vec, idx: map<string, int>, A': Mat, B': Mat, I': Vec,
                             idx': map<string, int>, A'': Mat, B'': Mat, I'': Vec, idx'': map<string, int>, rows: int)
    requires SameByName(A, B, I, idx, A', B', I', idx', rows)
    requires SameByName(A', B', I', idx', A'', B'', I'', idx'', rows)
    ensures SameByName(A, B, I, idx, A'', B'', I'', idx'', rows)
  {}

  /** The numbering after pi and the interface at index at have changed places. */
  function Renumbered(idx: map<string, int>, pi: string, other: string, at: int): map<string, int>
    requires pi in idx
  {
    idx[pi := at][other := idx[pi]]
  }

  lemma RenumberedNames(idx: map<string, int>, pis: map<int, string>, n: int, pi: string, at: int, bs: seq<string>)
    requires Numbered(idx, pis, n) && AtEnd(bs, idx, n) && pi in idx && pi !in bs && at == n - |bs| - 1
    ensures 0 <= idx[pi] <= at < n && at in pis && pis[at] in idx
    ensures var idx' := Renumbered(idx, pi, pis[at], at);
            && Numbered(idx', pis[at := pi][idx[pi] := pis[at]], n) && idx'.Keys == idx.Keys
            && AtEnd([pi] + bs, idx', n)
            && forall p :: p in idx ==> idx'[p] == Swapped(idx[pi], at, idx[p])
  {
    forall j | n - |bs| <= j < n ensures j in pis && pis[j] != pi {
      var k := j - (n - |bs|);
      assert idx[bs[k]] == j;
    }
  }

  lemma SwapSame(A: Mat, B: Mat, I: Vec, idx: map<string, int>, pis: map<int, string>, A': Mat, B': Mat, I': Vec,
                 idx': map<string, int>, rows: int, n: int, i: int, j: int)
    requires Numbered(idx, pis, n) && 0 <= i < n && 0 <= j < n && idx'.Keys == idx.Keys
    requires forall p :: p in idx ==> idx'[p] == Swapped(i, j, idx[p])
    requires forall r, c :: 0 <= r < n && 0 <= c < n ==> A'(r, c) == A(Swapped(i, j, r), Swapped(i, j, c))
    requires forall r, c :: 0 <= r < rows && 0 <= c < n ==> B'(r, c) == B(r, Swapped(i, j, c))
    requires forall k :: 0 <= k < n ==> I'(k) == I(Swapped(i, j, k))
    ensures SameByName(A, B, I, idx, A', B', I', idx', rows)
  {
    forall p | p in idx ensures 0 <= idx'[p] < n && Swapped(i, j, idx'[p]) == idx[p] {}
  }

  /** The part of a component that takes part in a federation. */
  class DynamicComponent {
    const A: array2<real>
    const B: array2<real>
    const I: array<real>
    var pi_index_mapping: map<string, int>
    var index_pi_mapping: map<int, string>
    var boundary_set: seq<string>
    var dynamic_connections: seq<DynamicConnection>
    var A1_inv: array2<real>
    var A1B: array2<real>
    var AB1_A1_inv: array2<real>

    constructor (A: array2<real>, B: array2<real>, I: array<real>, idx: map<string, int>, pis: map<int, string>)
      requires A.Length0 == A.Length1 == B.Length1 == I.Length && A != B && Numbered(idx, pis, I.Length)
      ensures Valid() && this.A == A && this.B == B && this.I == I && pi_index_mapping == idx && index_pi_mapping == pis
      ensures boundary_set == [] && dynamic_connections == []
    {
      this.A, this.B, this.I, pi_index_mapping, index_pi_mapping := A, B, I, idx, pis;
      boundary_set, dynamic_connections := [], [];
      A1_inv, A1B, AB1_A1_inv := new real[0, 0], new real[0, 0], new real[0, 0];
    }

    ghost predicate Valid()
      reads `pi_index_mapping, `index_pi_mapping, `boundary_set
    {
      && A.Length0 == A.Length1 == B.Length1 == I.Length && A != B
      && Numbered(pi_index_mapping, index_pi_mapping, I.Length) && AtEnd(boundary_set, pi_index_mapping, I.Length)
    }

    /** New connections are put in front. */
    method AddDynamicConnection(dc: DynamicConnection)
      modifies `dynamic_connections
      ensures dynamic_connections == [dc] + old(dynamic_connections)
    {
      if |dynamic_connections| == 0 {
        dynamic_connections := dynamic_connections + [dc];
      } else {
        dynamic_connections := [dc] + dynamic_connections;
      }
    }

    /** Moves the interfaces of all connections to the end, one by one. */
    method DynamicReconstruct()
      requires Valid()
      requires forall i :: 0 <= i < |dynamic_connections| ==> dynamic_connections[i].local_pi in pi_index_mapping
      modifies `pi_index_mapping, `index_pi_mapping, `boundary_set, A, B, I
      ensures Valid() && boundary_set == Boundaries(old(boundary_set), dynamic_connections)
      ensures SameByName(old(MatrixContents(A)), old(MatrixContents(B)), old(Contents(I)), old(pi_index_mapping),
                         MatrixContents(A), MatrixContents(B), Contents(I), pi_index_mapping, B.Length0)
    {
      hide Numbered, AtEnd, SameByName, Boundaries;
      ghost var A0, B0, I0, idx0, bs0 :=
        MatrixContents(A), MatrixContents(B), Contents(I), pi_index_mapping, boundary_set;
      SameByNameSelf(A0, B0, I0, idx0, B.Length0);
      BoundariesNone(bs0, dynamic_connections);
      for i := 0 to |dynamic_connections|
        invariant Valid() && boundary_set == Boundaries(bs0, dynamic_connections[..i])
        invariant pi_index_mapping.Keys == idx0.Keys
        invariant SameByName(A0, B0, I0, idx0, MatrixContents(A), MatrixContents(B), Contents(I), pi_index_mapping,
                             B.Length0)
      {
        var pi := dynamic_connections[i].local_pi;
        BoundariesNext(bs0, dynamic_connections, i);
        if pi !in boundary_set {
          ghost var A1, B1, I1, idx1 := MatrixContents(A), MatrixContents(B), Contents(I), pi_index_mapping;
          MoveToEnd(pi);
          SameByNameTransitive(A0, B0, I0, idx0, A1, B1, I1, idx1, MatrixContents(A), MatrixContents(B), Contents(I),
                               pi_index_mapping, B.Length0);
        }
      }
      assert dynamic_connections[..|dynamic_connections|] == dynamic_connections;
    }

    /** One interface becomes the first of the boundary set; the one at its new index takes its place. */
    method MoveToEnd(pi: string)
      requires Valid() && pi in pi_index_mapping && pi !in boundary_set
      modifies `pi_index_mapping, `index_pi_mapping, `boundary_set, A, B, I
      ensures Valid() && boundary_set == [pi] + old(boundary_set) && pi_index_mapping.Keys == old(pi_index_mapping).Keys
      ensures SameByName(old(MatrixContents(A)), old(MatrixContents(B)), old(Contents(I)), old(pi_index_mapping),
                         MatrixContents(A), MatrixContents(B), Contents(I), pi_index_mapping, B.Length0)
    {
      hide Numbered, AtEnd, SameByName, Swapped;
      var swap_index := I.Length - |boundary_set| - 1;
      RenumberedNames(pi_index_mapping, index_pi_mapping, I.Length, pi, swap_index, boundary_set);
      ghost var A0, B0, I0, idx0, pis0 :=
        MatrixContents(A), MatrixContents(B), Contents(I), pi_index_mapping, index_pi_mapping;
      var original_index, swap_pi := pi_index_mapping[pi], index_pi_mapping[swap_index];
      SwapIndices(A, B, I, original_index, swap_index);
      SetNumbering([pi] + boundary_set, pi_index_mapping[pi := swap_index][swap_pi := original_index],
                   index_pi_mapping[swap_index := pi][original_index := swap_pi]);
      SwappedRange(original_index, swap_index, I.Length);
      SwapSame(A0, B0, I0, idx0, pis0, MatrixContents(A), MatrixContents(B), Contents(I), pi_index_mapping,
               B.Length0, I.Length, original_index, swap_index);
    }

    /** The number of interior interfaces. */
    function Inner(): (n: int)
      requires Valid()
      reads `pi_index_mapping, `index_pi_mapping, `boundary_set
      ensures n == I.Length - |boundary_set| && n >= 0
    {
      I.Length - |boundary_set|
    }

    /** This host's network, its interior eliminated. */
    ghost predicate Eliminated(net: HostNetwork)
      reads `pi_index_mapping, `index_pi_mapping, `boundary_set, `A1_inv, `A1B, `AB1_A1_inv, A, A1_inv, A1B, AB1_A1_inv
    {
      && Valid() && net.A == MatrixContents(A) && net.inner == Inner() && net.A1_inv == MatrixContents(A1_inv)
      && A1_inv.Length0 == A1_inv.Length1 == A1B.Length0 == Inner() && A1B.Length1 == |boundary_set|
      && AB1_A1_inv.Length0 == |boundary_set| && AB1_A1_inv.Length1 == Inner()
      && IsInverse(net.A, net.A1_inv, net.inner)
      && (forall i, k :: 0 <= i < net.inner && 0 <= k < |boundary_set| ==> A1B[i, k] == Federations.A1B(net)(i, k))
      && forall k, i :: 0 <= k < |boundary_set| && 0 <= i < net.inner
           ==> AB1_A1_inv[k, i] == SlaveGain(Federations.A1B(net), net.A1_inv, net.inner)(k, i)
    }

    /** First part of DynamicCalculation: the interior is eliminated, and what that does to the
        boundary rows is the message to the coordinator. */
    method Eliminate() returns (deltaX: array2<real>, deltaY: array<real>, ghost net: HostNetwork)
      requires Valid() && IsLaplacian(MatrixContents(A), I.Length) && AllLinked(MatrixContents(A), I.Length)
      requires boundary_set != []
      modifies `A1_inv, `A1B, `AB1_A1_inv
      ensures Eliminated(net) && net.I == Contents(I)
      ensures deltaX.Length0 == deltaX.Length1 == deltaY.Length == |boundary_set|
      ensures forall k, l :: 0 <= k < |boundary_set| && 0 <= l < |boundary_set| ==> deltaX[k, l] == DeltaX(net)(k, l)
      ensures forall k :: 0 <= k < |boundary_set| ==> deltaY[k] == DeltaY(net)(k)
    {
      hide Numbered, AtEnd, IsLaplacian, AllLinked, Nonsingular, IsInverse, DeltaX, DeltaY, SlaveGain;
      PartNonsingular(MatrixContents(A), Inner(), I.Length);
      var r, c, g;
      r, c, g, deltaX, deltaY, net := EliminateInterior(A, I, Inner(), |boundary_set|);
      A1_inv, A1B, AB1_A1_inv := r, c, g;
    }

    /** What the coordinator is told of the boundary interfaces. The partners are taken from the
        connections in reverse order. */
    method RegistrationLines(host: string) returns (lines: seq<BoundaryLine>)
      requires Valid() && |boundary_set| <= |dynamic_connections|
      ensures NamesPartners(lines, host, boundary_set, dynamic_connections)
      ensures forall i :: 0 <= i < |lines| ==> lines[i].diagonal == MatrixContents(A)(Inner() + i, Inner() + i)
    {
      lines := [];
      for i := 0 to |boundary_set|
        invariant |lines| == i
        invariant forall k :: 0 <= k < i ==> lines[k].diagonal == MatrixContents(A)(Inner() + k, Inner() + k)
        invariant forall k :: 0 <= k < i
                    ==> NamesPartner(lines[k], host, boundary_set[k], dynamic_connections[|boundary_set| - 1 - k])
      {
        var ss := pi_index_mapping[boundary_set[i]];
        var dc := dynamic_connections[|boundary_set| - 1 - i];
        lines := lines + [BoundaryLine(host + boundary_set[i], A[ss, ss], dc.remote_ip + dc.remote_pi)];
      }
    }

    /** Last part of DynamicCalculation: back substitution, which uses up the interior part of I. */
    method Substitute(VB: array<real>, ghost net: HostNetwork) returns (U: array<real>)
      requires Eliminated(net) && net.I == Contents(I) && VB.Length == |boundary_set| && VB != I
      modifies I
      ensures Eliminated(net) && fresh(U) && U.Length == I.Length
      ensures forall i :: 0 <= i < I.Length ==> U[i] == HostVoltages(net, Contents(VB), |boundary_set|)(i)
      ensures forall i :: 0 <= i < I.Length
                ==> I[i] == if i < net.inner then SecondPhaseInput(Federations.A1B(net), net.I, Contents(VB),
                                                                   |boundary_set|)(i)
                            else old(I[i])
    {
      hide Numbered, AtEnd, IsInverse;
      var inner := Inner();
      SubtractProduct(A1B, VB, I, inner, |boundary_set|, Federations.A1B(net), net.I);
      var V_A := Dgemv(A1_inv, inner, inner, I);
      U := Assemble(V_A, VB);
      SubstitutedAre(net, Contents(I), Contents(V_A), Contents(VB), Contents(U), |boundary_set|);
    }

    /** A coordinated update of the boundary voltages: the same on a copy of I. */
    method DynamicCoordinatedBoundaryUpdate(VB: array<real>, ghost net: HostNetwork) returns (U: array<real>)
      requires Eliminated(net) && net.I == Contents(I) && VB.Length == |boundary_set|
      ensures fresh(U) && U.Length == I.Length
      ensures forall i :: 0 <= i < I.Length ==> U[i] == HostVoltages(net, Contents(VB), |boundary_set|)(i)
    {
      hide Numbered, AtEnd, IsInverse;
      var inner := Inner();
      var I_temp := new real[I.Length](i requires 0 <= i < I.Length reads I => I[i]);
      SubtractProduct(A1B, VB, I_temp, inner, |boundary_set|, Federations.A1B(net), net.I);
      var V_A := Dgemv(A1_inv, inner, inner, I_temp);
      U := Assemble(V_A, VB);
      SubstitutedAre(net, Contents(I_temp), Contents(V_A), Contents(VB), Contents(U), |boundary_set|);
    }

    /** What a load update sends: the corrections of the injections that I holds now. */
    method UpdatedCorrections(ghost net: HostNetwork) returns (deltaY: array<real>)
      requires Eliminated(net) && net.I == Contents(I)
      ensures deltaY.Length == |boundary_set| && forall k :: 0 <= k < |boundary_set| ==> deltaY[k] == DeltaY(net)(k)
    {
      hide Numbered, AtEnd, IsInverse, SlaveGain;
      deltaY := Dgemv(AB1_A1_inv, |boundary_set|, Inner(), I);
      ApplyExt(MatrixContents(AB1_A1_inv), SlaveGain(Federations.A1B(net), net.A1_inv, net.inner), Contents(I), net.I,
               |boundary_set|, net.inner);
    }

    method SetNumbering(bs: seq<string>, idx: map<string, int>, pis: map<int, string>)
      modifies `pi_index_mapping, `index_pi_mapping, `boundary_set
      ensures boundary_set == bs && pi_index_mapping == idx && index_pi_mapping == pis
    {
      boundary_set, pi_index_mapping, index_pi_mapping := bs, idx, pis;
    }
  }

  lemma SwappedRange(i: int, j: int, n: int)
    requires 0 <= i < n && 0 <= j < n
    ensures forall k :: 0 <= k < n ==> 0 <= Swapped(i, j, k) < n
  {}

  lemma SameByNameSelf(A: Mat, B: Mat, I: Vec, idx: map<string, int>, rows: int)
    ensures SameByName(A, B, I, idx, A, B, I, idx, rows)
  {}

  lemma {:induction false} BoundariesGrow(bs: seq<string>, dcs: seq<DynamicConnection>)
    ensures |Boundaries(bs, dcs)| >= |bs| && (dcs != [] ==> Boundaries(bs, dcs) != [])
    decreases dcs
  {
    if dcs != [] {
      BoundariesGrow(if dcs[0].local_pi in bs then bs else [dcs[0].local_pi] + bs, dcs[1..]);
    }
  }

  lemma BoundariesNone(bs: seq<string>, dcs: seq<DynamicConnection>)
    ensures Boundaries(bs, dcs[..0]) == bs
  {}

  lemma BoundariesNext(bs: seq<string>, dcs: seq<DynamicConnection>, i: nat)
    requires i < |dcs|
    ensures var now := Boundaries(bs, dcs[..i]);
            Boundaries(bs, dcs[..i + 1]) == if dcs[i].local_pi in now then now else [dcs[i].local_pi] + now
  {
    assert dcs[..i + 1] == dcs[..i] + [dcs[i]];
    BoundariesConcat(bs, dcs[..i], [dcs[i]]);
  }

  // ----- elimination and back substitution on arrays -----

  method EliminateInterior(A: array2<real>, I: array<real>, inner: nat, b: nat)
    returns (A1_inv: array2<real>, N: array2<real>, AB1: array2<real>, deltaX: array2<real>, deltaY: array<real>,
             ghost net: HostNetwork)
    requires A.Length0 == A.Length1 == I.Length == inner + b && Nonsingular(MatrixContents(A), inner)
    ensures A1_inv.Length0 == A1_inv.Length1 == N.Length0 == inner && N.Length1 == b
    ensures net == HostNetwork(MatrixContents(A), Contents(I), inner, MatrixContents(A1_inv))
    ensures IsInverse(net.A, net.A1_inv, inner)
    ensures forall i, k :: 0 <= i < inner && 0 <= k < b ==> N[i, k] == A1B(net)(i, k)
    ensures AB1.Length0 == b && AB1.Length1 == inner
    ensures forall k, i :: 0 <= k < b && 0 <= i < inner ==> AB1[k, i] == SlaveGain(A1B(net), net.A1_inv, inner)(k, i)
    ensures deltaX.Length0 == deltaX.Length1 == deltaY.Length == b
    ensures forall k, l :: 0 <= k < b && 0 <= l < b ==> deltaX[k, l] == DeltaX(net)(k, l)
    ensures forall k :: 0 <= k < b ==> deltaY[k] == DeltaY(net)(k)
  {
    hide Nonsingular, IsInverse, MatMul, SlaveMatrix, SlaveVector;
    A1_inv := Invert(A, inner);
    N := new real[inner, b]((i, k) requires 0 <= i < inner && 0 <= k < b reads A => A[i, inner + k]);
    net := HostNetwork(MatrixContents(A), Contents(I), inner, MatrixContents(A1_inv));
    AB1 := Dgemm(true, false, N, A1_inv, b, inner, inner);
    deltaX := Dgemm(false, false, AB1, N, b, inner, b);
    deltaY := Dgemv(AB1, b, inner, I);
    DeltasAre(net, MatrixContents(N), MatrixContents(AB1), MatrixContents(deltaX), Contents(deltaY), b);
    GainIs(net, MatrixContents(N), MatrixContents(AB1), b);
  }

  lemma GainIs(net: HostNetwork, N: Mat, g: Mat, b: nat)
    requires forall i, k :: 0 <= i < net.inner && 0 <= k < b ==> N(i, k) == A1B(net)(i, k)
    requires forall k, j :: 0 <= k < b && 0 <= j < net.inner
               ==> g(k, j) == MatMul(Op(true, N), Op(false, net.A1_inv), net.inner)(k, j)
    ensures forall k, i :: 0 <= k < b && 0 <= i < net.inner
              ==> g(k, i) == SlaveGain(A1B(net), net.A1_inv, net.inner)(k, i)
  {
    forall k, i | 0 <= k < b && 0 <= i < net.inner ensures g(k, i) == SlaveGain(A1B(net), net.A1_inv, net.inner)(k, i) {
      DotExt(Row(Transpose(N), k), Row(Transpose(A1B(net)), k),
             Row(Transpose(net.A1_inv), i), Row(Transpose(net.A1_inv), i), net.inner);
    }
  }

  lemma DeltasAre(net: HostNetwork, N: Mat, g: Mat, dX: Mat, dY: Vec, b: nat)
    requires forall i, k :: 0 <= i < net.inner && 0 <= k < b ==> N(i, k) == A1B(net)(i, k)
    requires forall k, j :: 0 <= k < b && 0 <= j < net.inner
               ==> g(k, j) == MatMul(Op(true, N), Op(false, net.A1_inv), net.inner)(k, j)
    requires forall k, l :: 0 <= k < b && 0 <= l < b ==> dX(k, l) == MatMul(Op(false, g), Op(false, N), net.inner)(k, l)
    requires forall k :: 0 <= k < b ==> dY(k) == Apply(g, net.I, net.inner)(k)
    ensures forall k, l :: 0 <= k < b && 0 <= l < b ==> dX(k, l) == DeltaX(net)(k, l)
    ensures forall k :: 0 <= k < b ==> dY(k) == DeltaY(net)(k)
  {
    hide SlaveMatrix, SlaveVector, MatMul;
    GainProducts(g, N, net.A1_inv, net.I, net.inner, b);
    SlaveMatrixExt(N, A1B(net), net.A1_inv, net.inner, b);
    SlaveVectorExt(N, A1B(net), net.A1_inv, net.I, net.I, net.inner, b);
  }

  /** I := I - A1B VB on the interior. */
  method SubtractProduct(N: array2<real>, VB: array<real>, I: array<real>, inner: nat, b: nat, ghost C: Mat,
                         ghost I0: Vec)
    requires N.Length0 == inner && N.Length1 == b == VB.Length && inner <= I.Length && VB != I
    requires forall i, k :: 0 <= i < inner && 0 <= k < b ==> N[i, k] == C(i, k)
    requires forall i :: 0 <= i < I.Length ==> I[i] == I0(i)
    modifies I
    ensures forall i :: 0 <= i < I.Length
              ==> I[i] == if i < inner then SecondPhaseInput(C, I0, Contents(VB), b)(i) else I0(i)
  {
    hide *;
    var A1B_VB := Dgemv(N, inner, b, VB);
    ghost var v := Contents(VB);
    ApplyExt(MatrixContents(N), C, v, v, inner, b);
    SecondPhaseEntries(C, I0, v, b);
    SubtractInPlace(I, A1B_VB, inner);
  }

  lemma SecondPhaseEntries(C: Mat, I: Vec, v: Vec, b: int)
    ensures forall i :: SecondPhaseInput(C, I, v, b)(i) == I(i) - Apply(C, v, b)(i)
  {}

  method SubtractInPlace(I: array<real>, d: array<real>, n: nat)
    requires d != I && n <= d.Length && n <= I.Length
    modifies I
    ensures forall i :: 0 <= i < I.Length ==> I[i] == if i < n then old(I[i]) - d[i] else old(I[i])
  {
    for i := 0 to n
      invariant forall k :: 0 <= k < n ==> d[k] == old(d[k])
      invariant forall k :: 0 <= k < I.Length ==> I[k] == if k < i then old(I[k]) - d[k] else old(I[k])
    {
      I[i] := I[i] - d[i];
    }
  }

  method Assemble(V_A: array<real>, VB: array<real>) returns (U: array<real>)
    ensures fresh(U) && U.Length == V_A.Length + VB.Length
    ensures forall i :: 0 <= i < U.Length ==> U[i] == if i < V_A.Length then V_A[i] else VB[i - V_A.Length]
  {
    U := new real[V_A.Length + VB.Length](_ => 0.0);
    for i := 0 to V_A.Length
      invariant forall k :: 0 <= k < i ==> U[k] == V_A[k]
    {
      U[i] := V_A[i];
    }
    for i := V_A.Length to U.Length
      invariant forall k :: 0 <= k < i ==> U[k] == if k < V_A.Length then V_A[k] else VB[k - V_A.Length]
    {
      U[i] := VB[i - V_A.Length];
    }
  }

  lemma SubstitutedAre(net: HostNetwork, I: Vec, V_A: Vec, v: Vec, U: Vec, b: nat)
    requires forall i :: 0 <= i < net.inner ==> I(i) == SecondPhaseInput(A1B(net), net.I, v, b)(i)
    requires forall i :: 0 <= i < net.inner ==> V_A(i) == Apply(net.A1_inv, I, net.inner)(i)
    requires forall i :: 0 <= i < net.inner + b ==> U(i) == if i < net.inner then V_A(i) else v(i - net.inner)
    ensures forall i :: 0 <= i < net.inner + b ==> U(i) == HostVoltages(net, v, b)(i)
  {
    hide Apply, SecondPhaseInput;
    ApplyExt(net.A1_inv, net.A1_inv, I, SecondPhaseInput(A1B(net), net.I, v, b), net.inner, net.inner);
    forall i | 0 <= i < net.inner + b ensures U(i) == HostVoltages(net, v, b)(i) {
      if i < net.inner {
        assert Apply(net.A1_inv, I, net.inner)(i) == BackSubstitution(net, v, b)(i);
      }
    }
  }

  // ----- the registration message -----

  /** The partners of the message are those of the interfaces' own connections exactly when the
      boundary set runs against the connections. */
  lemma PartnersMatch(bs: seq<string>, dcs: seq<DynamicConnection>)
    requires |bs| == |dcs|
    ensures Aligned(bs, dcs) <==> forall i :: 0 <= i < |bs| ==> dcs[|bs| - 1 - i].local_pi == bs[i]
  {
    var ls := Locals(dcs);
    hide Reverse;
    if forall i :: 0 <= i < |bs| ==> dcs[|bs| - 1 - i].local_pi == bs[i] {
      assert bs == Reverse(ls);
    }
  }
}
