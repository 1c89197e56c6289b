/** Two hosts that connect to each other: the names in their messages meet at the coordinator. */
module Handshakes {
  import opened Sequences
  import opened LinearAlgebra
  import opened DynamicConnections
  import opened Registries
  import opened Reconstructions

  /** A host that has made its connections in one batch, and the lines it registers. */
  ghost predicate RegistersOnce(lines: seq<BoundaryLine>, host: string, bs: seq<string>, dcs: seq<DynamicConnection>) {
    && Distinct(Locals(dcs)) && bs == Boundaries([], dcs) && NamesPartners(lines, host, bs, dcs)
  }

  /** The connections ask to connect interface pi with interface remote_pi of host remote. */
  predicate Connects(dcs: seq<DynamicConnection>, pi: string, remote: string, remote_pi: string) {
    exists c :: 0 <= c < |dcs| && dcs[c].local_pi == pi && dcs[c].remote_ip == remote && dcs[c].remote_pi == remote_pi
  }

  /** The line of an interface names the other end of that interface's connection. */
  lemma {:induction false} NamesOtherEnd(lines: seq<BoundaryLine>, host: string, bs: seq<string>,
                                         dcs: seq<DynamicConnection>, i: int, remote: string, remote_pi: string)
    requires RegistersOnce(lines, host, bs, dcs) && 0 <= i < |bs| && Connects(dcs, bs[i], remote, remote_pi)
    ensures |lines| == |bs| && lines[i].id == host + bs[i] && lines[i].partner == remote + remote_pi
  {
    hide Boundaries;
    OneBatchAligned(dcs);
    var c :| 0 <= c < |dcs| && dcs[c].local_pi == bs[i] && dcs[c].remote_ip == remote && dcs[c].remote_pi == remote_pi;
    PartnersMatch(bs, dcs);
    var d := |bs| - 1 - i;
    var locals := Locals(dcs);
    assert locals[c] == locals[d];
    assert NamesPartner(lines[i], host, bs[i], dcs[d]);
  }

  /** Main result: if a host connects its i-th boundary interface with the k-th of another one, and that one
      connects it back, each registers the other's identifier as its partner. */
  lemma {:induction false} NamesMeet(mA: Registration, hostA: string, bsA: seq<string>, dcsA: seq<DynamicConnection>,
                                     mB: Registration, hostB: string, bsB: seq<string>, dcsB: seq<DynamicConnection>,
                                     i: int, k: int)
    requires RegistersOnce(mA.lines, hostA, bsA, dcsA) && RegistersOnce(mB.lines, hostB, bsB, dcsB)
    requires 0 <= i < |bsA| && 0 <= k < |bsB|
    requires Connects(dcsA, bsA[i], hostB, bsB[k]) && Connects(dcsB, bsB[k], hostA, bsA[i])
    ensures |mA.lines| == |bsA| && |mB.lines| == |bsB|
    ensures mA.lines[i].partner == mB.lines[k].id && mB.lines[k].partner == mA.lines[i].id
  {
    hide RegistersOnce, Connects;
    NamesOtherEnd(mA.lines, hostA, bsA, dcsA, i, hostB, bsB[k]);
    NamesOtherEnd(mB.lines, hostB, bsB, dcsB, k, hostA, bsA[i]);
  }

  /** Main result: once both have registered, the boundary matrix ties the two interfaces by -1 in both
      directions and one more on each diagonal, where neither had anything before. */
  lemma {:induction false} InterfacesAreTied(r: Registry, mA: Registration, hostA: string, bsA: seq<string>,
                                             dcsA: seq<DynamicConnection>, mB: Registration, hostB: string,
                                             bsB: seq<string>, dcsB: seq<DynamicConnection>, i: int, k: int)
    requires RegistersOnce(mA.lines, hostA, bsA, dcsA) && RegistersOnce(mB.lines, hostB, bsB, dcsB)
    requires 0 <= i < |bsA| && 0 <= k < |bsB| && hostA != hostB
    requires Connects(dcsA, bsA[i], hostB, bsB[k]) && Connects(dcsB, bsB[k], hostA, bsA[i])
    requires Consistent(r) && CanRegister(r, hostA, mA) && CanRegister(Registered(r, hostA, mA), hostB, mB)
    ensures |mA.lines| == |bsA| && |mB.lines| == |bsB|
    ensures var one := Registered(r, hostA, mA);
            BoundaryMatrix(one)(|r.lines| + i, |r.lines| + i)
            == mA.lines[i].diagonal - EntryOf(mA.deltaX, i, i)
    ensures var two := Registered(Registered(r, hostA, mA), hostB, mB);
            var a, b := |r.lines| + i, |r.lines| + |mA.lines| + k;
            && BoundaryMatrix(two)(a, b) == -1.0 && BoundaryMatrix(two)(b, a) == -1.0
            && BoundaryMatrix(two)(a, a) == mA.lines[i].diagonal + 1.0 - EntryOf(mA.deltaX, i, i)
            && BoundaryMatrix(two)(b, b) == mB.lines[k].diagonal + 1.0 - EntryOf(mB.deltaX, k, k)
  {
    hide *;
    NamesMeet(mA, hostA, bsA, dcsA, mB, hostB, bsB, dcsB, i, k);
    var one := Registered(r, hostA, mA);
    RegisterKeeps(r, hostA, mA);
    LinesOf(r, hostA, mA);
    LinesOf(one, hostB, mB);
    var two := Registered(one, hostB, mB);
    var a, b := |r.lines| + i, |r.lines| + |mA.lines| + k;
    assert two.lines[a] == mA.lines[i] && two.lines[b] == mB.lines[k];
    TiedPair(two.lines, a, b);
    NotYetTied(one.lines, two.lines, a, b);
    CorrectionOfOwn(r, hostA, mA, i);
    CorrectionOfOwn(one, hostB, mB, k);
    CorrectionApart(one, hostB, mB, a, b);
    EntryIs(one, a, a);
    EntryIs(two, a, a);
    EntryIs(two, b, b);
    EntryIs(two, a, b);
    EntryIs(two, b, a);
  }

  lemma EntryIs(r: Registry, i: int, j: int)
    ensures BoundaryMatrix(r)(i, j) == TieEntry(r.lines, i, j) - Correction(r, i, j)
  {}

  lemma LinesOf(r: Registry, h: string, m: Registration)
    requires CanRegister(r, h, m)
    ensures Registered(r, h, m).lines == r.lines + m.lines && DistinctIds(r.lines + m.lines)
  {}

  lemma TiedPair(lines: seq<BoundaryLine>, a: int, b: int)
    requires 0 <= a < |lines| && 0 <= b < |lines| && a != b
    requires lines[a].partner == lines[b].id && lines[b].partner == lines[a].id
    ensures TieEntry(lines, a, b) == -1.0 && TieEntry(lines, b, a) == -1.0
    ensures TieEntry(lines, a, a) == lines[a].diagonal + 1.0 && TieEntry(lines, b, b) == lines[b].diagonal + 1.0
  {}

  /** Before the second host has registered there is nothing to tie to. */
  lemma NotYetTied(one: seq<BoundaryLine>, two: seq<BoundaryLine>, a: int, b: int)
    requires 0 <= a < |one| <= b < |two| && one == two[..|one|] && DistinctIds(two)
    requires two[a].partner == two[b].id
    ensures TieEntry(one, a, a) == one[a].diagonal
  {
    forall c | 0 <= c < |one| ensures one[c].id != two[b].id {
      assert one[c] == two[c];
    }
  }

  /** The host's own correction at its own index; the one of an earlier host stays. */
  lemma CorrectionOfOwn(r: Registry, h: string, m: Registration, i: int)
    requires Consistent(r) && CanRegister(r, h, m) && 0 <= i < |m.lines|
    ensures Correction(Registered(r, h, m), |r.lines| + i, |r.lines| + i) == EntryOf(m.deltaX, i, i)
    ensures forall j :: 0 <= j < |r.lines| ==> Correction(Registered(r, h, m), j, j) == Correction(r, j, j)
  {}

  lemma CorrectionApart(r: Registry, h: string, m: Registration, a: int, b: int)
    requires Consistent(r) && CanRegister(r, h, m) && 0 <= a < |r.lines| <= b < |r.lines| + |m.lines|
    ensures Correction(Registered(r, h, m), a, b) == 0.0 && Correction(Registered(r, h, m), b, a) == 0.0
  {}
}
