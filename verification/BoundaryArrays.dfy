/** The coordinator's boundary matrix as an array that is reallocated, filled, corrected and
    contracted in loops, each tied to the matrix the registry stands for. */
module BoundaryArrays {
  import opened Sequences
  import opened LinearAlgebra
  import opened Gsl
  import opened Registries

  datatype PowerInterface = PowerInterface(id: string, original_diagonal_entry: real, neighbor: string)

  /** The two index maps number the interfaces of lines, and are inverse to each other. */
  ghost predicate Indexed(pi_index: map<string, int>, index_pi: map<int, string>, lines: seq<BoundaryLine>) {
    && (forall i {:trigger lines[i]} :: 0 <= i < |lines| ==> lines[i].id in pi_index && pi_index[lines[i].id] == i)
    && (forall p :: p in pi_index ==> 0 <= pi_index[p] < |lines| && lines[pi_index[p]].id == p)
    && (forall i :: i in index_pi ==> 0 <= i < |lines| && index_pi[i] == lines[i].id)
    && (forall i {:trigger lines[i]} :: 0 <= i < |lines| ==> i in index_pi)
  }

  /** pis holds exactly the interfaces of lines. */
  ghost predicate Describes(pis: map<string, PowerInterface>, lines: seq<BoundaryLine>) {
    && (forall i {:trigger lines[i]} :: 0 <= i < |lines|
          ==> lines[i].id in pis
              && pis[lines[i].id] == PowerInterface(lines[i].id, lines[i].diagonal, lines[i].partner))
    && (forall p :: p in pis ==> Listed(lines, p))
  }

  lemma IndexedListed(pi_index: map<string, int>, index_pi: map<int, string>, lines: seq<BoundaryLine>, p: string)
    requires Indexed(pi_index, index_pi, lines)
    ensures p in pi_index <==> Listed(lines, p)
  {
    if p in pi_index { assert lines[pi_index[p]].id == p; }
  }

  /** A larger matrix with the old one in its corner and zeros elsewhere. */
  method Grown(Y: array2<real>, n: nat, b: nat) returns (Z: array2<real>)
    requires Y.Length0 == Y.Length1 == n
    ensures fresh(Z) && Z.Length0 == Z.Length1 == n + b
    ensures forall j, k :: 0 <= j < n + b && 0 <= k < n + b ==> Z[j, k] == if j < n && k < n then Y[j, k] else 0.0
  {
    Z := ZeroMatrix(n + b, n + b);
    for j := 0 to n
      invariant forall p, q :: 0 <= p < n + b && 0 <= q < n + b ==> Z[p, q] == if p < j && q < n then Y[p, q] else 0.0
    {
      for k := 0 to n
        invariant forall p, q :: 0 <= p < n + b && 0 <= q < n + b
                    ==> Z[p, q] == if q < n && (p < j || (p == j && q < k)) then Y[p, q] else 0.0
      {
        Z[j, k] := Y[j, k];
      }
    }
  }

  method GrownVector(v: array<real>, n: nat, b: nat) returns (w: array<real>)
    requires v.Length == n
    ensures fresh(w) && w.Length == n + b
    ensures forall j :: 0 <= j < n + b ==> w[j] == if j < n then v[j] else 0.0
  {
    w := Zeros(n + b);
    for j := 0 to n
      invariant forall p :: 0 <= p < n + b ==> w[p] == if p < j then v[p] else 0.0
    {
      w[j] := v[j];
    }
  }

  /** The matrix after the interface of line has been entered at index at. */
  function TieStep(Y: Mat, at: int, line: BoundaryLine, pi_index: map<string, int>): Mat {
    if line.partner in pi_index then
      var s := pi_index[line.partner];
      (j, k) => if j == k == at then line.diagonal + 1.0
                else if j == k == s then Y(j, k) + 1.0
                else if (j == at && k == s) || (j == s && k == at) then -1.0
                else Y(j, k)
    else (j, k) => if j == k == at then line.diagonal else Y(j, k)
  }

  /** One registered interface: its diagonal entry, and the tie to its partner if the partner
      is already there. */
  method TieLine(Z: array2<real>, at: nat, line: BoundaryLine, pi_index: map<string, int>)
    requires Z.Length0 == Z.Length1 && at < Z.Length0
    requires line.partner in pi_index ==> 0 <= pi_index[line.partner] < at
    modifies Z
    ensures forall j, k :: 0 <= j < Z.Length0 && 0 <= k < Z.Length0
              ==> Z[j, k] == TieStep(old(MatrixContents(Z)), at, line, pi_index)(j, k)
  {
    if line.partner in pi_index {
      var s := pi_index[line.partner];
      Z[s, at] := -1.0;
      Z[at, s] := -1.0;
      Z[s, s] := Z[s, s] + 1.0;
      Z[at, at] := line.diagonal + 1.0;
    } else {
      Z[at, at] := line.diagonal;
    }
  }

  /** How one more line changes the tie entries. */
  lemma TieAppend(lines: seq<BoundaryLine>, line: BoundaryLine, j: int, k: int)
    requires DistinctIds(lines + [line]) && Mutual(lines + [line]) && 0 <= j <= |lines| && 0 <= k <= |lines|
    ensures line.partner != line.id
    ensures TieEntry(lines + [line], j, k)
         == if j == k == |lines| then line.diagonal + (if Listed(lines, line.partner) then 1.0 else 0.0)
            else if j == k then TieEntry(lines, j, k) + (if lines[j].id == line.partner then 1.0 else 0.0)
            else if j == |lines| then if lines[k].id == line.partner then -1.0 else 0.0
            else if k == |lines| then if lines[j].id == line.partner then -1.0 else 0.0
            else TieEntry(lines, j, k)
  {
    var all, n := lines + [line], |lines|;
    assert all[n] == line && forall i :: 0 <= i < n ==> all[i] == lines[i];
    ListedAppend(lines, [line], all[j].partner);
    assert Listed([line], all[j].partner) <==> line.id == all[j].partner by {
      assert [line][0].id == line.id;
    }
    if j < n && lines[j].partner == line.id {
      assert all[j].partner == all[n].id;
    }
    if j < n && lines[j].id == line.partner {
      assert all[n].partner == all[j].id;
    }
    hide Listed;
    if j == k < n && lines[j].id == line.partner {
      NotListedTwice(lines, line);
    }
  }

  lemma NotListedTwice(lines: seq<BoundaryLine>, line: BoundaryLine)
    requires DistinctIds(lines + [line])
    ensures !Listed(lines, line.id)
  {
    forall k | 0 <= k < |lines| ensures lines[k].id != line.id {
      assert (lines + [line])[k].id != (lines + [line])[|lines|].id;
    }
  }

  lemma PrefixLines(a: seq<BoundaryLine>, b: seq<BoundaryLine>, i: nat)
    requires i < |b| && DistinctIds(a + b) && Mutual(a + b)
    ensures a + b[..i + 1] == (a + b[..i]) + [b[i]]
    ensures DistinctIds(a + b[..i + 1]) && Mutual(a + b[..i + 1])
  {
    var c := a + b[..i + 1];
    assert forall k :: 0 <= k < |c| ==> c[k] == (a + b)[k];
  }

  /** What the matrix holds while lines are being registered: their tie entries, less the
      corrections C of those already there. */
  ghost predicate HoldsTies(Z: array2<real>, lines: seq<BoundaryLine>, C: Mat)
    reads Z
  {
    && |lines| <= Z.Length0 == Z.Length1
    && forall j, k :: 0 <= j < Z.Length0 && 0 <= k < Z.Length0 ==> Z[j, k] == TieEntry(lines, j, k) - C(j, k)
  }

  /** One step of the registration loop. */
  method RegisterLine(Z: array2<real>, at: nat, line: BoundaryLine, pi_index: map<string, int>,
                      index_pi: map<int, string>, pis: map<string, PowerInterface>, ghost lines: seq<BoundaryLine>,
                      ghost C: Mat)
    returns (pi_index': map<string, int>, index_pi': map<int, string>, pis': map<string, PowerInterface>)
    requires HoldsTies(Z, lines, C) && at == |lines| < Z.Length0 && DistinctIds(lines + [line])
    requires Mutual(lines + [line])
    requires forall j, k :: 0 <= j < Z.Length0 && 0 <= k < Z.Length0 && (j >= |lines| || k >= |lines|)
               ==> C(j, k) == 0.0
    requires Indexed(pi_index, index_pi, lines) && Describes(pis, lines)
    modifies Z
    ensures HoldsTies(Z, lines + [line], C)
    ensures Indexed(pi_index', index_pi', lines + [line]) && Describes(pis', lines + [line])
  {
    pi_index' := pi_index[line.id := at];
    index_pi' := index_pi[at := line.id];
    pis' := pis[line.id := PowerInterface(line.id, line.diagonal, line.partner)];
    MapsAppend(pi_index, index_pi, pis, lines, line);
    IndexedListed(pi_index, index_pi, lines, line.partner);
    TieAppend(lines, line, 0, 0);
    assert pi_index'.Keys == pi_index.Keys + {line.id};
    hide *;
    ghost var before := MatrixContents(Z);
    TieLine(Z, at, line, pi_index');
    TiesAppended(before, lines, line, pi_index, index_pi, C, Z.Length0);
    IsTies(Z, lines + [line], C);
  }

  lemma IsTies(Z: array2<real>, lines: seq<BoundaryLine>, C: Mat)
    requires |lines| <= Z.Length0 == Z.Length1
    requires forall j, k :: 0 <= j < Z.Length0 && 0 <= k < Z.Length0 ==> Z[j, k] == TieEntry(lines, j, k) - C(j, k)
    ensures HoldsTies(Z, lines, C)
  {}

  lemma TiesAppended(Y: Mat, lines: seq<BoundaryLine>, line: BoundaryLine, pi_index: map<string, int>,
                     index_pi: map<int, string>, C: Mat, N: int)
    requires DistinctIds(lines + [line]) && Mutual(lines + [line]) && |lines| < N && Indexed(pi_index, index_pi, lines)
    requires forall j, k :: 0 <= j < N && 0 <= k < N ==> Y(j, k) == TieEntry(lines, j, k) - C(j, k)
    requires forall j, k :: 0 <= j < N && 0 <= k < N && (j >= |lines| || k >= |lines|) ==> C(j, k) == 0.0
    ensures forall j, k :: 0 <= j < N && 0 <= k < N
              ==> TieStep(Y, |lines|, line, pi_index[line.id := |lines|])(j, k)
                  == TieEntry(lines + [line], j, k) - C(j, k)
  {
    IndexedListed(pi_index, index_pi, lines, line.partner);
    forall j, k | 0 <= j < N && 0 <= k < N
      ensures TieStep(Y, |lines|, line, pi_index[line.id := |lines|])(j, k) == TieEntry(lines + [line], j, k) - C(j, k)
    {
      if j <= |lines| && k <= |lines| {
        TieAppend(lines, line, j, k);
        hide Mutual, DistinctIds, Listed;
      }
    }
  }

  lemma MapsAppend(pi_index: map<string, int>, index_pi: map<int, string>, pis: map<string, PowerInterface>,
                   lines: seq<BoundaryLine>, line: BoundaryLine)
    requires Indexed(pi_index, index_pi, lines) && Describes(pis, lines) && DistinctIds(lines + [line])
    ensures Indexed(pi_index[line.id := |lines|], index_pi[|lines| := line.id], lines + [line])
    ensures Describes(pis[line.id := PowerInterface(line.id, line.diagonal, line.partner)], lines + [line])
  {
    var all, n := lines + [line], |lines|;
    var pi_index', index_pi' := pi_index[line.id := n], index_pi[n := line.id];
    var pis' := pis[line.id := PowerInterface(line.id, line.diagonal, line.partner)];
    forall i | 0 <= i < |all|
      ensures all[i].id in pi_index' && pi_index'[all[i].id] == i && i in index_pi'
      ensures all[i].id in pis' && pis'[all[i].id] == PowerInterface(all[i].id, all[i].diagonal, all[i].partner)
    {
      if i < n {
        assert all[i] == lines[i] && all[i].id != all[n].id;
      }
    }
    forall p | p in pi_index' ensures 0 <= pi_index'[p] < |all| && all[pi_index'[p]].id == p {
      if p != line.id { assert all[pi_index[p]] == lines[pi_index[p]]; }
    }
    forall p | p in pis' ensures Listed(all, p) {
      ListedAppend(lines, [line], p);
      if p == line.id { assert [line][0].id == p; }
    }
  }

  /** The registration loop: all lines of one host, numbered from at on. */
  method RegisterLines(Z: array2<real>, at: nat, added: seq<BoundaryLine>, pi_index: map<string, int>,
                       index_pi: map<int, string>, pis: map<string, PowerInterface>, ghost lines: seq<BoundaryLine>,
                       ghost C: Mat)
    returns (pi_index': map<string, int>, index_pi': map<int, string>, pis': map<string, PowerInterface>)
    requires HoldsTies(Z, lines, C) && at == |lines| && Z.Length0 == at + |added|
    requires DistinctIds(lines + added) && Mutual(lines + added)
    requires forall j, k :: 0 <= j < Z.Length0 && 0 <= k < Z.Length0 && (j >= |lines| || k >= |lines|)
               ==> C(j, k) == 0.0
    requires Indexed(pi_index, index_pi, lines) && Describes(pis, lines)
    modifies Z
    ensures HoldsTies(Z, lines + added, C)
    ensures Indexed(pi_index', index_pi', lines + added) && Describes(pis', lines + added)
  {
    hide *;
    pi_index', index_pi', pis' := pi_index, index_pi, pis;
    assert lines + added[..0] == lines;
    for i := 0 to |added|
      invariant HoldsTies(Z, lines + added[..i], C)
      invariant Indexed(pi_index', index_pi', lines + added[..i]) && Describes(pis', lines + added[..i])
    {
      PrefixLines(lines, added, i);
      pi_index', index_pi', pis' :=
        RegisterLine(Z, at + i, added[i], pi_index', index_pi', pis', lines + added[..i], C);
    }
    assert added[..|added|] == added;
  }

  /** The new host's corrections are subtracted from its own block. */
  method SubtractDelta(Z: array2<real>, n: nat, deltaX: seq<seq<real>>)
    requires Z.Length0 == Z.Length1 == n + |deltaX| && forall i :: 0 <= i < |deltaX| ==> |deltaX[i]| == |deltaX|
    modifies Z
    ensures forall j, k :: 0 <= j < Z.Length0 && 0 <= k < Z.Length0
              ==> Z[j, k] == old(Z[j, k]) - if j >= n && k >= n then EntryOf(deltaX, j - n, k - n) else 0.0
  {
    var b := |deltaX|;
    for i := 0 to b
      invariant forall j, k :: 0 <= j < n + b && 0 <= k < n + b
                  ==> Z[j, k] == old(Z[j, k]) - if n <= j < n + i && k >= n then EntryOf(deltaX, j - n, k - n) else 0.0
    {
      for l := 0 to b
        invariant forall j, k :: 0 <= j < n + b && 0 <= k < n + b
                    ==> Z[j, k] == old(Z[j, k]) - if k >= n && (n <= j < n + i || (j == n + i && k < n + l))
                                                  then EntryOf(deltaX, j - n, k - n) else 0.0
      {
        Z[n + i, n + l] := Z[n + i, n + l] - deltaX[i][l];
      }
    }
  }

  // ----- cancelling -----

  /** Every interface that is listed names a partner that is listed too. */
  ghost predicate PartnersListed(lines: seq<BoundaryLine>, ids: seq<string>) {
    forall i {:trigger lines[i]} :: 0 <= i < |lines| && lines[i].id in ids ==> Listed(lines, lines[i].partner)
  }

  /** One off the diagonal of the partner of every cancelled interface. */
  method DropTies(Y: array2<real>, ids: seq<string>, pis: map<string, PowerInterface>, pi_index: map<string, int>,
                  ghost index_pi: map<int, string>, ghost lines: seq<BoundaryLine>)
    requires Y.Length0 == Y.Length1 == |lines| && DistinctIds(lines) && Mutual(lines) && Distinct(ids)
    requires Indexed(pi_index, index_pi, lines) && Describes(pis, lines) && PartnersListed(lines, ids)
    modifies Y
    ensures forall j, k :: 0 <= j < |lines| && 0 <= k < |lines|
              ==> Y[j, k] == old(Y[j, k]) - if j == k && lines[j].partner in ids
                  && Listed(lines, lines[j].partner) then 1.0 else 0.0
  {
    hide DistinctIds, Mutual, Indexed, Describes, PartnersListed, Distinct, Listed;
    for i := 0 to |ids|
      invariant forall j, k :: 0 <= j < |lines| && 0 <= k < |lines|
                  ==> Y[j, k] == old(Y[j, k]) - if j == k && lines[j].partner in ids[..i]
                      && Listed(lines, lines[j].partner)
                                                then 1.0 else 0.0
    {
      DropFacts(ids, i, pis, pi_index, index_pi, lines);
      if ids[i] in pis {
        var s := pi_index[pis[ids[i]].neighbor];
        Y[s, s] := Y[s, s] - 1.0;
      }
    }
    assert ids[..|ids|] == ids;
  }

  /** Only the partner of ids[i] names it, and it was not named before. */
  lemma DropFacts(ids: seq<string>, i: nat, pis: map<string, PowerInterface>, pi_index: map<string, int>,
                  index_pi: map<int, string>, lines: seq<BoundaryLine>)
    requires i < |ids| && DistinctIds(lines) && Mutual(lines) && Distinct(ids)
    requires Indexed(pi_index, index_pi, lines) && Describes(pis, lines) && PartnersListed(lines, ids)
    ensures ids[..i + 1] == ids[..i] + [ids[i]] && ids[i] !in ids[..i]
    ensures ids[i] in pis <==> Listed(lines, ids[i])
    ensures ids[i] in pis ==> pis[ids[i]].neighbor in pi_index
    ensures ids[i] in pis ==> var s := pi_index[pis[ids[i]].neighbor];
              0 <= s < |lines| && lines[s].partner == ids[i]
              && forall j :: 0 <= j < |lines| && lines[j].partner == ids[i] ==> j == s
    ensures ids[i] !in pis
      ==> forall j :: 0 <= j < |lines| && lines[j].partner == ids[i] ==> !Listed(lines, lines[j].partner)
  {
    IndexedListed(pi_index, index_pi, lines, ids[i]);
    if ids[i] in pis {
      var t := pi_index[ids[i]];
      var p := lines[t].partner;
      assert lines[t].id == ids[i];
      IndexedListed(pi_index, index_pi, lines, p);
      var s := pi_index[p];
      assert lines[t].partner == lines[s].id;
      forall j | 0 <= j < |lines| && lines[j].partner == ids[i] ensures j == s {
        assert lines[j].partner == lines[t].id;
        assert lines[t].partner == lines[j].id;
      }
    }
  }

  /** The matrix without the rows and columns of one range, copied in four blocks. */
  method Contracted(Y: array2<real>, n: nat, start: nat, count: nat) returns (Z: array2<real>)
    requires Y.Length0 == Y.Length1 == n && start + count <= n
    ensures fresh(Z) && Z.Length0 == Z.Length1 == n - count
    ensures forall i, j :: 0 <= i < n - count && 0 <= j < n - count
              ==> Z[i, j] == Y[Unshifted(i, start, count), Unshifted(j, start, count)]
  {
    Z := ZeroMatrix(n - count, n - count);
    CopyBlock(Y, Z, 0, start, 0, start, 0, 0);
    CopyBlock(Y, Z, start + count, n, 0, start, count, 0);
    CopyBlock(Y, Z, 0, start, start + count, n, 0, count);
    CopyBlock(Y, Z, start + count, n, start + count, n, count, count);
  }

  method CopyBlock(Y: array2<real>, Z: array2<real>, top: nat, bottom: nat, left: nat, right: nat, up: nat, back: nat)
    requires top <= bottom <= Y.Length0 && left <= right <= Y.Length1 && up <= top && back <= left && Y != Z
    requires bottom - up <= Z.Length0 && right - back <= Z.Length1
    modifies Z
    ensures forall i, j :: 0 <= i < Z.Length0 && 0 <= j < Z.Length1
              ==> Z[i, j] == if top <= i + up < bottom && left <= j + back < right then Y[i + up, j + back]
                             else old(Z[i, j])
  {
    for r := top to bottom
      invariant forall i, j :: 0 <= i < Z.Length0 && 0 <= j < Z.Length1
                  ==> Z[i, j] == if top <= i + up < r && left <= j + back < right then Y[i + up, j + back]
                                 else old(Z[i, j])
    {
      for c := left to right
        invariant forall i, j :: 0 <= i < Z.Length0 && 0 <= j < Z.Length1
                    ==> Z[i, j] == if left <= j + back < right && (top <= i + up < r || (i + up == r && j + back < c))
                                   then Y[i + up, j + back] else old(Z[i, j])
      {
        Z[r - up, c - back] := Y[r, c];
      }
    }
  }

  /** Indices beyond the cancelled range move down. */
  method ShiftIndexes(pi_index: map<string, int>, index: int, count: int) returns (shifted: map<string, int>)
    ensures shifted.Keys == pi_index.Keys
    ensures forall p :: p in pi_index ==> shifted[p] == if pi_index[p] > index then pi_index[p] - count else pi_index[p]
  {
    shifted := pi_index;
    var todo := pi_index.Keys;
    while todo != {}
      invariant todo <= pi_index.Keys == shifted.Keys
      invariant forall p :: p in pi_index
                  ==> shifted[p] == if p !in todo && pi_index[p] > index then pi_index[p] - count else pi_index[p]
      decreases |todo|
    {
      var p :| p in todo;
      if shifted[p] > index {
        shifted := shifted[p := shifted[p] - count];
      }
      todo := todo - {p};
    }
  }

  /** The inverse map is built anew. */
  method InvertIndex(pi_index: map<string, int>) returns (index_pi: map<int, string>)
    requires forall p :: p in pi_index ==> pi_index[p] >= 0
    requires forall p, q :: p in pi_index && q in pi_index && pi_index[p] == pi_index[q] ==> p == q
    ensures forall p :: p in pi_index ==> pi_index[p] in index_pi && index_pi[pi_index[p]] == p
    ensures forall i :: i in index_pi ==> index_pi[i] in pi_index && pi_index[index_pi[i]] == i
  {
    index_pi := map[];
    var todo := pi_index.Keys;
    while todo != {}
      invariant todo <= pi_index.Keys
      invariant forall p :: p in pi_index && p !in todo ==> pi_index[p] in index_pi && index_pi[pi_index[p]] == p
      invariant forall i :: i in index_pi ==> index_pi[i] in pi_index && pi_index[index_pi[i]] == i
      decreases |todo|
    {
      var p :| p in todo;
      index_pi := index_pi[pi_index[p] := p];
      todo := todo - {p};
    }
  }

  method Erase<V>(m: map<string, V>, ids: seq<string>) returns (r: map<string, V>)
    ensures forall p :: p in r <==> p in m && p !in ids
    ensures forall p :: p in r ==> r[p] == m[p]
  {
    r := m;
    for i := 0 to |ids|
      invariant forall p :: p in r <==> p in m && p !in ids[..i]
      invariant forall p :: p in r ==> r[p] == m[p]
    {
      r := r - {ids[i]};
    }
  }

  /** ids lists exactly the interfaces of the range. */
  ghost predicate ListsRange(ids: seq<string>, lines: seq<BoundaryLine>, start: int, count: int) {
    forall i {:trigger lines[i]} :: 0 <= i < |lines| ==> (lines[i].id in ids <==> start <= i < start + count)
  }

  /** The maps and records that remain of a cancelled range. */
  method CancelMaps(pi_index: map<string, int>, pis: map<string, PowerInterface>, ids: seq<string>, count: nat,
                    ghost index_pi: map<int, string>, ghost lines: seq<BoundaryLine>, ghost start: nat)
    returns (pi_index': map<string, int>, index_pi': map<int, string>, pis': map<string, PowerInterface>)
    requires start + count <= |lines| && Indexed(pi_index, index_pi, lines) && Describes(pis, lines)
    requires DistinctIds(lines)
    requires |ids| > 0 && ids[0] in pi_index && ListsRange(ids, lines, start, count)
    ensures Indexed(pi_index', index_pi', Without(lines, start, count)) && Describes(pis', Without(lines, start, count))
  {
    hide Indexed, Describes, DistinctIds, ListsRange, Without;
    pis' := Erase(pis, ids);
    DescribesLess(pis, pis', ids, lines, start, count);
    var index := pi_index[ids[0]];
    var shifted := ShiftIndexes(pi_index, index, count);
    pi_index' := Erase(shifted, ids);
    IndexLess(pi_index, pi_index', ids, index, index_pi, lines, start, count);
    index_pi' := InvertIndex(pi_index');
    InverseIndexes(pi_index', index_pi', Without(lines, start, count));
  }

  lemma DescribesLess(pis: map<string, PowerInterface>, pis': map<string, PowerInterface>, ids: seq<string>,
                      lines: seq<BoundaryLine>, start: nat, count: nat)
    requires start + count <= |lines| && Describes(pis, lines) && ListsRange(ids, lines, start, count)
    requires forall p :: p in pis' <==> p in pis && p !in ids
    requires forall p :: p in pis' ==> pis'[p] == pis[p]
    ensures Describes(pis', Without(lines, start, count))
  {
    var t := Without(lines, start, count);
    hide Without;
    forall i | 0 <= i < |t|
      ensures t[i].id in pis' && pis'[t[i].id] == PowerInterface(t[i].id, t[i].diagonal, t[i].partner)
    {
      assert t[i] == lines[Unshifted(i, start, count)];
    }
    forall p | p in pis' ensures Listed(t, p) {
      assert Listed(lines, p);
      var k :| 0 <= k < |lines| && lines[k].id == p;
      assert t[if k < start then k else k - count].id == p;
    }
  }

  /** pi_index numbers the interfaces of lines. */
  ghost predicate Numbers(pi_index: map<string, int>, lines: seq<BoundaryLine>) {
    && (forall i {:trigger lines[i]} :: 0 <= i < |lines| ==> lines[i].id in pi_index && pi_index[lines[i].id] == i)
    && (forall p :: p in pi_index ==> 0 <= pi_index[p] < |lines| && lines[pi_index[p]].id == p)
  }

  lemma IndexLess(pi_index: map<string, int>, pi_index': map<string, int>, ids: seq<string>, index: int,
                  index_pi: map<int, string>, lines: seq<BoundaryLine>, start: nat, count: nat)
    requires start + count <= |lines| && Indexed(pi_index, index_pi, lines) && ListsRange(ids, lines, start, count)
    requires |ids| > 0 && ids[0] in pi_index && index == pi_index[ids[0]]
    requires forall p :: p in pi_index' <==> p in pi_index && p !in ids
    requires forall p :: p in pi_index'
               ==> pi_index'[p] == if pi_index[p] > index then pi_index[p] - count else pi_index[p]
    ensures Numbers(pi_index', Without(lines, start, count))
    ensures forall p :: p in pi_index' ==> pi_index'[p] >= 0
    ensures forall p, q :: p in pi_index' && q in pi_index' && pi_index'[p] == pi_index'[q] ==> p == q
  {
    var t := Without(lines, start, count);
    hide Without, Indexed, ListsRange;
    forall i | 0 <= i < |t| ensures t[i].id in pi_index' && pi_index'[t[i].id] == i {
      IndexStays(pi_index, pi_index', ids, index, index_pi, lines, start, count, i);
    }
    forall p | p in pi_index' ensures 0 <= pi_index'[p] < |t| && t[pi_index'[p]].id == p {
      NameStays(pi_index, pi_index', ids, index, index_pi, lines, start, count, p);
    }
    OneNumber(pi_index', t);
  }

  lemma IndexStays(pi_index: map<string, int>, pi_index': map<string, int>, ids: seq<string>, index: int,
                   index_pi: map<int, string>, lines: seq<BoundaryLine>, start: nat, count: nat, i: int)
    requires start + count <= |lines| && Indexed(pi_index, index_pi, lines) && ListsRange(ids, lines, start, count)
    requires |ids| > 0 && ids[0] in pi_index && index == pi_index[ids[0]]
    requires forall p :: p in pi_index' <==> p in pi_index && p !in ids
    requires forall p :: p in pi_index'
               ==> pi_index'[p] == if pi_index[p] > index then pi_index[p] - count else pi_index[p]
    requires 0 <= i < |lines| - count
    ensures var t := Without(lines, start, count);
            t[i].id in pi_index' && pi_index'[t[i].id] == i
  {
    var t, u := Without(lines, start, count), Unshifted(i, start, count);
    assert t[i] == lines[u];
    hide Without;
    assert lines[index].id == ids[0] && start <= index < start + count;
    assert lines[u].id in pi_index && pi_index[lines[u].id] == u && lines[u].id !in ids;
  }

  lemma NameStays(pi_index: map<string, int>, pi_index': map<string, int>, ids: seq<string>, index: int,
                  index_pi: map<int, string>, lines: seq<BoundaryLine>, start: nat, count: nat, p: string)
    requires start + count <= |lines| && Indexed(pi_index, index_pi, lines) && ListsRange(ids, lines, start, count)
    requires |ids| > 0 && ids[0] in pi_index && index == pi_index[ids[0]]
    requires forall p :: p in pi_index' <==> p in pi_index && p !in ids
    requires forall p :: p in pi_index'
               ==> pi_index'[p] == if pi_index[p] > index then pi_index[p] - count else pi_index[p]
    requires p in pi_index'
    ensures 0 <= pi_index'[p] < |lines| - count && Without(lines, start, count)[pi_index'[p]].id == p
  {
    assert lines[index].id == ids[0] && start <= index < start + count;
    assert lines[pi_index[p]].id == p && !(start <= pi_index[p] < start + count);
  }

  lemma OneNumber(pi_index: map<string, int>, lines: seq<BoundaryLine>)
    requires Numbers(pi_index, lines)
    ensures forall p :: p in pi_index ==> pi_index[p] >= 0
    ensures forall p, q :: p in pi_index && q in pi_index && pi_index[p] == pi_index[q] ==> p == q
  {}

  lemma InverseIndexes(pi_index: map<string, int>, index_pi: map<int, string>, lines: seq<BoundaryLine>)
    requires Numbers(pi_index, lines)
    requires forall p :: p in pi_index ==> pi_index[p] in index_pi && index_pi[pi_index[p]] == p
    requires forall i :: i in index_pi ==> index_pi[i] in pi_index && pi_index[index_pi[i]] == i
    ensures Indexed(pi_index, index_pi, lines)
  {
    forall i | 0 <= i < |lines| ensures i in index_pi {
      assert pi_index[lines[i].id] == i;
    }
    forall i | i in index_pi ensures 0 <= i < |lines| && index_pi[i] == lines[i].id {
      assert pi_index[index_pi[i]] == i;
    }
  }
}
