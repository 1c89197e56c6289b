/** Messages between the master and the slaves: only nonzero entries are sent, and sums are
    accumulated from the answers. */
module Messages {
  import opened Sums
  import opened LinearAlgebra
  import opened Woodbury
  import opened Gsl
  import opened PowerSlaves

  lemma NoTokens()
    ensures forall n, l :: InRange([], n, l)
    ensures forall i, j :: YbAt([], i, j) == 0.0
    ensures forall i, j :: NAt([], i, j) == 0.0
    ensures forall c, i :: IAt([], c, i) == c
  {}

  lemma AppendToken(ts: seq<Token>, t: Token)
    ensures forall i, j :: YbAt(ts + [t], i, j) == if t.YbEntry? && t.row == i && t.col == j then t.val
                                                   else YbAt(ts, i, j)
    ensures forall i, j :: NAt(ts + [t], i, j) == if t.NEntry? && t.row == i && t.col == j then t.val else NAt(ts, i, j)
    ensures forall c, i :: IAt(ts + [t], c, i) == if t.IEntry? && t.row == i then t.val else IAt(ts, c, i)
  {
    assert (ts + [t])[..|ts + [t]| - 1] == ts;
  }

  /** One server's block of Y_b, rows of N and slice of I. */
  method FirstPhaseMessage(Yb: array2<real>, N: array2<real>, I: array<real>, lo: nat, m: nat, L: nat)
    returns (tokens: seq<Token>)
    requires lo + m <= Yb.Length0 && lo + m <= Yb.Length1 && lo + m <= N.Length0 && L <= N.Length1 && lo + m <= I.Length
    ensures InRange(tokens, m, L)
    ensures forall i, j :: 0 <= i < m && 0 <= j < m ==> YbAt(tokens, i, j) == Yb[lo + i, lo + j]
    ensures forall i, j :: 0 <= i < m && 0 <= j < L ==> NAt(tokens, i, j) == N[lo + i, j]
    ensures forall i :: 0 <= i < m ==> IAt(tokens, 0.0, i) == I[lo + i]
  {
    tokens := BlockTokens(Yb, lo, m, L);
    tokens := RowTokens(N, lo, m, L, tokens);
    tokens := VectorTokens(I, lo, m, L, tokens);
  }

  method BlockTokens(Yb: array2<real>, lo: nat, m: nat, L: nat) returns (tokens: seq<Token>)
    requires lo + m <= Yb.Length0 && lo + m <= Yb.Length1
    ensures InRange(tokens, m, L)
    ensures forall i, j :: 0 <= i < m && 0 <= j < m ==> YbAt(tokens, i, j) == Yb[lo + i, lo + j]
    ensures forall i, j :: NAt(tokens, i, j) == 0.0
    ensures forall c, i :: IAt(tokens, c, i) == c
  {
    tokens := [];
    NoTokens();
    hide YbAt, NAt, IAt;
    for k := 0 to m
      invariant InRange(tokens, m, L) && (forall i, j :: NAt(tokens, i, j) == 0.0)
      invariant forall c, i :: IAt(tokens, c, i) == c
      invariant forall i, j :: 0 <= i < m && 0 <= j < m
                  ==> YbAt(tokens, i, j) == if i < k then Yb[lo + i, lo + j] else 0.0
    {
      for j := 0 to m
        invariant InRange(tokens, m, L) && (forall i, j :: NAt(tokens, i, j) == 0.0)
        invariant forall c, i :: IAt(tokens, c, i) == c
        invariant forall a, b :: 0 <= a < m && 0 <= b < m
                    ==> YbAt(tokens, a, b) == if a < k || (a == k && b < j) then Yb[lo + a, lo + b] else 0.0
      {
        var data := Yb[lo + k, lo + j];
        if data != 0.0 {
          AppendToken(tokens, YbEntry(k, j, data));
          tokens := tokens + [YbEntry(k, j, data)];
        }
      }
    }
  }

  method RowTokens(N: array2<real>, lo: nat, m: nat, L: nat, start: seq<Token>) returns (tokens: seq<Token>)
    requires lo + m <= N.Length0 && L <= N.Length1 && InRange(start, m, L)
    requires forall i, j :: NAt(start, i, j) == 0.0
    ensures InRange(tokens, m, L)
    ensures forall i, j :: YbAt(tokens, i, j) == YbAt(start, i, j)
    ensures forall i, j :: 0 <= i < m && 0 <= j < L ==> NAt(tokens, i, j) == N[lo + i, j]
    ensures forall c, i :: IAt(tokens, c, i) == IAt(start, c, i)
  {
    hide YbAt, NAt, IAt;
    tokens := start;
    for k := 0 to m
      invariant InRange(tokens, m, L) && (forall i, j :: YbAt(tokens, i, j) == YbAt(start, i, j))
      invariant forall c, i :: IAt(tokens, c, i) == IAt(start, c, i)
      invariant forall i, j :: 0 <= i < m && 0 <= j < L ==> NAt(tokens, i, j) == if i < k then N[lo + i, j] else 0.0
    {
      for j := 0 to L
        invariant InRange(tokens, m, L) && (forall i, j :: YbAt(tokens, i, j) == YbAt(start, i, j))
        invariant forall c, i :: IAt(tokens, c, i) == IAt(start, c, i)
        invariant forall a, b :: 0 <= a < m && 0 <= b < L
                    ==> NAt(tokens, a, b) == if a < k || (a == k && b < j) then N[lo + a, b] else 0.0
      {
        var data := N[lo + k, j];
        if data != 0.0 {
          AppendToken(tokens, NEntry(k, j, data));
          tokens := tokens + [NEntry(k, j, data)];
        }
      }
    }
  }

  /** Nonzero entries of a slice: a receiver that holds c keeps c wherever the slice is zero. */
  method VectorTokens(v: array<real>, lo: nat, m: nat, L: nat, start: seq<Token>) returns (tokens: seq<Token>)
    requires lo + m <= v.Length && InRange(start, m, L)
    requires forall c, i :: IAt(start, c, i) == c
    ensures InRange(tokens, m, L)
    ensures forall i, j :: YbAt(tokens, i, j) == YbAt(start, i, j)
    ensures forall i, j :: NAt(tokens, i, j) == NAt(start, i, j)
    ensures forall c, i :: 0 <= i < m ==> IAt(tokens, c, i) == if v[lo + i] != 0.0 then v[lo + i] else c
  {
    hide YbAt, NAt, IAt;
    tokens := start;
    for k := 0 to m
      invariant InRange(tokens, m, L)
      invariant forall i, j :: YbAt(tokens, i, j) == YbAt(start, i, j)
      invariant forall i, j :: NAt(tokens, i, j) == NAt(start, i, j)
      invariant forall c, i :: 0 <= i < m ==> IAt(tokens, c, i) == if i < k && v[lo + i] != 0.0 then v[lo + i] else c
    {
      var data := v[lo + k];
      if data != 0.0 {
        AppendToken(tokens, IEntry(k, data));
        tokens := tokens + [IEntry(k, data)];
      }
    }
  }

  /** Subtracts what a slave sent from the master's matrix and vector. */
  method SubtractReplies(reply: seq<Reply>, L: nat, M: array2<real>, v: array<real>)
    requires M.Length0 == L && M.Length1 == L && v.Length == L && RepliesInRange(reply, L)
    modifies M, v
    ensures forall i, j :: 0 <= i < L && 0 <= j < L ==> M[i, j] == old(M[i, j]) - Part1Sum(reply, i, j)
    ensures forall i :: 0 <= i < L ==> v[i] == old(v[i]) - Part2Sum(reply, i)
  {
    for k := 0 to |reply|
      invariant forall i, j :: 0 <= i < L && 0 <= j < L ==> M[i, j] == old(M[i, j]) - Part1Sum(reply[..k], i, j)
      invariant forall i :: 0 <= i < L ==> v[i] == old(v[i]) - Part2Sum(reply[..k], i)
    {
      assert reply[..k + 1][..k] == reply[..k];
      match reply[k]
      case Part1(row, col, val) => M[row, col] := -val + M[row, col];
      case Part2(row, val) => v[row] := -val + v[row];
    }
    assert reply[..|reply|] == reply;
  }

  /** The same for the answers to an update, of which only the vector part is used. */
  method SubtractSecondParts(reply: seq<Reply>, L: nat, v: array<real>)
    requires v.Length == L && RepliesInRange(reply, L)
    modifies v
    ensures forall i :: 0 <= i < L ==> v[i] == old(v[i]) - Part2Sum(reply, i)
  {
    for k := 0 to |reply|
      invariant forall i :: 0 <= i < L ==> v[i] == old(v[i]) - Part2Sum(reply[..k], i)
    {
      assert reply[..k + 1][..k] == reply[..k];
      if reply[k].Part2? {
        v[reply[k].row] := -reply[k].val + v[reply[k].row];
      }
    }
    assert reply[..|reply|] == reply;
  }

  // ----- equal entries give equal results -----

  lemma SlaveMatrixExt(N: Mat, N': Mat, R: Mat, m: int, L: int)
    requires forall i, l :: 0 <= i < m && 0 <= l < L ==> N(i, l) == N'(i, l)
    ensures forall k, l :: 0 <= k < L && 0 <= l < L ==> SlaveMatrix(N, R, m)(k, l) == SlaveMatrix(N', R, m)(k, l)
  {
    GainExt(N, N', R, m, L);
    forall k, l | 0 <= k < L && 0 <= l < L ensures SlaveMatrix(N, R, m)(k, l) == SlaveMatrix(N', R, m)(k, l) {
      DotExt(Row(SlaveGain(N, R, m), k), Row(SlaveGain(N', R, m), k), Row(Transpose(N), l), Row(Transpose(N'), l), m);
    }
  }

  lemma SlaveVectorExt(N: Mat, N': Mat, R: Mat, I: Vec, I': Vec, m: int, L: int)
    requires forall i, l :: 0 <= i < m && 0 <= l < L ==> N(i, l) == N'(i, l)
    requires forall i :: 0 <= i < m ==> I(i) == I'(i)
    ensures forall k :: 0 <= k < L ==> SlaveVector(N, R, I, m)(k) == SlaveVector(N', R, I', m)(k)
  {
    GainExt(N, N', R, m, L);
    forall k | 0 <= k < L ensures SlaveVector(N, R, I, m)(k) == SlaveVector(N', R, I', m)(k) {
      DotExt(Row(SlaveGain(N, R, m), k), Row(SlaveGain(N', R, m), k), I, I', m);
    }
  }

  lemma GainExt(N: Mat, N': Mat, R: Mat, m: int, L: int)
    requires forall i, l :: 0 <= i < m && 0 <= l < L ==> N(i, l) == N'(i, l)
    ensures forall k, j :: 0 <= k < L ==> SlaveGain(N, R, m)(k, j) == SlaveGain(N', R, m)(k, j)
  {
    forall k, j | 0 <= k < L ensures SlaveGain(N, R, m)(k, j) == SlaveGain(N', R, m)(k, j) {
      DotExt(Row(Transpose(N), k), Row(Transpose(N'), k), Row(Transpose(R), j), Row(Transpose(R), j), m);
    }
  }

  /** The first phase on one server, from the master's point of view. */
  method RequestFirstPhase(Yb: array2<real>, N: array2<real>, I: array<real>, lo: nat, m: nat, L: nat)
    returns (slave: PowerSlave, reply: seq<Reply>)
    requires lo + m <= Yb.Length0 && lo + m <= Yb.Length1 && lo + m <= N.Length0 && L <= N.Length1 && lo + m <= I.Length
    requires Nonsingular(Block(MatrixContents(Yb), lo), m)
    ensures fresh(slave) && slave.Ready() && slave.n == m && slave.l == L && |slave.I| == m
    ensures forall i :: 0 <= i < m ==> slave.I[i] == I[lo + i]
    ensures forall i, l :: 0 <= i < m && 0 <= l < L ==> slave.N(i, l) == N[lo + i, l]
    ensures IsInverse(Block(MatrixContents(Yb), lo), slave.Y_b_inv, m)
    ensures RepliesInRange(reply, L)
    ensures forall k, l :: 0 <= k < L && 0 <= l < L
              ==> Part1Sum(reply, k, l) == SlaveMatrix(RowsFrom(MatrixContents(N), lo), slave.Y_b_inv, m)(k, l)
    ensures forall k :: 0 <= k < L
              ==> Part2Sum(reply, k)
                  == SlaveVector(RowsFrom(MatrixContents(N), lo), slave.Y_b_inv, Slice(Contents(I), lo), m)(k)
  {
    hide Nonsingular, IsInverse, SlaveMatrix, SlaveVector, SlaveGain, Part1Sum, Part2Sum, RepliesInRange, InRange;
    hide YbAt, NAt, IAt;
    var tokens := FirstPhaseMessage(Yb, N, I, lo, m, L);
    ghost var Y: Mat := (i, j) => YbAt(tokens, i, j);
    NonsingularExt(Block(MatrixContents(Yb), lo), Y, m);
    slave := new PowerSlave(m, L, tokens);
    InverseExt(Y, Block(MatrixContents(Yb), lo), slave.Y_b_inv, slave.Y_b_inv, m);
    reply := slave.ExecuteFirstPhase();
    SlaveMatrixExt(slave.N, RowsFrom(MatrixContents(N), lo), slave.Y_b_inv, m, L);
    SlaveVectorExt(slave.N, RowsFrom(MatrixContents(N), lo), slave.Y_b_inv, VecOf(slave.I), Slice(Contents(I), lo), m,
                   L);
  }
}
