/** The slave of the distributed calculation: it receives one server's block of the network,
    keeps its inverse, and answers the two phases and their updates. */
module PowerSlaves {
  import opened Sums
  import opened LinearAlgebra
  import opened Woodbury
  import opened Gsl

  /** The lines of a message to a slave; zero entries are never sent. */
  datatype Token = YbEntry(row: nat, col: nat, val: real) | NEntry(row: nat, col: nat, val: real)
                 | IEntry(row: nat, val: real)

  /** The lines of a slave's first answer; again zero entries are not sent. */
  datatype Reply = Part1(row: nat, col: nat, val: real) | Part2(row: nat, val: real)

  /** What a fresh matrix or vector holds after the tokens: the last value set, or zero. */
  function YbAt(ts: seq<Token>, i: int, j: int): real {
    if ts == [] then 0.0
    else
      var t := ts[|ts| - 1];
      if t.YbEntry? && t.row == i && t.col == j then t.val else YbAt(ts[..|ts| - 1], i, j)
  }

  function NAt(ts: seq<Token>, i: int, j: int): real {
    if ts == [] then 0.0
    else
      var t := ts[|ts| - 1];
      if t.NEntry? && t.row == i && t.col == j then t.val else NAt(ts[..|ts| - 1], i, j)
  }

  /** The same for a vector that already holds initial. */
  function IAt(ts: seq<Token>, initial: real, i: int): real {
    if ts == [] then initial
    else
      var t := ts[|ts| - 1];
      if t.IEntry? && t.row == i then t.val else IAt(ts[..|ts| - 1], initial, i)
  }

  /** Every token addresses an entry of an n by n, n by l or n-vector. */
  predicate InRange(ts: seq<Token>, n: nat, l: nat) {
    forall k :: 0 <= k < |ts|
      ==> ts[k].row < n && (ts[k].YbEntry? ==> ts[k].col < n) && (ts[k].NEntry? ==> ts[k].col < l)
  }

  /** The total of the values an answer carries for an entry. */
  function Part1Sum(rs: seq<Reply>, i: int, j: int): real {
    if rs == [] then 0.0
    else
      var r := rs[|rs| - 1];
      Part1Sum(rs[..|rs| - 1], i, j) + if r.Part1? && r.row == i && r.col == j then r.val else 0.0
  }

  function Part2Sum(rs: seq<Reply>, i: int): real {
    if rs == [] then 0.0
    else
      var r := rs[|rs| - 1];
      Part2Sum(rs[..|rs| - 1], i) + if r.Part2? && r.row == i then r.val else 0.0
  }

  predicate RepliesInRange(rs: seq<Reply>, l: nat) {
    forall k :: 0 <= k < |rs| ==> rs[k].row < l && (rs[k].Part1? ==> rs[k].col < l)
  }

  /** The matrices are fixed once the first phase has been answered; the two vectors change
      with every update. */
  class PowerSlave {
    const n: nat
    const l: nat
    const N: Mat
    const Y_b_inv: Mat
    const N_TY_b_inv: Mat
    var I: seq<real>
    var I_x: seq<real>

    /** The first request: the message is unpacked, the block inverted, and N' Y_b^-1 kept. */
    constructor (n: nat, l: nat, tokens: seq<Token>)
      requires InRange(tokens, n, l) && Nonsingular((i, j) => YbAt(tokens, i, j), n)
      ensures this.n == n && this.l == l && Ready()
      ensures IsInverse((i, j) => YbAt(tokens, i, j), Y_b_inv, n)
      ensures forall i, j :: 0 <= i < n && 0 <= j < l ==> N(i, j) == NAt(tokens, i, j)
      ensures |I| == n && forall i :: 0 <= i < n ==> I[i] == IAt(tokens, 0.0, i)
    {
      hide Nonsingular, IsInverse, MatMul, InRange, YbAt, NAt, IAt;
      var Y_b, N, I := ParseFirstPhase(n, l, tokens);
      ghost var Y: Mat := (i, j) => YbAt(tokens, i, j);
      NonsingularExt(Y, MatrixContents(Y_b), n);
      var r := Invert(Y_b, n);
      InverseExt(MatrixContents(Y_b), Y, MatrixContents(r), MatrixContents(r), n);
      var g := Dgemm(true, false, N, r, l, n, n);
      this.n, this.l := n, l;
      this.N, this.Y_b_inv, this.N_TY_b_inv := MatrixContents(N), MatrixContents(r), MatrixContents(g);
      this.I, I_x := I[..], [];
    }

    /** N_TY_b_inv is N' Y_b^-1. */
    ghost predicate Ready() {
      forall k, j :: 0 <= k < l && 0 <= j < n ==> N_TY_b_inv(k, j) == SlaveGain(N, Y_b_inv, n)(k, j)
    }

    /** Answers the first phase with N' Y_b^-1 N and N' Y_b^-1 I. */
    method ExecuteFirstPhase() returns (reply: seq<Reply>)
      requires Ready() && |I| == n
      ensures RepliesInRange(reply, l)
      ensures forall i, j :: 0 <= i < l && 0 <= j < l ==> Part1Sum(reply, i, j) == SlaveMatrix(N, Y_b_inv, n)(i, j)
      ensures forall i :: 0 <= i < l ==> Part2Sum(reply, i) == SlaveVector(N, Y_b_inv, VecOf(I), n)(i)
    {
      hide Part1Sum, Part2Sum, MatMul, RepliesInRange;
      var g := MatrixOf(N_TY_b_inv, l, n);
      var b := MatrixOf(N, n, l);
      var m := Dgemm(false, false, g, b, l, n, l);
      ProductExt(MatrixContents(g), N_TY_b_inv, MatrixContents(b), N, l, n);
      GainProducts(N_TY_b_inv, N, Y_b_inv, VecOf(I), n, l);
      reply := MatrixReply(m, l);
      var v := InjectedFlow();
      reply := VectorReply(v, l, reply);
    }

    /** N' Y_b^-1 I for the injections held. */
    method InjectedFlow() returns (v: array<real>)
      requires Ready() && |I| == n
      ensures fresh(v) && v.Length == l && forall i :: 0 <= i < l ==> v[i] == SlaveVector(N, Y_b_inv, VecOf(I), n)(i)
    {
      hide MatMul;
      var g := MatrixOf(N_TY_b_inv, l, n);
      var i := ArrayOf(I);
      v := Dgemv(g, l, n, i);
      ApplyExt(MatrixContents(g), N_TY_b_inv, Contents(i), VecOf(I), l, n);
      GainProducts(N_TY_b_inv, N, Y_b_inv, VecOf(I), n, l);
    }

    /** New injections overwrite old entries of I; what is not sent keeps its old value. */
    method UpdateFirstPhase(tokens: seq<Token>) returns (reply: seq<Reply>)
      requires Ready() && |I| == n && InRange(tokens, n, l)
      modifies this`I
      ensures |I| == n && forall i :: 0 <= i < n ==> I[i] == IAt(tokens, old(I)[i], i)
      ensures RepliesInRange(reply, l)
      ensures forall i, j :: 0 <= i < l && 0 <= j < l ==> Part1Sum(reply, i, j) == 0.0
      ensures forall i :: 0 <= i < l ==> Part2Sum(reply, i) == SlaveVector(N, Y_b_inv, VecOf(I), n)(i)
    {
      I := SetEntries(I, tokens, l);
      var v := InjectedFlow();
      reply := VectorReply(v, l, []);
    }

    /** U = Y_b^-1 I_x for the right-hand side sent by the master. */
    method SecondPhase(tokens: seq<Token>) returns (U: seq<real>)
      requires InRange(tokens, n, l)
      modifies this`I_x
      ensures |I_x| == n && forall i :: 0 <= i < n ==> I_x[i] == IAt(tokens, 0.0, i)
      ensures |U| == n && forall i :: 0 <= i < n ==> U[i] == Apply(Y_b_inv, VecOf(I_x), n)(i)
    {
      I_x := SetEntries(seq(n, _ => 0.0), tokens, l);
      U := Answer();
    }

    /** The same without clearing I_x first. */
    method UpdateSecondPhase(tokens: seq<Token>) returns (U: seq<real>)
      requires |I_x| == n && InRange(tokens, n, l)
      modifies this`I_x
      ensures |I_x| == n && forall i :: 0 <= i < n ==> I_x[i] == IAt(tokens, old(I_x)[i], i)
      ensures |U| == n && forall i :: 0 <= i < n ==> U[i] == Apply(Y_b_inv, VecOf(I_x), n)(i)
    {
      I_x := SetEntries(I_x, tokens, l);
      U := Answer();
    }

    method Answer() returns (U: seq<real>)
      requires |I_x| == n
      ensures |U| == n && forall i :: 0 <= i < n ==> U[i] == Apply(Y_b_inv, VecOf(I_x), n)(i)
    {
      var r := MatrixOf(Y_b_inv, n, n);
      var x := ArrayOf(I_x);
      var u := Dgemv(r, n, n, x);
      ApplyExt(MatrixContents(r), Y_b_inv, Contents(x), VecOf(I_x), n, n);
      U := u[..];
    }
  }

  /** Unpacks a first-phase message into fresh, zeroed storage. */
  method ParseFirstPhase(n: nat, l: nat, tokens: seq<Token>)
    returns (Y_b: array2<real>, N: array2<real>, I: array<real>)
    requires InRange(tokens, n, l)
    ensures fresh(Y_b) && Y_b.Length0 == n && Y_b.Length1 == n
    ensures fresh(N) && N.Length0 == n && N.Length1 == l
    ensures fresh(I) && I.Length == n
    ensures forall i, j :: 0 <= i < n && 0 <= j < n ==> Y_b[i, j] == YbAt(tokens, i, j)
    ensures forall i, j :: 0 <= i < n && 0 <= j < l ==> N[i, j] == NAt(tokens, i, j)
    ensures forall i :: 0 <= i < n ==> I[i] == IAt(tokens, 0.0, i)
  {
    Y_b := ZeroMatrix(n, n);
    N := ZeroMatrix(n, l);
    I := Zeros(n);
    for k := 0 to |tokens|
      invariant forall i, j :: 0 <= i < n && 0 <= j < n ==> Y_b[i, j] == YbAt(tokens[..k], i, j)
      invariant forall i, j :: 0 <= i < n && 0 <= j < l ==> N[i, j] == NAt(tokens[..k], i, j)
      invariant forall i :: 0 <= i < n ==> I[i] == IAt(tokens[..k], 0.0, i)
    {
      assert tokens[..k + 1][..k] == tokens[..k];
      match tokens[k]
      case YbEntry(row, col, val) => Y_b[row, col] := val;
      case NEntry(row, col, val) => N[row, col] := val;
      case IEntry(row, val) => I[row] := val;
    }
    assert tokens[..|tokens|] == tokens;
  }

  method MatrixOf(A: Mat, m: nat, n: nat) returns (a: array2<real>)
    ensures fresh(a) && a.Length0 == m && a.Length1 == n
    ensures forall i, j :: 0 <= i < m && 0 <= j < n ==> MatrixContents(a)(i, j) == A(i, j)
  {
    a := new real[m, n]((i, j) => A(i, j));
  }

  lemma ProductExt(A: Mat, A': Mat, B: Mat, B': Mat, l: int, n: int)
    requires forall i, j :: 0 <= i < l && 0 <= j < n ==> A(i, j) == A'(i, j)
    requires forall i, j :: 0 <= i < n && 0 <= j < l ==> B(i, j) == B'(i, j)
    ensures forall i, j :: 0 <= i < l && 0 <= j < l
              ==> MatMul(Op(false, A), Op(false, B), n)(i, j) == MatMul(A', B', n)(i, j)
  {
    forall i, j | 0 <= i < l && 0 <= j < l ensures MatMul(A, B, n)(i, j) == MatMul(A', B', n)(i, j) {
      DotExt(Row(A, i), Row(A', i), Row(Transpose(B), j), Row(Transpose(B'), j), n);
    }
  }

  function VecOf(s: seq<real>): Vec {
    i => if 0 <= i < |s| then s[i] else 0.0
  }

  method ArrayOf(s: seq<real>) returns (v: array<real>)
    ensures fresh(v) && v.Length == |s| && forall i :: 0 <= i < |s| ==> Contents(v)(i) == VecOf(s)(i)
  {
    v := new real[|s|](i requires 0 <= i < |s| => s[i]);
  }

  /** Stores the vector entries of a message. */
  method SetEntries(start: seq<real>, tokens: seq<Token>, l: nat) returns (v: seq<real>)
    requires InRange(tokens, |start|, l)
    ensures |v| == |start| && forall i :: 0 <= i < |v| ==> v[i] == IAt(tokens, start[i], i)
  {
    v := start;
    for k := 0 to |tokens|
      invariant |v| == |start| && forall i :: 0 <= i < |v| ==> v[i] == IAt(tokens[..k], start[i], i)
    {
      assert tokens[..k + 1][..k] == tokens[..k];
      if tokens[k].IEntry? {
        v := v[tokens[k].row := tokens[k].val];
      }
    }
    assert tokens[..|tokens|] == tokens;
  }

  lemma NoReplies()
    ensures forall i, j :: Part1Sum([], i, j) == 0.0
    ensures forall i :: Part2Sum([], i) == 0.0
  {}

  lemma AppendReply(rs: seq<Reply>, r: Reply)
    ensures forall i, j :: Part1Sum(rs + [r], i, j)
                        == Part1Sum(rs, i, j) + if r.Part1? && r.row == i && r.col == j then r.val else 0.0
    ensures forall i :: Part2Sum(rs + [r], i) == Part2Sum(rs, i) + if r.Part2? && r.row == i then r.val else 0.0
  {
    assert (rs + [r])[..|rs + [r]| - 1] == rs;
  }

  /** Sends the nonzero entries of an l by l matrix. */
  method MatrixReply(m: array2<real>, l: nat) returns (reply: seq<Reply>)
    requires m.Length0 == l && m.Length1 == l
    ensures RepliesInRange(reply, l)
    ensures forall i, j :: 0 <= i < l && 0 <= j < l ==> Part1Sum(reply, i, j) == m[i, j]
    ensures forall i :: 0 <= i < l ==> Part2Sum(reply, i) == 0.0
  {
    reply := [];
    NoReplies();
    hide Part1Sum, Part2Sum;
    for i := 0 to l
      invariant RepliesInRange(reply, l) && forall a :: 0 <= a < l ==> Part2Sum(reply, a) == 0.0
      invariant forall a, b :: 0 <= a < l && 0 <= b < l ==> Part1Sum(reply, a, b) == if a < i then m[a, b] else 0.0
    {
      for j := 0 to l
        invariant RepliesInRange(reply, l) && forall a :: 0 <= a < l ==> Part2Sum(reply, a) == 0.0
        invariant forall a, b :: 0 <= a < l && 0 <= b < l
                    ==> Part1Sum(reply, a, b) == if a < i || (a == i && b < j) then m[a, b] else 0.0
      {
        if m[i, j] != 0.0 {
          AppendReply(reply, Part1(i, j, m[i, j]));
          reply := reply + [Part1(i, j, m[i, j])];
        }
      }
    }
  }

  /** Appends the nonzero entries of an l-vector. */
  method VectorReply(v: array<real>, l: nat, start: seq<Reply>) returns (reply: seq<Reply>)
    requires v.Length == l && RepliesInRange(start, l)
    requires forall i :: 0 <= i < l ==> Part2Sum(start, i) == 0.0
    ensures RepliesInRange(reply, l)
    ensures forall i, j :: 0 <= i < l && 0 <= j < l ==> Part1Sum(reply, i, j) == Part1Sum(start, i, j)
    ensures forall i :: 0 <= i < l ==> Part2Sum(reply, i) == v[i]
  {
    reply := start;
    for i := 0 to l
      invariant RepliesInRange(reply, l)
      invariant forall a, b :: 0 <= a < l && 0 <= b < l ==> Part1Sum(reply, a, b) == Part1Sum(start, a, b)
      invariant forall a :: 0 <= a < l ==> Part2Sum(reply, a) == if a < i then v[a] else 0.0
    {
      if v[i] != 0.0 {
        ghost var before := reply;
        reply := reply + [Part2(i, v[i])];
        assert reply[..|reply| - 1] == before;
      }
    }
  }

  /** Products formed with the stored N' Y_b^-1 are those of the definition. */
  lemma GainProducts(G: Mat, N: Mat, R: Mat, I: Vec, n: int, l: int)
    requires forall k, j :: 0 <= k < l && 0 <= j < n ==> G(k, j) == SlaveGain(N, R, n)(k, j)
    ensures forall i, j :: 0 <= i < l && 0 <= j < l ==> MatMul(G, N, n)(i, j) == SlaveMatrix(N, R, n)(i, j)
    ensures forall i :: 0 <= i < l ==> Apply(G, I, n)(i) == SlaveVector(N, R, I, n)(i)
  {
    var H := SlaveGain(N, R, n);
    forall i, j | 0 <= i < l && 0 <= j < l ensures MatMul(G, N, n)(i, j) == SlaveMatrix(N, R, n)(i, j) {
      DotExt(Row(G, i), Row(H, i), Row(Transpose(N), j), Row(Transpose(N), j), n);
    }
    forall i | 0 <= i < l ensures Apply(G, I, n)(i) == SlaveVector(N, R, I, n)(i) {
      DotExt(Row(G, i), Row(H, i), I, I, n);
    }
  }
}
