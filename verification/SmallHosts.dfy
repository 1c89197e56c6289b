/** Two small hosts for examples: an interface in the middle, joined to one or to two boundary interfaces
    by lines of resistance 1. */
module SmallHosts {
  import opened Sums
  import opened LinearAlgebra
  import opened Laplacians
  import opened Woodbury
  import opened Federations
  import opened FederatedEnergy

  lemma SumThree(f: Vec)
    ensures Sum(f, 0, 3) == f(0) + f(1) + f(2) && Sum(f, 0, 2) == f(0) + f(1) && Sum(f, 0, 1) == f(0)
  {
    assert Sum(f, 0, 2) == Sum(f, 0, 1) + f(1);
    assert Sum(f, 0, 1) == Sum(f, 0, 0) + f(0);
  }

  /** One boundary interface, and an injection in the middle. */
  function Pair(injected: real): HostNetwork {
    HostNetwork((i, j) => if i == j then 1.0 else -1.0, i => if i == 0 then injected else 0.0, 1, (_, _) => 1.0)
  }

  lemma PairConducts(injected: real)
    ensures Conducting(Pair(injected), 1) && IsInverse(Pair(injected).A, Pair(injected).A1_inv, 1)
  {
    var net := Pair(injected);
    var A, c := net.A, Row(Transpose(net.A1_inv), 0);
    forall i | 0 <= i < 2 ensures Sum(Row(A, i), 0, 2) == 0.0 {
      SumThree(Row(A, i));
    }
    forall i, j | 0 <= i < 2 && 0 <= j < 2 ensures Linked(A, 2, i, j) {
      var w := [i, j];
      assert w[|w| - 1] == j && IsWalk(A, 2, w);
    }
    SumThree(Times(Row(A, 0), c));
    assert Apply(A, c, 1)(0) == Unit(0)(0);
  }

  lemma PairProducts(injected: real)
    ensures DeltaY(Pair(injected))(0) == -injected && DeltaX(Pair(injected))(0, 0) == 1.0
  {
    var net := Pair(injected);
    var N, R := A1B(net), net.A1_inv;
    var g := SlaveGain(N, R, 1);
    SumThree(Times(Row(Transpose(N), 0), Row(Transpose(R), 0)));
    assert g(0, 0) == -1.0;
    SumThree(Times(Row(g, 0), net.I));
    SumThree(Times(Row(g, 0), Row(Transpose(N), 0)));
  }

  /** The same with two boundary interfaces and no injection. */
  function ForkEntry(i: int, j: int): real {
    if i == j then (if i == 0 then 2.0 else 1.0) else if i == 0 || j == 0 then -1.0 else 0.0
  }

  function Fork(): HostNetwork {
    HostNetwork((i, j) => ForkEntry(i, j), ZERO, 1, (_, _) => 0.5)
  }

  lemma ForkConducts()
    ensures Conducting(Fork(), 2)
  {
    var A := Fork().A;
    forall i | 0 <= i < 3 ensures Sum(Row(A, i), 0, 3) == 0.0 {
      SumThree(Row(A, i));
    }
    forall i, j | 0 <= i < 3 && 0 <= j < 3 ensures Linked(A, 3, i, j) {
      var w := [i, 0, j];
      assert w[|w| - 1] == j && IsWalk(A, 3, w);
    }
  }

  lemma ForkInverse()
    ensures IsInverse(Fork().A, Fork().A1_inv, 1)
  {
    var net := Fork();
    var c := Row(Transpose(net.A1_inv), 0);
    SumThree(Times(Row(net.A, 0), c));
    assert Apply(net.A, c, 1)(0) == Unit(0)(0);
  }

  ghost predicate IsFork(net: HostNetwork) {
    net.inner == 1 && net.A == Fork().A && net.A1_inv == Fork().A1_inv
  }

  lemma ForkVoltages(net: HostNetwork, v: Vec)
    requires IsFork(net)
    ensures Apply(A1B(net), v, 2)(0) == -v(0) - v(1)
    ensures BackSubstitution(net, v, 2)(0) == 0.5 * (net.I(0) + v(0) + v(1))
  {
    var N, R, s := A1B(net), net.A1_inv, SecondPhaseInput(A1B(net), net.I, v, 2);
    SumThree(Times(Row(N, 0), v));
    assert Apply(N, v, 2)(0) == -v(0) - v(1);
    SumThree(Times(Row(R, 0), s));
  }

  lemma ForkGain(net: HostNetwork, k: int)
    requires IsFork(net) && 0 <= k < 2
    ensures SlaveGain(A1B(net), net.A1_inv, 1)(k, 0) == -0.5 && A1B(net)(0, k) == -1.0
  {
    SumThree(Times(Row(Transpose(A1B(net)), k), Row(Transpose(net.A1_inv), 0)));
  }

  lemma ForkDeltaY(net: HostNetwork, k: int)
    requires IsFork(net) && 0 <= k < 2
    ensures DeltaY(net)(k) == -0.5 * net.I(0)
  {
    ForkGain(net, k);
    SumThree(Times(Row(SlaveGain(A1B(net), net.A1_inv, 1), k), net.I));
  }

  lemma ForkDeltaX(net: HostNetwork, k: int, l: int)
    requires IsFork(net) && 0 <= k < 2 && 0 <= l < 2
    ensures DeltaX(net)(k, l) == 0.5
  {
    ForkGain(net, k);
    ForkGain(net, l);
    SumThree(Times(Row(SlaveGain(A1B(net), net.A1_inv, 1), k), Row(Transpose(A1B(net)), l)));
  }
}
