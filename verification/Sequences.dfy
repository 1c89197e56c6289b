/** What several parts of the model say of sequences, and the optional value. */
module Sequences {

  datatype Option<T> = None | Some(value: T)

  ghost predicate Distinct<T(!new)>(s: seq<T>) {
    forall i, j :: 0 <= i < j < |s| ==> s[i] != s[j]
  }

  /** s lists the keys, each once. */
  ghost predicate Lists<T(!new)>(s: seq<T>, keys: set<T>) {
    Distinct(s) && forall x :: x in s <==> x in keys
  }

  function Reverse<T>(s: seq<T>): (r: seq<T>)
    ensures |r| == |s| && forall k :: 0 <= k < |s| ==> r[k] == s[|s| - 1 - k]
  {
    if s == [] then [] else Reverse(s[1..]) + [s[0]]
  }

  lemma {:induction false} ReverseConcat<T>(x: seq<T>, y: seq<T>)
    ensures Reverse(x + y) == Reverse(y) + Reverse(x)
  {
    if x == [] {
      assert x + y == y;
    } else {
      assert (x + y)[1..] == x[1..] + y;
      ReverseConcat(x[1..], y);
    }
  }

  lemma {:induction false} InReverse<T>(s: seq<T>, p: T)
    ensures p in Reverse(s) <==> p in s
  {
    if s != [] {
      InReverse(s[1..], p);
      assert s == [s[0]] + s[1..];
    }
  }
}
