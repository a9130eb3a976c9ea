/** Joining a list of parts end to end. */
module Seqs {

  function Flatten<T>(parts: seq<seq<T>>): seq<T> {
    if parts == [] then [] else parts[0] + Flatten(parts[1..])
  }

  lemma {:induction false} FlattenAppend<T>(xs: seq<seq<T>>, ys: seq<seq<T>>)
    ensures Flatten(xs + ys) == Flatten(xs) + Flatten(ys)
  {
    if xs == [] {
      assert xs + ys == ys;
    } else {
      assert (xs + ys)[1..] == xs[1..] + ys;
      FlattenAppend(xs[1..], ys);
    }
  }

  lemma FlattenCons<T>(part: seq<T>, rest: seq<seq<T>>)
    ensures Flatten([part] + rest) == part + Flatten(rest)
  {
    assert ([part] + rest)[1..] == rest;
  }

  /** Where an element of the whole comes from. */
  lemma {:induction false} FlattenPlace<T>(parts: seq<seq<T>>, a: nat) returns (i: nat, x: nat)
    requires a < |Flatten(parts)|
    ensures i < |parts| && x < |parts[i]| && Flatten(parts)[a] == parts[i][x]
  {
    if a < |parts[0]| { return 0, a; }
    i, x := FlattenPlace(parts[1..], a - |parts[0]|);
    i := i + 1;
  }

  /** Of two elements the earlier one comes from an earlier part or from earlier in the same part. */
  lemma {:induction false} FlattenPlaces<T>(parts: seq<seq<T>>, a: nat, b: nat) returns (i: nat, x: nat, j: nat, y: nat)
    requires a < b < |Flatten(parts)|
    ensures i < |parts| && x < |parts[i]| && Flatten(parts)[a] == parts[i][x]
    ensures j < |parts| && y < |parts[j]| && Flatten(parts)[b] == parts[j][y]
    ensures i < j || (i == j && x < y)
  {
    var n := |parts[0]|;
    if b < n { return 0, a, 0, b; }
    if a < n {
      i, x := 0, a;
      j, y := FlattenPlace(parts[1..], b - n);
      j := j + 1;
    } else {
      i, x, j, y := FlattenPlaces(parts[1..], a - n, b - n);
      i, j := i + 1, j + 1;
    }
  }
}
