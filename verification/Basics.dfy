/** Sequences of sequences put end to end, and optional values. */
module Basics {

  datatype Option<T> = None | Some(value: T)

  lemma Assoc<T>(a: seq<T>, b: seq<T>, c: seq<T>)
    ensures a + (b + c) == a + b + c
  {
  }

  function Flatten<T>(parts: seq<seq<T>>): seq<T> {
    if parts == [] then [] else Flatten(parts[..|parts| - 1]) + parts[|parts| - 1]
  }

  lemma {:induction false} FlattenConcat<T>(p: seq<seq<T>>, q: seq<seq<T>>)
    ensures Flatten(p + q) == Flatten(p) + Flatten(q)
  {
    if q == [] {
      assert p + q == p;
    } else {
      var n := |q| - 1;
      assert (p + q)[..|p| + n] == p + q[..n];
      FlattenConcat(p, q[..n]);
      Assoc(Flatten(p), Flatten(q[..n]), q[n]);
    }
  }

  lemma FlattenAt<T>(parts: seq<seq<T>>, i: nat)
    requires i < |parts|
    ensures Flatten(parts[..i + 1]) == Flatten(parts[..i]) + parts[i]
    ensures Flatten(parts) == Flatten(parts[..i]) + parts[i] + Flatten(parts[i + 1..])
  {
    assert parts[..i + 1][..i] == parts[..i];
    FlattenConcat(parts[..i + 1], parts[i + 1..]);
    assert parts == parts[..i + 1] + parts[i + 1..];
  }

  lemma FlattenFront<T>(part: seq<T>, parts: seq<seq<T>>)
    ensures Flatten([part] + parts) == part + Flatten(parts)
  {
    FlattenConcat([part], parts);
    assert [part][..0] == [];
  }
}
