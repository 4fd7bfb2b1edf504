/** Sequences built by pushing one part after another. */
module Concatenation {

  lemma Associates<T>(a: seq<T>, b: seq<T>, c: seq<T>)
    ensures a + b + c == a + (b + c)
  {
  }

  /** All parts, one after another. */
  function Flat<T>(parts: seq<seq<T>>): seq<T> {
    if parts == [] then [] else Flat(parts[..|parts| - 1]) + parts[|parts| - 1]
  }

  lemma FlatNext<T>(parts: seq<seq<T>>, i: nat)
    requires i < |parts|
    ensures Flat(parts[..i + 1]) == Flat(parts[..i]) + parts[i]
  {
    assert parts[..i + 1][..i] == parts[..i];
  }

  lemma FlatAll<T>(parts: seq<seq<T>>)
    ensures Flat(parts[..|parts|]) == Flat(parts)
  {
    assert parts[..|parts|] == parts;
  }

  lemma {:induction false} FlatHas<T>(parts: seq<seq<T>>, i: nat, x: T)
    requires i < |parts| && x in parts[i]
    ensures x in Flat(parts)
    decreases |parts|
  {
    var n := |parts| - 1;
    if i < n {
      FlatHas(parts[..n], i, x);
    }
  }

  predicate AllEmpty<T(==)>(parts: seq<seq<T>>) {
    forall i :: 0 <= i < |parts| ==> parts[i] == []
  }

  lemma AllEmptyNext<T>(parts: seq<seq<T>>)
    requires parts != []
    ensures var n := |parts| - 1; AllEmpty(parts) <==> AllEmpty(parts[..n]) && parts[n] == []
  {
    var n := |parts| - 1;
    assert forall i :: 0 <= i < n ==> parts[..n][i] == parts[i];
  }

  lemma {:induction false} FlatOfEmpty<T>(parts: seq<seq<T>>)
    ensures Flat(parts) == [] <==> AllEmpty(parts)
    decreases |parts|
  {
    if parts != [] {
      var n := |parts| - 1;
      FlatOfEmpty(parts[..n]);
      AllEmptyNext(parts);
      assert |Flat(parts)| == |Flat(parts[..n])| + |parts[n]|;
    }
  }

  lemma FlatEmpty<T>(parts: seq<seq<T>>)
    ensures Flat(parts) == [] <==> forall i :: 0 <= i < |parts| ==> parts[i] == []
  {
    FlatOfEmpty(parts);
  }

  lemma AppendNext<T>(before: seq<T>, parts: seq<seq<T>>, i: nat)
    requires i < |parts|
    ensures before + Flat(parts[..i]) + parts[i] == before + Flat(parts[..i + 1])
  {
    FlatNext(parts, i);
  }

  lemma {:induction false} OnlyFirst<T>(parts: seq<seq<T>>)
    requires |parts| >= 1 && forall i :: 1 <= i < |parts| ==> parts[i] == []
    ensures Flat(parts) == parts[0]
    decreases |parts|
  {
    var n := |parts| - 1;
    if n == 0 {
      assert parts[..0] == [] && [] + parts[0] == parts[0];
    } else {
      OnlyFirst(parts[..n]);
      assert parts[0] + [] == parts[0];
    }
  }
}
