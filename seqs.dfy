/** Element-wise mapping and concatenation of lists, with the multiset facts the partitioning proofs need. */
module Seqs {

  /** `f` applied to every element, in order. */
  function Map<A, B>(f: A -> B, s: seq<A>): (r: seq<B>)
    ensures |r| == |s|
    ensures forall i :: 0 <= i < |s| ==> r[i] == f(s[i])
  {
    seq(|s|, i requires 0 <= i < |s| => f(s[i]))
  }

  lemma MapConcat<A, B>(f: A -> B, a: seq<A>, b: seq<A>)
    ensures Map(f, a + b) == Map(f, a) + Map(f, b)
  {
    assert forall i :: 0 <= i < |b| ==> (a + b)[|a| + i] == b[i];
  }

  /** Removing the element at `i` removes one occurrence of it. */
  lemma RemoveAt<T>(b: seq<T>, i: int)
    requires 0 <= i < |b|
    ensures multiset(b[..i] + b[i + 1..]) == multiset(b) - multiset{b[i]}
  {
    assert b == b[..i] + [b[i]] + b[i + 1..];
  }

  /** Mapping commutes with removing the element at `i`. */
  lemma MapRemoveAt<A, B>(f: A -> B, b: seq<A>, i: int)
    requires 0 <= i < |b|
    ensures multiset(Map(f, b)) == multiset{f(b[i])} + multiset(Map(f, b[..i] + b[i + 1..]))
  {
    var left, right := Map(f, b[..i]), Map(f, b[i + 1..]);
    assert Map(f, b) == left + [f(b[i])] + right;
    assert Map(f, b[..i] + b[i + 1..]) == left + right;
    assert multiset(left + [f(b[i])] + right) == multiset(left) + multiset{f(b[i])} + multiset(right);
  }

  /** Taking the same element out of two lists holding the same elements leaves two such lists. */
  lemma RemoveSame<T>(a: seq<T>, b: seq<T>, i: int)
    requires multiset(a) == multiset(b) && 0 < |a| && 0 <= i < |b| && b[i] == a[0]
    ensures multiset(a[..0] + a[1..]) == multiset(b[..i] + b[i + 1..])
  {
    RemoveAt(a, 0);
    RemoveAt(b, i);
  }

  /** Mapping two lists holding the same elements gives two lists holding the same elements. */
  lemma {:induction false} MapMultiset<A, B>(f: A -> B, a: seq<A>, b: seq<A>)
    requires multiset(a) == multiset(b)
    ensures multiset(Map(f, a)) == multiset(Map(f, b))
    decreases |a|
  {
    if a == [] {
      assert |b| == |multiset(b)| == 0;
    } else {
      assert a[0] in multiset(b);
      var i :| 0 <= i < |b| && b[i] == a[0];
      RemoveSame(a, b, i);
      MapMultiset(f, a[..0] + a[1..], b[..i] + b[i + 1..]);
      MapRemoveAt(f, a, 0);
      MapRemoveAt(f, b, i);
    }
  }

  /** All lists of `parts` one after the other. */
  function Flatten<T>(parts: seq<seq<T>>): seq<T>
  {
    if parts == [] then [] else parts[0] + Flatten(parts[1..])
  }

  /** Appending `x` to one of the lists adds exactly one `x` to the flattened elements. */
  lemma {:induction false} FlattenAppendAt<T>(parts: seq<seq<T>>, p: int, x: T)
    requires 0 <= p < |parts|
    ensures multiset(Flatten(parts[p := parts[p] + [x]])) == multiset(Flatten(parts)) + multiset{x}
  {
    var updated := parts[p := parts[p] + [x]];
    if p == 0 {
      assert updated[1..] == parts[1..];
    } else {
      assert updated[1..] == parts[1..][p - 1 := parts[p] + [x]];
      FlattenAppendAt(parts[1..], p - 1, x);
    }
  }

  /** A list of empty lists flattens to nothing. */
  lemma {:induction false} FlattenEmpties<T>(parts: seq<seq<T>>)
    requires forall p :: 0 <= p < |parts| ==> parts[p] == []
    ensures Flatten(parts) == []
  {
    if parts != [] {
      FlattenEmpties(parts[1..]);
    }
  }
}
