/**
 * Finite-set helpers shared by the scheduler and the asset manager: picking an
 * element of a hash set, listing one like `toArray`, and comparing sizes.
 */
module Collections {

  /** Some element of `s`: the iteration order of a hash set is left open. */
  method AnyOf<T>(s: set<T>) returns (x: T)
    requires s != {}
    ensures x in s
  {
    x :| x in s;
  }

  /** No element occurs twice. */
  predicate Distinct<T(==)>(xs: seq<T>)
  {
    forall i, j :: 0 <= i < j < |xs| ==> xs[i] != xs[j]
  }

  /** `Set.toArray`: every element once, in an order that is left open. */
  method ToSequence<T>(s: set<T>) returns (xs: seq<T>)
    ensures |xs| == |s|
    ensures forall x :: x in xs <==> x in s
    ensures Distinct(xs)
  {
    var rest := s;
    xs := [];
    while rest != {}
      invariant rest <= s
      invariant forall x :: x in s <==> x in rest || x in xs
      invariant forall x :: x in xs ==> x !in rest
      invariant |xs| + |rest| == |s|
      invariant Distinct(xs)
      decreases rest
    {
      var x := AnyOf(rest);
      xs := xs + [x];
      rest := rest - {x};
    }
  }

  lemma SubsetSize<T>(a: set<T>, b: set<T>)
    requires a <= b
    ensures |a| <= |b|
  {
    assert b == a + (b - a);
    assert a * (b - a) == {};
  }

  /** Extending a prefix of `work` by one element appends that element after `queued`. */
  lemma AppendNext<T>(queued: seq<T>, work: seq<T>, x: nat)
    requires x < |work|
    ensures queued + work[..x + 1] == (queued + work[..x]) + [work[x]]
  {
    assert work[..x + 1] == work[..x] + [work[x]];
  }

  /** Updating a union at `k` updates its right operand there. */
  lemma UpdateUnion<K, V>(a: map<K, V>, b: map<K, V>, k: K, v: V)
    ensures (a + b)[k := v] == a + b[k := v]
  {
    assert ((a + b)[k := v]).Keys == (a + b[k := v]).Keys;
  }
}
