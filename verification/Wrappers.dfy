/** What several models use: the result types of the source, and a few facts about maps and sequences. */
module Wrappers {

  datatype Option<+T> = None | Some(value: T)

  datatype Result<+T, +E> = Ok(value: T) | Err(error: E)

  /** Maps that agree at every key are equal. */
  lemma SameMaps<K, V>(a: map<K, V>, b: map<K, V>)
    requires forall k | k in a :: k in b && a[k] == b[k]
    requires forall k | k in b :: k in a
    ensures a == b
  {
  }

  lemma Regroup<T>(a: seq<T>, b: seq<T>, c: seq<T>)
    ensures a + b + c == a + (b + c)
  {
  }

  /** `at` are the places of the elements of `xs` that `p` holds of, in order. */
  ghost predicate ArePlaces<T>(at: seq<nat>, xs: seq<T>, p: T -> bool) {
    && (forall i | 0 <= i < |at| :: at[i] < |xs| && p(xs[at[i]]))
    && (forall i, j | 0 <= i < j < |at| :: at[i] < at[j])
    && forall n | 0 <= n < |xs| && p(xs[n]) :: n in at
  }

  lemma OnePlaceMore<T>(at: seq<nat>, xs: seq<T>, x: T, p: T -> bool)
    requires ArePlaces(at, xs, p)
    ensures ArePlaces(at + if p(x) then [|xs|] else [], xs + [x], p)
  {
    var more, at' := xs + [x], at + if p(x) then [|xs|] else [];
    assert more[|xs|] == x && forall n | 0 <= n < |xs| :: more[n] == xs[n];
    assert forall i | 0 <= i < |at| :: at'[i] == at[i];
    forall n | 0 <= n < |more| && p(more[n])
      ensures n in at'
    {
      if n == |xs| {
        assert at'[|at|] == n;
      }
    }
  }
}
