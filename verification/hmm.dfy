/** What the selectors and the recognizer need from their surroundings: the HMM
    library (fitting and scoring, opaque), the per-word training data, and the
    few Python built-ins whose meaning the selection logic depends on. */
module Hmm {
  import opened Wrappers

  /** The Gaussian HMM library, seen only through its two operations.
      `fit(k, seed, data)` trains a diagonal-covariance model with `k` hidden
      states (at most 1000 iterations, seeded by `seed`) on a collection of
      observation sequences; `score(model, data)` is the log-likelihood of a
      collection under a model. `None` stands for any exception either raises. */
  datatype Library<!M, !S> = Library(fit: (int, int, seq<S>) -> Option<M>, score: (M, seq<S>) -> Option<real>)

  /** A Python dictionary keyed by word, in insertion order. */
  type Dict<V> = seq<(string, V)>

  function Keys<V>(d: Dict<V>): (ks: seq<string>)
    ensures |ks| == |d|
    ensures forall i | 0 <= i < |d| :: ks[i] == d[i].0
  {
    if d == [] then [] else [d[0].0] + Keys(d[1..])
  }

  /** No word occurs twice, as in every Python dictionary. */
  predicate DistinctKeys<V>(d: Dict<V>)
  {
    forall i, j | 0 <= i < j < |d| :: d[i].0 != d[j].0
  }

  /** `d[w]`; the value stored under the first occurrence of `w`. */
  function Lookup<V>(d: Dict<V>, w: string): (v: V)
    requires w in Keys(d)
    ensures exists i | 0 <= i < |d| :: d[i] == (w, v)
  {
    if d[0].0 == w then d[0].1 else Lookup(d[1..], w)
  }

  /** Every index is below `n`. */
  predicate AllBelow(indices: seq<nat>, n: nat)
  {
    forall j | 0 <= j < |indices| :: indices[j] < n
  }

  /** The sequences at the given indices, in that order: what `combine_sequences`
      concatenates into one training or test matrix. */
  function Combine<S>(indices: seq<nat>, sequences: seq<S>): (r: seq<S>)
    requires AllBelow(indices, |sequences|)
    ensures |r| == |indices|
    ensures forall j | 0 <= j < |indices| :: r[j] == sequences[indices[j]]
  {
    if indices == [] then [] else [sequences[indices[0]]] + Combine(indices[1..], sequences)
  }

  function Sum(xs: seq<real>): real
  {
    if xs == [] then 0.0 else Sum(xs[..|xs| - 1]) + xs[|xs| - 1]
  }

  /** `np.mean` of a non-empty list. */
  function Mean(xs: seq<real>): real
    requires xs != []
  {
    Sum(xs) / |xs| as real
  }
}
