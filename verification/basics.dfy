/** Small shared vocabulary: optional values and the concatenation of per-element results. */
module Basics {
  datatype Option<+T> = None | Some(value: T)

  /** What a call into an external service does: return a value, or raise an exception with a message. */
  datatype Outcome<+T> = Returned(value: T) | Raised(message: string)

  /** The results of f on each element, concatenated in order (a list built by a loop of appends). */
  function FlatMap<T, U>(f: T -> seq<U>, xs: seq<T>): seq<U>
    decreases |xs|
  {
    if xs == [] then [] else FlatMap(f, xs[..|xs| - 1]) + f(xs[|xs| - 1])
  }

  /** FlatMap distributes over concatenation. */
  lemma {:induction false} FlatMapAppend<T, U>(f: T -> seq<U>, a: seq<T>, b: seq<T>)
    ensures FlatMap(f, a + b) == FlatMap(f, a) + FlatMap(f, b)
    decreases |b|
  {
    if b == [] {
      assert a + b == a;
    } else {
      var b' := b[..|b| - 1];
      assert (a + b)[..|a + b| - 1] == a + b';
      FlatMapAppend(f, a, b');
    }
  }

  /** When f gives exactly one result per element, FlatMap lists those results in order. */
  lemma {:induction false} FlatMapSingletons<T, U>(f: T -> seq<U>, xs: seq<T>)
    requires forall k :: 0 <= k < |xs| ==> |f(xs[k])| == 1
    ensures |FlatMap(f, xs)| == |xs|
    ensures forall k :: 0 <= k < |xs| ==> FlatMap(f, xs)[k] == f(xs[k])[0]
    decreases |xs|
  {
    if xs != [] {
      var front := xs[..|xs| - 1];
      assert forall k :: 0 <= k < |front| ==> front[k] == xs[k];
      FlatMapSingletons(f, front);
    }
  }
}
