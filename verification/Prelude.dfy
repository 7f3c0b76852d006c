/** Small vocabulary shared by the models. */
module Prelude {

  datatype Option<+T> = None | Some(value: T)

  // Durations and instants are integers counting nanoseconds, as Go's time.Duration does.
  const SECOND: int := 1_000_000_000
  const MINUTE: int := 60 * SECOND

  /** Two finite sets that agree everywhere but at x. */
  lemma CountsAtOne<T>(a: set<T>, b: set<T>, x: T)
    requires forall y :: y != x ==> (y in a <==> y in b)
    ensures |b| == |a| - (if x in a then 1 else 0) + (if x in b then 1 else 0)
  {
    assert a - {x} == b - {x};
    assert |a - {x}| == |a| - (if x in a then 1 else 0);
    assert |b - {x}| == |b| - (if x in b then 1 else 0);
  }
}
