/** Values for the source's missing results and error returns. */
module Results {
  datatype Option<+T> = None | Some(value: T)

  /** An error return. The message is not modelled, only whether there is one. */
  datatype Result<+T> = Ok(value: T) | Err {
    predicate IsFailure() { Err? }

    function PropagateFailure<U>(): Result<U>
      requires Err?
    {
      Err
    }

    function Extract(): T
      requires Ok?
    {
      value
    }
  }

  /** No call to the outside world goes wrong. */
  ghost predicate Calm(disturbance: nat -> bool) {
    forall n :: !disturbance(n)
  }

  /** Applies f with the first k items in turn, up to the first failure. */
  function Fold<S, X>(f: (S, X) -> Result<S>, start: S, items: seq<X>, k: nat): Result<S>
    requires k <= |items|
    decreases k
  {
    if k == 0 then Ok(start)
    else
      var s :- Fold(f, start, items, k - 1);
      f(s, items[k - 1])
  }

  lemma {:induction false} FailureStays<S, X>(f: (S, X) -> Result<S>, start: S, items: seq<X>, j: nat, k: nat)
    requires j <= k <= |items| && Fold(f, start, items, j).Err?
    ensures Fold(f, start, items, k).Err?
    decreases k
  {
    if j < k {
      FailureStays(f, start, items, j, k - 1);
    }
  }
}
