/** Option, Result and the "first failing check" fold used by every validation loop of the model. */
module Prelude {

  datatype Option<+T> = None | Some(value: T)

  datatype Result<+T, +E> = Ok(value: T) | Err(error: E) {
    predicate IsFailure() {
      Err?
    }

    function PropagateFailure<U>(): Result<U, E>
      requires Err?
    {
      Err(error)
    }

    function Extract(): T
      requires Ok?
    {
      value
    }
  }

  /** The error of the first index below `n` that fails its check: what a loop of `raise` statements reports. */
  function FirstError<E>(n: nat, check: nat -> Option<E>): Option<E> {
    if n == 0 then None
    else
      var earlier := FirstError(n - 1, check);
      if earlier.Some? then earlier else check(n - 1)
  }

  lemma {:induction false} NoErrorIffAllPass<E>(n: nat, check: nat -> Option<E>)
    ensures FirstError(n, check).None? <==> forall i: nat :: i < n ==> check(i).None?
  {
    if n > 0 {
      NoErrorIffAllPass(n - 1, check);
    }
  }

  lemma {:induction false} FirstErrorStays<E>(i: nat, n: nat, check: nat -> Option<E>)
    requires i <= n && FirstError(i, check).Some?
    ensures FirstError(n, check) == FirstError(i, check)
    decreases n
  {
    if i < n {
      FirstErrorStays(i, n - 1, check);
    }
  }

  function Min(a: nat, b: nat): nat {
    if a < b then a else b
  }
}
