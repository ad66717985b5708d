/** Failure-carrying results shared by every part of the model.
    Each error kind stands for one family of Python exceptions that the
    tool lets escape from `main`. */
module Wrappers {

  datatype Option<+T> = None | Some(value: T)

  datatype Error =
    | FetchFailed      // urllib error or non-200 status after the last retry
    | Malformed        // KeyError / TypeError on a decoded response
    | NoVersion        // IndexError: `[-1]` on an empty version list
    | BadReference     // ValueError: a repository reference without any '/'
    | UnknownKeyword   // KeyError: a calendar keyword missing from the table
    | NoProvider       // NotImplementedError: no provider option was given

  datatype Result<+T> = Ok(value: T) | Err(error: Error) {
    predicate IsFailure() { Err? }

    function PropagateFailure<U>(): Result<U>
      requires Err?
    {
      Err(error)
    }

    function Extract(): T
      requires Ok?
    {
      value
    }
  }

  /** Sequence concatenation regrouped, a hint for proofs that build
      sequences piece by piece. */
  lemma Regroup<T>(a: seq<T>, b: seq<T>, c: seq<T>)
    ensures a + (b + c) == (a + b) + c
  {
  }
}
