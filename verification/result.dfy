/**
 * The business layer's `Result<T>`: a value slot and an error slot, built
 * only through the `Success` and `Failure` factories. Success is defined
 * as "no error", so the two factories produce the two kinds.
 */
module ResultModel {
  import opened Common

  /**
   * `value` is `None` where C# stores `default(T)`; `error` is `None`
   * where C# stores `null`.
   */
  datatype Result<T> = Result(value: Option<T>, error: Option<string>) {

    predicate IsSuccess() {
      error.None?
    }

    predicate IsFailure() {
      !IsSuccess()
    }
  }

  /** `Result<T>.Success(v)`: carries `v` and no error. */
  function Success<T>(v: T): (r: Result<T>)
    ensures r.IsSuccess() && !r.IsFailure()
    ensures r.value == Some(v)
  {
    Result(Some(v), None)
  }

  /** `Result<T>.Failure(e)`: carries the error and the default value. */
  function Failure<T>(e: string): (r: Result<T>)
    ensures r.IsFailure() && !r.IsSuccess()
    ensures r.error == Some(e)
    ensures r.value.None?
  {
    Result(None, Some(e))
  }

  /** Exactly one of the two predicates holds of every result. */
  lemma KindsAreExclusive<T>(r: Result<T>)
    ensures r.IsSuccess() != r.IsFailure()
    ensures r.IsSuccess() <==> r.error.None?
  {
  }

  /** A success and a failure are never the same result, and each factory is injective. */
  lemma FactoriesAreDistinct<T>(v: T, w: T, e: string, f: string)
    ensures Success(v) != Failure<T>(e)
    ensures Success(v) == Success(w) ==> v == w
    ensures Failure<T>(e) == Failure<T>(f) ==> e == f
  {
  }
}
