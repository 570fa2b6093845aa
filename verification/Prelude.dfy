/** Shared result types.  `Error` lists the application errors the modelled
    operations return; failures of the database or of a library are `Failure`. */
module Prelude {

  datatype Option<+T> = None | Some(value: T)

  datatype Error =
    | InvalidArgument
    | NotFound
    | Forbidden
    | Conflict
    | DisabledUser
    | Unauthenticated
    | Canceled
    | Limited(retryAfter: int)
    | Failure

  datatype Result<+T> = Ok(value: T) | Err(error: Error)

  lemma SubsetSmaller<T>(a: set<T>, b: set<T>)
    requires a <= b
    ensures |a| <= |b|
  {
    assert b == a + (b - a);
  }
}
