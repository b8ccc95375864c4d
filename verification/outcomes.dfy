/** Optional values and the outcome of an awaited call to the intelligence provider. */
module Outcomes {

  /** A value that may be absent: JavaScript's `undefined`/`null` or an optional field. */
  datatype Option<+T> = None | Some(value: T)

  /** Why an awaited call rejected. */
  datatype Failure =
    | MalformedResponse     // JSON.parse threw on the cleaned response text
    | ProviderUnavailable   // the provider call itself rejected

  /** A settled promise: it resolved with a value or rejected with a failure. */
  datatype Result<+T> = Ok(value: T) | Err(error: Failure)
}
