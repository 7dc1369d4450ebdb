/**
 * Values shared by every part of the model: an optional value (JavaScript's
 * `undefined` or a value), the outcome of a call into the backend SDK (a
 * resolved promise or a thrown error) and the error it carries.
 */
module Common {

  /** `None` stands for `undefined` (or, where a truthiness test is made, a falsy value). */
  datatype Option<+T> = None | Some(value: T)

  /** Whatever a backend call threw; only its message is kept. */
  datatype Error = Error(message: string)

  /** The settled result of one awaited backend call. */
  datatype Outcome<+T> = Ok(value: T) | Err(error: Error)

  /** JavaScript truthiness of an optional string: defined and not empty. */
  predicate Truthy(s: Option<string>)
  {
    s.Some? && s.value != ""
  }
}
