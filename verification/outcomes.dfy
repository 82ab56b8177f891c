/** Shared value types for the front end's decision logic.

    Every call the components make to the hosted backend (table queries, remote
    procedures, the authentication service) is modelled as an `Outcome` that the
    caller receives as a parameter: either the payload or the text of the error
    that the call returned or threw.
 */
module Outcomes {

  /** A JavaScript value that may be `null`/`undefined`. */
  datatype Option<+T> = None | Some(value: T) {

    /** The `??` operator: the value, or `default` when absent. */
    function GetOr(default: T): T {
      match this
      case Some(v) => v
      case None => default
    }
  }

  /** What an awaited backend call yields: its payload, or the message of its error. */
  datatype Outcome<+T> = Ok(value: T) | Err(message: string)

  /** JavaScript truthiness of an optional string id (`if (!id)`): `null`,
      `undefined` and the empty string are all falsy. */
  predicate Truthy(id: Option<string>) {
    id.Some? && id.value != ""
  }
}
