/** Value wrappers shared by the other modules. */
module Outcomes {

  /** A JavaScript value that may be `undefined`. */
  datatype Option<+T> = None | Some(value: T)

  /** Why a promise was rejected: the client rejects with plain strings, the
      transport with its own error objects, which are not modelled further. */
  datatype Rejection = Reason(message: string) | TransportError

  /** How a promise of the client ends within the replies the model is given.
      Pending means it had not settled when those replies ran out. */
  datatype Settled<+T> = Resolved(value: T) | Rejected(reason: Rejection) | Pending
}
