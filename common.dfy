/** Shared vocabulary of the portal's server: optional values, roles and identifiers. */
module Common {

  /** A value that may be absent (JavaScript's null/undefined). */
  datatype Option<+T> = None | Some(value: T)

  /** The three roles a user record may hold. */
  datatype Role = Patient | Doctor | Admin

  /** Opaque record keys; allocated in increasing order, as documents are inserted. */
  type UserId = nat
  type DoctorId = nat

  /** Wall-clock time in milliseconds since the epoch (Date.now()). */
  type Millis = nat

  /** HTTP status codes the handlers answer with. */
  const OK: int := 200
  const CREATED: int := 201
  const BAD_REQUEST: int := 400
  const UNAUTHORIZED: int := 401
  const NOT_FOUND: int := 404
  const LOCKED: int := 423
}
