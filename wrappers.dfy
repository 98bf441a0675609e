/** Small value types shared by the store and the route handlers. */
module Wrappers {

  /** A value that may be absent: a missing request-body field, a missing row, an unset session. */
  datatype Option<+T> = None | Some(value: T)
}

/** The HTTP status codes the route handlers answer with. */
module Http {
  const OK: nat := 200
  const CREATED: nat := 201
  const BAD_REQUEST: nat := 400
  const UNAUTHORIZED: nat := 401
  const NOT_FOUND: nat := 404
}
