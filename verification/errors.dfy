/** The Go `error` values that the order service creates and compares with
    `errors.Is`.  Every sentinel declared with `errors.New` at package level
    is its own constructor; an error created on the spot (`errors.New("...")`
    inside a function, an error returned by a library) is `Other`, which
    `errors.Is` never equates with a sentinel even when the texts agree. */
module Errors {

  datatype Error =
    | JWTIsMissing      // ErrJWTIsMissing, handlers.go
    | Unathorized       // ErrUnathorized, handlers.go (declared, never returned)
    | AlreadyExists     // ErrAlreadyExists, service.go (declared, never returned)
    | UserNotFound      // ErrUserNotFound, service.go
    | ProductNotFound   // ErrProductNotFound, service.go (declared, never returned)
    | Other(msg: string)

  /** `err.Error()`: the text each error carries. */
  function Text(e: Error): (t: string)
    ensures e.Other? ==> t == e.msg
    ensures !e.Other? ==> t != []
  {
    match e
    case JWTIsMissing => "jwt is missing"
    case Unathorized => "unathorized user"
    case AlreadyExists => "already exists"
    case UserNotFound => "user not found"
    case ProductNotFound => "product not found"
    case Other(m) => m
  }
}
