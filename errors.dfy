/**
 * The error values of the package: the sentinels of ble/errors.go, the
 * `fmt.Errorf("%w: ...")` wrappings the core builds around them, the
 * context errors a cancelled or expired `context.Context` reports, and the
 * opaque failures of the radio adapter.
 */
module Errors {

  /** What `ctx.Err()` returns once a context is done. */
  datatype CtxError = Canceled | DeadlineExceeded

  datatype Error =
    | NotConnected(detail: string)   // wraps ErrNotConnected: "not connected: <detail>"
    | NotSet                         // ErrNotSet
    | Invalid(detail: string)        // wraps ErrInvalid: "invalid type: <detail>"
    | NotFound                       // ErrNotFound
    | Context(ctx: CtxError)         // ctx.Err()
    | InvalidByteLength(length: nat) // "invalid UUID byte length: %d"
    | InvalidType                    // "invalid UUID type: ..."
    | ParseFailure                   // an error of the UUID text parser
    | Adapter(code: nat)             // a failure of the radio adapter, propagated verbatim

  /** The text `Error()` gives for the wrapped not-connected error. */
  function Text(e: Error): (s: string)
    ensures e.NotConnected? ==> s == "not connected: " + e.detail
    ensures e.NotConnected? ==> s[15..] == e.detail
  {
    match e
    case NotConnected(d) => "not connected: " + d
    case NotSet => "not set"
    case Invalid(d) => "invalid type: " + d
    case NotFound => "not found"
    case Context(Canceled) => "context canceled"
    case Context(DeadlineExceeded) => "context deadline exceeded"
    case InvalidByteLength(_) => "invalid UUID byte length"
    case InvalidType => "invalid UUID type"
    case ParseFailure => "invalid UUID"
    case Adapter(_) => "adapter failure"
  }
}
