/**
 The shapes of the values that the lookup pipeline hands back.

 A Go call `f(...) (string, error)` in the modelled code either returns a
 value with a nil error, returns the empty string with a non-nil error (every
 error return in the modelled code pairs the error with ""), or panics. The
 three possibilities are the three constructors of `Reply`.
 */
module Outcome {

  /** The error kinds the pipeline can surface; message texts are not modelled. */
  datatype Error =
    | InvalidMac(input: string)   // the address does not have the MAC syntax
    | OpenFailed                  // the local database file could not be opened
    | ScanFailed                  // reading the local database stopped on an error
    | TransportFailed             // the HTTP request itself failed
    | StatusError(code: int)      // the endpoint answered neither 200 nor 404
    | BodyReadFailed              // the 200 response body could not be read
    | Timeout                     // the endpoint did not answer in time

  /** The result of one call: `(value, nil)`, `("", error)`, or a run-time panic. */
  datatype Reply = Ok(value: string) | Fail(error: Error) | Panic {

    /** True for the errors that come from the local database. */
    predicate IsLocalError() {
      Fail? && (error.OpenFailed? || error.ScanFailed?)
    }
  }

  /** `suffix` is a trailing part of `s`. */
  predicate EndsWith(s: string, suffix: string) {
    |suffix| <= |s| && s[|s| - |suffix|..] == suffix
  }
}
