/** Failure values of the terminal. The Java code throws exceptions and, across the
    remote boundary, passes a mutable SmartcardError; here both become values. */
module Errors {

  datatype Option<+T> = None | Some(value: T)

  /** One constructor per exception the terminal raises or passes on. */
  datatype Fault =
    | NullPointer             // NullPointerException (null argument, or a null response dereferenced)
    | IndexOutOfBounds        // ArrayIndexOutOfBoundsException on an empty command
    | ResponseTooSmall        // IllegalStateException "response too small"
    | SwUnavailable           // IllegalArgumentException "SW1/2 not available"
    | SwMismatch(sw: bv32)    // IllegalArgumentException carrying the status word received
    | BasicChannelInUse       // IllegalStateException "basic channel in use"
    | DefaultNotSelected      // IllegalStateException "default application is not selected"
    | NotFound                // NoSuchElementException raised when a SELECT fails
    | NotPresent              // IOException "Secure Element is not presented."
    | Remote(noSuchElement: bool)  // an exception reported by the terminal service;
                                   // the flag says whether it is a NoSuchElementException
    | AccessControlNotSetUp   // AccessControlException "Access Control Enforcer not properly set up"
    | EnforcerFailed          // an exception thrown by the enforcer's initialize

  /** The faults a `catch (NoSuchElementException e)` intercepts. */
  predicate IsNoSuchElement(f: Fault) {
    f == NotFound || f == Remote(true)
  }

  /** A value or the exception thrown instead of producing it. */
  datatype Result<+T> = Ok(value: T) | Err(fault: Fault)

  /** Completion of an operation that returns nothing. */
  datatype Outcome = Pass | Fail(fault: Fault)
}
