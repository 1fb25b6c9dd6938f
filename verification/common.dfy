/**
 * Types shared by the transport operations: an optional value and the
 * completion status every NetX service call returns.
 */
module Common {

  /** A value that may be absent (a null pointer in the C structures). */
  datatype Option<+T> = None | Some(value: T)

  /**
   * Completion status of a service call. The named variants are the NetX
   * error codes this core produces itself; `Passed` is a non-zero code
   * produced by a collaborator (the packet allocator, the scheduler's
   * suspend status) that the core hands back to its caller unchanged.
   */
  datatype Status =
    | Success
    | NotBound
    | NotClosed
    | IpAddressError
    | InvalidInterface
    | InProgress
    | AlreadyBound
    | NoFreePorts
    | PortUnavailable
    | Passed(code: nat)

  /**
   * Reads a raw completion code the way the C code does: zero is success,
   * anything else is an error returned verbatim.
   */
  function FromCode(code: nat): (s: Status)
    ensures s == Success <==> code == 0
    ensures code != 0 ==> s == Passed(code)
  {
    if code == 0 then Success else Passed(code)
  }
}
