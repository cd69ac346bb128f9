/** The error values the STUN client produces, and the three ways a Go call of
    the core can end: normally, with an error value, or with a runtime panic
    (an out-of-range slice). */
module StunErrors {

  datatype Error =
    | HeaderTooShort          // Decode: "header size is too short"
    | NotXorMappedAddress     // XORMappedAddress.Parse: "type is not XOR-MAPPED-ADDRESS"
    | NotMappedAddress        // MappedAddress.Parse: "type is not MAPPED-ADDRESS"
    | InvalidPortRange        // validatePort: integer port outside 1..65535
    | NotStunUriScheme        // ParseSTUNURL: scheme is neither "stun" nor "stuns"
    | NoIpv4OnInterface       // DiagnoseWithPublicSTUN: "not found ipv4 in spcefied interface"
    | NoXorMappedAddress      // DiagnoseWithPublicSTUN: "not exists XOR-MAPPED-ADDRESS"
    | Io(code: nat)           // an error handed back by the operating system or the network

  /** How a call that returns only `error` ends. */
  datatype Status = Ok | Err(error: Error) | Panic

  /** A value or an error, for calls that return `(T, error)`. */
  datatype Result<T> = Success(value: T) | Failure(error: Error)
}
