/** Optional values, results, and the exceptions the client library raises.
    A Python exception becomes a `Failure(e)` carrying one `Error` value. */
module Wrappers {

  datatype Option<+T> = None | Some(value: T) {
    predicate IsFailure() { None? }

    function PropagateFailure<U>(): Option<U>
      requires None?
    {
      None
    }

    function Extract(): T
      requires Some?
    {
      value
    }
  }

  datatype Result<+T, +E> = Success(value: T) | Failure(error: E) {
    predicate IsFailure() { Failure? }

    function PropagateFailure<U>(): Result<U, E>
      requires Failure?
    {
      Failure(error)
    }

    function Extract(): T
      requires Success?
    {
      value
    }
  }

  /** Why a field of a status document was rejected (the ValueError texts of pinger.py). */
  datatype Invalid =
    | NotAnObject(what: string)
    | MissingField(what: string, field: string)
    | WrongType(what: string, field: string)

  /** The exceptions raised by the modelled code, one constructor per distinct cause. */
  datatype Error =
    | IndexError                       // `bytearray[0]` on an empty read
    | StructError                      // struct.pack out of range, or unpack of the wrong byte count
    | VarintTooBig                     // IOError: five varint bytes all carry the continuation bit
    | VarintOutOfRange                 // ValueError: write_varint outside [-2^31, 2^31 - 1]
    | UnicodeEncode                    // a character the codec cannot encode
    | UnicodeDecode                    // bytes that are not valid UTF-8
    | MissingTerminator                // read_ascii found no 00 byte (the source loops forever here)
    | InvalidStatusPacket              // IOError: status response id is not 0
    | InvalidJson                      // IOError: status payload is not UTF-8 JSON
    | Rejected(why: Invalid)           // ValueError raised by a PingResponse validator
    | TypeError                        // `in` or `[]` applied to a JSON value that does not support it
    | InvalidStatusResponse(why: Invalid) // IOError wrapping a PingResponse ValueError
    | InvalidPingPacket                // IOError: ping response id is not 1
    | MangledPing(expected: int, received: int) // IOError: echoed token differs
    | KeyError(key: string)            // a required dictionary key is absent
    | NotAnInteger(text: string)       // ValueError from int()
    | SplitArity                       // ValueError: a split gave the wrong number of pieces
    | PortOutOfRange(port: int)        // ValueError from ensure_valid
    | DnsFailure(reason: string)       // a resolver error other than NXDOMAIN
    | Unbound                          // UnboundLocalError: retry made no attempt
    | Timeout                          // socket.timeout: no datagram arrived
    | Raised(kind: string)             // any other exception a retried function raises

  type Outcome<T> = Result<T, Error>
}
