/** The errors the transport reports, by kind. */
module Errors {
  import opened Bytes
  import Wire

  datatype ProtocolKind =
    | BadFrameHeader(fault: Wire.HeaderFault)
    | MalformedControl
    | ControlTruncated
    | UnknownObject
    | UnknownOpcode
    | MalformedPayload
    | MissingFd
    | ExtraFd
    | MalformedDisplayError
    | ShortDeleteId
    | InvalidDeleteId

  datatype Error =
    | Closed                                    // net.ErrClosed
    | Eof                                       // io.EOF
    | UnexpectedEof                             // io.ErrUnexpectedEOF
    | Deadline                                  // os.ErrDeadlineExceeded
    | Transport(errno: int)
    | Protocol(kind: ProtocolKind)              // *ProtocolError
    | Display(obj: u32, code: u32, message: seq<byte>)  // *DisplayError
}
