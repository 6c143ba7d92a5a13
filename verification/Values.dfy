/** What travels through a pipeline: the dynamic type of a Go `interface{}` message, and the errors. */
module Values {
  import opened Bytes

  /** The request-response packet of example/request_response.go. */
  datatype Message = Message(seqNo: int32, kind: int32, value: seq<byte>)

  datatype Msg =
    | Raw(bytes: seq<byte>)       // []byte
    | Text(text: seq<byte>)       // string
    | Packet(message: Message)    // *Message
    | Other(tag: int)             // any other value

  datatype Error =
    | NotEnoughData
    | MessageTooLarge
    | InvalidLengthField
    | UnexpectedMessageType
    | Panicked                    // a Go run-time panic, which no error handler sees
    | TimedOut                    // ErrConnectTimeout
    | AlreadyConnecting
    | ClientStopped
    | ConnectionLost(code: int)
    | UserError(code: int)
}
