/** The records of the lircd client and the failures its operations raise. */
module LircTypes {

  /** C# `byte`. */
  type byte = x: int | 0 <= x < 0x100

  /** C# `int`. */
  type Int32 = x: int | -0x8000_0000 <= x < 0x8000_0000

  datatype Option<T> = None | Some(value: T)

  /** A value, or the exception an operation raised instead. */
  datatype Result<T> = Ok(value: T) | Err(error: Error)

  /** Every exception the core raises, by kind. */
  datatype Error =
    // LIRCException, raised by the packet reader and the command engine
    | ConnectionLost
    | InvalidResponseFormat
    | InvalidSighupMessage
    | ResponseMismatch
    | CommandFailed(detail: string)
    | CommandFailedWithoutDetails
    // InvalidOperationException, raised by the session preconditions
    | NotConnected
    | AlreadyConnected
    | NotReentrant
    // raised by the platform
    | Timeout            // the response wait was cancelled by its timer
    | ConnectFailed      // the socket could not connect to the endpoint
    | ObjectDisposed     // a write after the stream was disposed
    | FormatError        // Convert.FromHexString / Convert.ToInt32: bad digits
    | OverflowError      // Convert.ToInt32: more than 32 bits
    | ArgumentError      // empty or negative input to a conversion, a negative list capacity, Data[0] of an empty list

  /** The message text of the exceptions whose text the client chooses. */
  function Message(e: Error): string
  {
    match e
    case ConnectionLost => "connection lost"
    case InvalidResponseFormat => "Invalid response format"
    case InvalidSighupMessage => "Invalid sighup message"
    case ResponseMismatch => "Invalid response, response command doesn't match request"
    case CommandFailed(detail) => "Lircd command failed: " + detail
    case CommandFailedWithoutDetails => "Lircd command failed without further details"
    case NotConnected => "LIRCClient not connected"
    case AlreadyConnected => "already connected"
    case NotReentrant => "This method is not reentrant"
    case _ => "platform exception"
  }

  /** A button of a remote control, with the code the daemon reports for it. */
  datatype ButtonInfo = ButtonInfo(code: seq<byte>, button: string, remoteControl: string)

  /** A button press decoded by the daemon; `repeat` counts the repeats of a held button. */
  datatype DecodedButton = DecodedButton(buttonInfo: ButtonInfo, repeat: Int32)

  /** What the client reports to its event callbacks. */
  datatype Event =
    | ReceivedButton(button: DecodedButton)
    | Disconnected(reason: Error)
    | Sighup

  /** A reply packet: the echoed command, the status, and the data lines. */
  datatype Response = Response(command: string, success: bool, data: seq<string>)
}
