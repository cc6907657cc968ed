/** The error values that flow from one run of a server to the restart loop,
    each with the text its Error() method gives. */
module Errors {

  datatype Error =
      /** ErrShutdown: an admin stopped the server over rcon. */
    | ErrShutdown
      /** The log file could not be created; `cause` is the open error's text. */
    | LogFileError(cause: string)
      /** A panic during a run, recovered; `value` is the panic value printed. */
    | RecoveredPanic(value: string)
      /** Whatever the process execution returned, e.g. "exit status 255". */
    | ProcessError(text: string)
  {
    /** The text of err.Error(). */
    function Message(): string
    {
      match this
      case ErrShutdown => "shutdown"
      case LogFileError(cause) => "failed to create log file: " + cause
      case RecoveredPanic(value) => "recovered run: " + value
      case ProcessError(text) => text
    }
  }
}
