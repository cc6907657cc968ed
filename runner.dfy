/** Config.Run: one run of a server. The log file is created first; the
    server's output goes through analyzeLogs; the scanner's verdict, when it
    is ErrShutdown, replaces the process error; a recovered panic replaces
    everything. The process, the file system and the clock are inputs.
    RunAsWritten uses analyzeLogs as main.go writes it; Run uses the scan
    that ends with the output. */
module Runner {
  import opened Wrappers
  import opened Errors
  import opened Configs
  import opened ShutdownMarker

  /** How a run of main.go's Config.Run ends: it returns an error (or nil),
      or it waits forever for a verdict that never comes. */
  datatype RunOutcome = Returned(err: Option<Error>) | Hangs

  /** Config.Run as main.go writes it, over AnalyzeLogsAsWritten: a run
      whose output holds no shutdown line never returns, unless the log
      file could not be created or a panic ended it first. */
  method RunAsWritten(c: Config, timestamp: string, openFailure: Option<string>, output: seq<string>,
                      processErr: Option<Error>, panicValue: Option<string>)
    returns (outcome: RunOutcome)
    ensures panicValue.Some? ==> outcome == Returned(Some(RecoveredPanic(panicValue.value)))
    ensures panicValue.None? && openFailure.Some? ==> outcome == Returned(Some(LogFileError(openFailure.value)))
    ensures panicValue.None? && openFailure.None? ==>
      outcome == (if exists k :: 0 <= k < |output| && IsShutdownLine(output[k]) then Returned(Some(ErrShutdown)) else Hangs)
  {
    var logFile := LogFile(c, timestamp, openFailure);
    if logFile.Failure? {
      outcome := Returned(Some(logFile.error));
    } else {
      var errC := AnalyzeLogsAsWritten(output);
      if errC.buffer == [] && !errC.closed {
        // the receive blocks: nothing will ever be sent or closed
        outcome := Hangs;
      } else {
        var err := processErr;
        var logErr := errC.Receive();
        if logErr.Some? {
          err := logErr;
        }
        outcome := Returned(err);
      }
    }
    // the deferred recover, for a panic raised before the receive
    if panicValue.Some? {
      outcome := Returned(Some(RecoveredPanic(panicValue.value)));
    }
  }

  /** One run of `c` at `timestamp`, with the scan ending at the end of the
      output: `openFailure` is the text of the error
      creating the log file (if any), `output` the lines the server writes,
      `processErr` what the process execution returns, and `panicValue` the
      value of a panic raised during the run (if any). */
  method Run(c: Config, timestamp: string, openFailure: Option<string>, output: seq<string>,
             processErr: Option<Error>, panicValue: Option<string>)
    returns (err: Option<Error>)
    ensures panicValue.Some? ==> err == Some(RecoveredPanic(panicValue.value))
    ensures panicValue.None? && openFailure.Some? ==> err == Some(LogFileError(openFailure.value))
    ensures panicValue.None? && openFailure.None? ==>
      err == (if exists k :: 0 <= k < |output| && IsShutdownLine(output[k]) then Some(ErrShutdown) else processErr)
  {
    var logFile := LogFile(c, timestamp, openFailure);
    if logFile.Failure? {
      err := Some(logFile.error);
    } else {
      var errC := AnalyzeLogs(output);
      err := processErr;
      var logErr := errC.Receive();
      if logErr.Some? {
        err := logErr;
      }
    }
    // the deferred recover
    if panicValue.Some? {
      err := Some(RecoveredPanic(panicValue.value));
    }
  }
}
