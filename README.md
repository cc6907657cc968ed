# teeworlds-start, modelled in Dafny

teeworlds-start supervises a set of Teeworlds game servers. It lists
`./executables` and `./configs`. It pairs every server executable with the
`autoexec_<executable>_<id>.cfg` files named after it, and starts one restart
routine per pair. Each routine waits `index` seconds, so the servers start one
after the other. It then runs the server in a loop, teeing its output into a
time-stamped log file. A scanner watches that output for the line an
rcon shutdown writes. Before each run the routine checks for an interrupt
signal and for a restart breaker. After each run it looks at the error text:
an "exec format error" ends the routine; "exit status 255" earns an extra
cooldown. As written, a run returns only when its log file cannot be
created, when it panics, or when its output holds a shutdown line: without
one, the scan of its output never ends (see Findings).

The model covers the following, module by module:

- `ConfigName`: the config-name pattern `autoexec_(.+)_([^_]+)\.cfg$` under
  Go's leftmost-match semantics. The split is computed by direct search and
  proved to be the pattern's captures: it is complete, it round-trips, and
  its captures are well formed.
- `ShutdownMarker`: the shutdown-line pattern, decided by direct search and
  proved equivalent to a decomposition of the line into the pattern's
  pieces. Also the analyzeLogs scan, which stops at the first shutdown line,
  and the one-slot error channel, modelled as a class.
- `Configs`: `Config`, `Cmd`, the log file path and `LogFile` (the
  timestamp is a parameter), and `buildPathEnv`.
- `Discovery`: `constructConfigs` over two directory listings given as
  sequences. The user's two regular expressions are predicates.
- `Runner`: `Config.Run`, with the process, the log file's creation and a
  panic as inputs.
- `Restart`: the per-config goroutine, as a method over a sequence of
  `Attempt`s. Each `Attempt` says whether shutdown was requested before that
  iteration, and if not, the run's error and its duration in nanoseconds.
- `GoPath` and `Text`: the pieces of `path`, `path/filepath` and `strings`
  that the program calls, on a Unix host.

The model keeps these behaviours of main.go as they are written:

- A run that ends with an rcon shutdown is restarted like any other run:
  main.go:259-272 gives ErrShutdown no case of its own
  (`Restart.ShutdownRestarts`).
- The `ext == "exe"` alternative at main.go:154 never applies, because
  `filepath.Ext` returns the dot with the extension. Only dot-free names
  count as executables (`Discovery.ExecutablesOfNames`).
- The restart breaker at main.go:251 never trips (see Findings).
  `Restart.RestartRoutine` models the loop as written.
  `Restart.RestartRoutineCounted` models the loop with the counter the
  breaker's test reads.
- The output scan of analyzeLogs ends only at a shutdown line (see
  Findings). `ShutdownMarker.AnalyzeLogsAsWritten` and `Runner.RunAsWritten`
  model it as written. `ShutdownMarker.AnalyzeLogs` and `Runner.Run` model
  the scan ending with the output, which the restart loop's handling of
  each run's result presumes.

## Model

| member | source | states |
|---|---|---|
| ConfigName.SplitConfigName | main.go:28 | a successful split yields a newline-free, non-empty executable and a non-empty id without '_', and the name ends with `autoexec_<exec>_<id>.cfg` rebuilt from them |
| ConfigName.SplitComplete | main.go:28 | every name that ends in text the pattern matches is split, with the same id, and with an executable that ends in the given one (the leftmost match may start earlier) |
| ConfigName.SplitRender | main.go:28 | splitting `autoexec_<exec>_<id>.cfg` gives back exactly exec and id |
| ConfigName.SplitExample | main.go:177-180 | `autoexec_zcatch_srv_01.cfg` splits at its last '_' into `zcatch_srv` and `01` |
| ShutdownMarker.IsShutdownLine | main.go:121 | shutdownRegex.MatchString holds exactly when the line has the pattern's shape |
| ShutdownMarker.SearchIff | main.go:29 | the search-based test accepts a line exactly when the line decomposes as `[`A`][`B`]: `C`=`D` rcon='shutdown'` with A, B, C non-empty and newline-free and D one or more digits |
| ShutdownMarker.MarkerLineMatches | main.go:29 | every line built from valid pieces is a shutdown line |
| ShutdownMarker.ExampleLineMatches | main.go:29 | the line an rcon shutdown writes is recognised |
| ShutdownMarker.FirstMarker | main.go:119-126 | the index of the first shutdown line, with no shutdown line before it; None exactly when no line is one |
| ShutdownMarker.Verdict | main.go:119-128 | ErrShutdown exactly when some line is a shutdown line, nil exactly when none is |
| ShutdownMarker.FirstMatchWins | main.go:119-125 | output written after the first shutdown line cannot change which line is found |
| ShutdownMarker.ScanForShutdown | main.go:118-128 | the scan returns the verdict, having read up to and including the first shutdown line, or every line when there is none |
| ShutdownMarker.ErrorChannel.constructor | main.go:108 | a fresh channel of the given capacity is empty and open |
| ShutdownMarker.ErrorChannel.Send | main.go:123 | a send appends the value to the buffer; it needs an open channel with room |
| ShutdownMarker.ErrorChannel.Close | main.go:114 | closing keeps the buffer and marks the channel closed |
| ShutdownMarker.ErrorChannel.Receive | main.go:100 | a receive takes the oldest buffered value, or nil from a closed, drained channel |
| ShutdownMarker.AnalyzeLogsAsWritten | main.go:107-132 | the returned channel is new and has one slot; with a shutdown line it holds ErrShutdown and is closed, without one it stays empty and open |
| ShutdownMarker.AnalyzeLogs | main.go:107-132 | with the scan ending at the end of the output: the returned channel is new, has one slot, holds exactly the verdict for the output, and is closed |
| Configs.Argv | main.go:77 | the executed argument vector is the executable, `-f` and the config file |
| Configs.Cmd | main.go:54-56 | the logged command is `./` followed by the executed argument vector joined by spaces |
| Configs.LogFilePath | main.go:59-61 | the log path is `./logs/` + the config's base name without its extension + `-` + timestamp + `.log`, and the stem plus the extension is the base name |
| Configs.LogFilePathInjective | main.go:61 | two different timestamps never give one config the same log file |
| Configs.LogFileOfDiscovered | main.go:59-61 | the log of a config found as `<dir>/<name>.cfg` is `./logs/<name>-<timestamp>.log` |
| Configs.LogFile | main.go:58-67 | success exactly when the file could be opened, with the computed path; otherwise the error reads `failed to create log file: ` + the cause |
| Configs.BuildPathEnv | main.go:200-202 | a PATH built from one or more colon-free directories splits back into them |
| Configs.MainPathEnv | main.go:220 | the PATH set is the inherited one followed by `:./executables` |
| Text.SplitJoin | main.go:201 | splitting a join of separator-free parts gives the parts back |
| GoPath.Base | main.go:155 | the base name is never empty and holds no '/' unless it is the root |
| GoPath.BaseOfName | main.go:177 | the base of a name, alone or under any directory, is the name |
| GoPath.Ext | main.go:153 | the extension is a suffix of the path that is empty or starts with its only '.' and holds no '/' |
| GoPath.ExtEmptyIffNoDot | main.go:153-154 | a name has an empty extension exactly when it holds no dot |
| GoPath.ExtOfCfg | main.go:60 | a name ending in `.cfg` has the extension `.cfg` |
| GoPath.StripExt | main.go:60 | the stem followed by the extension is the original path |
| GoPath.Clean | main.go:191-192 | path.Join's cleaning never yields the empty path |
| GoPath.JoinName | main.go:191-192 | joining a name to a directory puts the name under the cleaned directory |
| GoPath.CleanDotName | main.go:208-209 | a directory spelled `./<name>` cleans to `<name>` |
| Discovery.IsExecutable | main.go:148-156 | the first listing's test: a non-directory whose extension is empty or `exe` and whose base name matches the pattern; ExecutablesMembers and ExecutablesOfNames state what it admits |
| Discovery.ConfigFor | main.go:172-195 | what one entry of the second listing contributes; ConfigOfEntry states exactly when it contributes a Config and which |
| Discovery.FindExecutables | main.go:146-164 | the executables set after the first listing is the one the executable test selects |
| Discovery.ExecutablesMembers | main.go:153-162 | an executable is the base name of a non-directory entry with an empty extension that matches the pattern; the `exe` alternative adds nothing |
| Discovery.ExecutablesOfNames | main.go:146-164 | for listing names, an executable is a non-directory entry without a dot whose name matches |
| Discovery.MatchConfigFiles | main.go:171-196 | the configs after the second listing are, in listing order, those its entries contribute |
| Discovery.ConstructConfigs | main.go:134-198 | constructConfigs returns the configs of the second listing for the executables of the first |
| Discovery.ConfigOfEntry | main.go:172-194 | a config entry yields a Config exactly when it is not a directory, its name splits, a matching dot-free executable entry named like the split's executable exists, and the name matches the config pattern; the Config holds the two joined paths and the id |
| Discovery.SelectConfigsOrder | main.go:172-196 | configs come out in listing order: a listing's configs are those of its first part followed by those of the rest |
| Discovery.SelectConfigsMembers | main.go:172-196 | at most one config per entry, and a config is returned exactly when some entry contributes it |
| Discovery.JoinUnderDotDir | main.go:191-192 | with the program's `./executables` and `./configs`, a file lands at `<dir>/<name>` |
| Runner.RunAsWritten | main.go:69-105 | a panic yields `recovered run: <value>`; otherwise a log-file failure is returned as is; otherwise ErrShutdown when the output holds a shutdown line, and without one the run never returns |
| Runner.Run | main.go:69-105 | with the scan ending at the end of the output: a panic yields `recovered run: <value>`; otherwise a log-file failure is returned as is; otherwise ErrShutdown when the output holds a shutdown line, else the process's own error |
| Errors.Error.Message | main.go:64 | the text err.Error() gives: `shutdown`, the wrapped log-file error, the wrapped panic value, or the process's own text |
| Text.Contains | main.go:261 | strings.Contains holds exactly when the text occurs at some position |
| Restart.AfterRun | main.go:259-272 | the routine stops after a run exactly when the run's error text contains `exec format error`; otherwise it sleeps 10 s then 3 s when the text contains `exit status 255`, and 3 s alone for every other result |
| Restart.BreakerTrips | main.go:251 | the breaker holds exactly when more than five runs have been counted and their total duration is below 60 s times their number, which is what the truncating average's test means |
| Restart.ShutdownRestarts | main.go:259-272 | an rcon shutdown is followed by the 3 s cooldown and another run |
| Restart.CleanExitRestarts | main.go:268-272 | a clean exit is followed by the 3 s cooldown and another run |
| Restart.ExitStatus255Cooldowns | main.go:264-272 | `exit status 255` is followed by 10 s, then 3 s, then another run |
| Restart.ExecFormatStops | main.go:261-263 | exec's error for a binary built for another platform ends the routine |
| Restart.RestartRoutine | main.go:226-275 | the goroutine as written computes the trace its specification function gives |
| Restart.AsWrittenOutcome | main.go:226-275 | as written, the routine ends at the first shutdown request or exec format error and never at the breaker; every banner is `starting`; it sleeps the stagger and each run's cooldowns; timeUntilRestart holds the last run's duration only |
| Restart.CrashLoopIgnored | main.go:237-258 | as written, any number of quick crashing runs are all restarted |
| Restart.RestartRoutineCounted | main.go:237-273 | the goroutine with a counting breaker computes the trace its specification function gives |
| Restart.CountedSpecOutcome | main.go:237-273 | with a counting breaker, no run starts while shutdown is requested or while the breaker holds; banners are `starting` once, then `restarting`; the routine ends at the first shutdown, exec format error or breaker trip |
| Restart.CrashLoopStops | main.go:251-254 | with a counting breaker, six runs each shorter than 60 s stop the routine with "too many restarts" before a seventh run |

## Left out

- Process execution (`exec.CommandContext`, `cmd.Run`, killing on cancellation): a run's error, its output lines and its duration are inputs.
- The stderr buffer and the `error:` / `stopped:` log lines of `Config.Run`: they only log.
- `os.ReadDir` and the `log.Fatalf` on its failure: listings are given as sequences of entries.
- `os.OpenFile`, writing to the log file, and the deferred `Close` with its logged failure: only the path and the open error's text are modelled.
- The pipe and `io.MultiWriter` tee: the scanner sees the output as a sequence of lines.
- `bufio.Scanner` details: the 64 KiB token limit, the stripping of a trailing `\r`, and read errors that end the scan early.
- Goroutines, `sync.WaitGroup` and the scheduling between routines: each routine is modelled alone.
- Channel blocking: `Send` and `Receive` require the states in which Go would not block or panic.
- The signal context: the interrupt is a boolean per iteration and one for the stagger wait.
- The clock and the sleeps: durations are inputs, and sleeps are recorded in the trace instead of slept.
- The formatting of `time.Now()` as `2006-01-02-15:04:05.000`: the timestamp is a parameter.
- The user's regular expressions (`execMatch`, `cfgMatch`): they are arbitrary predicates; their compilation and `MustCompile`'s panic are not modelled.
- Logging, `printUsage`, `os.Setenv` and `os.Getenv`: only the PATH value is modelled.
- `ErrUnknown`: it is declared and never used.
- `Config.Log`: it is never set or read.
- Strings are sequences of characters: UTF-8 encoding and rune boundaries are not modelled.
- Restart.RestartRoutine: the routine loops forever in Go; the model stops with `OutOfAttempts` when the given attempts run out.
- Restart.RestartRoutine: each run's result is an input. With Config.Run as written, a run whose output has no shutdown line never returns, so the routine stays in that run.
- ShutdownMarker.AnalyzeLogs: it sends nil when the output ends without a shutdown line. main.go never does: nothing closes the pipe's writing end but the scanner goroutine's own deferred close, and `exec.Cmd` does not close a Stdout that is not a file, so the scan waits forever. `ShutdownMarker.AnalyzeLogsAsWritten` models that. Only a scanner error, such as a line over 64 KiB, would end the scan early and send nil; that is not modelled.
- ConfigName.SplitComplete: it states only that the found executable ends with the given one, because the leftmost match may start at an earlier `autoexec_`.

## Findings

| source | as written | input that shows it | evidently intended | confidence | as-written member | corrected member |
|---|---|---|---|---|---|---|
| main.go:237-258 | `restartCounter` starts at 0 and is never incremented, and `timeUntilRestart` is overwritten with each run's duration, so the test at line 251 is never true and the `restarting` banner never appears | no `./logs` directory: every run fails at once in LogFile and is retried every 3 s forever | after more than five runs whose average duration is under 60 s, stop the routine with "too many restarts within a short period" | high; not executed | Restart.CrashLoopIgnored | Restart.CrashLoopStops |
| main.go:110-129 | the scanner goroutine closes `pipeWriter` only in its own deferred call, after its loop; `cmd.Run` does not close a Stdout that is not a file, so once the server exits without a shutdown line `lineScanner.Scan()` waits forever, `errC` stays empty and open, and Run blocks at line 100 | a server that exits or crashes without writing an rcon shutdown line | the scan ends with the server's output, nil is sent, and Run returns the process's error | high; not executed | Runner.RunAsWritten | Runner.Run |
