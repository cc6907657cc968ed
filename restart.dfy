/** The restart routine main starts for each config: wait the config's
    stagger, then run it again and again, checking for shutdown before each
    run, a restart breaker, and the error text of each run's result.
    Durations are in nanoseconds, as in Go's time.Duration; the clock, the
    sleeps and the runs themselves are inputs, one Attempt per iteration. */
module Restart {
  import opened Wrappers
  import opened Text
  import opened Errors

  const Second: nat := 1_000_000_000
  /** The sleep after every run that does not end the routine. */
  const FlatCooldown: nat := 3 * Second
  /** The extra sleep after a run that failed with exit status 255. */
  const PortCooldown: nat := 10 * Second
  /** The breaker considers stopping once more runs than this have happened. */
  const RestartLimit: nat := 5
  /** ... and stops when their average duration is below this. */
  const MinAverageRun: nat := 60 * Second

  /** The run failed because the executable is not for this platform. */
  predicate IsExecFormat(err: Option<Error>)
  {
    err.Some? && Contains(err.value.Message(), "exec format error")
  }

  /** The run failed with exit status 255, typically a port already in use. */
  predicate IsPortBlocked(err: Option<Error>)
  {
    err.Some? && Contains(err.value.Message(), "exit status 255")
  }

  /** What the routine does after a run: stop, or sleep the given durations
      one after the other and go round again. */
  datatype Decision = Stop | Continue(sleeps: seq<nat>)

  /** The handling of Run's result in the restart loop. */
  function AfterRun(err: Option<Error>): (d: Decision)
    ensures d.Stop? <==> IsExecFormat(err)
    ensures d.Continue? ==> d.sleeps == (if IsPortBlocked(err) then [PortCooldown, FlatCooldown] else [FlatCooldown])
  {
    if IsExecFormat(err) then Stop
    else if IsPortBlocked(err) then Continue([PortCooldown, FlatCooldown])
    else Continue([FlatCooldown])
  }

  /** A run ended by an rcon shutdown is restarted after the flat cooldown,
      like any other. */
  lemma ShutdownRestarts()
    ensures AfterRun(Some(ErrShutdown)) == Continue([FlatCooldown])
  {
  }

  /** A clean exit is restarted after the flat cooldown. */
  lemma CleanExitRestarts()
    ensures AfterRun(None) == Continue([FlatCooldown])
  {
  }

  /** Exit status 255 gets the port cooldown and then the flat one. */
  lemma ExitStatus255Cooldowns()
    ensures AfterRun(Some(ProcessError("exit status 255"))) == Continue([PortCooldown, FlatCooldown])
  {
    assert OccursAt("exit status 255", "exit status 255", 0);
  }

  /** The error exec gives for a binary built for another platform stops the
      routine. */
  lemma ExecFormatStops(path: string)
    ensures AfterRun(Some(ProcessError("fork/exec " + path + ": exec format error"))) == Stop
  {
    var m := "fork/exec " + path + ": exec format error";
    assert OccursAt(m, "exec format error", |m| - 17);
  }

  /** The breaker's test, made before each run. */
  predicate BreakerTrips(restartCounter: nat, timeUntilRestart: nat): (trips: bool)
    ensures trips <==> restartCounter > RestartLimit && timeUntilRestart < restartCounter * MinAverageRun
  {
    if restartCounter > RestartLimit then
      AverageBelow(timeUntilRestart, restartCounter, MinAverageRun);
      timeUntilRestart / restartCounter < MinAverageRun
    else false
  }

  /** The truncated average of `total` over `n` is below `bound` exactly
      when `total` is below `n` times `bound`. */
  lemma AverageBelow(total: nat, n: nat, bound: nat)
    requires n > 0
    ensures total / n < bound <==> total < n * bound
  {
    var q, r := total / n, total % n;
    assert total == n * q + r && 0 <= r < n;
    if q < bound {
      assert q + 1 <= bound;
      assert n * (q + 1) <= n * bound;
    } else {
      assert n * bound <= n * q;
    }
  }

  /** One iteration's view of the world: whether shutdown was requested
      before it, and, if not, what its run returned and how long it took. */
  datatype Attempt = Attempt(cancelled: bool, err: Option<Error>, duration: nat)

  /** How a restart routine ended. OutOfAttempts only means that the given
      attempts were used up; the routine itself would go on. */
  datatype Exit = ClosedEarly | Closed | WrongPlatform | TooManyRestarts | OutOfAttempts

  /** The message logged before each run's breaker check. */
  datatype Banner = Starting | Restarting

  /** What a routine did: how it ended, how many runs it made, the banners
      it logged, every sleep in order, and timeUntilRestart at the end. */
  datatype Trace = Trace(exit: Exit, runs: nat, banners: seq<Banner>, sleeps: seq<nat>, timeUntilRestart: nat)

  /** The attempt ends the routine (as written): shutdown, or exec format. */
  predicate Ends(a: Attempt)
  {
    a.cancelled || IsExecFormat(a.err)
  }

  /** The index of the first attempt that ends the routine, or the number of
      attempts. */
  function FirstEnd(attempts: seq<Attempt>): (k: nat)
    ensures k <= |attempts|
    ensures forall j :: 0 <= j < k ==> !Ends(attempts[j])
    ensures k < |attempts| ==> Ends(attempts[k])
  {
    if attempts == [] then 0
    else if Ends(attempts[0]) then 0
    else 1 + FirstEnd(attempts[1..])
  }

  /** The sleeps after runs that all let the routine go on. */
  function Cooldowns(attempts: seq<Attempt>): seq<nat>
    requires forall j :: 0 <= j < |attempts| ==> !IsExecFormat(attempts[j].err)
  {
    if attempts == [] then []
    else
      var last := attempts[|attempts| - 1];
      assert !IsExecFormat(last.err);
      Cooldowns(attempts[..|attempts| - 1]) + AfterRun(last.err).sleeps
  }

  /** The routine as main.go writes it, given its stagger index, whether
      shutdown came during the stagger wait, and the attempts. It runs until
      the first attempt that ends it; no run ever sees a restart counter
      other than 0, so the breaker never trips, every banner is "starting",
      and timeUntilRestart is the last run's duration only. */
  ghost predicate RoutineOutcome(index: nat, cancelledDuringStagger: bool, attempts: seq<Attempt>, t: Trace)
  {
    if cancelledDuringStagger then t == Trace(ClosedEarly, 0, [], [], 0)
    else
      var k := FirstEnd(attempts);
      && (if k == |attempts| then t.exit == OutOfAttempts && t.runs == k
          else if attempts[k].cancelled then t.exit == Closed && t.runs == k
          else t.exit == WrongPlatform && t.runs == k + 1)
      && t.sleeps == [index * Second] + Cooldowns(attempts[..k])
      && |t.banners| == t.runs
      && (forall j :: 0 <= j < |t.banners| ==> t.banners[j] == Starting)
      && t.timeUntilRestart == (if t.runs == 0 then 0 else attempts[t.runs - 1].duration)
  }

  /** The first k attempts let the routine go on and the next, if any,
      ends it: k is where it ends. */
  lemma FirstEndAt(attempts: seq<Attempt>, k: nat)
    requires k <= |attempts|
    requires forall j :: 0 <= j < k ==> !Ends(attempts[j])
    requires k < |attempts| ==> Ends(attempts[k])
    ensures FirstEnd(attempts) == k
  {
  }

  /** The state of the as-written routine after i runs that all let it go
      on: every banner "starting", the stagger and the cooldowns slept, and
      timeUntilRestart holding the last run's duration. */
  predicate Unbroken(index: nat, attempts: seq<Attempt>, i: nat, banners: seq<Banner>, sleeps: seq<nat>, last: nat)
  {
    && i <= |attempts|
    && (forall j :: 0 <= j < i ==> !Ends(attempts[j]))
    && sleeps == [index * Second] + Cooldowns(attempts[..i])
    && |banners| == i && (forall j :: 0 <= j < i ==> banners[j] == Starting)
    && last == (if i == 0 then 0 else attempts[i - 1].duration)
  }

  /** A run that lets the as-written routine go on adds a "starting" banner,
      its cooldowns, and its duration as the new timeUntilRestart. */
  lemma UnbrokenStep(index: nat, attempts: seq<Attempt>, i: nat, banners: seq<Banner>, sleeps: seq<nat>, last: nat)
    requires i < |attempts| && Unbroken(index, attempts, i, banners, sleeps, last) && !Ends(attempts[i])
    ensures Unbroken(index, attempts, i + 1, banners + [Starting], sleeps + AfterRun(attempts[i].err).sleeps,
                     attempts[i].duration)
  {
    assert attempts[..i + 1][..i] == attempts[..i];
  }

  /** Shutdown before run i ends the as-written routine as Closed. */
  lemma UnbrokenClosed(index: nat, attempts: seq<Attempt>, i: nat, banners: seq<Banner>, sleeps: seq<nat>, last: nat)
    requires i < |attempts| && Unbroken(index, attempts, i, banners, sleeps, last) && attempts[i].cancelled
    ensures RoutineOutcome(index, false, attempts, RoutineFrom(false, attempts, i, 0, last, banners, sleeps))
  {
    FirstEndAt(attempts, i);
  }

  /** An exec format error in run i ends the as-written routine. */
  lemma UnbrokenFatal(index: nat, attempts: seq<Attempt>, i: nat, banners: seq<Banner>, sleeps: seq<nat>, last: nat)
    requires i < |attempts| && Unbroken(index, attempts, i, banners, sleeps, last)
    requires !attempts[i].cancelled && IsExecFormat(attempts[i].err)
    ensures RoutineOutcome(index, false, attempts, RoutineFrom(false, attempts, i, 0, last, banners, sleeps))
  {
    assert RoutineFrom(false, attempts, i, 0, last, banners, sleeps)
        == Trace(WrongPlatform, i + 1, banners + [Starting], sleeps, attempts[i].duration);
    FirstEndAt(attempts, i);
  }

  /** Attempts used up with none ending the as-written routine. */
  lemma UnbrokenFinished(index: nat, attempts: seq<Attempt>, banners: seq<Banner>, sleeps: seq<nat>, last: nat)
    requires Unbroken(index, attempts, |attempts|, banners, sleeps, last)
    ensures RoutineOutcome(index, false, attempts, RoutineFrom(false, attempts, |attempts|, 0, last, banners, sleeps))
  {
    FirstEndAt(attempts, |attempts|);
    assert attempts[..|attempts|] == attempts;
  }

  /** The restart loop from attempt i on, given the state it has reached.
      With `counting` false this is the loop as main.go writes it (the
      counter is left alone and timeUntilRestart is overwritten with each
      run's duration); with `counting` true the counter counts the runs and
      timeUntilRestart sums their durations. */
  function RoutineFrom(counting: bool, attempts: seq<Attempt>, i: nat, restartCounter: nat, timeUntilRestart: nat,
                       banners: seq<Banner>, sleeps: seq<nat>): (t: Trace)
    requires i <= |attempts|
    ensures i <= t.runs <= |attempts|
    decreases |attempts| - i
  {
    if i == |attempts| then Trace(OutOfAttempts, i, banners, sleeps, timeUntilRestart)
    else
      var a := attempts[i];
      if a.cancelled then Trace(Closed, i, banners, sleeps, timeUntilRestart)
      else
        var logged := banners + [if restartCounter == 0 then Starting else Restarting];
        if BreakerTrips(restartCounter, timeUntilRestart) then
          Trace(TooManyRestarts, i, logged, sleeps, timeUntilRestart)
        else
          var counter := if counting then restartCounter + 1 else restartCounter;
          var elapsed := if counting then timeUntilRestart + a.duration else a.duration;
          match AfterRun(a.err)
          case Stop => Trace(WrongPlatform, i + 1, logged, sleeps, elapsed)
          case Continue(waits) => RoutineFrom(counting, attempts, i + 1, counter, elapsed, logged, sleeps + waits)
  }

  /** The whole goroutine: the stagger wait, then the restart loop from a
      zero counter and a zero timeUntilRestart. */
  function RoutineSpec(counting: bool, index: nat, cancelledDuringStagger: bool, attempts: seq<Attempt>): Trace
  {
    if cancelledDuringStagger then Trace(ClosedEarly, 0, [], [], 0)
    else RoutineFrom(counting, attempts, 0, 0, 0, [], [index * Second])
  }

  /** From a state reached by the as-written loop, the loop ends as
      RoutineOutcome says. */
  lemma {:induction false} UnbrokenFrom(index: nat, attempts: seq<Attempt>, i: nat, banners: seq<Banner>,
                                        sleeps: seq<nat>, last: nat)
    requires Unbroken(index, attempts, i, banners, sleeps, last)
    ensures RoutineOutcome(index, false, attempts, RoutineFrom(false, attempts, i, 0, last, banners, sleeps))
    decreases |attempts| - i
  {
    if i == |attempts| {
      UnbrokenFinished(index, attempts, banners, sleeps, last);
    } else if attempts[i].cancelled {
      UnbrokenClosed(index, attempts, i, banners, sleeps, last);
    } else if IsExecFormat(attempts[i].err) {
      UnbrokenFatal(index, attempts, i, banners, sleeps, last);
    } else {
      var waits := AfterRun(attempts[i].err).sleeps;
      assert RoutineFrom(false, attempts, i, 0, last, banners, sleeps)
          == RoutineFrom(false, attempts, i + 1, 0, attempts[i].duration, banners + [Starting], sleeps + waits);
      UnbrokenStep(index, attempts, i, banners, sleeps, last);
      UnbrokenFrom(index, attempts, i + 1, banners + [Starting], sleeps + waits, attempts[i].duration);
    }
  }

  /** The goroutine as written ends at the first shutdown or exec format
      error, never by the breaker. */
  lemma AsWrittenOutcome(index: nat, cancelledDuringStagger: bool, attempts: seq<Attempt>)
    ensures RoutineOutcome(index, cancelledDuringStagger, attempts, RoutineSpec(false, index, cancelledDuringStagger, attempts))
    ensures RoutineSpec(false, index, cancelledDuringStagger, attempts).exit != TooManyRestarts
  {
    if !cancelledDuringStagger {
      assert attempts[..0] == [];
      UnbrokenFrom(index, attempts, 0, [], [index * Second], 0);
    }
  }

  /** The per-config goroutine of main, as written. */
  method RestartRoutine(index: nat, cancelledDuringStagger: bool, attempts: seq<Attempt>) returns (t: Trace)
    ensures t == RoutineSpec(false, index, cancelledDuringStagger, attempts)
  {
    if cancelledDuringStagger {
      return Trace(ClosedEarly, 0, [], [], 0);
    }
    var sleeps: seq<nat> := [index * Second];
    var banners: seq<Banner> := [];
    var restartCounter: nat := 0;
    var timeUntilRestart: nat := 0;
    var i := 0;
    while i < |attempts|
      invariant i <= |attempts|
      invariant RoutineFrom(false, attempts, i, restartCounter, timeUntilRestart, banners, sleeps)
             == RoutineSpec(false, index, false, attempts)
    {
      var a := attempts[i];
      if a.cancelled {
        return Trace(Closed, i, banners, sleeps, timeUntilRestart);
      }
      banners := banners + [if restartCounter == 0 then Starting else Restarting];
      if BreakerTrips(restartCounter, timeUntilRestart) {
        // restartCounter is never incremented, so the breaker cannot trip
        assert false;
      }
      timeUntilRestart := a.duration;
      match AfterRun(a.err) {
        case Stop =>
          return Trace(WrongPlatform, i + 1, banners, sleeps, timeUntilRestart);
        case Continue(waits) =>
          sleeps := sleeps + waits;
      }
      i := i + 1;
    }
    return Trace(OutOfAttempts, i, banners, sleeps, timeUntilRestart);
  }

  /** Runs that neither get cancelled nor fail for the platform, each
      shorter than the breaker's average: a crash loop. */
  predicate QuickCrashes(attempts: seq<Attempt>, n: nat)
  {
    n <= |attempts|
    && forall j :: 0 <= j < n ==>
         !attempts[j].cancelled && !IsExecFormat(attempts[j].err) && attempts[j].duration < MinAverageRun
  }

  /** As written, a crash loop gets a seventh run, and an eighth: nothing
      stops it. */
  lemma CrashLoopIgnored(index: nat, attempts: seq<Attempt>)
    requires QuickCrashes(attempts, |attempts|)
    ensures RoutineSpec(false, index, false, attempts).exit == OutOfAttempts
    ensures RoutineSpec(false, index, false, attempts).runs == |attempts|
  {
    AsWrittenOutcome(index, false, attempts);
    var k := FirstEnd(attempts);
    if k < |attempts| {
      assert false;
    }
  }

  /** The sum of the durations of the attempts. */
  function Total(attempts: seq<Attempt>): nat
  {
    if attempts == [] then 0 else Total(attempts[..|attempts| - 1]) + attempts[|attempts| - 1].duration
  }

  /** Extending a prefix by one attempt adds its duration to the total. */
  lemma TotalStep(attempts: seq<Attempt>, i: nat)
    requires i < |attempts|
    ensures Total(attempts[..i + 1]) == Total(attempts[..i]) + attempts[i].duration
  {
    assert attempts[..i + 1][..i] == attempts[..i];
  }

  /** The first n runs each started with no shutdown requested and the
      breaker not holding. */
  predicate StartedClear(attempts: seq<Attempt>, n: nat)
  {
    n <= |attempts| && forall j :: 0 <= j < n ==> !attempts[j].cancelled && !BreakerTrips(j, Total(attempts[..j]))
  }

  /** A run that starts clear extends the clear prefix. */
  lemma StartedClearStep(attempts: seq<Attempt>, i: nat)
    requires StartedClear(attempts, i) && i < |attempts|
    requires !attempts[i].cancelled && !BreakerTrips(i, Total(attempts[..i]))
    ensures StartedClear(attempts, i + 1)
  {
  }

  /** The runs that do not end the routine come first; none of them is
      fatal. */
  predicate FatalFree(attempts: seq<Attempt>, n: nat)
  {
    n <= |attempts| && forall j :: 0 <= j < n ==> !IsExecFormat(attempts[j].err)
  }

  /** The banners logged before n checks: "starting" once, then
      "restarting". */
  predicate CountedBanners(banners: seq<Banner>, n: nat)
  {
    |banners| == n && forall j :: 0 <= j < n ==> banners[j] == BannerFor(j)
  }

  /** The state of the counted routine after n runs that all let it go on. */
  predicate Progress(index: nat, attempts: seq<Attempt>, n: nat, banners: seq<Banner>, sleeps: seq<nat>, total: nat)
  {
    && StartedClear(attempts, n)
    && FatalFree(attempts, n)
    && CountedBanners(banners, n)
    && sleeps == [index * Second] + Cooldowns(attempts[..n])
    && total == Total(attempts[..n])
  }

  /** The banner logged before the check of run n. */
  function BannerFor(n: nat): Banner
  {
    if n == 0 then Starting else Restarting
  }

  /** A run that starts clear and lets the routine go on extends its
      progress by its banner, its cooldowns and its duration. */
  lemma ProgressStep(index: nat, attempts: seq<Attempt>, i: nat, banners: seq<Banner>, sleeps: seq<nat>, total: nat)
    requires i < |attempts| && Progress(index, attempts, i, banners, sleeps, total)
    requires !attempts[i].cancelled && !BreakerTrips(i, total) && !IsExecFormat(attempts[i].err)
    ensures Progress(index, attempts, i + 1, banners + [BannerFor(i)], sleeps + AfterRun(attempts[i].err).sleeps,
                     total + attempts[i].duration)
  {
    TotalStep(attempts, i);
    StartedClearStep(attempts, i);
    assert attempts[..i + 1][..i] == attempts[..i];
  }

  /** The routine with the breaker working as its checks read: the counter
      counts the runs and timeUntilRestart sums their durations. No run
      starts while shutdown is requested or the breaker holds; the routine
      ends at the first cancellation, the first fatal run, or the first time
      the breaker holds before a run. */
  ghost predicate CountedOutcome(index: nat, cancelledDuringStagger: bool, attempts: seq<Attempt>, t: Trace)
  {
    if cancelledDuringStagger then t == Trace(ClosedEarly, 0, [], [], 0)
    else
      match t.exit
      case ClosedEarly => false
      case Closed =>
        && Progress(index, attempts, t.runs, t.banners, t.sleeps, t.timeUntilRestart)
        && t.runs < |attempts| && attempts[t.runs].cancelled
      case TooManyRestarts =>
        && t.runs < |attempts| && |t.banners| == t.runs + 1
        && Progress(index, attempts, t.runs, t.banners[..t.runs], t.sleeps, t.timeUntilRestart)
        && t.banners[t.runs] == BannerFor(t.runs)
        && !attempts[t.runs].cancelled && BreakerTrips(t.runs, t.timeUntilRestart)
      case WrongPlatform =>
        && 0 < t.runs <= |attempts|
        && StartedClear(attempts, t.runs) && CountedBanners(t.banners, t.runs)
        && FatalFree(attempts, t.runs - 1) && IsExecFormat(attempts[t.runs - 1].err)
        && t.sleeps == [index * Second] + Cooldowns(attempts[..t.runs - 1])
        && t.timeUntilRestart == Total(attempts[..t.runs])
      case OutOfAttempts =>
        && Progress(index, attempts, t.runs, t.banners, t.sleeps, t.timeUntilRestart)
        && t.runs == |attempts|
  }

  /** Shutdown before run i ends the counted routine as Closed. */
  lemma CountedClosed(index: nat, attempts: seq<Attempt>, i: nat, banners: seq<Banner>, sleeps: seq<nat>, total: nat)
    requires i < |attempts| && Progress(index, attempts, i, banners, sleeps, total) && attempts[i].cancelled
    ensures CountedOutcome(index, false, attempts, RoutineFrom(true, attempts, i, i, total, banners, sleeps))
  {
  }

  /** The breaker holding before run i ends the counted routine. */
  lemma CountedTripped(index: nat, attempts: seq<Attempt>, i: nat, banners: seq<Banner>, sleeps: seq<nat>, total: nat)
    requires i < |attempts| && Progress(index, attempts, i, banners, sleeps, total)
    requires !attempts[i].cancelled && BreakerTrips(i, total)
    ensures CountedOutcome(index, false, attempts, RoutineFrom(true, attempts, i, i, total, banners, sleeps))
  {
    var logged := banners + [BannerFor(i)];
    assert RoutineFrom(true, attempts, i, i, total, banners, sleeps) == Trace(TooManyRestarts, i, logged, sleeps, total);
    assert logged[..i] == banners;
  }

  /** An exec format error in run i ends the counted routine. */
  lemma CountedFatal(index: nat, attempts: seq<Attempt>, i: nat, banners: seq<Banner>, sleeps: seq<nat>, total: nat)
    requires i < |attempts| && Progress(index, attempts, i, banners, sleeps, total)
    requires !attempts[i].cancelled && !BreakerTrips(i, total) && IsExecFormat(attempts[i].err)
    ensures CountedOutcome(index, false, attempts, RoutineFrom(true, attempts, i, i, total, banners, sleeps))
  {
    assert RoutineFrom(true, attempts, i, i, total, banners, sleeps)
        == Trace(WrongPlatform, i + 1, banners + [BannerFor(i)], sleeps, total + attempts[i].duration);
    TotalStep(attempts, i);
    StartedClearStep(attempts, i);
  }

  /** Attempts used up with none ending the counted routine. */
  lemma CountedFinished(index: nat, attempts: seq<Attempt>, banners: seq<Banner>, sleeps: seq<nat>, total: nat)
    requires Progress(index, attempts, |attempts|, banners, sleeps, total)
    ensures CountedOutcome(index, false, attempts, RoutineFrom(true, attempts, |attempts|, |attempts|, total, banners, sleeps))
  {
  }

  /** From a state reached by the counted loop, the loop ends as
      CountedOutcome says. */
  lemma {:induction false} ProgressFrom(index: nat, attempts: seq<Attempt>, i: nat, banners: seq<Banner>,
                                        sleeps: seq<nat>, total: nat)
    requires i <= |attempts| && Progress(index, attempts, i, banners, sleeps, total)
    ensures CountedOutcome(index, false, attempts, RoutineFrom(true, attempts, i, i, total, banners, sleeps))
    decreases |attempts| - i
  {
    if i == |attempts| {
      CountedFinished(index, attempts, banners, sleeps, total);
    } else if attempts[i].cancelled {
      CountedClosed(index, attempts, i, banners, sleeps, total);
    } else if BreakerTrips(i, total) {
      CountedTripped(index, attempts, i, banners, sleeps, total);
    } else if IsExecFormat(attempts[i].err) {
      CountedFatal(index, attempts, i, banners, sleeps, total);
    } else {
      var logged, waits := banners + [BannerFor(i)], AfterRun(attempts[i].err).sleeps;
      assert RoutineFrom(true, attempts, i, i, total, banners, sleeps)
          == RoutineFrom(true, attempts, i + 1, i + 1, total + attempts[i].duration, logged, sleeps + waits);
      ProgressStep(index, attempts, i, banners, sleeps, total);
      ProgressFrom(index, attempts, i + 1, logged, sleeps + waits, total + attempts[i].duration);
    }
  }

  /** The goroutine with a counting breaker ends as CountedOutcome says. */
  lemma CountedSpecOutcome(index: nat, cancelledDuringStagger: bool, attempts: seq<Attempt>)
    ensures CountedOutcome(index, cancelledDuringStagger, attempts, RoutineSpec(true, index, cancelledDuringStagger, attempts))
  {
    if !cancelledDuringStagger {
      assert attempts[..0] == [];
      ProgressFrom(index, attempts, 0, [], [index * Second], 0);
    }
  }

  /** The per-config goroutine with restartCounter incremented and each run's
      duration added to timeUntilRestart. */
  method RestartRoutineCounted(index: nat, cancelledDuringStagger: bool, attempts: seq<Attempt>) returns (t: Trace)
    ensures t == RoutineSpec(true, index, cancelledDuringStagger, attempts)
  {
    if cancelledDuringStagger {
      return Trace(ClosedEarly, 0, [], [], 0);
    }
    var sleeps: seq<nat> := [index * Second];
    var banners: seq<Banner> := [];
    var restartCounter: nat := 0;
    var timeUntilRestart: nat := 0;
    var i := 0;
    while i < |attempts|
      invariant i <= |attempts|
      invariant RoutineFrom(true, attempts, i, restartCounter, timeUntilRestart, banners, sleeps)
             == RoutineSpec(true, index, false, attempts)
    {
      var a := attempts[i];
      if a.cancelled {
        return Trace(Closed, i, banners, sleeps, timeUntilRestart);
      }
      banners := banners + [if restartCounter == 0 then Starting else Restarting];
      if BreakerTrips(restartCounter, timeUntilRestart) {
        return Trace(TooManyRestarts, i, banners, sleeps, timeUntilRestart);
      }
      restartCounter := restartCounter + 1;
      timeUntilRestart := timeUntilRestart + a.duration;
      match AfterRun(a.err) {
        case Stop =>
          return Trace(WrongPlatform, i + 1, banners, sleeps, timeUntilRestart);
        case Continue(waits) =>
          sleeps := sleeps + waits;
      }
      i := i + 1;
    }
    return Trace(OutOfAttempts, i, banners, sleeps, timeUntilRestart);
  }

  /** Quick runs add up to less than their number times the average. */
  lemma {:induction false} QuickTotal(attempts: seq<Attempt>, n: nat)
    requires QuickCrashes(attempts, n)
    ensures Total(attempts[..n]) <= n * MinAverageRun
    ensures n > 0 ==> Total(attempts[..n]) < n * MinAverageRun
  {
    if n > 0 {
      QuickTotal(attempts, n - 1);
      assert attempts[..n][..n - 1] == attempts[..n - 1];
    }
  }

  /** With the breaker counting, a crash loop is stopped after its sixth run,
      before a seventh starts. */
  lemma CrashLoopStops(index: nat, attempts: seq<Attempt>)
    requires QuickCrashes(attempts, RestartLimit + 1)
    requires |attempts| > RestartLimit + 1 && !attempts[RestartLimit + 1].cancelled
    ensures RoutineSpec(true, index, false, attempts).exit == TooManyRestarts
    ensures RoutineSpec(true, index, false, attempts).runs == RestartLimit + 1
  {
    CountedSpecOutcome(index, false, attempts);
    var n := RestartLimit + 1;
    QuickTotal(attempts, n);
    assert BreakerTrips(n, Total(attempts[..n]));
  }
}
