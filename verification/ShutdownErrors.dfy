/** Which errors of Run and Stop reach the caller of app-runner/app_runner.go. */
module ShutdownErrors {
  import opened Options
  import opened Shutdown

  // ----- building runs

  lemma {:induction false} Append(s: State, run: seq<Step>, mid: State, more: seq<Step>, end: State)
    requires Reaches(s, run, mid) && Reaches(mid, more, end)
    ensures Reaches(s, run + more, end)
    decreases run
  {
    if run == [] {
      assert run + more == more;
    } else {
      Append(Take(s, run[0]), run[1..], mid, more, end);
      assert (run + more)[1..] == run[1..] + more;
    }
  }

  lemma Push(s: State, run: seq<Step>, mid: State, t: Step)
    requires Reaches(s, run, mid) && Enabled(mid, t)
    ensures Reaches(s, run + [t], Take(mid, t))
  {
    assert [t][1..] == [];
    assert Reaches(Take(mid, t), [], Take(mid, t));
    Append(s, run, mid, [t], Take(mid, t));
  }

  /** From the final select's exit the deferred cancels lead to the return, changing nothing else. */
  lemma Unwind(s: State, run: seq<Step>, mid: State) returns (more: seq<Step>, end: State)
    requires Reaches(s, run, mid) && mid.main.Deferring?
    ensures Reaches(s, more, end)
    ensures end.main == Returned(mid.main.cause, mid.main.branch, mid.main.outcome)
    ensures end.app == mid.app && end.stopReturned == mid.stopReturned
  {
    Push(s, run, mid, CancelShutdown);
    more, end := run + [CancelShutdown], Take(mid, CancelShutdown);
    if mid.ownContext {
      Push(s, more, end, CancelOwn);
      more, end := more + [CancelOwn], Take(end, CancelOwn);
    }
  }

  // ----- reported exactly when waitForShutdown took an error

  /** The outcome carries the text of `e`. */
  predicate Reports(o: Outcome, e: Error) {
    o.Fail? && o.error.Wrapped? && o.error.message == TextOf(e)
  }

  /** Stop can still fail with `e`, or has, and the main goroutine has not received it. */
  predicate Pending(s: State, e: Error) {
    s.stop.StopRunning? || s.stop == StopSending(e) || s.stopCh.buffer == [e]
  }

  /** `more` leads from `s` to a return that reports `e`. */
  ghost predicate EndsReporting(s: State, more: seq<Step>, end: State, e: Error) {
    Reaches(s, more, end) && end.main.Returned? && Reports(end.main.outcome, e)
  }

  lemma CauseStays(s: State, t: Step)
    requires Enabled(s, t) && !s.main.Selecting?
    ensures !Take(s, t).main.Selecting? && Take(s, t).main.cause == s.main.cause
  {
  }

  lemma {:induction false} CauseStaysOnRuns(s: State, run: seq<Step>, end: State)
    requires Reaches(s, run, end) && !s.main.Selecting?
    ensures !end.main.Selecting? && end.main.cause == s.main.cause
    decreases run
  {
    if run != [] {
      CauseStays(s, run[0]);
      CauseStaysOnRuns(Take(s, run[0]), run[1..], end);
    }
  }

  /** Without an error from waitForShutdown the outcome is nil or one of the two context errors: what
      Stop returned is in none of them. */
  lemma NeverReportedWithoutRunError(ownContext: bool, run: seq<Step>, s: State)
    requires Reaches(Init(ownContext), run, s) && s.main.Returned?
    requires s.main.cause == Signalled || s.main.cause == RunResult(None)
    ensures s.main.outcome in {Nil, Fail(ShutdownTimeout), Fail(Wrapped(Canceled, ShutdownNote))}
    ensures forall e :: !Reports(s.main.outcome, e)
  {
    InitRunInv(ownContext, run, s);
  }

  /** The pending error can be brought into the stop channel while the main goroutine waits. */
  lemma Deliver(s: State, e: Error) returns (run: seq<Step>, mid: State)
    requires Inv(s) && s.main.Awaiting? && Pending(s, e)
    ensures Reaches(s, run, mid) && mid.main == s.main && mid.stopCh.buffer == [e] && mid.app == s.app
    ensures mid.stopReturned == Some(Some(e))
  {
    run, mid := [], s;
    if s.stop.StopRunning? {
      Push(s, run, mid, StopReturns(Some(e)));
      StepInv(mid, StopReturns(Some(e)));
      run, mid := run + [StopReturns(Some(e))], Take(mid, StopReturns(Some(e)));
    }
    if mid.stop.StopSending? {
      Push(s, run, mid, StopSends);
      run, mid := run + [StopSends], Take(mid, StopSends);
    }
  }

  /** Taking it ends the run with the shutdown error wrapped in its text, or with nil. */
  lemma TakeIt(s: State, e: Error) returns (run: seq<Step>, end: State)
    requires Inv(s) && s.main.Awaiting? && Pending(s, e)
    ensures Reaches(s, run, end) && end.main.Returned? && end.stopReturned == Some(Some(e)) && end.app == s.app
    ensures end.main.outcome == if s.main.cause.RunResult? && s.main.cause.result.Some?
                                then Fail(Wrapped(s.main.cause.result.value, TextOf(e))) else Nil
  {
    var first, mid := Deliver(s, e);
    Push(s, first, mid, TakeStopError);
    run, end := Unwind(s, first + [TakeStopError], Take(mid, TakeStopError));
  }

  /** While the final select waits and Stop's error `e` is still to come or to be received, some
      continuation reports it exactly if waitForShutdown took an error: the condition is the argument
      shutdownErr of performGracefulShutdown. */
  lemma ReportedExactly(ownContext: bool, run: seq<Step>, s: State, e: Error)
    requires Reaches(Init(ownContext), run, s) && s.main.Awaiting? && Pending(s, e)
    ensures (exists more, end :: EndsReporting(s, more, end, e)) <==>
            s.main.cause.RunResult? && s.main.cause.result.Some?
  {
    InitRunInv(ownContext, run, s);
    if s.main.cause.RunResult? && s.main.cause.result.Some? {
      var more, end := TakeIt(s, e);
      assert EndsReporting(s, more, end, e);
    } else {
      forall more, end | Reaches(s, more, end) && end.main.Returned?
        ensures !EndsReporting(s, more, end, e)
      {
        CauseStaysOnRuns(s, more, end);
        Append(Init(ownContext), run, s, more, end);
        NeverReportedWithoutRunError(ownContext, run + more, end);
      }
    }
  }

  // ----- runs to know about

  /** Even with an error taken, nothing forces the select to wait for Stop: from every state in which it
      waits, some continuation leaves it by the context. */
  lemma MayLeaveByContext(ownContext: bool, run: seq<Step>, s: State) returns (more: seq<Step>, end: State)
    requires Reaches(Init(ownContext), run, s) && s.main.Awaiting?
    ensures Reaches(s, more, end) && end.main.Returned? && end.main.branch == ContextBranch
  {
    InitRunInv(ownContext, run, s);
    more, end := [], s;
    if s.ctx.Live? {
      Push(s, more, end, Deadline);
      more, end := more + [Deadline], Take(end, Deadline);
    }
    Push(s, more, end, TakeContext);
    more, end := Unwind(s, more + [TakeContext], Take(end, TakeContext));
  }

  /** Once the cause is known, three steps of the main goroutine lead to the final select. */
  lemma Launch(run: seq<Step>, mid: State) returns (more: seq<Step>, s: State)
    requires Reaches(Init(true), run, mid) && mid.main.Adding?
    ensures Reaches(Init(true), more, s)
    ensures s.main == Awaiting(mid.main.cause) && s.app == mid.app && s.stop == StopRunning
  {
    Push(Init(true), run, mid, AddStop);
    more, s := run + [AddStop], Take(mid, AddStop);
    Push(Init(true), more, s, SpawnStop);
    more, s := more + [SpawnStop], Take(s, SpawnStop);
    Push(Init(true), more, s, SpawnWaiter);
    more, s := more + [SpawnWaiter], Take(s, SpawnWaiter);
  }

  /** The state in which a signal has been taken and the final select waits. */
  lemma UnderWay() returns (run: seq<Step>, s: State)
    ensures Reaches(Init(true), run, s)
    ensures s.main == Awaiting(Signalled) && s.app == AppRunning && s.stop == StopRunning
  {
    run, s := [], Init(true);
    Push(Init(true), run, s, Signal);
    run, s := run + [Signal], Take(s, Signal);
    Push(Init(true), run, s, TakeSignal);
    run, s := Launch(run + [TakeSignal], Take(s, TakeSignal));
  }

  /** After a signal, any error of Stop that is received makes run return nil at once, while Run is still
      running. */
  lemma NilWhileRunIsRunning(e: Error)
    ensures exists run, s ::
              && Reaches(Init(true), run, s) && s.main.Returned? && s.main.outcome == Nil
              && s.stopReturned == Some(Some(e)) && s.app.AppRunning?
  {
    var run, s := UnderWay();
    InitRunInv(true, run, s);
    var more, end := TakeIt(s, e);
    Append(Init(true), run, s, more, end);
  }

  /** The state in which an error of Run has been taken and the final select waits. */
  lemma UnderWayWith(x: Error) returns (run: seq<Step>, s: State)
    ensures Reaches(Init(true), run, s) && s.main == Awaiting(RunResult(Some(x)))
  {
    run, s := [], Init(true);
    Push(Init(true), run, s, RunReturns(Some(x)));
    run, s := run + [RunReturns(Some(x))], Take(s, RunReturns(Some(x)));
    Push(Init(true), run, s, AppSends);
    run, s := run + [AppSends], Take(s, AppSends);
    Push(Init(true), run, s, TakeRunResult);
    run, s := Launch(run + [TakeRunResult], Take(s, TakeRunResult));
  }

  /** Any error of Run can be taken and then replaced by the timeout. */
  lemma TimeoutReplacesRunError(x: Error)
    ensures exists run, s ::
              && Reaches(Init(true), run, s) && s.main.Returned?
              && s.main.cause == RunResult(Some(x)) && s.main.outcome == Fail(ShutdownTimeout)
  {
    var run, s := UnderWayWith(x);
    var more, end := MayLeaveByContext(true, run, s);
    CauseStaysOnRuns(s, more, end);
    Append(Init(true), run, s, more, end);
    OutcomeIsSafe(true, run + more, end);
  }
}
