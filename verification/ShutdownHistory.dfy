/** The outcome of app-runner/app_runner.go against the steps of the run: what Run and Stop returned, and
    which receives the main goroutine made. */
module ShutdownHistory {
  import opened Options
  import opened Shutdown

  /** The history variables record the returns of the run. */
  ghost predicate Records(s: State, past: seq<Step>) {
    && (forall r :: RunReturns(r) in past <==> s.runReturned == Some(r))
    && (forall r :: StopReturns(r) in past <==> s.stopReturned == Some(r))
  }

  /** The main goroutine knows what it received in the first select. */
  ghost predicate Started(s: State, past: seq<Step>) {
    && (TakeRunResult in past <==> !s.main.Selecting? && s.main.cause.RunResult?)
    && (TakeSignal in past <==> !s.main.Selecting? && s.main.cause.Signalled?)
    && (s.signals.buffer != [] || TakeSignal in past ==> Signal in past)
  }

  /** And what it received in the last one. */
  ghost predicate Ended(s: State, past: seq<Step>) {
    && (TakeStopError in past <==> Decided(s.main) && s.main.branch.StopErrorBranch?)
    && (TakeContext in past <==> Decided(s.main) && s.main.branch.ContextBranch?)
    && (TakeDone in past <==> Decided(s.main) && s.main.branch.DoneBranch?)
  }

  /** The contexts end for a reason. */
  ghost predicate Expires(s: State, past: seq<Step>) {
    && (s.parent.DeadlineExceeded? ==> CallerEnds(true) in past)
    && (s.ctx.DeadlineExceeded? ==> Deadline in past || CallerEnds(true) in past)
  }

  /** A context is canceled by the caller until the deferred cancels run. */
  ghost predicate Cancels(s: State, past: seq<Step>) {
    && (s.parent.ContextCanceled? ==> CallerEnds(false) in past || s.main.Returned?)
    && (s.ctx.ContextCanceled? ==> CallerEnds(false) in past || s.main.Exiting? || s.main.Returned?)
    && (Decided(s.main) && s.main.branch.ContextBranch? && s.ctx.ContextCanceled? ==> CallerEnds(false) in past)
  }

  lemma InPush(past: seq<Step>, t: Step)
    ensures forall x :: x in past + [t] <==> x in past || x == t
  {
  }

  lemma RecordsStep(s: State, past: seq<Step>, t: Step)
    requires Inv(s) && Enabled(s, t) && Records(s, past)
    ensures Records(Take(s, t), past + [t])
  {
    InPush(past, t);
  }

  lemma StartedStep(s: State, past: seq<Step>, t: Step)
    requires Inv(s) && Enabled(s, t) && Started(s, past)
    ensures Started(Take(s, t), past + [t])
  {
    InPush(past, t);
  }

  lemma EndedStep(s: State, past: seq<Step>, t: Step)
    requires Inv(s) && Enabled(s, t) && Ended(s, past)
    ensures Ended(Take(s, t), past + [t])
  {
    InPush(past, t);
  }

  lemma ExpiresStep(s: State, past: seq<Step>, t: Step)
    requires Inv(s) && Enabled(s, t) && Expires(s, past)
    ensures Expires(Take(s, t), past + [t])
  {
    InPush(past, t);
  }

  lemma CancelsStep(s: State, past: seq<Step>, t: Step)
    requires Inv(s) && Enabled(s, t) && Cancels(s, past)
    ensures Cancels(Take(s, t), past + [t])
  {
    InPush(past, t);
  }

  ghost predicate Tells(s: State, past: seq<Step>) {
    Records(s, past) && Started(s, past) && Ended(s, past) && Expires(s, past) && Cancels(s, past)
  }

  lemma StepTells(s: State, past: seq<Step>, t: Step)
    requires Inv(s) && Enabled(s, t) && Tells(s, past)
    ensures Inv(Take(s, t)) && Tells(Take(s, t), past + [t])
  {
    RecordsStep(s, past, t);
    StartedStep(s, past, t);
    EndedStep(s, past, t);
    ExpiresStep(s, past, t);
    CancelsStep(s, past, t);
    StepInv(s, t);
  }

  lemma SplitFirst(past: seq<Step>, run: seq<Step>)
    ensures run == [] ==> past + run == past
    ensures run != [] ==> past + run == past + [run[0]] + run[1..]
  {
  }

  lemma {:induction false} RunTells(s: State, past: seq<Step>, run: seq<Step>, end: State, all: seq<Step>)
    requires Inv(s) && Tells(s, past) && Reaches(s, run, end) && all == past + run
    ensures Tells(end, all)
    decreases run
  {
    SplitFirst(past, run);
    if run != [] {
      StepTells(s, past, run[0]);
      RunTells(Take(s, run[0]), past + [run[0]], run[1..], end, all);
    }
  }

  lemma InitRunTells(ownContext: bool, run: seq<Step>, s: State)
    requires Reaches(Init(ownContext), run, s)
    ensures Tells(s, run)
  {
    RunTells(Init(ownContext), [], run, s, run);
  }

  /** Shutdown begins with a signal that was sent, or with the one result that Run returned. */
  lemma ShutdownHasACause(ownContext: bool, run: seq<Step>, s: State)
    requires Reaches(Init(ownContext), run, s) && !s.main.Selecting?
    ensures s.main.cause.Signalled? ==> TakeSignal in run && Signal in run && TakeRunResult !in run
    ensures s.main.cause.RunResult? ==> TakeRunResult in run && RunReturns(s.main.cause.result) in run
    ensures forall r :: TakeRunResult in run && RunReturns(r) in run ==> s.main.cause == RunResult(r)
  {
    InitRunTells(ownContext, run, s);
    InitRunInv(ownContext, run, s);
  }

  /** Run returned `x`, and waitForShutdown took it. */
  ghost predicate TookRunResult(run: seq<Step>, x: Option<Error>) {
    TakeRunResult in run && RunReturns(x) in run
  }

  /** The outcome on the steps of the run: an error of Run that was taken comes back as it is when `doneCh` was
      received, wrapped in the text of the error of Stop when that was received, and wrapped or replaced by
      the timeout when the context ended. */
  lemma RunErrorComesBack(ownContext: bool, run: seq<Step>, s: State, x: Error)
    requires Reaches(Init(ownContext), run, s) && s.main.Returned? && TookRunResult(run, Some(x))
    ensures TakeDone in run ==> s.main.outcome == Fail(x)
    ensures TakeStopError in run ==>
              exists e :: StopReturns(Some(e)) in run && s.main.outcome == Fail(Wrapped(x, TextOf(e)))
    ensures TakeContext in run ==>
              || (s.main.outcome == Fail(ShutdownTimeout) && (Deadline in run || CallerEnds(true) in run))
              || (s.main.outcome == Fail(Wrapped(x, TextOf(Canceled))) && CallerEnds(false) in run)
    ensures TakeDone in run || TakeStopError in run || TakeContext in run
  {
    InitRunTells(ownContext, run, s);
    ShutdownHasACause(ownContext, run, s);
    OutcomeWithRunError(ownContext, run, s, x);
    OutcomeIsSafe(ownContext, run, s);
    if TakeStopError in run {
      assert StopReturns(Some(s.main.branch.error)) in run;
    }
  }

  /** Otherwise it is nil, or the error of the context if that ended. */
  lemma NothingElseComesBack(ownContext: bool, run: seq<Step>, s: State)
    requires Reaches(Init(ownContext), run, s) && s.main.Returned? && (TakeSignal in run || TookRunResult(run, None))
    ensures TakeDone in run || TakeStopError in run ==> s.main.outcome == Nil
    ensures TakeContext in run ==>
              || (s.main.outcome == Fail(ShutdownTimeout) && (Deadline in run || CallerEnds(true) in run))
              || (s.main.outcome == Fail(Wrapped(Canceled, ShutdownNote)) && CallerEnds(false) in run)
    ensures TakeDone in run || TakeStopError in run || TakeContext in run
  {
    InitRunTells(ownContext, run, s);
    ShutdownHasACause(ownContext, run, s);
    OutcomeWithoutRunError(ownContext, run, s);
  }
}
