/** The shutdown protocol of app-runner/app_runner.go as a state machine: the main goroutine, the
    goroutines that call Run and Stop, and the one that waits for both, interleaved step by step. */
module Shutdown {
  import opened Options

  datatype Error = Failure(code: nat) | ShutdownTimeout | Canceled | Wrapped(cause: Error, message: Message)

  datatype Message = TextOf(error: Error) | ShutdownNote

  /** What run returns. */
  datatype Outcome = Nil | Fail(error: Error)

  /** ctxerrors.Wrap: nil stays nil. */
  function Wrap(e: Option<Error>, message: Message): Outcome {
    match e
    case None => Nil
    case Some(err) => Fail(Wrapped(err, message))
  }

  // ----- processes

  /** What waitForShutdown took: a signal, or the result of Run. */
  datatype Cause = Signalled | RunResult(result: Option<Error>)

  function ShutdownErr(c: Cause): Option<Error> {
    match c
    case Signalled => None
    case RunResult(r) => r
  }

  /** The branch of the final select. */
  datatype Branch = StopErrorBranch(error: Error) | ContextBranch | DoneBranch

  datatype Main =
    | Selecting
    | Adding(cause: Cause)
    | SpawningStop(cause: Cause)
    | SpawningWaiter(cause: Cause)
    | Awaiting(cause: Cause)
    | Deferring(cause: Cause, branch: Branch, outcome: Outcome)   // the deferred cancel of the shutdown context
    | Exiting(cause: Cause, branch: Branch, outcome: Outcome)     // the deferred cancel in Run
    | Returned(cause: Cause, branch: Branch, outcome: Outcome)

  datatype App = AppRunning | AppSending(result: Option<Error>) | AppClosing | AppReleasing | AppFinished

  datatype Stop = StopUnborn | StopRunning | StopSending(error: Error) | StopReleasing | StopFinished

  datatype Waiter = WaiterUnborn | WaiterWaiting | WaiterClosing | WaiterFinished

  datatype Context = Uncreated | Live | DeadlineExceeded | ContextCanceled

  /** A context that has ended keeps its error. */
  function End(c: Context, err: Context): Context {
    if c.Live? then err else c
  }

  /** A channel with a buffer of one. */
  datatype Chan<T> = Chan(buffer: seq<T>, closed: bool)

  datatype State = State(
    ownContext: bool,              // run was entered through Run, which made its context
    main: Main, app: App, stop: Stop, waiter: Waiter,
    wg: int,
    signals: Chan<()>, runCh: Chan<Option<Error>>, stopCh: Chan<Error>, doneClosed: bool,
    parent: Context,               // the context given to run
    ctx: Context,                  // the shutdown context derived from it
    runReturned: Option<Option<Error>>, stopReturned: Option<Option<Error>>)  // history

  function Init(ownContext: bool): State {
    State(ownContext, Selecting, AppRunning, StopUnborn, WaiterUnborn, 1,
          Chan([], false), Chan([], false), Chan([], false), false, Live, Uncreated, None, None)
  }

  // ----- steps

  datatype Step =
    | Signal | RunReturns(r: Option<Error>) | StopReturns(r: Option<Error>) | Deadline | CallerEnds(expired: bool)
    | AppSends | AppCloses | AppReleases
    | StopSends | StopReleases
    | WaiterWakes | WaiterCloses
    | TakeSignal | TakeRunResult | AddStop | SpawnStop | SpawnWaiter
    | TakeStopError | TakeContext | TakeDone | CancelShutdown | CancelOwn

  /** The steps the outside world takes. */
  predicate IsExternal(t: Step) {
    t.Signal? || t.RunReturns? || t.StopReturns? || t.Deadline? || t.CallerEnds?
  }

  predicate CanSend<T>(c: Chan<T>) {
    !c.closed && |c.buffer| < 1
  }

  predicate CanReceive<T>(c: Chan<T>) {
    c.buffer != [] || c.closed
  }

  predicate Enabled(s: State, t: Step) {
    match t
    case Signal => true
    case RunReturns(_) => s.app.AppRunning?
    case StopReturns(_) => s.stop.StopRunning?
    case Deadline => s.ctx.Live?
    case CallerEnds(_) => !s.ownContext && s.parent.Live?
    case AppSends => s.app.AppSending? && CanSend(s.runCh)
    case AppCloses => s.app.AppClosing? && !s.runCh.closed
    case AppReleases => s.app.AppReleasing? && 1 <= s.wg
    case StopSends => s.stop.StopSending? && CanSend(s.stopCh)
    case StopReleases => s.stop.StopReleasing? && 1 <= s.wg
    case WaiterWakes => s.waiter.WaiterWaiting? && s.wg == 0
    case WaiterCloses => s.waiter.WaiterClosing? && !s.doneClosed
    case TakeSignal => s.main.Selecting? && CanReceive(s.signals)
    case TakeRunResult => s.main.Selecting? && CanReceive(s.runCh)
    case AddStop => s.main.Adding?
    case SpawnStop => s.main.SpawningStop?
    case SpawnWaiter => s.main.SpawningWaiter?
    case TakeStopError => s.main.Awaiting? && s.stopCh.buffer != []
    case TakeContext => s.main.Awaiting? && (s.ctx.DeadlineExceeded? || s.ctx.ContextCanceled?)
    case TakeDone => s.main.Awaiting? && s.doneClosed
    case CancelShutdown => s.main.Deferring?
    case CancelOwn => s.main.Exiting?
  }

  /** Receiving: the oldest value, or nil from a closed empty channel. */
  function Received(c: Chan<Option<Error>>): Option<Error> {
    if c.buffer != [] then c.buffer[0] else None
  }

  function Rest<T>(c: Chan<T>): Chan<T> {
    if c.buffer == [] then c else c.(buffer := c.buffer[1..])
  }

  /** What the context branch of the final select returns. */
  function ContextOutcome(ctx: Context, shutdownErr: Option<Error>): Outcome {
    if ctx.DeadlineExceeded? then Fail(ShutdownTimeout)
    else if shutdownErr.Some? then Wrap(shutdownErr, TextOf(Canceled))
    else Fail(Wrapped(Canceled, ShutdownNote))
  }

  function Plain(e: Option<Error>): Outcome {
    match e
    case None => Nil
    case Some(err) => Fail(err)
  }

  function Take(s: State, t: Step): State
    requires Enabled(s, t)
  {
    match t
    case Signal => if CanSend(s.signals) then s.(signals := Chan(s.signals.buffer + [()], false)) else s
    case RunReturns(r) => s.(app := AppSending(r), runReturned := Some(r))
    case StopReturns(r) =>
      s.(stop := if r.Some? then StopSending(r.value) else StopReleasing, stopReturned := Some(r))
    case Deadline => s.(ctx := DeadlineExceeded)
    case CallerEnds(expired) =>
      var err := if expired then DeadlineExceeded else ContextCanceled;
      s.(parent := err, ctx := End(s.ctx, err))
    case AppSends => s.(app := AppClosing, runCh := s.runCh.(buffer := s.runCh.buffer + [s.app.result]))
    case AppCloses => s.(app := AppReleasing, runCh := s.runCh.(closed := true))
    case AppReleases => s.(app := AppFinished, wg := s.wg - 1)
    case StopSends => s.(stop := StopReleasing, stopCh := s.stopCh.(buffer := s.stopCh.buffer + [s.stop.error]))
    case StopReleases => s.(stop := StopFinished, wg := s.wg - 1)
    case WaiterWakes => s.(waiter := WaiterClosing)
    case WaiterCloses => s.(waiter := WaiterFinished, doneClosed := true)
    case TakeSignal => s.(main := Adding(Signalled), signals := Rest(s.signals))
    case TakeRunResult => s.(main := Adding(RunResult(Received(s.runCh))), runCh := Rest(s.runCh))
    case AddStop => s.(main := SpawningStop(s.main.cause), wg := s.wg + 1, ctx := s.parent)
    case SpawnStop => s.(main := SpawningWaiter(s.main.cause), stop := StopRunning)
    case SpawnWaiter => s.(main := Awaiting(s.main.cause), waiter := WaiterWaiting)
    case TakeStopError =>
      var e := s.stopCh.buffer[0];
      s.(main := Deferring(s.main.cause, StopErrorBranch(e), Wrap(ShutdownErr(s.main.cause), TextOf(e))),
         stopCh := Rest(s.stopCh))
    case TakeContext =>
      s.(main := Deferring(s.main.cause, ContextBranch, ContextOutcome(s.ctx, ShutdownErr(s.main.cause))))
    case TakeDone =>
      s.(main := Deferring(s.main.cause, DoneBranch, Plain(ShutdownErr(s.main.cause))))
    case CancelShutdown =>
      var Deferring(cause, branch, outcome) := s.main;
      s.(main := if s.ownContext then Exiting(cause, branch, outcome) else Returned(cause, branch, outcome),
         ctx := End(s.ctx, ContextCanceled))
    case CancelOwn =>
      s.(main := Returned(s.main.cause, s.main.branch, s.main.outcome),
         parent := End(s.parent, ContextCanceled), ctx := End(s.ctx, ContextCanceled))
  }

  // ----- runs

  /** The state after a run that was possible step by step. */
  ghost predicate Reaches(s: State, run: seq<Step>, end: State)
    decreases run
  {
    if run == [] then end == s
    else Enabled(s, run[0]) && Reaches(Take(s, run[0]), run[1..], end)
  }

  // ----- the invariant

  function Unfinished(s: State): nat {
    (if s.app.AppFinished? then 0 else 1)
    + (match s.stop
       case StopFinished => 0
       case StopUnborn => if s.main.SpawningStop? then 1 else 0
       case _ => 1)
  }

  /** The WaitGroup counts the goroutines that call Run and Stop and have not finished, and Add is
      over before anything waits. */
  ghost predicate WaitGroupInv(s: State) {
    && s.wg == Unfinished(s)
    && (s.stop.StopUnborn? <==> s.main.Selecting? || s.main.Adding? || s.main.SpawningStop?)
    && (s.waiter.WaiterUnborn? <==> s.stop.StopUnborn? || s.main.SpawningWaiter?)
    && (s.waiter.WaiterClosing? || s.waiter.WaiterFinished? ==> s.app.AppFinished? && s.stop.StopFinished?)
    && (s.doneClosed <==> s.waiter.WaiterFinished?)
  }

  /** The run channel carries what Run returned, once. */
  ghost predicate RunChannelInv(s: State) {
    && (s.app.AppRunning? <==> s.runReturned.None?)
    && (s.app.AppSending? ==> s.runReturned == Some(s.app.result))
    && (s.app.AppRunning? || s.app.AppSending? ==> s.runCh == Chan([], false))
    && (s.runCh.closed <==> s.app.AppReleasing? || s.app.AppFinished?)
    && (s.runCh.buffer == [] || s.runCh.buffer == [if s.runReturned.Some? then s.runReturned.value else None])
    && (s.main.Selecting? && !s.app.AppRunning? && !s.app.AppSending? ==> s.runCh.buffer != [])
    && (!s.main.Selecting? && s.main.cause.RunResult? ==> s.runReturned == Some(s.main.cause.result))
  }

  /** The stop channel carries the error that Stop returned, at most once. */
  ghost predicate StopChannelInv(s: State) {
    && !s.stopCh.closed
    && (s.stop.StopUnborn? || s.stop.StopRunning? <==> s.stopReturned.None?)
    && (s.stop.StopSending? ==> s.stopReturned == Some(Some(s.stop.error)))
    && (s.stop.StopUnborn? || s.stop.StopRunning? || s.stop.StopSending? ==> s.stopCh.buffer == [])
    && (s.stopCh.buffer != [] ==> s.stopReturned == Some(Some(s.stopCh.buffer[0])) && |s.stopCh.buffer| == 1)
  }

  ghost predicate SignalInv(s: State) {
    !s.signals.closed && |s.signals.buffer| <= 1
  }

  /** The final select has been left. */
  predicate Decided(m: Main) {
    m.Deferring? || m.Exiting? || m.Returned?
  }

  /** A context that Run made is canceled by Run's own deferred call at the earliest, and the shutdown
      context by its deferred cancel. */
  ghost predicate ContextInv(s: State) {
    && (s.ctx.Uncreated? <==> s.main.Selecting? || s.main.Adding?)
    && !s.parent.Uncreated?
    && (s.ownContext && !s.main.Returned? ==> s.parent.Live?)
    && (s.ownContext && !s.main.Exiting? && !s.main.Returned? ==> !s.ctx.ContextCanceled?)
    && (s.main.Exiting? ==> s.ownContext)
    && (!s.ctx.Uncreated? && !s.parent.Live? ==> !s.ctx.Live?)
  }

  /** What a decided outcome says about the run that led to it. */
  ghost predicate OutcomeInv(s: State) {
    Decided(s.main) ==>
      var err := ShutdownErr(s.main.cause);
      match s.main.branch
      case StopErrorBranch(e) => s.stopReturned == Some(Some(e)) && s.main.outcome == Wrap(err, TextOf(e))
      case ContextBranch =>
        && (s.ctx.DeadlineExceeded? || (s.ctx.ContextCanceled? && !s.ownContext))
        && s.main.outcome == ContextOutcome(s.ctx, err)
      case DoneBranch => s.main.outcome == Plain(err) && s.app.AppFinished? && s.stop.StopFinished?
  }

  ghost predicate Inv(s: State) {
    WaitGroupInv(s) && RunChannelInv(s) && StopChannelInv(s) && SignalInv(s) && ContextInv(s) && OutcomeInv(s)
  }

  lemma WaitGroupStep(s: State, t: Step)
    requires WaitGroupInv(s) && Enabled(s, t)
    ensures WaitGroupInv(Take(s, t))
  {
  }

  lemma RunChannelStep(s: State, t: Step)
    requires RunChannelInv(s) && Enabled(s, t)
    ensures RunChannelInv(Take(s, t))
  {
  }

  lemma StopChannelStep(s: State, t: Step)
    requires WaitGroupInv(s) && StopChannelInv(s) && Enabled(s, t)
    ensures StopChannelInv(Take(s, t))
  {
  }

  lemma SignalStep(s: State, t: Step)
    requires SignalInv(s) && Enabled(s, t)
    ensures SignalInv(Take(s, t))
  {
  }

  lemma ContextStep(s: State, t: Step)
    requires ContextInv(s) && Enabled(s, t)
    ensures ContextInv(Take(s, t))
  {
  }

  lemma OutcomeStep(s: State, t: Step)
    requires Inv(s) && Enabled(s, t)
    ensures OutcomeInv(Take(s, t))
  {
  }

  lemma StepInv(s: State, t: Step)
    requires Inv(s) && Enabled(s, t)
    ensures Inv(Take(s, t))
  {
    WaitGroupStep(s, t);
    RunChannelStep(s, t);
    StopChannelStep(s, t);
    SignalStep(s, t);
    ContextStep(s, t);
    OutcomeStep(s, t);
  }

  lemma {:induction false} RunInv(s: State, run: seq<Step>, end: State)
    requires Inv(s) && Reaches(s, run, end)
    ensures Inv(end) && end.ownContext == s.ownContext
    decreases run
  {
    if run != [] {
      StepInv(s, run[0]);
      RunInv(Take(s, run[0]), run[1..], end);
    }
  }

  lemma InitRunInv(ownContext: bool, run: seq<Step>, s: State)
    requires Reaches(Init(ownContext), run, s)
    ensures Inv(s) && s.ownContext == ownContext
  {
    RunInv(Init(ownContext), run, s);
  }

  // ----- safety over every run

  lemma InvIsSafe(s: State)
    requires Inv(s)
    ensures s.wg == Unfinished(s)
    ensures s.app.AppSending? ==> Enabled(s, AppSends)
    ensures s.app.AppClosing? ==> Enabled(s, AppCloses)
    ensures s.app.AppReleasing? ==> Enabled(s, AppReleases)
    ensures s.stop.StopSending? ==> Enabled(s, StopSends)
    ensures s.stop.StopReleasing? ==> Enabled(s, StopReleases)
    ensures s.waiter.WaiterClosing? ==> Enabled(s, WaiterCloses)
    ensures s.doneClosed ==> s.runReturned.Some? && s.stopReturned.Some?
    ensures Enabled(s, TakeRunResult) ==> s.runReturned.Some? && s.runCh.buffer == [s.runReturned.value]
    ensures Enabled(s, AddStop) ==> s.waiter.WaiterUnborn?
    ensures s.ownContext && !Decided(s.main) ==> s.parent.Live? && !s.ctx.ContextCanceled?
    ensures !s.ctx.Uncreated? && !s.parent.Live? ==> !s.ctx.Live?
    ensures |s.signals.buffer| <= 1 && |s.runCh.buffer| <= 1 && |s.stopCh.buffer| <= 1
  {
  }

  /** In every reachable state the WaitGroup equals the number of unfinished goroutines that call Run
      and Stop; no send can block or hit a closed channel, no channel is closed twice, the counter
      never goes negative; `doneCh` is closed only after both Run and Stop have returned; and what
      the first select can receive is always the result of Run, never the zero value of a closed
      channel; no channel ever holds more than one value, and the shutdown context is over when the
      caller's is. All of it holds after an early return too. In a run entered through Run both deferred
      cancels come after the final select, so until then nothing but the deadline ends the shutdown
      context. */
  lemma ProtocolIsSafe(ownContext: bool, run: seq<Step>, s: State)
    requires Reaches(Init(ownContext), run, s)
    ensures s.wg == Unfinished(s)
    ensures s.app.AppSending? ==> Enabled(s, AppSends)
    ensures s.app.AppClosing? ==> Enabled(s, AppCloses)
    ensures s.app.AppReleasing? ==> Enabled(s, AppReleases)
    ensures s.stop.StopSending? ==> Enabled(s, StopSends)
    ensures s.stop.StopReleasing? ==> Enabled(s, StopReleases)
    ensures s.waiter.WaiterClosing? ==> Enabled(s, WaiterCloses)
    ensures s.doneClosed ==> s.runReturned.Some? && s.stopReturned.Some?
    ensures Enabled(s, TakeRunResult) ==> s.runReturned.Some? && s.runCh.buffer == [s.runReturned.value]
    ensures Enabled(s, AddStop) ==> s.waiter.WaiterUnborn?
    ensures ownContext && !Decided(s.main) ==> s.parent.Live? && !s.ctx.ContextCanceled?
    ensures !s.ctx.Uncreated? && !s.parent.Live? ==> !s.ctx.Live?
    ensures |s.signals.buffer| <= 1 && |s.runCh.buffer| <= 1 && |s.stopCh.buffer| <= 1
  {
    InitRunInv(ownContext, run, s);
    InvIsSafe(s);
  }

  /** The outcome is the error `x`, or wraps it. */
  predicate Carries(o: Outcome, x: Error) {
    o.Fail? && (o.error == x || (o.error.Wrapped? && o.error.cause == x))
  }

  /** What the outcome of a run says. A Run error that was taken never becomes nil; the done branch comes
      after Run and Stop have both returned; nil comes out exactly when no error was taken and the context
      did not end first, an error of Stop notwithstanding; a run entered through Run ends by its context
      only at the deadline. */
  lemma OutcomeIsSafe(ownContext: bool, run: seq<Step>, s: State)
    requires Reaches(Init(ownContext), run, s) && s.main.Returned?
    ensures s.main.cause.RunResult? ==> s.runReturned == Some(s.main.cause.result)
    ensures s.main.cause.RunResult? && s.main.cause.result.Some? ==> s.main.outcome.Fail?
    ensures s.main.branch.DoneBranch? ==> s.app.AppFinished? && s.stop.StopFinished?
    ensures s.main.branch.StopErrorBranch? ==> s.stopReturned == Some(Some(s.main.branch.error))
    ensures s.main.outcome.Nil? <==>
            !s.main.branch.ContextBranch? && (s.main.cause.Signalled? || s.main.cause.result.None?)
    ensures ownContext && s.main.branch.ContextBranch? ==> s.main.outcome == Fail(ShutdownTimeout)
  {
    InitRunInv(ownContext, run, s);
  }

  /** With an error of Run taken: the done branch returns it, the stop branch wraps it in the text of the error
      of Stop, the context branch returns the timeout at a deadline and wraps it in the text of the
      cancelation otherwise. */
  lemma OutcomeWithRunError(ownContext: bool, run: seq<Step>, s: State, x: Error)
    requires Reaches(Init(ownContext), run, s) && s.main.Returned? && s.main.cause == RunResult(Some(x))
    ensures match s.main.branch
            case DoneBranch => s.main.outcome == Fail(x)
            case StopErrorBranch(e) => s.main.outcome == Fail(Wrapped(x, TextOf(e)))
            case ContextBranch =>
              || (s.ctx.DeadlineExceeded? && s.main.outcome == Fail(ShutdownTimeout))
              || (s.ctx.ContextCanceled? && s.main.outcome == Fail(Wrapped(x, TextOf(Canceled))))
  {
    InitRunInv(ownContext, run, s);
  }

  /** After a signal or a nil from Run: nil on the done branch and on the stop branch, and the error of the
      context on the context branch. */
  lemma OutcomeWithoutRunError(ownContext: bool, run: seq<Step>, s: State)
    requires Reaches(Init(ownContext), run, s) && s.main.Returned?
    requires s.main.cause == Signalled || s.main.cause == RunResult(None)
    ensures match s.main.branch
            case DoneBranch => s.main.outcome == Nil
            case StopErrorBranch(_) => s.main.outcome == Nil
            case ContextBranch =>
              || (s.ctx.DeadlineExceeded? && s.main.outcome == Fail(ShutdownTimeout))
              || (s.ctx.ContextCanceled? && s.main.outcome == Fail(Wrapped(Canceled, ShutdownNote)))
  {
    InitRunInv(ownContext, run, s);
  }

  /** A Run error that was taken reaches the caller, as it is or wrapped, exactly unless the shutdown times
      out; a timeout is only returned by the context branch. */
  lemma RunErrorIsCarriedExactly(ownContext: bool, run: seq<Step>, s: State, x: Error)
    requires Reaches(Init(ownContext), run, s) && s.main.Returned? && s.main.cause == RunResult(Some(x))
    ensures Carries(s.main.outcome, x) <==> s.main.outcome != Fail(ShutdownTimeout) || x == ShutdownTimeout
    ensures s.main.outcome == Fail(ShutdownTimeout) && x != ShutdownTimeout ==> s.main.branch.ContextBranch?
  {
    InitRunInv(ownContext, run, s);
  }

  // ----- progress

  function MainRank(m: Main): nat {
    match m
    case Selecting => 7
    case Adding(_) => 6
    case SpawningStop(_) => 5
    case SpawningWaiter(_) => 4
    case Awaiting(_) => 3
    case Deferring(_, _, _) => 2
    case Exiting(_, _, _) => 1
    case Returned(_, _, _) => 0
  }

  function AppRank(a: App): nat {
    match a
    case AppRunning => 4
    case AppSending(_) => 3
    case AppClosing => 2
    case AppReleasing => 1
    case AppFinished => 0
  }

  function StopRank(p: Stop): nat {
    match p
    case StopUnborn => 3
    case StopRunning => 3
    case StopSending(_) => 2
    case StopReleasing => 1
    case StopFinished => 0
  }

  function WaiterRank(w: Waiter): nat {
    match w
    case WaiterUnborn => 2
    case WaiterWaiting => 2
    case WaiterClosing => 1
    case WaiterFinished => 0
  }

  function ContextRank(c: Context): nat {
    if c.Uncreated? || c.Live? then 1 else 0
  }

  /** How many steps are left at most. */
  function Rank(s: State): nat {
    MainRank(s.main) + AppRank(s.app) + StopRank(s.stop) + WaiterRank(s.waiter)
    + ContextRank(s.ctx) + ContextRank(s.parent)
  }

  /** The steps of the main goroutine. */
  predicate IsMainStep(t: Step) {
    || t.TakeSignal? || t.TakeRunResult? || t.AddStop? || t.SpawnStop? || t.SpawnWaiter?
    || t.TakeStopError? || t.TakeContext? || t.TakeDone? || t.CancelShutdown? || t.CancelOwn?
  }

  lemma RankFallsInMain(s: State, t: Step)
    requires WaitGroupInv(s) && ContextInv(s) && Enabled(s, t) && IsMainStep(t)
    ensures Rank(Take(s, t)) < Rank(s)
  {
  }

  lemma RankFallsElsewhere(s: State, t: Step)
    requires Enabled(s, t) && !IsMainStep(t)
    ensures if t.Signal? then Rank(Take(s, t)) == Rank(s) else Rank(Take(s, t)) < Rank(s)
  {
  }

  lemma RankFalls(s: State, t: Step)
    requires WaitGroupInv(s) && ContextInv(s) && Enabled(s, t)
    ensures if t.Signal? then Rank(Take(s, t)) == Rank(s) else Rank(Take(s, t)) < Rank(s)
  {
    if IsMainStep(t) {
      RankFallsInMain(s, t);
    } else {
      RankFallsElsewhere(s, t);
    }
  }

  function StepsTaken(run: seq<Step>): nat {
    if run == [] then 0 else (if run[0].Signal? then 0 else 1) + StepsTaken(run[1..])
  }

  lemma {:induction false} RankBounds(s: State, run: seq<Step>, end: State)
    requires Inv(s) && Reaches(s, run, end)
    ensures StepsTaken(run) + Rank(end) <= Rank(s)
    decreases run
  {
    if run != [] {
      StepInv(s, run[0]);
      RankFalls(s, run[0]);
      RankBounds(Take(s, run[0]), run[1..], end);
    }
  }

  /** Signals aside, no run takes more than 18 steps. */
  lemma RunsAreShort(ownContext: bool, run: seq<Step>, s: State)
    requires Reaches(Init(ownContext), run, s)
    ensures StepsTaken(run) <= 18
  {
    RankBounds(Init(ownContext), run, s);
  }

  ghost predicate Stuck(s: State) {
    forall t :: Enabled(s, t) ==> IsExternal(t)
  }

  /** A run can only get stuck in the first select with nothing to receive, or after the return,
      once the deadline counts as a step. */
  lemma ShutdownAlwaysReturns(ownContext: bool, run: seq<Step>, s: State)
    requires Reaches(Init(ownContext), run, s)
    requires Stuck(s) && !Enabled(s, Deadline)
    ensures s.main.Returned? || (s.main.Selecting? && s.app.AppRunning? && s.signals.buffer == [])
  {
    InitRunInv(ownContext, run, s);
    MainIsReady(s);
    SelectIsReady(s);
  }

  lemma SelectIsReady(s: State)
    requires Inv(s) && Stuck(s)
    ensures s.main.Selecting? ==> s.signals.buffer == [] && (s.app.AppRunning? || s.app.AppSending?)
    ensures !s.app.AppSending?
  {
    assert !Enabled(s, TakeSignal) && !Enabled(s, TakeRunResult) && !Enabled(s, AppSends);
  }

  lemma MainIsReady(s: State)
    requires Inv(s) && Stuck(s)
    ensures s.main.Returned? || s.main.Selecting? || (s.main.Awaiting? && s.ctx.Live?)
  {
    assert !Enabled(s, AddStop) && !Enabled(s, SpawnStop) && !Enabled(s, SpawnWaiter);
    assert !Enabled(s, TakeContext) && !Enabled(s, CancelShutdown) && !Enabled(s, CancelOwn);
  }

  /** Once Run and Stop have returned, nothing is left behind: a stuck run has returned, and every
      goroutine it started has finished, however early the return came. */
  lemma NothingLeaks(ownContext: bool, run: seq<Step>, s: State)
    requires Reaches(Init(ownContext), run, s)
    requires Stuck(s) && !s.app.AppRunning? && !s.stop.StopRunning?
    ensures s.main.Returned? && s.app.AppFinished? && s.stop.StopFinished? && s.waiter.WaiterFinished?
  {
    InitRunInv(ownContext, run, s);
    MainIsReady(s);
    SelectIsReady(s);
    GoroutinesAreReady(s);
  }

  lemma GoroutinesAreReady(s: State)
    requires Inv(s) && Stuck(s) && !s.app.AppRunning? && !s.app.AppSending? && !s.stop.StopRunning?
    requires !s.stop.StopUnborn? && !s.waiter.WaiterUnborn?
    ensures s.app.AppFinished? && s.stop.StopFinished? && s.waiter.WaiterFinished? && !s.main.Awaiting?
  {
    InvIsSafe(s);
    assert !Enabled(s, AppCloses) && !Enabled(s, AppReleases) && !Enabled(s, StopSends) && !Enabled(s, StopReleases);
    assert !Enabled(s, WaiterWakes) && !Enabled(s, WaiterCloses);
    assert !Enabled(s, TakeDone);
  }
}
