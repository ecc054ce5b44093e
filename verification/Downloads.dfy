/** DownloadFiles of utils/httputil/httputil.go for any number of files, as a state machine: one worker
    per file, a semaphore channel, a buffered error channel and a WaitGroup, interleaved step by step. */
module Downloads {
  import opened Options
  import opened Seqs

  const WORKER_LIMIT := 5

  /** The wrapped error of one file that could not be downloaded. */
  type Failure = string

  datatype Worker =
    | Unborn
    | Acquiring
    | Downloading
    | Sending(failure: Failure)
    | Releasing(failed: Option<Failure>)   // the deferred receive from the semaphore
    | Leaving(failed: Option<Failure>)     // the WaitGroup's Done
    | Finished(failed: Option<Failure>)

  datatype Main =
    | Spawning(next: nat)
    | Waiting
    | Closing
    | Draining(errs: seq<Failure>)
    | Returned(result: Option<seq<Failure>>)   // None is a nil error

  datatype State = State(main: Main, workers: seq<Worker>, wg: int, sem: int, errChan: seq<Failure>, closed: bool)

  function Limit(n: nat): nat {
    if n < WORKER_LIMIT then n else WORKER_LIMIT
  }

  function Init(n: nat): State {
    State(if n == 0 then Returned(None) else Spawning(0), seq(n, _ => Unborn), 0, 0, [], false)
  }

  // ----- steps

  datatype Step =
    | Spawn | StartWait | Wake | Close | Drain | End
    | Acquire(i: nat) | DownloadReturns(i: nat, r: Option<Failure>) | Send(i: nat) | Release(i: nat) | Leave(i: nat)

  predicate Enabled(s: State, t: Step) {
    match t
    case Spawn => s.main.Spawning? && s.main.next < |s.workers|
    case StartWait => s.main.Spawning? && s.main.next == |s.workers|
    case Wake => s.main.Waiting? && s.wg == 0
    case Close => s.main.Closing? && !s.closed
    case Drain => s.main.Draining? && s.errChan != []
    case End => s.main.Draining? && s.errChan == [] && s.closed
    case Acquire(i) => i < |s.workers| && s.workers[i].Acquiring? && s.sem < Limit(|s.workers|)
    case DownloadReturns(i, _) => i < |s.workers| && s.workers[i].Downloading?
    case Send(i) => i < |s.workers| && s.workers[i].Sending? && |s.errChan| < |s.workers| && !s.closed
    case Release(i) => i < |s.workers| && s.workers[i].Releasing? && 1 <= s.sem
    case Leave(i) => i < |s.workers| && s.workers[i].Leaving? && 1 <= s.wg
  }

  function Become(s: State, i: nat, w: Worker): State
    requires i < |s.workers|
  {
    s.(workers := s.workers[i := w])
  }

  function Take(s: State, t: Step): State
    requires Enabled(s, t)
  {
    match t
    case Spawn => Become(s, s.main.next, Acquiring).(main := Spawning(s.main.next + 1), wg := s.wg + 1)
    case StartWait => s.(main := Waiting)
    case Wake => s.(main := Closing)
    case Close => s.(main := Draining([]), closed := true)
    case Drain => s.(main := Draining(s.main.errs + [s.errChan[0]]), errChan := s.errChan[1..])
    case End => s.(main := Returned(if s.main.errs == [] then None else Some(s.main.errs)))
    case Acquire(i) => Become(s, i, Downloading).(sem := s.sem + 1)
    case DownloadReturns(i, r) => Become(s, i, if r.Some? then Sending(r.value) else Releasing(None))
    case Send(i) =>
      var f := s.workers[i].failure;
      Become(s, i, Releasing(Some(f))).(errChan := s.errChan + [f])
    case Release(i) => Become(s, i, Leaving(s.workers[i].failed)).(sem := s.sem - 1)
    case Leave(i) => Become(s, i, Finished(s.workers[i].failed)).(wg := s.wg - 1)
  }

  ghost predicate Reaches(s: State, run: seq<Step>, end: State)
    decreases run
  {
    if run == [] then end == s
    else Enabled(s, run[0]) && Reaches(Take(s, run[0]), run[1..], end)
  }

  // ----- counting workers

  function Sum(ws: seq<Worker>, weight: Worker -> nat): nat {
    if ws == [] then 0 else weight(ws[0]) + Sum(ws[1..], weight)
  }

  function Token(w: Worker): nat {
    if w.Downloading? || w.Sending? || w.Releasing? then 1 else 0
  }

  function Inside(w: Worker): nat {
    if w.Downloading? then 1 else 0
  }

  function Alive(w: Worker): nat {
    if w.Unborn? || w.Finished? then 0 else 1
  }

  /** How far a worker still has to go. */
  function Distance(w: Worker): nat {
    match w
    case Unborn => 7
    case Acquiring => 6
    case Downloading => 5
    case Sending(_) => 4
    case Releasing(_) => 2
    case Leaving(_) => 1
    case Finished(_) => 0
  }

  /** The failure a worker has sent, if it failed and got that far. */
  function Reported(w: Worker): Option<Failure> {
    if w.Releasing? || w.Leaving? || w.Finished? then w.failed else None
  }

  /** The failure a worker got from its download, sent or not. */
  function Known(w: Worker): Option<Failure> {
    if w.Sending? then Some(w.failure) else Reported(w)
  }

  /** A worker whose download has returned. */
  function Past(w: Worker): nat {
    if w.Unborn? || w.Acquiring? || w.Downloading? then 0 else 1
  }

  function One(f: Option<Failure>): multiset<Failure> {
    if f.Some? then multiset{f.value} else multiset{}
  }

  function Bag(ws: seq<Worker>, part: Worker -> Option<Failure>): multiset<Failure> {
    if ws == [] then multiset{} else One(part(ws[0])) + Bag(ws[1..], part)
  }

  lemma {:induction false} SumUpdate(ws: seq<Worker>, weight: Worker -> nat, i: nat, w: Worker)
    requires i < |ws|
    ensures Sum(ws[i := w], weight) == Sum(ws, weight) - weight(ws[i]) + weight(w)
  {
    if i == 0 {
      assert ws[i := w][1..] == ws[1..];
    } else {
      SumUpdate(ws[1..], weight, i - 1, w);
      assert ws[i := w][1..] == ws[1..][i - 1 := w];
    }
  }

  lemma MoveLast(a: multiset<Failure>, b: multiset<Failure>, c: multiset<Failure>)
    ensures a + (b + c) == (a + b) + c && (a + c) + b == (a + b) + c
  {
  }

  lemma {:induction false} BagUpdate(ws: seq<Worker>, part: Worker -> Option<Failure>, i: nat, w: Worker,
                                     more: multiset<Failure>)
    requires i < |ws| && One(part(w)) == One(part(ws[i])) + more
    ensures Bag(ws[i := w], part) == Bag(ws, part) + more
  {
    var first, rest := One(part(ws[0])), ws[1..];
    var updated := ws[i := w];
    MoveLast(first, Bag(rest, part), more);
    assert Bag(updated, part) == One(part(updated[0])) + Bag(updated[1..], part);
    if i == 0 {
      assert updated[1..] == rest;
    } else {
      assert updated[1..] == rest[i - 1 := w];
      BagUpdate(rest, part, i - 1, w, more);
    }
  }

  lemma {:induction false} SumPositive(ws: seq<Worker>, weight: Worker -> nat, i: nat)
    requires i < |ws|
    ensures weight(ws[i]) <= Sum(ws, weight)
  {
    if i != 0 {
      SumPositive(ws[1..], weight, i - 1);
    }
  }

  lemma {:induction false} SumWitness(ws: seq<Worker>, weight: Worker -> nat) returns (i: nat)
    requires 0 < Sum(ws, weight)
    ensures i < |ws| && 0 < weight(ws[i])
  {
    if 0 < weight(ws[0]) {
      return 0;
    }
    var j := SumWitness(ws[1..], weight);
    return j + 1;
  }

  lemma {:induction false} SumAtMost(ws: seq<Worker>, a: Worker -> nat, b: Worker -> nat)
    requires forall w :: a(w) <= b(w)
    ensures Sum(ws, a) <= Sum(ws, b)
  {
    if ws != [] {
      SumAtMost(ws[1..], a, b);
    }
  }

  /** A worker that has not sent leaves room in the error channel. */
  lemma {:induction false} BagLeavesRoom(ws: seq<Worker>, i: nat)
    requires i < |ws| && Reported(ws[i]).None?
    ensures |Bag(ws, Reported)| < |ws|
  {
    if i == 0 {
      BagSize(ws[1..]);
    } else {
      BagLeavesRoom(ws[1..], i - 1);
    }
  }

  lemma {:induction false} BagSize(ws: seq<Worker>)
    ensures |Bag(ws, Reported)| <= |ws|
  {
    if ws != [] {
      BagSize(ws[1..]);
    }
  }

  // ----- the invariant

  function Drained(m: Main): seq<Failure> {
    match m
    case Draining(errs) => errs
    case Returned(Some(errs)) => errs
    case _ => []
  }

  ghost predicate CountInv(s: State) {
    && s.sem == Sum(s.workers, Token) <= Limit(|s.workers|)
    && s.wg == Sum(s.workers, Alive)
  }

  ghost predicate ErrorInv(s: State) {
    multiset(s.errChan) + multiset(Drained(s.main)) == Bag(s.workers, Reported)
  }

  ghost predicate MainInv(s: State) {
    && (s.main.Spawning? ==> s.main.next <= |s.workers|)
    && (forall i :: 0 <= i < |s.workers| ==> (s.workers[i].Unborn? <==> s.main.Spawning? && s.main.next <= i))
    && (s.closed ==> s.main.Draining? || s.main.Returned?)
    && (s.main.Draining? ==> s.closed)
    && (s.main.Closing? || s.closed ==> forall i :: 0 <= i < |s.workers| ==> s.workers[i].Finished?)
    && (s.main.Returned? ==> s.errChan == [] && (s.main.result.Some? ==> s.main.result.value != [])
                             && forall i :: 0 <= i < |s.workers| ==> s.workers[i].Finished?)
  }

  ghost predicate Inv(s: State) {
    CountInv(s) && ErrorInv(s) && MainInv(s)
  }

  lemma {:induction false} UnbornSums(ws: seq<Worker>)
    requires forall i :: 0 <= i < |ws| ==> ws[i].Unborn?
    ensures Sum(ws, Token) == 0 && Sum(ws, Alive) == 0 && Bag(ws, Reported) == multiset{}
    ensures Sum(ws, Past) == 0 && Bag(ws, Known) == multiset{}
    ensures Sum(ws, Distance) == 7 * |ws|
  {
    if ws != [] {
      UnbornSums(ws[1..]);
    }
  }

  lemma InitInv(n: nat)
    ensures Inv(Init(n))
  {
    UnbornSums(Init(n).workers);
  }

  /** The worker that a step moves, and what it becomes. */
  function Moved(s: State, t: Step): Option<(nat, Worker)>
    requires Enabled(s, t)
  {
    match t
    case Spawn => Some((s.main.next, Acquiring))
    case Acquire(i) => Some((i, Downloading))
    case DownloadReturns(i, r) => Some((i, if r.Some? then Sending(r.value) else Releasing(None)))
    case Send(i) => Some((i, Releasing(Some(s.workers[i].failure))))
    case Release(i) => Some((i, Leaving(s.workers[i].failed)))
    case Leave(i) => Some((i, Finished(s.workers[i].failed)))
    case _ => None
  }

  lemma StepTokens(s: State, t: Step)
    requires Inv(s) && Enabled(s, t)
    ensures Take(s, t).sem == Sum(Take(s, t).workers, Token) <= Limit(|s.workers|)
  {
    var m := Moved(s, t);
    if m.Some? {
      SumUpdate(s.workers, Token, m.value.0, m.value.1);
    }
  }

  lemma StepAlive(s: State, t: Step)
    requires Inv(s) && Enabled(s, t)
    ensures Take(s, t).wg == Sum(Take(s, t).workers, Alive)
  {
    var m := Moved(s, t);
    if m.Some? {
      SumUpdate(s.workers, Alive, m.value.0, m.value.1);
    }
  }

  lemma SendErrors(s: State, i: nat)
    requires ErrorInv(s) && Enabled(s, Send(i))
    ensures ErrorInv(Take(s, Send(i)))
  {
    var f := s.workers[i].failure;
    BagUpdate(s.workers, Reported, i, Releasing(Some(f)), multiset{f});
    MoveLast(multiset(s.errChan), multiset(Drained(s.main)), multiset{f});
    assert multiset(s.errChan + [f]) == multiset(s.errChan) + multiset{f};
  }

  lemma DrainErrors(s: State)
    requires ErrorInv(s) && Enabled(s, Drain)
    ensures ErrorInv(Take(s, Drain))
  {
    var f, rest := s.errChan[0], s.errChan[1..];
    assert s.errChan == [f] + rest;
    assert multiset(s.errChan) == multiset{f} + multiset(rest);
    assert multiset(s.main.errs + [f]) == multiset(s.main.errs) + multiset{f};
  }

  lemma BagSame(ws: seq<Worker>, part: Worker -> Option<Failure>, i: nat, w: Worker)
    requires i < |ws| && part(w) == part(ws[i])
    ensures Bag(ws[i := w], part) == Bag(ws, part)
  {
    BagUpdate(ws, part, i, w, multiset{});
  }

  lemma SentUnlessSending(s: State, t: Step)
    requires MainInv(s) && Enabled(s, t) && Moved(s, t).Some? && !t.Send?
    ensures var (i, w) := Moved(s, t).value;
            i < |s.workers| && Reported(w) == Reported(s.workers[i]) && Take(s, t).workers == s.workers[i := w]
  {
  }

  lemma MoveErrors(s: State, t: Step)
    requires MainInv(s) && ErrorInv(s) && Enabled(s, t) && Moved(s, t).Some? && !t.Send?
    ensures ErrorInv(Take(s, t))
  {
    var s' := Take(s, t);
    SentUnlessSending(s, t);
    BagSame(s.workers, Reported, Moved(s, t).value.0, Moved(s, t).value.1);
    assert s'.errChan == s.errChan && Drained(s'.main) == Drained(s.main);
  }

  lemma StepErrors(s: State, t: Step)
    requires Inv(s) && Enabled(s, t)
    ensures ErrorInv(Take(s, t))
  {
    if t.Send? {
      SendErrors(s, t.i);
    } else if t.Drain? {
      DrainErrors(s);
    } else if Moved(s, t).Some? {
      MoveErrors(s, t);
    } else {
      assert Drained(Take(s, t).main) == Drained(s.main);
    }
  }

  lemma WakeMain(s: State)
    requires Inv(s) && Enabled(s, Wake)
    ensures MainInv(Take(s, Wake))
  {
    forall i | 0 <= i < |s.workers|
      ensures s.workers[i].Finished?
    {
      SumPositive(s.workers, Alive, i);
    }
  }

  lemma MoveMain(s: State, t: Step)
    requires MainInv(s) && Enabled(s, t) && Moved(s, t).Some?
    ensures MainInv(Take(s, t))
  {
    var (i, w) := Moved(s, t).value;
    assert !s.workers[i].Finished? && !w.Unborn?;
    assert Take(s, t).workers == s.workers[i := w];
  }

  lemma StepMain(s: State, t: Step)
    requires Inv(s) && Enabled(s, t)
    ensures MainInv(Take(s, t))
  {
    if t.Wake? {
      WakeMain(s);
    } else if Moved(s, t).Some? {
      MoveMain(s, t);
    }
  }

  lemma StepInv(s: State, t: Step)
    requires Inv(s) && Enabled(s, t)
    ensures Inv(Take(s, t)) && |Take(s, t).workers| == |s.workers|
  {
    StepTokens(s, t);
    StepAlive(s, t);
    StepErrors(s, t);
    StepMain(s, t);
  }

  lemma {:induction false} RunInv(s: State, run: seq<Step>, end: State)
    requires Inv(s) && Reaches(s, run, end)
    ensures Inv(end) && |end.workers| == |s.workers|
    decreases run
  {
    if run != [] {
      StepInv(s, run[0]);
      RunInv(Take(s, run[0]), run[1..], end);
    }
  }

  // ----- safety over every schedule

  lemma InvIsSafe(s: State, i: nat)
    requires Inv(s) && i < |s.workers|
    ensures s.workers[i].Sending? ==> Enabled(s, Send(i))
    ensures s.workers[i].Releasing? ==> Enabled(s, Release(i))
    ensures s.workers[i].Leaving? ==> Enabled(s, Leave(i))
  {
    if s.workers[i].Sending? {
      BagLeavesRoom(s.workers, i);
      assert |multiset(s.errChan)| == |s.errChan|;
    }
    SumPositive(s.workers, Token, i);
    SumPositive(s.workers, Alive, i);
  }

  /** Whatever the schedule: the semaphore holds one token per worker between acquiring and releasing,
      never more than min(5, n), so at most that many downloads run at once; no worker's send blocks
      or meets a closed channel, no receive from the semaphore blocks, and the WaitGroup counts the
      live workers. */
  lemma DownloadsAreSafe(n: nat, run: seq<Step>, s: State)
    requires Reaches(Init(n), run, s)
    ensures |s.workers| == n
    ensures Sum(s.workers, Inside) <= Sum(s.workers, Token) == s.sem
    ensures s.sem <= 5 && s.sem <= n
    ensures s.wg == Sum(s.workers, Alive)
    ensures forall i :: 0 <= i < n && s.workers[i].Sending? ==> Enabled(s, Send(i))
    ensures forall i :: 0 <= i < n && s.workers[i].Releasing? ==> Enabled(s, Release(i))
    ensures forall i :: 0 <= i < n && s.workers[i].Leaving? ==> Enabled(s, Leave(i))
  {
    InitInv(n);
    RunInv(Init(n), run, s);
    SumAtMost(s.workers, Inside, Token);
    forall i | 0 <= i < n
      ensures s.workers[i].Sending? ==> Enabled(s, Send(i))
      ensures s.workers[i].Releasing? ==> Enabled(s, Release(i))
      ensures s.workers[i].Leaving? ==> Enabled(s, Leave(i))
    {
      InvIsSafe(s, i);
    }
  }

  /** A worker without a token leaves room for one. */
  lemma {:induction false} TokensLeaveRoom(ws: seq<Worker>, i: nat)
    requires i < |ws| && Token(ws[i]) == 0
    ensures Sum(ws, Token) < |ws|
  {
    if i == 0 {
      TokensAtMost(ws[1..]);
    } else {
      TokensLeaveRoom(ws[1..], i - 1);
    }
  }

  lemma {:induction false} TokensAtMost(ws: seq<Worker>)
    ensures Sum(ws, Token) <= |ws|
  {
    if ws != [] {
      TokensAtMost(ws[1..]);
    }
  }

  /** A worker waits for the semaphore exactly while five others hold its tokens. */
  lemma AcquireWaitsExactly(n: nat, run: seq<Step>, s: State, i: nat)
    requires Reaches(Init(n), run, s) && i < n && |s.workers| == n && s.workers[i].Acquiring?
    ensures Enabled(s, Acquire(i)) <==> Sum(s.workers, Token) < 5
  {
    InitInv(n);
    RunInv(Init(n), run, s);
    TokensLeaveRoom(s.workers, i);
  }

  // ----- the result against what the downloads returned

  /** What the downloads of a run returned. */
  function FailuresIn(run: seq<Step>): multiset<Failure> {
    if run == [] then multiset{}
    else (if run[0].DownloadReturns? then One(run[0].r) else multiset{}) + FailuresIn(run[1..])
  }

  function ReturnsIn(run: seq<Step>): nat {
    if run == [] then 0 else (if run[0].DownloadReturns? then 1 else 0) + ReturnsIn(run[1..])
  }

  lemma {:induction false} NoFailuresIn(run: seq<Step>)
    ensures |FailuresIn(run)| == 0 <==> forall k :: 0 <= k < |run| && run[k].DownloadReturns? ==> run[k].r.None?
  {
    if run != [] {
      NoFailuresIn(run[1..]);
      assert forall k :: 0 < k < |run| ==> run[k] == run[1..][k - 1];
    }
  }

  /** What a step adds to the failures known. */
  function NewFailure(t: Step): multiset<Failure> {
    if t.DownloadReturns? then One(t.r) else multiset{}
  }

  lemma MovedKnows(s: State, t: Step)
    requires MainInv(s) && Enabled(s, t) && Moved(s, t).Some?
    ensures var (i, w) := Moved(s, t).value;
            && i < |s.workers| && Take(s, t).workers == s.workers[i := w]
            && Past(w) == Past(s.workers[i]) + (if t.DownloadReturns? then 1 else 0)
            && Known(s.workers[i]) == (if t.DownloadReturns? then None else Known(w))
            && (t.DownloadReturns? ==> Known(w) == t.r)
  {
  }

  lemma StepKnows(s: State, t: Step)
    requires MainInv(s) && Enabled(s, t)
    ensures Bag(Take(s, t).workers, Known) == Bag(s.workers, Known) + NewFailure(t)
    ensures Sum(Take(s, t).workers, Past) == Sum(s.workers, Past) + (if t.DownloadReturns? then 1 else 0)
  {
    if Moved(s, t).Some? {
      var (i, w) := Moved(s, t).value;
      MovedKnows(s, t);
      BagUpdate(s.workers, Known, i, w, NewFailure(t));
      SumUpdate(s.workers, Past, i, w);
    }
  }

  lemma NothingAdded(a: multiset<Failure>)
    ensures a + multiset{} == a && multiset{} + a == a
  {
  }

  lemma {:induction false} RunKnows(s: State, run: seq<Step>, end: State)
    requires Inv(s) && Reaches(s, run, end)
    ensures Bag(end.workers, Known) == Bag(s.workers, Known) + FailuresIn(run)
    ensures Sum(end.workers, Past) == Sum(s.workers, Past) + ReturnsIn(run)
    decreases run
  {
    if run != [] {
      StepInv(s, run[0]);
      StepKnows(s, run[0]);
      RunKnows(Take(s, run[0]), run[1..], end);
      MoveLast(Bag(s.workers, Known), NewFailure(run[0]), FailuresIn(run[1..]));
      assert FailuresIn(run) == NewFailure(run[0]) + FailuresIn(run[1..]);
    } else {
      NothingAdded(Bag(s.workers, Known));
    }
  }

  lemma {:induction false} FinishedKnow(ws: seq<Worker>)
    requires forall i :: 0 <= i < |ws| ==> ws[i].Finished?
    ensures Bag(ws, Known) == Bag(ws, Reported) && Sum(ws, Past) == |ws|
  {
    if ws != [] {
      FinishedKnow(ws[1..]);
    }
  }

  /** By the time DownloadFiles returns, each of the n downloads has returned once. The result is nil
      exactly when none of them returned an error; otherwise it reports each error exactly once, and
      nothing else. */
  lemma ResultIsExact(n: nat, run: seq<Step>, s: State)
    requires Reaches(Init(n), run, s) && s.main.Returned?
    ensures ReturnsIn(run) == n
    ensures s.main.result.None? <==> forall k :: 0 <= k < |run| && run[k].DownloadReturns? ==> run[k].r.None?
    ensures s.main.result.Some? ==> multiset(s.main.result.value) == FailuresIn(run)
  {
    InitRunKnows(n, run, s);
    FinishedKnow(s.workers);
    NoFailuresIn(run);
    DrainedIsAll(s);
  }

  lemma InitRunKnows(n: nat, run: seq<Step>, s: State)
    requires Reaches(Init(n), run, s)
    ensures Inv(s) && |s.workers| == n
    ensures Bag(s.workers, Known) == FailuresIn(run) && Sum(s.workers, Past) == ReturnsIn(run)
  {
    InitInv(n);
    RunInv(Init(n), run, s);
    UnbornSums(Init(n).workers);
    RunKnows(Init(n), run, s);
    NothingAdded(FailuresIn(run));
  }

  /** At the return the error channel is empty, so everything reported has been drained. */
  lemma DrainedIsAll(s: State)
    requires Inv(s) && s.main.Returned?
    ensures multiset(Drained(s.main)) == Bag(s.workers, Reported)
    ensures s.main.result.None? <==> |Bag(s.workers, Reported)| == 0
  {
    NothingAdded(multiset(Drained(s.main)));
    assert |multiset(Drained(s.main))| == |Drained(s.main)|;
  }

  // ----- the order of the errors

  /** The failures sent on a run from `s`, in order. */
  function SentIn(s: State, run: seq<Step>, end: State): seq<Failure>
    requires Reaches(s, run, end)
    decreases run
  {
    if run == [] then []
    else
      (if run[0].Send? then [s.workers[run[0].i].failure] else []) + SentIn(Take(s, run[0]), run[1..], end)
  }

  /** What has been drained or is still in the channel. */
  function Received(s: State): seq<Failure> {
    Drained(s.main) + s.errChan
  }

  lemma StepReceives(s: State, t: Step)
    requires MainInv(s) && Enabled(s, t)
    ensures Received(Take(s, t)) == Received(s) + if t.Send? then [s.workers[t.i].failure] else []
  {
    if t.Send? {
      Assoc(Drained(s.main), s.errChan, [s.workers[t.i].failure]);
    } else if t.Drain? {
      assert s.errChan == [s.errChan[0]] + s.errChan[1..];
      Assoc(s.main.errs, [s.errChan[0]], s.errChan[1..]);
    } else {
      assert Drained(Take(s, t).main) == Drained(s.main);
    }
  }

  lemma {:induction false} RunReceives(s: State, run: seq<Step>, end: State)
    requires Inv(s) && Reaches(s, run, end)
    ensures Received(end) == Received(s) + SentIn(s, run, end)
    decreases run
  {
    if run != [] {
      StepInv(s, run[0]);
      StepReceives(s, run[0]);
      RunReceives(Take(s, run[0]), run[1..], end);
      Assoc(Received(s), if run[0].Send? then [s.workers[run[0].i].failure] else [],
            SentIn(Take(s, run[0]), run[1..], end));
    }
  }

  /** The errors are reported in the order in which they were sent. */
  lemma ResultIsInOrder(n: nat, run: seq<Step>, s: State)
    requires Reaches(Init(n), run, s) && s.main.Returned?
    ensures s.main.result == if SentIn(Init(n), run, s) == [] then None else Some(SentIn(Init(n), run, s))
  {
    InitInv(n);
    RunInv(Init(n), run, s);
    RunReceives(Init(n), run, s);
    assert Received(Init(n)) == [];
    assert Received(s) == Drained(s.main) == SentIn(Init(n), run, s);
  }

  // ----- termination

  function Rank(s: State): nat {
    Sum(s.workers, Distance) + |s.errChan| +
    match s.main
    case Spawning(_) => 4
    case Waiting => 3
    case Closing => 2
    case Draining(_) => 1
    case Returned(_) => 0
  }

  lemma MovedCloser(s: State, t: Step)
    requires MainInv(s) && Enabled(s, t) && Moved(s, t).Some?
    ensures var (i, w) := Moved(s, t).value;
            && i < |s.workers| && Take(s, t).workers == s.workers[i := w]
            && Distance(w) + (if t.Send? then 1 else 0) < Distance(s.workers[i])
  {
  }

  lemma RankFalls(s: State, t: Step)
    requires MainInv(s) && Enabled(s, t)
    ensures Rank(Take(s, t)) < Rank(s)
  {
    if Moved(s, t).Some? {
      MovedCloser(s, t);
      SumUpdate(s.workers, Distance, Moved(s, t).value.0, Moved(s, t).value.1);
    }
  }

  lemma {:induction false} RankBounds(s: State, run: seq<Step>, end: State)
    requires Inv(s) && Reaches(s, run, end)
    ensures |run| + Rank(end) <= Rank(s)
    decreases run
  {
    if run != [] {
      StepInv(s, run[0]);
      RankFalls(s, run[0]);
      RankBounds(Take(s, run[0]), run[1..], end);
    }
  }

  /** No schedule takes more than 7n + 4 steps. */
  lemma RunsAreBounded(n: nat, run: seq<Step>, s: State)
    requires Reaches(Init(n), run, s)
    ensures |run| <= 7 * n + 4
  {
    InitInv(n);
    UnbornSums(Init(n).workers);
    RankBounds(Init(n), run, s);
  }

  /** Until DownloadFiles returns, some process can always take a step, a running download being able
      to end. With the bound above, every schedule that is not broken off returns. */
  lemma NeverDeadlocks(n: nat, run: seq<Step>, s: State)
    requires Reaches(Init(n), run, s) && !s.main.Returned?
    ensures exists t :: Enabled(s, t)
  {
    InitInv(n);
    RunInv(Init(n), run, s);
    if s.main.Spawning? {
      assert Enabled(s, if s.main.next < n then Spawn else StartWait);
    } else if s.main.Closing? {
      assert Enabled(s, Close);
    } else if s.main.Draining? {
      assert Enabled(s, if s.errChan == [] then End else Drain);
    } else if s.wg == 0 {
      assert Enabled(s, Wake);
    } else {
      SomeWorkerMoves(s);
    }
  }

  lemma SomeWorkerMoves(s: State)
    requires Inv(s) && 0 < s.wg
    ensures exists t :: Enabled(s, t)
  {
    if 0 < s.sem {
      var i := SumWitness(s.workers, Token);
      InvIsSafe(s, i);
      assert s.workers[i].Downloading? ==> Enabled(s, DownloadReturns(i, None));
    } else {
      var i := SumWitness(s.workers, Alive);
      SumPositive(s.workers, Token, i);
      InvIsSafe(s, i);
      assert s.workers[i].Acquiring? ==> Enabled(s, Acquire(i));
    }
  }
}
