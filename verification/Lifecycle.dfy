/** A running service: requests counted while they are served, low-memory idling refused while any is, the unload timer
    pushed back by every request, and stopping. Each step is one atomic action of one thread, or time passing. */
module Lifecycle {
  import opened Text

  const DELAY_TIME: nat := 180000
  const DP_INTERFACE_CHECK_FAILED: Int32 := 98566145
  const DP_LOAD_SERVICE_ERR: Int32 := 98566160
  const DP_SERVICE_ON_IDLE: Int32 := 98566330
  const DP_SERVICE_STOPPED: Int32 := 98566331

  /** A thread inside OnRemoteRequest. */
  datatype Request =
    | Arrived                   // the stop flag not yet read
    | NotStopped                // about to leave the idle state
    | Admitted                  // about to be counted
    | Counted                   // about to push the unload timer back
    | Serving
    | Uncounting(code: Int32)   // served or refused with this answer, still counted
    | Answered(code: Int32)

  /** A thread inside OnIdle for lack of memory; `inFlight` is history: the requests being counted at the load. */
  datatype IdleQuery = Loaded(count: int, inFlight: nat) | Decided(ready: bool, online: bool, inFlight: nat)

  /** The thread that starts the service, after it is published. */
  datatype Starting = CreatingHandler | PostingFirst | Started

  /** The thread that stops it. */
  datatype Stopping = NotStopping | UnInitialising | UnInitFailed | FactoryCleared | HandlerDestroyed

  /** The unload tasks waiting in the handler, by due time; `factory` says that the factory still has a handler to give.
      `latest` is history: the time of the latest call that posted a task. */
  datatype Timer = Timer(now: nat, factory: bool, handler: bool, tasks: seq<nat>, latest: nat)

  datatype State = State(stopped: bool, count: int, requests: map<nat, Request>, queries: map<nat, IdleQuery>,
                         starting: Starting, stopping: Stopping, timer: Timer)

  function Start(now: nat): State {
    State(false, 0, map[], map[], CreatingHandler, NotStopping, Timer(now, true, false, [], 0))
  }

  datatype Step =
    | Arrive(t: nat)
    | ReadStopped(t: nat)
    | ExitIdle(t: nat, cancelled: bool)
    | AddCount(t: nat)
    | PushBack(t: nat)
    | Serve(t: nat, tokenValid: bool, beforeInit: bool, inited: bool, answer: Int32)
    | SubtractCount(t: nat)
    | LoadCount(q: nat)
    | DecideIdle(q: nat, online: bool)
    | CreateHandler
    | PostFirst
    | Stop
    | UnInitManagers(ok: bool)
    | DestroyHandler
    | TimePasses(ms: nat)
    | RunUnload(i: nat)

  /** DelayUnloadTask: under the timer's lock, remove the waiting unload tasks and post one. */
  function DelayUnloadTask(r: Timer): Timer {
    if !r.handler then r else Posted(Removed(r))
  }

  function Removed(r: Timer): Timer {
    r.(tasks := [])
  }

  function Posted(r: Timer): Timer {
    r.(tasks := r.tasks + [r.now + DELAY_TIME], latest := r.now)
  }

  /** Which requests are let through once counted: every request needs a valid token, and an initialised service unless
      its code is in the table served before. */
  function AnswerOf(tokenValid: bool, beforeInit: bool, inited: bool, answer: Int32): Int32 {
    if !tokenValid then DP_INTERFACE_CHECK_FAILED
    else if beforeInit then answer
    else if !inited then DP_LOAD_SERVICE_ERR
    else answer
  }

  predicate CanUnload(s: State, i: nat) {
    s.timer.handler && i < |s.timer.tasks| && s.timer.tasks[i] <= s.timer.now
  }

  function Next(s: State, step: Step): State {
    match step
    case Arrive(t) => if t in s.requests then s else s.(requests := s.requests[t := Arrived])
    case ReadStopped(t) =>
      if At(s, t, Arrived) then Move(s, t, if s.stopped then Answered(DP_SERVICE_STOPPED) else NotStopped) else s
    case ExitIdle(t, cancelled) =>
      if At(s, t, NotStopped) then Move(s, t, if cancelled then Admitted else Answered(DP_SERVICE_ON_IDLE)) else s
    case AddCount(t) => if At(s, t, Admitted) then Move(s, t, Counted).(count := s.count + 1) else s
    case PushBack(t) => if At(s, t, Counted) then Move(s, t, Serving).(timer := DelayUnloadTask(s.timer)) else s
    case Serve(t, tokenValid, beforeInit, inited, answer) =>
      if At(s, t, Serving) then Move(s, t, Uncounting(AnswerOf(tokenValid, beforeInit, inited, answer))) else s
    case SubtractCount(t) =>
      if t in s.requests && s.requests[t].Uncounting?
      then Move(s, t, Answered(s.requests[t].code)).(count := s.count - 1) else s
    case LoadCount(q) =>
      if q in s.queries then s else s.(queries := s.queries[q := Loaded(s.count, |InFlight(s.requests)|)])
    case DecideIdle(q, online) =>
      if q in s.queries && s.queries[q].Loaded?
      then s.(queries := s.queries[q :=
                Decided(!(s.queries[q].count > 0) && !online, online, s.queries[q].inFlight)]) else s
    case CreateHandler =>
      if s.starting.CreatingHandler?
      then s.(timer := s.timer.(handler := s.timer.handler || s.timer.factory),
              starting := if s.timer.handler || s.timer.factory then PostingFirst else Started) else s
    case PostFirst =>
      if s.starting.PostingFirst? then s.(timer := DelayUnloadTask(s.timer), starting := Started) else s
    case Stop => if s.stopping.NotStopping? then s.(stopped := true, stopping := UnInitialising) else s
    case UnInitManagers(ok) =>
      if !s.stopping.UnInitialising? then s
      else if !ok then s.(stopping := UnInitFailed)
      else s.(stopping := FactoryCleared, timer := Removed(s.timer).(factory := false))
    case DestroyHandler =>
      if s.stopping.FactoryCleared?
      then s.(stopping := HandlerDestroyed,
              timer := if s.timer.handler then Removed(s.timer).(handler := false) else s.timer) else s
    case TimePasses(ms) => s.(timer := s.timer.(now := s.timer.now + ms))
    case RunUnload(i) =>
      if CanUnload(s, i) then s.(timer := s.timer.(tasks := s.timer.tasks[..i] + s.timer.tasks[i + 1..])) else s
  }

  predicate At(s: State, t: nat, where: Request) {
    t in s.requests && s.requests[t] == where
  }

  function Move(s: State, t: nat, to: Request): State {
    s.(requests := s.requests[t := to])
  }

  function Run(s: State, steps: seq<Step>): State
    decreases |steps|
  {
    if steps == [] then s else Next(Run(s, steps[..|steps| - 1]), steps[|steps| - 1])
  }

  // ---------------------------------------------------------------- the count of requests

  predicate IsCounted(a: Request) {
    a.Counted? || a.Serving? || a.Uncounting?
  }

  /** The requests between their addition to the count and their subtraction. */
  function InFlight(requests: map<nat, Request>): set<nat> {
    set t | t in requests && IsCounted(requests[t])
  }

  ghost predicate CountInv(s: State) {
    && s.count == |InFlight(s.requests)|
    && forall q :: q in s.queries ==> QueryInv(s.queries[q])
  }

  predicate QueryInv(q: IdleQuery) {
    match q
    case Loaded(count, inFlight) => count == inFlight
    case Decided(ready, online, inFlight) => ready <==> inFlight == 0 && !online
  }

  lemma MoveInFlight(requests: map<nat, Request>, t: nat, to: Request)
    ensures InFlight(requests[t := to]) ==
            if IsCounted(to) then InFlight(requests) + {t} else InFlight(requests) - {t}
    ensures |InFlight(requests[t := to])| == |InFlight(requests)|
                                             + (if IsCounted(to) && t !in InFlight(requests) then 1 else 0)
                                             - (if !IsCounted(to) && t in InFlight(requests) then 1 else 0)
  {
    if IsCounted(to) {
      assert InFlight(requests[t := to]) == InFlight(requests) + {t};
    } else {
      assert InFlight(requests[t := to]) == InFlight(requests) - {t};
    }
  }

  function Weight(a: Request): nat {
    if IsCounted(a) then 1 else 0
  }

  lemma CountMoved(s: State, t: nat, to: Request)
    requires CountInv(s) && t in s.requests
    ensures CountInv(Move(s, t, to).(count := s.count + Weight(to) - Weight(s.requests[t])))
  {
    hide InFlight;
    InFlightIs(s.requests, t);
    MoveInFlight(s.requests, t, to);
  }

  lemma CountStep(s: State, step: Step)
    requires CountInv(s)
    ensures CountInv(Next(s, step))
  {
    hide InFlight, DelayUnloadTask, Removed, CanUnload, AnswerOf;
    match step
    case Arrive(t) =>
      MoveInFlight(s.requests, t, Arrived);
      InFlightIs(s.requests, t);
    case ReadStopped(_) => RequestStep(s, step);
    case ExitIdle(_, _) => RequestStep(s, step);
    case AddCount(_) => RequestStep(s, step);
    case PushBack(_) => RequestStep(s, step);
    case Serve(_, _, _, _, _) => RequestStep(s, step);
    case SubtractCount(_) => RequestStep(s, step);
    case _ =>
  }

  lemma RequestStep(s: State, step: Step)
    requires CountInv(s)
    requires step.ReadStopped? || step.ExitIdle? || step.AddCount? || step.PushBack? || step.Serve?
             || step.SubtractCount?
    ensures CountInv(Next(s, step))
  {
    hide CountInv, DelayUnloadTask, AnswerOf;
    var s' := Next(s, step);
    if step.t in s.requests && s'.requests != s.requests {
      CountMoved(s, step.t, s'.requests[step.t]);
      assert s'.count == s.count + Weight(s'.requests[step.t]) - Weight(s.requests[step.t]);
      CountInvDepends(Move(s, step.t, s'.requests[step.t]).(count := s'.count), s');
    } else {
      CountInvDepends(s, s');
    }
  }

  lemma CountInvDepends(s: State, s': State)
    requires CountInv(s) && s'.count == s.count && s'.requests == s.requests && s'.queries == s.queries
    ensures CountInv(s')
  {
  }

  lemma InFlightIs(requests: map<nat, Request>, t: nat)
    ensures t in InFlight(requests) <==> t in requests && IsCounted(requests[t])
  {
  }

  /** With any number of requests at once, the count is always the number of requests between their addition and their
      subtraction, so it is never negative; and a query for lack of memory is answered "ready" exactly when no
      request was counted at its load and no device was online. */
  lemma CountExact(now: nat, steps: seq<Step>)
    ensures var s := Run(Start(now), steps);
            && s.count == |InFlight(s.requests)| && s.count >= 0
            && forall q :: q in s.queries && s.queries[q].Decided? ==>
                 (s.queries[q].ready <==> s.queries[q].inFlight == 0 && !s.queries[q].online)
  {
    hide Next, Run, InFlight;
    CountRun(now, steps);
  }

  lemma {:induction false} CountRun(now: nat, steps: seq<Step>)
    ensures CountInv(Run(Start(now), steps))
    decreases |steps|
  {
    if steps != [] {
      hide CountInv, Next;
      CountRun(now, steps[..|steps| - 1]);
      CountStep(Run(Start(now), steps[..|steps| - 1]), steps[|steps| - 1]);
    }
  }

  // ---------------------------------------------------------------- after a stop

  predicate TurnedAway(s: State, t: nat) {
    s.stopped && (t in s.requests ==> s.requests[t] == Arrived || s.requests[t] == Answered(DP_SERVICE_STOPPED))
  }

  /** A request that arrives once the service is stopped is answered so, and is never counted. */
  lemma {:induction false} StoppedTurnsAway(s: State, t: nat, steps: seq<Step>)
    requires s.stopped && t !in s.requests
    ensures var s' := Run(s, steps); TurnedAway(s', t) && t !in InFlight(s'.requests)
    decreases |steps|
  {
    if steps != [] {
      StoppedTurnsAway(s, t, steps[..|steps| - 1]);
      TurnedAwayStep(Run(s, steps[..|steps| - 1]), t, steps[|steps| - 1]);
    }
  }

  lemma TurnedAwayStep(s: State, t: nat, step: Step)
    requires TurnedAway(s, t)
    ensures TurnedAway(Next(s, step), t)
  {
    hide InFlight, DelayUnloadTask, CanUnload, Removed;
  }

  // ---------------------------------------------------------------- the unload timer

  predicate TimerInv(s: State) {
    && (s.timer.tasks == [] || s.timer.tasks == [s.timer.latest + DELAY_TIME])
    && (!s.timer.handler ==> s.timer.tasks == [])
    && (s.stopping.HandlerDestroyed? ==> !s.timer.handler)
    && (s.stopping.FactoryCleared? || s.stopping.HandlerDestroyed? ==> !s.timer.factory)
  }

  lemma TakeOnly(tasks: seq<nat>, i: nat)
    requires |tasks| == 1 && i < |tasks|
    ensures tasks[..i] + tasks[i + 1..] == []
  {
  }

  lemma TimerRunsUnload(s: State, i: nat)
    requires TimerInv(s)
    ensures TimerInv(Next(s, RunUnload(i)))
  {
    if CanUnload(s, i) {
      TakeOnly(s.timer.tasks, i);
    }
  }

  lemma TimerStep(s: State, step: Step)
    requires TimerInv(s)
    ensures TimerInv(Next(s, step))
  {
    hide InFlight, AnswerOf;
    if step.RunUnload? {
      TimerRunsUnload(s, step.i);
    } else {
      hide CanUnload;
      TimerOther(s, step);
    }
  }

  lemma TimerOther(s: State, step: Step)
    requires TimerInv(s) && !step.RunUnload?
    ensures TimerInv(Next(s, step))
  {
    hide InFlight, AnswerOf, CanUnload;
  }

  lemma {:induction false} TimerRun(now: nat, steps: seq<Step>)
    ensures TimerInv(Run(Start(now), steps))
    decreases |steps|
  {
    if steps != [] {
      hide TimerInv, Next;
      TimerRun(now, steps[..|steps| - 1]);
      TimerStep(Run(Start(now), steps[..|steps| - 1]), steps[|steps| - 1]);
    }
  }

  /** At every moment at most one unload task waits, due exactly the delay after the latest call that posted one. */
  lemma OneUnloadWaits(now: nat, steps: seq<Step>)
    ensures var s := Run(Start(now), steps);
            |s.timer.tasks| <= 1 && forall due :: due in s.timer.tasks ==> due == s.timer.latest + 180000
  {
    hide Next, Run;
    TimerRun(now, steps);
  }

  predicate PastManagers(s: State) {
    s.stopping.FactoryCleared? || s.stopping.HandlerDestroyed?
  }

  lemma StoppingStep(s: State, step: Step)
    ensures s.stopping.HandlerDestroyed? ==> Next(s, step).stopping.HandlerDestroyed?
    ensures s.stopping.UnInitFailed? ==> Next(s, step).stopping.UnInitFailed?
    ensures PastManagers(s) ==> PastManagers(Next(s, step))
  {
    hide InFlight, AnswerOf, DelayUnloadTask, CanUnload, Removed;
  }

  lemma {:induction false} StoppingLasts(now: nat, steps: seq<Step>, i: nat, j: nat)
    requires i <= j <= |steps|
    ensures var s, s' := Run(Start(now), steps[..i]), Run(Start(now), steps[..j]);
            && (s.stopping.HandlerDestroyed? ==> s'.stopping.HandlerDestroyed?)
            && (s.stopping.UnInitFailed? ==> s'.stopping.UnInitFailed?)
            && (PastManagers(s) ==> PastManagers(s'))
    decreases j
  {
    hide Next, PastManagers;
    if i < j {
      assert steps[..j][..j - 1] == steps[..j - 1];
      StoppingLasts(now, steps, i, j - 1);
      StoppingStep(Run(Start(now), steps[..j - 1]), steps[j - 1]);
    }
  }

  /** Once the handler is destroyed no unload task is ever posted or run again. */
  lemma DestroyedForGood(now: nat, steps: seq<Step>, i: nat, j: nat, task: nat)
    requires i <= j <= |steps| && Run(Start(now), steps[..i]).stopping.HandlerDestroyed?
    ensures var s := Run(Start(now), steps[..j]);
            s.stopping.HandlerDestroyed? && s.timer.tasks == [] && !CanUnload(s, task)
  {
    hide Next, Run;
    StoppingLasts(now, steps, i, j);
    TimerRun(now, steps[..j]);
  }

  /** The step is a call of DelayUnloadTask, by a request or by the starting thread. */
  predicate PushesBack(s: State, step: Step) {
    (step.PushBack? && At(s, step.t, Counted)) || (step.PostFirst? && s.starting.PostingFirst?)
  }

  predicate NoneBefore(r: Timer, time: nat) {
    (forall due :: due in r.tasks ==> time <= due) && time <= r.now + DELAY_TIME
  }

  lemma NoneBeforeStep(s: State, step: Step, time: nat)
    requires NoneBefore(s.timer, time)
    ensures NoneBefore(Next(s, step).timer, time)
  {
    hide InFlight, AnswerOf;
    if step.RunUnload? && CanUnload(s, step.i) {
      assert forall due :: due in Next(s, step).timer.tasks ==> due in s.timer.tasks;
    }
  }

  lemma PushedBack(s: State, step: Step)
    requires TimerInv(s) && PushesBack(s, step)
    ensures NoneBefore(Next(s, step).timer, s.timer.now + DELAY_TIME)
  {
  }

  lemma {:induction false} NoneBeforeRun(now: nat, steps: seq<Step>, i: nat, j: nat)
    requires i < j <= |steps| && PushesBack(Run(Start(now), steps[..i]), steps[i])
    ensures NoneBefore(Run(Start(now), steps[..j]).timer, Run(Start(now), steps[..i]).timer.now + DELAY_TIME)
    decreases j
  {
    hide Next, NoneBefore, PushesBack;
    assert steps[..j][..j - 1] == steps[..j - 1];
    if j == i + 1 {
      TimerRun(now, steps[..i]);
      PushedBack(Run(Start(now), steps[..i]), steps[i]);
    } else {
      NoneBeforeRun(now, steps, i, j - 1);
      NoneBeforeStep(Run(Start(now), steps[..j - 1]), steps[j - 1], Run(Start(now), steps[..i]).timer.now + DELAY_TIME);
    }
  }

  /** In every run, an unload starts no sooner than the delay after any earlier call that pushed the timer back: so
      after the call of every request that was let in. */
  lemma NoEarlyUnload(now: nat, steps: seq<Step>, i: nat, j: nat)
    requires i < j < |steps| && PushesBack(Run(Start(now), steps[..i]), steps[i])
    requires steps[j].RunUnload? && CanUnload(Run(Start(now), steps[..j]), steps[j].i)
    ensures Run(Start(now), steps[..i]).timer.now + 180000 <= Run(Start(now), steps[..j]).timer.now
  {
    hide Next, Run, PushesBack;
    NoneBeforeRun(now, steps, i, j);
    var r := Run(Start(now), steps[..j]).timer;
    assert r.tasks[steps[j].i] in r.tasks;
  }

  /** The step posts, removes or takes an unload task. */
  predicate Disturbs(s: State, step: Step) {
    || PushesBack(s, step)
    || (step.RunUnload? && CanUnload(s, step.i))
    || (step.UnInitManagers? && step.ok && s.stopping.UnInitialising?)
    || (step.DestroyHandler? && s.stopping.FactoryCleared?)
  }

  ghost predicate Undisturbed(now: nat, steps: seq<Step>, i: nat, j: nat)
    requires i < j <= |steps|
  {
    forall k | i < k < j :: !Disturbs(Run(Start(now), steps[..k]), steps[k])
  }

  lemma TasksUntouched(s: State, step: Step)
    requires !Disturbs(s, step) && s.timer.handler
    ensures Next(s, step).timer.tasks == s.timer.tasks && Next(s, step).timer.handler
  {
    hide InFlight, AnswerOf;
  }

  lemma {:induction false} TaskStays(now: nat, steps: seq<Step>, i: nat, j: nat)
    requires i < j <= |steps| && PushesBack(Run(Start(now), steps[..i]), steps[i]) && Undisturbed(now, steps, i, j)
    requires Run(Start(now), steps[..i]).timer.handler
    ensures Run(Start(now), steps[..j]).timer.handler
    ensures Run(Start(now), steps[..j]).timer.tasks == [Run(Start(now), steps[..i]).timer.now + DELAY_TIME]
    decreases j
  {
    hide Next, Disturbs;
    assert steps[..j][..j - 1] == steps[..j - 1];
    if j == i + 1 {
      PostsOne(Run(Start(now), steps[..i]), steps[i]);
    } else {
      TaskStays(now, steps, i, j - 1);
      TasksUntouched(Run(Start(now), steps[..j - 1]), steps[j - 1]);
    }
  }

  lemma PostsOne(s: State, step: Step)
    requires PushesBack(s, step) && s.timer.handler
    ensures Next(s, step).timer.handler && Next(s, step).timer.tasks == [s.timer.now + DELAY_TIME]
  {
  }

  /** Unless a step posts, removes or takes an unload task, and a stop whose managers fail to shut down does not, the
      unload becomes possible exactly when the delay after the latest call is over. */
  lemma UnloadDueExactly(now: nat, steps: seq<Step>, i: nat, j: nat)
    requires i < j <= |steps| && PushesBack(Run(Start(now), steps[..i]), steps[i]) && Undisturbed(now, steps, i, j)
    requires Run(Start(now), steps[..i]).timer.handler
    ensures (exists task :: CanUnload(Run(Start(now), steps[..j]), task)) <==>
            Run(Start(now), steps[..i]).timer.now + 180000 <= Run(Start(now), steps[..j]).timer.now
  {
    hide Next, Run, PushesBack, Undisturbed;
    TaskStays(now, steps, i, j);
    var s := Run(Start(now), steps[..j]);
    assert CanUnload(s, 0) <==> Run(Start(now), steps[..i]).timer.now + DELAY_TIME <= s.timer.now;
  }

  // ---------------------------------------------------------------- the task a stop leaves

  ghost predicate NoPushNorUnload(now: nat, steps: seq<Step>, i: nat, j: nat)
    requires i < j <= |steps|
  {
    forall k | i < k < j :: var s := Run(Start(now), steps[..k]);
      !PushesBack(s, steps[k]) && !(steps[k].RunUnload? && CanUnload(s, steps[k].i))
  }

  lemma ShutdownDisturbs(s: State, step: Step)
    requires Disturbs(s, step) && !PushesBack(s, step) && !(step.RunUnload? && CanUnload(s, step.i))
    ensures PastManagers(Next(s, step))
  {
  }

  lemma FailedStopUndisturbed(now: nat, steps: seq<Step>, i: nat, j: nat)
    requires i < j <= |steps| && NoPushNorUnload(now, steps, i, j) && Run(Start(now), steps[..j]).stopping.UnInitFailed?
    ensures Undisturbed(now, steps, i, j)
  {
    hide Next, PushesBack, CanUnload, Disturbs;
    forall k | i < k < j ensures !Disturbs(Run(Start(now), steps[..k]), steps[k]) {
      if Disturbs(Run(Start(now), steps[..k]), steps[k]) {
        ShutdownDisturbs(Run(Start(now), steps[..k]), steps[k]);
        assert steps[..k + 1][..k] == steps[..k];
        StoppingLasts(now, steps, k + 1, j);
        assert false;
      }
    }
  }

  /** A stop that is over leaves the latest posted task waiting if and only if a manager failed to shut down. */
  lemma StopLeavesTaskExactly(now: nat, steps: seq<Step>, i: nat, j: nat)
    requires i < j <= |steps| && PushesBack(Run(Start(now), steps[..i]), steps[i]) && NoPushNorUnload(now, steps, i, j)
    requires Run(Start(now), steps[..i]).timer.handler
    requires Run(Start(now), steps[..j]).stopping.UnInitFailed?
             || Run(Start(now), steps[..j]).stopping.HandlerDestroyed?
    ensures Run(Start(now), steps[..j]).timer.tasks != [] <==> Run(Start(now), steps[..j]).stopping.UnInitFailed?
  {
    hide Next, Run, PushesBack, CanUnload, NoPushNorUnload, Undisturbed;
    if Run(Start(now), steps[..j]).stopping.UnInitFailed? {
      FailedStopUndisturbed(now, steps, i, j);
      TaskStays(now, steps, i, j);
    } else {
      TimerRun(now, steps[..j]);
    }
  }

  /** The service starts, is stopped, and a manager fails to shut down. */
  function FailedStop(): (steps: seq<Step>) {
    [CreateHandler, PostFirst, Stop, UnInitManagers(false)]
  }

  /** The failing case occurs: the service is stopped for good, and the unload task still waits. */
  lemma FailedStopLeavesTask(now: nat)
    ensures var s := Run(Start(now), FailedStop());
            s.stopped && s.stopping.UnInitFailed? && s.timer.tasks == [now + DELAY_TIME]
  {
    hide Run;
    RunUpTo(now, FailedStop(), 0);
    RunUpTo(now, FailedStop(), 1);
    RunUpTo(now, FailedStop(), 2);
    RunUpTo(now, FailedStop(), 3);
    RunUpTo(now, FailedStop(), 4);
    assert FailedStop()[..4] == FailedStop();
  }

  lemma RunUpTo(now: nat, steps: seq<Step>, n: nat)
    requires n <= |steps|
    ensures Run(Start(now), steps[..n]) ==
            if n == 0 then Start(now) else Next(Run(Start(now), steps[..n - 1]), steps[n - 1])
  {
    if n > 0 {
      assert steps[..n][..n - 1] == steps[..n - 1];
    }
  }

  // ---------------------------------------------------------------- single threads, undisturbed

  lemma {:induction false} RunCons(s: State, step: Step, rest: seq<Step>)
    ensures Run(s, [step] + rest) == Run(Next(s, step), rest)
    decreases |rest|
  {
    hide Next;
    if rest == [] {
      assert [step] + rest == [step] && [step][..0] == [] && Run(s, []) == s;
    } else {
      assert ([step] + rest)[..|rest|] == [step] + rest[..|rest| - 1];
      RunCons(s, step, rest[..|rest| - 1]);
    }
  }

  lemma RunNothing(s: State)
    ensures Run(s, []) == s
  {
  }

  lemma RunTwo(s: State, a: Step, b: Step)
    ensures Run(s, [a, b]) == Next(Next(s, a), b)
  {
    hide Next, Run;
    RunCons(s, a, [b]);
    RunCons(Next(s, a), b, []);
    RunNothing(Next(Next(s, a), b));
    assert [a] + [b] == [a, b] && [b] + [] == [b];
  }

  function Admission(t: nat, cancelled: bool): seq<Step> {
    [Arrive(t), ReadStopped(t)] + [ExitIdle(t, cancelled), AddCount(t)]
  }

  lemma {:induction false} RunAppend(s: State, a: seq<Step>, b: seq<Step>)
    ensures Run(s, a + b) == Run(Run(s, a), b)
    decreases |b|
  {
    hide Next;
    if b == [] {
      assert a + b == a;
    } else {
      assert (a + b)[..|a + b| - 1] == a + b[..|b| - 1];
      RunAppend(s, a, b[..|b| - 1]);
    }
  }

  /** A request alone is counted when the service is not stopped and leaves the idle state; otherwise it is answered
      with the reason and never counted. */
  lemma RequestAdmitted(s: State, t: nat, cancelled: bool)
    requires t !in s.requests
    ensures Run(s, Admission(t, cancelled)) ==
            if s.stopped then s.(requests := s.requests[t := Answered(98566331)])
            else if !cancelled then s.(requests := s.requests[t := Answered(98566330)])
            else s.(requests := s.requests[t := Counted], count := s.count + 1)
  {
    hide Run;
    RunAppend(s, [Arrive(t), ReadStopped(t)], [ExitIdle(t, cancelled), AddCount(t)]);
    RunTwo(s, Arrive(t), ReadStopped(t));
    var s1 := Next(s, Arrive(t));
    assert s1 == s.(requests := s.requests[t := Arrived]);
    var s2 := Next(s1, ReadStopped(t));
    assert s2 == s.(requests := s.requests[t := if s.stopped then Answered(98566331) else NotStopped]);
    RunTwo(s2, ExitIdle(t, cancelled), AddCount(t));
    if !s.stopped {
      var s3 := Next(s2, ExitIdle(t, cancelled));
      assert s3 == s.(requests := s.requests[t := if cancelled then Admitted else Answered(98566330)]);
    }
  }

  function Service(t: nat, tokenValid: bool, beforeInit: bool, inited: bool, answer: Int32): seq<Step> {
    [PushBack(t), Serve(t, tokenValid, beforeInit, inited, answer)] + [SubtractCount(t)]
  }

  lemma PushedOn(s: State, t: nat)
    requires At(s, t, Counted)
    ensures Next(s, PushBack(t)) == s.(requests := s.requests[t := Serving], timer := DelayUnloadTask(s.timer))
  {
    hide InFlight, AnswerOf, CanUnload, DelayUnloadTask;
  }

  lemma ServedOn(s: State, t: nat, tokenValid: bool, beforeInit: bool, inited: bool, answer: Int32)
    requires At(s, t, Serving)
    ensures Next(s, Serve(t, tokenValid, beforeInit, inited, answer))
         == s.(requests := s.requests[t := Uncounting(AnswerOf(tokenValid, beforeInit, inited, answer))])
  {
    hide InFlight, AnswerOf, CanUnload, DelayUnloadTask;
  }

  lemma Subtracted(s: State, t: nat, code: Int32)
    requires At(s, t, Uncounting(code))
    ensures Next(s, SubtractCount(t)) == s.(requests := s.requests[t := Answered(code)], count := s.count - 1)
  {
    hide InFlight, AnswerOf, CanUnload, DelayUnloadTask;
  }

  /** A counted request alone pushes the unload timer back, is answered with the refusal of a bad token, the handler's
      answer, or the refusal of a service that is not ready, and is no longer counted. */
  lemma RequestServed(s: State, t: nat, tokenValid: bool, beforeInit: bool, inited: bool, answer: Int32)
    requires At(s, t, Counted)
    ensures var s' := Run(s, Service(t, tokenValid, beforeInit, inited, answer));
            && s' == s.(requests := s'.requests, count := s.count - 1, timer := s'.timer)
            && s'.requests == s.requests[t := Answered(
                 if !tokenValid then 98566145 else if beforeInit || inited then answer else 98566160)]
            && s'.timer == if s.timer.handler
                           then s.timer.(tasks := [s.timer.now + 180000], latest := s.timer.now) else s.timer
  {
    var a, b, c := PushBack(t), Serve(t, tokenValid, beforeInit, inited, answer), SubtractCount(t);
    var code := AnswerOf(tokenValid, beforeInit, inited, answer);
    assert s.timer.handler ==>
             DelayUnloadTask(s.timer) == s.timer.(tasks := [s.timer.now + DELAY_TIME], latest := s.timer.now);
    hide Run, Next, DelayUnloadTask;
    RunAppend(s, [a, b], [c]);
    RunTwo(s, a, b);
    PushedOn(s, t);
    var s1 := s.(requests := s.requests[t := Serving], timer := DelayUnloadTask(s.timer));
    ServedOn(s1, t, tokenValid, beforeInit, inited, answer);
    var s2 := s1.(requests := s1.requests[t := Uncounting(code)]);
    RunCons(s2, c, []);
    RunNothing(Next(s2, c));
    assert [c] + [] == [c];
    Subtracted(s2, t, code);
    assert s2.requests[t := Answered(code)] == s.requests[t := Answered(code)];
    DelayKeeps(s.timer);
  }

  lemma DelayKeeps(r: Timer)
    ensures !r.handler ==> DelayUnloadTask(r) == r
  {
  }

  /** At some step of the run the request read the stop flag unset. */
  ghost predicate ReadUnset(now: nat, steps: seq<Step>, t: nat) {
    exists i: nat :: i < |steps| && steps[i] == ReadStopped(t) && At(Run(Start(now), steps[..i]), t, Arrived)
                     && !Run(Start(now), steps[..i]).stopped
  }

  ghost predicate LeftIdle(now: nat, steps: seq<Step>, t: nat) {
    exists i: nat :: i < |steps| && steps[i] == ExitIdle(t, true) && At(Run(Start(now), steps[..i]), t, NotStopped)
  }

  lemma HistoryExtends(now: nat, steps: seq<Step>, t: nat)
    requires steps != []
    ensures ReadUnset(now, steps[..|steps| - 1], t) ==> ReadUnset(now, steps, t)
    ensures LeftIdle(now, steps[..|steps| - 1], t) ==> LeftIdle(now, steps, t)
  {
    hide Run;
    var before := steps[..|steps| - 1];
    assert forall i: nat | i < |before| :: before[..i] == steps[..i] && before[i] == steps[i];
  }

  /** However requests interleave, one is counted, or was answered by anything but a refusal at the door, only if it
      read the stop flag unset and left the idle state. */
  lemma {:induction false} CountedWasAdmitted(now: nat, steps: seq<Step>, t: nat)
    requires t in Run(Start(now), steps).requests
    ensures var r := Run(Start(now), steps).requests[t];
            && (!(r.Arrived? || r == Answered(98566331)) ==> ReadUnset(now, steps, t))
            && (!(r.Arrived? || r.NotStopped? || r == Answered(98566331) || r == Answered(98566330)) ==>
                  LeftIdle(now, steps, t))
    decreases |steps|
  {
    if steps != [] {
      hide Next, ReadUnset, LeftIdle;
      var n := |steps| - 1;
      var s := Run(Start(now), steps[..n]);
      HistoryExtends(now, steps, t);
      if t in s.requests {
        CountedWasAdmitted(now, steps[..n], t);
      }
      OneMove(s, steps[n], t);
      assert steps[n] == ReadStopped(t) && At(s, t, Arrived) && !s.stopped ==> ReadUnset(now, steps, t) by {
        NowReads(now, steps, t);
      }
      assert steps[n] == ExitIdle(t, true) && At(s, t, NotStopped) ==> LeftIdle(now, steps, t) by {
        NowReads(now, steps, t);
      }
    }
  }

  lemma NowReads(now: nat, steps: seq<Step>, t: nat)
    requires steps != []
    ensures var s, step := Run(Start(now), steps[..|steps| - 1]), steps[|steps| - 1];
            && (step == ReadStopped(t) && At(s, t, Arrived) && !s.stopped ==> ReadUnset(now, steps, t))
            && (step == ExitIdle(t, true) && At(s, t, NotStopped) ==> LeftIdle(now, steps, t))
  {
    hide Run;
  }

  /** How one step can move one request. */
  lemma OneMove(s: State, step: Step, t: nat)
    ensures var s' := Next(s, step);
            && (t in s'.requests && t !in s.requests ==> s'.requests[t] == Arrived)
            && (t in s.requests ==> t in s'.requests)
            && (t in s.requests && s'.requests[t] != s.requests[t] ==>
                  match s.requests[t]
                  case Arrived => step == ReadStopped(t) && (if s.stopped then s'.requests[t] == Answered(98566331)
                                                             else s'.requests[t] == NotStopped)
                  case NotStopped => step == ExitIdle(t, true) || s'.requests[t] == Answered(98566330)
                  case Answered(_) => false
                  case _ => true)
  {
    hide InFlight, DelayUnloadTask, CanUnload, Removed, AnswerOf;
  }

  lemma QueryLoads(s: State, q: nat)
    requires q !in s.queries
    ensures Next(s, LoadCount(q)) == s.(queries := s.queries[q := Loaded(s.count, |InFlight(s.requests)|)])
  {
    hide InFlight, DelayUnloadTask, CanUnload, Removed, AnswerOf;
  }

  lemma QueryDecides(s: State, q: nat, online: bool)
    requires q in s.queries && s.queries[q].Loaded?
    ensures Next(s, DecideIdle(q, online))
         == s.(queries := s.queries[q := Decided(s.queries[q].count <= 0 && !online, online, s.queries[q].inFlight)])
  {
    hide InFlight, DelayUnloadTask, CanUnload, Removed, AnswerOf;
  }

  /** A query for lack of memory alone is answered "ready" exactly when nothing is counted and no device is online. */
  lemma QueryAnswered(s: State, q: nat, online: bool)
    requires q !in s.queries
    ensures Run(s, [LoadCount(q), DecideIdle(q, online)])
         == s.(queries := s.queries[q := Decided(s.count <= 0 && !online, online, |InFlight(s.requests)|)])
  {
    hide Run, Next, InFlight;
    RunTwo(s, LoadCount(q), DecideIdle(q, online));
    QueryLoads(s, q);
    var loaded := Loaded(s.count, |InFlight(s.requests)|);
    var decided := Decided(s.count <= 0 && !online, online, |InFlight(s.requests)|);
    QueryDecides(s.(queries := s.queries[q := loaded]), q, online);
    assert s.queries[q := loaded][q := decided] == s.queries[q := decided];
  }

  /** When the time of a waiting task has come it can be run, and then no longer waits. */
  lemma UnloadRuns(s: State, due: nat)
    requires s.timer.handler && s.timer.tasks == [due] && s.timer.now <= due
    ensures CanUnload(Next(s, TimePasses(due - s.timer.now)), 0)
    ensures Run(s, [TimePasses(due - s.timer.now), RunUnload(0)]) == s.(timer := s.timer.(now := due, tasks := []))
  {
    hide Run, Next, CanUnload;
    RunTwo(s, TimePasses(due - s.timer.now), RunUnload(0));
    TimePassed(s, due - s.timer.now);
    TaskTaken(s.(timer := s.timer.(now := due)), due);
  }

  lemma TimePassed(s: State, ms: nat)
    ensures Next(s, TimePasses(ms)) == s.(timer := s.timer.(now := s.timer.now + ms))
  {
    hide InFlight, AnswerOf, CanUnload, DelayUnloadTask;
  }

  lemma TaskTaken(s: State, due: nat)
    requires s.timer.handler && s.timer.tasks == [due] && due <= s.timer.now
    ensures CanUnload(s, 0) && Next(s, RunUnload(0)) == s.(timer := s.timer.(tasks := []))
  {
    hide InFlight, AnswerOf, DelayUnloadTask;
    TakeOnly(s.timer.tasks, 0);
  }

  /** A stop whose managers all shut down removes the waiting task at once, and then destroys the handler. */
  lemma CleanStop(s: State)
    requires s.stopping.NotStopping? && s.timer.handler
    ensures var cleared := Run(s, [Stop, UnInitManagers(true)]);
            cleared.stopped && cleared.timer == s.timer.(tasks := [], factory := false) && PastManagers(cleared)
    ensures var s' := Run(s, [Stop, UnInitManagers(true)] + [DestroyHandler]);
            && s'.stopped && s'.stopping.HandlerDestroyed? && s'.timer.tasks == [] && !s'.timer.handler
            && s'.requests == s.requests && s'.count == s.count
  {
    hide Run;
    RunAppend(s, [Stop, UnInitManagers(true)], [DestroyHandler]);
    RunTwo(s, Stop, UnInitManagers(true));
    var s1 := Next(s, Stop);
    assert s1 == s.(stopped := true, stopping := UnInitialising);
    var s2 := Next(s1, UnInitManagers(true));
    assert s2 == s1.(stopping := FactoryCleared, timer := s.timer.(tasks := [], factory := false));
    RunCons(s2, DestroyHandler, []);
    RunNothing(Next(s2, DestroyHandler));
    assert [DestroyHandler] + [] == [DestroyHandler];
  }
}
