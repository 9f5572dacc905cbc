/** The registry of callers that want to hear when the service is ready. Subscribing threads read the ready flag before
    they take the registry's lock; the initialising thread publishes the flag first and walks the registry later. */
module InitCallbacks {
  import opened Text

  const DP_PERMISSION_DENIED: Int32 := 98566155
  const DP_NULLPTR: Int32 := 98566273
  const MAX_SAID: int := 16777215
  const MAX_CALLBACK_LEN: nat := 1000

  /** A remote object; only some can be cast to the callback interface. */
  datatype Callback = Callback(remote: nat, castable: bool)

  /** A thread inside the subscribe call. */
  datatype Subscriber =
    | Asking(saId: int, callback: Callback)                     // arguments accepted, flag not yet read
    | Telling(saId: int, callback: Callback)                    // found the service ready, calls back itself
    | Joining(saId: int, callback: Callback, sawReady: bool)    // about to take the lock
    | Answered(code: Int32)

  /** A registered callback. The last three fields are history: who registered it, whether that thread had found the
      service ready, and whether the walk had not begun yet. */
  datatype Entry = Entry(callback: Callback, caller: nat, sawReady: bool, early: bool)

  /** The initialising thread; it holds the registry's lock while walking. */
  datatype Walk = Initialising | Published | Walking(left: set<int>) | Finished

  /** `told` is history: how often the callback of each subscribe call was called. */
  datatype State = State(inited: bool, walk: Walk, threads: map<nat, Subscriber>, registered: map<int, Entry>,
                         told: multiset<nat>)

  function Start(): State {
    State(false, Initialising, map[], map[], multiset{})
  }

  datatype Step =
    | Subscribe(t: nat, permitted: bool, saId: int, callback: Option<Callback>)
    | ReadReady(t: nat)
    | Tell(t: nat)
    | Register(t: nat)
    | Unsubscribe(permitted: bool, saId: int)
    | Publish
    | TakeLock
    | WalkOne(saId: int)
    | ReleaseLock

  function CheckArguments(permitted: bool, saId: int, callback: Option<Callback>): Subscriber {
    if !permitted then Answered(DP_PERMISSION_DENIED)
    else if callback.None? || saId <= 0 || saId > MAX_SAID then Answered(DP_INVALID_PARAM)
    else Asking(saId, callback.value)
  }

  function AfterReadReady(a: Subscriber, inited: bool): Subscriber
    requires a.Asking?
  {
    if !inited then Joining(a.saId, a.callback, false)
    else if !a.callback.castable then Answered(DP_NULLPTR)
    else Telling(a.saId, a.callback)
  }

  /** The critical section of a subscribe call. */
  function AfterRegister(s: State, t: nat, j: Subscriber): State
    requires j.Joining?
  {
    if |s.registered| > MAX_CALLBACK_LEN then s.(threads := s.threads[t := Answered(DP_INVALID_PARAM)])
    else s.(threads := s.threads[t := Answered(DP_SUCCESS)],
            registered := s.registered[j.saId :=
              Entry(j.callback, t, j.sawReady, s.walk.Initialising? || s.walk.Published?)])
  }

  predicate NextInOrder(left: set<int>, saId: int) {
    saId in left && forall other :: other in left ==> saId <= other
  }

  function Next(s: State, step: Step): State {
    match step
    case Subscribe(t, permitted, saId, callback) =>
      if t in s.threads then s else s.(threads := s.threads[t := CheckArguments(permitted, saId, callback)])
    case ReadReady(t) =>
      if t in s.threads && s.threads[t].Asking?
      then s.(threads := s.threads[t := AfterReadReady(s.threads[t], s.inited)]) else s
    case Tell(t) =>
      if t in s.threads && s.threads[t].Telling?
      then s.(threads := s.threads[t := Joining(s.threads[t].saId, s.threads[t].callback, true)],
              told := s.told + multiset{t})
      else s
    case Register(t) =>
      if t in s.threads && s.threads[t].Joining? && !s.walk.Walking? then AfterRegister(s, t, s.threads[t]) else s
    case Unsubscribe(permitted, saId) =>
      if permitted && !s.walk.Walking? then s.(registered := s.registered - {saId}) else s
    case Publish => if s.walk.Initialising? then s.(inited := true, walk := Published) else s
    case TakeLock => if s.walk.Published? then s.(walk := Walking(s.registered.Keys)) else s
    case WalkOne(saId) =>
      if s.walk.Walking? && NextInOrder(s.walk.left, saId) && saId in s.registered
      then s.(walk := Walking(s.walk.left - {saId}),
              told := if s.registered[saId].callback.castable
                      then s.told + multiset{s.registered[saId].caller} else s.told)
      else s
    case ReleaseLock => if s.walk.Walking? && s.walk.left == {} then s.(walk := Finished) else s
  }

  function Run(s: State, steps: seq<Step>): State
    decreases |steps|
  {
    if steps == [] then s else Next(Run(s, steps[..|steps| - 1]), steps[|steps| - 1])
  }

  // ---------------------------------------------------------------- the invariant

  predicate Walked(walk: Walk, saId: int) {
    walk.Finished? || (walk.Walking? && saId !in walk.left)
  }

  /** How often a registered callback has been called so far. */
  function Calls(e: Entry, walked: bool): nat {
    (if e.sawReady then 1 else 0) + (if e.early && e.callback.castable && walked then 1 else 0)
  }

  ghost predicate EntryInv(s: State, saId: int)
    requires saId in s.registered
  {
    var e := s.registered[saId];
    && e.caller in s.threads && s.threads[e.caller].Answered?
    && s.told[e.caller] == Calls(e, Walked(s.walk, saId))
    && (e.sawReady ==> e.callback.castable)
    && (s.walk.Initialising? || s.walk.Published? || s.walk.Walking? ==> e.early)
    && 0 < saId <= MAX_SAID
  }

  predicate ThreadInv(told: multiset<nat>, t: nat, a: Subscriber) {
    match a
    case Asking(saId, _) => 0 < saId <= MAX_SAID && told[t] == 0
    case Telling(saId, callback) => 0 < saId <= MAX_SAID && told[t] == 0 && callback.castable
    case Joining(saId, callback, sawReady) =>
      && 0 < saId <= MAX_SAID
      && told[t] == (if sawReady then 1 else 0) && (sawReady ==> callback.castable)
    case Answered(_) => true
  }

  ghost predicate Inv(s: State) {
    && (s.inited <==> !s.walk.Initialising?)
    && (s.walk.Walking? ==> s.walk.left <= s.registered.Keys)
    && |s.registered| <= MAX_CALLBACK_LEN + 1
    && (forall t :: t !in s.threads ==> s.told[t] == 0)
    && (forall t :: t in s.threads ==> ThreadInv(s.told, t, s.threads[t]))
    && (forall k :: k in s.registered ==> EntryInv(s, k))
    && (forall k, l ::
          k in s.registered && l in s.registered && s.registered[k].caller == s.registered[l].caller ==> k == l)
  }

  lemma InsertBound<V>(m: map<int, V>, k: int, v: V)
    ensures |m[k := v]| <= |m| + 1
  {
    assert m[k := v].Keys == m.Keys + {k};
  }

  lemma RemoveBound<V>(m: map<int, V>, k: int)
    ensures |m - {k}| <= |m|
  {
    assert (m - {k}).Keys == m.Keys - {k};
  }

  lemma RegisterKept(s: State, t: nat)
    requires Inv(s) && t in s.threads && s.threads[t].Joining? && !s.walk.Walking?
    ensures Inv(AfterRegister(s, t, s.threads[t]))
  {
    var s' := AfterRegister(s, t, s.threads[t]);
    if |s.registered| <= MAX_CALLBACK_LEN {
      InsertBound(s.registered, s.threads[t].saId, s'.registered[s.threads[t].saId]);
    }
    forall k | k in s'.registered
      ensures EntryInv(s', k)
    {
      if s'.registered[k].caller != t {
        assert EntryInv(s, k);
      }
    }
  }

  lemma WalkKept(s: State, saId: int)
    requires Inv(s)
    ensures Inv(Next(s, WalkOne(saId)))
  {
    var s' := Next(s, WalkOne(saId));
    forall k | k in s'.registered
      ensures EntryInv(s', k)
    {
      assert EntryInv(s, k);
    }
    forall t | t in s'.threads
      ensures ThreadInv(s'.told, t, s'.threads[t])
    {
      assert ThreadInv(s.told, t, s.threads[t]);
      if saId in s.registered {
        assert EntryInv(s, saId);
      }
    }
  }

  lemma TellKept(s: State, t: nat)
    requires Inv(s)
    ensures Inv(Next(s, Tell(t)))
  {
    var s' := Next(s, Tell(t));
    forall k | k in s'.registered
      ensures EntryInv(s', k)
    {
      assert EntryInv(s, k);
    }
  }

  lemma UnsubscribeKept(s: State, permitted: bool, saId: int)
    requires Inv(s)
    ensures Inv(Next(s, Unsubscribe(permitted, saId)))
  {
    var s' := Next(s, Unsubscribe(permitted, saId));
    RemoveBound(s.registered, saId);
    forall k | k in s'.registered
      ensures EntryInv(s', k)
    {
      assert EntryInv(s, k);
    }
  }

  lemma ThreadStepKept(s: State, step: Step)
    requires Inv(s) && (step.Subscribe? || step.ReadReady?)
    ensures Inv(Next(s, step))
  {
    hide NextInOrder;
    var s' := Next(s, step);
    forall k | k in s'.registered
      ensures EntryInv(s', k)
    {
      assert EntryInv(s, k);
    }
  }

  lemma InitStepKept(s: State, step: Step)
    requires Inv(s) && (step.Publish? || step.TakeLock? || step.ReleaseLock?)
    ensures Inv(Next(s, step))
  {
    hide NextInOrder, ThreadInv;
    var s' := Next(s, step);
    forall k | k in s'.registered
      ensures EntryInv(s', k)
    {
      assert EntryInv(s, k);
    }
  }

  lemma StepKept(s: State, step: Step)
    requires Inv(s)
    ensures Inv(Next(s, step))
  {
    hide Inv, AfterRegister;
    match step
    case WalkOne(saId) => WalkKept(s, saId);
    case Tell(t) => TellKept(s, t);
    case Unsubscribe(permitted, saId) => UnsubscribeKept(s, permitted, saId);
    case Register(t) =>
      if t in s.threads && s.threads[t].Joining? && !s.walk.Walking? {
        RegisterKept(s, t);
      }
    case Subscribe(_, _, _, _) => ThreadStepKept(s, step);
    case ReadReady(_) => ThreadStepKept(s, step);
    case _ => InitStepKept(s, step);
  }

  lemma {:induction false} Reachable(steps: seq<Step>)
    ensures Inv(Run(Start(), steps))
    decreases |steps|
  {
    if steps != [] {
      hide Inv, Next;
      Reachable(steps[..|steps| - 1]);
      StepKept(Run(Start(), steps[..|steps| - 1]), steps[|steps| - 1]);
    }
  }

  // ---------------------------------------------------------------- main results

  /** However the calls interleave, once the walk is over a registered callback has been called exactly once for
      finding the service ready and exactly once more for being castable and registered before the walk began. So it
      was missed exactly when it did not find the service ready and either came after the walk had begun or cannot be
      cast. */
  lemma NotifiedExactly(steps: seq<Step>, saId: int)
    requires var s := Run(Start(), steps); s.walk.Finished? && saId in s.registered
    ensures var s := Run(Start(), steps);
            var e := s.registered[saId];
            && s.told[e.caller] == (if e.sawReady then 1 else 0) + (if e.early && e.callback.castable then 1 else 0)
            && (s.told[e.caller] == 0 <==> !e.sawReady && !(e.early && e.callback.castable))
  {
    hide Next, Run;
    Reachable(steps);
    assert EntryInv(Run(Start(), steps), saId);
  }

  /** The registry never holds more than one entry beyond its limit, and only under valid ability ids. */
  lemma {:induction false} RegistryBound(steps: seq<Step>)
    ensures var registered := Run(Start(), steps).registered;
            |registered| <= MAX_CALLBACK_LEN + 1 && forall saId :: saId in registered ==> 0 < saId <= MAX_SAID
  {
    hide Next, Run;
    Reachable(steps);
    assert forall saId :: saId in Run(Start(), steps).registered ==> EntryInv(Run(Start(), steps), saId);
  }

  predicate Silent(s: State) {
    !s.inited ==>
      && s.told == multiset{}
      && forall t :: t in s.threads ==> !s.threads[t].Telling? && (s.threads[t].Joining? ==> !s.threads[t].sawReady)
  }

  lemma SilentStep(s: State, step: Step)
    requires Inv(s) && Silent(s)
    ensures Silent(Next(s, step))
  {
  }

  /** No callback is called before the service is ready. */
  lemma {:induction false} SilentBeforeReady(steps: seq<Step>)
    ensures Silent(Run(Start(), steps))
    decreases |steps|
  {
    if steps != [] {
      hide Inv, Next, Silent;
      SilentBeforeReady(steps[..|steps| - 1]);
      Reachable(steps[..|steps| - 1]);
      SilentStep(Run(Start(), steps[..|steps| - 1]), steps[|steps| - 1]);
    } else {
      assert Silent(Start());
    }
  }

  function LateSubscriber(saId: int, callback: Callback): (steps: seq<Step>) {
    [Subscribe(0, true, saId, Some(callback)), ReadReady(0), Publish, TakeLock, ReleaseLock, Register(0)]
  }

  lemma LateAtLock(saId: int, callback: Callback)
    requires 0 < saId <= MAX_SAID
    ensures Run(Start(), LateSubscriber(saId, callback)[..5])
            == State(true, Finished, map[0 := Joining(saId, callback, false)], map[], multiset{})
  {
    hide Run;
    var steps, joining := LateSubscriber(saId, callback), map[0 := Joining(saId, callback, false)];
    assert Run(Start(), steps[..2]) == State(false, Initialising, joining, map[], multiset{}) by {
      RunUpTo(steps, 0);
      RunUpTo(steps, 1);
      RunUpTo(steps, 2);
    }
    assert Run(Start(), steps[..4]) == State(true, Walking({}), joining, map[], multiset{}) by {
      RunUpTo(steps, 3);
      RunUpTo(steps, 4);
      assert Run(Start(), steps[..3]).registered.Keys == {};
    }
    RunUpTo(steps, 5);
  }

  /** The gap is real: this castable callback stays registered after the walk and is never called. */
  lemma MissedCallback(saId: int, remote: nat)
    requires 0 < saId <= MAX_SAID
    ensures var callback := Callback(remote, true);
            var s := Run(Start(), LateSubscriber(saId, callback));
            s.walk.Finished? && saId in s.registered && s.registered[saId].callback == callback && s.told == multiset{}
  {
    hide Run;
    var callback := Callback(remote, true);
    var steps := LateSubscriber(saId, callback);
    LateAtLock(saId, callback);
    RunUpTo(steps, 6);
    assert steps[..6] == steps;
  }

  lemma RunUpTo(steps: seq<Step>, n: nat)
    requires n <= |steps|
    ensures Run(Start(), steps[..n]) == if n == 0 then Start() else Next(Run(Start(), steps[..n - 1]), steps[n - 1])
  {
    if n > 0 {
      assert steps[..n][..n - 1] == steps[..n - 1];
    }
  }

  /** One subscription after the other, before anything is ready, each under an ability id of its own. */
  function Crowd(n: nat): seq<Step> {
    if n == 0 then []
    else Crowd(n - 1) + [Subscribe(n, true, n, Some(Callback(n, true)))] + [ReadReady(n)] + [Register(n)]
  }

  predicate Crowded(s: State, n: nat) {
    && !s.inited && s.walk.Initialising? && |s.registered| == n
    && (forall t :: t in s.threads ==> t <= n)
    && (forall k :: k in s.registered ==> k <= n)
  }

  lemma OneMore(s: State, n: nat)
    requires 1 <= n <= MAX_CALLBACK_LEN + 1 && Crowded(s, n - 1)
    ensures Crowded(Next(Next(Next(s, Subscribe(n, true, n, Some(Callback(n, true)))), ReadReady(n)), Register(n)), n)
  {
    var s1 := Next(s, Subscribe(n, true, n, Some(Callback(n, true))));
    assert s1 == s.(threads := s.threads[n := Asking(n, Callback(n, true))]);
    var s2 := Next(s1, ReadReady(n));
    assert s2 == s.(threads := s1.threads[n := Joining(n, Callback(n, true), false)]);
    JoinOne(s2, n);
  }

  lemma JoinOne(s: State, n: nat)
    requires 1 <= n <= MAX_CALLBACK_LEN + 1 && n in s.threads && s.threads[n] == Joining(n, Callback(n, true), false)
    requires !s.inited && s.walk.Initialising? && |s.registered| == n - 1
    requires (forall t :: t in s.threads ==> t <= n) && forall k :: k in s.registered ==> k <= n - 1
    ensures Crowded(Next(s, Register(n)), n)
  {
    var s' := Next(s, Register(n));
    assert s'.registered.Keys == s.registered.Keys + {n as int};
  }

  lemma RunSnoc(steps: seq<Step>, step: Step)
    ensures Run(Start(), steps + [step]) == Next(Run(Start(), steps), step)
  {
    assert (steps + [step])[..|steps|] == steps;
  }

  /** Each of the first 1001 subscriptions is admitted. */
  lemma {:induction false} CrowdRegistered(n: nat)
    requires n <= MAX_CALLBACK_LEN + 1
    ensures Crowded(Run(Start(), Crowd(n)), n)
  {
    hide Next;
    if n > 0 {
      hide Run, Crowded;
      CrowdRegistered(n - 1);
      var asked := Crowd(n - 1) + [Subscribe(n, true, n, Some(Callback(n, true)))];
      RunSnoc(Crowd(n - 1), Subscribe(n, true, n, Some(Callback(n, true))));
      RunSnoc(asked, ReadReady(n));
      RunSnoc(asked + [ReadReady(n)], Register(n));
      OneMore(Run(Start(), Crowd(n - 1)), n);
    }
  }

  /** So the limit of 1000 is exceeded by one entry, by no more, and by this run. */
  lemma RegistryOutgrowsLimit()
    ensures |Run(Start(), Crowd(MAX_CALLBACK_LEN + 1)).registered| == MAX_CALLBACK_LEN + 1
    ensures forall steps :: |Run(Start(), steps).registered| <= MAX_CALLBACK_LEN + 1
  {
    hide Run;
    CrowdRegistered(MAX_CALLBACK_LEN + 1);
    forall steps ensures |Run(Start(), steps).registered| <= MAX_CALLBACK_LEN + 1 {
      RegistryBound(steps);
    }
  }

  // ---------------------------------------------------------------- subscribing, replacing, withdrawing

  lemma RunFour(s: State, a: Step, b: Step, c: Step, d: Step)
    ensures Run(s, [a, b, c, d]) == Next(Next(Next(Next(s, a), b), c), d)
  {
    hide Next;
    RunCons(s, a, [b, c, d]);
    RunCons(Next(s, a), b, [c, d]);
    RunCons(Next(Next(s, a), b), c, [d]);
    RunCons(Next(Next(Next(s, a), b), c), d, []);
    assert [a] + [b, c, d] == [a, b, c, d] && [b] + [c, d] == [b, c, d] && [c] + [d] == [c, d] && [d] + [] == [d];
  }

  predicate Acceptable(permitted: bool, saId: int, callback: Option<Callback>) {
    permitted && callback.Some? && 0 < saId <= 16777215
  }

  /** The answer to a subscribe call that meets nobody else. */
  function SubscribeAnswer(s: State, permitted: bool, saId: int, callback: Option<Callback>): Int32 {
    if !permitted then 98566155
    else if !Acceptable(permitted, saId, callback) then 98566245
    else if s.inited && !callback.value.castable then 98566273
    else if |s.registered| > 1000 then 98566245
    else 0
  }

  /** Outside the walk a subscribe call is answered so; an accepted one stands alone under its id, whoever stood there,
      and is called back at once if the service is ready. */
  lemma SubscribeExactly(s: State, t: nat, permitted: bool, saId: int, callback: Option<Callback>)
    requires t !in s.threads && !s.walk.Walking?
    ensures var s' := Run(s, [Subscribe(t, permitted, saId, callback), ReadReady(t), Tell(t), Register(t)]);
            var code := SubscribeAnswer(s, permitted, saId, callback);
            && s'.threads == s.threads[t := Answered(code)] && s'.inited == s.inited && s'.walk == s.walk
            && s'.registered ==
               (if code != 0 then s.registered
                else s.registered[saId :=
                       Entry(callback.value, t, s.inited, s.walk.Initialising? || s.walk.Published?)])
            && s'.told == if Acceptable(permitted, saId, callback) && s.inited && callback.value.castable
                          then s.told + multiset{t} else s.told
  {
    hide Run;
    var a := Subscribe(t, permitted, saId, callback);
    RunFour(s, a, ReadReady(t), Tell(t), Register(t));
    var s1 := Next(s, a);
    if Acceptable(permitted, saId, callback) {
      assert s1 == s.(threads := s.threads[t := Asking(saId, callback.value)]);
      AskedExactly(s1, t);
    } else {
      assert s1 == s.(threads := s.threads[t := Answered(SubscribeAnswer(s, permitted, saId, callback))]);
      assert Next(Next(Next(s1, ReadReady(t)), Tell(t)), Register(t)) == s1;
    }
  }

  lemma AskedExactly(s: State, t: nat)
    requires t in s.threads && s.threads[t].Asking? && !s.walk.Walking?
    ensures var s', a := Next(Next(Next(s, ReadReady(t)), Tell(t)), Register(t)), s.threads[t];
            var code := if s.inited && !a.callback.castable then 98566273
                        else if |s.registered| > 1000 then 98566245 else 0;
            && s'.threads == s.threads[t := Answered(code)] && s'.inited == s.inited && s'.walk == s.walk
            && s'.registered ==
               (if code != 0 then s.registered
                else s.registered[a.saId := Entry(a.callback, t, s.inited, s.walk.Initialising? || s.walk.Published?)])
            && s'.told == if s.inited && a.callback.castable then s.told + multiset{t} else s.told
  {
    var a := s.threads[t];
    var s1 := Next(s, ReadReady(t));
    if s.inited && a.callback.castable {
      assert s1 == s.(threads := s.threads[t := Telling(a.saId, a.callback)]);
      var s2 := Next(s1, Tell(t));
      assert s2 == s.(threads := s.threads[t := Joining(a.saId, a.callback, true)], told := s.told + multiset{t});
    } else if !s.inited {
      assert s1 == s.(threads := s.threads[t := Joining(a.saId, a.callback, false)]);
      assert Next(s1, Tell(t)) == s1;
    } else {
      assert s1 == s.(threads := s.threads[t := Answered(98566273)]);
      assert Next(Next(s1, Tell(t)), Register(t)) == s1;
    }
  }

  /** A permitted unsubscribe call outside the walk removes exactly the entry of its id; a refused one removes none. */
  lemma UnsubscribeExactly(s: State, permitted: bool, saId: int, k: int)
    requires !s.walk.Walking?
    ensures var s' := Next(s, Unsubscribe(permitted, saId));
            && (k in s'.registered <==> k in s.registered && !(permitted && k == saId))
            && (k in s'.registered ==> s'.registered[k] == s.registered[k])
            && s'.told == s.told && s'.threads == s.threads && s'.walk == s.walk && s'.inited == s.inited
  {
  }

  /** The subscribe call is over, and its callback is not registered. */
  ghost predicate Gone(s: State, t: nat) {
    t in s.threads && s.threads[t].Answered? && forall k :: k in s.registered ==> s.registered[k].caller != t
  }

  lemma GoneStep(s: State, step: Step, t: nat)
    requires Gone(s, t)
    ensures Gone(Next(s, step), t) && Next(s, step).told[t] == s.told[t]
  {
  }

  lemma {:induction false} GoneForGood(s: State, t: nat, more: seq<Step>)
    requires Gone(s, t)
    ensures Gone(Run(s, more), t) && Run(s, more).told[t] == s.told[t]
    decreases |more|
  {
    hide Next, Gone;
    if more != [] {
      GoneForGood(s, t, more[..|more| - 1]);
      GoneStep(Run(s, more[..|more| - 1]), more[|more| - 1], t);
    }
  }

  /** A callback withdrawn before the walk is called exactly once if it had found the service ready and never otherwise,
      whatever happens later. */
  lemma WithdrawnNotCalled(steps: seq<Step>, saId: int, more: seq<Step>)
    requires var s := Run(Start(), steps); saId in s.registered && (s.walk.Initialising? || s.walk.Published?)
    ensures var s := Run(Start(), steps);
            var e, s' := s.registered[saId], Run(Next(s, Unsubscribe(true, saId)), more);
            && s'.told[e.caller] == (if e.sawReady then 1 else 0)
            && forall k :: k in s'.registered ==> s'.registered[k].caller != e.caller
  {
    hide Run;
    Reachable(steps);
    var s := Run(Start(), steps);
    assert EntryInv(s, saId);
    var e := s.registered[saId];
    assert Gone(Next(s, Unsubscribe(true, saId)), e.caller);
    GoneForGood(Next(s, Unsubscribe(true, saId)), e.caller, more);
  }

  /** A later subscription under the same id takes the place of the first, whose callback is never called again. */
  lemma ReplacedNotCalled(steps: seq<Step>, t: nat, more: seq<Step>)
    requires var s := Run(Start(), steps);
             && t in s.threads && s.threads[t].Joining? && !s.walk.Walking? && |s.registered| <= 1000
             && s.threads[t].saId in s.registered
    ensures var s := Run(Start(), steps);
            var first, s1 := s.registered[s.threads[t].saId].caller, Next(s, Register(t));
            && s1.registered.Keys == s.registered.Keys && s1.registered[s.threads[t].saId].caller == t != first
            && Run(s1, more).told[first] == s.told[first]
  {
    hide Run;
    Reachable(steps);
    var s := Run(Start(), steps);
    var saId := s.threads[t].saId;
    assert EntryInv(s, saId);
    var first := s.registered[saId].caller;
    assert s.threads[first].Answered?;
    assert Gone(Next(s, Register(t)), first);
    GoneForGood(Next(s, Register(t)), first, more);
  }

  // ---------------------------------------------------------------- the walk ends

  lemma {:induction false} LeastId(left: set<int>) returns (m: int)
    requires left != {}
    ensures NextInOrder(left, m)
    decreases left
  {
    assert exists x: int :: x in left by {
      if forall x: int :: x !in left {
        assert false;
      }
    }
    var x: int :| x in left;
    var rest := left - {x};
    if rest == {} {
      assert left == {x};
      m := x;
    } else {
      var l := LeastId(rest);
      assert forall other :: other in left ==> other == x || other in rest;
      m := if l < x then l else x;
    }
  }

  /** From every reachable state of the walk some run ends it, calling no thread and changing no entry. */
  lemma {:induction false} WalkCanFinish(s: State) returns (steps: seq<Step>)
    requires Inv(s) && s.walk.Walking?
    ensures var s' := Run(s, steps); s'.walk.Finished? && s'.registered == s.registered && s'.threads == s.threads
    decreases s.walk.left
  {
    if s.walk.left == {} {
      steps := [ReleaseLock];
      assert [ReleaseLock][..0] == [] && Run(s, []) == s;
    } else {
      var m := LeastId(s.walk.left);
      WalkKept(s, m);
      var rest := WalkCanFinish(Next(s, WalkOne(m)));
      steps := [WalkOne(m)] + rest;
      RunCons(s, WalkOne(m), rest);
    }
  }

  lemma {:induction false} RunCons(s: State, step: Step, rest: seq<Step>)
    ensures Run(s, [step] + rest) == Run(Next(s, step), rest)
    decreases |rest|
  {
    hide Next;
    if rest == [] {
      assert [step] + rest == [step] && [step][..0] == [] && Run(s, []) == s;
    } else {
      assert ([step] + rest)[..|rest|] == [step] + rest[..|rest| - 1];
      RunCons(s, step, rest[..|rest| - 1]);
    }
  }
}
