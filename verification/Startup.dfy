/** Start-up as a protocol: any number of callers put profiles while dependency events drive
    initialisation, and the waiting puts change hands under one lock. Each step is one atomic
    action of one thread; a run is any sequence of steps. */
module Startup {
  import opened Text
  import opened DbKeys
  import opened Entries
  import opened TempCache

  /** The abilities the service waits for, and all others. */
  datatype Ability = SoftBus | KvData | DeviceManager | Account | MemoryManager | Unrelated(id: int)

  const DEPENDENCIES: set<Ability> := {SoftBus, KvData, DeviceManager, Account, MemoryManager}

  /** A thread inside one of the put calls. */
  datatype Caller =
    | Wanting(items: seq<Item>)                    // permission granted, the put lock not yet taken
    | Holding(items: seq<Item>)                    // lock taken, readiness not yet read
    | Inserting(items: seq<Item>, dynLeft: seq<(string, string)>, swLeft: seq<(string, CharacteristicProfile)>)
    | Leaving(items: seq<Item>, code: Int32)       // answer decided from the cache path, lock still held
    | Direct(items: seq<Item>)                     // found the service ready, lock released, calls a manager
    | Cached(items: seq<Item>, code: Int32)        // answered from the cache path
    | Forwarded(items: seq<Item>, code: Int32)     // answered by a manager

  /** A thread delivering one "ability added" event. */
  datatype Event = Arrived(sa: Ability) | NotReady(sa: Ability) | Ignored | Initialising

  /** The thread that runs the initialisation. */
  datatype Init =
    | NotStarted
    | Preparing                                    // everything before the put lock
    | Failed
    | DrainSwitches                                // from here to Unlocking the put lock is held
    | Snapshot
    | Waiting                                      // first start with nothing to hand over
    | Saving(entries: Store, left: nat)
    | Clearing
    | Publishing
    | Unlocking
    | Ready

  datatype LockOwner = Put(caller: nat) | Initialiser

  /** The awaited abilities and the threads reporting them. `seen` and `postInits` are history. */
  datatype Gate = Gate(deps: set<Ability>, events: map<nat, Event>, seen: set<Ability>, postInits: nat)

  /** The two maps, and the history of what was accepted, handed over, laid over it by the manager, and stored; no step
      reads the history. */
  datatype Cache = Cache(dyn: Store, sw: Switches, log: seq<seq<Item>>, handed: Option<Store>,
                         handedSwitches: Option<Switches>, laid: Store, stored: Option<Store>, failures: nat)

  datatype State = State(localUdid: string, gate: Gate, inited: bool, lock: Option<LockOwner>,
                         callers: map<nat, Caller>, init: Init, cache: Cache)

  function Start(localUdid: string): State {
    State(localUdid, Gate(DEPENDENCIES, map[], {}, 0), false, None, map[], NotStarted,
        Cache(map[], map[], [], None, None, map[], None, 0))
  }

  datatype Step =
    | CallPut(t: nat, items: seq<Item>)
    | TakeLock(t: nat)
    | ReadReady(t: nat, existing: seq<bool>)
    | InsertOne(t: nat)
    | Release(t: nat)
    | CallManager(t: nat, answer: Int32)
    | EventArrives(e: nat, sa: Ability)
    | EventReadsReady(e: nat)
    | EventErases(e: nat)
    | InitPrepares(ok: bool)
    | InitStep(isFirst: bool, saved: bool, held: Store)    // `held`: what the manager kept back of puts made through it

  ghost function Next(s: State, step: Step): State {
    match step
    case CallPut(t, items) =>
      if t in s.callers then s else s.(callers := s.callers[t := Wanting(items)])
    case TakeLock(t) =>
      if t in s.callers && s.callers[t].Wanting? && s.lock.None?
      then s.(lock := Some(Put(t)), callers := s.callers[t := Holding(s.callers[t].items)]) else s
    case ReadReady(t, existing) =>
      if t in s.callers && s.callers[t].Holding? && |existing| == |s.callers[t].items|
      then AfterReadReady(s, t, s.callers[t].items, existing) else s
    case InsertOne(t) =>
      if t in s.callers && s.callers[t].Inserting? then AfterInsert(s, t, s.callers[t]) else s
    case Release(t) =>
      if t in s.callers && s.callers[t].Leaving?
      then s.(lock := None, callers := s.callers[t := Cached(s.callers[t].items, s.callers[t].code)]) else s
    case CallManager(t, answer) =>
      if t in s.callers && s.callers[t].Direct?
      then s.(callers := s.callers[t := Forwarded(s.callers[t].items, answer)]) else s
    case EventArrives(e, sa) =>
      if e in s.gate.events then s
      else s.(gate := s.gate.(events := s.gate.events[e := Arrived(sa)], seen := s.gate.seen + {sa}))
    case EventReadsReady(e) =>
      if e in s.gate.events && s.gate.events[e].Arrived?
      then s.(gate := s.gate.(events :=
                s.gate.events[e := if s.inited then Ignored else NotReady(s.gate.events[e].sa)])) else s
    case EventErases(e) =>
      if e in s.gate.events && s.gate.events[e].NotReady?
      then s.(gate := GateAfterErase(s.gate, e, s.gate.events[e].sa),
              init := if StartsInit(s.gate, s.gate.events[e].sa) then Preparing else s.init) else s
    case InitPrepares(ok) =>
      if !s.init.Preparing? then s
      else if !ok then s.(init := Failed)
      else if s.lock.None? then s.(lock := Some(Initialiser), init := DrainSwitches)
      else s
    case InitStep(isFirst, saved, held) =>
      if !InitHolds(s.init) then s
      else s.(init := InitAfter(s.init, s.cache.dyn, isFirst, saved, held),
          cache := CacheAfter(s.init, s.cache, saved, held),
              inited := s.inited || s.init.Publishing?, lock := if s.init.Unlocking? then None else s.lock)
  }

  /** With the lock held: a ready service releases it and goes direct; otherwise the batch is judged, and an
      accepted one is inserted entry by entry. */
  ghost function AfterReadReady(s: State, t: nat, items: seq<Item>, existing: seq<bool>): State
    requires |existing| == |items|
  {
    if s.inited then s.(lock := None, callers := s.callers[t := Direct(items)])
    else
      var code := Verdict(items, existing, s.localUdid);
      if code != DP_SUCCESS then s.(callers := s.callers[t := Leaving(items, code)])
      else s.(callers := s.callers[t := Inserting(items, Listing(BatchEntries(items, map[])), SwitchPairs(items))],
              cache := s.cache.(log := s.cache.log + [items]))
  }

  ghost function AfterInsert(s: State, t: nat, c: Caller): State
    requires c.Inserting?
  {
    if c.dynLeft != [] then
      s.(cache := s.cache.(dyn := s.cache.dyn[c.dynLeft[0].0 := c.dynLeft[0].1]),
         callers := s.callers[t := c.(dynLeft := c.dynLeft[1..])])
    else if c.swLeft != [] then
      s.(cache := s.cache.(sw := s.cache.sw[c.swLeft[0].0 := c.swLeft[0].1]),
         callers := s.callers[t := c.(swLeft := c.swLeft[1..])])
    else s.(callers := s.callers[t := Leaving(c.items, DP_SUCCESS)])
  }

  /** The event that empties the set of awaited abilities runs the initialisation. */
  predicate StartsInit(g: Gate, sa: Ability) {
    g.deps != {} && g.deps - {sa} == {}
  }

  /** The event's critical section. */
  function GateAfterErase(g: Gate, e: nat, sa: Ability): Gate {
    if g.deps == {} then g.(events := g.events[e := Ignored])
    else if StartsInit(g, sa)
    then g.(deps := {}, events := g.events[e := Initialising], postInits := g.postInits + 1)
    else g.(deps := g.deps - {sa}, events := g.events[e := Ignored])
  }

  function InitAfter(i: Init, dyn: Store, isFirst: bool, saved: bool, held: Store): Init {
    match i
    case DrainSwitches => Snapshot
    case Snapshot => if dyn == map[] && isFirst then Waiting else Saving(dyn, WRTE_CACHE_PROFILE_RETRY_TIMES)
    case Waiting => Saving(dyn, WRTE_CACHE_PROFILE_RETRY_TIMES)
    case Saving(entries, left) => if saved || left <= 1 then Clearing else Saving(entries + held, left - 1)
    case Clearing => Publishing
    case Publishing => Unlocking
    case Unlocking => Ready
    case _ => i
  }

  /** Every attempt lays what the manager holds over the batch, in place, and then stores the whole. */
  function CacheAfter(i: Init, c: Cache, saved: bool, held: Store): Cache {
    match i
    case DrainSwitches => c.(handedSwitches := Some(c.sw), sw := map[])
    case Saving(entries, left) =>
      c.(handed := if c.handed.None? then Some(entries) else c.handed,
         laid := c.laid + held, stored := if saved then Some(entries + held) else c.stored,
         failures := if saved then c.failures else c.failures + 1)
    case Clearing => c.(dyn := map[])
    case _ => c
  }

  ghost function Run(s: State, steps: seq<Step>): State
    decreases |steps|
  {
    if steps == [] then s else Next(Run(s, steps[..|steps| - 1]), steps[|steps| - 1])
  }

  // ---------------------------------------------------------------- what accepted puts amount to

  /** The entries of all accepted batches, later ones on top. */
  ghost function LoggedEntries(log: seq<seq<Item>>): Store {
    if log == [] then map[]
    else LoggedEntries(log[..|log| - 1]) + BatchEntries(log[|log| - 1], map[])
  }

  ghost function LoggedSwitches(log: seq<seq<Item>>): Switches {
    if log == [] then map[]
    else Overlay(LoggedSwitches(log[..|log| - 1]), SwitchPairs(log[|log| - 1]))
  }

  ghost function LoggedTable(log: seq<seq<Item>>): ProfileTable {
    if log == [] then map[]
    else TableAfter(LoggedTable(log[..|log| - 1]), log[|log| - 1])
  }

  // ---------------------------------------------------------------- the invariant

  predicate InitHolds(i: Init) {
    !i.NotStarted? && !i.Preparing? && !i.Failed? && !i.Ready?
  }

  predicate CallerHolds(c: Caller) {
    c.Holding? || c.Inserting? || c.Leaving?
  }

  ghost predicate LockInv(lock: Option<LockOwner>, callers: map<nat, Caller>, init: Init) {
    && (lock == Some(Initialiser) <==> InitHolds(init))
    && (forall t :: t in callers ==> (CallerHolds(callers[t]) <==> lock == Some(Put(t))))
    && (lock.Some? && lock.value.Put? ==> lock.value.caller in callers)
    && (forall t :: t in callers && callers[t].Inserting? ==> !init.Ready?)
  }

  ghost predicate GateInv(g: Gate, init: Init, inited: bool) {
    && g.deps <= DEPENDENCIES && DEPENDENCIES - g.deps <= g.seen
    && (g.deps == {} <==> !init.NotStarted?)
    && g.postInits == (if g.deps == {} then 1 else 0)
    && (inited <==> init.Unlocking? || init.Ready?)
    && (forall e :: e in g.events && (g.events[e].Arrived? || g.events[e].NotReady?) ==> g.events[e].sa in g.seen)
  }

  predicate Drained(i: Init) {
    (InitHolds(i) && !i.DrainSwitches?) || i.Ready?
  }

  predicate Cleared(i: Init) {
    i.Publishing? || i.Unlocking? || i.Ready?
  }

  /** What the lock holder has still to insert. */
  function DynLeft(lock: Option<LockOwner>, callers: map<nat, Caller>): seq<(string, string)> {
    if lock.Some? && lock.value.Put? && lock.value.caller in callers && callers[lock.value.caller].Inserting?
    then callers[lock.value.caller].dynLeft else []
  }

  function SwLeft(lock: Option<LockOwner>, callers: map<nat, Caller>): seq<(string, CharacteristicProfile)> {
    if lock.Some? && lock.value.Put? && lock.value.caller in callers && callers[lock.value.caller].Inserting?
    then callers[lock.value.caller].swLeft else []
  }

  /** Every attempt so far failed while saving goes on; afterwards one succeeded unless all twenty failed. */
  predicate AttemptInv(c: Cache, init: Init) {
    if init.Clearing? || Cleared(init) then
      && c.failures <= WRTE_CACHE_PROFILE_RETRY_TIMES
      && (c.stored.None? <==> c.failures == WRTE_CACHE_PROFILE_RETRY_TIMES)
      && (c.stored.Some? ==> c.handed.Some? && c.stored.value == c.handed.value + c.laid)
    else
      && c.stored.None?
      && c.failures + (if init.Saving? then init.left else WRTE_CACHE_PROFILE_RETRY_TIMES)
          == WRTE_CACHE_PROFILE_RETRY_TIMES
      && (init.Saving? ==> init.left > 0)
      && (c.handed.None? ==> c.laid == map[])
      && (c.handed.Some? ==> init.Saving?)
  }

  ghost predicate CacheInv(c: Cache, init: Init, dynLeft: seq<(string, string)>,
                           swLeft: seq<(string, CharacteristicProfile)>)
  {
    && (if Cleared(init) then c.dyn == map[] else Overlay(c.dyn, dynLeft) == LoggedEntries(c.log))
    && (if Drained(init) then c.sw == map[] else Overlay(c.sw, swLeft) == LoggedSwitches(c.log))
    && c.handedSwitches == (if Drained(init) then Some(LoggedSwitches(c.log)) else None)
    && (init.Saving? ==> init.entries == LoggedEntries(c.log) + c.laid && init.left <= WRTE_CACHE_PROFILE_RETRY_TIMES)
    && (c.handed.Some? ==> c.handed.value == LoggedEntries(c.log) && Drained(init))
    && (init.Clearing? || Cleared(init) ==> c.handed.Some?)
    && (init.Waiting? ==> c.dyn == map[])
    && AttemptInv(c, init)
  }

  predicate Accepted(c: Caller) {
    c.Inserting? || ((c.Leaving? || c.Cached?) && c.code == DP_SUCCESS)
  }

  ghost predicate AnswerInv(callers: map<nat, Caller>, log: seq<seq<Item>>, localUdid: string) {
    && (forall t :: t in callers && Accepted(callers[t]) ==> callers[t].items in log)
    && (forall items :: items in log ==> forall i | 0 <= i < |items| :: ItemValid(items[i], localUdid))
  }

  ghost predicate Inv(s: State) {
    && LockInv(s.lock, s.callers, s.init)
    && GateInv(s.gate, s.init, s.inited)
    && CacheInv(s.cache, s.init, DynLeft(s.lock, s.callers), SwLeft(s.lock, s.callers))
    && AnswerInv(s.callers, s.cache.log, s.localUdid)
  }

  lemma LogGrows(log: seq<seq<Item>>, items: seq<Item>)
    ensures LoggedEntries(log + [items]) == LoggedEntries(log) + BatchEntries(items, map[])
    ensures LoggedSwitches(log + [items]) == Overlay(LoggedSwitches(log), SwitchPairs(items))
  {
    hide BatchEntries, SwitchPairs, Overlay;
    assert (log + [items])[..|log|] == log;
  }

  lemma AcceptedCacheKept(c: Cache, init: Init, items: seq<Item>)
    requires CacheInv(c, init, [], []) && !Drained(init)
    ensures CacheInv(c.(log := c.log + [items]), init, Listing(BatchEntries(items, map[])), SwitchPairs(items))
  {
    hide Listing, BatchEntries, SwitchPairs, LoggedEntries, LoggedSwitches;
    LogGrows(c.log, items);
    OverlayListing(c.dyn, BatchEntries(items, map[]));
  }

  lemma AcceptedBatchKept(s: State, t: nat, items: seq<Item>, existing: seq<bool>)
    requires Inv(s) && t in s.callers && s.callers[t] == Holding(items) && |existing| == |items| && !s.inited
    requires Verdict(items, existing, s.localUdid) == DP_SUCCESS
    ensures Inv(AfterReadReady(s, t, items, existing))
  {
    hide Listing, BatchEntries, SwitchPairs, Verdict, LoggedEntries, LoggedSwitches, GateInv, ItemValid, CacheInv;
    VerdictValid(items, existing, s.localUdid);
    assert InitOutside(s) by { HolderExcludesInit(s, t); }
    assert DynLeft(s.lock, s.callers) == [] && SwLeft(s.lock, s.callers) == [];
    AcceptedCacheKept(s.cache, s.init, items);
  }

  predicate InitOutside(s: State) {
    s.init.NotStarted? || s.init.Preparing? || s.init.Failed?
  }

  lemma HolderExcludesInit(s: State, t: nat)
    requires Inv(s) && t in s.callers && CallerHolds(s.callers[t]) && !s.inited
    ensures InitOutside(s)
  {
    hide CacheInv, AnswerInv;
  }

  lemma VerdictValid(items: seq<Item>, existing: seq<bool>, localUdid: string)
    requires |existing| == |items| && Verdict(items, existing, localUdid) == DP_SUCCESS
    ensures forall i | 0 <= i < |items| :: ItemValid(items[i], localUdid)
  {
    hide ItemValid;
    ScanValid(items, existing, localUdid);
  }

  lemma InsertKept(s: State, t: nat)
    requires Inv(s) && t in s.callers && s.callers[t].Inserting?
    ensures Inv(AfterInsert(s, t, s.callers[t]))
  {
    hide LoggedEntries, LoggedSwitches, GateInv, ItemValid;
    assert !Cleared(s.init) && !Drained(s.init);
    assert DynLeft(s.lock, s.callers) == s.callers[t].dynLeft && SwLeft(s.lock, s.callers) == s.callers[t].swLeft;
  }

  lemma InsertOneKept(s: State, t: nat)
    requires Inv(s)
    ensures Inv(Next(s, InsertOne(t)))
  {
    hide Inv, AfterInsert;
    if t in s.callers && s.callers[t].Inserting? {
      InsertKept(s, t);
    }
  }

  lemma CallerMoved(s: State, t: nat, c: Caller, lock: Option<LockOwner>)
    requires Inv(s) && !c.Inserting? && (t in s.callers ==> !s.callers[t].Inserting?)
    requires if CallerHolds(c) then s.lock.None? && lock == Some(Put(t))
             else lock == if s.lock == Some(Put(t)) then None else s.lock
    requires Accepted(c) ==> t in s.callers && Accepted(s.callers[t]) && c.items == s.callers[t].items
    ensures Inv(s.(lock := lock, callers := s.callers[t := c]))
  {
    hide GateInv, ItemValid, CacheInv;
    assert DynLeft(lock, s.callers[t := c]) == DynLeft(s.lock, s.callers);
    assert SwLeft(lock, s.callers[t := c]) == SwLeft(s.lock, s.callers);
  }

  lemma WaitingStepKept(s: State, step: Step)
    requires Inv(s) && (step.CallPut? || step.TakeLock? || step.Release? || step.CallManager?)
    ensures Inv(Next(s, step))
  {
    hide Inv, LoggedEntries, LoggedSwitches;
    if Next(s, step) != s {
      LockFacts(s, step.t);
      CallerMoved(s, step.t, Next(s, step).callers[step.t], Next(s, step).lock);
    }
  }

  lemma LockFacts(s: State, t: nat)
    requires Inv(s)
    ensures s.lock == Some(Put(t)) <==> t in s.callers && CallerHolds(s.callers[t])
  {
    hide GateInv, CacheInv, AnswerInv;
  }

  lemma ReadReadyKept(s: State, t: nat, existing: seq<bool>)
    requires Inv(s)
    ensures Inv(Next(s, ReadReady(t, existing)))
  {
    hide Listing, BatchEntries, SwitchPairs, Verdict, LoggedEntries, LoggedSwitches, GateInv, ItemValid, CacheInv;
    if t in s.callers && s.callers[t].Holding? && |existing| == |s.callers[t].items| && !s.inited
       && Verdict(s.callers[t].items, existing, s.localUdid) == DP_SUCCESS {
      AcceptedBatchKept(s, t, s.callers[t].items, existing);
    }
  }

  lemma EventStepKept(s: State, step: Step)
    requires Inv(s) && (step.EventArrives? || step.EventReadsReady? || step.EventErases?)
    ensures Inv(Next(s, step))
  {
    hide LoggedEntries, LoggedSwitches, Overlay, AnswerInv, DynLeft, SwLeft;
  }

  lemma InitCacheKept(c: Cache, init: Init, isFirst: bool, saved: bool, held: Store)
    requires CacheInv(c, init, [], []) && InitHolds(init)
    ensures CacheInv(CacheAfter(init, c, saved, held), InitAfter(init, c.dyn, isFirst, saved, held), [], [])
  {
    hide LoggedEntries, LoggedSwitches;
    var logged := LoggedEntries(c.log);
    assert logged + map[] == logged;
    LaidTwice(logged, c.laid, held);
  }

  lemma InitPreparesKept(s: State, ok: bool)
    requires Inv(s)
    ensures Inv(Next(s, InitPrepares(ok)))
  {
    hide LoggedEntries, LoggedSwitches, AnswerInv;
  }

  lemma InitStepKept(s: State, isFirst: bool, saved: bool, held: Store)
    requires Inv(s)
    ensures Inv(Next(s, InitStep(isFirst, saved, held)))
  {
    hide CacheInv, CacheAfter, AnswerInv;
    if InitHolds(s.init) {
      InitCacheKept(s.cache, s.init, isFirst, saved, held);
      LogUnchanged(s.init, s.cache, saved, held);
    }
  }

  lemma LogUnchanged(i: Init, c: Cache, saved: bool, held: Store)
    ensures CacheAfter(i, c, saved, held).log == c.log
  {
  }

  lemma LaidTwice(logged: Store, laid: Store, held: Store)
    ensures logged + laid + held == logged + (laid + held)
  {
  }

  lemma StepKept(s: State, step: Step)
    requires Inv(s)
    ensures Inv(Next(s, step))
  {
    hide Inv, Next;
    if step.EventArrives? || step.EventReadsReady? || step.EventErases? {
      EventStepKept(s, step);
    } else if step.InitPrepares? {
      InitPreparesKept(s, step.ok);
    } else if step.InitStep? {
      InitStepKept(s, step.isFirst, step.saved, step.held);
    } else if step.ReadReady? {
      ReadReadyKept(s, step.t, step.existing);
    } else if step.InsertOne? {
      InsertOneKept(s, step.t);
    } else {
      WaitingStepKept(s, step);
    }
  }

  lemma {:induction false} RunKept(s: State, steps: seq<Step>)
    requires Inv(s)
    ensures Inv(Run(s, steps))
    decreases |steps|
  {
    hide Inv, Next;
    if steps != [] {
      RunKept(s, steps[..|steps| - 1]);
      StepKept(Run(s, steps[..|steps| - 1]), steps[|steps| - 1]);
    }
  }

  lemma StartInv(localUdid: string)
    ensures Inv(Start(localUdid))
  {
  }

  /** Every reachable state satisfies the invariant, whatever the interleaving. */
  lemma {:induction false} Reachable(localUdid: string, steps: seq<Step>)
    ensures Inv(Run(Start(localUdid), steps))
  {
    hide Inv, Next;
    StartInv(localUdid);
    RunKept(Start(localUdid), steps);
  }

  // ---------------------------------------------------------------- main results

  /** However the dependency events interleave, initialisation is started at most once, and only after all five
      abilities were reported; a ready service was initialised, and both of its maps are empty. */
  lemma InitialisedOnce(localUdid: string, steps: seq<Step>)
    ensures var s := Run(Start(localUdid), steps);
            && s.gate.postInits <= 1
            && (s.gate.postInits == 1 ==> DEPENDENCIES <= s.gate.seen)
            && (s.inited ==> s.gate.postInits == 1 && s.cache.dyn == map[] && s.cache.sw == map[])
  {
    hide AnswerInv, LoggedEntries, LoggedSwitches, Overlay, Next, Run;
    Reachable(localUdid, steps);
  }

  lemma StepLasts(s: State, step: Step)
    requires Inv(s)
    ensures var s' := Next(s, step);
            && s'.localUdid == s.localUdid
            && (s.inited ==> s'.inited)
            && (s.init.Failed? ==> s'.init.Failed?)
            && (s.cache.handed.Some? ==> s'.cache.handed == s.cache.handed && s'.cache.log == s.cache.log)
  {
    hide AnswerInv, LoggedEntries, LoggedSwitches, Overlay, Listing, BatchEntries, SwitchPairs, Verdict;
  }

  /** Readiness and a failed initialisation are final, and nothing is accepted into the cache once a batch was handed
      over. */
  lemma {:induction false} Lasts(s: State, steps: seq<Step>)
    requires Inv(s)
    ensures var s' := Run(s, steps);
            && s'.localUdid == s.localUdid
            && (s.inited ==> s'.inited)
            && (s.init.Failed? ==> s'.init.Failed? && !s'.inited)
            && (s.cache.handed.Some? ==> s'.cache.handed == s.cache.handed && s'.cache.log == s.cache.log)
    decreases |steps|
  {
    hide Inv, Next;
    if steps != [] {
      var before := steps[..|steps| - 1];
      Lasts(s, before);
      RunKept(s, before);
      StepLasts(Run(s, before), steps[|steps| - 1]);
    }
    RunKept(s, steps);
    FailedIsNotReady(Run(s, steps));
  }

  lemma FailedIsNotReady(s: State)
    requires Inv(s)
    ensures s.init.Failed? ==> !s.inited
  {
  }

  /** Batch `j` is the last one to write `k`. */
  ghost predicate LastWriter(log: seq<seq<Item>>, j: nat, k: string) {
    && j < |log| && k in BatchEntries(log[j], map[])
    && forall m | j < m < |log| :: k !in BatchEntries(log[m], map[])
  }

  lemma {:induction false} LoggedEntry(log: seq<seq<Item>>, k: string)
    ensures forall i | 0 <= i < |log| :: k in BatchEntries(log[i], map[]) ==> k in LoggedEntries(log)
    ensures k in LoggedEntries(log) ==>
              exists j: nat :: LastWriter(log, j, k) && LoggedEntries(log)[k] == BatchEntries(log[j], map[])[k]
    decreases |log|
  {
    hide BatchEntries;
    if log != [] {
      var n := |log| - 1;
      var before := log[..n];
      LoggedEntry(before, k);
      if k in BatchEntries(log[n], map[]) {
        assert LastWriter(log, n, k);
      } else if k in LoggedEntries(before) {
        var j: nat :| LastWriter(before, j, k) && LoggedEntries(before)[k] == BatchEntries(before[j], map[])[k];
        assert LastWriter(log, j, k);
      }
      assert forall i | 0 <= i < n :: log[i] == before[i];
    }
  }

  lemma {:induction false} ItemInBatch(items: seq<Item>, i: nat, k: string, into: Store)
    requires i < |items| && !IsSwitch(items[i]) && k in ItemEntries(items[i], map[])
    ensures k in BatchEntries(items, into)
    decreases |items|
  {
    hide ItemEntries, IsSwitch;
    var next := if IsSwitch(items[0]) then into else ItemEntries(items[0], into);
    if i == 0 {
      ItemOnTop(items[0], into);
      BatchOnTop(items[1..], next);
    } else {
      ItemInBatch(items[1..], i - 1, k, next);
    }
  }

  lemma ItemOnTop(it: Item, into: Store)
    ensures forall k :: k in ItemEntries(it, map[]) ==> k in ItemEntries(it, into)
  {
    hide KeyOf;
  }

  /** Every item of a put that was answered "success" from the cache, other than a switch, is in the batch of the first
      hand-over attempt: with its own value, or with that of the last accepted put to write the same key. */
  lemma AcknowledgedPutsHandedOver(localUdid: string, steps: seq<Step>, t: nat, n: nat, k: string)
    requires var s := Run(Start(localUdid), steps);
             && s.cache.handed.Some? && t in s.callers
             && s.callers[t].Cached? && s.callers[t].code == DP_SUCCESS
             && n < |s.callers[t].items|
             && !(s.callers[t].items[n].CharItem? && s.callers[t].items[n].chr.charKey == "SwitchStatus")
             && k in ItemEntries(s.callers[t].items[n], map[])
    ensures var s := Run(Start(localUdid), steps);
            && k in s.cache.handed.value
            && exists i: nat, j: nat :: i <= j && i < |s.cache.log| && s.cache.log[i] == s.callers[t].items
                 && LastWriter(s.cache.log, j, k) && s.cache.handed.value[k] == BatchEntries(s.cache.log[j], map[])[k]
  {
    assert !IsSwitch(Run(Start(localUdid), steps).callers[t].items[n]);
    hide LockInv, GateInv, LoggedEntries, LoggedSwitches, Overlay, Next, Run, BatchEntries, ItemEntries, IsSwitch,
        ItemValid;
    Reachable(localUdid, steps);
    var s := Run(Start(localUdid), steps);
    var items, log := s.callers[t].items, s.cache.log;
    assert items in log;
    var i: nat :| i < |log| && log[i] == items;
    ItemInBatch(items, n, k, map[]);
    LoggedEntry(log, k);
    var j: nat :| LastWriter(log, j, k) && LoggedEntries(log)[k] == BatchEntries(log[j], map[])[k];
    assert i <= j;
  }

  /** A ready service has lost such an entry if and only if all twenty attempts to store the batch failed. Otherwise
      it is stored, with the value it was handed over with if and only if nothing else was laid over it. */
  lemma AcknowledgedLostExactly(localUdid: string, steps: seq<Step>, t: nat, n: nat, k: string)
    requires var s := Run(Start(localUdid), steps);
             && s.inited && t in s.callers
             && s.callers[t].Cached? && s.callers[t].code == DP_SUCCESS
             && n < |s.callers[t].items|
             && !(s.callers[t].items[n].CharItem? && s.callers[t].items[n].chr.charKey == "SwitchStatus")
             && k in ItemEntries(s.callers[t].items[n], map[])
    ensures var c := Run(Start(localUdid), steps).cache;
            && c.failures <= 20
            && (c.stored.None? || k !in c.stored.value <==> c.failures == 20)
            && (c.stored.Some? ==>
                  && c.handed.Some? && k in c.handed.value && k in c.stored.value
                  && (c.stored.value[k] == c.handed.value[k] <==> k !in c.laid || c.laid[k] == c.handed.value[k]))
  {
    hide LockInv, LoggedEntries, LoggedSwitches, Overlay, Next, Run, BatchEntries, ItemEntries, IsSwitch, AnswerInv;
    Reachable(localUdid, steps);
    AcknowledgedPutsHandedOver(localUdid, steps, t, n, k);
  }

  function FailedAttempts(n: nat): seq<Step> {
    if n == 0 then [] else FailedAttempts(n - 1) + [InitStep(false, false, map[])]
  }

  lemma AttemptFails(s: State)
    requires s.init.Saving?
    ensures var s' := Next(s, InitStep(false, false, map[]));
            && s'.cache.stored == s.cache.stored && s'.callers == s.callers && s'.cache.log == s.cache.log
            && s'.init == if s.init.left <= 1 then Clearing else Saving(s.init.entries, s.init.left - 1)
  {
    assert s.init.entries + map[] == s.init.entries;
  }

  lemma {:induction false} AttemptsFail(s: State, n: nat)
    requires s.init.Saving? && s.init.left == WRTE_CACHE_PROFILE_RETRY_TIMES && n <= WRTE_CACHE_PROFILE_RETRY_TIMES
    ensures var s' := Run(s, FailedAttempts(n));
            && s'.cache.stored == s.cache.stored && s'.callers == s.callers && s'.cache.log == s.cache.log
            && s'.init == if n < WRTE_CACHE_PROFILE_RETRY_TIMES
                          then Saving(s.init.entries, WRTE_CACHE_PROFILE_RETRY_TIMES - n) else Clearing
  {
    hide Next;
    if n > 0 {
      AttemptsFail(s, n - 1);
      hide Run;
      LastAttempt(s, n);
      AttemptFails(Run(s, FailedAttempts(n - 1)));
    }
  }

  lemma LastAttempt(s: State, n: nat)
    requires n > 0
    ensures Run(s, FailedAttempts(n)) == Next(Run(s, FailedAttempts(n - 1)), InitStep(false, false, map[]))
  {
    hide Next;
    assert FailedAttempts(n)[..|FailedAttempts(n)| - 1] == FailedAttempts(n - 1);
  }

  /** From every reachable beginning of a hand-over there is a run that becomes ready with nothing stored. */
  lemma HandOverCanFail(localUdid: string, steps: seq<Step>)
    requires var s := Run(Start(localUdid), steps);
             s.init.Saving? && s.init.left == WRTE_CACHE_PROFILE_RETRY_TIMES
    ensures var s := Run(Start(localUdid), steps);
            var s' := Next(Next(Run(s, FailedAttempts(WRTE_CACHE_PROFILE_RETRY_TIMES)), InitStep(false, false, map[])),
                           InitStep(false, false, map[]));
            && s'.inited && s'.cache.stored.None? && s'.cache.dyn == map[]
            && s'.callers == s.callers && s'.cache.log == s.cache.log
  {
    hide Run, LockInv, GateInv, LoggedEntries, LoggedSwitches, AnswerInv;
    Reachable(localUdid, steps);
    AttemptsFail(Run(Start(localUdid), steps), WRTE_CACHE_PROFILE_RETRY_TIMES);
  }

  /** Nothing else is in that batch: every entry comes from an accepted put of valid items. */
  lemma OnlyAcceptedPutsHandedOver(localUdid: string, steps: seq<Step>, k: string)
    requires var s := Run(Start(localUdid), steps); s.cache.handed.Some? && k in s.cache.handed.value
    ensures var s := Run(Start(localUdid), steps);
            exists j: nat :: LastWriter(s.cache.log, j, k)
                && s.cache.handed.value[k] == BatchEntries(s.cache.log[j], map[])[k]
              && forall i | 0 <= i < |s.cache.log[j]| :: ItemValid(s.cache.log[j][i], s.localUdid)
  {
    hide LockInv, GateInv, LoggedEntries, LoggedSwitches, Overlay, Next, Run, BatchEntries, ItemValid;
    Reachable(localUdid, steps);
    var s := Run(Start(localUdid), steps);
    LoggedEntry(s.cache.log, k);
    var j: nat :| LastWriter(s.cache.log, j, k)
        && LoggedEntries(s.cache.log)[k] == BatchEntries(s.cache.log[j], map[])[k];
    assert s.cache.log[j] in s.cache.log;
  }

  lemma {:induction false} LoggedFlattens(log: seq<seq<Item>>, localUdid: string)
    requires forall items :: items in log ==> forall i | 0 <= i < |items| :: ItemValid(items[i], localUdid)
    ensures Flattens(LoggedEntries(log), LoggedTable(log), localUdid)
    decreases |log|
  {
    hide BatchEntries, TableAfter, ItemValid, PairIn, Covers, Cacheable;
    if log != [] {
      var n := |log| - 1;
      assert log[n] in log;
      LoggedFlattens(log[..n], localUdid);
      hide Flattens;
      BatchFlattens(LoggedEntries(log[..n]), LoggedTable(log[..n]), localUdid, log[n]);
      BatchOnTop(log[n], LoggedEntries(log[..n]));
    }
  }

  /** Whenever no insertion is under way, the waiting entries are exactly the table of last accepted profiles:
      both properties of each, for this device, for no user. So is the batch handed over. */
  lemma {:induction false} CacheIsTable(localUdid: string, steps: seq<Step>)
    ensures var s := Run(Start(localUdid), steps);
            && (!Cleared(s.init) && DynLeft(s.lock, s.callers) == [] ==>
                  Flattens(s.cache.dyn, LoggedTable(s.cache.log), localUdid))
            && (s.cache.handed.Some? ==> Flattens(s.cache.handed.value, LoggedTable(s.cache.log), localUdid))
  {
    hide LockInv, GateInv, LoggedEntries, LoggedSwitches, LoggedTable, Next, Run, Flattens, ItemValid;
    Reachable(localUdid, steps);
    StartInv(localUdid);
    Lasts(Start(localUdid), steps);
    LoggedFlattens(Run(Start(localUdid), steps).cache.log, localUdid);
  }

  // ---------------------------------------------------------------- switches

  lemma {:induction false} SwitchHasPair(items: seq<Item>, i: nat)
    requires i < |items| && items[i].CharItem?
    ensures (SwitchKey(items[i].chr), items[i].chr) in KeyedItems(items)
    decreases |items|
  {
    hide SwitchKey;
    if i > 0 {
      SwitchHasPair(items[1..], i - 1);
    }
  }

  /** A characteristic of a batch is copied to the switch map exactly when some item of the batch is a switch. */
  lemma CopiedExactly(items: seq<Item>, i: nat)
    requires i < |items| && items[i].CharItem?
    ensures (SwitchKey(items[i].chr), items[i].chr) in SwitchPairs(items) <==> AnySwitch(items)
  {
    hide SwitchKey;
    SwitchHasPair(items, i);
  }

  ghost predicate AllClean(log: seq<seq<Item>>) {
    forall items :: items in log ==> CleanChars(items)
  }

  /** Item `i` of batch `j` is the last accepted one about the profile of `c`, among the batches that hold a switch. */
  ghost predicate LastAccepted(log: seq<seq<Item>>, j: nat, i: nat, c: CharacteristicProfile) {
    && j < |log| && i < |log[j]| && AnySwitch(log[j]) && log[j][i].CharItem? && SameProfile(log[j][i].chr, c)
    && NoneFrom(log[j], i + 1, c)
    && forall m | j < m < |log| :: AnySwitch(log[m]) ==> NoneFrom(log[m], 0, c)
  }

  lemma {:induction false} LoggedSwitchIs(log: seq<seq<Item>>, j: nat, i: nat, c: CharacteristicProfile)
    requires AllClean(log) && CleanChar(c) && LastAccepted(log, j, i, c)
    ensures SwitchKey(c) in LoggedSwitches(log) && LoggedSwitches(log)[SwitchKey(c)] == log[j][i].chr
    decreases |log|
  {
    hide SwitchKey, KeyedItems, Overlay, AnySwitch;
    var n := |log| - 1;
    var before := log[..n];
    assert log[n] in log && log[j] in log && CleanChars(log[j]) && CleanChars(log[n]);
    if j == n {
      SwitchKeyExactly(log[n][i].chr, c);
      KeyedLast(LoggedSwitches(before), log[n], i);
    } else {
      LoggedSwitchIs(before, j, i, c);
      if AnySwitch(log[n]) {
        KeyedMisses(LoggedSwitches(before), log[n], c);
      } else {
        OverlayNothing(LoggedSwitches(before));
      }
    }
  }

  lemma OverlayNothing(m: Switches)
    ensures Overlay(m, []) == m
  {
  }

  lemma {:induction false} LastInBatch(items: seq<Item>, n: nat, c: CharacteristicProfile) returns (i: nat)
    requires n < |items| && items[n].CharItem? && SameProfile(items[n].chr, c)
    ensures n <= i < |items| && items[i].CharItem? && SameProfile(items[i].chr, c) && NoneFrom(items, i + 1, c)
    decreases |items| - n
  {
    hide SameProfile;
    if m: nat :| n < m < |items| && items[m].CharItem? && SameProfile(items[m].chr, c) {
      i := LastInBatch(items, m, c);
    } else {
      i := n;
    }
  }

  lemma {:induction false} LastExists(log: seq<seq<Item>>, b: nat, n: nat, c: CharacteristicProfile)
    returns (j: nat, i: nat)
    requires b < |log| && n < |log[b]| && AnySwitch(log[b]) && log[b][n].CharItem? && SameProfile(log[b][n].chr, c)
    ensures b <= j && LastAccepted(log, j, i, c)
    decreases |log| - b
  {
    hide SameProfile, AnySwitch;
    if m: nat, l: nat :| b < m < |log| && l < |log[m]| && AnySwitch(log[m]) && log[m][l].CharItem?
                         && SameProfile(log[m][l].chr, c) {
      j, i := LastExists(log, m, l, c);
    } else {
      j := b;
      i := LastInBatch(log[b], n, c);
    }
  }

  lemma AcceptedAreClean(log: seq<seq<Item>>, localUdid: string)
    requires forall items :: items in log ==> forall i | 0 <= i < |items| :: ItemValid(items[i], localUdid)
    ensures AllClean(log)
  {
    hide ItemValid;
    forall items: seq<Item>, i | items in log && 0 <= i < |items| && items[i].CharItem?
      ensures CleanChar(items[i].chr)
    {
      ItemValidExactly(items[i], localUdid);
    }
  }

  /** The wait for late puts only happens with nothing to hand over, and nothing arrives during it: the snapshots taken
      before and after agree. */
  lemma {:induction false} SnapshotsAgree(localUdid: string, steps: seq<Step>)
    ensures var s := Run(Start(localUdid), steps);
            s.init.Waiting? ==>
              s.cache.dyn == map[] && LoggedEntries(s.cache.log) == map[] && s.lock == Some(Initialiser)
  {
    hide Next, Run, LoggedEntries, LoggedSwitches, GateInv, AnswerInv;
    Reachable(localUdid, steps);
  }

  /** Every switch item of a put answered "success" from the cache reaches the switch manager's batch, or the last
      accepted item about the same device, service and characteristic does, and no other item under their key. */
  lemma AcknowledgedSwitchesHandedOver(localUdid: string, steps: seq<Step>, t: nat, n: nat)
    requires var s := Run(Start(localUdid), steps);
             && s.cache.handedSwitches.Some? && t in s.callers
             && s.callers[t].Cached? && s.callers[t].code == DP_SUCCESS
             && n < |s.callers[t].items| && s.callers[t].items[n].CharItem?
             && s.callers[t].items[n].chr.charKey == "SwitchStatus"
    ensures var s := Run(Start(localUdid), steps);
            var c := s.callers[t].items[n].chr;
            && SwitchKey(c) in s.cache.handedSwitches.value
            && exists b: nat, j: nat, i: nat :: b <= j && b < |s.cache.log| && s.cache.log[b] == s.callers[t].items
                 && LastAccepted(s.cache.log, j, i, c)
                 && s.cache.handedSwitches.value[SwitchKey(c)] == s.cache.log[j][i].chr
  {
    hide LockInv, GateInv, LoggedEntries, LoggedSwitches, Overlay, Next, Run, SwitchKey, KeyedItems, ItemValid;
    Reachable(localUdid, steps);
    var s := Run(Start(localUdid), steps);
    var items, log := s.callers[t].items, s.cache.log;
    assert items in log;
    var b: nat :| b < |log| && log[b] == items;
    assert IsSwitch(items[n]);
    assert AnySwitch(items);
    AcceptedAreClean(log, s.localUdid);
    assert CleanChars(items);
    var j, i := LastExists(log, b, n, items[n].chr);
    LoggedSwitchIs(log, j, i, items[n].chr);
  }

  // ---------------------------------------------------------------- concrete runs

  lemma {:induction false} RunAppend(s: State, a: seq<Step>, b: seq<Step>)
    ensures Run(s, a + b) == Run(Run(s, a), b)
    decreases |b|
  {
    hide Next;
    if b == [] {
      assert a + b == a;
    } else {
      assert (a + b)[..|a + b| - 1] == a + b[..|b| - 1];
      RunAppend(s, a, b[..|b| - 1]);
    }
  }

  lemma RunOne(s: State, step: Step)
    ensures Run(s, [step]) == Next(s, step)
  {
    hide Next;
    assert [step][..0] == [];
    assert Run(s, []) == s;
  }

  lemma RunTwo(s: State, a: Step, b: Step)
    ensures Run(s, [a, b]) == Next(Next(s, a), b)
  {
    hide Next;
    RunOne(s, a);
    assert [a, b][..1] == [a];
  }

  lemma RunThree(s: State, a: Step, b: Step, c: Step)
    ensures Run(s, [a, b, c]) == Next(Next(Next(s, a), b), c)
  {
    hide Next;
    RunTwo(s, a, b);
    assert [a, b, c][..2] == [a, b];
  }

  function Inserts(t: nat, n: nat): seq<Step> {
    if n == 0 then [] else [InsertOne(t)] + Inserts(t, n - 1)
  }

  /** The two states differ at most in the contents of the two maps. */
  predicate SameButMaps(s: State, s': State) {
    s' == s.(cache := s.cache.(dyn := s'.cache.dyn, sw := s'.cache.sw))
  }

  lemma OneInsert(s: State, t: nat)
    requires t in s.callers && s.callers[t].Inserting?
    ensures var c, s' := s.callers[t], Next(s, InsertOne(t));
            if c.dynLeft == [] && c.swLeft == [] then s' == s.(callers := s.callers[t := Leaving(c.items, DP_SUCCESS)])
            else
              && t in s'.callers && s'.callers[t].Inserting? && s'.callers[t].items == c.items
              && |s'.callers[t].dynLeft| + |s'.callers[t].swLeft| == |c.dynLeft| + |c.swLeft| - 1
              && SameButMaps(s.(callers := s'.callers), s') && s'.callers == s.callers[t := s'.callers[t]]
  {
  }

  lemma {:induction false} InsertsFinish(s: State, t: nat, n: nat)
    requires t in s.callers && s.callers[t].Inserting?
    requires n == |s.callers[t].dynLeft| + |s.callers[t].swLeft| + 1
    ensures SameButMaps(s.(callers := s.callers[t := Leaving(s.callers[t].items, DP_SUCCESS)]), Run(s, Inserts(t, n)))
    decreases n
  {
    hide Next;
    var next := Next(s, InsertOne(t));
    RunOne(s, InsertOne(t));
    RunAppend(s, [InsertOne(t)], Inserts(t, n - 1));
    OneInsert(s, t);
    if n > 1 {
      hide Run;
      InsertsFinish(next, t, n - 1);
    }
  }

  /** A caller alone puts a batch. */
  ghost function PutRun(t: nat, items: seq<Item>, existing: seq<bool>): seq<Step> {
    [CallPut(t, items), TakeLock(t), ReadReady(t, existing)]
    + Inserts(t, |Listing(BatchEntries(items, map[]))| + |SwitchPairs(items)| + 1)
    + [Release(t)]
  }

  /** Whenever the lock is free and the service is not ready, a valid new batch can be put, and is acknowledged. */
  lemma PutAcknowledged(s: State, t: nat, items: seq<Item>, existing: seq<bool>)
    requires s.lock.None? && t !in s.callers && !s.inited && |existing| == |items|
    requires Verdict(items, existing, s.localUdid) == DP_SUCCESS
    ensures var s' := Run(s, PutRun(t, items, existing));
            SameButMaps(s.(callers := s.callers[t := Cached(items, DP_SUCCESS)],
                           cache := s.cache.(log := s.cache.log + [items])), s')
  {
    hide Run, Listing, BatchEntries, SwitchPairs, Verdict;
    var n := |Listing(BatchEntries(items, map[]))| + |SwitchPairs(items)| + 1;
    var opening := [CallPut(t, items), TakeLock(t), ReadReady(t, existing)];
    RunAppend(s, opening + Inserts(t, n), [Release(t)]);
    RunAppend(s, opening, Inserts(t, n));
    RunThree(s, opening[0], opening[1], opening[2]);
    PutOpens(s, t, items, existing);
    var inserting := Run(s, opening);
    InsertsFinish(inserting, t, n);
    RunOne(Run(inserting, Inserts(t, n)), Release(t));
    PutCloses(Run(inserting, Inserts(t, n)), t);
  }

  lemma RunFour(s: State, a: Step, b: Step, c: Step, d: Step)
    ensures Run(s, [a, b, c, d]) == Next(Next(Next(Next(s, a), b), c), d)
  {
    hide Next;
    RunThree(s, a, b, c);
    assert [a, b, c, d][..3] == [a, b, c];
  }

  lemma PutHolds(s: State, t: nat, items: seq<Item>)
    requires s.lock.None? && t !in s.callers
    ensures Next(Next(s, CallPut(t, items)), TakeLock(t))
         == s.(lock := Some(Put(t)), callers := s.callers[t := Holding(items)])
  {
    assert Next(s, CallPut(t, items)) == s.(callers := s.callers[t := Wanting(items)]);
  }

  /** A put that is not accepted is answered with its verdict, and leaves both maps alone. */
  lemma PutRejected(s: State, t: nat, items: seq<Item>, existing: seq<bool>)
    requires s.lock.None? && t !in s.callers && !s.inited && |existing| == |items|
    requires Verdict(items, existing, s.localUdid) != 0
    ensures Run(s, [CallPut(t, items), TakeLock(t), ReadReady(t, existing), Release(t)])
         == s.(callers := s.callers[t := Cached(items, Verdict(items, existing, s.localUdid))])
  {
    hide Run, Verdict;
    RunFour(s, CallPut(t, items), TakeLock(t), ReadReady(t, existing), Release(t));
    PutHolds(s, t, items);
    var code := Verdict(items, existing, s.localUdid);
    var held := s.(lock := Some(Put(t)), callers := s.callers[t := Holding(items)]);
    var judged := Next(held, ReadReady(t, existing));
    assert judged == held.(callers := s.callers[t := Leaving(items, code)]);
    PutCloses(judged, t);
    assert s.callers[t := Leaving(items, code)][t := Cached(items, code)] == s.callers[t := Cached(items, code)];
  }

  /** A put on a ready service is answered by the manager it is passed to, and leaves both maps alone. */
  lemma ReadyPutForwarded(s: State, t: nat, items: seq<Item>, existing: seq<bool>, answer: Int32)
    requires s.lock.None? && t !in s.callers && s.inited && |existing| == |items|
    ensures Run(s, [CallPut(t, items), TakeLock(t), ReadReady(t, existing), CallManager(t, answer)])
         == s.(callers := s.callers[t := Forwarded(items, answer)])
  {
    hide Run;
    RunFour(s, CallPut(t, items), TakeLock(t), ReadReady(t, existing), CallManager(t, answer));
    PutHolds(s, t, items);
    var held := s.(lock := Some(Put(t)), callers := s.callers[t := Holding(items)]);
    var direct := Next(held, ReadReady(t, existing));
    assert direct == s.(callers := s.callers[t := Direct(items)]);
    assert s.callers[t := Direct(items)][t := Forwarded(items, answer)] == s.callers[t := Forwarded(items, answer)];
  }

  lemma PutOpens(s: State, t: nat, items: seq<Item>, existing: seq<bool>)
    requires s.lock.None? && t !in s.callers && !s.inited && |existing| == |items|
    requires Verdict(items, existing, s.localUdid) == DP_SUCCESS
    ensures Next(Next(Next(s, CallPut(t, items)), TakeLock(t)), ReadReady(t, existing)) ==
            s.(lock := Some(Put(t)), cache := s.cache.(log := s.cache.log + [items]),
               callers := s.callers[t := Inserting(items, Listing(BatchEntries(items, map[])), SwitchPairs(items))])
  {
    hide Listing, BatchEntries, SwitchPairs, Verdict;
    var s1 := Next(s, CallPut(t, items));
    assert s1 == s.(callers := s.callers[t := Wanting(items)]);
    var s2 := Next(s1, TakeLock(t));
    assert s2 == s.(lock := Some(Put(t)), callers := s.callers[t := Holding(items)]);
  }

  lemma PutCloses(s: State, t: nat)
    requires t in s.callers && s.callers[t].Leaving?
    ensures Next(s, Release(t)) ==
            s.(lock := None, callers := s.callers[t := Cached(s.callers[t].items, s.callers[t].code)])
  {
  }

  function OneEvent(e: nat, sa: Ability): seq<Step> {
    [EventArrives(e, sa), EventReadsReady(e), EventErases(e)]
  }

  /** The threads with numbers from `e` on report nothing yet, and initialisation has not started. */
  predicate Awaiting(s: State, deps: set<Ability>, e: nat) {
    !s.inited && s.init.NotStarted? && s.gate.deps == deps && forall d :: d in s.gate.events ==> d < e
  }

  lemma EventErased(s: State, e: nat, sa: Ability, deps: set<Ability>)
    requires Awaiting(s, deps, e) && sa in deps
    ensures var s' := Run(s, OneEvent(e, sa));
            && s' == s.(gate := s'.gate, init := s'.init)
            && (if deps == {sa} then s'.init == Preparing else Awaiting(s', deps - {sa}, e + 1))
  {
    RunThree(s, EventArrives(e, sa), EventReadsReady(e), EventErases(e));
    hide Run;
    var s1 := Next(s, EventArrives(e, sa));
    var s2 := Next(s1, EventReadsReady(e));
    assert e in s2.gate.events && s2.gate.events[e] == NotReady(sa);
    assert deps != {} && (deps - {sa} == {} <==> deps == {sa});
  }

  /** An event that finds the service ready is ignored: it is only seen. */
  lemma ReadyIgnoresEvent(s: State, e: nat, sa: Ability)
    requires s.inited && e !in s.gate.events
    ensures Run(s, OneEvent(e, sa))
         == s.(gate := s.gate.(events := s.gate.events[e := Ignored], seen := s.gate.seen + {sa}))
  {
    RunThree(s, EventArrives(e, sa), EventReadsReady(e), EventErases(e));
    hide Run;
    var s1 := Next(s, EventArrives(e, sa));
    var s2 := Next(s1, EventReadsReady(e));
    assert s2.gate.events == s.gate.events[e := Ignored];
    assert Next(s2, EventErases(e)) == s2;
  }

  function EventRun(): seq<Step> {
    OneEvent(0, SoftBus) + OneEvent(1, KvData) + OneEvent(2, DeviceManager) + OneEvent(3, Account)
    + OneEvent(4, MemoryManager)
  }

  /** The five abilities arrive one after the other. */
  lemma EventsPrepare(s: State)
    requires Awaiting(s, DEPENDENCIES, 0)
    ensures var s' := Run(s, EventRun()); s' == s.(gate := s'.gate, init := Preparing)
  {
    hide Run, Next, OneEvent;
    var a, b, c, d, e := OneEvent(0, SoftBus), OneEvent(1, KvData), OneEvent(2, DeviceManager), OneEvent(3, Account),
                         OneEvent(4, MemoryManager);
    RunAppend(s, a + b + c + d, e);
    RunAppend(s, a + b + c, d);
    RunAppend(s, a + b, c);
    RunAppend(s, a, b);
    var after1 := {KvData, DeviceManager, Account, MemoryManager};
    var after2, after3 := {DeviceManager, Account, MemoryManager}, {Account, MemoryManager};
    assert DEPENDENCIES - {SoftBus} == after1 && after1 - {KvData} == after2;
    assert after2 - {DeviceManager} == after3 && after3 - {Account} == {MemoryManager};
    EventErased(s, 0, SoftBus, DEPENDENCIES);
    var s1 := Run(s, a);
    EventErased(s1, 1, KvData, after1);
    var s2 := Run(s1, b);
    EventErased(s2, 2, DeviceManager, after2);
    var s3 := Run(s2, c);
    EventErased(s3, 3, Account, after3);
    var s4 := Run(s3, d);
    EventErased(s4, 4, MemoryManager, {MemoryManager});
  }

  lemma OneItemAccepted(it: Item, localUdid: string)
    requires ItemValid(it, localUdid)
    ensures Verdict([it], [false], localUdid) == DP_SUCCESS
  {
    hide ItemValid;
    ScanValid([it], [false], localUdid);
  }

  // ---------------------------------------------------------------- a failed initialisation

  /** Once initialisation has failed, no continuation hands over or stores anything. */
  lemma FailedStoresNothing(localUdid: string, steps: seq<Step>, more: seq<Step>)
    requires Run(Start(localUdid), steps).init.Failed?
    ensures var s := Run(Run(Start(localUdid), steps), more);
            s.init.Failed? && !s.inited && s.cache.handed.None? && s.cache.stored.None?
  {
    hide Run, Next, LockInv, GateInv, AnswerInv, LoggedEntries, LoggedSwitches, Overlay;
    Reachable(localUdid, steps);
    Lasts(Run(Start(localUdid), steps), more);
    RunKept(Run(Start(localUdid), steps), more);
  }

  /** And puts are still acknowledged: in this run after the failure. */
  lemma AcknowledgedAfterFailure(localUdid: string, it: Item)
    requires ItemValid(it, localUdid)
    ensures var s := Run(Start(localUdid), EventRun() + [InitPrepares(false)] + PutRun(0, [it], [false]));
            s.init.Failed? && 0 in s.callers && s.callers[0] == Cached([it], DP_SUCCESS)
  {
    hide Run, PutRun, EventRun, Verdict, ItemValid;
    RunAppend(Start(localUdid), EventRun() + [InitPrepares(false)], PutRun(0, [it], [false]));
    RunAppend(Start(localUdid), EventRun(), [InitPrepares(false)]);
    EventsPrepare(Start(localUdid));
    RunOne(Run(Start(localUdid), EventRun()), InitPrepares(false));
    OneItemAccepted(it, localUdid);
    PutAcknowledged(Run(Start(localUdid), EventRun() + [InitPrepares(false)]), 0, [it], [false]);
  }

  // ---------------------------------------------------------------- an overwritten entry

  /** The hand-over of a batch that succeeds at once, while the manager holds puts of its own. */
  function HandOverRun(held: Store): seq<Step> {
    [InitPrepares(true), InitStep(false, false, map[]), InitStep(false, false, map[])]
    + [InitStep(false, true, held), InitStep(false, false, map[]), InitStep(false, false, map[])]
  }

  lemma HandedAtOnce(s: State, held: Store)
    requires s.init.Preparing? && s.lock.None? && s.cache.handed.None?
    ensures var s' := Run(s, HandOverRun(held));
            && s'.inited && s'.callers == s.callers && s'.cache.log == s.cache.log
            && s'.cache.stored == Some(s.cache.dyn + held)
  {
    var a, b := HandOverRun(held)[..3], HandOverRun(held)[3..];
    RunAppend(s, a, b);
    assert a == [InitPrepares(true), InitStep(false, false, map[]), InitStep(false, false, map[])];
    assert b == [InitStep(false, true, held), InitStep(false, false, map[]), InitStep(false, false, map[])];
    RunThree(s, a[0], a[1], a[2]);
    RunThree(Run(s, a), b[0], b[1], b[2]);
    hide Run;
    DrainsFirst(s);
    SavesAtOnce(Run(s, a), held);
    assert a + b == HandOverRun(held);
  }

  lemma DrainsFirst(s: State)
    requires s.init.Preparing? && s.lock.None?
    ensures var s' := Next(Next(Next(s, InitPrepares(true)), InitStep(false, false, map[])),
                           InitStep(false, false, map[]));
            && s'.init == Saving(s.cache.dyn, WRTE_CACHE_PROFILE_RETRY_TIMES) && s'.callers == s.callers
            && s'.cache.log == s.cache.log && s'.cache.handed == s.cache.handed
  {
    var s1 := Next(s, InitPrepares(true));
    assert s1 == s.(lock := Some(Initialiser), init := DrainSwitches);
    var s2 := Next(s1, InitStep(false, false, map[]));
    assert s2.init == Snapshot && s2.cache.dyn == s.cache.dyn && s2.cache.log == s.cache.log;
  }

  lemma SavesAtOnce(s: State, held: Store)
    requires s.init.Saving?
    ensures var s' := Next(Next(Next(s, InitStep(false, true, held)), InitStep(false, false, map[])),
                           InitStep(false, false, map[]));
            && s'.inited && s'.callers == s.callers && s'.cache.log == s.cache.log
            && s'.cache.stored == Some(s.init.entries + held)
  {
    var s1 := Next(s, InitStep(false, true, held));
    assert s1.init == Clearing && s1.cache.stored == Some(s.init.entries + held);
    var s2 := Next(s1, InitStep(false, false, map[]));
    assert s2.init == Publishing && s2.cache.stored == s1.cache.stored;
  }

  /** An early put is acknowledged and handed over with its own value, and stored with the manager's. */
  lemma AcknowledgedOverwritten(localUdid: string, it: Item, k: string, v: string)
    requires ItemValid(it, localUdid) && !IsSwitch(it) && k in ItemEntries(it, map[])
    ensures var s := Run(Start(localUdid), PutRun(0, [it], [false]) + EventRun() + HandOverRun(map[k := v]));
            && s.inited && 0 in s.callers && s.callers[0] == Cached([it], DP_SUCCESS)
            && s.cache.handed == Some(ItemEntries(it, map[]))
            && s.cache.stored == Some(ItemEntries(it, map[])[k := v])
  {
    hide Run, PutRun, EventRun, HandOverRun, Verdict, ItemValid, ItemEntries, IsSwitch, Next;
    var s0 := Start(localUdid);
    var a, b, c := PutRun(0, [it], [false]), EventRun(), HandOverRun(map[k := v]);
    RunAppend(s0, a + b, c);
    RunAppend(s0, a, b);
    OneItemAccepted(it, localUdid);
    PutAcknowledged(s0, 0, [it], [false]);
    EventsPrepare(Run(s0, a));
    HandedAtOnce(Run(s0, a + b), map[k := v]);
    Reachable(localUdid, a + b);
    Reachable(localUdid, a + b + c);
    OneLogged(it);
    assert ItemEntries(it, map[]) + map[k := v] == ItemEntries(it, map[])[k := v];
  }

  lemma OneLogged(it: Item)
    requires !IsSwitch(it)
    ensures LoggedEntries([] + [[it]]) == ItemEntries(it, map[])
  {
    hide ItemEntries, IsSwitch;
    LogGrows([], [it]);
    assert [it][1..] == [];
    assert map[] + ItemEntries(it, map[]) == ItemEntries(it, map[]);
  }
}
