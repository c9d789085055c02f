/** Nothing in the life of a pool waits for ever: its constructor returns, its callers are served,
    its destructor gets as far as the kill flag and from there to its end. */
module ThreadPoolProgress {
  import opened ThreadPool
  import opened ThreadPoolInvariant
  import opened ThreadPoolTheorems

  /** A run from here to there */
  ghost predicate Leads(s: State, es: seq<Event>, r: State) {
    Runs(s, es) && After(s, es) == r
  }

  lemma StepThen(s: State, e: Event, es: seq<Event>, r: State)
    requires Enabled(s, e) && Leads(Step(s, e), es, r)
    ensures Leads(s, [e] + es, r)
  {
    assert ([e] + es)[1..] == es;
  }

  lemma StepsHere(s: State)
    ensures Leads(s, [], s)
  {
  }

  // ---------- Construction ----------

  /** The constructor sleeps only if it has read a count that is too low. */
  ghost predicate YieldInv(s: State) {
    s.owner.Yielding? ==> s.running != |s.workers|
  }

  lemma YieldStep(s: State, e: Event)
    requires Inv(s) && YieldInv(s) && Enabled(s, e)
    ensures YieldInv(Step(s, e))
  {
  }

  lemma {:induction false} YieldRun(s: State, es: seq<Event>)
    requires Inv(s) && YieldInv(s) && Runs(s, es)
    ensures YieldInv(After(s, es))
    decreases |es|
  {
    if es != [] {
      YieldStep(s, es[0]);
      StepInv(s, es[0]);
      YieldRun(Step(s, es[0]), es[1..]);
    }
  }

  lemma SomeUncounted(s: State) returns (i: nat)
    requires Inv(s) && s.owner.Yielding? && s.running != |s.workers|
    ensures i < |s.workers| && s.workers[i].Born?
  {
    TotalFull(s.workers, Live);
    i :| 0 <= i < |s.workers| && Live(s.workers[i]) != 1;
  }

  /** So whenever the constructor sleeps, a worker that has not counted itself can take the lock as
      soon as the constructor has released it. */
  lemma SleepHasReason(n: Size, s: State) returns (i: nat)
    requires Reachable(n, s) && s.owner.Yielding?
    ensures i < n && s.workers[i].Born? && Enabled(s, OwnerStep) && Enabled(Step(s, OwnerStep), WorkerStep(i))
  {
    ReachableInv(n, s);
    var es :| Runs(Init(n), es) && After(Init(n), es) == s;
    InitInv(n);
    YieldRun(Init(n), es);
    i := SomeUncounted(s);
  }

  /** Once every worker has counted itself and waits, three steps of the owner end the constructor. */
  lemma ThreeStepsToReady(s: State)
    requires Inv(s) && s.owner.Relocking? && s.lock.Free?
    requires forall i :: 0 <= i < |s.workers| ==> s.workers[i].Waiting? || s.workers[i].Woken?
    ensures Runs(s, [OwnerStep, OwnerStep, OwnerStep]) && After(s, [OwnerStep, OwnerStep, OwnerStep]).owner.Ready?
  {
    TotalFull(s.workers, Live);
    var s1 := Step(s, OwnerStep);
    var s2 := Step(s1, OwnerStep);
    var s3 := Step(s2, OwnerStep);
    assert s3.owner.Ready?;
    StepsHere(s3);
    StepThen(s2, OwnerStep, [], s3);
    StepThen(s1, OwnerStep, [OwnerStep], s3);
    StepThen(s, OwnerStep, [OwnerStep, OwnerStep], s3);
    assert [OwnerStep] + [] == [OwnerStep];
    assert [OwnerStep] + [OwnerStep] == [OwnerStep, OwnerStep];
    assert [OwnerStep] + [OwnerStep, OwnerStep] == [OwnerStep, OwnerStep, OwnerStep];
  }

  /** Steps a worker still takes until it waits, while nothing can be dispatched. */
  function StepsToWait(w: Worker): nat {
    match w
    case Unborn => 4
    case Born => 4
    case Woken => 4
    case Counting => 3
    case Scanning => 3
    case Testing => 2
    case Entering => 1
    case _ => 0
  }

  /** Steps the constructor still takes, but for its sleeps. */
  function OwnerToReady(o: Owner, n: nat): nat {
    match o
    case Locking => 4 + n
    case Spawning(i) => if i < n then 3 + n - i else 3
    case Relocking => 3
    case Checking => 2
    case Yielding => 1
    case Opening => 1
    case _ => 0
  }

  function BuildWork(s: State): nat {
    Total(s.workers, StepsToWait) + OwnerToReady(s.owner, |s.workers|)
  }

  /** A sleep puts the constructor back by two, a spurious wakeup a worker by four; each is itself
      one step more. */
  function BuildPrice(s: State, e: Event): nat {
    if s.owner.Yielding? && e.OwnerStep? then 3 else if e.Spurious? then 5 else 0
  }

  lemma BuildWorker(s: State, i: nat)
    requires Inv(s) && Constructing(s.owner) && i < |s.workers| && WorkerEnabled(s, i)
    ensures StepsToWait(WorkerNext(s, i).workers[i]) < StepsToWait(s.workers[i])
    ensures BuildWork(WorkerNext(s, i)) < BuildWork(s) && WorkerNext(s, i).owner == s.owner
    ensures Total(WorkerNext(s, i).workers, StepsToWait) < Total(s.workers, StepsToWait)
  {
    WorkerMoves(s, i, StepsToWait);
  }

  lemma BuildOwner(s: State)
    requires Inv(s) && Constructing(s.owner) && OwnerEnabled(s)
    ensures Total(OwnerNext(s).workers, StepsToWait) == Total(s.workers, StepsToWait)
    ensures |OwnerNext(s).workers| == |s.workers|
    ensures OwnerToReady(OwnerNext(s).owner, |s.workers|) + 1 <=
            OwnerToReady(s.owner, |s.workers|) + if s.owner.Yielding? then 3 else 0
  {
    if s.owner.Spawning? && s.owner.i < |s.workers| {
      TotalUpdate(s.workers, StepsToWait, s.owner.i, Born);
    }
  }

  /** Nothing can be dispatched, and the destructor cannot be called, before the constructor returns. */
  lemma OnlyBuilders(s: State, e: Event)
    requires Inv(s) && Constructing(s.owner) && Enabled(s, e)
    ensures e.OwnerStep? || e.WorkerStep? || e.Spurious?
  {
  }

  lemma BuildSpurious(s: State, i: nat)
    requires i < |s.workers| && s.workers[i].Waiting?
    ensures BuildWork(Step(s, Spurious(i))) == BuildWork(s) + 4
  {
    TotalUpdate(s.workers, StepsToWait, i, Woken);
  }

  lemma OwnerBuilds(s: State)
    requires Inv(s) && Constructing(s.owner) && OwnerEnabled(s)
    ensures Constructing(OwnerNext(s).owner) || OwnerNext(s).owner.Ready?
  {
  }

  /** Until the constructor returns, every step lowers what is left of the construction, but for
      sleeps and spurious wakeups, which raise it by no more than their price. */
  lemma BuildPaid(s: State, e: Event)
    requires Inv(s) && Constructing(s.owner) && Enabled(s, e)
    ensures BuildWork(Step(s, e)) + 1 <= BuildWork(s) + BuildPrice(s, e)
    ensures Constructing(Step(s, e).owner) || Step(s, e).owner.Ready?
  {
    OnlyBuilders(s, e);
    if e.OwnerStep? {
      BuildOwner(s);
      OwnerBuilds(s);
    } else if e.WorkerStep? {
      BuildWorker(s, e.i);
    } else {
      BuildSpurious(s, e.i);
    }
  }

  /** What the sleeps and the spurious wakeups of a run cost */
  function BuildCost(s: State, es: seq<Event>): nat
    requires Runs(s, es)
    decreases |es|
  {
    if es == [] then 0 else BuildPrice(s, es[0]) + BuildCost(Step(s, es[0]), es[1..])
  }

  /** Constructing before every step of the run */
  ghost predicate Building(s: State, es: seq<Event>)
    requires Runs(s, es)
    decreases |es|
  {
    es == [] || (Constructing(s.owner) && Building(Step(s, es[0]), es[1..]))
  }

  /** A run before the constructor returns is no longer than the work of the construction and the
      prices of its sleeps and spurious wakeups. */
  lemma {:induction false} BuildBounds(s: State, es: seq<Event>)
    requires Inv(s) && Runs(s, es) && Building(s, es)
    ensures |es| + BuildWork(After(s, es)) <= BuildWork(s) + BuildCost(s, es)
    decreases |es|
  {
    if es != [] {
      BuildPaid(s, es[0]);
      StepInv(s, es[0]);
      BuildBounds(Step(s, es[0]), es[1..]);
    }
  }

  lemma HolderIsWorker(s: State)
    requires Inv(s) && Constructing(s.owner) && !OwnerEnabled(s)
    ensures s.lock.ByWorker? && s.lock.i < |s.workers| && WorkerEnabled(s, s.lock.i)
  {
  }

  /** From everywhere in the construction a run leads to its end. */
  lemma {:induction false} ReadyComes(s: State) returns (es: seq<Event>)
    requires Inv(s) && YieldInv(s) && Constructing(s.owner)
    ensures Runs(s, es) && After(s, es).owner.Ready?
    decreases Total(s.workers, StepsToWait), OwnerToReady(s.owner, |s.workers|), 0
  {
    if s.owner.Yielding? {
      es := ReadyAfterSleep(s);
    } else if OwnerEnabled(s) {
      BuildOwner(s);
      OwnerBuilds(s);
      es := ReadyAfter(s, OwnerStep);
    } else {
      HolderIsWorker(s);
      BuildWorker(s, s.lock.i);
      es := ReadyAfter(s, WorkerStep(s.lock.i));
    }
  }

  lemma {:induction false} ReadyAfter(s: State, e: Event) returns (es: seq<Event>)
    requires Inv(s) && YieldInv(s) && Enabled(s, e)
    requires Constructing(Step(s, e).owner) || Step(s, e).owner.Ready?
    ensures Runs(s, es) && After(s, es).owner.Ready?
    decreases Total(Step(s, e).workers, StepsToWait), OwnerToReady(Step(s, e).owner, |Step(s, e).workers|), 1
  {
    var next := Step(s, e);
    StepInv(s, e);
    YieldStep(s, e);
    var rest := [];
    if Constructing(next.owner) {
      rest := ReadyComes(next);
    }
    es := [e] + rest;
    StepThen(s, e, rest, After(next, rest));
  }

  lemma {:induction false} ReadyAfterSleep(s: State) returns (es: seq<Event>)
    requires Inv(s) && YieldInv(s) && s.owner.Yielding?
    ensures Runs(s, es) && After(s, es).owner.Ready?
    decreases Total(s.workers, StepsToWait), 0
  {
    var i := SomeUncounted(s);
    var next := Step(s, OwnerStep);
    StepInv(s, OwnerStep);
    YieldStep(s, OwnerStep);
    BuildWorker(next, i);
    var rest := ReadyAfter(next, WorkerStep(i));
    es := [OwnerStep] + rest;
    StepThen(s, OwnerStep, rest, After(next, rest));
  }

  /** Every pool can be built: from every state that the construction can reach, its end can be. */
  lemma ConstructorReturns(n: Size, s: State) returns (es: seq<Event>)
    requires Reachable(n, s) && Constructing(s.owner)
    ensures Runs(s, es) && After(s, es).owner.Ready?
  {
    ReachableInv(n, s);
    var before :| Runs(Init(n), before) && After(Init(n), before) == s;
    InitInv(n);
    YieldRun(Init(n), before);
    es := ReadyComes(s);
  }

  /** Of every size that fits into 32 bits */
  lemma EveryPoolOpens(n: nat)
    requires n < 4294967296
    ensures exists s :: Reachable(n, s) && s.owner.Ready?
  {
    StepsHere(Init(n));
    assert Runs(Init(n), []) && After(Init(n), []) == Init(n);
    var es := ConstructorReturns(n, Init(n));
    assert Reachable(n, After(Init(n), es));
  }

  // ---------- Calls and wakeups that may happen ----------

  /** A caller that may call dispatch is served once the lock is free: its task goes to the end of
      the queue, the chosen waiters are woken, and the lock is released. */
  lemma DispatchServes(s: State, t: Task, from: Caller, chosen: set<nat>)
    requires Inv(s) && s.lock.Free? && Signals(s.workers, chosen)
    requires match from
      case Client => s.owner.Ready? || s.owner.Closing?
      case InWorker(i) => i < |s.workers| && s.workers[i].Running?
      case InDrain => s.owner.DrainRunning?
    ensures Leads(s, [Begin(t, from), CallStep({}), CallStep(chosen), CallStep({})],
                  s.(queue := s.queue + [t], dispatched := s.dispatched + [t], workers := WakeSome(s.workers, chosen)))
  {
    var s1 := Step(s, Begin(t, from));
    var s2 := Step(s1, CallStep({}));
    var s3 := Step(s2, CallStep(chosen));
    var s4 := Step(s3, CallStep({}));
    StepsHere(s4);
    StepThen(s3, CallStep({}), [], s4);
    StepThen(s2, CallStep(chosen), [CallStep({})], s4);
    StepThen(s1, CallStep({}), [CallStep(chosen), CallStep({})], s4);
    StepThen(s, Begin(t, from), [CallStep({}), CallStep(chosen), CallStep({})], s4);
    assert [CallStep({})] + [] == [CallStep({})];
    assert [CallStep(chosen)] + [CallStep({})] == [CallStep(chosen), CallStep({})];
    assert [CallStep({})] + [CallStep(chosen), CallStep({})] == [CallStep({}), CallStep(chosen), CallStep({})];
    assert [Begin(t, from)] + [CallStep({}), CallStep(chosen), CallStep({})] ==
           [Begin(t, from), CallStep({}), CallStep(chosen), CallStep({})];
  }

  /** A signal may wake any waiters, as long as it wakes one if there is one; and any waiter may
      wake without a signal. */
  lemma WakeupsMayHappen(s: State, chosen: set<nat>)
    requires forall i :: i in chosen ==> i < |s.workers| && s.workers[i].Waiting?
    ensures s.call.Signalling? ==>
      (Enabled(s, CallStep(chosen)) <==>
        chosen != {} || forall i :: 0 <= i < |s.workers| ==> !s.workers[i].Waiting?)
    ensures forall i :: i in chosen ==> Enabled(s, Spurious(i)) && Step(s, Spurious(i)).workers[i].Woken?
    ensures forall i :: 0 <= i < |s.workers| ==>
      WakeSome(s.workers, chosen)[i] == if i in chosen then Woken else s.workers[i]
  {
    if forall i :: 0 <= i < |s.workers| ==> !s.workers[i].Waiting? {
      assert Waiters(s.workers) == {};
    } else {
      var i :| 0 <= i < |s.workers| && s.workers[i].Waiting?;
      assert i in Waiters(s.workers);
    }
  }

  // ---------- From the destructor's call to the kill flag ----------

  predicate Ending(o: Owner) {
    o.Closing? || o.Snapping? || o.Killing?
  }

  /** The steps that the holder of the lock takes before it lets go of it */
  function StepsToRelease(s: State): nat {
    match s.lock
    case Free => 0
    case ByOwner => 0
    case ByWorker(i) => if i < |s.workers| then WorkerToRelease(s.workers[i]) else 0
    case ByCaller => if s.call.Pushing? then 3 else if s.call.Signalling? then 2 else 1
  }

  function WorkerToRelease(w: Worker): nat {
    match w
    case Counting => 4
    case Scanning => 4
    case Testing => 3
    case Taking => 2
    case Leaving => 2
    case Entering => 1
    case Releasing(_) => 1
    case Unlocking => 1
    case _ => 0
  }

  /** The next step of the worker or the call that holds the lock */
  function HolderStep(s: State): Event {
    if s.lock.ByWorker? then WorkerStep(s.lock.i) else CallStep(Waiters(s.workers))
  }

  /** Whoever holds the lock, but for the owner, can take its next step, and lets go of the lock
      after at most four. */
  lemma HolderReleases(s: State)
    requires Inv(s) && (s.lock.ByWorker? || s.lock.ByCaller?)
    ensures StepsToRelease(s) <= 4 && Enabled(s, HolderStep(s)) && Step(s, HolderStep(s)).owner == s.owner
    ensures StepsToRelease(Step(s, HolderStep(s))) < StepsToRelease(s)
    ensures !Step(s, HolderStep(s)).lock.ByOwner?
  {
  }

  function OwnerToKill(o: Owner): nat {
    match o
    case Closing => 3
    case Snapping => 2
    case Killing => 1
    case _ => 0
  }

  /** From the destructor's call on, at most seven steps can lead to the kill flag. */
  lemma {:induction false} KillComes(s: State) returns (es: seq<Event>)
    requires Inv(s) && Ending(s.owner)
    ensures Runs(s, es) && After(s, es).kill && |es| <= StepsToRelease(s) + OwnerToKill(s.owner)
    decreases OwnerToKill(s.owner), StepsToRelease(s)
  {
    var e := if OwnerEnabled(s) then OwnerStep else HolderStep(s);
    if !OwnerEnabled(s) {
      HolderReleases(s);
    }
    var next := Step(s, e);
    StepInv(s, e);
    var rest := [];
    if !next.kill {
      rest := KillComes(next);
    }
    es := [e] + rest;
    StepThen(s, e, rest, After(next, rest));
  }

  lemma DestructorGetsGoing(n: Size, s: State) returns (es: seq<Event>)
    requires Reachable(n, s) && s.owner.Ready?
    ensures Runs(s, es) && After(s, es).kill && 0 < |es| <= 8 && es[0] == Destroy
  {
    ReachableInv(n, s);
    var next := Step(s, Destroy);
    StepInv(s, Destroy);
    if next.lock.ByWorker? || next.lock.ByCaller? {
      HolderReleases(next);
    }
    var rest := KillComes(next);
    es := [Destroy] + rest;
    StepThen(s, Destroy, rest, After(next, rest));
  }

  /** The work left before the kill flag, the destructor's own three steps included */
  function EndingWork(s: State): nat {
    Work(s) + OwnerToKill(s.owner)
  }

  lemma EndingWorker(s: State, i: nat)
    requires Inv(s) && !s.kill && !Constructing(s.owner) && i < |s.workers| && WorkerEnabled(s, i)
    ensures Work(WorkerNext(s, i)) < Work(s)
  {
    WorkerMoves(s, i, Steps);
  }

  lemma EndingCall(s: State, chosen: set<nat>)
    requires !s.call.Idle?
    ensures Work(CallNext(s, chosen)) < Work(s) && CallNext(s, chosen).owner == s.owner
  {
    WakeBound(s.workers, chosen);
  }

  lemma EndingOwner(s: State)
    requires Ending(s.owner) && OwnerEnabled(s)
    ensures EndingWork(OwnerNext(s)) < EndingWork(s)
    ensures Ending(OwnerNext(s).owner) || OwnerNext(s).kill
  {
  }

  lemma EndingPaid(s: State, e: Event)
    requires Inv(s) && Ending(s.owner) && Enabled(s, e)
    ensures EndingWork(Step(s, e)) + 1 <= EndingWork(s) + Price(e, |s.workers|)
    ensures Ending(Step(s, e).owner) || Step(s, e).kill
  {
    if e.OwnerStep? {
      EndingOwner(s);
    } else if e.WorkerStep? {
      EndingWorker(s, e.i);
    } else if e.CallStep? {
      EndingCall(s, e.chosen);
    } else if e.Spurious? {
      TotalUpdate(s.workers, Steps, e.i, Woken);
    }
  }

  /** Until the kill flag is set, a run of the destructor is no longer than the work there was, its
      three steps, and the prices of new calls and spurious wakeups. */
  lemma {:induction false} EndingBounds(s: State, es: seq<Event>)
    requires Inv(s) && Ending(s.owner) && Runs(s, es) && !After(s, es).kill
    ensures |es| + EndingWork(After(s, es)) <= EndingWork(s) + Cost(es, |s.workers|)
    decreases |es|
  {
    if es != [] {
      EndingPaid(s, es[0]);
      StepInv(s, es[0]);
      SameSize(s, es[0]);
      if Step(s, es[0]).kill {
        KillLasts(Step(s, es[0]), es[1..]);
      } else {
        EndingBounds(Step(s, es[0]), es[1..]);
      }
    }
  }

  lemma {:induction false} KillLasts(s: State, es: seq<Event>)
    requires s.kill && Runs(s, es)
    ensures After(s, es).kill
    decreases |es|
  {
    if es != [] {
      KillStays(s, es[0]);
      KillLasts(Step(s, es[0]), es[1..]);
    }
  }

  // ---------- From the kill flag to the destructor's return ----------

  lemma {:induction false} DoneComes(s: State) returns (es: seq<Event>)
    requires Inv(s) && s.kill
    ensures Runs(s, es) && After(s, es).owner.Done? && |es| <= ShutdownWork(s)
    decreases ShutdownWork(s)
  {
    if s.owner.Done? {
      return [];
    }
    ShutdownNeverStuck(s);
    var e: Event :| !e.Begin? && Enabled(s, e);
    ShutdownWorkFalls(s, e);
    KillStays(s, e);
    StepInv(s, e);
    var rest := DoneComes(Step(s, e));
    es := [e] + rest;
    StepThen(s, e, rest, After(Step(s, e), rest));
  }

  /** Every pool in use can be destroyed: a run leads to the destructor's return. */
  lemma EveryPoolCloses(n: Size, s: State) returns (es: seq<Event>)
    requires Reachable(n, s) && s.owner.Ready?
    ensures Runs(s, es) && After(s, es).owner.Done?
  {
    var first := DestructorGetsGoing(n, s);
    ReachableInv(n, s);
    RunInv(s, first);
    var rest := DoneComes(After(s, first));
    es := first + rest;
    LeadsOn(s, first, After(s, first), rest, After(After(s, first), rest));
  }

  lemma {:induction false} LeadsOn(s: State, es: seq<Event>, mid: State, fs: seq<Event>, r: State)
    requires Leads(s, es, mid) && Leads(mid, fs, r)
    ensures Leads(s, es + fs, r)
    decreases |es|
  {
    if es == [] {
      assert es + fs == fs;
    } else {
      FirstStep(s, es, mid);
      LeadsOn(Step(s, es[0]), es[1..], mid, fs, r);
      StepThen(s, es[0], es[1..] + fs, r);
      assert es + fs == [es[0]] + (es[1..] + fs);
    }
  }

  lemma FirstStep(s: State, es: seq<Event>, r: State)
    requires es != [] && Leads(s, es, r)
    ensures Enabled(s, es[0]) && Leads(Step(s, es[0]), es[1..], r)
  {
  }
}
