/** What the thread pool promises, for every number of workers, every interleaving, every
    choice of the scheduler and every sequence of calls. */
module ThreadPoolTheorems {
  import opened ThreadPool
  import opened ThreadPoolInvariant

  ghost predicate Reachable(n: Size, s: State) {
    exists es :: Runs(Init(n), es) && After(Init(n), es) == s
  }

  lemma ReachableInv(n: Size, s: State)
    requires Reachable(n, s)
    ensures Inv(s)
  {
    var es :| Runs(Init(n), es) && After(Init(n), es) == s;
    InitInv(n);
    RunInv(Init(n), es);
  }

  // ---------- Handshake and lock discipline ----------

  /** When the constructor has read the full count under the lock, every worker is inside
      pthread_cond_wait; from then on the destructor's snapshot can only be n. */
  lemma Handshake(n: Size, s: State)
    requires Reachable(n, s)
    ensures s.running == Total(s.workers, Live)
    ensures s.owner.Opening? ==> forall i :: 0 <= i < n ==> s.workers[i].Waiting? || s.workers[i].Woken?
    ensures s.owner.Killing? || s.kill ==> s.snap == n
    ensures s.owner.Done? ==> s.running == 0
  {
    ReachableInv(n, s);
    TotalZero(s.workers, Live);
  }

  /** The events that read or write the queue, the kill flag or the live count. */
  predicate Touches(s: State, e: Event) {
    match e
    case OwnerStep => s.owner.Checking? || s.owner.Snapping? || s.owner.Killing? || s.owner.Draining?
    case WorkerStep(i) => i < |s.workers| && (var w := s.workers[i];
      w.Counting? || w.Testing? || w.Scanning? || w.Taking? || w.Leaving?)
    case CallStep(_) => s.call.Pushing?
    case _ => false
  }

  function HolderOf(e: Event): Holder {
    match e
    case WorkerStep(i) => ByWorker(i)
    case Spurious(i) => ByWorker(i)
    case Begin(_, _) => ByCaller
    case CallStep(_) => ByCaller
    case _ => ByOwner
  }

  function Shared(s: State, queue: seq<Task>, kill: bool, running: nat): State {
    s.(queue := queue, kill := kill, running := running)
  }

  /** Touches leaves nothing out: any other step neither changes the shared fields nor depends
      on them. */
  lemma UntouchedIsBlind(s: State, e: Event, queue: seq<Task>, kill: bool, running: nat)
    requires Enabled(s, e) && !Touches(s, e)
    ensures Enabled(Shared(s, queue, kill, running), e)
    ensures Step(Shared(s, queue, kill, running), e) == Shared(Step(s, e), queue, kill, running)
    ensures Step(s, e).queue == s.queue && Step(s, e).kill == s.kill && Step(s, e).running == s.running
  {
  }

  /** Every access to a shared field is made by the thread that holds the lock, except the final
      drain, when no worker is alive and no call is in progress. */
  lemma LockDiscipline(n: Size, s: State, e: Event)
    requires Reachable(n, s) && Enabled(s, e) && Touches(s, e)
    ensures s.lock == HolderOf(e) ||
            (s.owner.Draining? && e.OwnerStep? && s.call.Idle? &&
             forall i :: 0 <= i < n ==> s.workers[i].Dead?)
  {
    ReachableInv(n, s);
  }

  // ---------- No lost wakeup ----------

  lemma SomeAwake(ws: seq<Worker>)
    requires Total(ws, Awake) > 0
    ensures exists i :: 0 <= i < |ws| && Awake(ws[i]) == 1
  {
    TotalZero(ws, Awake);
  }

  /** While a worker is left waiting, every queued task is matched by a worker on its way to the
      queue (or by the signal that its dispatcher is about to send). */
  lemma NoLostWakeup(n: Size, s: State, i: nat)
    requires Reachable(n, s) && !s.kill && i < n && s.workers[i].Waiting?
    ensures |s.queue| <= Total(s.workers, Awake) + if s.call.Signalling? then 1 else 0
  {
    ReachableInv(n, s);
    assert i in Waiters(s.workers);
  }

  /** Hence, until the kill flag is set, a queue that its dispatchers have left non-empty always has
      a worker that is not waiting: one that is running a task, or on its way to the queue. */
  lemma NoIdleBesideWork(n: Size, s: State)
    requires Reachable(n, s) && n > 0 && !s.kill && s.queue != [] && !s.call.Signalling?
    ensures exists i :: 0 <= i < n && !s.workers[i].Waiting? && !s.workers[i].Unborn? && !s.workers[i].Dead?
  {
    ReachableInv(n, s);
    if s.workers[0].Waiting? {
      NoLostWakeup(n, s, 0);
      SomeAwake(s.workers);
    }
  }

  // ---------- Exactly once, first in first out ----------

  /** Started tasks followed by the queue are the dispatched tasks in order, and each start is
      in exactly one pair of hands or finished; with one worker they finish in that order. */
  lemma Fifo(n: Size, s: State, t: Task)
    requires Reachable(n, s)
    ensures s.dispatched == s.started + s.queue
    ensures Accounted(s, t)
    ensures n <= 1 ==> s.finished <= s.dispatched
  {
    ReachableInv(n, s);
    assert HandInv(s);
  }

  /** When the destructor has returned, every dispatched task has run exactly once. */
  lemma ExactlyOnce(n: Size, s: State)
    requires Reachable(n, s) && s.owner.Done?
    ensures s.queue == [] && s.started == s.dispatched
    ensures multiset(s.finished) == multiset(s.dispatched)
    ensures n <= 1 ==> s.finished == s.dispatched
    ensures forall i :: 0 <= i < n ==> s.workers[i].Dead?
  {
    ReachableInv(n, s);
    AllFinished(s);
  }

  lemma AllFinished(s: State)
    requires HandInv(s) && OwnerInHand(s.owner) == []
    requires forall i :: 0 <= i < |s.workers| ==> InHand(s.workers[i]) == []
    ensures multiset(s.finished) == multiset(s.started)
  {
    forall t: Task ensures multiset(s.finished)[t] == multiset(s.started)[t] {
      assert Accounted(s, t);
      TotalZero(s.workers, Holding(t));
    }
  }

  // ---------- The pool makes progress ----------

  /** An upper bound on the steps a worker still takes before it waits, if the queue is left alone. */
  function Steps(w: Worker): nat {
    match w
    case Waiting => 0
    case Entering => 1
    case Testing => 2
    case Taking => 3
    case Scanning => 4
    case Woken => 5
    case Returning => 5
    case Running(_) => 6
    case Releasing(_) => 7
    case _ => 8
  }

  function CallSteps(c: Call, n: nat): nat {
    match c
    case Idle => 0
    case Exiting(_) => 1
    case Signalling(_) => 2 + 5 * n
    case Pushing(_, _) => 8 + 5 * n
  }

  function Work(s: State): nat {
    Total(s.workers, Steps) + 5 * |s.queue| + CallSteps(s.call, |s.workers|)
  }

  /** Steps of the pool itself: no new call, no spurious wakeup, no destructor. */
  predicate Internal(e: Event) {
    e.WorkerStep? || e.CallStep?
  }

  /** How much a step that is not the pool's own may add to the work, itself included. */
  function Price(e: Event, n: nat): nat {
    match e
    case Begin(_, _) => 9 + 5 * n
    case Spurious(_) => 6
    case _ => 0
  }

  function Cost(es: seq<Event>, n: nat): nat {
    if es == [] then 0 else Price(es[0], n) + Cost(es[1..], n)
  }

  lemma {:induction false} WakeBound(ws: seq<Worker>, chosen: set<nat>)
    ensures Total(WakeSome(ws, chosen), Steps) <= Total(ws, Steps) + 5 * |ws|
  {
    if ws != [] {
      var last := |ws| - 1;
      assert WakeSome(ws, chosen)[..last] == WakeSome(ws[..last], chosen);
      WakeBound(ws[..last], chosen);
    }
  }

  lemma WorkerWorkFalls(s: State, i: nat)
    requires Inv(s) && s.owner.Ready? && i < |s.workers| && WorkerEnabled(s, i)
    ensures Work(WorkerNext(s, i)) < Work(s)
  {
    WorkerMoves(s, i, Steps);
  }

  lemma WorkFalls(s: State, e: Event)
    requires Inv(s) && s.owner.Ready? && Internal(e) && Enabled(s, e)
    ensures Work(Step(s, e)) < Work(s) && Step(s, e).owner.Ready?
  {
    match e
    case WorkerStep(i) => WorkerWorkFalls(s, i);
    case CallStep(chosen) => WakeBound(s.workers, chosen);
  }

  /** While the pool is in use, a step lowers the work unless it is a new call or a spurious
      wakeup, and those raise it by no more than their price. */
  lemma WorkPaid(s: State, e: Event)
    requires Inv(s) && s.owner.Ready? && !e.Destroy? && Enabled(s, e)
    ensures Work(Step(s, e)) + 1 <= Work(s) + Price(e, |s.workers|) && Step(s, e).owner.Ready?
  {
    match e
    case Spurious(i) => TotalUpdate(s.workers, Steps, i, Woken);
    case Begin(_, _) =>
    case _ => WorkFalls(s, e);
  }

  lemma {:induction false} WorkBounds(s: State, es: seq<Event>)
    requires Inv(s) && s.owner.Ready? && Runs(s, es) && forall e :: e in es ==> !e.Destroy?
    ensures |es| + Work(After(s, es)) <= Work(s) + Cost(es, |s.workers|)
    ensures Inv(After(s, es)) && After(s, es).owner.Ready?
    decreases |es|
  {
    if es != [] {
      assert es[0] in es;
      WorkPaid(s, es[0]);
      StepInv(s, es[0]);
      SameSize(s, es[0]);
      WorkBounds(Step(s, es[0]), es[1..]);
    }
  }

  lemma SameSize(s: State, e: Event)
    requires Enabled(s, e)
    ensures |Step(s, e).workers| == |s.workers|
  {
  }

  ghost predicate Settled(s: State) {
    forall e :: Internal(e) ==> !Enabled(s, e)
  }

  lemma HolderCanStep(s: State)
    requires Inv(s)
    ensures s.lock.ByWorker? ==> Enabled(s, WorkerStep(s.lock.i))
  {
  }

  lemma SettledIsIdle(s: State)
    requires Inv(s) && s.owner.Ready? && Settled(s)
    ensures s.call.Idle? && forall i :: 0 <= i < |s.workers| ==> s.workers[i].Waiting?
  {
    assert !Enabled(s, CallStep(Waiters(s.workers)));
    HolderCanStep(s);
    forall i | 0 <= i < |s.workers| ensures s.workers[i].Waiting? {
      assert !Enabled(s, WorkerStep(i));
    }
  }

  /** Whatever was dispatched gets done without shutting the pool down.  Any run, new calls and
      spurious wakeups included, is no longer than the work there was and the price of those two
      kinds of steps; and where the pool has no step of its own left to take, every task has run
      exactly once and every worker is waiting. */
  lemma EveryTaskRuns(n: Size, s: State, es: seq<Event>)
    requires Reachable(n, s) && n > 0 && s.owner.Ready?
    requires Runs(s, es) && forall e :: e in es ==> !e.Destroy?
    ensures |es| <= Work(s) + Cost(es, n)
    ensures Settled(After(s, es)) ==>
              var r := After(s, es);
              r.queue == [] && r.started == r.dispatched && multiset(r.finished) == multiset(r.dispatched) &&
              forall i :: 0 <= i < n ==> r.workers[i].Waiting?
  {
    ReachableInv(n, s);
    WorkBounds(s, es);
    if Settled(After(s, es)) {
      SettledIsFinished(After(s, es));
    }
  }

  lemma SettledIsFinished(r: State)
    requires Inv(r) && r.owner.Ready? && Settled(r) && r.workers != []
    ensures r.queue == [] && r.started == r.dispatched && multiset(r.finished) == multiset(r.dispatched)
    ensures forall i :: 0 <= i < |r.workers| ==> r.workers[i].Waiting?
  {
    SettledIsIdle(r);
    assert 0 in Waiters(r.workers);
    TotalZero(r.workers, Awake);
    AllFinished(r);
  }

  // ---------- Shutdown ----------

  /** Steps a worker still takes until it is dead, once the kill flag is set. */
  function StepsToDeath(w: Worker): nat {
    match w
    case Dead => 0
    case Unlocking => 1
    case Leaving => 2
    case Testing => 3
    case Scanning => 4
    case Woken => 5
    case Returning => 5
    case Waiting => 6
    case Running(_) => 6
    case _ => 7
  }

  function OwnerSteps(s: State): nat {
    match s.owner
    case Casting(i) => 2 + 4 * Left(s.snap, i)
    case Handing(i) => 1 + 4 * Left(s.snap, i)
    case Joining(i) => 4 * Left(s.snap, i)
    case Rejoining(i) => 4 * Left(s.snap, i) - if Left(s.snap, i) > 0 then 1 else 0
    case Freeing => 2
    case Draining => 1
    case DrainRunning(_) => 2
    case _ => 0
  }

  function Left(n: nat, i: nat): nat {
    if i < n then n - i else 0
  }

  function CallStepsLeft(c: Call): nat {
    match c
    case Idle => 0
    case Exiting(_) => 1
    case Signalling(_) => 2
    case Pushing(_, _) => 5
  }

  function ShutdownWork(s: State): nat {
    Total(s.workers, StepsToDeath) + OwnerSteps(s) + 2 * |s.queue| + CallStepsLeft(s.call)
  }

  /** No worker enters the wait once the kill flag is set, and each of its steps brings it
      nearer to its end. */
  lemma WorkerNearsDeath(s: State, i: nat)
    requires Inv(s) && s.kill && i < |s.workers| && WorkerEnabled(s, i)
    ensures !WorkerNext(s, i).workers[i].Waiting?
    ensures StepsToDeath(WorkerNext(s, i).workers[i]) < StepsToDeath(s.workers[i])
    ensures ShutdownWork(WorkerNext(s, i)) < ShutdownWork(s)
  {
    WorkerMoves(s, i, StepsToDeath);
  }

  lemma BroadcastNearsEnd(s: State)
    requires Inv(s) && s.owner.Casting?
    ensures ShutdownWork(OwnerNext(s)) < ShutdownWork(s)
  {
    TotalWake(s.workers, StepsToDeath, Waiters(s.workers));
  }

  lemma OwnerNearsEnd(s: State)
    requires Inv(s) && s.kill && OwnerEnabled(s)
    ensures ShutdownWork(OwnerNext(s)) < ShutdownWork(s)
  {
    if s.owner.Casting? {
      BroadcastNearsEnd(s);
    }
  }

  lemma CallNearsEnd(s: State, chosen: set<nat>)
    requires !s.call.Idle?
    ensures ShutdownWork(CallNext(s, chosen)) < ShutdownWork(s)
  {
    TotalWake(s.workers, StepsToDeath, chosen);
  }

  lemma ShutdownWorkFalls(s: State, e: Event)
    requires Inv(s) && s.kill && !e.Begin? && Enabled(s, e)
    ensures ShutdownWork(Step(s, e)) < ShutdownWork(s)
  {
    match e
    case OwnerStep => OwnerNearsEnd(s);
    case WorkerStep(i) => WorkerNearsDeath(s, i);
    case Spurious(i) => TotalUpdate(s.workers, StepsToDeath, i, Woken);
    case CallStep(chosen) => CallNearsEnd(s, chosen);
    case Destroy =>
  }

  /** The kill flag is never cleared. */
  lemma KillStays(s: State, e: Event)
    requires s.kill && Enabled(s, e)
    ensures Step(s, e).kill
  {
  }

  /** The first broadcast empties the wait set for good, whatever is still dispatched; the
      broadcasts of later rounds find nobody. */
  lemma {:induction false} FirstBroadcastIsEnough(s: State, es: seq<Event>)
    requires Inv(s) && s.kill && s.owner != Casting(0) && Runs(s, es)
    ensures Waiters(After(s, es).workers) == {}
    decreases |es|
  {
    if es != [] {
      KillStays(s, es[0]);
      StepInv(s, es[0]);
      FirstBroadcastIsEnough(Step(s, es[0]), es[1..]);
    }
  }

  /** How many calls of dispatch a run has */
  function Begins(es: seq<Event>): nat {
    if es == [] then 0 else (if es[0].Begin? then 1 else 0) + Begins(es[1..])
  }

  lemma {:induction false} ShutdownBounds(s: State, es: seq<Event>)
    requires Inv(s) && s.kill && Runs(s, es)
    ensures |es| + ShutdownWork(After(s, es)) <= ShutdownWork(s) + 6 * Begins(es)
    ensures Inv(After(s, es)) && After(s, es).kill
    decreases |es|
  {
    if es != [] {
      if !es[0].Begin? {
        ShutdownWorkFalls(s, es[0]);
      }
      KillStays(s, es[0]);
      StepInv(s, es[0]);
      ShutdownBounds(Step(s, es[0]), es[1..]);
    }
  }

  ghost predicate Halted(s: State) {
    forall e: Event :: !e.Begin? ==> !Enabled(s, e)
  }

  lemma WorkerCanStep(s: State, i: nat)
    requires Inv(s) && s.kill && s.owner != Casting(0) && s.lock.Free? && i < |s.workers| && !s.workers[i].Dead?
    ensures WorkerEnabled(s, i)
  {
  }

  /** Until the destructor has returned, some thread can always take its next step. */
  lemma ShutdownNeverStuck(s: State)
    requires Inv(s) && s.kill && !s.owner.Done?
    ensures !Halted(s)
  {
    if s.lock.ByWorker? {
      assert Enabled(s, WorkerStep(s.lock.i));
    } else if !s.call.Idle? {
      assert Enabled(s, CallStep(Waiters(s.workers)));
    } else if s.owner.Joining? && !s.workers[s.owner.i].Dead? {
      WorkerCanStep(s, s.owner.i);
      assert Enabled(s, WorkerStep(s.owner.i));
    } else {
      assert Enabled(s, OwnerStep);
    }
  }

  /** The destructor terminates and leaves nothing undone.  Any run after the kill flag is set is
      no longer than ShutdownWork(s) and six steps for each call that tasks still make; and the
      only place where no step but a new call is left is the destructor's return, with every
      worker dead, a live count of 0 and every dispatched task run exactly once. */
  lemma ShutdownCompletes(n: Size, s: State, es: seq<Event>)
    requires Reachable(n, s) && s.kill && Runs(s, es)
    ensures |es| <= ShutdownWork(s) + 6 * Begins(es)
    ensures Halted(After(s, es)) ==>
              var r := After(s, es);
              r.owner.Done? && r.running == 0 && r.queue == [] && r.started == r.dispatched &&
              multiset(r.finished) == multiset(r.dispatched) &&
              forall i :: 0 <= i < n ==> r.workers[i].Dead?
  {
    ReachableInv(n, s);
    ShutdownBounds(s, es);
    if Halted(After(s, es)) {
      HaltedIsDone(After(s, es));
    }
  }

  lemma HaltedIsDone(r: State)
    requires Inv(r) && r.kill && Halted(r)
    ensures r.owner.Done? && r.running == 0 && r.queue == [] && r.started == r.dispatched
    ensures multiset(r.finished) == multiset(r.dispatched)
    ensures forall i :: 0 <= i < |r.workers| ==> r.workers[i].Dead?
  {
    if !r.owner.Done? {
      ShutdownNeverStuck(r);
    }
    TotalZero(r.workers, Live);
    AllFinished(r);
  }
}
