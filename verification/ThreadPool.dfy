/** The thread pool as a step machine.  Every statement of the constructor, the destructor,
    `dispatch` and `thread_loop` that touches shared state is one step of one thread, and any
    enabled step of any thread may come next. */
module ThreadPool {

  /** The identity of a task object. */
  type Task = nat

  /** Where a worker is in `thread_loop`. */
  datatype Worker =
    | Unborn              // pthread_create has not been called for it
    | Born                // about to take the lock for the first time
    | Counting            // holds the lock, about to increment the live count
    | Testing             // holds the lock, about to test the kill flag of the outer loop
    | Entering            // holds the lock, about to call pthread_cond_wait
    | Waiting             // in the wait set
    | Woken               // out of the wait set, about to take the lock again
    | Scanning            // holds the lock, about to test the guard of the inner loop
    | Taking              // holds the lock, about to pop the queue
    | Releasing(t: Task)  // holds the lock and a task, about to release the lock
    | Running(t: Task)    // inside the function of task t, without the lock
    | Returning           // about to take the lock after a task
    | Leaving             // holds the lock, about to decrement the live count
    | Unlocking           // holds the lock, about to release it and return
    | Dead

  /** Where the thread that owns the pool is: constructor, normal life, destructor. */
  datatype Owner =
    | Locking             // constructor, about to take the lock
    | Spawning(i: nat)    // holds the lock, about to create thread i or to end the loop
    | Checking            // holds the lock, about to compare the live count
    | Yielding            // holds the lock, about to release it and sleep
    | Relocking           // about to take the lock again
    | Opening             // holds the lock, about to release it and return from the constructor
    | Ready               // the pool is in use
    | Closing             // destructor, about to take the lock
    | Snapping            // holds the lock, about to read the live count
    | Killing             // holds the lock, about to set the kill flag
    | Casting(i: nat)     // holds the lock, about to broadcast in round i
    | Handing(i: nat)     // holds the lock, about to release it in round i
    | Joining(i: nat)     // about to join thread i
    | Rejoining(i: nat)   // about to take the lock again after joining thread i
    | Freeing             // holds the lock, about to release it for the last time
    | Draining            // about to test the queue, without the lock
    | DrainRunning(t: Task)
    | Done

  /** Who calls `dispatch`: a client thread, or the body of a task. */
  datatype Caller = Client | InWorker(i: nat) | InDrain

  /** The call of `dispatch` that is past `pthread_mutex_lock`, if any.  Calls that still wait
      for the lock have had no effect. */
  datatype Call =
    | Idle
    | Pushing(t: Task, from: Caller)
    | Signalling(from: Caller)
    | Exiting(from: Caller)

  datatype Holder = Free | ByOwner | ByWorker(i: nat) | ByCaller

  datatype State = State(
    owner: Owner,
    workers: seq<Worker>,
    call: Call,
    lock: Holder,
    queue: seq<Task>,
    kill: bool,
    running: nat,           // num_threads_running_, 32 bits wide
    snap: nat,              // the destructor's local num_threads
    dispatched: seq<Task>,  // history: tasks in the order of push_back
    started: seq<Task>,     // history: tasks in the order of pop_front
    finished: seq<Task>)    // history: tasks in the order in which their functions returned

  const WORD := 0x1_0000_0000

  type Size = n: nat | n < WORD

  function Init(n: Size): State {
    State(Locking, seq(n, _ => Unborn), Idle, Free, [], false, 0, 0, [], [], [])
  }

  datatype Event =
    | OwnerStep                   // the owning thread runs its next statement
    | Destroy                     // the owning thread calls the destructor
    | WorkerStep(i: nat)          // worker i runs its next statement
    | Spurious(i: nat)            // worker i leaves the wait set without a signal
    | Begin(t: Task, from: Caller)  // a call of dispatch takes the lock
    | CallStep(chosen: set<nat>)  // that call runs its next statement; a signal wakes `chosen`

  function Waiters(ws: seq<Worker>): set<nat> {
    set i: nat | i < |ws| && ws[i].Waiting?
  }

  /** pthread_cond_signal wakes at least one waiter if there is one. */
  predicate Signals(ws: seq<Worker>, chosen: set<nat>) {
    chosen <= Waiters(ws) && (Waiters(ws) != {} ==> chosen != {})
  }

  predicate Enabled(s: State, e: Event) {
    match e
    case OwnerStep => OwnerEnabled(s)
    case Destroy => s.owner.Ready?
    case WorkerStep(i) => i < |s.workers| && WorkerEnabled(s, i)
    case Spurious(i) => i < |s.workers| && s.workers[i].Waiting?
    case Begin(_, from) => s.lock.Free? && MayCall(s, from)
    case CallStep(chosen) => !s.call.Idle? && (s.call.Signalling? ==> Signals(s.workers, chosen))
  }

  predicate OwnerEnabled(s: State) {
    match s.owner
    case Locking => s.lock.Free?
    case Relocking => s.lock.Free?
    case Closing => s.lock.Free?
    case Rejoining(_) => s.lock.Free?
    case Joining(i) => i < |s.workers| && s.workers[i].Dead?
    case DrainRunning(_) => s.call.Idle?
    case Ready => false
    case Done => false
    case _ => true
  }

  predicate WorkerEnabled(s: State, i: nat)
    requires i < |s.workers|
  {
    match s.workers[i]
    case Unborn => false
    case Waiting => false
    case Dead => false
    case Born => s.lock.Free?
    case Woken => s.lock.Free?
    case Returning => s.lock.Free?
    case Running(_) => s.call.Idle? || s.call.from != InWorker(i)
    case _ => true
  }

  /** `dispatch` may be called until the destructor has the lock, and from inside any task. */
  predicate MayCall(s: State, from: Caller) {
    match from
    case Client => s.owner.Ready? || s.owner.Closing?
    case InWorker(i) => i < |s.workers| && s.workers[i].Running?
    case InDrain => s.owner.DrainRunning?
  }

  function Step(s: State, e: Event): State
    requires Enabled(s, e)
  {
    match e
    case OwnerStep => OwnerNext(s)
    case Destroy => s.(owner := Closing)
    case WorkerStep(i) => WorkerNext(s, i)
    case Spurious(i) => s.(workers := s.workers[i := Woken])
    case Begin(t, from) => s.(lock := ByCaller, call := Pushing(t, from))
    case CallStep(chosen) => CallNext(s, chosen)
  }

  function OwnerNext(s: State): State {
    match s.owner
    case Locking => s.(lock := ByOwner, owner := Spawning(0))
    case Spawning(i) =>
      if i < |s.workers| then s.(workers := s.workers[i := Born], owner := Spawning(i + 1))
      else s.(owner := Checking)
    case Checking => s.(owner := if s.running != |s.workers| then Yielding else Opening)
    case Yielding => s.(lock := Free, owner := Relocking)
    case Relocking => s.(lock := ByOwner, owner := Checking)
    case Opening => s.(lock := Free, owner := Ready)
    case Ready => s
    case Closing => s.(lock := ByOwner, owner := Snapping)
    case Snapping => s.(snap := s.running, owner := Killing)
    case Killing => s.(kill := true, owner := Round(0, s.snap))
    case Casting(i) => s.(workers := WakeSome(s.workers, Waiters(s.workers)), owner := Handing(i))
    case Handing(i) => s.(lock := Free, owner := Joining(i))
    case Joining(i) => s.(owner := Rejoining(i))
    case Rejoining(i) => s.(lock := ByOwner, owner := Round(i + 1, s.snap))
    case Freeing => s.(lock := Free, owner := Draining)
    case Draining =>
      if s.queue == [] then s.(owner := Done)
      else s.(queue := s.queue[1..], started := s.started + [s.queue[0]], owner := DrainRunning(s.queue[0]))
    case DrainRunning(t) => s.(finished := s.finished + [t], owner := Draining)
    case Done => s
  }

  /** The test of the destructor's join loop before round i. */
  function Round(i: nat, snap: nat): Owner {
    if i < snap then Casting(i) else Freeing
  }

  function WorkerNext(s: State, i: nat): State
    requires i < |s.workers|
  {
    var At := (w: Worker) => s.workers[i := w];
    match s.workers[i]
    case Born => s.(lock := ByWorker(i), workers := At(Counting))
    case Counting => s.(running := (s.running + 1) % WORD, workers := At(Testing))
    case Testing => s.(workers := At(if s.kill then Leaving else Entering))
    case Entering => s.(lock := Free, workers := At(Waiting))
    case Woken => s.(lock := ByWorker(i), workers := At(Scanning))
    case Scanning => s.(workers := At(if s.queue != [] && !s.kill then Taking else Testing))
    case Taking =>
      if s.queue == [] then s  // front() of an empty list; the invariant excludes it
      else s.(queue := s.queue[1..], started := s.started + [s.queue[0]], workers := At(Releasing(s.queue[0])))
    case Releasing(t) => s.(lock := Free, workers := At(Running(t)))
    case Running(t) => s.(finished := s.finished + [t], workers := At(Returning))
    case Returning => s.(lock := ByWorker(i), workers := At(Scanning))
    case Leaving => s.(running := (s.running + WORD - 1) % WORD, workers := At(Unlocking))
    case Unlocking => s.(lock := Free, workers := At(Dead))
    case _ => s
  }

  function CallNext(s: State, chosen: set<nat>): State {
    match s.call
    case Idle => s
    case Pushing(t, from) =>
      s.(queue := s.queue + [t], dispatched := s.dispatched + [t], call := Signalling(from))
    case Signalling(from) => s.(workers := WakeSome(s.workers, chosen), call := Exiting(from))
    case Exiting(_) => s.(lock := Free, call := Idle)
  }

  /** Moves the chosen waiters out of the wait set. */
  function WakeSome(ws: seq<Worker>, chosen: set<nat>): (r: seq<Worker>)
    ensures |r| == |ws|
    ensures forall i :: 0 <= i < |ws| ==> r[i] == if i in chosen && ws[i].Waiting? then Woken else ws[i]
  {
    seq(|ws|, i requires 0 <= i < |ws| => if i in chosen && ws[i].Waiting? then Woken else ws[i])
  }

  /** All the events of `es` can happen one after the other from `s`. */
  predicate Runs(s: State, es: seq<Event>)
    decreases |es|
  {
    es == [] || (Enabled(s, es[0]) && Runs(Step(s, es[0]), es[1..]))
  }

  function After(s: State, es: seq<Event>): (r: State)
    requires Runs(s, es)
    ensures |r.workers| == |s.workers|
    decreases |es|
  {
    if es == [] then s else After(Step(s, es[0]), es[1..])
  }
}
