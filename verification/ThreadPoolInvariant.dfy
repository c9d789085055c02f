/** What every reachable state of the thread pool satisfies. */
module ThreadPoolInvariant {
  import opened ThreadPool

  // ---------- Totals over the workers ----------

  function Total(ws: seq<Worker>, f: Worker -> nat): nat {
    if ws == [] then 0 else f(ws[|ws| - 1]) + Total(ws[..|ws| - 1], f)
  }

  lemma {:induction false} TotalUpdate(ws: seq<Worker>, f: Worker -> nat, i: nat, w: Worker)
    requires i < |ws|
    ensures Total(ws[i := w], f) + f(ws[i]) == Total(ws, f) + f(w)
  {
    var last := |ws| - 1;
    if i == last {
      assert ws[i := w][..last] == ws[..last];
    } else {
      assert ws[i := w][..last] == ws[..last][i := w];
      TotalUpdate(ws[..last], f, i, w);
    }
  }

  ghost predicate Hits(ws: seq<Worker>, chosen: set<nat>) {
    exists i :: 0 <= i < |ws| && i in chosen && ws[i].Waiting?
  }

  lemma {:induction false} TotalWake(ws: seq<Worker>, f: Worker -> nat, chosen: set<nat>)
    ensures f(Waiting) == f(Woken) ==> Total(WakeSome(ws, chosen), f) == Total(ws, f)
    ensures f(Waiting) < f(Woken) ==> Total(WakeSome(ws, chosen), f) >= Total(ws, f) + if Hits(ws, chosen) then 1 else 0
    ensures f(Waiting) > f(Woken) ==> Total(WakeSome(ws, chosen), f) + (if Hits(ws, chosen) then 1 else 0) <= Total(ws, f)
  {
    if ws != [] {
      var last := |ws| - 1;
      assert WakeSome(ws, chosen)[..last] == WakeSome(ws[..last], chosen);
      TotalWake(ws[..last], f, chosen);
      if Hits(ws, chosen) && !(last in chosen && ws[last].Waiting?) {
        var i :| 0 <= i < |ws| && i in chosen && ws[i].Waiting?;
        assert ws[..last][i].Waiting?;
      }
    }
  }

  lemma {:induction false} TotalFull(ws: seq<Worker>, f: Worker -> nat)
    requires forall w :: f(w) <= 1
    ensures Total(ws, f) <= |ws|
    ensures Total(ws, f) == |ws| <==> forall i :: 0 <= i < |ws| ==> f(ws[i]) == 1
  {
    if ws != [] {
      var rest := ws[..|ws| - 1];
      TotalFull(rest, f);
      assert forall i :: 0 <= i < |rest| ==> rest[i] == ws[i];
    }
  }

  lemma {:induction false} TotalZero(ws: seq<Worker>, f: Worker -> nat)
    ensures Total(ws, f) == 0 <==> forall i :: 0 <= i < |ws| ==> f(ws[i]) == 0
  {
    if ws != [] {
      var rest := ws[..|ws| - 1];
      TotalZero(rest, f);
      assert forall i :: 0 <= i < |rest| ==> rest[i] == ws[i];
    }
  }

  /** Between its increment and its decrement of the live count. */
  function Live(w: Worker): nat {
    match w
    case Unborn => 0
    case Born => 0
    case Counting => 0
    case Unlocking => 0
    case Dead => 0
    case _ => 1
  }

  /** Signalled, and not yet past its next pop or its next look at an empty queue. */
  function Awake(w: Worker): nat {
    if w.Woken? || w.Scanning? || w.Taking? then 1 else 0
  }

  // ---------- Tasks in the hands of a thread ----------

  function InHand(w: Worker): seq<Task> {
    match w
    case Releasing(t) => [t]
    case Running(t) => [t]
    case _ => []
  }

  function OwnerInHand(o: Owner): seq<Task> {
    if o.DrainRunning? then [o.t] else []
  }

  /** Counts the workers that hold task `t`. */
  function Holding(t: Task): Worker -> nat {
    (w: Worker) => if InHand(w) == [t] then 1 else 0
  }

  // ---------- The invariant ----------

  predicate Critical(w: Worker) {
    match w
    case Unborn => false
    case Born => false
    case Waiting => false
    case Woken => false
    case Running(_) => false
    case Returning => false
    case Dead => false
    case _ => true
  }

  predicate OwnerCritical(o: Owner) {
    o.Spawning? || o.Checking? || o.Yielding? || o.Opening? || o.Snapping? || o.Killing? ||
    o.Casting? || o.Handing? || o.Freeing?
  }

  predicate Constructing(o: Owner) {
    o.Locking? || o.Spawning? || o.Checking? || o.Yielding? || o.Relocking? || o.Opening?
  }

  predicate Killed(o: Owner) {
    o.Casting? || o.Handing? || o.Joining? || o.Rejoining? || Emptying(o)
  }

  predicate Emptying(o: Owner) {
    o.Freeing? || o.Draining? || o.DrainRunning? || o.Done?
  }

  /** A thread is inside a critical section exactly when it holds the lock. */
  ghost predicate LockInv(s: State) {
    && (forall i :: 0 <= i < |s.workers| ==> (Critical(s.workers[i]) <==> s.lock == ByWorker(i)))
    && (OwnerCritical(s.owner) <==> s.lock.ByOwner?)
    && (!s.call.Idle? <==> s.lock.ByCaller?)
    && (s.lock.ByWorker? ==> s.lock.i < |s.workers|)
  }

  /** The live count is the number of workers between their increment and their decrement. */
  ghost predicate CountInv(s: State) {
    |s.workers| < WORD && s.running == Total(s.workers, Live)
  }

  /** The handshake of the constructor: no work before it ends, every worker has been in the
      wait by then. */
  ghost predicate BirthInv(s: State) {
    && (Constructing(s.owner) ==>
          s.queue == [] && s.dispatched == [] &&
          forall j :: 0 <= j < |s.workers| ==> InHand(s.workers[j]) == [] && !s.workers[j].Returning?)
    && (s.owner.Locking? ==> forall j :: 0 <= j < |s.workers| ==> s.workers[j].Unborn?)
    && (s.owner.Spawning? ==>
          s.owner.i <= |s.workers| &&
          forall j :: 0 <= j < |s.workers| ==> (s.workers[j].Unborn? <==> s.owner.i <= j))
    && (!s.owner.Locking? && !s.owner.Spawning? ==>
          forall j :: 0 <= j < |s.workers| ==> !s.workers[j].Unborn?)
    && (s.owner.Opening? || !Constructing(s.owner) ==>
          forall j :: 0 <= j < |s.workers| ==> !s.workers[j].Born? && !s.workers[j].Counting?)
  }

  /** The kill flag, and what the workers can no longer, or cannot yet, be doing. */
  ghost predicate KillInv(s: State) {
    && (s.kill <==> Killed(s.owner))
    && (s.kill ==> forall j :: 0 <= j < |s.workers| ==>
          !s.workers[j].Entering? && !s.workers[j].Taking? && !s.workers[j].Releasing?)
    && (!s.kill ==> forall j :: 0 <= j < |s.workers| ==>
          !s.workers[j].Leaving? && !s.workers[j].Unlocking? && !s.workers[j].Dead?)
    && (s.owner.Killing? || s.kill ==> s.snap == |s.workers|)
  }

  /** The destructor's progress through its rounds of broadcasting and joining. */
  ghost predicate JoinInv(s: State) {
    && (s.owner.Casting? || s.owner.Handing? || s.owner.Joining? || s.owner.Rejoining? ==>
          s.owner.i < |s.workers| && forall j :: 0 <= j < s.owner.i ==> s.workers[j].Dead?)
    && (s.owner.Rejoining? ==> s.workers[s.owner.i].Dead?)
    && (s.kill && s.owner != Casting(0) ==> forall j :: 0 <= j < |s.workers| ==> !s.workers[j].Waiting?)
    && (Emptying(s.owner) ==> forall j :: 0 <= j < |s.workers| ==> s.workers[j].Dead?)
    && (s.owner.Done? ==> s.queue == [])
  }

  ghost predicate CallerInv(s: State) {
    s.call.Idle? || MayCall(s, s.call.from)
  }

  /** A worker holds the queue's emptiness, or its non-emptiness, while it acts on it; and each
      waiting task is matched by a worker on its way to the queue, or nobody is left waiting. */
  ghost predicate QueueInv(s: State) {
    && (forall j :: 0 <= j < |s.workers| ==> s.workers[j].Taking? ==> s.queue != [])
    && (!s.kill ==> forall j :: 0 <= j < |s.workers| ==>
          s.workers[j].Testing? || s.workers[j].Entering? ==> s.queue == [])
    && (!s.kill && Hits(s.workers, Waiters(s.workers)) ==>
          |s.queue| <= Total(s.workers, Awake) + if s.call.Signalling? then 1 else 0)
  }

  /** Every started task is in one pair of hands or finished. */
  ghost predicate HandInv(s: State) {
    forall t: Task :: Accounted(s, t)
  }

  /** First in, first out. */
  ghost predicate OrderInv(s: State) {
    && s.dispatched == s.started + s.queue
    && (|s.workers| == 0 ==> s.started == s.finished + OwnerInHand(s.owner))
    && (|s.workers| == 1 ==> s.started == s.finished + InHand(s.workers[0]) + OwnerInHand(s.owner))
  }

  /** Task `t` was started as often as it is in a worker's hands, in the owner's, or finished. */
  ghost predicate Accounted(s: State, t: Task) {
    multiset(s.started)[t] ==
    multiset(s.finished)[t] + Total(s.workers, Holding(t)) + if OwnerInHand(s.owner) == [t] then 1 else 0
  }

  ghost predicate Inv(s: State) {
    LockInv(s) && CountInv(s) && BirthInv(s) && KillInv(s) && JoinInv(s) && CallerInv(s) && QueueInv(s) && HandInv(s) && OrderInv(s)
  }

  lemma InitInv(n: Size)
    ensures Inv(Init(n))
  {
    var s := Init(n);
    TotalZero(s.workers, Live);
    forall t: Task ensures Accounted(s, t) {
      TotalZero(s.workers, Holding(t));
    }
  }

  lemma Appended(q: seq<Task>, u: Task, t: Task)
    ensures multiset(q + [u])[t] == multiset(q)[t] + if u == t then 1 else 0
  {
  }

  /** A state that differs in the lock, the owner or the queue only keeps its tasks accounted for. */
  lemma HandSame(s: State, s': State)
    requires HandInv(s)
    requires s'.workers == s.workers && s'.started == s.started && s'.finished == s.finished
    requires OwnerInHand(s'.owner) == OwnerInHand(s.owner)
    ensures HandInv(s')
  {
    forall t: Task ensures Accounted(s', t) {
      assert Accounted(s, t);
    }
  }

  // ---------- Steps of the owning thread ----------

  lemma OwnerLock(s: State)
    requires LockInv(s) && OwnerEnabled(s)
    ensures LockInv(OwnerNext(s))
  {
  }

  lemma OwnerCount(s: State)
    requires CountInv(s) && BirthInv(s) && OwnerEnabled(s)
    ensures CountInv(OwnerNext(s))
  {
    if s.owner.Spawning? && s.owner.i < |s.workers| {
      TotalUpdate(s.workers, Live, s.owner.i, Born);
    } else if s.owner.Casting? {
      TotalWake(s.workers, Live, Waiters(s.workers));
    }
  }

  lemma OwnerBirth(s: State)
    requires CountInv(s) && BirthInv(s) && OwnerEnabled(s)
    ensures BirthInv(OwnerNext(s))
  {
    if s.owner.Checking? {
      TotalFull(s.workers, Live);
    }
  }

  lemma OwnerSnap(s: State)
    requires LockInv(s) && CountInv(s) && BirthInv(s) && KillInv(s) && s.owner.Snapping?
    ensures s.running == |s.workers|
  {
    TotalFull(s.workers, Live);
  }

  lemma OwnerKill(s: State)
    requires LockInv(s) && CountInv(s) && BirthInv(s) && KillInv(s) && OwnerEnabled(s)
    ensures KillInv(OwnerNext(s))
  {
    if s.owner.Snapping? {
      OwnerSnap(s);
    }
  }

  lemma OwnerJoin(s: State)
    requires LockInv(s) && KillInv(s) && JoinInv(s) && OwnerEnabled(s)
    ensures JoinInv(OwnerNext(s))
  {
  }

  lemma OwnerCaller(s: State)
    requires LockInv(s) && JoinInv(s) && CallerInv(s) && OwnerEnabled(s)
    ensures CallerInv(OwnerNext(s))
  {
  }

  lemma OwnerQueue(s: State)
    requires LockInv(s) && BirthInv(s) && KillInv(s) && QueueInv(s) && OwnerEnabled(s)
    ensures QueueInv(OwnerNext(s))
  {
    if s.owner.Spawning? && s.owner.i < |s.workers| {
      TotalUpdate(s.workers, Awake, s.owner.i, Born);
    }
  }

  lemma OwnerHandSpawn(s: State, t: Task)
    requires BirthInv(s) && Accounted(s, t) && OwnerEnabled(s) && (s.owner.Spawning? || s.owner.Casting?)
    ensures Accounted(OwnerNext(s), t)
  {
    if s.owner.Casting? {
      TotalWake(s.workers, Holding(t), Waiters(s.workers));
    } else if s.owner.i < |s.workers| {
      TotalUpdate(s.workers, Holding(t), s.owner.i, Born);
    }
  }

  lemma OwnerHandDrain(s: State, t: Task)
    requires Accounted(s, t) && OwnerEnabled(s) && (s.owner.Draining? || s.owner.DrainRunning?)
    ensures Accounted(OwnerNext(s), t)
  {
    if s.owner.DrainRunning? {
      Appended(s.finished, s.owner.t, t);
    } else if s.queue != [] {
      Appended(s.started, s.queue[0], t);
    }
  }

  lemma OwnerHand(s: State)
    requires BirthInv(s) && HandInv(s) && OwnerEnabled(s)
    ensures HandInv(OwnerNext(s))
  {
    if s.owner.Spawning? || s.owner.Casting? || s.owner.Draining? || s.owner.DrainRunning? {
      forall t: Task ensures Accounted(OwnerNext(s), t) {
        assert Accounted(s, t);
        if s.owner.Spawning? || s.owner.Casting? {
          OwnerHandSpawn(s, t);
        } else {
          OwnerHandDrain(s, t);
        }
      }
    } else {
      HandSame(s, OwnerNext(s));
    }
  }

  lemma OwnerOrderDrain(s: State)
    requires JoinInv(s) && OrderInv(s) && s.owner.Draining? && s.queue != []
    ensures OrderInv(OwnerNext(s))
  {
    assert s.queue == [s.queue[0]] + s.queue[1..];
  }

  lemma OwnerOrderSpawn(s: State)
    requires BirthInv(s) && OrderInv(s) && OwnerEnabled(s) && (s.owner.Spawning? || s.owner.Casting?)
    ensures OrderInv(OwnerNext(s))
  {
  }

  lemma OwnerOrderFinish(s: State)
    requires JoinInv(s) && OrderInv(s) && s.owner.DrainRunning?
    ensures OrderInv(OwnerNext(s))
  {
  }

  lemma OwnerOrder(s: State)
    requires BirthInv(s) && JoinInv(s) && OrderInv(s) && OwnerEnabled(s)
    ensures OrderInv(OwnerNext(s))
  {
    if s.owner.Draining? && s.queue != [] {
      OwnerOrderDrain(s);
    } else if s.owner.Spawning? || s.owner.Casting? {
      OwnerOrderSpawn(s);
    } else if s.owner.DrainRunning? {
      OwnerOrderFinish(s);
    } else {
      assert OwnerNext(s).workers == s.workers && OwnerNext(s).queue == s.queue;
    }
  }

  lemma OwnerInv(s: State)
    requires Inv(s) && OwnerEnabled(s)
    ensures Inv(OwnerNext(s))
  {
    OwnerLock(s);
    OwnerCount(s);
    OwnerBirth(s);
    OwnerKill(s);
    OwnerJoin(s);
    OwnerCaller(s);
    OwnerQueue(s);
    OwnerHand(s);
    OwnerOrder(s);
  }

  // ---------- Steps of a worker ----------

  /** A worker's step replaces its own position only. */
  lemma WorkerMoves(s: State, i: nat, f: Worker -> nat)
    requires i < |s.workers| && WorkerEnabled(s, i)
    ensures |WorkerNext(s, i).workers| == |s.workers|
    ensures Total(WorkerNext(s, i).workers, f) + f(s.workers[i]) ==
            Total(s.workers, f) + f(WorkerNext(s, i).workers[i])
  {
    var next := WorkerNext(s, i).workers;
    assert next == s.workers[i := next[i]];
    TotalUpdate(s.workers, f, i, next[i]);
  }

  lemma WorkerLock(s: State, i: nat)
    requires LockInv(s) && i < |s.workers| && WorkerEnabled(s, i)
    ensures LockInv(WorkerNext(s, i))
  {
  }

  lemma WorkerCount(s: State, i: nat)
    requires CountInv(s) && i < |s.workers| && WorkerEnabled(s, i)
    ensures CountInv(WorkerNext(s, i))
  {
    WorkerMoves(s, i, Live);
    TotalFull(WorkerNext(s, i).workers, Live);
  }

  lemma WorkerBirth(s: State, i: nat)
    requires LockInv(s) && BirthInv(s) && i < |s.workers| && WorkerEnabled(s, i)
    ensures BirthInv(WorkerNext(s, i))
  {
  }

  lemma WorkerKill(s: State, i: nat)
    requires LockInv(s) && KillInv(s) && i < |s.workers| && WorkerEnabled(s, i)
    ensures KillInv(WorkerNext(s, i))
  {
  }

  lemma WorkerJoin(s: State, i: nat)
    requires LockInv(s) && KillInv(s) && JoinInv(s) && i < |s.workers| && WorkerEnabled(s, i)
    ensures JoinInv(WorkerNext(s, i))
  {
  }

  lemma WorkerCaller(s: State, i: nat)
    requires LockInv(s) && CallerInv(s) && i < |s.workers| && WorkerEnabled(s, i)
    ensures CallerInv(WorkerNext(s, i))
  {
  }

  lemma WorkerQueue(s: State, i: nat)
    requires LockInv(s) && BirthInv(s) && KillInv(s) && QueueInv(s) && i < |s.workers| && WorkerEnabled(s, i)
    ensures QueueInv(WorkerNext(s, i))
  {
    WorkerMoves(s, i, Awake);
  }

  lemma WorkerHandTake(s: State, i: nat, t: Task)
    requires Accounted(s, t) && i < |s.workers| && s.workers[i].Taking? && s.queue != []
    ensures Accounted(WorkerNext(s, i), t)
  {
    WorkerMoves(s, i, Holding(t));
    Appended(s.started, s.queue[0], t);
    assert WorkerNext(s, i).started == s.started + [s.queue[0]];
  }

  lemma WorkerHandFinish(s: State, i: nat, t: Task)
    requires Accounted(s, t) && i < |s.workers| && s.workers[i].Running? && WorkerEnabled(s, i)
    ensures Accounted(WorkerNext(s, i), t)
  {
    WorkerMoves(s, i, Holding(t));
    Appended(s.finished, s.workers[i].t, t);
    assert WorkerNext(s, i).finished == s.finished + [s.workers[i].t];
  }

  lemma WorkerHandQuiet(s: State, i: nat)
    requires i < |s.workers| && WorkerEnabled(s, i) && !s.workers[i].Running?
    requires s.workers[i].Taking? ==> s.queue == []
    ensures InHand(WorkerNext(s, i).workers[i]) == InHand(s.workers[i])
    ensures WorkerNext(s, i).started == s.started && WorkerNext(s, i).finished == s.finished
    ensures WorkerNext(s, i).owner == s.owner
  {
  }

  lemma WorkerHand(s: State, i: nat)
    requires HandInv(s) && i < |s.workers| && WorkerEnabled(s, i)
    ensures HandInv(WorkerNext(s, i))
  {
    forall t: Task ensures Accounted(WorkerNext(s, i), t) {
      assert Accounted(s, t);
      if s.workers[i].Taking? && s.queue != [] {
        WorkerHandTake(s, i, t);
      } else if s.workers[i].Running? {
        WorkerHandFinish(s, i, t);
      } else {
        WorkerHandQuiet(s, i);
        WorkerMoves(s, i, Holding(t));
      }
    }
  }

  lemma WorkerOrder(s: State, i: nat)
    requires KillInv(s) && OrderInv(s) && i < |s.workers| && WorkerEnabled(s, i)
    ensures OrderInv(WorkerNext(s, i))
  {
  }

  lemma WorkerInv(s: State, i: nat)
    requires Inv(s) && i < |s.workers| && WorkerEnabled(s, i)
    ensures Inv(WorkerNext(s, i))
  {
    WorkerLock(s, i);
    WorkerCount(s, i);
    WorkerBirth(s, i);
    WorkerKill(s, i);
    WorkerJoin(s, i);
    WorkerCaller(s, i);
    WorkerQueue(s, i);
    WorkerHand(s, i);
    WorkerOrder(s, i);
  }

  // ---------- Steps inside dispatch, and spurious wakeups ----------

  function Waking(s: State, chosen: set<nat>, call: Call): State {
    s.(workers := WakeSome(s.workers, chosen), call := call)
  }

  lemma WakeShape(s: State, chosen: set<nat>, call: Call)
    requires LockInv(s) && BirthInv(s)
    requires call == s.call || (s.call.Signalling? && call == Exiting(s.call.from))
    ensures LockInv(Waking(s, chosen, call)) && BirthInv(Waking(s, chosen, call))
  {
  }

  lemma WakeOrder(s: State, chosen: set<nat>, call: Call)
    requires CallerInv(s) && OrderInv(s)
    requires call == s.call || (s.call.Signalling? && call == Exiting(s.call.from))
    ensures CallerInv(Waking(s, chosen, call)) && OrderInv(Waking(s, chosen, call))
  {
  }

  lemma WakeKill(s: State, chosen: set<nat>, call: Call)
    requires KillInv(s) && JoinInv(s)
    ensures KillInv(Waking(s, chosen, call)) && JoinInv(Waking(s, chosen, call))
  {
  }

  lemma WakeQueue(s: State, chosen: set<nat>, call: Call)
    requires QueueInv(s)
    requires call == s.call || (s.call.Signalling? && Signals(s.workers, chosen) && !call.Signalling?)
    ensures QueueInv(Waking(s, chosen, call))
  {
    var ws, r := s.workers, WakeSome(s.workers, chosen);
    assert Awake(Waiting) < Awake(Woken);
    TotalWake(ws, Awake, chosen);
    if Hits(r, Waiters(r)) {
      var i :| 0 <= i < |r| && i in Waiters(r) && r[i].Waiting?;
      assert i in Waiters(ws) && ws[i].Waiting?;
      if chosen != {} && chosen <= Waiters(ws) {
        var k :| k in chosen;
        assert k in Waiters(ws) && ws[k].Waiting?;
      }
    }
  }

  lemma WakeCount(s: State, chosen: set<nat>, call: Call)
    requires CountInv(s)
    ensures CountInv(Waking(s, chosen, call))
  {
    assert Live(Waiting) == Live(Woken);
    TotalWake(s.workers, Live, chosen);
  }

  lemma WakeHand(s: State, chosen: set<nat>, call: Call)
    requires HandInv(s)
    ensures HandInv(Waking(s, chosen, call))
  {
    forall t: Task ensures Accounted(Waking(s, chosen, call), t) {
      assert Accounted(s, t);
      assert Holding(t)(Waiting) == Holding(t)(Woken);
      TotalWake(s.workers, Holding(t), chosen);
    }
  }

  lemma WakeInv(s: State, chosen: set<nat>, call: Call)
    requires Inv(s)
    requires call == s.call || (s.call.Signalling? && Signals(s.workers, chosen) && call == Exiting(s.call.from))
    ensures Inv(Waking(s, chosen, call))
  {
    WakeShape(s, chosen, call);
    WakeOrder(s, chosen, call);
    WakeKill(s, chosen, call);
    WakeQueue(s, chosen, call);
    WakeCount(s, chosen, call);
    WakeHand(s, chosen, call);
  }

  lemma CallInv(s: State, chosen: set<nat>)
    requires Inv(s) && !s.call.Idle? && (s.call.Signalling? ==> Signals(s.workers, chosen))
    ensures Inv(CallNext(s, chosen))
  {
    assert !s.owner.Done?;
    if s.call.Signalling? {
      WakeInv(s, chosen, Exiting(s.call.from));
    } else {
      HandSame(s, CallNext(s, chosen));
    }
  }

  lemma BeginInv(s: State, t: Task, from: Caller)
    requires Inv(s) && s.lock.Free? && MayCall(s, from)
    ensures Inv(s.(lock := ByCaller, call := Pushing(t, from)))
  {
    HandSame(s, s.(lock := ByCaller, call := Pushing(t, from)));
  }

  // ---------- All steps, all runs ----------

  lemma StepInv(s: State, e: Event)
    requires Inv(s) && Enabled(s, e)
    ensures Inv(Step(s, e))
  {
    match e
    case OwnerStep => OwnerInv(s);
    case Destroy => HandSame(s, Step(s, e));
    case WorkerStep(i) => WorkerInv(s, i);
    case Spurious(i) =>
      assert s.workers[i := Woken] == WakeSome(s.workers, {i});
      WakeInv(s, {i}, s.call);
    case Begin(t, from) => BeginInv(s, t, from);
    case CallStep(chosen) => CallInv(s, chosen);
  }

  lemma {:induction false} RunInv(s: State, es: seq<Event>)
    requires Inv(s) && Runs(s, es)
    ensures Inv(After(s, es))
    decreases |es|
  {
    if es != [] {
      StepInv(s, es[0]);
      RunInv(Step(s, es[0]), es[1..]);
    }
  }
}
