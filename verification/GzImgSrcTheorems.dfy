/** What the invariant means for the camera source: reference counting, single deletion, lock order. */
module GzImgSrcTheorems {
  import opened Wrappers
  import opened GzImgSrc
  import opened GzImgSrcSafety

  // ---- Reference counting ----

  function Users(workers: seq<Pc>, s: Sid): set<Tid> {
    set t: Tid | t < |workers| && Uses(workers[t], s)
  }

  lemma {:induction false} CountIsCardinality(workers: seq<Pc>, s: Sid)
    ensures UseCount(workers, s) == |Users(workers, s)|
  {
    if workers == [] {
      assert Users(workers, s) == {};
    } else {
      var n := |workers| - 1;
      var init := workers[..n];
      CountIsCardinality(init, s);
      CountSnoc(init, workers[n], s);
      assert workers == init + [workers[n]];
      if Uses(workers[n], s) {
        assert Users(workers, s) == Users(init, s) + {n};
      } else {
        assert Users(workers, s) == Users(init, s);
      }
    }
  }

  lemma {:induction false} CountSnoc(workers: seq<Pc>, pc: Pc, s: Sid)
    ensures UseCount(workers + [pc], s) == UseCount(workers, s) + (if Uses(pc, s) then 1 else 0)
  {
    if workers != [] {
      assert (workers + [pc])[1..] == workers[1..] + [pc];
      CountSnoc(workers[1..], pc, s);
    }
  }

  /** In every reachable interleaving activeUsers is the number of threads between acquire and release. */
  lemma ActiveUsersExact(c: Config, g: System, s: Sid)
    requires Reachable(c, g) && s < |g.heap|
    ensures g.heap[s].users == |Users(g.workers, s)|
  {
    InvReachable(c, g);
    CountIsCardinality(g.workers, s);
  }

  /** A state is live exactly while it is published or the control thread handles it, and it is deleted exactly
      once. If no call is left on a state that a failing start takes back, no thread uses a deleted state or is
      about to touch its fields. */
  lemma NoUseAfterDelete(c: Config, g: System, s: Sid)
    requires Reachable(c, g) && s < |g.heap|
    ensures g.heap[s].live <==> Owned(g.current, g.control, s)
    ensures g.heap[s].deletes == if g.heap[s].live then 0 else 1
    ensures c.failing.NoCall? && !g.heap[s].live ==>
              forall t :: 0 <= t < |g.workers| ==> !Uses(g.workers[t], s) && !TouchesFields(g.workers[t], s)
  {
    InvReachable(c, g);
    CountZero(g.workers, s);
    if c.failing.NoCall? { SparedReachable(c, g); }
    assert SourceOk(g.heap[s], g.current, g.control, s);
  }

  /** At most one state is live at any time, so starting twice allocates once. */
  lemma AtMostOneLive(c: Config, g: System, r: Sid, s: Sid)
    requires Reachable(c, g) && r < |g.heap| && s < |g.heap| && g.heap[r].live && g.heap[s].live
    ensures r == s
  {
    InvReachable(c, g);
    assert SourceOk(g.heap[r], g.current, g.control, r) && SourceOk(g.heap[s], g.current, g.control, s);
  }

  lemma MoveKeepsLive(c: Config, g: System, t: Tid, m: Move, s: Sid)
    requires Inv(g) && t < |g.workers| && WorkerEnabled(g, t, m) && s < |g.heap|
    ensures WorkerNext(c, g, t, m).heap[s].live == g.heap[s].live
  {
    if m.Body? { BodyKeepsSame(c, g, t); }
  }

  /** Only the control thread deletes. Stop never finds a user when it does, whatever the environment promises;
      a failing start finds none if it is promised that no call is left. */
  lemma DeletedOnlyAtZeroUsers(c: Config, g: System, a: Action, s: Sid)
    requires Reachable(c, g) && Enabled(c, g, a) && s < |g.heap|
    requires g.heap[s].live && !Step(c, g, a).heap[s].live
    ensures g.control == StopDelete(s) || g.control == StartFailDelete(s)
    ensures g.control == StopDelete(s) || c.failing.NoCall? ==> g.heap[s].users == 0 && Users(g.workers, s) == {}
  {
    InvReachable(c, g);
    CountIsCardinality(g.workers, s);
    if c.failing.NoCall? { SparedReachable(c, g); }
    if a.By? { MoveKeepsLive(c, g, a.t, a.move, s); }
  }

  lemma DeadStepStaysDead(c: Config, g: System, a: Action, s: Sid)
    requires Inv(g) && Enabled(c, g, a) && s < |g.heap| && !g.heap[s].live
    ensures s < |Step(c, g, a).heap| && !Step(c, g, a).heap[s].live
  {
    hide UseCount, Counted, MutexOwned;
    assert SourceOk(g.heap[s], g.current, g.control, s);
    if a.By? { MoveKeepsLive(c, g, a.t, a.move, s); }
  }

  // ---- After stop has taken the state out of self->state ----

  predicate Detached(g: System, s: Sid) {
    s < |g.heap| && g.current != Some(s) && g.control != StartPublishWant(s) && g.control != StartPublishIn(s)
  }

  lemma DetachedMove(c: Config, g: System, t: Tid, m: Move, s: Sid)
    requires Locks(g) && Detached(g, s) && t < |g.workers| && WorkerEnabled(g, t, m)
    ensures Detached(WorkerNext(c, g, t, m), s) && WorkerNext(c, g, t, m).heap[s].users <= g.heap[s].users
  {
  }

  lemma DetachedStep(c: Config, g: System, a: Action, s: Sid)
    requires Locks(g) && Detached(g, s) && Enabled(c, g, a)
    ensures Detached(Step(c, g, a), s) && Step(c, g, a).heap[s].users <= g.heap[s].users
  {
    if a.By? { DetachedMove(c, g, a.t, a.move, s); }
  }

  /** Once stop has nulled self->state, the state is never published again and its user count never rises. */
  lemma {:induction false} DetachedCountNeverRises(c: Config, g: System, run: seq<Action>, h: System, s: Sid)
    requires Inv(g) && Detached(g, s) && Runs(c, g, run, h)
    ensures Detached(h, s) && h.heap[s].users <= g.heap[s].users
    decreases |run|
  {
    if run != [] {
      InvStep(c, g, run[0]);
      DetachedStep(c, g, run[0], s);
      DetachedCountNeverRises(c, Step(c, g, run[0]), run[1..], h, s);
    }
  }

  /** A deleted state stays deleted: no run revives it, deletes it again or lets another call acquire it. One
      deleted without users, as stop deletes, is never used again. */
  lemma {:induction false} DeadForever(c: Config, g: System, run: seq<Action>, h: System, s: Sid)
    requires Inv(g) && Runs(c, g, run, h) && s < |g.heap| && !g.heap[s].live
    ensures s < |h.heap| && !h.heap[s].live && h.heap[s].deletes == 1 && h.heap[s].users <= g.heap[s].users
    ensures g.heap[s].users == 0 ==> Users(h.workers, s) == {}
    decreases |run|
  {
    assert SourceOk(g.heap[s], g.current, g.control, s);
    if run == [] {
      CountIsCardinality(g.workers, s);
    } else {
      InvStep(c, g, run[0]);
      DeadStepStaysDead(c, g, run[0], s);
      DetachedStep(c, g, run[0], s);
      assert Step(c, g, run[0]).heap[s].users == UseCount(Step(c, g, run[0]).workers, s);
      DeadForever(c, Step(c, g, run[0]), run[1..], h, s);
    }
  }

  // ---- Lock order ----

  datatype LockId = StateLock | Mutex(s: Sid)

  function WorkerWants(pc: Pc): Option<LockId> {
    match pc
    case AcquireWant(_) => Some(StateLock)
    case ReleaseWant(_, _, _) => Some(StateLock)
    case MutexWant(s, _) => Some(Mutex(s))
    case _ => None
  }

  function ControlWants(pc: ControlPc): Option<LockId> {
    match pc
    case StartCheckWant => Some(StateLock)
    case StartPublishWant(_) => Some(StateLock)
    case StartFailWant(_) => Some(StateLock)
    case StopTakeWant => Some(StateLock)
    case StopDrainWant(_) => Some(StateLock)
    case StopMutexWant(s) => Some(Mutex(s))
    case _ => None
  }

  function Wants(g: System, x: Thread): Option<LockId> {
    match x
    case Control => ControlWants(g.control)
    case Worker(t) => if t < |g.workers| then WorkerWants(g.workers[t]) else None
  }

  function Owner(g: System, lock: LockId): Option<Thread> {
    match lock
    case StateLock => g.stateLock
    case Mutex(s) => if s < |g.heap| then g.heap[s].mutex else None
  }

  // x waits for a lock that y holds.
  predicate WaitsFor(g: System, x: Thread, y: Thread) {
    Wants(g, x).Some? && Owner(g, Wants(g, x).value) == Some(y)
  }

  ghost predicate WaitChain(g: System, chain: seq<Thread>) {
    forall i :: 0 <= i < |chain| - 1 ==> WaitsFor(g, chain[i], chain[i + 1])
  }

  // The holder of stateLock waits for nothing; the holder of a mutex can only wait for stateLock.
  lemma HolderWants(g: System, lock: LockId, y: Thread)
    requires Inv(g) && Owner(g, lock) == Some(y)
    ensures lock.StateLock? ==> Wants(g, y).None?
    ensures lock.Mutex? && Wants(g, y).Some? ==> Wants(g, y) == Some(StateLock)
  {
    if lock.Mutex? {
      assert MutexHolderOk(g.heap[lock.s].mutex, g.workers, g.control, lock.s);
    }
  }

  /** Threads waiting for each other's locks form chains of at most three, so no cycle of waiting threads
      exists; the two locks are only ever nested as mutex before stateLock. */
  lemma NoLockCycle(c: Config, g: System, chain: seq<Thread>)
    requires Reachable(c, g) && WaitChain(g, chain)
    ensures |chain| <= 3
    ensures |chain| == 3 ==> Wants(g, chain[0]).Some? && Wants(g, chain[0]).value.Mutex? && Wants(g, chain[1]) == Some(StateLock)
  {
    InvReachable(c, g);
    if |chain| >= 3 {
      assert |chain| > 3 ==> WaitsFor(g, chain[2], chain[3]);
      assert WaitsFor(g, chain[0], chain[1]);
      assert WaitsFor(g, chain[1], chain[2]);
      HolderWants(g, Wants(g, chain[0]).value, chain[1]);
      HolderWants(g, Wants(g, chain[1]).value, chain[2]);
    }
  }

  // ---- The order of the early exits ----

  predicate NeverLate(pc: Pc) {
    match pc
    case ReleaseWant(_, late, _) => !late
    case ReleaseIn(_, late, _) => !late
    case LateUnlock(_, _) => false
    case _ => true
  }

  lemma NeverLateStep(c: Config, g: System, a: Action)
    requires c.order.UnlockFirst? && Enabled(c, g, a)
    requires forall t :: 0 <= t < |g.workers| ==> NeverLate(g.workers[t])
    ensures forall t :: 0 <= t < |Step(c, g, a).workers| ==> NeverLate(Step(c, g, a).workers[t])
  {
  }

  lemma {:induction false} NeverLateRuns(c: Config, g: System, run: seq<Action>, h: System)
    requires c.order.UnlockFirst? && Runs(c, g, run, h)
    requires forall t :: 0 <= t < |g.workers| ==> NeverLate(g.workers[t])
    ensures forall t :: 0 <= t < |h.workers| ==> NeverLate(h.workers[t])
    decreases |run|
  {
    if run != [] {
      NeverLateStep(c, g, run[0]);
      NeverLateRuns(c, Step(c, g, run[0]), run[1..], h);
    }
  }

  /** When every exit unlocks before it releases, a worker holding a state's mutex is one of its counted users,
      so the mutex itself is touched after the delete no more than the fields are. */
  lemma UnlockFirstCountsHolders(c: Config, g: System, t: Tid, s: Sid)
    requires c.order.UnlockFirst? && Reachable(c, g)
    requires t < |g.workers| && s < |g.heap| && g.heap[s].mutex == Some(Worker(t))
    ensures Uses(g.workers[t], s) && (c.failing.NoCall? ==> g.heap[s].live)
  {
    InvReachable(c, g);
    var n: nat, run :| Runs(c, Init(n), run, g);
    NeverLateRuns(c, Init(n), run, g);
    assert MutexHolderOk(g.heap[s].mutex, g.workers, g.control, s);
    NoUseAfterDelete(c, g, s);
  }
}
