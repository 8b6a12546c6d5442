/** Every fair infinite run finishes a running stop: whatever the interleaving, the state is deleted. */
module GzImgSrcFairness {
  import opened Wrappers
  import opened GzImgSrc
  import opened GzImgSrcSafety
  import opened GzImgSrcTheorems
  import opened GzImgSrcStop

  // ---- Infinite runs and fairness ----

  // A thread's own steps: neither the start of another call nor a spurious wake-up.
  predicate Moves(a: Action, x: Thread) {
    match x
    case Control => a.ControlStep?
    case Worker(t) => a.By? && a.t == t && !a.move.Begin? && !a.move.SpuriousWake?
  }

  ghost predicate CanMove(c: Config, g: System, x: Thread) {
    exists a :: Moves(a, x) && Enabled(c, g, a)
  }

  ghost predicate StepAt(c: Config, states: nat -> System, actions: nat -> Action, i: nat) {
    Enabled(c, states(i), actions(i)) && states(i + 1) == Step(c, states(i), actions(i))
  }

  ghost predicate CanMoveAgain(c: Config, states: nat -> System, x: Thread, j: nat) {
    exists k: nat :: k >= j && CanMove(c, states(k), x)
  }

  ghost predicate CanMoveAgainAndAgain(c: Config, states: nat -> System, x: Thread, i: nat) {
    forall j: nat :: j >= i ==> CanMoveAgain(c, states, x, j)
  }

  ghost predicate MovesFrom(actions: nat -> Action, x: Thread, i: nat) {
    exists k: nat :: k >= i && Moves(actions(k), x)
  }

  /** An infinite run from a reachable state in which every thread that can move again and again does move. */
  ghost predicate FairRun(c: Config, states: nat -> System, actions: nat -> Action) {
    && Reachable(c, states(0))
    && (forall i: nat :: StepAt(c, states, actions, i))
    && (forall x: Thread, i: nat :: CanMoveAgainAndAgain(c, states, x, i) ==> MovesFrom(actions, x, i))
  }

  // x makes no move from i up to j.
  predicate Quiet(actions: nat -> Action, x: Thread, i: nat, j: nat) {
    forall k: nat :: i <= k < j ==> !Moves(actions(k), x)
  }

  lemma {:induction false} InvAt(c: Config, states: nat -> System, actions: nat -> Action, i: nat)
    requires FairRun(c, states, actions)
    ensures Inv(states(i)) && Sleepers(states(i)) && StepAt(c, states, actions, i)
  {
    hide Inv, Sleepers, Reachable, StepAt;
    if i == 0 {
      SleepersReachable(c, states(0));
    } else {
      InvAt(c, states, actions, i - 1);
      InvAfter(c, states, actions, i - 1);
    }
  }

  lemma InvAfter(c: Config, states: nat -> System, actions: nat -> Action, i: nat)
    requires StepAt(c, states, actions, i) && Inv(states(i)) && Sleepers(states(i))
    ensures Inv(states(i + 1)) && Sleepers(states(i + 1))
  {
    hide Inv, Sleepers;
    InvStep(c, states(i), actions(i));
    SleepersStep(c, states(i), actions(i));
  }

  lemma {:induction false} FirstMove(actions: nat -> Action, x: Thread, i: nat, k: nat) returns (first: nat)
    requires i <= k && Moves(actions(k), x)
    ensures i <= first <= k && Moves(actions(first), x) && Quiet(actions, x, i, first)
    decreases k
  {
    hide Moves;
    if Quiet(actions, x, i, k) {
      first := k;
    } else {
      var m: nat :| i <= m < k && Moves(actions(m), x);
      first := FirstMove(actions, x, i, m);
    }
  }

  lemma NeverMoving(c: Config, states: nat -> System, actions: nat -> Action, x: Thread, i: nat)
    requires forall j: nat :: j >= i && Quiet(actions, x, i, j) ==> CanMoveAgain(c, states, x, j)
    requires !MovesFrom(actions, x, i)
    ensures CanMoveAgainAndAgain(c, states, x, i)
  {
    hide CanMoveAgain, Moves;
    forall j: nat | j >= i ensures CanMoveAgain(c, states, x, j) {
      assert Quiet(actions, x, i, j);
    }
  }

  /** A thread that can move again and again as long as it has not moved does move. */
  lemma FairMove(c: Config, states: nat -> System, actions: nat -> Action, x: Thread, i: nat) returns (k: nat)
    requires FairRun(c, states, actions)
    requires forall j: nat :: j >= i && Quiet(actions, x, i, j) ==> CanMoveAgain(c, states, x, j)
    ensures k >= i && Moves(actions(k), x) && Quiet(actions, x, i, k)
  {
    hide Moves, CanMoveAgain, CanMoveAgainAndAgain, Reachable, StepAt, Quiet;
    if !MovesFrom(actions, x, i) {
      NeverMoving(c, states, actions, x, i);
    }
    var m: nat :| m >= i && Moves(actions(m), x);
    k := FirstMove(actions, x, i, m);
  }

  // ---- What others cannot take away ----

  // A thread in the middle of a call, not waiting to be woken, stays where it is until it moves.
  predicate Awake(pc: Pc) {
    !pc.Idle? && !pc.Asleep?
  }

  lemma PcStays(c: Config, g: System, a: Action, t: Tid)
    requires Enabled(c, g, a) && t < |g.workers| && Awake(g.workers[t]) && !Moves(a, Worker(t))
    ensures t < |Step(c, g, a).workers| && Step(c, g, a).workers[t] == g.workers[t]
  {
  }

  lemma {:induction false} PcStaysLong(c: Config, states: nat -> System, actions: nat -> Action, t: Tid, i: nat, j: nat)
    requires FairRun(c, states, actions) && i <= j && Quiet(actions, Worker(t), i, j)
    requires t < |states(i).workers| && Awake(states(i).workers[t])
    ensures t < |states(j).workers| && states(j).workers[t] == states(i).workers[t]
    decreases j
  {
    hide Moves, Enabled, Step, Reachable;
    if i < j {
      PcStaysLong(c, states, actions, t, i, j - 1);
      assert StepAt(c, states, actions, j - 1);
      PcStays(c, states(j - 1), actions(j - 1), t);
    }
  }

  lemma StateLockStays(c: Config, g: System, a: Action, x: Thread)
    requires Locks(g) && Enabled(c, g, a) && g.stateLock == Some(x)
    ensures Step(c, g, a).stateLock == if Moves(a, x) then None else Some(x)
  {
    hide MutexOwned;
  }

  lemma {:induction false} StateLockStaysLong(c: Config, states: nat -> System, actions: nat -> Action, x: Thread, i: nat, j: nat)
    requires FairRun(c, states, actions) && i <= j && Quiet(actions, x, i, j) && states(i).stateLock == Some(x)
    ensures states(j).stateLock == Some(x)
    decreases j
  {
    hide Moves, Enabled, Step, Reachable, Locks, Counted, Lifecycle, Sleepers;
    if i < j {
      StateLockStaysLong(c, states, actions, x, i, j - 1);
      InvAt(c, states, actions, j - 1);
      StateLockStays(c, states(j - 1), actions(j - 1), x);
    }
  }

  lemma HolderCanMove(c: Config, g: System, x: Thread)
    requires Locks(g) && g.stateLock == Some(x)
    ensures CanMove(c, g, x)
  {
    hide MutexOwned, Step;
    var a := match x case Control => ControlStep(true) case Worker(t) => By(t, Section);
    assert Moves(a, x) && Enabled(c, g, a);
  }

  lemma CanMoveNow(c: Config, states: nat -> System, x: Thread, j: nat, k: nat)
    requires k >= j && CanMove(c, states(k), x)
    ensures CanMoveAgain(c, states, x, j)
  {
  }

  /** stateLock becomes free again: the first such moment. */
  lemma StateLockFreed(c: Config, states: nat -> System, actions: nat -> Action, i: nat) returns (k: nat)
    requires FairRun(c, states, actions)
    ensures k >= i && states(k).stateLock.None?
    ensures forall j: nat :: i <= j < k ==> states(j).stateLock.Some?
  {
    hide FairRun, Moves, Enabled, Step, Locks, Counted, Lifecycle, Sleepers, CanMove, CanMoveAgain;
    if states(i).stateLock.None? {
      k := i;
    } else {
      var x := states(i).stateLock.value;
      forall j: nat | j >= i && Quiet(actions, x, i, j) ensures CanMoveAgain(c, states, x, j) {
        StateLockStaysLong(c, states, actions, x, i, j);
        InvAt(c, states, actions, j);
        HolderCanMove(c, states(j), x);
        CanMoveNow(c, states, x, j, j);
      }
      var m := FairMove(c, states, actions, x, i);
      forall j: nat | i <= j <= m ensures states(j).stateLock == Some(x) {
        StateLockStaysLong(c, states, actions, x, i, j);
      }
      InvAt(c, states, actions, m);
      StateLockStays(c, states(m), actions(m), x);
      k := m + 1;
    }
  }

  // ---- Every awake thread gets on ----

  // What a thread that waits for no mutex does next.
  function NextMove(pc: Pc): Move {
    match pc
    case AcquireWant(_) => Lock
    case ReleaseWant(_, _, _) => Lock
    case AcquireIn(_) => Section
    case ReleaseIn(_, _, _) => Section
    case Inspect(_, _) => Check(0)
    case MutexWant(_, _) => LockMutex
    case MutexIn(_, _) => Body
    case Deliver(_, _) => Finish(FlowOk)
    case LateUnlock(_, _) => Unlock
    case _ => NotifyOne(None)
  }

  predicate WantsStateLock(pc: Pc) {
    pc.AcquireWant? || pc.ReleaseWant?
  }

  lemma AwakeCanMove(c: Config, g: System, t: Tid)
    requires Locks(g) && t < |g.workers| && Awake(g.workers[t])
    requires WantsStateLock(g.workers[t]) ==> g.stateLock.None?
    requires g.workers[t].MutexWant? ==> g.heap[g.workers[t].s].mutex.None?
    ensures CanMove(c, g, Worker(t))
  {
    hide MutexOwned, Step;
    var pc := g.workers[t];
    var woken: Option<Tid> := None;
    if pc.Notify? && exists u :: 0 <= u < |g.workers| && g.workers[u] == Asleep(pc.s) {
      var u: Tid :| 0 <= u < |g.workers| && g.workers[u] == Asleep(pc.s);
      woken := Some(u);
    }
    var a := By(t, if pc.Notify? then NotifyOne(woken) else NextMove(pc));
    assert Moves(a, Worker(t)) && Enabled(c, g, a);
  }

  lemma CannotMoveLocked(c: Config, g: System, a: Action, t: Tid)
    requires t < |g.workers| && Enabled(c, g, a) && Moves(a, Worker(t))
    ensures WantsStateLock(g.workers[t]) ==> g.stateLock.None?
    ensures g.workers[t].MutexWant? ==> g.workers[t].s < |g.heap| && g.heap[g.workers[t].s].mutex.None?
  {
  }

  // While the lock it wants is taken, a thread does not move.
  lemma {:induction false} QuietWhileLocked(c: Config, states: nat -> System, actions: nat -> Action, t: Tid, i: nat, j: nat)
    requires FairRun(c, states, actions) && i <= j && t < |states(i).workers| && WantsStateLock(states(i).workers[t])
    requires forall k: nat :: i <= k < j ==> states(k).stateLock.Some?
    ensures Quiet(actions, Worker(t), i, j)
    decreases j
  {
    hide Enabled, Step, Reachable, Moves;
    if i < j {
      QuietWhileLocked(c, states, actions, t, i, j - 1);
      PcStaysLong(c, states, actions, t, i, j - 1);
      assert StepAt(c, states, actions, j - 1);
      if Moves(actions(j - 1), Worker(t)) {
        CannotMoveLocked(c, states(j - 1), actions(j - 1), t);
      }
    }
  }

  /** An awake thread that waits for no mutex takes its next step, from where it is. */
  lemma WorkerMoves(c: Config, states: nat -> System, actions: nat -> Action, t: Tid, i: nat) returns (k: nat)
    requires FairRun(c, states, actions)
    requires t < |states(i).workers| && Awake(states(i).workers[t]) && !states(i).workers[t].MutexWant?
    ensures k >= i && Moves(actions(k), Worker(t)) && Quiet(actions, Worker(t), i, k)
    ensures t < |states(k).workers| && states(k).workers[t] == states(i).workers[t]
  {
    hide FairRun, Moves, Enabled, Step, Locks, Counted, Lifecycle, Sleepers, CanMove, CanMoveAgain, Quiet;
    var x := Worker(t);
    forall j: nat | j >= i && Quiet(actions, x, i, j) ensures CanMoveAgain(c, states, x, j) {
      PcStaysLong(c, states, actions, t, i, j);
      var m := j;
      if WantsStateLock(states(i).workers[t]) {
        m := StateLockFreed(c, states, actions, j);
        QuietWhileLocked(c, states, actions, t, j, m);
        PcStaysLong(c, states, actions, t, j, m);
      }
      InvAt(c, states, actions, m);
      AwakeCanMove(c, states(m), t);
      CanMoveNow(c, states, x, j, m);
    }
    k := FairMove(c, states, actions, x, i);
    PcStaysLong(c, states, actions, t, i, k);
  }

  // ---- Every mutex becomes free again ----

  lemma MutexStaysSection(c: Config, g: System, t: Tid, s: Sid)
    requires Locks(g) && t < |g.workers| && WorkerEnabled(g, t, Section) && s < |g.heap|
    ensures s < |WorkerNext(c, g, t, Section).heap| && WorkerNext(c, g, t, Section).heap[s].mutex == g.heap[s].mutex
  {
    hide StateLockOwned, MutexOwned;
  }

  lemma MutexStaysMove(c: Config, g: System, t: Tid, m: Move, s: Sid, x: Thread)
    requires Locks(g) && t < |g.workers| && WorkerEnabled(g, t, m) && !m.Section?
    requires s < |g.heap| && g.heap[s].mutex == Some(x) && x != Worker(t)
    ensures s < |WorkerNext(c, g, t, m).heap| && WorkerNext(c, g, t, m).heap[s].mutex == Some(x)
  {
    hide StateLockOwned;
  }

  lemma MutexStaysControl(g: System, subscribed: bool, s: Sid, x: Thread)
    requires Locks(g) && ControlEnabled(g) && s < |g.heap| && g.heap[s].mutex == Some(x) && x != Control
    ensures s < |ControlNext(g, subscribed).heap| && ControlNext(g, subscribed).heap[s].mutex == Some(x)
  {
    hide StateLockOwned;
  }

  lemma MutexStays(c: Config, g: System, a: Action, s: Sid, x: Thread)
    requires Locks(g) && Enabled(c, g, a) && s < |g.heap| && g.heap[s].mutex == Some(x) && !Moves(a, x)
    ensures s < |Step(c, g, a).heap| && Step(c, g, a).heap[s].mutex == Some(x)
  {
    hide Locks, ControlNext;
    match a {
      case By(t, m) =>
        if m.Section? {
          MutexStaysSection(c, g, t, s);
        } else if x != Worker(t) {
          MutexStaysMove(c, g, t, m, s, x);
        }
      case ControlStep(subscribed) => MutexStaysControl(g, subscribed, s, x);
      case _ =>
    }
  }

  lemma {:induction false} MutexStaysLong(c: Config, states: nat -> System, actions: nat -> Action, s: Sid, x: Thread, i: nat, j: nat)
    requires FairRun(c, states, actions) && i <= j && Quiet(actions, x, i, j)
    requires s < |states(i).heap| && states(i).heap[s].mutex == Some(x)
    ensures s < |states(j).heap| && states(j).heap[s].mutex == Some(x)
    decreases j
  {
    hide Moves, Enabled, Step, Reachable, Locks, Counted, Lifecycle, Sleepers;
    if i < j {
      MutexStaysLong(c, states, actions, s, x, i, j - 1);
      InvAt(c, states, actions, j - 1);
      MutexStays(c, states(j - 1), actions(j - 1), s, x);
    }
  }

  // How many steps the holder of a mutex is from unlocking it.
  function HoldStage(pc: Pc): nat {
    match pc
    case MutexIn(_, _) => 4
    case ReleaseWant(_, _, _) => 3
    case ReleaseIn(_, _, _) => 2
    case LateUnlock(_, _) => 1
    case _ => 0
  }

  // How many moves of its holder the mutex of s is from being free.
  function HoldRank(g: System, s: Sid): nat {
    if s < |g.heap| && g.heap[s].mutex.Some? then
      match g.heap[s].mutex.value
      case Control => 1
      case Worker(t) => if t < |g.workers| then HoldStage(g.workers[t]) else 0
    else 0
  }

  lemma HolderMoves(c: Config, g: System, a: Action, s: Sid, t: Tid)
    requires Locks(g) && Enabled(c, g, a) && s < |g.heap| && g.heap[s].mutex == Some(Worker(t)) && Moves(a, Worker(t))
    ensures s < |Step(c, g, a).heap| && HoldRank(Step(c, g, a), s) < HoldRank(g, s)
  {
    assert MutexHolderOk(g.heap[s].mutex, g.workers, g.control, s);
  }

  lemma ControlHolderMoves(c: Config, g: System, a: Action, s: Sid)
    requires Locks(g) && Enabled(c, g, a) && s < |g.heap| && g.heap[s].mutex == Some(Control) && Moves(a, Control)
    ensures s < |Step(c, g, a).heap| && HoldRank(Step(c, g, a), s) < HoldRank(g, s)
  {
    assert MutexHolderOk(g.heap[s].mutex, g.workers, g.control, s);
  }

  lemma ControlHolderCanMove(c: Config, g: System, s: Sid)
    requires Locks(g) && s < |g.heap| && g.heap[s].mutex == Some(Control)
    ensures CanMove(c, g, Control)
  {
    assert MutexHolderOk(g.heap[s].mutex, g.workers, g.control, s);
    assert Moves(ControlStep(true), Control) && Enabled(c, g, ControlStep(true));
  }

  lemma HolderIsAwake(g: System, s: Sid, t: Tid)
    requires Locks(g) && s < |g.heap| && g.heap[s].mutex == Some(Worker(t))
    ensures t < |g.workers| && Awake(g.workers[t]) && !g.workers[t].MutexWant?
  {
    assert MutexHolderOk(g.heap[s].mutex, g.workers, g.control, s);
  }

  /** The holder of a mutex makes its next move; until then the mutex is its. */
  lemma MutexHolderMoves(c: Config, states: nat -> System, actions: nat -> Action, s: Sid, i: nat) returns (k: nat)
    requires FairRun(c, states, actions) && s < |states(i).heap| && states(i).heap[s].mutex.Some?
    ensures k >= i && Moves(actions(k), states(i).heap[s].mutex.value)
    ensures Quiet(actions, states(i).heap[s].mutex.value, i, k)
    ensures HoldRank(states(k), s) == HoldRank(states(i), s)
  {
    hide FairRun, Moves, Enabled, Step, Locks, Counted, Lifecycle, Sleepers, CanMove, CanMoveAgain, Quiet, Awake;
    var x := states(i).heap[s].mutex.value;
    InvAt(c, states, actions, i);
    match x {
      case Worker(t) =>
        HolderIsAwake(states(i), s, t);
        k := WorkerMoves(c, states, actions, t, i);
      case Control =>
        forall j: nat | j >= i && Quiet(actions, x, i, j) ensures CanMoveAgain(c, states, x, j) {
          MutexStaysLong(c, states, actions, s, x, i, j);
          InvAt(c, states, actions, j);
          ControlHolderCanMove(c, states(j), s);
          CanMoveNow(c, states, x, j, j);
        }
        k := FairMove(c, states, actions, x, i);
    }
    MutexStaysLong(c, states, actions, s, x, i, k);
  }

  /** The mutex becomes free again: the first such moment. */
  lemma {:induction false} MutexFreed(c: Config, states: nat -> System, actions: nat -> Action, s: Sid, i: nat) returns (k: nat)
    requires FairRun(c, states, actions) && s < |states(i).heap|
    ensures k >= i && s < |states(k).heap| && states(k).heap[s].mutex.None?
    ensures forall j: nat :: i <= j < k ==> s < |states(j).heap| && states(j).heap[s].mutex.Some?
    decreases HoldRank(states(i), s)
  {
    hide FairRun, Moves, Enabled, Step, Locks, Counted, Lifecycle, Sleepers, Quiet, HoldRank;
    if states(i).heap[s].mutex.None? {
      k := i;
    } else {
      var x := states(i).heap[s].mutex.value;
      var m := MutexHolderMoves(c, states, actions, s, i);
      forall j: nat | i <= j <= m ensures s < |states(j).heap| && states(j).heap[s].mutex == Some(x) {
        QuietPrefix(actions, x, i, j, m);
        MutexStaysLong(c, states, actions, s, x, i, j);
      }
      InvAt(c, states, actions, m);
      if x.Control? {
        ControlHolderMoves(c, states(m), actions(m), s);
      } else {
        HolderMoves(c, states(m), actions(m), s, x.t);
      }
      k := MutexFreed(c, states, actions, s, m + 1);
    }
  }

  lemma QuietPrefix(actions: nat -> Action, x: Thread, i: nat, j: nat, k: nat)
    requires Quiet(actions, x, i, k) && j <= k
    ensures Quiet(actions, x, i, j)
  {
  }

  // While the mutex it wants is taken, a thread does not move.
  lemma {:induction false} QuietWhileMutexHeld(c: Config, states: nat -> System, actions: nat -> Action, t: Tid, i: nat, j: nat)
    requires FairRun(c, states, actions) && i <= j && t < |states(i).workers| && states(i).workers[t].MutexWant?
    requires var s := states(i).workers[t].s;
             forall k: nat :: i <= k < j ==> s < |states(k).heap| && states(k).heap[s].mutex.Some?
    ensures Quiet(actions, Worker(t), i, j)
    decreases j
  {
    hide Enabled, Step, Reachable, Moves;
    if i < j {
      QuietWhileMutexHeld(c, states, actions, t, i, j - 1);
      PcStaysLong(c, states, actions, t, i, j - 1);
      assert StepAt(c, states, actions, j - 1);
      if Moves(actions(j - 1), Worker(t)) {
        CannotMoveLocked(c, states(j - 1), actions(j - 1), t);
      }
    }
  }

  lemma IndexedWorker(g: System, t: Tid)
    requires Locks(g) && t < |g.workers| && g.workers[t].MutexWant?
    ensures g.workers[t].s < |g.heap|
  {
  }

  /** Every awake thread takes its next step, from where it is. */
  lemma AwakeMoves(c: Config, states: nat -> System, actions: nat -> Action, t: Tid, i: nat) returns (k: nat)
    requires FairRun(c, states, actions) && t < |states(i).workers| && Awake(states(i).workers[t])
    ensures k >= i && Moves(actions(k), Worker(t)) && Quiet(actions, Worker(t), i, k)
    ensures t < |states(k).workers| && states(k).workers[t] == states(i).workers[t]
  {
    hide FairRun, Moves, Enabled, Step, Locks, Counted, Lifecycle, Sleepers, CanMove, CanMoveAgain, Quiet;
    var x := Worker(t);
    if states(i).workers[t].MutexWant? {
      forall j: nat | j >= i && Quiet(actions, x, i, j) ensures CanMoveAgain(c, states, x, j) {
        PcStaysLong(c, states, actions, t, i, j);
        InvAt(c, states, actions, j);
        IndexedWorker(states(j), t);
        var m := MutexFreed(c, states, actions, states(i).workers[t].s, j);
        QuietWhileMutexHeld(c, states, actions, t, j, m);
        PcStaysLong(c, states, actions, t, j, m);
        InvAt(c, states, actions, m);
        AwakeCanMove(c, states(m), t);
        CanMoveNow(c, states, x, j, m);
      }
      k := FairMove(c, states, actions, x, i);
      PcStaysLong(c, states, actions, t, i, k);
    } else {
      k := WorkerMoves(c, states, actions, t, i);
    }
  }

  // ---- The control thread of a running stop ----

  // It waits for no wake-up.
  predicate StopAwake(pc: ControlPc, s: Sid) {
    Stopping(pc, s) && !pc.StopAsleep?
  }

  lemma ControlStays(c: Config, g: System, a: Action, s: Sid)
    requires Enabled(c, g, a) && StopAwake(g.control, s) && !Moves(a, Control)
    ensures Step(c, g, a).control == g.control
  {
  }

  lemma {:induction false} ControlStaysLong(c: Config, states: nat -> System, actions: nat -> Action, s: Sid, i: nat, j: nat)
    requires FairRun(c, states, actions) && i <= j && Quiet(actions, Control, i, j) && StopAwake(states(i).control, s)
    ensures states(j).control == states(i).control
    decreases j
  {
    hide Moves, Enabled, Step, Reachable, StopAwake;
    if i < j {
      ControlStaysLong(c, states, actions, s, i, j - 1);
      assert StepAt(c, states, actions, j - 1);
      ControlStays(c, states(j - 1), actions(j - 1), s);
    }
  }

  lemma ControlLocked(c: Config, g: System, a: Action, s: Sid)
    requires Enabled(c, g, a) && Moves(a, Control)
    ensures g.control == StopDrainWant(s) ==> g.stateLock.None?
    ensures g.control == StopMutexWant(s) ==> s < |g.heap| && g.heap[s].mutex.None?
  {
  }

  // While the lock it wants is taken, the control thread does not move.
  lemma {:induction false} ControlQuiet(c: Config, states: nat -> System, actions: nat -> Action, s: Sid, i: nat, j: nat)
    requires FairRun(c, states, actions) && i <= j
    requires || (states(i).control == StopDrainWant(s) && forall k: nat :: i <= k < j ==> states(k).stateLock.Some?)
             || (states(i).control == StopMutexWant(s)
                 && forall k: nat :: i <= k < j ==> s < |states(k).heap| && states(k).heap[s].mutex.Some?)
    ensures Quiet(actions, Control, i, j)
    decreases j
  {
    hide Enabled, Step, Reachable, Moves;
    if i < j {
      ControlQuiet(c, states, actions, s, i, j - 1);
      ControlStaysLong(c, states, actions, s, i, j - 1);
      assert StepAt(c, states, actions, j - 1);
      if Moves(actions(j - 1), Control) {
        ControlLocked(c, states(j - 1), actions(j - 1), s);
      }
    }
  }

  lemma ControlCanMove(c: Config, g: System, s: Sid)
    requires Locks(g) && StopAwake(g.control, s)
    requires g.control.StopDrainWant? ==> g.stateLock.None?
    requires g.control.StopMutexWant? ==> g.heap[s].mutex.None?
    ensures CanMove(c, g, Control)
  {
    hide MutexOwned, StateLockOwned, Step;
    assert Moves(ControlStep(true), Control) && Enabled(c, g, ControlStep(true));
  }

  lemma StoppingIndexed(g: System, s: Sid)
    requires Locks(g) && Stopping(g.control, s)
    ensures s < |g.heap|
  {
  }

  /** The control thread of a stop takes its next step, from where it is. */
  lemma ControlMoves(c: Config, states: nat -> System, actions: nat -> Action, s: Sid, i: nat) returns (k: nat)
    requires FairRun(c, states, actions) && StopAwake(states(i).control, s)
    ensures k >= i && Moves(actions(k), Control) && states(k).control == states(i).control
  {
    hide FairRun, Moves, Enabled, Step, Locks, Counted, Lifecycle, Sleepers, CanMove, CanMoveAgain, Quiet;
    forall j: nat | j >= i && Quiet(actions, Control, i, j) ensures CanMoveAgain(c, states, Control, j) {
      ControlStaysLong(c, states, actions, s, i, j);
      InvAt(c, states, actions, j);
      StoppingIndexed(states(j), s);
      var m := j;
      if states(j).control.StopDrainWant? {
        m := StateLockFreed(c, states, actions, j);
        ControlQuiet(c, states, actions, s, j, m);
      } else if states(j).control.StopMutexWant? {
        m := MutexFreed(c, states, actions, s, j);
        ControlQuiet(c, states, actions, s, j, m);
      } else {
        assert Quiet(actions, Control, j, j) by { NothingIsQuiet(actions, j); }
      }
      ControlStaysLong(c, states, actions, s, j, m);
      InvAt(c, states, actions, m);
      ControlCanMove(c, states(m), s);
      CanMoveNow(c, states, Control, j, m);
    }
    k := FairMove(c, states, actions, Control, i);
    ControlStaysLong(c, states, actions, s, i, k);
  }

  lemma NothingIsQuiet(actions: nat -> Action, j: nat)
    ensures Quiet(actions, Control, j, j)
  {
  }

  // ---- The delete ----

  lemma StopMovesOn(c: Config, g: System, a: Action, s: Sid)
    requires Inv(g) && Enabled(c, g, a) && Moves(a, Control) && Stopping(g.control, s) && !Draining(g.control, s)
    ensures Stopping(Step(c, g, a).control, s) && Phase(Step(c, g, a).control) < Phase(g.control)
  {
    hide Inv;
  }

  lemma {:induction false} DrainReached(c: Config, states: nat -> System, actions: nat -> Action, s: Sid, i: nat) returns (k: nat)
    requires FairRun(c, states, actions) && Stopping(states(i).control, s)
    ensures k >= i && Draining(states(k).control, s)
    decreases Phase(states(i).control)
  {
    hide FairRun, Moves, Enabled, Step, Inv, Sleepers;
    if Draining(states(i).control, s) {
      k := i;
    } else {
      var m := ControlMoves(c, states, actions, s, i);
      InvAt(c, states, actions, m);
      StopMovesOn(c, states(m), actions(m), s);
      k := DrainReached(c, states, actions, s, m + 1);
    }
  }

  lemma DrainIsClosed(g: System, s: Sid)
    requires Inv(g) && Sleepers(g) && Draining(g.control, s)
    ensures Closed(g, s)
  {
    assert SourceOk(g.heap[s], g.current, g.control, s);
    forall t | 0 <= t < |g.workers| ensures g.workers[t] != Asleep(s) {
      assert PcOk(g.workers[t], g.heap, g.control);
    }
  }

  lemma DrainsOn(c: Config, g: System, a: Action, s: Sid)
    requires Inv(g) && Enabled(c, g, a) && Draining(g.control, s)
    ensures s < |Step(c, g, a).heap|
    ensures Draining(Step(c, g, a).control, s) || !Step(c, g, a).heap[s].live
  {
    hide MutexOwned, StateLockOwned, Counted;
  }

  // Deleted, or still draining with no more work than before.
  ghost predicate NoWorse(g: System, h: System, s: Sid) {
    s < |h.heap|
    && (!h.heap[s].live || (Draining(h.control, s) && TotalRank(h.workers, s) <= TotalRank(g.workers, s)))
  }

  lemma {:induction false} DrainsOnLong(c: Config, states: nat -> System, actions: nat -> Action, s: Sid, i: nat, j: nat)
    requires FairRun(c, states, actions) && i <= j && Draining(states(i).control, s)
    ensures NoWorse(states(i), states(j), s)
    decreases j
  {
    hide Enabled, Step, Reachable, Inv, Sleepers, Draining, TotalRank, Closed;
    InvAt(c, states, actions, j);
    if i == j {
      InvIndexed(states(i), s);
    } else {
      DrainsOnLong(c, states, actions, s, i, j - 1);
      InvAt(c, states, actions, j - 1);
      if states(j - 1).heap[s].live {
        DrainsOn(c, states(j - 1), actions(j - 1), s);
        DrainIsClosed(states(j - 1), s);
        RankStep(c, states(j - 1), actions(j - 1), s);
      } else {
        DeadStepStaysDead(c, states(j - 1), actions(j - 1), s);
      }
    }
  }

  lemma InvIndexed(g: System, s: Sid)
    requires Inv(g) && Draining(g.control, s)
    ensures s < |g.heap|
  {
  }

  lemma {:induction false} InsideHasRank(workers: seq<Pc>, s: Sid)
    ensures TotalRank(workers, s) > 0 <==> exists t :: 0 <= t < |workers| && StateOf(workers[t]) == Some(s)
  {
    if workers != [] {
      InsideHasRank(workers[1..], s);
      assert forall t :: 0 < t < |workers| ==> workers[t] == workers[1..][t - 1];
      assert forall t :: 0 <= t < |workers| - 1 ==> workers[1..][t] == workers[t + 1];
    }
  }

  lemma NoRankNoUsers(g: System, s: Sid)
    requires Counted(g) && s < |g.heap| && TotalRank(g.workers, s) == 0
    ensures g.heap[s].users == 0
  {
    InsideHasRank(g.workers, s);
    CountZero(g.workers, s);
    assert g.heap[s].users == UseCount(g.workers, s);
  }

  function EmptyStage(pc: ControlPc): nat {
    match pc
    case StopDrainWant(_) => 3
    case StopDrainIn(_) => 2
    case StopDelete(_) => 1
    case _ => 0
  }

  lemma EmptyDrainMoves(c: Config, g: System, a: Action, s: Sid)
    requires Inv(g) && Enabled(c, g, a) && Moves(a, Control) && Draining(g.control, s) && g.heap[s].users == 0
    ensures var h := Step(c, g, a);
            s < |h.heap| && (!h.heap[s].live || (Draining(h.control, s) && EmptyStage(h.control) < EmptyStage(g.control)))
  {
    hide MutexOwned, StateLockOwned, Counted;
  }

  lemma EmptyDrainAwake(g: System, s: Sid)
    requires Inv(g) && Draining(g.control, s) && g.heap[s].users == 0
    ensures StopAwake(g.control, s)
  {
  }

  /** With nobody left inside, the control thread deletes the state. */
  lemma {:induction false} EmptyDrainDeletes(c: Config, states: nat -> System, actions: nat -> Action, s: Sid, i: nat) returns (k: nat)
    requires FairRun(c, states, actions) && Draining(states(i).control, s) && TotalRank(states(i).workers, s) == 0
    ensures k >= i && s < |states(k).heap| && !states(k).heap[s].live
    decreases EmptyStage(states(i).control)
  {
    hide FairRun, Moves, Enabled, Step, Lifecycle, Locks, Sleepers, TotalRank, Draining, StopAwake;
    InvAt(c, states, actions, i);
    InvIndexed(states(i), s);
    NoRankNoUsers(states(i), s);
    EmptyDrainAwake(states(i), s);
    var m := ControlMoves(c, states, actions, s, i);
    DrainsOnLong(c, states, actions, s, i, m);
    if !states(m).heap[s].live {
      k := m;
    } else {
      InvAt(c, states, actions, m);
      NoRankNoUsers(states(m), s);
      EmptyDrainMoves(c, states(m), actions(m), s);
      DrainsOnLong(c, states, actions, s, i, m + 1);
      if !states(m + 1).heap[s].live {
        k := m + 1;
      } else {
        k := EmptyDrainDeletes(c, states, actions, s, m + 1);
      }
    }
  }

  lemma InsideIsAwake(g: System, s: Sid, t: Tid)
    requires Closed(g, s) && t < |g.workers| && StateOf(g.workers[t]) == Some(s)
    ensures Awake(g.workers[t])
  {
  }

  /** A draining state is deleted. */
  lemma {:induction false} DrainDeletes(c: Config, states: nat -> System, actions: nat -> Action, s: Sid, i: nat) returns (k: nat)
    requires FairRun(c, states, actions) && Draining(states(i).control, s)
    ensures k >= i && s < |states(k).heap| && !states(k).heap[s].live
    decreases TotalRank(states(i).workers, s)
  {
    hide FairRun, Moves, Enabled, Step, Inv, Sleepers, TotalRank, Draining, Closed, Awake;
    InsideHasRank(states(i).workers, s);
    if TotalRank(states(i).workers, s) == 0 {
      k := EmptyDrainDeletes(c, states, actions, s, i);
    } else {
      var t: Tid :| 0 <= t < |states(i).workers| && StateOf(states(i).workers[t]) == Some(s);
      InvAt(c, states, actions, i);
      DrainIsClosed(states(i), s);
      InsideIsAwake(states(i), s, t);
      var m := AwakeMoves(c, states, actions, t, i);
      DrainsOnLong(c, states, actions, s, i, m);
      if !states(m).heap[s].live {
        k := m;
      } else {
        MoveIsInside(states(m), actions(m), t, s);
        InvAt(c, states, actions, m);
        DrainIsClosed(states(m), s);
        RankStep(c, states(m), actions(m), s);
        DrainsOnLong(c, states, actions, s, m, m + 1);
        if !states(m + 1).heap[s].live {
          k := m + 1;
        } else {
          k := DrainDeletes(c, states, actions, s, m + 1);
        }
      }
    }
  }

  lemma MoveIsInside(g: System, a: Action, t: Tid, s: Sid)
    requires Moves(a, Worker(t)) && t < |g.workers| && StateOf(g.workers[t]) == Some(s)
    ensures StepInside(g, a, s)
  {
  }

  /** Every fair run that is inside a stop goes on to delete the stopped state. */
  lemma FairStopDeletes(c: Config, states: nat -> System, actions: nat -> Action, s: Sid, i: nat)
    requires FairRun(c, states, actions) && Stopping(states(i).control, s)
    ensures exists k: nat :: k >= i && s < |states(k).heap| && !states(k).heap[s].live
  {
    hide *;
    var m := DrainReached(c, states, actions, s, i);
    var k := DrainDeletes(c, states, actions, s, m);
  }
}
