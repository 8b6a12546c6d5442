/** What every step of the camera source keeps: exact user counts, single deletion, lock ownership,
    and no use of a deleted state. */
module GzImgSrcSafety {
  import opened Wrappers
  import opened GzImgSrc

  // ---- Counting the threads that use a state ----

  function UseCount(workers: seq<Pc>, s: Sid): nat {
    if workers == [] then 0
    else (if Uses(workers[0], s) then 1 else 0) + UseCount(workers[1..], s)
  }

  lemma {:induction false} CountUpdate(workers: seq<Pc>, t: Tid, pc: Pc, s: Sid)
    requires t < |workers|
    ensures UseCount(workers[t := pc], s)
            == UseCount(workers, s) - (if Uses(workers[t], s) then 1 else 0) + (if Uses(pc, s) then 1 else 0)
  {
    if t == 0 {
      assert workers[0 := pc][1..] == workers[1..];
    } else {
      assert workers[t := pc][1..] == workers[1..][t - 1 := pc];
      CountUpdate(workers[1..], t - 1, pc, s);
    }
  }

  lemma {:induction false} CountZero(workers: seq<Pc>, s: Sid)
    ensures UseCount(workers, s) == 0 <==> forall t :: 0 <= t < |workers| ==> !Uses(workers[t], s)
  {
    if workers != [] {
      CountZero(workers[1..], s);
      assert forall t :: 0 < t < |workers| ==> workers[t] == workers[1..][t - 1];
      assert forall t :: 0 <= t < |workers| - 1 ==> workers[1..][t] == workers[t + 1];
    }
  }

  lemma {:induction false} CountWakeAll(workers: seq<Pc>, x: Sid, s: Sid)
    ensures UseCount(WakeAll(workers, x), s) == UseCount(workers, s)
  {
    if workers != [] {
      assert WakeAll(workers, x)[1..] == WakeAll(workers[1..], x);
      CountWakeAll(workers[1..], x, s);
    }
  }

  // ---- The invariant ----

  function StateOf(pc: Pc): Option<Sid> {
    match pc
    case Idle(_) => None
    case AcquireWant(_) => None
    case AcquireIn(_) => None
    case LateUnlock(s, _) => Some(s)
    case _ => Some(pc.s)
  }

  function ControlState(pc: ControlPc): Option<Sid> {
    match pc
    case Resting => None
    case StartCheckWant => None
    case StartCheckIn => None
    case StartAllocate => None
    case StopTakeWant => None
    case StopTakeIn => None
    case _ => Some(pc.s)
  }

  ghost predicate Indexed(g: System) {
    && (g.current.Some? ==> g.current.value < |g.heap|)
    && (forall t :: 0 <= t < |g.workers| && StateOf(g.workers[t]).Some? ==> StateOf(g.workers[t]).value < |g.heap|)
    && (ControlState(g.control).Some? ==> ControlState(g.control).value < |g.heap|)
  }

  ghost predicate StateLockOwned(g: System) {
    && (match g.stateLock
        case None => true
        case Some(Control) => ControlInStateSection(g.control)
        case Some(Worker(t)) => t < |g.workers| && InStateSection(g.workers[t]))
    && (forall t :: 0 <= t < |g.workers| && InStateSection(g.workers[t]) ==> g.stateLock == Some(Worker(t)))
    && (ControlInStateSection(g.control) ==> g.stateLock == Some(Control))
  }

  predicate MutexHolderOk(mutex: Option<Thread>, workers: seq<Pc>, control: ControlPc, s: Sid) {
    match mutex
    case None => true
    case Some(Control) => control == StopMutexIn(s)
    case Some(Worker(t)) => t < |workers| && MutexOf(workers[t]) == Some(s)
  }

  ghost predicate MutexOwned(g: System)
    requires Indexed(g)
  {
    && (forall s :: 0 <= s < |g.heap| ==> MutexHolderOk(g.heap[s].mutex, g.workers, g.control, s))
    && (forall t :: 0 <= t < |g.workers| && MutexOf(g.workers[t]).Some? ==>
          g.heap[MutexOf(g.workers[t]).value].mutex == Some(Worker(t)))
    && (g.control.StopMutexIn? ==> g.heap[g.control.s].mutex == Some(Control))
  }

  ghost predicate Counted(g: System) {
    forall s :: 0 <= s < |g.heap| ==> g.heap[s].users == UseCount(g.workers, s)
  }

  // The control thread of a running stop: it has taken the state out of `current`.
  predicate Stopping(pc: ControlPc, s: Sid) {
    match pc
    case StopMutexWant(x) => x == s
    case StopMutexIn(x) => x == s
    case _ => Draining(pc, s) || pc == StopNotify(s)
  }

  // ... and has cleared running and notified every sleeper.
  predicate Draining(pc: ControlPc, s: Sid) {
    match pc
    case StopDrainWant(x) => x == s
    case StopDrainIn(x) => x == s
    case StopAsleep(x) => x == s
    case StopDelete(x) => x == s
    case _ => false
  }

  predicate Owned(current: Option<Sid>, control: ControlPc, s: Sid) {
    current == Some(s) || ControlState(control) == Some(s)
  }

  predicate ControlConsistent(g: System)
    requires ControlState(g.control).Some? ==> ControlState(g.control).value < |g.heap|
  {
    match g.control
    case StartAllocate => g.current.None?
    case StartPublishWant(s) => g.current.None? && g.heap[s].users == 0
    case StartPublishIn(s) => g.current.None? && g.heap[s].users == 0
    case StartSubscribe(s) => g.current == Some(s)
    case StartFailWant(s) => g.current == Some(s)
    case StartFailIn(s) => g.current == Some(s)
    case StartFailDelete(s) => g.current.None?
    case StopAsleep(s) => g.current.None? && g.heap[s].users > 0
    case StopDelete(s) => g.current.None? && g.heap[s].users == 0
    case _ => ControlState(g.control).Some? ==> g.current.None?
  }

  // A state is live exactly while it is published or the control thread handles it, and it is deleted once.
  predicate SourceOk(src: Source, current: Option<Sid>, control: ControlPc, s: Sid) {
    && (src.live <==> Owned(current, control, s))
    && src.deletes == (if src.live then 0 else 1)
    && (src.live ==> (src.running <==> !(control == StopNotify(s) || Draining(control, s))))
  }

  ghost predicate Lifecycle(g: System)
    requires ControlState(g.control).Some? ==> ControlState(g.control).value < |g.heap|
  {
    && ControlConsistent(g)
    && forall s :: 0 <= s < |g.heap| ==> SourceOk(g.heap[s], g.current, g.control, s)
  }

  // Nobody uses a deleted state, nor one that start is taking back. Only a promise about failing starts gives this.
  ghost predicate Spared(g: System) {
    && (forall s :: 0 <= s < |g.heap| && !g.heap[s].live ==> g.heap[s].users == 0)
    && (g.control.StartFailIn? || g.control.StartFailDelete? ==>
          g.control.s < |g.heap| && g.heap[g.control.s].users == 0)
  }

  ghost predicate Locks(g: System) {
    Indexed(g) && StateLockOwned(g) && MutexOwned(g)
  }

  ghost predicate Inv(g: System) {
    Locks(g) && Counted(g) && Lifecycle(g)
  }

  // ---- Preservation: lock ownership ----

  // A worker moves on and takes, keeps or gives back stateLock as its counters say.
  lemma MoveKeepsLocks(g: System, t: Tid, pc: Pc, lock: Option<Thread>)
    requires Locks(g) && t < |g.workers|
    requires StateOf(pc).Some? ==> StateOf(pc).value < |g.heap|
    requires MutexOf(pc) == MutexOf(g.workers[t])
    requires || (lock == g.stateLock && InStateSection(pc) == InStateSection(g.workers[t]))
             || (g.stateLock.None? && lock == Some(Worker(t)) && InStateSection(pc))
             || (g.stateLock == Some(Worker(t)) && lock.None? && !InStateSection(pc))
    ensures Locks(Goto(g.(stateLock := lock), t, pc))
  {
  }

  // A worker moves on and takes, keeps or gives back the mutex of s.
  lemma MoveKeepsMutex(g: System, t: Tid, pc: Pc, s: Sid, src: Source)
    requires Locks(g) && t < |g.workers| && s < |g.heap|
    requires StateOf(pc).Some? ==> StateOf(pc).value < |g.heap|
    requires InStateSection(pc) == InStateSection(g.workers[t])
    requires || (src.mutex == g.heap[s].mutex && MutexOf(pc) == MutexOf(g.workers[t]))
             || (g.heap[s].mutex.None? && src.mutex == Some(Worker(t)) && MutexOf(pc) == Some(s)
                 && MutexOf(g.workers[t]).None?)
             || (g.heap[s].mutex == Some(Worker(t)) && src.mutex.None? && MutexOf(pc).None?)
    ensures Locks(Goto(SetSource(g, s, src), t, pc))
  {
  }

  // The number of users is no concern of the locks.
  lemma UsersKeepLocks(g: System, s: Sid, users: int)
    requires Locks(g) && s < |g.heap|
    ensures Locks(SetSource(g, s, g.heap[s].(users := users)))
  {
  }

  lemma AcquireKeepsLocks(g: System, t: Tid)
    requires Locks(g) && t < |g.workers| && g.workers[t].AcquireIn?
    ensures Locks(AcquireSection(g, t))
  {
    var pc := AcquireSection(g, t).workers[t];
    if g.current.Some? {
      var s := g.current.value;
      UsersKeepLocks(g, s, g.heap[s].users + 1);
      MoveKeepsLocks(SetSource(g, s, g.heap[s].(users := g.heap[s].users + 1)), t, pc, None);
    } else {
      MoveKeepsLocks(g, t, pc, None);
    }
  }

  lemma SignalKeepsLocks(g: System, users: int)
    requires Locks(g)
    ensures Locks(SignalIdle(g, users))
  {
  }

  lemma ReleaseKeepsLocks(g: System, t: Tid)
    requires Locks(g) && t < |g.workers| && g.workers[t].ReleaseIn?
    ensures Locks(ReleaseSection(g, t))
  {
    var pc := g.workers[t];
    var users := g.heap[pc.s].users - 1;
    var next := if pc.late then LateUnlock(pc.s, pc.ret) else Idle(pc.ret);
    var g1 := SetSource(g, pc.s, g.heap[pc.s].(users := users));
    UsersKeepLocks(g, pc.s, users);
    MoveKeepsLocks(g1, t, next, None);
    SignalKeepsLocks(Goto(g1.(stateLock := None), t, next), users);
  }

  lemma BodyKeepsLocks(c: Config, g: System, t: Tid)
    requires Locks(g) && t < |g.workers| && WorkerEnabled(g, t, Body)
    ensures Locks(MutexBody(c, g, t))
  {
    var s := g.workers[t].s;
    var job := g.workers[t].job;
    MoveKeepsMutex(g, t, BodyPc(c, g.heap[s], s, job), s, BodySource(c, g.heap[s], job));
  }

  lemma MoveKeepsAllLocks(c: Config, g: System, t: Tid, m: Move)
    requires Locks(g) && t < |g.workers| && WorkerEnabled(g, t, m)
    ensures Locks(WorkerNext(c, g, t, m))
  {
    var pc := g.workers[t];
    var h := WorkerNext(c, g, t, m);
    match m {
      case Section => if pc.AcquireIn? { AcquireKeepsLocks(g, t); } else { ReleaseKeepsLocks(g, t); }
      case Body => BodyKeepsLocks(c, g, t);
      case LockMutex => MoveKeepsMutex(g, t, h.workers[t], pc.s, h.heap[pc.s]);
      case Unlock => MoveKeepsMutex(g, t, h.workers[t], pc.s, h.heap[pc.s]);
      case NotifyOne(woken) =>
        if woken.Some? {
          MoveKeepsLocks(g, woken.value, MutexWant(pc.s, Take), g.stateLock);
          MoveKeepsLocks(Goto(g, woken.value, MutexWant(pc.s, Take)), t, h.workers[t], g.stateLock);
        } else {
          MoveKeepsLocks(g, t, h.workers[t], g.stateLock);
        }
      case _ => MoveKeepsLocks(g, t, h.workers[t], h.stateLock);
    }
  }

  predicate StopPhase(pc: ControlPc) {
    pc.StopTakeWant? || pc.StopTakeIn? || (ControlState(pc).Some? && Stopping(pc, pc.s))
  }

  lemma StartKeepsLocks(g: System, subscribed: bool)
    requires Locks(g) && ControlEnabled(g) && !StopPhase(g.control)
    ensures Locks(ControlNext(g, subscribed))
  {
  }

  lemma StopMutexKeepsLocks(g: System, subscribed: bool)
    requires Locks(g) && ControlEnabled(g) && (g.control.StopMutexWant? || g.control.StopMutexIn?)
    ensures Locks(ControlNext(g, subscribed))
  {
  }

  lemma StopStateKeepsLocks(g: System, subscribed: bool)
    requires Locks(g) && ControlEnabled(g)
    requires g.control.StopTakeWant? || g.control.StopTakeIn? || g.control.StopDrainWant? || g.control.StopDrainIn?
             || g.control.StopDelete?
    ensures Locks(ControlNext(g, subscribed))
  {
  }

  lemma StopKeepsLocks(g: System, subscribed: bool)
    requires Locks(g) && ControlEnabled(g) && StopPhase(g.control) && !g.control.StopNotify?
    ensures Locks(ControlNext(g, subscribed))
  {
    hide Locks, ControlNext;
    if g.control.StopMutexWant? || g.control.StopMutexIn? {
      StopMutexKeepsLocks(g, subscribed);
    } else {
      StopStateKeepsLocks(g, subscribed);
    }
  }

  lemma NotifyAllKeepsLocks(g: System, subscribed: bool)
    requires Locks(g) && g.control.StopNotify?
    ensures Locks(ControlNext(g, subscribed))
  {
  }

  lemma LocksStep(c: Config, g: System, a: Action)
    requires Locks(g) && Enabled(c, g, a)
    ensures Locks(Step(c, g, a))
  {
    match a {
      case CallStart =>
      case CallStop =>
      case ControlSpuriousWake => SignalKeepsLocks(g, 0);
      case ControlStep(subscribed) =>
        if g.control.StopNotify? {
          NotifyAllKeepsLocks(g, subscribed);
        } else if StopPhase(g.control) {
          StopKeepsLocks(g, subscribed);
        } else {
          StartKeepsLocks(g, subscribed);
        }
      case By(t, m) => MoveKeepsAllLocks(c, g, t, m);
    }
  }

  // ---- Preservation: counts ----

  lemma CountedSection(c: Config, g: System, t: Tid, s: Sid)
    requires Locks(g) && Counted(g) && t < |g.workers| && WorkerEnabled(g, t, Section) && s < |g.heap|
    ensures WorkerNext(c, g, t, Section).heap[s].users == UseCount(WorkerNext(c, g, t, Section).workers, s)
  {
    var h := WorkerNext(c, g, t, Section);
    assert g.heap[s].users == UseCount(g.workers, s);
    CountUpdate(g.workers, t, h.workers[t], s);
    assert h.workers == g.workers[t := h.workers[t]];
  }

  lemma CountedBody(c: Config, g: System, t: Tid, s: Sid)
    requires Locks(g) && Counted(g) && t < |g.workers| && WorkerEnabled(g, t, Body) && s < |g.heap|
    ensures MutexBody(c, g, t).heap[s].users == UseCount(MutexBody(c, g, t).workers, s)
  {
    var x := g.workers[t].s;
    assert g.heap[s].users == UseCount(g.workers, s);
    CountUpdate(g.workers, t, BodyPc(c, g.heap[x], x, g.workers[t].job), s);
  }

  lemma CountedNotify(g: System, t: Tid, woken: Option<Tid>, s: Sid)
    requires Locks(g) && Counted(g) && t < |g.workers| && WorkerEnabled(g, t, NotifyOne(woken)) && s < |g.heap|
    ensures var ws := if woken.Some? then g.workers[woken.value := MutexWant(g.workers[t].s, Take)] else g.workers;
            g.heap[s].users == UseCount(ws[t := ReleaseWant(g.workers[t].s, false, NoReturn)], s)
  {
    assert g.heap[s].users == UseCount(g.workers, s);
    var pc := g.workers[t];
    var ws := if woken.Some? then g.workers[woken.value := MutexWant(pc.s, Take)] else g.workers;
    if woken.Some? { CountUpdate(g.workers, woken.value, MutexWant(pc.s, Take), s); }
    CountUpdate(ws, t, ReleaseWant(pc.s, false, NoReturn), s);
  }

  lemma CountedMove(c: Config, g: System, t: Tid, m: Move, s: Sid)
    requires Locks(g) && Counted(g) && t < |g.workers| && WorkerEnabled(g, t, m) && s < |g.heap|
    ensures WorkerNext(c, g, t, m).heap[s].users == UseCount(WorkerNext(c, g, t, m).workers, s)
  {
    assert g.heap[s].users == UseCount(g.workers, s);
    var pc := g.workers[t];
    match m {
      case Section => CountedSection(c, g, t, s);
      case Body => CountedBody(c, g, t, s);
      case NotifyOne(woken) =>
        CountedNotify(g, t, woken, s);
      case _ =>
        var next := WorkerNext(c, g, t, m).workers[t];
        CountUpdate(g.workers, t, next, s);
        assert WorkerNext(c, g, t, m).workers == g.workers[t := next];
    }
  }

  lemma CountedStep(c: Config, g: System, a: Action)
    requires Inv(g) && Enabled(c, g, a)
    ensures Counted(Step(c, g, a))
  {
    var h := Step(c, g, a);
    forall s | 0 <= s < |h.heap| ensures h.heap[s].users == UseCount(h.workers, s) {
      if a.By? {
        CountedMove(c, g, a.t, a.move, s);
      } else {
        if g.control.StopNotify? { CountWakeAll(g.workers, g.control.s, s); }
        if s == |g.heap| { CountZero(g.workers, s); }
      }
    }
  }

  // ---- Preservation: lifecycle ----

  lemma AcquireKeepsLifecycle(g: System, t: Tid)
    requires Locks(g) && Lifecycle(g) && t < |g.workers| && g.workers[t].AcquireIn?
    ensures Lifecycle(AcquireSection(g, t))
  {
  }

  lemma ReleaseKeepsLifecycle(g: System, t: Tid)
    requires Inv(g) && t < |g.workers| && g.workers[t].ReleaseIn?
    ensures ControlState(ReleaseSection(g, t).control) == ControlState(g.control)
    ensures Lifecycle(ReleaseSection(g, t))
  {
    var s := g.workers[t].s;
    CountZero(g.workers, s);
    assert g.heap[s].users == UseCount(g.workers, s) > 0;
    assert SourceOk(g.heap[s], g.current, g.control, s);
  }

  // Everything the lifecycle clauses mention except the user counts.
  ghost predicate SameLifecycle(g: System, h: System) {
    && h.current == g.current && h.control == g.control && |h.heap| == |g.heap|
    && (forall s :: 0 <= s < |g.heap| ==>
          h.heap[s].live == g.heap[s].live && h.heap[s].running == g.heap[s].running
          && h.heap[s].deletes == g.heap[s].deletes && h.heap[s].users == g.heap[s].users)
  }

  lemma BodyKeepsSame(c: Config, g: System, t: Tid)
    requires Locks(g) && Lifecycle(g) && t < |g.workers| && WorkerEnabled(g, t, Body)
    ensures SameLifecycle(g, MutexBody(c, g, t))
  {
    var s := g.workers[t].s;
    var src := BodySource(c, g.heap[s], g.workers[t].job);
    assert src.live == g.heap[s].live && src.running == g.heap[s].running
      && src.deletes == g.heap[s].deletes && src.users == g.heap[s].users;
  }

  lemma MutexMoveKeepsSame(c: Config, g: System, t: Tid, m: Move)
    requires Locks(g) && Lifecycle(g) && t < |g.workers| && WorkerEnabled(g, t, m) && (m.LockMutex? || m.Unlock?)
    ensures SameLifecycle(g, WorkerNext(c, g, t, m))
  {
  }

  lemma PcMoveKeepsSame(c: Config, g: System, t: Tid, m: Move)
    requires Locks(g) && Lifecycle(g) && t < |g.workers| && WorkerEnabled(g, t, m)
    requires !m.Section? && !m.Body? && !m.LockMutex? && !m.Unlock?
    ensures SameLifecycle(g, WorkerNext(c, g, t, m))
  {
    assert WorkerNext(c, g, t, m).heap == g.heap;
  }

  lemma SameKeepsLifecycle(g: System, h: System)
    requires Inv(g) && SameLifecycle(g, h)
    ensures Lifecycle(h)
  {
    assert ControlConsistent(h);
  }

  lemma StartKeepsLifecycle(g: System, subscribed: bool)
    requires Locks(g) && Lifecycle(g) && ControlEnabled(g) && !StopPhase(g.control) && !g.control.StartFailDelete?
    requires Indexed(ControlNext(g, subscribed))
    ensures Lifecycle(ControlNext(g, subscribed))
  {
  }

  lemma DeleteKeepsLifecycle(g: System, s: Sid)
    requires Inv(g) && (g.control == StopDelete(s) || g.control == StartFailDelete(s))
    ensures Lifecycle(Delete(g, s))
  {
    assert SourceOk(g.heap[s], g.current, g.control, s);
  }

  lemma StopTakeKeepsLifecycle(g: System, subscribed: bool)
    requires Inv(g) && ControlEnabled(g) && (g.control.StopTakeWant? || g.control.StopTakeIn?)
    requires Indexed(ControlNext(g, subscribed))
    ensures Lifecycle(ControlNext(g, subscribed))
  {
    hide StateLockOwned, MutexOwned, Counted;
  }

  lemma StopFlagKeepsLifecycle(g: System, subscribed: bool)
    requires Inv(g) && ControlEnabled(g)
    requires g.control.StopMutexWant? || g.control.StopMutexIn? || g.control.StopNotify?
    requires Indexed(ControlNext(g, subscribed))
    ensures Lifecycle(ControlNext(g, subscribed))
  {
    hide StateLockOwned, MutexOwned, Counted;
  }

  lemma StopDrainKeepsLifecycle(g: System, subscribed: bool)
    requires Inv(g) && ControlEnabled(g) && (g.control.StopDrainWant? || g.control.StopDrainIn?)
    requires Indexed(ControlNext(g, subscribed))
    ensures Lifecycle(ControlNext(g, subscribed))
  {
    hide StateLockOwned, MutexOwned;
    assert g.heap[g.control.s].users == UseCount(g.workers, g.control.s);
  }

  lemma StopKeepsLifecycle(g: System, subscribed: bool)
    requires Inv(g) && ControlEnabled(g) && StopPhase(g.control) && !g.control.StopDelete?
    requires Indexed(ControlNext(g, subscribed))
    ensures Lifecycle(ControlNext(g, subscribed))
  {
    if g.control.StopTakeWant? || g.control.StopTakeIn? {
      StopTakeKeepsLifecycle(g, subscribed);
    } else if g.control.StopDrainWant? || g.control.StopDrainIn? {
      StopDrainKeepsLifecycle(g, subscribed);
    } else {
      StopFlagKeepsLifecycle(g, subscribed);
    }
  }

  lemma MoveKeepsLifecycle(c: Config, g: System, t: Tid, m: Move)
    requires Inv(g) && t < |g.workers| && WorkerEnabled(g, t, m)
    ensures Lifecycle(WorkerNext(c, g, t, m))
  {
    if m.Section? {
      if g.workers[t].AcquireIn? { AcquireKeepsLifecycle(g, t); } else { ReleaseKeepsLifecycle(g, t); }
    } else {
      if m.Body? { BodyKeepsSame(c, g, t); }
      else if m.LockMutex? || m.Unlock? { MutexMoveKeepsSame(c, g, t, m); }
      else { PcMoveKeepsSame(c, g, t, m); }
      SameKeepsLifecycle(g, WorkerNext(c, g, t, m));
    }
  }

  lemma LifecycleStep(c: Config, g: System, a: Action)
    requires Inv(g) && Enabled(c, g, a) && Indexed(Step(c, g, a))
    ensures Lifecycle(Step(c, g, a))
  {
    match a {
      case By(t, m) => MoveKeepsLifecycle(c, g, t, m);
      case ControlStep(subscribed) =>
        if g.control.StopDelete? || g.control.StartFailDelete? { DeleteKeepsLifecycle(g, g.control.s); }
        else if StopPhase(g.control) { StopKeepsLifecycle(g, subscribed); }
        else { StartKeepsLifecycle(g, subscribed); }
      case _ =>
    }
  }

  /** Every step keeps the invariant. */
  lemma InvStep(c: Config, g: System, a: Action)
    requires Inv(g) && Enabled(c, g, a)
    ensures Inv(Step(c, g, a))
  {
    LocksStep(c, g, a);
    CountedStep(c, g, a);
    LifecycleStep(c, g, a);
  }

  lemma {:induction false} InvRuns(c: Config, g: System, run: seq<Action>, h: System)
    requires Inv(g) && Runs(c, g, run, h)
    ensures Inv(h)
    decreases |run|
  {
    if run != [] {
      InvStep(c, g, run[0]);
      InvRuns(c, Step(c, g, run[0]), run[1..], h);
    }
  }

  lemma InvReachable(c: Config, g: System)
    requires Reachable(c, g)
    ensures Inv(g)
  {
    var n: nat, run :| Runs(c, Init(n), run, g);
    InvRuns(c, Init(n), run, g);
  }

  // ---- Deleted states under the promise ----

  lemma MoveKeepsSpared(c: Config, g: System, t: Tid, m: Move)
    requires Inv(g) && Spared(g) && t < |g.workers| && WorkerEnabled(g, t, m)
    ensures Spared(WorkerNext(c, g, t, m))
  {
    hide MutexOwned, Counted, UseCount;
    if m.Section? {
      SectionKeepsSpared(c, g, t);
    } else {
      if m.Body? { BodyKeepsSame(c, g, t); }
      else if m.LockMutex? || m.Unlock? { MutexMoveKeepsSame(c, g, t, m); }
      else { PcMoveKeepsSame(c, g, t, m); }
    }
  }

  lemma SectionKeepsSpared(c: Config, g: System, t: Tid)
    requires Inv(g) && Spared(g) && t < |g.workers| && WorkerEnabled(g, t, Section)
    ensures Spared(WorkerNext(c, g, t, Section))
  {
    if g.workers[t].ReleaseIn? {
      CountZero(g.workers, g.workers[t].s);
      assert g.heap[g.workers[t].s].users == UseCount(g.workers, g.workers[t].s) > 0;
    } else if g.current.Some? {
      assert SourceOk(g.heap[g.current.value], g.current, g.control, g.current.value);
    }
  }

  lemma SparedStep(c: Config, g: System, a: Action)
    requires c.failing.NoCall? && Inv(g) && Spared(g) && Enabled(c, g, a)
    ensures Spared(Step(c, g, a))
  {
    hide MutexOwned, StateLockOwned, Counted, UseCount;
    if a.By? { MoveKeepsSpared(c, g, a.t, a.move); }
  }

  lemma {:induction false} SparedRuns(c: Config, g: System, run: seq<Action>, h: System)
    requires c.failing.NoCall? && Inv(g) && Spared(g) && Runs(c, g, run, h)
    ensures Spared(h)
    decreases |run|
  {
    if run != [] {
      InvStep(c, g, run[0]);
      SparedStep(c, g, run[0]);
      SparedRuns(c, Step(c, g, run[0]), run[1..], h);
    }
  }

  lemma SparedReachable(c: Config, g: System)
    requires c.failing.NoCall? && Reachable(c, g)
    ensures Spared(g)
  {
    var n: nat, run :| Runs(c, Init(n), run, g);
    SparedRuns(c, Init(n), run, g);
  }
}
