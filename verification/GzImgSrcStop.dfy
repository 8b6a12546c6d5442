/** stop drains its state: every waiting create leaves with FLUSHING, the remaining work is bounded, and
    the delete is always within reach. */
module GzImgSrcStop {
  import opened Wrappers
  import opened GzImgSrc
  import opened GzImgSrcSafety
  import opened GzImgSrcTheorems

  // ---- Sleepers and late unlockers ----

  // Whoever still holds a mutex on its way out saw running cleared.
  predicate IsLate(pc: Pc) {
    match pc
    case ReleaseWant(_, late, _) => late
    case ReleaseIn(_, late, _) => late
    case LateUnlock(_, _) => true
    case _ => false
  }

  // A sleeper's source is running, or the wake-up of stop is still to come.
  predicate PcOk(pc: Pc, heap: seq<Source>, control: ControlPc) {
    StateOf(pc).Some? && StateOf(pc).value < |heap| ==>
      && (pc.Asleep? ==> heap[pc.s].running || control == StopNotify(pc.s))
      && (IsLate(pc) ==> !heap[pc.s].running)
  }

  ghost predicate Sleepers(g: System) {
    forall t :: 0 <= t < |g.workers| ==> PcOk(g.workers[t], g.heap, g.control)
  }

  lemma SectionKeepsSleepers(c: Config, g: System, t: Tid)
    requires Locks(g) && Sleepers(g) && t < |g.workers| && WorkerEnabled(g, t, Section)
    ensures Sleepers(WorkerNext(c, g, t, Section))
  {
    var h := WorkerNext(c, g, t, Section);
    forall u | 0 <= u < |h.workers| ensures PcOk(h.workers[u], h.heap, h.control) {
      assert PcOk(g.workers[u], g.heap, g.control);
    }
  }

  lemma MoveKeepsSleepers(c: Config, g: System, t: Tid, m: Move)
    requires Locks(g) && Sleepers(g) && t < |g.workers| && WorkerEnabled(g, t, m) && !m.Section?
    ensures Sleepers(WorkerNext(c, g, t, m))
  {
    var h := WorkerNext(c, g, t, m);
    forall u | 0 <= u < |h.workers| ensures PcOk(h.workers[u], h.heap, h.control) {
      assert PcOk(g.workers[u], g.heap, g.control);
    }
  }

  lemma ControlKeepsSleepers(g: System, subscribed: bool)
    requires Locks(g) && Lifecycle(g) && Sleepers(g) && ControlEnabled(g)
    ensures Sleepers(ControlNext(g, subscribed))
  {
    var h := ControlNext(g, subscribed);
    forall u | 0 <= u < |h.workers| ensures PcOk(h.workers[u], h.heap, h.control) {
      assert PcOk(g.workers[u], g.heap, g.control);
    }
  }

  lemma SleepersStep(c: Config, g: System, a: Action)
    requires Inv(g) && Sleepers(g) && Enabled(c, g, a)
    ensures Sleepers(Step(c, g, a))
  {
    match a {
      case By(t, m) => if m.Section? { SectionKeepsSleepers(c, g, t); } else { MoveKeepsSleepers(c, g, t, m); }
      case ControlStep(subscribed) => ControlKeepsSleepers(g, subscribed);
      case _ =>
        forall u | 0 <= u < |g.workers| ensures PcOk(g.workers[u], g.heap, Step(c, g, a).control) {
          assert PcOk(g.workers[u], g.heap, g.control);
        }
    }
  }

  lemma {:induction false} SleepersRuns(c: Config, g: System, run: seq<Action>, h: System)
    requires Inv(g) && Sleepers(g) && Runs(c, g, run, h)
    ensures Sleepers(h)
    decreases |run|
  {
    if run != [] {
      InvStep(c, g, run[0]);
      SleepersStep(c, g, run[0]);
      SleepersRuns(c, Step(c, g, run[0]), run[1..], h);
    }
  }

  lemma SleepersReachable(c: Config, g: System)
    requires Reachable(c, g)
    ensures Inv(g) && Sleepers(g)
  {
    InvReachable(c, g);
    var n: nat, run :| Runs(c, Init(n), run, g);
    SleepersRuns(c, Init(n), run, g);
  }

  /** Once stop has notified, nobody sleeps on the state any more. */
  lemma NobodySleepsWhileDraining(c: Config, g: System, s: Sid)
    requires Reachable(c, g) && Draining(g.control, s)
    ensures forall t :: 0 <= t < |g.workers| ==> g.workers[t] != Asleep(s)
  {
    SleepersReachable(c, g);
    assert SourceOk(g.heap[s], g.current, g.control, s);
    forall t | 0 <= t < |g.workers| ensures g.workers[t] != Asleep(s) {
      assert PcOk(g.workers[t], g.heap, g.control);
    }
  }

  // ---- A create that finds running cleared leaves with FLUSHING ----

  predicate Leaving(pc: Pc, s: Sid) {
    match pc
    case Asleep(x) => x == s
    case MutexWant(x, Take) => x == s
    case MutexIn(x, Take) => x == s
    case ReleaseWant(x, _, Flushing) => x == s
    case ReleaseIn(x, _, Flushing) => x == s
    case LateUnlock(x, Flushing) => x == s
    case _ => false
  }

  predicate OnWayOut(g: System, t: Tid, s: Sid) {
    && t < |g.workers| && s < |g.heap| && !g.heap[s].running
    && (Leaving(g.workers[t], s) || g.workers[t] == Idle(Flushing))
  }

  predicate IsBegin(a: Action, t: Tid) {
    a.By? && a.t == t && a.move.Begin?
  }

  lemma OnWayOutSection(c: Config, g: System, u: Tid, t: Tid, s: Sid)
    requires Locks(g) && OnWayOut(g, t, s) && u < |g.workers| && WorkerEnabled(g, u, Section)
    ensures OnWayOut(WorkerNext(c, g, u, Section), t, s)
  {
  }

  lemma OnWayOutMove(c: Config, g: System, u: Tid, m: Move, t: Tid, s: Sid)
    requires Locks(g) && OnWayOut(g, t, s) && u < |g.workers| && WorkerEnabled(g, u, m)
    requires !m.Section? && !(u == t && m.Begin?)
    ensures OnWayOut(WorkerNext(c, g, u, m), t, s)
  {
  }

  lemma OnWayOutControl(g: System, subscribed: bool, t: Tid, s: Sid)
    requires Locks(g) && OnWayOut(g, t, s) && ControlEnabled(g)
    ensures OnWayOut(ControlNext(g, subscribed), t, s)
  {
  }

  lemma OnWayOutStep(c: Config, g: System, a: Action, t: Tid, s: Sid)
    requires Locks(g) && OnWayOut(g, t, s) && Enabled(c, g, a) && !IsBegin(a, t)
    ensures OnWayOut(Step(c, g, a), t, s)
  {
    match a {
      case By(u, m) => if m.Section? { OnWayOutSection(c, g, u, t, s); } else { OnWayOutMove(c, g, u, m, t, s); }
      case ControlStep(subscribed) => OnWayOutControl(g, subscribed, t, s);
      case _ =>
    }
  }

  /** Along any run, a create caught inside a stopped state takes no frame: until its thread starts another
      call it is on its way to FLUSHING or has returned it. */
  lemma {:induction false} StoppedCreateFlushes(c: Config, g: System, run: seq<Action>, h: System, t: Tid, s: Sid)
    requires Inv(g) && OnWayOut(g, t, s) && Runs(c, g, run, h)
    requires forall i :: 0 <= i < |run| ==> !IsBegin(run[i], t)
    ensures OnWayOut(h, t, s)
    ensures h.workers[t].Idle? ==> h.workers[t].last == Flushing
    decreases |run|
  {
    if run != [] {
      InvStep(c, g, run[0]);
      OnWayOutStep(c, g, run[0], t, s);
      StoppedCreateFlushes(c, Step(c, g, run[0]), run[1..], h, t, s);
    }
  }

  // ---- The ranking ----

  // Steps a thread inside a call on s may still need once nobody can sleep on s.
  function Rank(pc: Pc, s: Sid): nat {
    if StateOf(pc) != Some(s) then 0
    else
      match pc
      case Inspect(_, _) => 10
      case MutexWant(_, _) => 9
      case MutexIn(_, _) => 8
      case Asleep(_) => 7
      case Notify(_) => 6
      case Deliver(_, _) => 6
      case ReleaseWant(_, _, _) => 4
      case ReleaseIn(_, _, _) => 3
      case _ => 2
  }

  function TotalRank(workers: seq<Pc>, s: Sid): nat {
    if workers == [] then 0 else Rank(workers[0], s) + TotalRank(workers[1..], s)
  }

  lemma {:induction false} RankUpdate(workers: seq<Pc>, t: Tid, pc: Pc, s: Sid)
    requires t < |workers|
    ensures TotalRank(workers[t := pc], s) == TotalRank(workers, s) - Rank(workers[t], s) + Rank(pc, s)
  {
    if t == 0 {
      assert workers[0 := pc][1..] == workers[1..];
    } else {
      assert workers[t := pc][1..] == workers[1..][t - 1 := pc];
      RankUpdate(workers[1..], t - 1, pc, s);
    }
  }

  // s is out of reach for new callers, flagged as stopped, and nobody sleeps on it.
  ghost predicate Closed(g: System, s: Sid) {
    Detached(g, s) && !g.heap[s].running && forall t :: 0 <= t < |g.workers| ==> g.workers[t] != Asleep(s)
  }

  predicate StepInside(g: System, a: Action, s: Sid) {
    a.By? && a.t < |g.workers| && StateOf(g.workers[a.t]) == Some(s)
  }

  // Only t moved, downwards if it was inside a call on s and without entering one otherwise.
  predicate RankedMove(before: seq<Pc>, after: seq<Pc>, t: Tid, s: Sid)
    requires t < |before|
  {
    && |after| == |before|
    && after == before[t := after[t]]
    && (if StateOf(before[t]) == Some(s) then Rank(after[t], s) < Rank(before[t], s) else Rank(after[t], s) == 0)
  }

  lemma SectionKeepsClosed(c: Config, g: System, t: Tid, s: Sid)
    requires Indexed(g) && Closed(g, s) && t < |g.workers| && WorkerEnabled(g, t, Section)
    ensures Closed(WorkerNext(c, g, t, Section), s)
  {
  }

  lemma SectionRank(c: Config, g: System, t: Tid, s: Sid)
    requires Indexed(g) && Detached(g, s) && t < |g.workers| && WorkerEnabled(g, t, Section)
    ensures RankedMove(g.workers, WorkerNext(c, g, t, Section).workers, t, s)
  {
  }

  lemma ClosedMoveSection(c: Config, g: System, t: Tid, s: Sid)
    requires Locks(g) && Closed(g, s) && t < |g.workers| && WorkerEnabled(g, t, Section)
    ensures Closed(WorkerNext(c, g, t, Section), s)
    ensures RankedMove(g.workers, WorkerNext(c, g, t, Section).workers, t, s)
  {
    hide RankedMove, WorkerNext, WorkerEnabled;
    SectionKeepsClosed(c, g, t, s);
    SectionRank(c, g, t, s);
  }

  lemma ClosedMove(c: Config, g: System, t: Tid, m: Move, s: Sid)
    requires Locks(g) && Closed(g, s) && t < |g.workers| && WorkerEnabled(g, t, m) && !m.Section? && !m.NotifyOne?
    ensures Closed(WorkerNext(c, g, t, m), s)
    ensures RankedMove(g.workers, WorkerNext(c, g, t, m).workers, t, s)
  {
    var h := WorkerNext(c, g, t, m);
    assert h.workers == g.workers[t := h.workers[t]];
  }

  lemma NotifyKeepsClosed(c: Config, g: System, t: Tid, woken: Option<Tid>, s: Sid)
    requires Locks(g) && Closed(g, s) && t < |g.workers| && WorkerEnabled(g, t, NotifyOne(woken))
    ensures Closed(WorkerNext(c, g, t, NotifyOne(woken)), s)
  {
    hide Locks;
  }

  lemma NotifyRank(c: Config, g: System, t: Tid, woken: Option<Tid>, s: Sid)
    requires Closed(g, s) && t < |g.workers| && WorkerEnabled(g, t, NotifyOne(woken))
    ensures var h := WorkerNext(c, g, t, NotifyOne(woken));
            if g.workers[t].s == s then TotalRank(h.workers, s) < TotalRank(g.workers, s)
            else TotalRank(h.workers, s) == TotalRank(g.workers, s)
  {
    hide TotalRank;
    var pc := g.workers[t];
    var ws := if woken.Some? then g.workers[woken.value := MutexWant(pc.s, Take)] else g.workers;
    if woken.Some? { RankUpdate(g.workers, woken.value, MutexWant(pc.s, Take), s); }
    RankUpdate(ws, t, ReleaseWant(pc.s, false, NoReturn), s);
  }

  /** After stop's wake-up no step raises the work left on the state, and every step of a thread still inside
      a call on it lowers that work. */
  lemma RankStep(c: Config, g: System, a: Action, s: Sid)
    requires Inv(g) && Closed(g, s) && Enabled(c, g, a)
    ensures Closed(Step(c, g, a), s)
    ensures if StepInside(g, a, s) then TotalRank(Step(c, g, a).workers, s) < TotalRank(g.workers, s)
            else TotalRank(Step(c, g, a).workers, s) == TotalRank(g.workers, s)
  {
    var h := Step(c, g, a);
    if a.By? {
      if a.move.NotifyOne? {
        NotifyKeepsClosed(c, g, a.t, a.move.woken, s);
        NotifyRank(c, g, a.t, a.move.woken, s);
      } else {
        if a.move.Section? { ClosedMoveSection(c, g, a.t, s); } else { ClosedMove(c, g, a.t, a.move, s); }
        RankUpdate(g.workers, a.t, h.workers[a.t], s);
      }
    } else {
      ClosedControl(c, g, a, s);
    }
  }

  lemma {:induction false} RankWakeAll(workers: seq<Pc>, x: Sid, s: Sid)
    requires x != s || forall t :: 0 <= t < |workers| ==> workers[t] != Asleep(s)
    ensures TotalRank(WakeAll(workers, x), s) == TotalRank(workers, s)
  {
    if workers != [] {
      assert WakeAll(workers, x)[1..] == WakeAll(workers[1..], x);
      RankWakeAll(workers[1..], x, s);
    }
  }

  lemma ClosedControl(c: Config, g: System, a: Action, s: Sid)
    requires Locks(g) && Closed(g, s) && Enabled(c, g, a) && !a.By?
    ensures Closed(Step(c, g, a), s) && TotalRank(Step(c, g, a).workers, s) == TotalRank(g.workers, s)
  {
    if a.ControlStep? && g.control.StopNotify? { RankWakeAll(g.workers, g.control.s, s); }
  }

  // The steps of a run taken by threads that are inside a call on s when they take them.
  ghost function InsideSteps(c: Config, g: System, run: seq<Action>, s: Sid): nat
    decreases |run|
  {
    if run == [] || !Enabled(c, g, run[0]) then 0
    else (if StepInside(g, run[0], s) then 1 else 0) + InsideSteps(c, Step(c, g, run[0]), run[1..], s)
  }

  /** Along any run whatever, the threads inside a closed state take at most as many steps as its rank. */
  lemma {:induction false} InsideStepsBounded(c: Config, g: System, run: seq<Action>, h: System, s: Sid)
    requires Inv(g) && Closed(g, s) && Runs(c, g, run, h)
    ensures TotalRank(h.workers, s) + InsideSteps(c, g, run, s) <= TotalRank(g.workers, s)
    decreases |run|
  {
    if run != [] {
      InvStep(c, g, run[0]);
      RankStep(c, g, run[0], s);
      InsideStepsBounded(c, Step(c, g, run[0]), run[1..], h, s);
    }
  }

  // ---- Progress ----

  function Phase(pc: ControlPc): nat {
    match pc
    case StopMutexWant(_) => 3
    case StopMutexIn(_) => 2
    case StopNotify(_) => 1
    case _ => 0
  }

  predicate LockedByWorker(g: System) {
    g.stateLock.Some? && g.stateLock.value.Worker?
  }

  // How far the control thread is from its delete, or from sleeping while stateLock is free.
  function DrainStage(g: System): nat {
    match g.control
    case StopDrainWant(_) => if LockedByWorker(g) then 6 else 4
    case StopAsleep(_) => if LockedByWorker(g) then 5 else 1
    case StopDrainIn(_) => 3
    case StopDelete(_) => 2
    case _ => 0
  }

  predicate Lower(g: System, h: System, s: Sid) {
    || Phase(h.control) < Phase(g.control)
    || (Phase(h.control) == Phase(g.control) &&
        (|| TotalRank(h.workers, s) < TotalRank(g.workers, s)
         || (TotalRank(h.workers, s) == TotalRank(g.workers, s) && DrainStage(h) < DrainStage(g))))
  }

  // Whoever holds stateLock can leave its section.
  lemma SectionHelps(c: Config, g: System, s: Sid) returns (a: Action)
    requires Inv(g) && Closed(g, s) && LockedByWorker(g) && (g.control == StopDrainWant(s) || g.control == StopAsleep(s))
    ensures Enabled(c, g, a) && Lower(g, Step(c, g, a), s) && Draining(Step(c, g, a).control, s)
  {
    var t := g.stateLock.value.t;
    a := By(t, Section);
    RankStep(c, g, a, s);
  }

  // A thread about to release, or the lock it waits for, can move.
  lemma ReleaseHelps(c: Config, g: System, s: Sid, t: Tid) returns (a: Action)
    requires Inv(g) && g.control == StopAsleep(s) && Closed(g, s)
    requires t < |g.workers| && g.workers[t].ReleaseWant? && g.workers[t].s == s
    ensures Enabled(c, g, a) && Lower(g, Step(c, g, a), s) && Draining(Step(c, g, a).control, s)
  {
    if g.stateLock.None? {
      a := By(t, Lock);
      RankStep(c, g, a, s);
    } else {
      a := SectionHelps(c, g, s);
    }
  }

  // The holder of the state's mutex can move towards unlocking it.
  lemma HolderHelps(c: Config, g: System, s: Sid) returns (a: Action)
    requires Inv(g) && g.control == StopAsleep(s) && Closed(g, s) && g.heap[s].mutex.Some?
    ensures Enabled(c, g, a) && Lower(g, Step(c, g, a), s) && Draining(Step(c, g, a).control, s)
  {
    assert MutexHolderOk(g.heap[s].mutex, g.workers, g.control, s);
    var t := g.heap[s].mutex.value.t;
    if g.workers[t].ReleaseWant? {
      a := ReleaseHelps(c, g, s, t);
    } else {
      a := By(t, if g.workers[t].MutexIn? then Body else if g.workers[t].ReleaseIn? then Section else Unlock);
      RankStep(c, g, a, s);
    }
  }

  lemma UserHelps(c: Config, g: System, s: Sid, t: Tid) returns (a: Action)
    requires Inv(g) && g.control == StopAsleep(s) && Closed(g, s)
    requires t < |g.workers| && Uses(g.workers[t], s)
    ensures Enabled(c, g, a) && Lower(g, Step(c, g, a), s) && Draining(Step(c, g, a).control, s)
  {
    var pc := g.workers[t];
    if pc.ReleaseWant? {
      a := ReleaseHelps(c, g, s, t);
    } else if pc.MutexWant? && g.heap[s].mutex.Some? {
      a := HolderHelps(c, g, s);
    } else {
      a := By(t,
              match pc
              case Inspect(_, _) => Check(0)
              case MutexWant(_, _) => LockMutex
              case MutexIn(_, _) => Body
              case Notify(_) => NotifyOne(None)
              case Deliver(_, _) => Finish(FlowOk)
              case _ => Section);
      RankStep(c, g, a, s);
    }
  }

  lemma DrainHelps(c: Config, g: System, s: Sid) returns (a: Action)
    requires Inv(g) && Sleepers(g) && Draining(g.control, s)
    ensures Enabled(c, g, a)
    ensures !Step(c, g, a).heap[s].live || (Draining(Step(c, g, a).control, s) && Lower(g, Step(c, g, a), s))
  {
    assert SourceOk(g.heap[s], g.current, g.control, s);
    assert Closed(g, s) by {
      forall t | 0 <= t < |g.workers| ensures g.workers[t] != Asleep(s) {
        assert PcOk(g.workers[t], g.heap, g.control);
      }
    }
    if g.control.StopAsleep? {
      CountZero(g.workers, s);
      assert g.heap[s].users == UseCount(g.workers, s);
      var t :| 0 <= t < |g.workers| && Uses(g.workers[t], s);
      a := UserHelps(c, g, s, t);
    } else if LockedByWorker(g) {
      if g.control.StopDrainWant? {
        a := SectionHelps(c, g, s);
      } else {
        a := ControlStep(true);
      }
    } else {
      a := ControlStep(true);
    }
  }

  lemma FlagHelps(c: Config, g: System, s: Sid) returns (a: Action)
    requires Inv(g) && Sleepers(g) && Stopping(g.control, s) && !Draining(g.control, s)
    ensures Enabled(c, g, a) && Stopping(Step(c, g, a).control, s) && Lower(g, Step(c, g, a), s)
  {
    assert SourceOk(g.heap[s], g.current, g.control, s);
    if g.control.StopMutexWant? && g.heap[s].mutex.Some? {
      assert MutexHolderOk(g.heap[s].mutex, g.workers, g.control, s);
      var t := g.heap[s].mutex.value.t;
      assert PcOk(g.workers[t], g.heap, g.control);
      a := By(t, Body);
      RankUpdate(g.workers, t, BodyPc(c, g.heap[s], s, g.workers[t].job), s);
    } else {
      a := ControlStep(true);
    }
  }

  /** From every state inside a running stop some finite run deletes the state: nothing can deadlock or wait
      for a wake-up that never comes. */
  lemma {:induction false} StopFinishes(c: Config, g: System, s: Sid) returns (run: seq<Action>, h: System)
    requires Inv(g) && Sleepers(g) && Stopping(g.control, s)
    ensures Runs(c, g, run, h) && s < |h.heap| && !h.heap[s].live
    decreases Phase(g.control), TotalRank(g.workers, s), DrainStage(g)
  {
    var a;
    if Draining(g.control, s) { a := DrainHelps(c, g, s); } else { a := FlagHelps(c, g, s); }
    var next := Step(c, g, a);
    if !next.heap[s].live {
      run, h := [a], next;
    } else {
      InvStep(c, g, a);
      SleepersStep(c, g, a);
      var rest;
      rest, h := StopFinishes(c, next, s);
      run := [a] + rest;
      assert run[1..] == rest;
    }
  }

  lemma StopReachesDelete(c: Config, g: System, s: Sid)
    requires Reachable(c, g) && Stopping(g.control, s)
    ensures exists run, h :: Runs(c, g, run, h) && s < |h.heap| && !h.heap[s].live
  {
    SleepersReachable(c, g);
    var run, h := StopFinishes(c, g, s);
  }
}
