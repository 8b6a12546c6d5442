/** The two early exits whose lock guard outlives the release: what the order of release and unlock decides. */
module GzImgSrcExitOrder {
  import opened Wrappers
  import opened GzImgSrc
  import opened GzImgSrcTheorems

  lemma {:induction false} RunsOneMore(c: Config, g: System, run: seq<Action>, h: System, a: Action)
    requires Runs(c, g, run, h) && Enabled(c, h, a)
    ensures Runs(c, g, run + [a], Step(c, h, a))
    decreases |run|
  {
    hide Enabled, Step;
    if run == [] {
      assert (run + [a])[1..] == [];
    } else {
      RunsOneMore(c, Step(c, g, run[0]), run[1..], h, a);
      assert (run + [a])[1..] == run[1..] + [a];
    }
  }

  lemma ReachableStep(c: Config, g: System, a: Action)
    requires Reachable(c, g) && Enabled(c, g, a)
    ensures Reachable(c, Step(c, g, a))
  {
    hide Enabled, Step, Init;
    var n: nat, run :| Runs(c, Init(n), run, g);
    RunsOneMore(c, Init(n), run, g, a);
  }

  lemma Advance(c: Config, g: System, a: Action, h: System)
    requires Reachable(c, g) && Enabled(c, g, a) && h == Step(c, g, a)
    ensures Reachable(c, h)
  {
    ReachableStep(c, g, a);
  }

  const TICK := ControlStep(true)

  // One create has acquired the state that start published.
  lemma Acquired(c: Config)
    ensures Reachable(c, System(Some(0), None, [FRESH_SOURCE.(users := 1)], [MutexWant(0, Take)], Resting))
  {
    hide Reachable;
    var idle: seq<Pc> := [Idle(NoReturn)];
    var fresh_ := [FRESH_SOURCE];
    StartReachable(c);
    var g := System(Some(0), None, fresh_, idle, Resting);
    Advance(c, g, By(0, Begin(Create)), g.(workers := [AcquireWant(Create)]));
    var g1 := g.(workers := [AcquireWant(Create)]);
    Advance(c, g1, By(0, Lock), g1.(stateLock := Some(Worker(0)), workers := [AcquireIn(Create)]));
    var g2 := g1.(stateLock := Some(Worker(0)), workers := [AcquireIn(Create)]);
    Advance(c, g2, By(0, Section), System(Some(0), None, [FRESH_SOURCE.(users := 1)], [MutexWant(0, Take)], Resting));
  }

  lemma StartReachable(c: Config)
    ensures Reachable(c, System(Some(0), None, [FRESH_SOURCE], [Idle(NoReturn)], Resting))
  {
    hide Reachable;
    SubscribingReachable(c);
    var g := System(Some(0), None, [FRESH_SOURCE], [Idle(NoReturn)], Resting);
    Advance(c, g.(control := StartSubscribe(0)), TICK, g);
  }

  // start has published its state and is about to learn whether Subscribe succeeded.
  lemma SubscribingReachable(c: Config)
    ensures Reachable(c, System(Some(0), None, [FRESH_SOURCE], [Idle(NoReturn)], StartSubscribe(0)))
  {
    hide Reachable;
    var idle: seq<Pc> := [Idle(NoReturn)];
    var g := System(None, None, [], idle, Resting);
    InitReachable(c);
    Advance(c, g, CallStart, g.(control := StartCheckWant));
    Advance(c, g.(control := StartCheckWant), TICK, g.(stateLock := Some(Control), control := StartCheckIn));
    Advance(c, g.(stateLock := Some(Control), control := StartCheckIn), TICK, g.(control := StartAllocate));
    var h := g.(heap := [FRESH_SOURCE]);
    Advance(c, g.(control := StartAllocate), TICK, h.(control := StartPublishWant(0)));
    Advance(c, h.(control := StartPublishWant(0)), TICK, h.(stateLock := Some(Control), control := StartPublishIn(0)));
    Advance(c, h.(stateLock := Some(Control), control := StartPublishIn(0)), TICK,
            h.(current := Some(0), control := StartSubscribe(0)));
  }

  lemma InitReachable(c: Config)
    ensures Reachable(c, System(None, None, [], [Idle(NoReturn)], Resting))
  {
    assert Init(1) == System(None, None, [], [Idle(NoReturn)], Resting);
    assert Runs(c, Init(1), [], Init(1));
  }

  // Stop has cleared the running flag and is about to wait for the create to leave.
  lemma Stopped(c: Config)
    ensures Reachable(c, System(None, None, [FRESH_SOURCE.(users := 1, running := false)], [MutexWant(0, Take)],
                                StopDrainWant(0)))
  {
    hide Reachable;
    Acquired(c);
    var src := FRESH_SOURCE.(users := 1);
    var g := System(Some(0), None, [src], [MutexWant(0, Take)], Resting);
    Advance(c, g, CallStop, g.(control := StopTakeWant));
    Advance(c, g.(control := StopTakeWant), TICK, g.(stateLock := Some(Control), control := StopTakeIn));
    var h := g.(current := None);
    Advance(c, g.(stateLock := Some(Control), control := StopTakeIn), TICK, h.(control := StopMutexWant(0)));
    var locked := h.(heap := [src.(mutex := Some(Control))], control := StopMutexIn(0));
    Advance(c, h.(control := StopMutexWant(0)), TICK, locked);
    var k := h.(heap := [src.(running := false)]);
    Advance(c, locked, TICK, k.(control := StopNotify(0)));
    Advance(c, k.(control := StopNotify(0)), TICK, k.(control := StopDrainWant(0)));
  }

  // The create leaves by the early exit as written, and stop deletes the state before the guard unlocks.
  lemma DeletedUnderGuard(c: Config)
    requires c.order.AsWritten?
    ensures exists g :: Reachable(c, g) && |g.workers| == 1 && g.workers[0].LateUnlock? && g.workers[0].s < |g.heap|
                        && !g.heap[g.workers[0].s].live
  {
    hide Reachable;
    Stopped(c);
    var src := FRESH_SOURCE.(users := 1, running := false);
    var g := System(None, None, [src], [MutexWant(0, Take)], StopDrainWant(0));
    var held := src.(mutex := Some(Worker(0)));
    var g1 := g.(heap := [held], workers := [MutexIn(0, Take)]);
    Advance(c, g, By(0, LockMutex), g1);
    var g2 := g1.(workers := [ReleaseWant(0, true, Flushing)]);
    Advance(c, g1, By(0, Body), g2);
    var g3 := g2.(stateLock := Some(Worker(0)), workers := [ReleaseIn(0, true, Flushing)]);
    Advance(c, g2, By(0, Lock), g3);
    var g4 := g2.(heap := [held.(users := 0)], workers := [LateUnlock(0, Flushing)]);
    Advance(c, g3, By(0, Section), g4);
    Advance(c, g4, TICK, g4.(stateLock := Some(Control), control := StopDrainIn(0)));
    Advance(c, g4.(stateLock := Some(Control), control := StopDrainIn(0)), TICK, g4.(control := StopDelete(0)));
    var g5 := g4.(heap := [held.(users := 0, live := false, deletes := 1)], control := Resting);
    Advance(c, g4.(control := StopDelete(0)), TICK, g5);
  }

  /** Some run unlocks the mutex of a deleted state exactly when the early exits release before they unlock, as
      written; unlocking first rules it out. */
  lemma MutexOutlivedOnlyAsWritten(c: Config)
    ensures (exists g: System, t: nat ::
               Reachable(c, g) && t < |g.workers| && g.workers[t].LateUnlock? && g.workers[t].s < |g.heap|
               && !g.heap[g.workers[t].s].live)
            <==> c.order.AsWritten?
  {
    if c.order.AsWritten? {
      DeletedUnderGuard(c);
      var g :| Reachable(c, g) && |g.workers| == 1 && g.workers[0].LateUnlock? && g.workers[0].s < |g.heap|
               && !g.heap[g.workers[0].s].live;
      assert 0 < |g.workers|;
    } else {
      forall g: System, t: nat | Reachable(c, g) && t < |g.workers| ensures !g.workers[t].LateUnlock? {
        var n: nat, run :| Runs(c, Init(n), run, g);
        NeverLateRuns(c, Init(n), run, g);
        assert NeverLate(g.workers[t]);
      }
    }
  }
}
