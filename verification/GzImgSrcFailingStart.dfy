/** The failing exit of start, which deletes the state it published without reading activeUsers. */
module GzImgSrcFailingStart {
  import opened Wrappers
  import opened FrameShape
  import opened GzImgSrc
  import opened GzImgSrcTheorems
  import opened GzImgSrcExitOrder

  const FAIL := ControlStep(false)

  // A callback that began before, from an earlier subscription say, acquires the state while start subscribes.
  lemma CallbackHoldsState(c: Config, img: Image)
    ensures Reachable(c, System(Some(0), None, [FRESH_SOURCE.(users := 1)], [Inspect(0, img)], StartSubscribe(0)))
  {
    hide Reachable;
    SubscribingReachable(c);
    var g := System(Some(0), None, [FRESH_SOURCE], [Idle(NoReturn)], StartSubscribe(0));
    var g1 := g.(workers := [AcquireWant(OnImage(img))]);
    Advance(c, g, By(0, Begin(OnImage(img))), g1);
    var g2 := g.(stateLock := Some(Worker(0)), workers := [AcquireIn(OnImage(img))]);
    Advance(c, g1, By(0, Lock), g2);
    Advance(c, g2, By(0, Section), g.(heap := [FRESH_SOURCE.(users := 1)], workers := [Inspect(0, img)]));
  }

  // Subscribe fails under the callback.
  lemma AboutToDelete(c: Config, img: Image)
    requires c.failing.AnyCall?
    ensures Reachable(c, System(None, None, [FRESH_SOURCE.(users := 1)], [Inspect(0, img)], StartFailDelete(0)))
  {
    hide Reachable;
    CallbackHoldsState(c, img);
    var g := System(Some(0), None, [FRESH_SOURCE.(users := 1)], [Inspect(0, img)], StartSubscribe(0));
    Advance(c, g, FAIL, g.(control := StartFailWant(0)));
    var g1 := g.(stateLock := Some(Control), control := StartFailIn(0));
    Advance(c, g.(control := StartFailWant(0)), FAIL, g1);
    Advance(c, g1, FAIL, g.(current := None, control := StartFailDelete(0)));
  }

  /** The run that fails: for any image that passes the shape check, the callback is about to write the frame of
      a state that the failing start has deleted. */
  lemma CallbackOnDeletedState(c: Config, img: Image, now: nat)
    requires c.failing.AnyCall? && CheckShape(c, img, now).Some?
    ensures exists g :: Reachable(c, g) && |g.heap| == 1 && |g.workers| == 1 && !g.heap[0].live
                        && g.workers[0] == MutexIn(0, Store(CheckShape(c, img, now).value))
  {
    hide Reachable, CheckShape;
    AboutToDelete(c, img);
    var frame := CheckShape(c, img, now).value;
    var g := System(None, None, [FRESH_SOURCE.(users := 1)], [Inspect(0, img)], StartFailDelete(0));
    var dead := FRESH_SOURCE.(users := 1, live := false, deletes := 1);
    var g1 := g.(heap := [dead], control := Resting);
    Advance(c, g, FAIL, g1);
    var g2 := g1.(workers := [MutexWant(0, Store(frame))]);
    Advance(c, g1, By(0, Check(now)), g2);
    var g3 := g1.(heap := [dead.(mutex := Some(Worker(0)))], workers := [MutexIn(0, Store(frame))]);
    Advance(c, g2, By(0, LockMutex), g3);
  }

  // The step deletes a state that some call still uses.
  predicate DeletesInUse(c: Config, g: System, a: Action, s: Sid) {
    && Enabled(c, g, a) && s < |g.heap| && s < |Step(c, g, a).heap|
    && g.heap[s].live && !Step(c, g, a).heap[s].live && Users(g.workers, s) != {}
  }

  lemma SomeRunDeletesInUse(c: Config)
    requires c.failing.AnyCall?
    ensures exists g, a, s :: Reachable(c, g) && DeletesInUse(c, g, a, s)
  {
    hide Reachable;
    var img := Image(OtherFormat, 0, 0, 0, []);
    AboutToDelete(c, img);
    var g := System(None, None, [FRESH_SOURCE.(users := 1)], [Inspect(0, img)], StartFailDelete(0));
    assert 0 in Users(g.workers, 0);
    assert DeletesInUse(c, g, FAIL, 0);
  }

  /** Some run deletes a state with a user exactly when a call may hold the state while Subscribe fails. */
  lemma DeletedInUseOnlyByFailingStart(c: Config)
    ensures (exists g, a, s :: Reachable(c, g) && DeletesInUse(c, g, a, s)) <==> c.failing.AnyCall?
  {
    hide Reachable, DeletesInUse;
    if c.failing.AnyCall? {
      SomeRunDeletesInUse(c);
    } else {
      forall g, a, s | Reachable(c, g) ensures !DeletesInUse(c, g, a, s) {
        DeletesOnlyUnused(c, g, a, s);
      }
    }
  }

  lemma DeletesOnlyUnused(c: Config, g: System, a: Action, s: Sid)
    requires c.failing.NoCall? && Reachable(c, g)
    ensures !DeletesInUse(c, g, a, s)
  {
    hide Reachable;
    if Enabled(c, g, a) && s < |g.heap| && s < |Step(c, g, a).heap| && g.heap[s].live && !Step(c, g, a).heap[s].live {
      DeletedOnlyAtZeroUsers(c, g, a, s);
    }
  }
}
