/** Where the stored frames come from: over every run, each is the picture of the image of one callback. */
module GzImgSrcOrigins {
  import opened Wrappers
  import opened FrameShape
  import opened GzImgSrc
  import opened GzImgSrcSafety
  import opened GzImgSrcExitOrder

  // ---- Calls in a run ----

  predicate BeginsCall(a: Action, t: Tid) {
    a.By? && a.t == t && a.move.Begin?
  }

  predicate ChecksImage(a: Action, t: Tid) {
    a.By? && a.t == t && a.move.Check?
  }

  // The step that began the latest call of a thread, or -1.
  function LastBegin(run: seq<Action>, t: Tid): (b: int)
    ensures -1 <= b < |run|
    ensures b >= 0 ==> BeginsCall(run[b], t)
    ensures forall j :: b < j < |run| ==> !BeginsCall(run[j], t)
  {
    if run == [] then -1
    else if BeginsCall(run[|run| - 1], t) then |run| - 1
    else LastBegin(run[..|run| - 1], t)
  }

  // A callback: the step that began it and the step that checked its image, of one thread, with no other call of
  // that thread begun in between.
  datatype Callback = Callback(begin: nat, check: nat)

  ghost predicate IsCallback(run: seq<Action>, c: Callback) {
    && c.begin < c.check < |run|
    && run[c.begin].By? && run[c.begin].move.Begin? && run[c.begin].move.call.OnImage?
    && ChecksImage(run[c.check], run[c.begin].t)
    && forall j :: c.begin < j <= c.check ==> !BeginsCall(run[j], run[c.begin].t)
  }

  /** The frame shows the image the callback was called with, stamped with the clock it read. */
  ghost predicate Shows(run: seq<Action>, c: Callback, f: Frame) {
    && IsCallback(run, c)
    && SamePicture(f, run[c.begin].move.call.img)
    && f.pts == run[c.check].move.now
  }

  lemma ShowsLonger(run: seq<Action>, a: Action, c: Callback, f: Frame)
    requires Shows(run, c, f)
    ensures Shows(run + [a], c, f)
  {
    hide SamePicture;
    assert forall j :: 0 <= j < |run| ==> (run + [a])[j] == run[j];
  }

  lemma LastBeginLonger(run: seq<Action>, a: Action, t: Tid)
    ensures LastBegin(run + [a], t) == if BeginsCall(a, t) then |run| else LastBegin(run, t)
  {
    assert (run + [a])[..|run|] == run;
  }

  // ---- What the threads carry ----

  predicate CalledWith(run: seq<Action>, t: Tid, img: Image) {
    LastBegin(run, t) >= 0 && run[LastBegin(run, t)] == By(t, Begin(OnImage(img)))
  }

  ghost predicate CarriesFrame(run: seq<Action>, t: Tid, f: Frame) {
    LastBegin(run, t) >= 0 && run[LastBegin(run, t)].t == t
    && exists k: nat :: Shows(run, Callback(LastBegin(run, t), k), f)
  }

  ghost predicate PcOrigin(run: seq<Action>, t: Tid, pc: Pc) {
    match pc
    case AcquireWant(OnImage(img)) => CalledWith(run, t, img)
    case AcquireIn(OnImage(img)) => CalledWith(run, t, img)
    case Inspect(_, img) => CalledWith(run, t, img)
    case MutexWant(_, Store(f)) => CarriesFrame(run, t, f)
    case MutexIn(_, Store(f)) => CarriesFrame(run, t, f)
    case _ => true
  }

  // The thread's call has an image it has not stored.
  predicate Unstored(pc: Pc) {
    match pc
    case AcquireWant(OnImage(_)) => true
    case AcquireIn(OnImage(_)) => true
    case Inspect(_, _) => true
    case MutexWant(_, Store(_)) => true
    case MutexIn(_, Store(_)) => true
    case _ => false
  }

  lemma CalledWithLonger(run: seq<Action>, a: Action, t: Tid, img: Image)
    requires CalledWith(run, t, img) && !BeginsCall(a, t)
    ensures CalledWith(run + [a], t, img)
  {
    LastBeginLonger(run, a, t);
  }

  lemma CarriesLonger(run: seq<Action>, a: Action, t: Tid, f: Frame)
    requires CarriesFrame(run, t, f) && !BeginsCall(a, t)
    ensures CarriesFrame(run + [a], t, f)
  {
    hide Shows;
    LastBeginLonger(run, a, t);
    var k: nat :| Shows(run, Callback(LastBegin(run, t), k), f);
    ShowsLonger(run, a, Callback(LastBegin(run, t), k), f);
  }

  lemma PcOriginLonger(run: seq<Action>, a: Action, t: Tid, pc: Pc)
    requires PcOrigin(run, t, pc) && !BeginsCall(a, t)
    ensures PcOrigin(run + [a], t, pc)
  {
    hide CalledWith, CarriesFrame;
    match pc {
      case AcquireWant(OnImage(img)) => CalledWithLonger(run, a, t, img);
      case AcquireIn(OnImage(img)) => CalledWithLonger(run, a, t, img);
      case Inspect(_, img) => CalledWithLonger(run, a, t, img);
      case MutexWant(_, Store(f)) => CarriesLonger(run, a, t, f);
      case MutexIn(_, Store(f)) => CarriesLonger(run, a, t, f);
      case _ =>
    }
  }

  lemma CheckedPicture(c: Config, img: Image, now: nat)
    requires CheckShape(c, img, now).Some?
    ensures SamePicture(CheckShape(c, img, now).value, img) && CheckShape(c, img, now).value.pts == now
  {
    hide SameChannels;
    FormatKeepsChannels(img.format);
  }

  // A check turns the image a thread was called with into a frame that shows it.
  lemma CheckCarries(c: Config, run: seq<Action>, t: Tid, img: Image, now: nat)
    requires CalledWith(run, t, img) && CheckShape(c, img, now).Some?
    ensures CarriesFrame(run + [By(t, Check(now))], t, CheckShape(c, img, now).value)
  {
    hide CheckShape, SamePicture;
    var a := By(t, Check(now));
    CheckedPicture(c, img, now);
    LastBeginLonger(run, a, t);
    var call := Callback(LastBegin(run, t), |run|);
    assert forall j :: 0 <= j < |run| ==> (run + [a])[j] == run[j];
    assert Shows(run + [a], call, CheckShape(c, img, now).value);
  }

  // ---- Every step keeps the origins ----

  // What moving thread t leaves in its own counter: nothing new but a checked image or a begun call.
  lemma OwnPc(c: Config, run: seq<Action>, g: System, t: Tid, m: Move)
    requires Locks(g) && t < |g.workers| && WorkerEnabled(g, t, m) && PcOrigin(run, t, g.workers[t])
    ensures var h := WorkerNext(c, g, t, m);
            t < |h.workers| && PcOrigin(run + [By(t, m)], t, h.workers[t])
            && (Unstored(h.workers[t]) ==> m.Begin? || Unstored(g.workers[t]))
            && (m.Body? && g.workers[t].job.Store? ==> !Unstored(h.workers[t]))
  {
    hide CalledWith, CarriesFrame, CheckShape, Locks;
    var a := By(t, m);
    var pc := g.workers[t];
    if m.Begin? {
      LastBeginLonger(run, a, t);
      if m.call.OnImage? { BegunWith(run, t, m.call.img); }
    } else {
      PcOriginLonger(run, a, t, pc);
      if m.Check? && CheckShape(c, pc.img, m.now).Some? {
        CheckCarries(c, run, t, pc.img, m.now);
      }
      if m.Section? { SectionPc(c, g, t); }
    }
  }

  lemma BegunWith(run: seq<Action>, t: Tid, img: Image)
    ensures CalledWith(run + [By(t, Begin(OnImage(img)))], t, img)
  {
    LastBeginLonger(run, By(t, Begin(OnImage(img))), t);
  }

  lemma SectionPc(c: Config, g: System, t: Tid)
    requires t < |g.workers| && WorkerEnabled(g, t, Section)
    ensures var next := WorkerNext(c, g, t, Section).workers[t];
            && (Unstored(next) ==> g.workers[t].AcquireIn? && g.workers[t].call.OnImage?
                                   && next.Inspect? && next.img == g.workers[t].call.img)
  {
  }

  // Another thread's counter stays, or is woken into taking a frame.
  lemma OtherPc(c: Config, g: System, a: Action, u: Tid)
    requires Locks(g) && Enabled(c, g, a) && u < |g.workers| && !(a.By? && a.t == u)
    ensures var h := Step(c, g, a);
            |h.workers| == |g.workers| && (h.workers[u] == g.workers[u] || (h.workers[u].MutexWant? && h.workers[u].job == Take))
  {
    hide Locks;
  }

  ghost predicate ThreadsOk(run: seq<Action>, g: System) {
    forall t :: 0 <= t < |g.workers| ==> PcOrigin(run, t, g.workers[t])
  }

  lemma ThreadsStep(c: Config, run: seq<Action>, g: System, a: Action)
    requires Locks(g) && ThreadsOk(run, g) && Enabled(c, g, a)
    ensures ThreadsOk(run + [a], Step(c, g, a))
  {
    hide Locks, PcOrigin, Enabled, Step;
    var h := Step(c, g, a);
    WorkersStay(c, g, a);
    forall t | 0 <= t < |h.workers| ensures PcOrigin(run + [a], t, h.workers[t]) {
      if a.By? && a.t == t {
        StepIsWorkerNext(c, g, a);
        OwnPc(c, run, g, t, a.move);
      } else {
        OtherPc(c, g, a, t);
        if h.workers[t] == g.workers[t] {
          PcOriginLonger(run, a, t, g.workers[t]);
        } else {
          TakesAreFree(run + [a], t, h.workers[t]);
        }
      }
    }
  }

  lemma TakesAreFree(run: seq<Action>, t: Tid, pc: Pc)
    requires pc.MutexWant? && pc.job == Take
    ensures PcOrigin(run, t, pc)
  {
  }

  lemma WorkersStay(c: Config, g: System, a: Action)
    requires Enabled(c, g, a)
    ensures |Step(c, g, a).workers| == |g.workers|
  {
  }

  lemma StepIsWorkerNext(c: Config, g: System, a: Action)
    requires Enabled(c, g, a) && a.By?
    ensures a.t < |g.workers| && WorkerEnabled(g, a.t, a.move) && Step(c, g, a) == WorkerNext(c, g, a.t, a.move)
  {
  }

  // ---- The stored frames ----

  // The step stores a frame: a callback under the mutex of a running state.
  predicate Stores(g: System, a: Action) {
    && a.By? && a.t < |g.workers| && a.move.Body? && g.workers[a.t].MutexIn? && g.workers[a.t].job.Store?
    && g.workers[a.t].s < |g.heap| && g.heap[g.workers[a.t].s].running
  }

  /** Such a step appends exactly one frame, the callback's with a duration, and puts it into the slot. */
  lemma StoringStores(c: Config, g: System, a: Action)
    requires Enabled(c, g, a) && Stores(g, a)
    ensures var s, f := g.workers[a.t].s, g.workers[a.t].job.frame;
            var h := Step(c, g, a);
            && |h.heap| == |g.heap| && |h.heap[s].stored| == |g.heap[s].stored| + 1
            && h.heap[s].stored[..|g.heap[s].stored|] == g.heap[s].stored
            && h.heap[s].frame == Some(h.heap[s].stored[|g.heap[s].stored|])
            && h.heap[s].stored[|g.heap[s].stored|] == f.(duration := h.heap[s].stored[|g.heap[s].stored|].duration)
            && forall x :: 0 <= x < |g.heap| && x != s ==> h.heap[x] == g.heap[x]
  {
  }

  // The states and what was stored in them are the same, but for a new state.
  predicate SameStored(before: seq<Source>, after: seq<Source>) {
    && |before| <= |after| <= |before| + 1
    && (forall x :: 0 <= x < |before| ==> after[x].stored == before[x].stored)
    && (|after| > |before| ==> after[|before|].stored == [])
  }

  lemma MoveStoresNothing(c: Config, g: System, t: Tid, m: Move)
    requires Locks(g) && t < |g.workers| && WorkerEnabled(g, t, m) && !m.Section? && !Stores(g, By(t, m))
    ensures SameStored(g.heap, WorkerNext(c, g, t, m).heap)
  {
    hide StateLockOwned, MutexOwned;
  }

  lemma SectionStoresNothing(c: Config, g: System, t: Tid)
    requires Locks(g) && t < |g.workers| && WorkerEnabled(g, t, Section)
    ensures SameStored(g.heap, WorkerNext(c, g, t, Section).heap)
  {
    hide StateLockOwned, MutexOwned;
  }

  lemma ControlStoresNothing(g: System, subscribed: bool)
    requires Locks(g) && ControlEnabled(g)
    ensures SameStored(g.heap, ControlNext(g, subscribed).heap)
  {
    hide StateLockOwned, MutexOwned;
  }

  lemma OthersStoreNothing(c: Config, g: System, a: Action)
    requires Locks(g) && Enabled(c, g, a) && !Stores(g, a)
    ensures SameStored(g.heap, Step(c, g, a).heap)
  {
    hide Locks, ControlNext, WorkerNext, Stores;
    match a {
      case By(t, m) => if m.Section? { SectionStoresNothing(c, g, t); } else { MoveStoresNothing(c, g, t, m); }
      case ControlStep(subscribed) => ControlStoresNothing(g, subscribed);
      case _ =>
    }
  }

  ghost predicate OriginsOk(run: seq<Action>, g: System, calls: seq<seq<Callback>>) {
    && |calls| == |g.heap|
    && forall s :: 0 <= s < |calls| ==> AllShow(run, calls[s], g.heap[s].stored)
  }

  ghost predicate AllShow(run: seq<Action>, calls: seq<Callback>, stored: seq<Frame>) {
    |calls| == |stored| && forall i :: 0 <= i < |calls| ==> Shows(run, calls[i], stored[i])
  }

  // No call has stored twice, in whatever states.
  predicate AllDifferent(calls: seq<seq<Callback>>) {
    forall s, i, r, j ::
      0 <= s < |calls| && 0 <= i < |calls[s]| && 0 <= r < |calls| && 0 <= j < |calls[r]| ==>
      calls[s][i].begin == calls[r][j].begin ==> s == r && i == j
  }

  predicate NotAmong(b: int, calls: seq<seq<Callback>>) {
    forall s, i :: 0 <= s < |calls| && 0 <= i < |calls[s]| ==> calls[s][i].begin != b
  }

  ghost predicate UnstoredOk(run: seq<Action>, g: System, calls: seq<seq<Callback>>) {
    forall t :: 0 <= t < |g.workers| && Unstored(g.workers[t]) ==> NotAmong(LastBegin(run, t), calls)
  }

  lemma AllShowLonger(run: seq<Action>, a: Action, calls: seq<Callback>, stored: seq<Frame>)
    requires AllShow(run, calls, stored)
    ensures AllShow(run + [a], calls, stored)
  {
    hide Shows;
    forall i | 0 <= i < |calls| ensures Shows(run + [a], calls[i], stored[i]) {
      ShowsLonger(run, a, calls[i], stored[i]);
    }
  }

  lemma AllShowOneMore(run: seq<Action>, calls: seq<Callback>, stored: seq<Frame>, call: Callback, f: Frame)
    requires AllShow(run, calls, stored) && Shows(run, call, f)
    ensures AllShow(run, calls + [call], stored + [f])
  {
    hide Shows;
  }

  lemma CallsArePast(run: seq<Action>, g: System, calls: seq<seq<Callback>>, b: int)
    requires OriginsOk(run, g, calls) && b >= |run|
    ensures NotAmong(b, calls)
  {
    hide SamePicture;
    forall s, i | 0 <= s < |calls| && 0 <= i < |calls[s]| ensures calls[s][i].begin != b {
      assert AllShow(run, calls[s], g.heap[s].stored);
      assert Shows(run, calls[s][i], g.heap[s].stored[i]);
    }
  }

  lemma OneMoreCall(calls: seq<seq<Callback>>, s: Sid, call: Callback)
    requires s < |calls| && AllDifferent(calls) && NotAmong(call.begin, calls)
    ensures AllDifferent(calls[s := calls[s] + [call]])
    ensures forall b :: NotAmong(b, calls) && b != call.begin ==> NotAmong(b, calls[s := calls[s] + [call]])
  {
    var more := calls[s := calls[s] + [call]];
    forall r, j | 0 <= r < |more| && 0 <= j < |more[r]|
      ensures more[r][j] == call || (r < |calls| && j < |calls[r]| && more[r][j] == calls[r][j])
      ensures more[r][j] == call ==> r == s && j == |calls[s]|
    {
    }
  }

  lemma OneMoreState(calls: seq<seq<Callback>>)
    ensures AllDifferent(calls) ==> AllDifferent(calls + [[]])
    ensures forall b :: NotAmong(b, calls) ==> NotAmong(b, calls + [[]])
  {
    var more := calls + [[]];
    assert forall r :: 0 <= r < |more| && more[r] != [] ==> r < |calls| && more[r] == calls[r];
  }

  // ---- Steps ----

  // The threads other than the one that stores keep their unstored calls apart from the stored ones.
  lemma UnstoredStep(c: Config, run: seq<Action>, g: System, a: Action, calls: seq<seq<Callback>>, more: seq<seq<Callback>>)
    requires Locks(g) && ThreadsOk(run, g) && Enabled(c, g, a) && OriginsOk(run, g, calls) && UnstoredOk(run, g, calls)
    requires forall b: int {:trigger NotAmong(b, more)} :: NotAmong(b, calls) && (Stores(g, a) ==> b != LastBegin(run, a.t)) ==> NotAmong(b, more)
    ensures UnstoredOk(run + [a], Step(c, g, a), more)
  {
    hide Locks, Enabled, Step, PcOrigin, NotAmong, OriginsOk, LastBegin;
    var h := Step(c, g, a);
    WorkersStay(c, g, a);
    forall t | 0 <= t < |h.workers| && Unstored(h.workers[t]) ensures NotAmong(LastBegin(run + [a], t), more) {
      LastBeginLonger(run, a, t);
      if a.By? && a.t == t {
        StepIsWorkerNext(c, g, a);
        OwnPc(c, run, g, t, a.move);
        if a.move.Begin? { CallsArePast(run, g, calls, |run|); StoringIsBody(g, a); BeginIsLater(run, a.t); }
      } else {
        OtherPc(c, g, a, t);
        if Stores(g, a) { DifferentThreads(run, g, a, t); }
      }
    }
  }

  lemma StoringIsBody(g: System, a: Action)
    requires a.By? && a.move.Begin?
    ensures !Stores(g, a)
  {
  }

  lemma BeginIsLater(run: seq<Action>, t: Tid)
    ensures LastBegin(run, t) < |run|
  {
  }

  // Two threads with an image each were called by different steps.
  lemma DifferentThreads(run: seq<Action>, g: System, a: Action, t: Tid)
    requires ThreadsOk(run, g) && Stores(g, a) && t < |g.workers| && t != a.t && Unstored(g.workers[t])
    ensures LastBegin(run, t) != LastBegin(run, a.t)
  {
    hide Shows;
    assert PcOrigin(run, t, g.workers[t]) && PcOrigin(run, a.t, g.workers[a.t]);
  }

  lemma StoreOrigin(run: seq<Action>, g: System, a: Action) returns (call: Callback)
    requires ThreadsOk(run, g) && Stores(g, a)
    ensures Shows(run, call, g.workers[a.t].job.frame) && call.begin == LastBegin(run, a.t)
  {
    hide Shows;
    assert PcOrigin(run, a.t, g.workers[a.t]);
    var k: nat :| Shows(run, Callback(LastBegin(run, a.t), k), g.workers[a.t].job.frame);
    call := Callback(LastBegin(run, a.t), k);
  }

  lemma ShowsStamped(run: seq<Action>, call: Callback, f: Frame, stamped: Frame)
    requires Shows(run, call, f) && stamped == f.(duration := stamped.duration)
    ensures Shows(run, call, stamped)
  {
    hide SameChannels;
  }

  ghost predicate Traced(run: seq<Action>, g: System, calls: seq<seq<Callback>>) {
    OriginsOk(run, g, calls) && AllDifferent(calls) && UnstoredOk(run, g, calls)
  }

  lemma StoreStep(c: Config, run: seq<Action>, g: System, a: Action, calls: seq<seq<Callback>>) returns (more: seq<seq<Callback>>)
    requires Locks(g) && ThreadsOk(run, g) && Enabled(c, g, a) && Stores(g, a) && Traced(run, g, calls)
    ensures Traced(run + [a], Step(c, g, a), more)
  {
    hide Locks, Enabled, Step, Shows, NotAmong, AllDifferent, ThreadsOk, AllShow;
    var s, t := g.workers[a.t].s, a.t;
    var call := StoreOrigin(run, g, a);
    more := calls[s := calls[s] + [call]];
    StoringStores(c, g, a);
    var h := Step(c, g, a);
    var old_, new_ := g.heap[s].stored, h.heap[s].stored;
    assert new_ == old_ + [new_[|old_|]];
    ShowsStamped(run, call, g.workers[t].job.frame, new_[|old_|]);
    forall x | 0 <= x < |more| ensures AllShow(run + [a], more[x], h.heap[x].stored) {
      if x == s { AllShowOneMore(run, calls[s], old_, call, new_[|old_|]); }
      AllShowLonger(run, a, more[x], h.heap[x].stored);
    }
    assert Unstored(g.workers[t]);
    OneMoreCall(calls, s, call);
    UnstoredStep(c, run, g, a, calls, more);
  }

  lemma OtherStep(c: Config, run: seq<Action>, g: System, a: Action, calls: seq<seq<Callback>>) returns (more: seq<seq<Callback>>)
    requires Locks(g) && ThreadsOk(run, g) && Enabled(c, g, a) && !Stores(g, a) && Traced(run, g, calls)
    ensures Traced(run + [a], Step(c, g, a), more)
  {
    hide Locks, Enabled, Step, Shows, NotAmong, AllDifferent, ThreadsOk, Stores;
    OthersStoreNothing(c, g, a);
    var h := Step(c, g, a);
    more := if |h.heap| > |g.heap| then calls + [[]] else calls;
    OneMoreState(calls);
    forall x | 0 <= x < |more| ensures AllShow(run + [a], more[x], h.heap[x].stored) {
      if x < |calls| { AllShowLonger(run, a, calls[x], g.heap[x].stored); }
    }
    UnstoredStep(c, run, g, a, calls, more);
  }

  // ---- Runs ----

  lemma {:induction false} RunsSplit(c: Config, g: System, run: seq<Action>, h: System) returns (p: System)
    requires Runs(c, g, run, h) && run != []
    ensures Runs(c, g, run[..|run| - 1], p) && Enabled(c, p, run[|run| - 1]) && h == Step(c, p, run[|run| - 1])
    decreases |run|
  {
    hide Enabled, Step;
    if |run| == 1 {
      p := g;
      assert run[1..] == [] && run[..0] == [];
    } else {
      p := RunsSplit(c, Step(c, g, run[0]), run[1..], h);
      assert run[1..][..|run| - 2] == run[..|run| - 1][1..];
    }
  }

  lemma {:induction false} Trace(c: Config, n: nat, run: seq<Action>, h: System) returns (calls: seq<seq<Callback>>)
    requires Runs(c, Init(n), run, h)
    ensures Inv(h) && ThreadsOk(run, h) && Traced(run, h, calls)
    decreases |run|
  {
    hide Enabled, Step, Inv, Traced, ThreadsOk;
    if run == [] {
      InitTraced(n);
      calls := [];
    } else {
      var p := RunsSplit(c, Init(n), run, h);
      var before := run[..|run| - 1];
      var a := run[|run| - 1];
      var earlier := Trace(c, n, before, p);
      assert run == before + [a];
      InvStep(c, p, a);
      InvHasLocks(p);
      ThreadsStep(c, before, p, a);
      if Stores(p, a) {
        calls := StoreStep(c, before, p, a, earlier);
      } else {
        calls := OtherStep(c, before, p, a, earlier);
      }
    }
  }

  lemma InvHasLocks(g: System)
    requires Inv(g)
    ensures Locks(g)
  {
  }

  lemma InitTraced(n: nat)
    ensures Inv(Init(n)) && ThreadsOk([], Init(n)) && Traced([], Init(n), [])
  {
  }

  /** Over every run, every stored frame shows the image of one callback of that run: its bytes, size and stride,
      the channels in the image's order, stamped with the clock that callback read. Different stored frames come
      from different callbacks. */
  lemma StoredFramesShowImages(c: Config, n: nat, run: seq<Action>, h: System) returns (calls: seq<seq<Callback>>)
    requires Runs(c, Init(n), run, h)
    ensures |calls| == |h.heap|
    ensures forall s :: 0 <= s < |h.heap| ==> |calls[s]| == |h.heap[s].stored|
    ensures forall s, i :: 0 <= s < |h.heap| && 0 <= i < |h.heap[s].stored| ==>
              var call, f := calls[s][i], h.heap[s].stored[i];
              && call.begin < call.check < |run|
              && run[call.begin].By? && run[call.begin].move.Begin? && run[call.begin].move.call.OnImage?
              && run[call.check].By? && run[call.check].t == run[call.begin].t && run[call.check].move.Check?
              && (forall j :: call.begin < j <= call.check ==> !BeginsCall(run[j], run[call.begin].t))
              && var img := run[call.begin].move.call.img;
              && f.data == img.data && f.width == img.width && f.height == img.height && f.stride == img.step
              && SameChannels(img.format, f.gstFormat)
              && f.pts == run[call.check].move.now
    ensures AllDifferent(calls)
  {
    hide Inv, ThreadsOk, SameChannels, AllDifferent, Runs;
    calls := Trace(c, n, run, h);
    forall s, i | 0 <= s < |h.heap| && 0 <= i < |h.heap[s].stored| ensures Shows(run, calls[s][i], h.heap[s].stored[i]) {
      assert AllShow(run, calls[s], h.heap[s].stored);
    }
  }

  // ---- Which images are stored, and which frames are delivered ----

  /** A callback goes on to store its image exactly when the format is known and, with a 64-bit size_t, the size is
      not zero, a row fits the stride and the payload holds every row. */
  lemma CheckAccepts(c: Config, g: System, t: Tid, s: Sid, img: Image, now: nat)
    requires c.sizeMax >= 0xFFFF_FFFF_FFFF_FFFF && t < |g.workers| && g.workers[t] == Inspect(s, img)
    ensures Enabled(c, g, By(t, Check(now)))
    ensures var next := Step(c, g, By(t, Check(now))).workers[t];
            && (next.MutexWant? || next == ReleaseWant(s, false, NoReturn))
            && (next.MutexWant? ==> next.s == s && next.job.Store?)
            && (next.MutexWant? <==>
                  && img.format != OtherFormat && img.width > 0 && img.height > 0
                  && img.width * BytesPerPixel(img.format) <= img.step && img.step * img.height <= |img.data|)
  {
    if img.format != OtherFormat {
      var info := FormatInfoFromGazebo(img.format).value;
      ShapeCheckMeaning(c.sizeMax, img, info);
    }
  }

  // The number of bytes of a pixel.
  function BytesPerPixel(format: PixelFormat): nat {
    match format
    case RGB_INT8 => 3 case BGR_INT8 => 3 case RGBA_INT8 => 4 case BGRA_INT8 => 4 case L_INT16 => 2 case _ => 1
  }

  /** A create that finds no state returns FLUSHING and changes no state. */
  lemma CreateWithoutState(c: Config, g: System, t: Tid)
    requires t < |g.workers| && g.workers[t] == AcquireIn(Create) && g.current.None?
    ensures Enabled(c, g, By(t, Section))
    ensures Step(c, g, By(t, Section)).workers[t] == Idle(Flushing) && Step(c, g, By(t, Section)).heap == g.heap
  {
  }

  ghost predicate DeliversTaken(pc: Pc, heap: seq<Source>) {
    pc.Deliver? ==> pc.s < |heap| && pc.frame in heap[pc.s].taken
  }

  predicate TakenGrows(before: seq<Source>, after: seq<Source>) {
    |before| <= |after|
    && forall x :: 0 <= x < |before| ==> before[x].taken <= after[x].taken
  }

  lemma MoveTakes(c: Config, g: System, t: Tid, m: Move)
    requires Locks(g) && t < |g.workers| && WorkerEnabled(g, t, m) && !m.Section?
    ensures TakenGrows(g.heap, WorkerNext(c, g, t, m).heap)
    ensures DeliversTaken(WorkerNext(c, g, t, m).workers[t], WorkerNext(c, g, t, m).heap)
  {
    hide StateLockOwned, MutexOwned;
  }

  lemma SectionTakes(c: Config, g: System, t: Tid)
    requires Locks(g) && t < |g.workers| && WorkerEnabled(g, t, Section)
    ensures TakenGrows(g.heap, WorkerNext(c, g, t, Section).heap)
    ensures !WorkerNext(c, g, t, Section).workers[t].Deliver?
  {
    hide StateLockOwned, MutexOwned;
  }

  lemma ControlTakes(g: System, subscribed: bool)
    requires Locks(g) && ControlEnabled(g)
    ensures TakenGrows(g.heap, ControlNext(g, subscribed).heap)
  {
    hide StateLockOwned, MutexOwned;
  }

  lemma DeliversStep(c: Config, g: System, a: Action)
    requires Locks(g) && Enabled(c, g, a) && forall t :: 0 <= t < |g.workers| ==> DeliversTaken(g.workers[t], g.heap)
    ensures forall t :: 0 <= t < |Step(c, g, a).workers| ==> DeliversTaken(Step(c, g, a).workers[t], Step(c, g, a).heap)
  {
    hide Locks, Enabled, WorkerNext, ControlNext;
    var h := Step(c, g, a);
    match a {
      case By(t, m) =>
        StepIsWorkerNext(c, g, a);
        if m.Section? { SectionTakes(c, g, t); } else { MoveTakes(c, g, t, m); }
      case ControlStep(subscribed) => ControlStepped(c, g, subscribed); ControlTakes(g, subscribed);
      case _ =>
    }
    WorkersStay(c, g, a);
    forall t | 0 <= t < |h.workers| ensures DeliversTaken(h.workers[t], h.heap) {
      assert DeliversTaken(g.workers[t], g.heap);
      if !(a.By? && a.t == t) { OtherPc(c, g, a, t); }
    }
  }

  lemma ControlStepped(c: Config, g: System, subscribed: bool)
    requires Enabled(c, g, ControlStep(subscribed))
    ensures ControlEnabled(g)
  {
  }

  lemma {:induction false} DeliversRuns(c: Config, g: System, run: seq<Action>, h: System)
    requires Inv(g) && Runs(c, g, run, h) && forall t :: 0 <= t < |g.workers| ==> DeliversTaken(g.workers[t], g.heap)
    ensures forall t :: 0 <= t < |h.workers| ==> DeliversTaken(h.workers[t], h.heap)
    decreases |run|
  {
    hide Enabled, Step, Inv;
    if run != [] {
      InvStep(c, g, run[0]);
      InvHasLocks(g);
      DeliversStep(c, g, run[0]);
      DeliversRuns(c, Step(c, g, run[0]), run[1..], h);
    }
  }

  /** What create is about to hand out is a frame it took from the slot. */
  lemma DeliveredIsTaken(c: Config, g: System, t: Tid)
    requires Reachable(c, g) && t < |g.workers| && g.workers[t].Deliver?
    ensures g.workers[t].s < |g.heap| && g.workers[t].frame in g.heap[g.workers[t].s].taken
  {
    var n: nat, run :| Runs(c, Init(n), run, g);
    InitTraced(n);
    DeliversRuns(c, Init(n), run, g);
    assert DeliversTaken(g.workers[t], g.heap);
  }
}
