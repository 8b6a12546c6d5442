/** The life of the camera source's shared state as a step relation over its threads.

    Worker threads run Gazebo image callbacks and GStreamer create calls, any number of each; one
    control thread runs start and stop, which GStreamer serialises. A state object is an index into
    `heap`; deleting it clears `live`, and the object is kept so that later uses can be talked about.
    `stored`, `taken` and `takenAt` record the history of the frame slot and steer nothing. Calls may
    acquire the state whenever stateLock is free, also while start is still subscribing. */
module GzImgSrc {
  import opened Wrappers
  import opened FrameShape

  type Tid = nat
  type Sid = nat

  // When running is false, callback and create leave early. AsWritten releases the state while the
  // lock guard still holds its mutex; UnlockFirst is the order every other exit uses.
  datatype ExitOrder = AsWritten | UnlockFirst

  // When Subscribe fails, start takes the state back and deletes it without reading activeUsers. AnyCall lets
  // calls hold the state meanwhile; NoCall is the promise of the environment that none does by then.
  datatype FailingStart = AnyCall | NoCall

  datatype Config = Config(order: ExitOrder, failing: FailingStart, sizeMax: nat)

  datatype Thread = Worker(t: Tid) | Control

  datatype FlowReturn = FlowOk | Flushing | NotNegotiated | FlowError | NoReturn

  datatype Call = OnImage(img: Image) | Create

  datatype Job = Store(frame: Frame) | Take

  datatype Pc =
    | Idle(last: FlowReturn)
    | AcquireWant(call: Call)            // about to lock stateLock in acquireState
    | AcquireIn(call: Call)              // holds stateLock
    | Inspect(s: Sid, img: Image)        // callback with a reference, before the shape check
    | MutexWant(s: Sid, job: Job)        // about to lock state->mutex
    | MutexIn(s: Sid, job: Job)          // holds state->mutex
    | Asleep(s: Sid)                     // create waiting on frameAvailable
    | Notify(s: Sid)                     // callback about to notify_one
    | Deliver(s: Sid, frame: Frame)      // create building its buffer, mutex released
    | ReleaseWant(s: Sid, late: bool, ret: FlowReturn)  // about to lock stateLock in releaseState
    | ReleaseIn(s: Sid, late: bool, ret: FlowReturn)    // holds stateLock
    | LateUnlock(s: Sid, ret: FlowReturn)               // released, guard still holds state->mutex

  datatype ControlPc =
    | Resting
    | StartCheckWant | StartCheckIn | StartAllocate
    | StartPublishWant(s: Sid) | StartPublishIn(s: Sid)
    | StartSubscribe(s: Sid)
    | StartFailWant(s: Sid) | StartFailIn(s: Sid) | StartFailDelete(s: Sid)
    | StopTakeWant | StopTakeIn
    | StopMutexWant(s: Sid) | StopMutexIn(s: Sid)
    | StopNotify(s: Sid)
    | StopDrainWant(s: Sid) | StopDrainIn(s: Sid) | StopAsleep(s: Sid)
    | StopDelete(s: Sid)

  datatype Source = Source(
    live: bool, deletes: nat, users: int, running: bool, frame: Option<Frame>, lastFrameTime: Option<nat>,
    mutex: Option<Thread>,
    stored: seq<Frame>, taken: seq<Frame>, takenAt: seq<nat>)

  datatype System = System(
    current: Option<Sid>, stateLock: Option<Thread>, heap: seq<Source>, workers: seq<Pc>, control: ControlPc)

  datatype Move =
    | Begin(call: Call)            // enter onGazeboImage or create
    | Lock                         // take stateLock
    | Section                      // do the work under stateLock and unlock it
    | Check(now: nat)              // validate the image and build the frame
    | LockMutex                    // take state->mutex
    | Body                         // do the work under state->mutex
    | SpuriousWake
    | NotifyOne(woken: Option<Tid>)
    | Finish(ret: FlowReturn)      // caps and buffer made, or not
    | Unlock                       // the lock guard of an early exit as written

  datatype Action =
    | By(t: Tid, move: Move)
    | CallStart
    | CallStop
    | ControlStep(subscribed: bool)
    | ControlSpuriousWake

  const FRESH_SOURCE := Source(true, 0, 0, true, None, None, None, [], [], [])

  function Init(workers: nat): System {
    System(None, None, [], seq(workers, _ => Idle(NoReturn)), Resting)
  }

  // ---- What a program counter says about its thread ----

  // The thread took a counted reference to s and has not given it back.
  predicate Uses(pc: Pc, s: Sid) {
    match pc
    case Inspect(x, _) => x == s
    case MutexWant(x, _) => x == s
    case MutexIn(x, _) => x == s
    case Asleep(x) => x == s
    case Notify(x) => x == s
    case Deliver(x, _) => x == s
    case ReleaseWant(x, _, _) => x == s
    case ReleaseIn(x, _, _) => x == s
    case _ => false
  }

  // The thread's next step reads or writes frame, running or lastFrameTime of s.
  predicate TouchesFields(pc: Pc, s: Sid) {
    pc.MutexIn? && pc.s == s
  }

  predicate InStateSection(pc: Pc) {
    pc.AcquireIn? || pc.ReleaseIn?
  }

  // The state whose mutex the thread holds.
  function MutexOf(pc: Pc): Option<Sid> {
    match pc
    case MutexIn(s, _) => Some(s)
    case ReleaseWant(s, late, _) => if late then Some(s) else None
    case ReleaseIn(s, late, _) => if late then Some(s) else None
    case LateUnlock(s, _) => Some(s)
    case _ => None
  }

  predicate ControlInStateSection(pc: ControlPc) {
    pc.StartCheckIn? || pc.StartPublishIn? || pc.StartFailIn? || pc.StopTakeIn? || pc.StopDrainIn?
  }

  // ---- Steps ----

  predicate WorkerEnabled(g: System, t: Tid, m: Move)
    requires t < |g.workers|
  {
    var pc := g.workers[t];
    match m
    case Begin(_) => pc.Idle?
    case Lock => g.stateLock.None? && (pc.ReleaseWant? || pc.AcquireWant?)
    case Section => InStateSection(pc) && (pc.ReleaseIn? ==> pc.s < |g.heap|)
                    && (pc.AcquireIn? && g.current.Some? ==> g.current.value < |g.heap|)
    case Check(_) => pc.Inspect?
    case LockMutex => pc.MutexWant? && pc.s < |g.heap| && g.heap[pc.s].mutex.None?
    case Body => pc.MutexIn? && pc.s < |g.heap|
    case SpuriousWake => pc.Asleep?
    case NotifyOne(woken) =>
      && pc.Notify?
      && (woken.Some? ==> woken.value < |g.workers| && g.workers[woken.value] == Asleep(pc.s))
      && (woken.None? ==> forall u :: 0 <= u < |g.workers| ==> g.workers[u] != Asleep(pc.s))
    case Finish(ret) => pc.Deliver? && (ret.FlowOk? || ret.NotNegotiated? || ret.FlowError?)
    case Unlock => pc.LateUnlock? && pc.s < |g.heap|
  }

  predicate ControlEnabled(g: System) {
    match g.control
    case Resting => false
    case StopMutexWant(s) => s < |g.heap| && g.heap[s].mutex.None?
    case StopAsleep(_) => false
    case StartCheckWant => g.stateLock.None?
    case StartPublishWant(_) => g.stateLock.None?
    case StartFailWant(_) => g.stateLock.None?
    case StopTakeWant => g.stateLock.None?
    case StopDrainWant(_) => g.stateLock.None?
    case StopMutexIn(s) => s < |g.heap|
    case StopDrainIn(s) => s < |g.heap|
    case StopDelete(s) => s < |g.heap|
    case StartFailDelete(s) => s < |g.heap|
    case _ => true
  }

  // What the environment promises about a failing start: under NoCall it finds no user left.
  predicate FailingStartOk(c: Config, g: System) {
    c.failing.NoCall? && g.control.StartFailWant? && g.control.s < |g.heap| ==> g.heap[g.control.s].users == 0
  }

  predicate Enabled(c: Config, g: System, a: Action) {
    match a
    case CallStart => g.control.Resting?
    case CallStop => g.control.Resting?
    case ControlStep(_) => ControlEnabled(g) && FailingStartOk(c, g)
    case ControlSpuriousWake => g.control.StopAsleep?
    case By(t, m) => t < |g.workers| && WorkerEnabled(g, t, m)
  }

  function Goto(g: System, t: Tid, pc: Pc): System
    requires t < |g.workers|
  {
    g.(workers := g.workers[t := pc])
  }

  function SetSource(g: System, s: Sid, src: Source): System
    requires s < |g.heap|
  {
    g.(heap := g.heap[s := src])
  }

  function AcquireSection(g: System, t: Tid): System
    requires t < |g.workers| && g.workers[t].AcquireIn?
    requires g.current.Some? ==> g.current.value < |g.heap|
  {
    var g1 := g.(stateLock := None);
    if g.current.None? then
      Goto(g1, t, Idle(if g.workers[t].call.Create? then Flushing else NoReturn))
    else
      var s := g.current.value;
      var g2 := SetSource(g1, s, g.heap[s].(users := g.heap[s].users + 1));
      match g.workers[t].call
      case Create => Goto(g2, t, MutexWant(s, Take))
      case OnImage(img) => Goto(g2, t, Inspect(s, img))
  }

  // The signal on stateIdle when the last user has left.
  function SignalIdle(g: System, users: int): System {
    if users == 0 && g.control.StopAsleep? then g.(control := StopDrainWant(g.control.s)) else g
  }

  function ReleaseSection(g: System, t: Tid): System
    requires t < |g.workers| && g.workers[t].ReleaseIn? && g.workers[t].s < |g.heap|
  {
    var pc := g.workers[t];
    var users := g.heap[pc.s].users - 1;
    var g1 := SetSource(g, pc.s, g.heap[pc.s].(users := users));
    var g2 := Goto(g1.(stateLock := None), t, if pc.late then LateUnlock(pc.s, pc.ret) else Idle(pc.ret));
    SignalIdle(g2, users)
  }

  // The callback's work under state->mutex while running: stamp the duration and replace the slot.
  function StoreFrame(src: Source, frame: Frame): Source {
    var duration :=
      if src.lastFrameTime.Some? && frame.pts > src.lastFrameTime.value
      then Some(frame.pts - src.lastFrameTime.value) else None;
    var stamped := frame.(duration := duration);
    src.(lastFrameTime := Some(frame.pts), frame := Some(stamped), mutex := None, stored := src.stored + [stamped])
  }

  function TakeFrame(src: Source): Source
    requires src.frame.Some?
  {
    src.(frame := None, mutex := None, taken := src.taken + [src.frame.value], takenAt := src.takenAt + [|src.stored|])
  }

  // What the critical section under state->mutex leaves in the state ...
  function BodySource(c: Config, src: Source, job: Job): Source {
    if !src.running then (if c.order.AsWritten? then src else src.(mutex := None))
    else
      match job
      case Store(frame) => StoreFrame(src, frame)
      case Take => if src.frame.None? then src.(mutex := None) else TakeFrame(src)
  }

  // ... and where its thread goes next.
  function BodyPc(c: Config, src: Source, s: Sid, job: Job): Pc {
    if !src.running then ReleaseWant(s, c.order.AsWritten?, if job.Take? then Flushing else NoReturn)
    else
      match job
      case Store(_) => Notify(s)
      case Take => if src.frame.None? then Asleep(s) else Deliver(s, src.frame.value)
  }

  function MutexBody(c: Config, g: System, t: Tid): System
    requires t < |g.workers| && g.workers[t].MutexIn? && g.workers[t].s < |g.heap|
  {
    var s := g.workers[t].s;
    var job := g.workers[t].job;
    Goto(SetSource(g, s, BodySource(c, g.heap[s], job)), t, BodyPc(c, g.heap[s], s, job))
  }

  function WakeAll(workers: seq<Pc>, s: Sid): (r: seq<Pc>)
    ensures |r| == |workers|
    ensures forall t :: 0 <= t < |workers| ==> r[t] != Asleep(s) && (workers[t] != Asleep(s) ==> r[t] == workers[t])
  {
    seq(|workers|, t requires 0 <= t < |workers| => if workers[t] == Asleep(s) then MutexWant(s, Take) else workers[t])
  }

  function CheckShape(c: Config, img: Image, now: nat): Option<Frame> {
    var info := FormatInfoFromGazebo(img.format);
    if info.None? || !ValidateFrameShape(c.sizeMax, img, info.value) then None
    else Some(MakeFrame(img, info.value, now))
  }

  function ControlNext(g: System, subscribed: bool): System
    requires ControlEnabled(g)
  {
    match g.control
    case StartCheckWant => g.(stateLock := Some(Control), control := StartCheckIn)
    case StartCheckIn => g.(stateLock := None, control := if g.current.Some? then Resting else StartAllocate)
    case StartAllocate => g.(heap := g.heap + [FRESH_SOURCE], control := StartPublishWant(|g.heap|))
    case StartPublishWant(s) => g.(stateLock := Some(Control), control := StartPublishIn(s))
    case StartPublishIn(s) => g.(stateLock := None, current := Some(s), control := StartSubscribe(s))
    case StartSubscribe(s) => g.(control := if subscribed then Resting else StartFailWant(s))
    case StartFailWant(s) => g.(stateLock := Some(Control), control := StartFailIn(s))
    case StartFailIn(s) => g.(stateLock := None, current := None, control := StartFailDelete(s))
    case StartFailDelete(s) => Delete(g, s)
    case StopTakeWant => g.(stateLock := Some(Control), control := StopTakeIn)
    case StopTakeIn =>
      g.(stateLock := None, current := None,
         control := if g.current.Some? then StopMutexWant(g.current.value) else Resting)
    case StopMutexWant(s) => SetSource(g, s, g.heap[s].(mutex := Some(Control))).(control := StopMutexIn(s))
    case StopMutexIn(s) =>
      SetSource(g, s, g.heap[s].(running := false, frame := None, mutex := None)).(control := StopNotify(s))
    case StopNotify(s) => g.(workers := WakeAll(g.workers, s), control := StopDrainWant(s))
    case StopDrainWant(s) => g.(stateLock := Some(Control), control := StopDrainIn(s))
    case StopDrainIn(s) =>
      g.(stateLock := None, control := if g.heap[s].users > 0 then StopAsleep(s) else StopDelete(s))
    case StopDelete(s) => Delete(g, s)
  }

  function Delete(g: System, s: Sid): System
    requires s < |g.heap|
  {
    SetSource(g, s, g.heap[s].(live := false, deletes := g.heap[s].deletes + 1)).(control := Resting)
  }

  function WorkerNext(c: Config, g: System, t: Tid, m: Move): System
    requires t < |g.workers| && WorkerEnabled(g, t, m)
  {
    var pc := g.workers[t];
    match m
    case Begin(call) => Goto(g, t, AcquireWant(call))
    case Lock =>
      Goto(g.(stateLock := Some(Worker(t))), t,
           if pc.AcquireWant? then AcquireIn(pc.call) else ReleaseIn(pc.s, pc.late, pc.ret))
    case Section => if pc.AcquireIn? then AcquireSection(g, t) else ReleaseSection(g, t)
    case Check(now) =>
      var frame := CheckShape(c, pc.img, now);
      Goto(g, t, if frame.Some? then MutexWant(pc.s, Store(frame.value)) else ReleaseWant(pc.s, false, NoReturn))
    case LockMutex => Goto(SetSource(g, pc.s, g.heap[pc.s].(mutex := Some(Worker(t)))), t, MutexIn(pc.s, pc.job))
    case Body => MutexBody(c, g, t)
    case SpuriousWake => Goto(g, t, MutexWant(pc.s, Take))
    case NotifyOne(woken) =>
      var g1 := if woken.Some? then Goto(g, woken.value, MutexWant(pc.s, Take)) else g;
      Goto(g1, t, ReleaseWant(pc.s, false, NoReturn))
    case Finish(ret) => Goto(g, t, ReleaseWant(pc.s, false, ret))
    case Unlock => Goto(SetSource(g, pc.s, g.heap[pc.s].(mutex := None)), t, Idle(pc.ret))
  }

  function Step(c: Config, g: System, a: Action): System
    requires Enabled(c, g, a)
  {
    match a
    case By(t, m) => WorkerNext(c, g, t, m)
    case CallStart => g.(control := StartCheckWant)
    case CallStop => g.(control := StopTakeWant)
    case ControlStep(subscribed) => ControlNext(g, subscribed)
    case ControlSpuriousWake => g.(control := StopDrainWant(g.control.s))
  }

  /** `run` is a sequence of steps leading from `g` to `h`. */
  ghost predicate Runs(c: Config, g: System, run: seq<Action>, h: System)
    decreases |run|
  {
    if run == [] then g == h
    else Enabled(c, g, run[0]) && Runs(c, Step(c, g, run[0]), run[1..], h)
  }

  ghost predicate Reachable(c: Config, g: System) {
    exists n: nat, run :: Runs(c, Init(n), run, g)
  }
}
