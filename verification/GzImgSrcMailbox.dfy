/** The one-slot, latest-wins frame mailbox between the Gazebo callback and create. */
module GzImgSrcMailbox {
  import opened Wrappers
  import opened FrameShape
  import opened GzImgSrc
  import opened GzImgSrcSafety

  // How many images had been stored when create last took one.
  function LastTakenAt(src: Source): nat {
    if src.takenAt == [] then 0 else src.takenAt[|src.takenAt| - 1]
  }

  // Every take returned the image stored just before it, and every take came after a newer store.
  ghost predicate TakesNewest(stored: seq<Frame>, taken: seq<Frame>, takenAt: seq<nat>) {
    && |taken| == |takenAt|
    && (forall i :: 0 <= i < |takenAt| ==> 0 < takenAt[i] <= |stored| && taken[i] == stored[takenAt[i] - 1])
    && (forall i, j :: 0 <= i < j < |takenAt| ==> takenAt[i] < takenAt[j])
  }

  // The slot holds the newest image exactly while that image has not been taken.
  predicate SlotHoldsNewest(src: Source) {
    && (src.frame.Some? ==>
          src.running && src.stored != [] && src.frame.value == src.stored[|src.stored| - 1]
          && LastTakenAt(src) < |src.stored|)
    && (src.running && src.frame.None? ==> LastTakenAt(src) == |src.stored|)
  }

  function DurationSince(previous: Option<nat>, pts: nat): Option<nat> {
    if previous.Some? && pts > previous.value then Some(pts - previous.value) else None
  }

  function PreviousPts(stored: seq<Frame>, i: nat): Option<nat>
    requires i <= |stored|
  {
    if i == 0 then None else Some(stored[i - 1].pts)
  }

  // Each stored image carries the time since the image stored before it, when that is positive.
  ghost predicate DurationsChain(stored: seq<Frame>) {
    forall i {:trigger PreviousPts(stored, i)} ::
      0 <= i < |stored| ==> stored[i].duration == DurationSince(PreviousPts(stored, i), stored[i].pts)
  }

  ghost predicate AllInBounds(frames: seq<Frame>) {
    forall i :: 0 <= i < |frames| ==> PixelsInBounds(frames[i])
  }

  ghost predicate SlotOk(src: Source) {
    && TakesNewest(src.stored, src.taken, src.takenAt)
    && SlotHoldsNewest(src)
    && src.lastFrameTime == PreviousPts(src.stored, |src.stored|)
    && DurationsChain(src.stored)
    && AllInBounds(src.stored)
  }

  ghost predicate JobOk(pc: Pc) {
    match pc
    case MutexWant(_, Store(frame)) => PixelsInBounds(frame)
    case MutexIn(_, Store(frame)) => PixelsInBounds(frame)
    case _ => true
  }

  ghost predicate Mailbox(g: System) {
    && (forall s :: 0 <= s < |g.heap| ==> SlotOk(g.heap[s]))
    && (forall t :: 0 <= t < |g.workers| ==> JobOk(g.workers[t]))
  }

  // The duration says nothing about the picture.
  lemma StampKeepsBounds(frame: Frame, duration: Option<nat>)
    requires PixelsInBounds(frame)
    ensures PixelsInBounds(frame.(duration := duration))
  {
    var stamped := frame.(duration := duration);
    forall r: nat, c: nat, k: nat | InPicture(stamped, r, c, k) ensures Offset(stamped, r, c, k) < |stamped.data| {
      assert InPicture(frame, r, c, k) && Offset(frame, r, c, k) == Offset(stamped, r, c, k);
    }
  }

  lemma TakesSnoc(stored: seq<Frame>, taken: seq<Frame>, takenAt: seq<nat>)
    requires TakesNewest(stored, taken, takenAt) && stored != []
    requires takenAt == [] || takenAt[|takenAt| - 1] < |stored|
    ensures TakesNewest(stored, taken + [stored[|stored| - 1]], takenAt + [|stored|])
  {
  }

  lemma StoredSnoc(stored: seq<Frame>, taken: seq<Frame>, takenAt: seq<nat>, frame: Frame)
    requires TakesNewest(stored, taken, takenAt)
    ensures TakesNewest(stored + [frame], taken, takenAt)
  {
  }

  lemma DurationsSnoc(stored: seq<Frame>, frame: Frame)
    requires DurationsChain(stored) && frame.duration == DurationSince(PreviousPts(stored, |stored|), frame.pts)
    ensures DurationsChain(stored + [frame])
  {
    var longer := stored + [frame];
    forall i | 0 <= i < |longer|
      ensures longer[i].duration == DurationSince(PreviousPts(longer, i), longer[i].pts)
    {
      assert PreviousPts(longer, i) == PreviousPts(stored, i);
    }
  }

  lemma StoreKeepsSlot(src: Source, frame: Frame)
    requires SlotOk(src) && src.running && PixelsInBounds(frame)
    ensures SlotOk(StoreFrame(src, frame))
  {
    var stamped := frame.(duration := DurationSince(src.lastFrameTime, frame.pts));
    StampKeepsBounds(frame, stamped.duration);
    StoredSnoc(src.stored, src.taken, src.takenAt, stamped);
    DurationsSnoc(src.stored, stamped);
    assert LastTakenAt(src) <= |src.stored|;
  }

  lemma TakeKeepsSlot(src: Source)
    requires SlotOk(src) && src.frame.Some?
    ensures SlotOk(TakeFrame(src))
  {
    TakesSnoc(src.stored, src.taken, src.takenAt);
  }

  lemma BodyKeepsSlot(c: Config, src: Source, job: Job)
    requires SlotOk(src) && (job.Store? ==> PixelsInBounds(job.frame))
    ensures SlotOk(BodySource(c, src, job))
  {
    if src.running {
      match job {
        case Store(frame) => StoreKeepsSlot(src, frame);
        case Take => if src.frame.Some? { TakeKeepsSlot(src); }
      }
    }
  }

  lemma BodyKeepsMailbox(c: Config, g: System, t: Tid)
    requires Inv(g) && Mailbox(g) && t < |g.workers| && WorkerEnabled(g, t, Body)
    ensures Mailbox(MutexBody(c, g, t))
  {
    var pc := g.workers[t];
    var src := g.heap[pc.s];
    assert SlotOk(src) && JobOk(pc);
    BodyKeepsSlot(c, src, pc.job);
    var h := MutexBody(c, g, t);
    forall s | 0 <= s < |h.heap| ensures SlotOk(h.heap[s]) {
      assert s != pc.s ==> h.heap[s] == g.heap[s];
    }
  }

  lemma CheckKeepsMailbox(c: Config, g: System, t: Tid, now: nat)
    requires Mailbox(g) && t < |g.workers| && WorkerEnabled(g, t, Check(now))
    ensures Mailbox(WorkerNext(c, g, t, Check(now)))
  {
    var img := g.workers[t].img;
    var info := FormatInfoFromGazebo(img.format);
    if info.Some? && ValidateFrameShape(c.sizeMax, img, info.value) {
      AcceptedPixelsInBounds(c.sizeMax, img, info.value, now);
    }
  }

  // Steps that leave the slot and the jobs alone.
  ghost predicate SameMailbox(g: System, h: System) {
    && |h.heap| == |g.heap| && |h.workers| == |g.workers|
    && (forall s :: 0 <= s < |h.heap| ==>
          var x, y := g.heap[s], h.heap[s];
          y.running == x.running && y.frame == x.frame && y.lastFrameTime == x.lastFrameTime
          && y.stored == x.stored && y.taken == x.taken && y.takenAt == x.takenAt)
    && (forall t :: 0 <= t < |h.workers| ==>
          h.workers[t] == g.workers[t] || JobOk(h.workers[t])
          || (h.workers[t].MutexIn? && g.workers[t].MutexWant? && h.workers[t].job == g.workers[t].job))
  }

  lemma SameKeepsMailbox(g: System, h: System)
    requires Mailbox(g) && SameMailbox(g, h)
    ensures Mailbox(h)
  {
    forall s | 0 <= s < |h.heap| ensures SlotOk(h.heap[s]) {
      assert SlotOk(g.heap[s]);
    }
    forall t | 0 <= t < |h.workers| ensures JobOk(h.workers[t]) {
      assert JobOk(g.workers[t]);
    }
  }

  lemma MoveSameMailbox(c: Config, g: System, t: Tid, m: Move)
    requires Locks(g) && t < |g.workers| && WorkerEnabled(g, t, m) && !m.Body? && !m.Check? && !m.Section?
    ensures SameMailbox(g, WorkerNext(c, g, t, m))
  {
  }

  lemma SectionSameMailbox(c: Config, g: System, t: Tid)
    requires Locks(g) && t < |g.workers| && WorkerEnabled(g, t, Section)
    ensures SameMailbox(g, WorkerNext(c, g, t, Section))
  {
  }

  lemma ControlSameMailbox(g: System, subscribed: bool)
    requires Indexed(g) && ControlEnabled(g) && !g.control.StopMutexIn? && !g.control.StartAllocate?
    ensures SameMailbox(g, ControlNext(g, subscribed))
  {
    hide SlotOk;
  }

  // Clearing running empties the slot for good.
  lemma StopFlagKeepsSlot(src: Source)
    requires SlotOk(src)
    ensures SlotOk(src.(running := false, frame := None, mutex := None))
  {
  }

  lemma FreshSlot()
    ensures SlotOk(FRESH_SOURCE)
  {
  }

  lemma ControlKeepsMailbox(g: System, subscribed: bool)
    requires Indexed(g) && Mailbox(g) && ControlEnabled(g)
    ensures Mailbox(ControlNext(g, subscribed))
  {
    hide SlotOk, JobOk, SameMailbox;
    if g.control.StopMutexIn? {
      StopFlagKeepsSlot(g.heap[g.control.s]);
    } else if g.control.StartAllocate? {
      FreshSlot();
    } else {
      ControlSameMailbox(g, subscribed);
      SameKeepsMailbox(g, ControlNext(g, subscribed));
    }
  }

  lemma MailboxStep(c: Config, g: System, a: Action)
    requires Inv(g) && Mailbox(g) && Enabled(c, g, a)
    ensures Mailbox(Step(c, g, a))
  {
    match a {
      case By(t, m) =>
        match m {
          case Body => BodyKeepsMailbox(c, g, t);
          case Check(now) => CheckKeepsMailbox(c, g, t, now);
          case Section => SectionSameMailbox(c, g, t); SameKeepsMailbox(g, WorkerNext(c, g, t, m));
          case _ => MoveSameMailbox(c, g, t, m); SameKeepsMailbox(g, WorkerNext(c, g, t, m));
        }
      case ControlStep(subscribed) => ControlKeepsMailbox(g, subscribed);
      case _ =>
    }
  }

  lemma {:induction false} MailboxRuns(c: Config, g: System, run: seq<Action>, h: System)
    requires Inv(g) && Mailbox(g) && Runs(c, g, run, h)
    ensures Mailbox(h)
    decreases |run|
  {
    if run != [] {
      InvStep(c, g, run[0]);
      MailboxStep(c, g, run[0]);
      MailboxRuns(c, Step(c, g, run[0]), run[1..], h);
    }
  }

  /** Over every run, the frames create took from a state's slot are, in order and without repetition, among
      the images stored there; each is the newest one stored at its take and newer than the take before;
      every byte of its picture lies inside its data; and its duration is the time since the image stored
      before it. While the source runs the slot is full exactly if the newest image is still untaken. */
  lemma TakenFrames(c: Config, g: System, s: Sid)
    requires Reachable(c, g) && s < |g.heap|
    ensures TakesNewest(g.heap[s].stored, g.heap[s].taken, g.heap[s].takenAt) && DurationsChain(g.heap[s].stored)
    ensures forall i :: 0 <= i < |g.heap[s].taken| ==> PixelsInBounds(g.heap[s].taken[i])
    ensures g.heap[s].running ==> (g.heap[s].frame.Some? <==> LastTakenAt(g.heap[s]) < |g.heap[s].stored|)
    ensures g.heap[s].frame.Some? ==>
              g.heap[s].stored != [] && g.heap[s].frame.value == g.heap[s].stored[|g.heap[s].stored| - 1]
    ensures !g.heap[s].running ==> g.heap[s].frame.None?
  {
    var n: nat, run :| Runs(c, Init(n), run, g);
    MailboxRuns(c, Init(n), run, g);
    assert SlotOk(g.heap[s]);
  }

  // ---- No frame is left behind a sleeping create ----

  // The thread is about to wake a sleeper of s, or is itself an awake create of s.
  predicate Claims(pc: Pc, s: Sid) {
    match pc
    case Notify(x) => x == s
    case MutexWant(x, Take) => x == s
    case MutexIn(x, Take) => x == s
    case _ => false
  }

  ghost predicate Attended(g: System, s: Sid)
    requires s < |g.heap|
  {
    g.heap[s].frame.Some? ==>
      || (exists u :: 0 <= u < |g.workers| && Claims(g.workers[u], s))
      || (forall t :: 0 <= t < |g.workers| ==> g.workers[t] != Asleep(s))
  }

  // One thread moved: whoever claims the frame still does, and nobody new sleeps on s.
  lemma AttendedAfter(before: seq<Pc>, after: seq<Pc>, t: Tid, s: Sid)
    requires t < |before| && |after| == |before| && after == before[t := after[t]]
    requires Claims(before[t], s) ==> Claims(after[t], s)
    requires after[t] != Asleep(s)
    requires (exists u :: 0 <= u < |before| && Claims(before[u], s)) || (forall u :: 0 <= u < |before| ==> before[u] != Asleep(s))
    ensures (exists u :: 0 <= u < |after| && Claims(after[u], s)) || (forall u :: 0 <= u < |after| ==> after[u] != Asleep(s))
  {
    if exists u :: 0 <= u < |before| && Claims(before[u], s) {
      var u :| 0 <= u < |before| && Claims(before[u], s);
      assert Claims(after[u], s);
    }
  }

  lemma AttendedBody(c: Config, g: System, t: Tid, s: Sid)
    requires Locks(g) && t < |g.workers| && WorkerEnabled(g, t, Body) && s < |g.heap| && Attended(g, s)
    requires g.heap[s].frame.Some? ==> g.heap[s].running
    ensures Attended(MutexBody(c, g, t), s)
  {
    var pc := g.workers[t];
    var h := MutexBody(c, g, t);
    if h.heap[s].frame.Some? {
      if Claims(h.workers[t], s) {
      } else {
        AttendedAfter(g.workers, h.workers, t, s);
      }
    }
  }

  lemma AttendedNotify(c: Config, g: System, t: Tid, woken: Option<Tid>, s: Sid)
    requires Locks(g) && t < |g.workers| && WorkerEnabled(g, t, NotifyOne(woken)) && s < |g.heap| && Attended(g, s)
    ensures Attended(WorkerNext(c, g, t, NotifyOne(woken)), s)
  {
    var h := WorkerNext(c, g, t, NotifyOne(woken));
    if woken.Some? && g.workers[t].s == s {
      assert Claims(h.workers[woken.value], s);
    } else if g.workers[t].s == s {
      assert forall u :: 0 <= u < |g.workers| ==> h.workers[u] != Asleep(s);
    } else if g.heap[s].frame.Some? {
      var ws := if woken.Some? then g.workers[woken.value := h.workers[woken.value]] else g.workers;
      if woken.Some? { AttendedAfter(g.workers, ws, woken.value, s); }
      AttendedAfter(ws, h.workers, t, s);
    }
  }

  lemma AttendedMove(c: Config, g: System, t: Tid, m: Move, s: Sid)
    requires Locks(g) && t < |g.workers| && WorkerEnabled(g, t, m) && s < |g.heap| && Attended(g, s)
    requires !m.Body? && !m.NotifyOne?
    ensures Attended(WorkerNext(c, g, t, m), s)
  {
    var h := WorkerNext(c, g, t, m);
    assert |h.workers| == |g.workers| && h.workers == g.workers[t := h.workers[t]];
    if g.heap[s].frame.Some? {
      AttendedAfter(g.workers, h.workers, t, s);
    }
  }

  lemma AttendedControl(g: System, subscribed: bool, s: Sid)
    requires Locks(g) && ControlEnabled(g) && s < |g.heap| && Attended(g, s)
    ensures Attended(ControlNext(g, subscribed), s)
  {
    var h := ControlNext(g, subscribed);
    if h.heap[s].frame.Some? && exists u :: 0 <= u < |g.workers| && Claims(g.workers[u], s) {
      var u :| 0 <= u < |g.workers| && Claims(g.workers[u], s);
      assert Claims(h.workers[u], s);
    }
  }

  lemma FullSlotRuns(src: Source)
    requires SlotOk(src)
    ensures src.frame.Some? ==> src.running
  {
  }

  lemma AttendedOneStep(c: Config, g: System, a: Action, s: Sid)
    requires Locks(g) && Enabled(c, g, a) && s < |g.heap| && Attended(g, s)
    requires g.heap[s].frame.Some? ==> g.heap[s].running
    ensures s < |Step(c, g, a).heap| && Attended(Step(c, g, a), s)
  {
    hide Locks, Attended, WorkerNext, ControlNext, MutexBody;
    HeapStays(c, g, a);
    match a {
      case By(t, m) =>
        if m.Body? { AttendedBody(c, g, t, s); MoveIsBody(c, g, t); }
        else if m.NotifyOne? { AttendedNotify(c, g, t, m.woken, s); }
        else { AttendedMove(c, g, t, m, s); }
      case ControlStep(subscribed) => AttendedControl(g, subscribed, s);
      case _ => AttendedSame(g, Step(c, g, a), s);
    }
  }

  lemma MoveIsBody(c: Config, g: System, t: Tid)
    requires t < |g.workers| && WorkerEnabled(g, t, Body)
    ensures WorkerNext(c, g, t, Body) == MutexBody(c, g, t)
  {
  }

  lemma AttendedSame(g: System, h: System, s: Sid)
    requires s < |g.heap| && h.heap == g.heap && h.workers == g.workers && Attended(g, s)
    ensures Attended(h, s)
  {
  }

  lemma HeapStays(c: Config, g: System, a: Action)
    requires Locks(g) && Enabled(c, g, a)
    ensures |Step(c, g, a).heap| >= |g.heap|
  {
    hide StateLockOwned, MutexOwned;
  }

  // A new state's slot is empty.
  lemma NewSlotsAreEmpty(c: Config, g: System, a: Action, s: Sid)
    requires Locks(g) && Enabled(c, g, a) && |g.heap| <= s < |Step(c, g, a).heap|
    ensures Attended(Step(c, g, a), s)
  {
    hide StateLockOwned, MutexOwned;
  }

  lemma AttendedStep(c: Config, g: System, a: Action)
    requires Inv(g) && Mailbox(g) && Enabled(c, g, a)
    requires forall s :: 0 <= s < |g.heap| ==> Attended(g, s)
    ensures forall s :: 0 <= s < |Step(c, g, a).heap| ==> Attended(Step(c, g, a), s)
  {
    hide Enabled, Step, Locks, Counted, Lifecycle, Attended, SlotOk;
    forall s | 0 <= s < |Step(c, g, a).heap| ensures Attended(Step(c, g, a), s) {
      if s < |g.heap| {
        FullSlotRuns(g.heap[s]);
        AttendedOneStep(c, g, a, s);
      } else {
        NewSlotsAreEmpty(c, g, a, s);
      }
    }
  }

  lemma {:induction false} AttendedRuns(c: Config, g: System, run: seq<Action>, h: System)
    requires Inv(g) && Mailbox(g) && Runs(c, g, run, h)
    requires forall s :: 0 <= s < |g.heap| ==> Attended(g, s)
    ensures forall s :: 0 <= s < |h.heap| ==> Attended(h, s)
    decreases |run|
  {
    if run != [] {
      InvStep(c, g, run[0]);
      MailboxStep(c, g, run[0]);
      AttendedStep(c, g, run[0]);
      AttendedRuns(c, Step(c, g, run[0]), run[1..], h);
    }
  }

  /** No wake-up is lost: while a create sleeps on a full slot, some callback has still to notify or another
      create is awake to take the frame. */
  lemma NoFrameLeftBehind(c: Config, g: System, t: Tid, s: Sid)
    requires Reachable(c, g) && t < |g.workers| && g.workers[t] == Asleep(s) && s < |g.heap| && g.heap[s].frame.Some?
    ensures exists u :: 0 <= u < |g.workers| && Claims(g.workers[u], s)
  {
    var n: nat, run :| Runs(c, Init(n), run, g);
    AttendedRuns(c, Init(n), run, g);
    assert Attended(g, s);
  }
}
