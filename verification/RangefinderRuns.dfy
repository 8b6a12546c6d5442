/** What holds over every run of a rangefinder mapping. */
module RangefinderRuns {
  import opened RangeEncoding
  import opened Rangefinder
  import opened Wrappers

  datatype Step = Scanned(scan: Scan) | Updated(now: int, later: int, net: Net)

  predicate StepDefined(c: Config, start: int, s: State, step: Step) {
    step.Updated? ==> TurnDefined(c, s, start, step.now, step.later)
  }

  function After(c: Config, start: int, s: State, step: Step): State
    requires StepDefined(c, start, s, step)
  {
    match step
    case Scanned(scan) => s.(scan := scan)
    case Updated(now, later, net) => AfterUpdate(c, s, start, now, later, net)
  }

  // The states of a mapping along a sequence of steps, from the initial one.
  ghost predicate IsRun(c: Config, start: int, steps: seq<Step>, states: seq<State>) {
    && |states| == |steps| + 1
    && states[0] == INITIAL
    && forall i :: 0 <= i < |steps| ==> IsStep(c, start, states[i], steps[i], states[i + 1])
  }

  ghost predicate IsStep(c: Config, start: int, s: State, step: Step, t: State) {
    StepDefined(c, start, s, step) && t == After(c, start, s, step)
  }

  // ---- Reading a log ----

  /** What a log shows: the descriptor that is open at its end, whether descriptors were used in order, the
      times of the connection attempts and of the sends, how many frames went through and how many of those read
      as out of range, and how many messages were published. */
  datatype Facts = Facts(current: Option<int>, inOrder: bool, attempts: seq<int>, sends: seq<int>, whole: nat,
                         outOfRange: nat, published: nat)

  // A descriptor is opened only when none is open, and closed or written only while it is the open one.
  function Add(f: Facts, e: Event): Facts {
    match e
    case Attempt(at) => f.(attempts := f.attempts + [at])
    case Opened(fd) => f.(current := Some(fd), inOrder := f.inOrder && f.current.None? && fd >= 0)
    case Closed(fd) => f.(current := None, inOrder := f.inOrder && f.current == Some(fd))
    case Sent(at, fd, frame, whole) =>
      f.(sends := f.sends + [at], inOrder := f.inOrder && f.current == Some(fd),
         whole := f.whole + (if whole then 1 else 0),
         outOfRange := f.outOfRange + if whole && DecodeTfmini(frame) == Some(1201) then 1 else 0)
    case Published(_, _) => f.(published := f.published + 1)
  }

  function Read(log: seq<Event>): Facts {
    if log == [] then Facts(None, true, [], [], 0, 0, 0)
    else Add(Read(log[..|log| - 1]), log[|log| - 1])
  }

  lemma ReadOneMore(log: seq<Event>, e: Event)
    ensures Read(log + [e]) == Add(Read(log), e)
  {
    assert (log + [e])[..|log|] == log;
  }

  lemma ReadNothing()
    ensures Read([]) == Facts(None, true, [], [], 0, 0, 0)
  {
  }

  predicate Spaced(times: seq<int>, gap: int) {
    forall i, j :: 0 <= i < j < |times| ==> times[j] - times[i] >= gap
  }

  // The latest of the times, if there is one.
  predicate Latest(times: seq<int>, last: int) {
    times != [] ==> times[|times| - 1] == last
  }

  lemma SpacedOneMore(times: seq<int>, gap: int, last: int, at: int)
    requires Spaced(times, gap) && Latest(times, last) && at - last >= gap >= 0
    ensures Spaced(times + [at], gap) && Latest(times + [at], at)
  {
    var more := times + [at];
    forall i, j | 0 <= i < j < |more| ensures more[j] - more[i] >= gap {
      if j == |times| && i < |times| - 1 {
        assert times[|times| - 1] - times[i] >= gap;
      }
    }
  }

  // ---- TFmini ----

  predicate TfminiFacts(s: State, f: Facts) {
    && f.inOrder
    && f.current == (if s.tcp >= 0 then Some(s.tcp) else None)
    && Spaced(f.attempts, CONNECT_PERIOD) && Latest(f.attempts, s.lastConnectAttempt)
    && Spaced(f.sends, OUTPUT_PERIOD) && Latest(f.sends, s.lastOutput)
    && s.outputs == f.whole && s.invalid == f.outOfRange
  }

  predicate TfminiInvariant(s: State) {
    (s.connecting ==> s.tcp >= 0) && TfminiFacts(s, Read(s.log))
  }

  lemma ConnectKeeps(s: State, now: int, net: Net)
    requires TfminiInvariant(s)
    ensures TfminiInvariant(AfterConnect(s, now, net))
  {
    hide Read, Spaced, Latest;
    if AttemptDue(s, now) {
      var tried := Did(s.(lastConnectAttempt := now), Attempt(now));
      ReadOneMore(s.log, Attempt(now));
      SpacedOneMore(Read(s.log).attempts, CONNECT_PERIOD, s.lastConnectAttempt, now);
      if net.socket >= 0 {
        var linked := Did(tried.(tcp := net.socket), Opened(net.socket));
        ReadOneMore(tried.log, Opened(net.socket));
        ReadOneMore(linked.log, Closed(net.socket));
      }
    }
  }

  lemma PollKeeps(s: State, net: Net)
    requires TfminiInvariant(s)
    ensures TfminiInvariant(AfterPoll(s, net))
  {
    hide Read, Spaced, Latest;
    ReadOneMore(s.log, Closed(s.tcp));
  }

  lemma SendKeeps(s: State, now: int, net: Net)
    requires TfminiInvariant(s) && LinkUp(s) && now - s.lastOutput >= OUTPUT_PERIOD && TfminiDefined(s.scan, now)
    ensures TfminiInvariant(AfterSend(s, now, net))
  {
    hide Read, Spaced, Latest, TfminiFrame, TfminiDistance, Sample, DecodeTfmini;
    FrameDecodes(TfminiDistance(AsDouble(Sample(s.scan, now))));
    var frame := TfminiFrame(TfminiDistance(AsDouble(Sample(s.scan, now))));
    var t := Did(s.(lastOutput := now), Sent(now, s.tcp, frame, net.sent == 9));
    ReadOneMore(s.log, Sent(now, s.tcp, frame, net.sent == 9));
    SpacedOneMore(Read(s.log).sends, OUTPUT_PERIOD, s.lastOutput, now);
    ReadOneMore(t.log, Closed(s.tcp));
  }

  lemma TfminiKeeps(s: State, now: int, net: Net)
    requires TfminiInvariant(s) && TfminiDefined(s.scan, now)
    ensures TfminiInvariant(AfterTfmini(s, now, net))
  {
    hide TfminiInvariant, AfterConnect, AfterPoll, AfterSend, TfminiDefined;
    ConnectKeeps(s, now, net);
    PollKeeps(AfterConnect(s, now, net), net);
    ConnectKeepsScan(s, now, net);
    var polled := AfterPoll(AfterConnect(s, now, net), net);
    if LinkUp(polled) && now - s.lastOutput >= OUTPUT_PERIOD {
      SendKeeps(polled, now, net);
    }
  }

  /** In every state of every run of a TFmini mapping: a pending connection has a descriptor; every descriptor
      was opened while none was open, is closed once or is the current one, and only the open one was written
      to; connection attempts are at least one second apart and sends at least 10 ms; the output counter counts
      exactly the whole frames sent. */
  lemma {:induction false} TfminiRuns(c: Config, start: int, steps: seq<Step>, states: seq<State>, n: nat)
    requires c.output == "tfmini" && IsRun(c, start, steps, states) && n < |states|
    ensures var s := states[n];
            var f := Read(s.log);
            && (s.connecting ==> s.tcp >= 0)
            && f.inOrder
            && f.current == (if s.tcp >= 0 then Some(s.tcp) else None)
            && Spaced(f.attempts, 1_000_000_000)
            && Spaced(f.sends, 10_000_000)
            && s.outputs == f.whole && s.invalid == f.outOfRange
            && TfminiInvariant(s)
  {
    if n > 0 {
      TfminiRuns(c, start, steps, states, n - 1);
      var s, step := states[n - 1], steps[n - 1];
      assert IsStep(c, start, s, step, states[n - 1 + 1]);
      if step.Updated? {
        TfminiKeeps(s, step.now, step.net);
      }
    }
  }

  function OpenedBy(e: Event): multiset<int> {
    if e.Opened? then multiset{e.fd} else multiset{}
  }

  function ClosedBy(e: Event): multiset<int> {
    if e.Closed? then multiset{e.fd} else multiset{}
  }

  function OpenedIn(log: seq<Event>): multiset<int> {
    if log == [] then multiset{} else OpenedIn(log[..|log| - 1]) + OpenedBy(log[|log| - 1])
  }

  function ClosedIn(log: seq<Event>): multiset<int> {
    if log == [] then multiset{} else ClosedIn(log[..|log| - 1]) + ClosedBy(log[|log| - 1])
  }

  function Holding(current: Option<int>): multiset<int> {
    match current case Some(fd) => multiset{fd} case None => multiset{}
  }

  lemma BalanceOneMore(f: Facts, e: Event, before: multiset<int>, after: multiset<int>)
    requires before == after + Holding(f.current) && Add(f, e).inOrder
    ensures before + OpenedBy(e) == after + ClosedBy(e) + Holding(Add(f, e).current)
  {
  }

  lemma InOrderBefore(f: Facts, e: Event)
    requires Add(f, e).inOrder
    ensures f.inOrder
  {
  }

  /** In a log whose descriptors are used in order, everything opened is closed as often, except the one that
      is open. */
  lemma {:induction false} OpenedIsClosedOrCurrent(log: seq<Event>)
    requires Read(log).inOrder
    ensures OpenedIn(log) == ClosedIn(log) + Holding(Read(log).current)
  {
    hide Add, OpenedBy, ClosedBy;
    if log != [] {
      var rest, e := log[..|log| - 1], log[|log| - 1];
      InOrderBefore(Read(rest), e);
      OpenedIsClosedOrCurrent(rest);
      BalanceOneMore(Read(rest), e, OpenedIn(rest), ClosedIn(rest));
    }
  }

  // The entry is a frame sent at a given time that a driver reads as a given distance.
  predicate SendsDistance(e: Event, at: int, cm: nat) {
    e.Sent? && e.at == at && DecodeTfmini(e.frame) == Some(cm)
  }

  /** A link that is up is given a frame whenever 10 ms have passed since the last: the one new send of the update
      is on the open descriptor and carries the sample of that moment, the whole centimetres of a usable reading
      of at most 1200, or 1201. At any other time nothing is sent. */
  lemma TfminiSends(s: State, now: int, net: Net)
    requires TfminiDefined(s.scan, now)
    ensures var polled := AfterPoll(AfterConnect(s, now, net), net);
            var t := AfterTfmini(s, now, net);
            if polled.tcp >= 0 && !polled.connecting && now - s.lastOutput >= 10_000_000
            then && t.lastOutput == now && t.tcp == (if net.sent == 9 then polled.tcp else -1)
                 && |t.log| > |polled.log| && t.log[..|polled.log|] == polled.log
                 && SendsDistance(t.log[|polled.log|], now, TfminiDistance(AsDouble(Sample(s.scan, now))))
                 && t.log[|polled.log|].fd == polled.tcp
                 && t.log[|polled.log| + 1..] == (if net.sent == 9 then [] else [Closed(polled.tcp)])
            else t.lastOutput == s.lastOutput && t.log == polled.log
  {
    hide AfterConnect, AfterPoll, TfminiDistance, DecodeTfmini, TfminiFrame, FitsCentimetres;
    ConnectKeepsScan(s, now, net);
    var polled := AfterPoll(AfterConnect(s, now, net), net);
    if LinkUp(polled) && now - s.lastOutput >= OUTPUT_PERIOD {
      FrameDecodes(TfminiDistance(AsDouble(Sample(s.scan, now))));
    }
  }

  // The log grows by entries that are no sends.
  predicate SendsNothing(before: seq<Event>, after: seq<Event>) {
    && |before| <= |after| && after[..|before|] == before
    && forall k :: |before| <= k < |after| ==> !after[k].Sent?
  }

  lemma SendsNothingTwice(a: seq<Event>, b: seq<Event>, c: seq<Event>)
    requires SendsNothing(a, b) && SendsNothing(b, c)
    ensures SendsNothing(a, c)
  {
    assert c[..|a|] == c[..|b|][..|a|];
    forall k | |a| <= k < |c| ensures !c[k].Sent? {
      if k < |b| { assert c[k] == c[..|b|][k]; }
    }
  }

  lemma AttemptSendsNothing(s: State, now: int, net: Net)
    ensures SendsNothing(s.log, AfterConnect(s, now, net).log)
  {
  }

  lemma PollSendsNothing(s: State, net: Net)
    ensures SendsNothing(s.log, AfterPoll(s, net).log)
  {
  }

  // Connecting and polling send nothing.
  lemma ConnectSendsNothing(s: State, now: int, net: Net)
    ensures SendsNothing(s.log, AfterPoll(AfterConnect(s, now, net), net).log)
  {
    hide AfterConnect, AfterPoll, SendsNothing;
    AttemptSendsNothing(s, now, net);
    PollSendsNothing(AfterConnect(s, now, net), net);
    SendsNothingTwice(s.log, AfterConnect(s, now, net).log, AfterPoll(AfterConnect(s, now, net), net).log);
  }

  lemma NewSends(s: State, now: int, net: Net, k: nat)
    requires TfminiDefined(s.scan, now)
    ensures var t := AfterTfmini(s, now, net);
            && |s.log| <= |t.log| && t.log[..|s.log|] == s.log
            && (|s.log| <= k < |t.log| && t.log[k].Sent? ==>
                  SendsDistance(t.log[k], now, TfminiDistance(AsDouble(Sample(s.scan, now)))))
  {
    hide AfterConnect, AfterPoll, AfterTfmini, TfminiDistance, DecodeTfmini, Sample;
    ConnectSendsNothing(s, now, net);
    TfminiSends(s, now, net);
    var polled, t := AfterPoll(AfterConnect(s, now, net), net), AfterTfmini(s, now, net);
    Elements(t.log, polled.log);
    Elements(polled.log, s.log);
  }

  lemma Elements(log: seq<Event>, prefix: seq<Event>)
    requires |prefix| <= |log| && log[..|prefix|] == prefix
    ensures forall k :: 0 <= k < |prefix| ==> log[k] == prefix[k]
    ensures forall k :: |prefix| < k < |log| ==> log[k] == log[|prefix| + 1..][k - |prefix| - 1]
  {
    forall k | 0 <= k < |prefix| ensures log[k] == prefix[k] {
      assert log[k] == log[..|prefix|][k];
    }
  }

  // The newest scan among the first n steps.
  function NewestScan(steps: seq<Step>, n: nat): Scan
    requires n <= |steps|
  {
    if n == 0 then INITIAL.scan
    else if steps[n - 1].Scanned? then steps[n - 1].scan
    else NewestScan(steps, n - 1)
  }

  lemma {:induction false} ScanIsNewest(c: Config, start: int, steps: seq<Step>, states: seq<State>, n: nat)
    requires IsRun(c, start, steps, states) && n < |states|
    ensures states[n].scan == NewestScan(steps, n)
  {
    hide TfminiDistance, Sample, TfminiFrame, Message, LimitsFit;
    if n > 0 {
      ScanIsNewest(c, start, steps, states, n - 1);
      assert IsStep(c, start, states[n - 1], steps[n - 1], states[n - 1 + 1]);
      if steps[n - 1].Updated? {
        ConnectKeepsScan(states[n - 1], steps[n - 1].now, steps[n - 1].net);
      }
    }
  }

  /** Every frame in the log of every run was sent by one of its updates, at that update's time, and a driver
      reads it as the newest scan of that moment: the whole centimetres of a reading that is single, finite,
      not negative, at most 250 ms old and at most 12 m, or 1201. */
  lemma {:induction false} EveryFrameIsNewest(c: Config, start: int, steps: seq<Step>, states: seq<State>, n: nat, k: nat)
    returns (i: nat)
    requires c.output == "tfmini" && IsRun(c, start, steps, states) && n < |states|
    requires k < |states[n].log| && states[n].log[k].Sent?
    ensures i < n && steps[i].Updated? && |states[i].log| <= k < |states[i + 1].log|
    ensures var scan, at := NewestScan(steps, i), steps[i].now;
            TfminiDefined(scan, at) && SendsDistance(states[n].log[k], at, TfminiDistance(AsDouble(Sample(scan, at))))
  {
    hide TfminiDistance, Sample, DecodeTfmini, AfterTfmini;
    assert n > 0;
    var s, step := states[n - 1], steps[n - 1];
    assert IsStep(c, start, s, step, states[n - 1 + 1]);
    if step.Updated? {
      NewSends(s, step.now, step.net, k);
      Elements(states[n].log, s.log);
      ScanIsNewest(c, start, steps, states, n - 1);
    }
    if k < |s.log| {
      i := EveryFrameIsNewest(c, start, steps, states, n - 1, k);
    } else {
      i := n - 1;
    }
  }

  /** The same in plain numbers: the frame of an update reads as the whole centimetres of the newest scan if that
      has the single finite reading m >= 0, is at most 250 ms old and has at most 1200 of them; otherwise it reads
      as 1201. */
  lemma FrameReadsFreshScan(c: Config, start: int, steps: seq<Step>, states: seq<State>, n: nat, k: nat)
    returns (i: nat)
    requires c.output == "tfmini" && IsRun(c, start, steps, states) && n < |states|
    requires k < |states[n].log| && states[n].log[k].Sent?
    ensures i < n && steps[i].Updated? && |states[i].log| <= k < |states[i + 1].log|
    ensures var scan, at, e := NewestScan(steps, i), steps[i].now, states[n].log[k];
            && e.at == at && |e.frame| == 9 && e.frame[0] == 0x59 && e.frame[1] == 0x59
            && e.frame[8] as int == Sum(e.frame[..8]) % 256
            && e.frame[2] as int + 256 * e.frame[3] as int
               == (if scan.metres.Some? && scan.metres.value.Number? && scan.metres.value.value >= 0.0
                      && at - scan.at <= 250_000_000 && (scan.metres.value.value * 100.0).Floor <= 1200
                   then (scan.metres.value.value * 100.0).Floor else 1201)
  {
    hide IsRun, Sum;
    i := EveryFrameIsNewest(c, start, steps, states, n, k);
  }

  /** A connection is attempted exactly when there is no descriptor and a second has passed since the last attempt;
      a connection made or in progress is kept, any other descriptor is given up at once. */
  lemma AttemptMeaning(s: State, now: int, net: Net)
    ensures var t := AfterConnect(s, now, net);
            if s.tcp < 0 && now - s.lastConnectAttempt >= 1_000_000_000
            then
              && t.lastConnectAttempt == now && |t.log| > |s.log| && t.log[|s.log|] == Attempt(now)
              && (net.socket >= 0 && net.addressParsed && net.connectResult == 0 ==>
                    t.tcp == net.socket && t.connecting == s.connecting
                    && t.log == s.log + [Attempt(now), Opened(net.socket)])
              && (net.socket >= 0 && net.addressParsed && net.connectResult != 0 && net.connectErrno == 115 ==>
                    t.tcp == net.socket && t.connecting && t.log == s.log + [Attempt(now), Opened(net.socket)])
              && (net.socket >= 0 && !(net.addressParsed && (net.connectResult == 0 || net.connectErrno == 115)) ==>
                    t.tcp == -1 && t.log == s.log + [Attempt(now), Opened(net.socket), Closed(net.socket)])
              && (net.socket < 0 ==> t.tcp < 0 && t.log == s.log + [Attempt(now)])
            else t == s
  {
    assert s.log + [Attempt(now)] + [Opened(net.socket)] == s.log + [Attempt(now), Opened(net.socket)];
    assert s.log + [Attempt(now)] + [Opened(net.socket)] + [Closed(net.socket)]
      == s.log + [Attempt(now), Opened(net.socket), Closed(net.socket)];
  }

  /** A pending connection comes up when the socket reports no error, stays pending while it reports EINPROGRESS,
      and is closed on any other answer; a connection that is not pending is not touched. */
  lemma PollMeaning(s: State, net: Net)
    ensures var t := AfterPoll(s, net);
            && (!s.connecting ==> t == s)
            && (s.connecting && net.getsockoptResult >= 0 && net.soError == 0 ==>
                  t.tcp == s.tcp && !t.connecting && t.log == s.log)
            && (s.connecting && net.soError == 115 ==> t == s)
            && (s.connecting && net.soError != 115 && (net.soError != 0 || net.getsockoptResult < 0) ==>
                  t.tcp == -1 && !t.connecting && t.log == s.log + [Closed(s.tcp)])
  {
  }

  lemma FrameDecodes(cm: nat)
    requires cm <= OUT_OF_RANGE_CM
    ensures DecodeTfmini(TfminiFrame(cm)) == Some(cm)
  {
    hide Sum;
    var g := TfminiFrame(cm);
    assert g[..8] == [0x59, 0x59, cm % 256, cm / 256, 0x64, 0x00, 0x01, 0x00];
  }

  // ---- MAVLink ----

  // The scans among the first n steps.
  function Scans(steps: seq<Step>, n: nat): nat
    requires n <= |steps|
  {
    if n == 0 then 0 else Scans(steps, n - 1) + if steps[n - 1].Scanned? then 1 else 0
  }

  /** A DISTANCE_SENSOR mapping looks at each scan at most once: messages published and readings withheld
      together are never more than the scans. */
  lemma {:induction false} DistanceSensorOncePerScan(c: Config, start: int, steps: seq<Step>, states: seq<State>, n: nat)
    requires c.output == "mavlink" && c.mavlinkMessage == "distance_sensor"
    requires IsRun(c, start, steps, states) && n < |states|
    ensures var s := states[n];
            s.outputs + s.invalid + (if s.scan.at > s.lastSampleSent then 1 else 0) <= Scans(steps, n)
  {
    hide Sample, Above, LimitsFit, Message;
    if n > 0 {
      DistanceSensorOncePerScan(c, start, steps, states, n - 1);
      assert IsStep(c, start, states[n - 1], steps[n - 1], states[n - 1 + 1]);
    }
  }

  // The log holds a message published at a given time.
  predicate PublishedAt(log: seq<Event>, at: int) {
    exists k :: 0 <= k < |log| && log[k].Published? && log[k].at == at
  }

  lemma PublishedOneMore(log: seq<Event>, e: Event, at: int)
    ensures PublishedAt(log, at) || (e.Published? && e.at == at) ==> PublishedAt(log + [e], at)
  {
    if PublishedAt(log, at) {
      var k :| 0 <= k < |log| && log[k].Published? && log[k].at == at;
      assert (log + [e])[k] == log[k];
    } else if e.Published? && e.at == at {
      assert (log + [e])[|log|] == e;
    }
  }

  // Until the first message lastOutput is the clock's epoch; from then on it is the time of a message in the log.
  lemma {:induction false} LastOutputIsPublished(c: Config, start: int, steps: seq<Step>, states: seq<State>, n: nat)
    requires c.output == "mavlink" && IsRun(c, start, steps, states) && n < |states|
    ensures states[n].lastOutput == 0 || PublishedAt(states[n].log, states[n].lastOutput)
  {
    hide Sample, LimitsFit, Message, PublishedAt;
    if n > 0 {
      LastOutputIsPublished(c, start, steps, states, n - 1);
      var s, step := states[n - 1], steps[n - 1];
      assert IsStep(c, start, s, step, states[n - 1 + 1]);
      if step.Updated? && MavlinkDue(c, s, step.later) && !Withheld(c, s.scan, step.later) {
        PublishedOneMore(s.log, Published(step.later, Message(c, s.scan, start, step.later)), step.later);
      }
    }
  }

  /** In every run an OBSTACLE_DISTANCE mapping is never silent: after every update past the first 50 ms of the
      clock a message has been published within the last 50 ms, scan or no scan, and a new scan is published at
      once. */
  lemma ObstacleNeverSilent(c: Config, start: int, steps: seq<Step>, states: seq<State>, n: nat)
    requires c.output == "mavlink" && c.mavlinkMessage == "obstacle_distance"
    requires IsRun(c, start, steps, states) && n < |steps| && steps[n].Updated? && steps[n].later >= 50_000_000
    ensures var t, later := states[n + 1], steps[n].later;
            && later - t.lastOutput < 50_000_000 && PublishedAt(t.log, t.lastOutput)
            && (states[n].scan.at > states[n].lastSampleSent ==> t.lastOutput == later && t.outputs == states[n].outputs + 1)
  {
    hide Sample, LimitsFit, Message, PublishedAt;
    assert IsStep(c, start, states[n], steps[n], states[n + 1]);
    LastOutputIsPublished(c, start, steps, states, n + 1);
  }

  /** In every run the output counter of a MAVLink mapping counts the messages published. */
  lemma {:induction false} MavlinkOutputs(c: Config, start: int, steps: seq<Step>, states: seq<State>, n: nat)
    requires c.output == "mavlink" && IsRun(c, start, steps, states) && n < |states|
    ensures states[n].outputs == Read(states[n].log).published
  {
    hide Sample, LimitsFit, Message, Read;
    ReadNothing();
    if n > 0 {
      MavlinkOutputs(c, start, steps, states, n - 1);
      var s, step := states[n - 1], steps[n - 1];
      assert IsStep(c, start, s, step, states[n - 1 + 1]);
      if step.Updated? && MavlinkDue(c, s, step.later) && !Withheld(c, s.scan, step.later) {
        ReadOneMore(s.log, Published(step.later, Message(c, s.scan, start, step.later)));
      }
    }
  }

  // ---- The messages in plain numbers ----

  /** An update of a DISTANCE_SENSOR mapping publishes exactly when a scan has come since the last look, has the
      single finite reading m >= 0, is at most 250 ms old, and m does not exceed the scan's maximum: the message
      has the whole centimetres of m and of the limits, capped at 65535. */
  lemma DistanceTurn(c: Config, s: State, start: int, now: int, later: int, net: Net)
    requires c.output == "mavlink" && c.mavlinkMessage == "distance_sensor"
    requires TurnDefined(c, s, start, now, later)
    ensures var t := AfterUpdate(c, s, start, now, later, net);
            if s.scan.at > s.lastSampleSent
            then
              && t.lastSampleSent == s.scan.at
              && if s.scan.metres.Some? && s.scan.metres.value.Number? && s.scan.metres.value.value >= 0.0
                    && later - s.scan.at <= 250_000_000
                    && !(s.scan.maximum.Number? && s.scan.metres.value.value > s.scan.maximum.value)
                    && !s.scan.maximum.NegativeInfinity?
                 then
                   var m := s.scan.metres.value.value;
                   && start <= later && |t.log| == |s.log| + 1 && t.log[..|s.log|] == s.log
                   && t.log[|s.log|].Published? && t.log[|s.log|].at == later && t.lastOutput == later
                   && t.log[|s.log|].message.DistanceSensor?
                   && var d := t.log[|s.log|].message;
                   && d.timeBootMs == (later - start) / 1_000_000 % 0x1_0000_0000
                   && d.current == (if m > 655.35 then 65535 else (m * 100.0).Floor)
                   && d.maximum == (if s.scan.maximum.Number? then
                                      if s.scan.maximum.value > 655.35 then 65535
                                      else if s.scan.maximum.value < 0.0 then 0
                                      else (s.scan.maximum.value * 100.0).Floor
                                    else 65535)
                   && d.minimum == (if s.scan.minimum.Number? && s.scan.minimum.value > 0.0
                                    then (s.scan.minimum.value * 100.0).Floor else 0)
                   && d.sensorType == 0 && d.id == c.sensorId && d.orientation == 0 && d.covariance == 255
                   && t.invalid == s.invalid
                 else t.log == s.log && t.invalid == s.invalid + 1 && t.outputs == s.outputs
            else t == s
  {
    assert (655.35 * 100.0).Floor == 65535;
  }

  /** An update of an OBSTACLE_DISTANCE mapping publishes exactly when a scan has come since the last look or 50 ms
      have passed since the last message. The forward bin is unknown, 65535, without a reading that is single,
      finite, not negative and at most 250 ms old; one more than the encoded maximum, modulo 65536, for a reading
      above the maximum; and the whole centimetres otherwise. All other bins are unknown. */
  lemma ObstacleTurn(c: Config, s: State, start: int, now: int, later: int, net: Net)
    requires c.output == "mavlink" && c.mavlinkMessage == "obstacle_distance"
    requires TurnDefined(c, s, start, now, later)
    ensures var t := AfterUpdate(c, s, start, now, later, net);
            if s.scan.at > s.lastSampleSent || later - s.lastOutput >= 50_000_000
            then
              && start <= later && |t.log| == |s.log| + 1 && t.log[..|s.log|] == s.log
              && t.log[|s.log|].Published? && t.log[|s.log|].at == later && t.lastOutput == later
              && t.log[|s.log|].message.ObstacleDistance?
              && var d := t.log[|s.log|].message;
              && |d.distances| == 72 && (forall k :: 1 <= k < 72 ==> d.distances[k] == 65535)
              && d.distances[0]
                 == (if s.scan.metres.Some? && s.scan.metres.value.Number? && s.scan.metres.value.value >= 0.0
                        && later - s.scan.at <= 250_000_000
                     then
                       if s.scan.maximum.NegativeInfinity?
                          || (s.scan.maximum.Number? && s.scan.metres.value.value > s.scan.maximum.value)
                       then (d.maximum + 1) % 65536
                       else if s.scan.metres.value.value > 655.35 then 65535
                       else (s.scan.metres.value.value * 100.0).Floor
                     else 65535)
              && d.timeUsec == (later - start) / 1000
              && d.sensorType == 0 && d.increment == 0 && d.incrementF == 0.0 && d.angleOffset == 0.0 && d.frame == 12
            else t.log == s.log
  {
    hide MinCm;
    assert (655.35 * 100.0).Floor == 65535;
  }

  /** Every message in the log of every run was published by one of its updates, which looked at the newest scan of
      that moment: DistanceTurn and ObstacleTurn say what it then holds. */
  lemma {:induction false} EveryMessageIsNewest(c: Config, start: int, steps: seq<Step>, states: seq<State>, n: nat, k: nat)
    returns (i: nat)
    requires c.output == "mavlink" && IsRun(c, start, steps, states) && n < |states|
    requires k < |states[n].log| && states[n].log[k].Published?
    ensures i < n && steps[i].Updated? && |states[i].log| <= k < |states[i + 1].log|
    ensures states[i].scan == NewestScan(steps, i) && states[n].log[k] == states[i + 1].log[k]
    ensures states[n].log[k].at == steps[i].later
  {
    hide Sample, LimitsFit, Message;
    assert n > 0;
    var s, step := states[n - 1], steps[n - 1];
    assert IsStep(c, start, s, step, states[n - 1 + 1]);
    if k < |s.log| {
      i := EveryMessageIsNewest(c, start, steps, states, n - 1, k);
    } else {
      i := n - 1;
      ScanIsNewest(c, start, steps, states, n - 1);
    }
  }

  /** What the checker makes of the message of an update is the scan's meaning at that moment: for
      OBSTACLE_DISTANCE when the encoded maximum is below 65534; for DISTANCE_SENSOR when the reading reaches
      the published minimum, and the checker rejects it otherwise. */
  lemma PublishedMeaning(c: Config, scan: Scan, start: int, now: int)
    requires MavlinkDefined(c, scan, start, now) && !Withheld(c, scan, now)
    requires c.mavlinkMessage == "obstacle_distance" || c.mavlinkMessage == "distance_sensor"
    requires c.mavlinkMessage == "obstacle_distance" ==> MaxCm(scan.maximum) < 65534
    ensures var m := Message(c, scan, start, now);
            && (m.DistanceSensor? ==> m.current <= m.maximum)
            && (m.DistanceSensor? && m.current < m.minimum ==> DescribeRange(m, c.sensorId) == Err(OutsideLimits))
            && (m.ObstacleDistance? || m.current >= m.minimum ==>
                  DescribeRange(m, c.sensorId) == Ok(Meaning(Sample(scan, now), scan.maximum)))
  {
    hide Sample, DescribeRange, ObstacleMessage, Meaning, MaxCm, MinCm, Centimetres;
    if c.mavlinkMessage == "distance_sensor" {
      DistanceSensorAccepted((now - start) / 1_000_000 % 0x1_0000_0000, Sample(scan, now).value, scan.minimum,
                             scan.maximum, c.sensorId);
    } else {
      ObstacleRoundTrip((now - start) / 1000, Sample(scan, now), scan.minimum, scan.maximum, c.sensorId);
    }
  }
}
