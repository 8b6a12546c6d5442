/** The odometry manager: one sample slot between the transport callback and the control loop. */
module OdometryManager {
  import opened Odometry
  import opened Quaternions
  import opened Wrappers

  // Clock readings are in nanoseconds.
  const STALE_AFTER := 250_000_000

  datatype Stamp = Stamp(sec: int, nsec: int)

  // An odometry message; an absent submessage is None.
  datatype Message = Message(stamp: Option<Stamp>, pose: Option<Pose>, twist: Option<Twist>)
  datatype Pose = Pose(position: seq<Double>, orientation: seq<Double>)
  datatype Twist = Twist(linear: seq<Double>, angular: seq<Double>)

  predicate MessageShaped(m: Message) {
    && (m.pose.Some? ==> |m.pose.value.position| == 3 && |m.pose.value.orientation| == 4)
    && (m.twist.Some? ==> |m.twist.value.linear| == 3 && |m.twist.value.angular| == 3)
  }

  /** The callback keeps exactly the complete messages with a stamp that is a time; the sample's time is the stamp
      to the whole microsecond below. */
  function ToSample(m: Message): (s: Option<Sample>)
    requires MessageShaped(m)
    ensures s.Some? <==>
              && m.stamp.Some? && m.pose.Some? && m.twist.Some?
              && m.stamp.value.sec >= 0 && 0 <= m.stamp.value.nsec < 1_000_000_000
    ensures s.Some? ==>
              && Shaped(s.value)
              && s.value.timeUsec * 1000 <= m.stamp.value.sec * 1_000_000_000 + m.stamp.value.nsec
                 < (s.value.timeUsec + 1) * 1000
              && s.value.position == m.pose.value.position && s.value.orientation == m.pose.value.orientation
              && s.value.linearVelocity == m.twist.value.linear && s.value.angularVelocity == m.twist.value.angular
  {
    if m.stamp.None? || m.pose.None? || m.twist.None? then None
    else
      var stamp := m.stamp.value;
      if stamp.sec < 0 || stamp.nsec < 0 || stamp.nsec >= 1_000_000_000 then None
      else Some(Sample(stamp.sec * 1_000_000 + stamp.nsec / 1000, m.pose.value.position, m.pose.value.orientation,
                       m.twist.value.linear, m.twist.value.angular))
  }

  // The places lie in the history, later ones further on.
  predicate Places(received: seq<Sample>, places: seq<nat>) {
    && AllShaped(received)
    && (forall k :: 0 <= k < |places| ==> places[k] < |received|)
    && (forall j, k :: 0 <= j < k < |places| ==> places[j] < places[k])
  }

  // The samples at the given places of a history.
  function Chosen(received: seq<Sample>, places: seq<nat>): (r: seq<Sample>)
    requires Places(received, places)
    ensures |r| == |places| && AllShaped(r)
  {
    seq(|places|, k requires 0 <= k < |places| => received[places[k]])
  }

  /** What arrived when, and what was handed to the converter when. */
  datatype History = History(received: seq<Sample>, receivedAt: seq<int>, consumed: seq<nat>, consumedAt: seq<int>)

  // Every sample was consumed at most once, in the order of arrival, and within 250 ms of its arrival.
  predicate InTime(h: History) {
    && Places(h.received, h.consumed) && |h.receivedAt| == |h.received| && |h.consumedAt| == |h.consumed|
    && forall k :: 0 <= k < |h.consumed| ==> h.consumedAt[k] - h.receivedAt[h.consumed[k]] <= 250_000_000
  }

  function Arrive(h: History, s: Sample, now: int): History {
    h.(received := h.received + [s], receivedAt := h.receivedAt + [now])
  }

  function Consume(h: History, now: int): History
    requires h.received != []
  {
    h.(consumed := h.consumed + [|h.received| - 1], consumedAt := h.consumedAt + [now])
  }

  // The generation counter of the newest consumed sample.
  function SentGeneration(h: History): nat {
    if h.consumed == [] then 0 else h.consumed[|h.consumed| - 1] + 1
  }

  lemma ArriveInTime(h: History, s: Sample, now: int)
    requires InTime(h) && Shaped(s)
    ensures InTime(Arrive(h, s, now)) && Chosen(Arrive(h, s, now).received, h.consumed) == Chosen(h.received, h.consumed)
    ensures SentGeneration(Arrive(h, s, now)) == SentGeneration(h)
  {
    hide Shaped;
  }

  lemma NewestConsumed(h: History)
    requires InTime(h)
    ensures h.received != [] ==> (|h.received| - 1 in h.consumed <==> SentGeneration(h) == |h.received|)
    ensures SentGeneration(h) <= |h.received|
    ensures h.received != [] ==> Shaped(h.received[|h.received| - 1])
  {
    hide Shaped;
  }

  lemma ConsumeInTime(h: History, now: int)
    requires InTime(h) && h.received != [] && SentGeneration(h) != |h.received|
    requires now - h.receivedAt[|h.received| - 1] <= STALE_AFTER
    ensures InTime(Consume(h, now)) && SentGeneration(Consume(h, now)) == |h.received|
    ensures Chosen(h.received, Consume(h, now).consumed) == Chosen(h.received, h.consumed) + [h.received[|h.received| - 1]]
  {
    hide Shaped;
    NewestConsumed(h);
    var more := h.consumed + [|h.received| - 1];
    forall j, k | 0 <= j < k < |more| ensures more[j] < more[k] {
      if k == |h.consumed| && j < k - 1 {
        assert h.consumed[j] < h.consumed[k - 1];
      }
    }
  }

  lemma ConvertOneMore(root: real -> real, samples: seq<Sample>, s: Sample)
    requires SquareRoot(root) && AllShaped(samples) && Shaped(s)
    ensures AllShaped(samples + [s])
    ensures After(root, samples + [s]) == Next(root, After(root, samples), s)
    ensures OutputAt(root, samples + [s], |samples|) == Output(root, After(root, samples), s)
  {
    hide SquareRoot, Next, Output, Shaped;
    var more := samples + [s];
    assert AllShaped(more);
    assert more[..|samples|] == samples;
    assert more[..|more| - 1] == samples;
  }

  class Manager {
    const root: real -> real
    const enabled: bool
    var sample: Option<Sample>
    var sampleReceived: int
    var generation: nat
    var sentGeneration: nat
    var messages: nat
    var invalid: nat
    const converter: OdometryConverter
    ghost var history: History

    /** The whole history is in time, the converter has seen exactly the consumed samples, in order, and the
        counters count them. */
    ghost predicate Valid()
      reads this, converter
    {
      && SquareRoot(root) && InTime(history)
      && generation == |history.received| && sentGeneration == SentGeneration(history)
      && (if generation == 0 then sample == None
          else sample == Some(history.received[generation - 1]) && sampleReceived == history.receivedAt[generation - 1])
      && messages + invalid == |history.consumed|
      && converter.Value() == After(root, Chosen(history.received, history.consumed))
    }

    constructor (squareRoot: real -> real, enable: bool)
      requires SquareRoot(squareRoot)
      ensures Valid() && fresh(converter) && history == History([], [], [], []) && messages == 0
    {
      hide SquareRoot, Shaped;
      root, enabled := squareRoot, enable;
      sample, sampleReceived, generation, sentGeneration, messages, invalid := None, 0, 0, 0, 0, 0;
      history := History([], [], [], []);
      converter := new OdometryConverter();
    }

    /** A usable message is stored as the newest sample with its arrival time; any other changes nothing. */
    method OnOdometry(message: Message, now: int)
      requires Valid() && MessageShaped(message)
      modifies this
      ensures Valid()
      ensures history == match ToSample(message) case Some(s) => Arrive(old(history), s, now) case None => old(history)
      ensures sampleReceived == if ToSample(message).Some? then now else old(sampleReceived)
      ensures messages == old(messages) && invalid == old(invalid)
    {
      hide SquareRoot, Shaped, Places, After, Chosen, ToSample, SentGeneration;
      var next := ToSample(message);
      if next.None? {
        return;
      }
      ArriveInTime(history, next.value, now);
      sample := next;
      sampleReceived := now;
      generation := generation + 1;
      history := Arrive(history, next.value, now);
    }

    /** The newest sample is handed to the converter exactly when it is due, and what is sent is what the
        converter makes of it after all samples consumed before. */
    method Update(now: int) returns (sent: Option<Converted>)
      requires Valid()
      modifies this, converter
      ensures Valid() && sampleReceived == old(sampleReceived)
      ensures old(enabled && history.received != [] && |history.received| - 1 !in history.consumed
                  && now - sampleReceived <= 250_000_000)
          ==> && history == Consume(old(history), now)
              && sent == OutputAt(root, Chosen(history.received, history.consumed), |history.consumed| - 1)
              && messages == old(messages) + (if sent.Some? then 1 else 0)
      ensures !old(enabled && history.received != [] && |history.received| - 1 !in history.consumed
                   && now - sampleReceived <= 250_000_000)
          ==> history == old(history) && sent == None && messages == old(messages)
              && converter.Value() == old(converter.Value())
    {
      hide SquareRoot, Next, Output, After, OutputAt, Chosen, Places, SentGeneration, Shaped;
      NewestConsumed(history);
      if !enabled {
        return None;
      }
      if sample.None? || generation == sentGeneration || now - sampleReceived > STALE_AFTER {
        return None;
      }
      var next := sample.value;
      ConsumeInTime(history, now);
      ConvertOneMore(root, Chosen(history.received, history.consumed), next);
      sentGeneration := generation;
      history := Consume(history, now);
      sent := converter.Convert(root, next);
      if sent.None? {
        invalid := invalid + 1;
      } else {
        messages := messages + 1;
      }
    }
  }
}
