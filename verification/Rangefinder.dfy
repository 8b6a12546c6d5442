/** One rangefinder mapping: the non-blocking TFmini connection and the MAVLink output. */
module Rangefinder {
  import opened Bits
  import opened RangeEncoding
  import opened Wrappers

  // Clock readings are in nanoseconds.
  const STALE_AFTER := 250_000_000
  const CONNECT_PERIOD := 1_000_000_000
  const OUTPUT_PERIOD := 10_000_000
  const OBSTACLE_PERIOD := 50_000_000

  const EINPROGRESS := 115

  datatype Config = Config(output: string, mavlinkMessage: string, sensorId: nat)

  // The newest scan of the subscription.
  datatype Scan = Scan(metres: Option<Double>, minimum: Double, maximum: Double, at: int)

  // What the operating system answers during one update.
  datatype Net = Net(socket: int, addressParsed: bool, connectResult: int, connectErrno: int,
                     getsockoptResult: int, soError: int, sent: int)

  datatype Event =
    | Attempt(at: int)
    | Opened(fd: int)
    | Closed(fd: int)
    | Sent(at: int, fd: int, frame: Bytes, whole: bool)
    | Published(at: int, message: MavlinkMessage)

  /** The fields of a mapping, and everything it did so far. */
  datatype State = State(scan: Scan, lastSampleSent: int, lastOutput: int, lastConnectAttempt: int, tcp: int,
                         connecting: bool, outputs: nat, invalid: nat, log: seq<Event>)

  const INITIAL := State(Scan(None, Number(0.0), Number(0.0), 0), 0, 0, 0, -1, false, 0, 0, [])

  // The state with one more event in its log.
  function Did(s: State, e: Event): State {
    s.(log := s.log + [e])
  }

  predicate SampleUsable(scan: Scan, now: int) {
    scan.metres.Some? && now - scan.at <= STALE_AFTER && scan.metres.value.Number? && scan.metres.value.value >= 0.0
  }

  /** The reading of a scan: the one non-negative finite range of a scan at most 250 ms old. */
  function Sample(scan: Scan, now: int): (sample: Option<real>)
    ensures sample.Some? ==> sample.value >= 0.0
  {
    if SampleUsable(scan, now) then Some(scan.metres.value.value) else None
  }

  function AsDouble(sample: Option<real>): Option<Double> {
    if sample.Some? then Some(Number(sample.value)) else None
  }

  // The range in which the conversion of a reading to sixteen bits is defined.
  predicate TfminiDefined(scan: Scan, now: int) {
    Sample(scan, now).Some? ==> FitsCentimetres(Sample(scan, now).value)
  }

  // ---- The TFmini connection, as functions of the state ----

  predicate AttemptDue(s: State, now: int) {
    s.tcp < 0 && now - s.lastConnectAttempt >= CONNECT_PERIOD
  }

  function AfterConnect(s: State, now: int, net: Net): State {
    if !AttemptDue(s, now) then s
    else
      var tried := Did(s.(lastConnectAttempt := now), Attempt(now));
      if net.socket < 0 then tried.(tcp := net.socket)
      else
        var linked := Did(tried.(tcp := net.socket), Opened(net.socket));
        if net.addressParsed && net.connectResult == 0 then linked
        else if net.addressParsed && net.connectErrno == EINPROGRESS then linked.(connecting := true)
        else Dropped(linked)
  }

  // The descriptor closed and forgotten.
  function Dropped(s: State): State {
    Did(s, Closed(s.tcp)).(tcp := -1)
  }

  // What a poll of a pending connection finds: it is up, still in progress, or it failed.
  datatype Poll = Up | Pending | Down

  function PollOf(net: Net): Poll {
    if net.getsockoptResult >= 0 && net.soError == 0 then Up
    else if net.soError == EINPROGRESS then Pending
    else Down
  }

  function AfterPoll(s: State, net: Net): State {
    if !s.connecting then s
    else match PollOf(net)
      case Up => s.(connecting := false)
      case Pending => s
      case Down => Dropped(s).(connecting := false)
  }

  lemma OutOfRange(sample: Option<real>)
    requires sample.Some? ==> sample.value >= 0.0 && FitsCentimetres(sample.value)
    ensures TfminiDistance(AsDouble(sample)) == OUT_OF_RANGE_CM
       <==> sample.None? || Centimetres(sample.value) > MAX_TFMINI_CM
  {
  }

  lemma ConnectKeepsScan(s: State, now: int, net: Net)
    ensures AfterPoll(AfterConnect(s, now, net), net).scan == s.scan
    ensures AfterPoll(AfterConnect(s, now, net), net).lastOutput == s.lastOutput
  {
  }

  predicate LinkUp(s: State) {
    s.tcp >= 0 && !s.connecting
  }

  // The nine bytes of a frame with a given distance.
  function TfminiFrame(cm: nat): (frame: Bytes)
    requires cm <= OUT_OF_RANGE_CM
  {
    var head: Bytes := [0x59, 0x59, cm % 256, cm / 256, 0x64, 0x00, 0x01, 0x00];
    head + [Sum(head) % 256]
  }

  lemma FrameIs(frame: Bytes, cm: nat)
    requires cm <= OUT_OF_RANGE_CM && |frame| == 9 && DecodeTfmini(frame) == Some(cm)
    requires frame[4..8] == [0x64, 0x00, 0x01, 0x00]
    ensures frame == TfminiFrame(cm)
  {
    hide Sum;
    var g := TfminiFrame(cm);
    assert g[..8] == [0x59, 0x59, cm % 256, cm / 256, 0x64, 0x00, 0x01, 0x00];
    TfminiFrameUnique(frame, g);
  }

  function AfterSend(s: State, now: int, net: Net): State
    requires TfminiDefined(s.scan, now)
  {
    var cm := TfminiDistance(AsDouble(Sample(s.scan, now)));
    var whole := net.sent == 9;
    var t := Did(s.(lastOutput := now), Sent(now, s.tcp, TfminiFrame(cm), whole));
    if whole then t.(outputs := s.outputs + 1, invalid := s.invalid + if cm == OUT_OF_RANGE_CM then 1 else 0)
    else Dropped(t).(connecting := false)
  }

  function AfterTfmini(s: State, now: int, net: Net): State
    requires TfminiDefined(s.scan, now)
  {
    var polled := AfterPoll(AfterConnect(s, now, net), net);
    ConnectKeepsScan(s, now, net);
    if LinkUp(polled) && now - s.lastOutput >= OUTPUT_PERIOD then AfterSend(polled, now, net) else polled
  }

  // ---- The MAVLink output ----

  predicate Withheld(c: Config, scan: Scan, now: int) {
    && c.mavlinkMessage == "distance_sensor"
    && (Sample(scan, now).None? || Above(Sample(scan, now).value, scan.maximum))
  }

  function Message(c: Config, scan: Scan, start: int, now: int): (m: MavlinkMessage)
    requires start <= now && !Withheld(c, scan, now) && LimitsFit(scan.minimum, scan.maximum)
  {
    if c.mavlinkMessage == "distance_sensor"
    then DistanceMessage((now - start) / 1_000_000 % 0x1_0000_0000, Sample(scan, now).value,
                         scan.minimum, scan.maximum, c.sensorId)
    else ObstacleMessage((now - start) / 1000, Sample(scan, now), scan.minimum, scan.maximum)
  }

  predicate MavlinkDefined(c: Config, scan: Scan, start: int, now: int) {
    start <= now && (!Withheld(c, scan, now) ==> LimitsFit(scan.minimum, scan.maximum))
  }

  function AfterMavlink(c: Config, s: State, start: int, now: int): State
    requires MavlinkDefined(c, s.scan, start, now)
  {
    if Withheld(c, s.scan, now) then s.(invalid := s.invalid + 1)
    else Did(s.(lastOutput := now, outputs := s.outputs + 1,
                invalid := s.invalid + if Sample(s.scan, now).None? then 1 else 0),
             Published(now, Message(c, s.scan, start, now)))
  }

  predicate MavlinkDue(c: Config, s: State, now: int) {
    || s.scan.at > s.lastSampleSent
    || (c.mavlinkMessage == "obstacle_distance" && now - s.lastOutput >= OBSTACLE_PERIOD)
  }

  // A MAVLink mapping's turn in the manager's update.
  function AfterTurn(c: Config, s: State, start: int, now: int): State
    requires MavlinkDue(c, s, now) ==> MavlinkDefined(c, s.scan, start, now)
  {
    var t := if s.scan.at > s.lastSampleSent then s.(lastSampleSent := s.scan.at) else s;
    if MavlinkDue(c, s, now) then AfterMavlink(c, t, start, now) else t
  }

  /** The source's mapping object. */
  class Mapping {
    const config: Config
    var metres: Option<Double>
    var minMetres: Double
    var maxMetres: Double
    var sampleTime: int
    var lastSampleSent: int
    var lastOutput: int
    var lastConnectAttempt: int
    var tcp: int
    var connecting: bool
    var outputs: nat
    var invalid: nat
    ghost var log: seq<Event>

    ghost function Value(): State
      reads this
    {
      State(Scan(metres, minMetres, maxMetres, sampleTime), lastSampleSent, lastOutput, lastConnectAttempt, tcp,
            connecting, outputs, invalid, log)
    }

    constructor (c: Config)
      ensures config == c && Value() == INITIAL
    {
      config := c;
      metres, minMetres, maxMetres, sampleTime := None, Number(0.0), Number(0.0), 0;
      lastSampleSent, lastOutput, lastConnectAttempt := 0, 0, 0;
      tcp, connecting, outputs, invalid, log := -1, false, 0, 0, [];
    }

    // The subscription's callback.
    method OnScan(ranges: seq<Double>, rangeMin: Double, rangeMax: Double, now: int)
      modifies `metres, `minMetres, `maxMetres, `sampleTime
      ensures Value().scan == Scan(if |ranges| == 1 then Some(ranges[0]) else None, rangeMin, rangeMax, now)
    {
      sampleTime := now;
      minMetres := rangeMin;
      maxMetres := rangeMax;
      metres := if |ranges| == 1 then Some(ranges[0]) else None;
    }

    method Connect(now: int, net: Net)
      modifies `tcp, `connecting, `lastConnectAttempt, `log
      ensures Value() == AfterConnect(old(Value()), now, net)
      ensures old(connecting ==> tcp >= 0) ==> connecting ==> tcp >= 0
    {
      if tcp >= 0 || now - lastConnectAttempt < CONNECT_PERIOD {
        return;
      }
      lastConnectAttempt := now;
      log := log + [Attempt(now)];
      tcp := net.socket;
      if tcp < 0 {
        return;
      }
      log := log + [Opened(tcp)];
      if !net.addressParsed {
        log := log + [Closed(tcp)];
        tcp := -1;
      } else if net.connectResult == 0 {
      } else if net.connectErrno == EINPROGRESS {
        connecting := true;
      } else {
        log := log + [Closed(tcp)];
        tcp := -1;
      }
    }

    method Connected(net: Net) returns (up: bool)
      requires connecting ==> tcp >= 0
      modifies `tcp, `connecting, `log
      ensures Value() == AfterPoll(old(Value()), net)
      ensures up <==> LinkUp(Value())
    {
      if !connecting {
        return tcp >= 0;
      }
      if net.getsockoptResult < 0 || net.soError != 0 {
        if net.soError == EINPROGRESS {
          return false;
        }
        log := log + [Closed(tcp)];
        tcp := -1;
        connecting := false;
        return false;
      }
      connecting := false;
      return true;
    }

    method CurrentSample(now: int) returns (sample: Option<real>, minimum: Double, maximum: Double)
      ensures sample == Sample(Value().scan, now) && minimum == minMetres && maximum == maxMetres
    {
      minimum, maximum := minMetres, maxMetres;
      if metres.None? || now - sampleTime > STALE_AFTER || !metres.value.Number? || metres.value.value < 0.0 {
        return None, minimum, maximum;
      }
      sample := Some(metres.value.value);
    }

    // The second half of an update: one frame on a link that is up.
    method SendFrame(now: int, net: Net)
      requires TfminiDefined(Value().scan, now)
      modifies `tcp, `connecting, `lastOutput, `outputs, `invalid, `log
      ensures Value() == AfterSend(old(Value()), now, net)
    {
      hide Sample, TfminiDistance, TfminiFrame, DecodeTfmini, FitsCentimetres;
      var sample, _, _ := CurrentSample(now);
      var frame := EncodeTfmini(AsDouble(sample));
      FrameIs(frame, TfminiDistance(AsDouble(sample)));
      OutOfRange(sample);
      lastOutput := now;
      log := log + [Sent(now, tcp, frame, net.sent == |frame|)];
      if net.sent != |frame| {
        log := log + [Closed(tcp)];
        tcp := -1;
        connecting := false;
        return;
      }
      outputs := outputs + 1;
      if sample.None? || Centimetres(sample.value) > MAX_TFMINI_CM {
        invalid := invalid + 1;
      }
    }

    method UpdateTfmini(now: int, net: Net)
      requires TfminiDefined(Value().scan, now)
      requires connecting ==> tcp >= 0
      modifies `tcp, `connecting, `lastConnectAttempt, `lastOutput, `outputs, `invalid, `log
      ensures Value() == AfterTfmini(old(Value()), now, net)
    {
      hide AfterConnect, AfterPoll, AfterSend, Sample, FitsCentimetres;
      Connect(now, net);
      var up := Connected(net);
      if !up || now - lastOutput < OUTPUT_PERIOD {
        return;
      }
      SendFrame(now, net);
    }

    method UpdateMavlink(start: int, now: int)
      requires MavlinkDefined(config, Value().scan, start, now)
      modifies `lastOutput, `outputs, `invalid, `log
      ensures Value() == AfterMavlink(config, old(Value()), start, now)
    {
      var sample, minimum, maximum := CurrentSample(now);
      if config.mavlinkMessage == "distance_sensor" && (sample.None? || Above(sample.value, maximum)) {
        invalid := invalid + 1;
        return;
      }
      var message;
      if config.mavlinkMessage == "distance_sensor" {
        message := DistanceMessage((now - start) / 1_000_000 % 0x1_0000_0000, sample.value, minimum, maximum,
                                   config.sensorId);
      } else {
        if sample.None? {
          invalid := invalid + 1;
        }
        message := ObstacleMessage((now - start) / 1000, sample, minimum, maximum);
      }
      log := log + [Published(now, message)];
      lastOutput := now;
      outputs := outputs + 1;
    }

    // A mapping's turn in the manager's loop over the MAVLink outputs.
    method TakeTurn(start: int, now: int)
      requires MavlinkDue(config, Value(), now) ==> MavlinkDefined(config, Value().scan, start, now)
      modifies `lastSampleSent, `lastOutput, `outputs, `invalid, `log
      ensures Value() == AfterTurn(config, old(Value()), start, now)
    {
      var newer := sampleTime > lastSampleSent;
      if newer {
        lastSampleSent := sampleTime;
      }
      if !newer && (config.mavlinkMessage != "obstacle_distance" || now - lastOutput < OBSTACLE_PERIOD) {
        return;
      }
      UpdateMavlink(start, now);
    }
  }

  // ---- The manager ----

  predicate TurnDefined(c: Config, s: State, start: int, now: int, later: int) {
    && (c.output == "tfmini" ==> TfminiDefined(s.scan, now))
    && (c.output == "mavlink" && MavlinkDue(c, s, later) ==> MavlinkDefined(c, s.scan, start, later))
  }

  // What one update of the manager does to one mapping.
  function AfterUpdate(c: Config, s: State, start: int, now: int, later: int, net: Net): State
    requires TurnDefined(c, s, start, now, later)
  {
    if c.output == "tfmini" then AfterTfmini(s, now, net)
    else if c.output == "mavlink" then AfterTurn(c, s, start, later)
    else s
  }

  /** One update of all mappings: what happens to a mapping depends on nothing but its own state and its own
      connection. */
  method Update(mappings: seq<Mapping>, start: int, now: int, later: int, nets: seq<Net>)
    requires |nets| == |mappings|
    requires forall i, j :: 0 <= i < j < |mappings| ==> mappings[i] != mappings[j]
    requires forall i :: 0 <= i < |mappings| ==> TurnDefined(mappings[i].config, mappings[i].Value(), start, now, later)
    requires forall i :: 0 <= i < |mappings| && mappings[i].connecting ==> mappings[i].tcp >= 0
    modifies mappings
    ensures forall i :: 0 <= i < |mappings| ==>
      mappings[i].Value() == AfterUpdate(mappings[i].config, old(mappings[i].Value()), start, now, later, nets[i])
  {
    hide AfterTfmini, AfterMavlink, MavlinkDue, MavlinkDefined, TfminiDefined;
    for i := 0 to |mappings|
      invariant forall k :: i <= k < |mappings| ==> mappings[k].Value() == old(mappings[k].Value())
      invariant forall k :: 0 <= k < i ==>
        mappings[k].Value() == if mappings[k].config.output == "tfmini"
                               then AfterTfmini(old(mappings[k].Value()), now, nets[k]) else old(mappings[k].Value())
    {
      if mappings[i].config.output == "tfmini" {
        mappings[i].UpdateTfmini(now, nets[i]);
      }
    }
    for i := 0 to |mappings|
      invariant forall k :: 0 <= k < |mappings| && (i <= k || mappings[k].config.output != "mavlink") ==>
        mappings[k].Value() == if mappings[k].config.output == "tfmini"
                               then AfterTfmini(old(mappings[k].Value()), now, nets[k]) else old(mappings[k].Value())
      invariant forall k :: 0 <= k < i && mappings[k].config.output == "mavlink" ==>
        mappings[k].Value() == AfterTurn(mappings[k].config, old(mappings[k].Value()), start, later)
    {
      if mappings[i].config.output == "mavlink" {
        mappings[i].TakeTurn(start, later);
      }
    }
  }
}
