/** What the rangefinder outputs put on the wire, and what their readers make of it. */
module RangeEncoding {
  import opened Bits
  import opened Wrappers

  const MAX_TFMINI_CM := 1200
  const OUT_OF_RANGE_CM := 1201
  const UINT16_MAX := 65535

  // The metres a conversion to sixteen-bit centimetres is defined for.
  predicate FitsCentimetres(metres: real) {
    0.0 <= metres * 100.0 < 65536.0
  }

  /** Metres to centimetres, towards zero. */
  function Centimetres(metres: real): (cm: nat)
    requires FitsCentimetres(metres)
    ensures cm <= UINT16_MAX
    ensures cm as real <= metres * 100.0 < cm as real + 1.0
  {
    (metres * 100.0).Floor
  }

  lemma CentimetresMonotone(a: real, b: real)
    requires FitsCentimetres(a) && FitsCentimetres(b) && a <= b
    ensures Centimetres(a) <= Centimetres(b)
  {
  }

  // ---- TFmini ----

  function Sum(bytes: Bytes): nat {
    if bytes == [] then 0 else Sum(bytes[..|bytes| - 1]) + bytes[|bytes| - 1] as int
  }

  lemma SumEmpty(bytes: Bytes)
    ensures Sum(bytes[..0]) == 0
  {
  }

  lemma SumStep(bytes: Bytes, i: nat)
    requires i < |bytes|
    ensures Sum(bytes[..i + 1]) == Sum(bytes[..i]) + bytes[i] as int
  {
    assert bytes[..i + 1][..i] == bytes[..i];
  }

  // The reading of a sample, or the driver's out-of-range value.
  function TfminiDistance(metres: Option<Double>): (cm: nat)
    requires metres.Some? && metres.value.Number? && metres.value.value >= 0.0 ==> FitsCentimetres(metres.value.value)
    ensures cm <= OUT_OF_RANGE_CM
  {
    if metres.Some? && metres.value.Number? && metres.value.value >= 0.0
       && Centimetres(metres.value.value) <= MAX_TFMINI_CM
    then Centimetres(metres.value.value)
    else OUT_OF_RANGE_CM
  }

  lemma DistanceMeaning(metres: Option<Double>)
    requires metres.Some? && metres.value.Number? && metres.value.value >= 0.0 ==> FitsCentimetres(metres.value.value)
    ensures TfminiDistance(metres)
         == if metres.Some? && metres.value.Number? && metres.value.value >= 0.0
               && (metres.value.value * 100.0).Floor <= 1200
            then (metres.value.value * 100.0).Floor else 1201
  {
  }

  // What a TFmini driver accepts: the two sync bytes and the sum of the first eight bytes modulo 256.
  function DecodeTfmini(frame: Bytes): Option<nat> {
    if |frame| == 9 && frame[0] == 0x59 && frame[1] == 0x59 && frame[8] as int == Sum(frame[..8]) % 256
    then Some(frame[2] as int + 256 * frame[3] as int)
    else None
  }

  /** A driver reads back exactly the distance: the whole centimetres of a non-negative sample of at most 12 m,
      and 1201 in every other case. */
  method EncodeTfmini(metres: Option<Double>) returns (frame: Bytes)
    requires metres.Some? && metres.value.Number? && metres.value.value >= 0.0 ==> FitsCentimetres(metres.value.value)
    ensures |frame| == 9 && frame[4..8] == [0x64, 0x00, 0x01, 0x00]
    ensures DecodeTfmini(frame) == Some(TfminiDistance(metres))
    ensures frame[2] as int + 256 * frame[3] as int
         == (if metres.Some? && metres.value.Number? && metres.value.value >= 0.0
                && (metres.value.value * 100.0).Floor <= 1200
             then (metres.value.value * 100.0).Floor else 1201)
  {
    hide Sum, TfminiDistance;
    DistanceMeaning(metres);
    var cm := TfminiDistance(metres);
    var a := new Byte[] [0x59, 0x59, cm % 256, cm / 256, 0x64, 0x00, 0x01, 0x00, 0x00];
    ghost var head: Bytes := [0x59, 0x59, cm % 256, cm / 256, 0x64, 0x00, 0x01, 0x00];
    SumEmpty(head);
    for i := 0 to 8
      invariant a[..8] == head
      invariant a[8] as int == Sum(head[..i]) % 256
    {
      SumStep(head, i);
      a[8] := (a[8] as int + a[i] as int) % 256;
    }
    frame := a[..];
    assert frame[..8] == head == head[..8];
  }

  // Two frames that a driver accepts, with the same distance and the same fixed bytes, are the same frame.
  lemma TfminiFrameUnique(f: Bytes, g: Bytes)
    requires DecodeTfmini(f).Some? && DecodeTfmini(f) == DecodeTfmini(g) && f[4..8] == g[4..8]
    ensures f == g
  {
    assert f[2] == g[2] && f[3] == g[3];
    assert forall k :: 4 <= k < 8 ==> f[k] == f[4..8][k - 4] && g[k] == g[4..8][k - 4];
    assert f[..8] == g[..8];
  }

  // ---- MAVLink ----

  // A reading against the scan's maximum, as doubles compare.
  predicate Above(metres: real, maximum: Double) {
    match maximum
    case Number(m) => metres > m
    case NegativeInfinity => true
    case _ => false
  }

  // The scan limits whose conversion is defined.
  predicate LimitsFit(minimum: Double, maximum: Double) {
    && !maximum.NaN? && !minimum.PositiveInfinity?
    && (minimum.Number? ==> minimum.value * 100.0 < 65536.0)
  }

  function Clamp(metres: real): (r: real)
    ensures FitsCentimetres(r)
  {
    if metres < 0.0 then 0.0 else if metres > 655.35 then 655.35 else metres
  }

  function MinCm(minimum: Double): nat
    requires !minimum.PositiveInfinity? && (minimum.Number? ==> minimum.value * 100.0 < 65536.0)
  {
    if minimum.Number? && minimum.value > 0.0 then Centimetres(minimum.value) else 0
  }

  function MaxCm(maximum: Double): nat
    requires !maximum.NaN?
  {
    match maximum
    case Number(m) => Centimetres(Clamp(m))
    case PositiveInfinity => Centimetres(655.35)
    case _ => 0
  }

  // A reading not above the maximum has no more centimetres.
  lemma ReadingWithinMaximum(metres: real, maximum: Double)
    requires !Above(metres, maximum) && !maximum.NaN?
    ensures Centimetres(Clamp(metres)) <= MaxCm(maximum)
  {
    match maximum
    case Number(m) => CentimetresMonotone(Clamp(metres), Clamp(m));
    case _ => CentimetresMonotone(Clamp(metres), 655.35);
  }

  datatype Reading = Unknown | NoReturn | Distance(cm: nat)

  // What a fresh sample, or none, means against the scan's maximum.
  function Meaning(sample: Option<real>, maximum: Double): Reading {
    if sample.None? then Unknown
    else if Above(sample.value, maximum) then NoReturn
    else Distance(Centimetres(Clamp(sample.value)))
  }

  // The forward bin of an OBSTACLE_DISTANCE message.
  function ObstacleBin(sample: Option<real>, maximum: Double): nat
    requires !maximum.NaN?
  {
    if sample.None? then UINT16_MAX
    else if Above(sample.value, maximum) then (MaxCm(maximum) + 1) % 65536
    else Centimetres(Clamp(sample.value))
  }

  datatype MavlinkMessage =
    | DistanceSensor(timeBootMs: nat, minimum: nat, maximum: nat, current: nat, sensorType: nat, id: nat,
                     orientation: nat, covariance: nat)
    | ObstacleDistance(timeUsec: nat, sensorType: nat, distances: seq<nat>, increment: nat, minimum: nat,
                       maximum: nat, incrementF: real, angleOffset: real, frame: nat)

  datatype CheckError = UnexpectedFields | OutsideLimits | NotForward | PopulatedBins

  const MAV_FRAME_BODY_FRD := 12

  /** What the telemetry checker makes of a range message. */
  function DescribeRange(m: MavlinkMessage, sensorId: nat): Result<Reading, CheckError>
    requires m.ObstacleDistance? ==> |m.distances| == 72
  {
    match m
    case DistanceSensor(_, minimum, maximum, current, sensorType, id, orientation, covariance) =>
      if sensorType != 0 || id != sensorId || orientation != 0 || covariance != 255 then Err(UnexpectedFields)
      else if !(minimum <= current <= maximum) then Err(OutsideLimits)
      else Ok(Distance(current))
    case ObstacleDistance(_, sensorType, distances, increment, _, maximum, incrementF, angleOffset, frame) =>
      if sensorType != 0 || increment != 0 || incrementF != 0.0 then Err(UnexpectedFields)
      else if angleOffset != 0.0 || frame != MAV_FRAME_BODY_FRD then Err(NotForward)
      else if exists k :: 1 <= k < 72 && distances[k] != UINT16_MAX then Err(PopulatedBins)
      else if distances[0] == UINT16_MAX then Ok(Unknown)
      else if distances[0] == maximum + 1 then Ok(NoReturn)
      else Ok(Distance(distances[0]))
  }

  function ObstacleMessage(timeUsec: nat, sample: Option<real>, minimum: Double, maximum: Double): (m: MavlinkMessage)
    requires LimitsFit(minimum, maximum)
    ensures m.ObstacleDistance? && |m.distances| == 72
  {
    var distances := seq(72, k => if k == 0 then ObstacleBin(sample, maximum) else UINT16_MAX);
    ObstacleDistance(timeUsec, 0, distances, 0, MinCm(minimum), MaxCm(maximum), 0.0, 0.0, MAV_FRAME_BODY_FRD)
  }

  function DistanceMessage(timeBootMs: nat, sample: real, minimum: Double, maximum: Double, id: nat): MavlinkMessage
    requires LimitsFit(minimum, maximum)
  {
    DistanceSensor(timeBootMs, MinCm(minimum), MaxCm(maximum), Centimetres(Clamp(sample)), 0, id, 0, 255)
  }

  lemma DescribeObstacle(timeUsec: nat, sample: Option<real>, minimum: Double, maximum: Double, sensorId: nat)
    requires LimitsFit(minimum, maximum)
    ensures var bin := ObstacleBin(sample, maximum);
            DescribeRange(ObstacleMessage(timeUsec, sample, minimum, maximum), sensorId)
            == Ok(if bin == UINT16_MAX then Unknown else if bin == MaxCm(maximum) + 1 then NoReturn else Distance(bin))
  {
  }

  /** Below the last two values the checker recovers every sample's meaning. */
  lemma ObstacleRoundTrip(timeUsec: nat, sample: Option<real>, minimum: Double, maximum: Double, sensorId: nat)
    requires LimitsFit(minimum, maximum) && MaxCm(maximum) < 65534
    ensures DescribeRange(ObstacleMessage(timeUsec, sample, minimum, maximum), sensorId)
         == Ok(Meaning(sample, maximum))
  {
    hide Centimetres, Clamp, MaxCm, DescribeRange, ObstacleMessage;
    DescribeObstacle(timeUsec, sample, minimum, maximum, sensorId);
    if sample.Some? && !Above(sample.value, maximum) {
      ReadingWithinMaximum(sample.value, maximum);
    }
  }

  // A sample whose meaning is lost when the encoded maximum is 65534 or 65535.
  function LostSample(maximum: Double): real {
    if maximum.Number? && maximum.value < 655.35 then maximum.value + 1.0 else 655.35
  }

  lemma LostSampleIsUnknown(timeUsec: nat, minimum: Double, maximum: Double, sensorId: nat)
    requires LimitsFit(minimum, maximum) && MaxCm(maximum) >= 65534
    ensures var sample := Some(LostSample(maximum));
            && DescribeRange(ObstacleMessage(timeUsec, sample, minimum, maximum), sensorId) == Ok(Unknown)
            && Meaning(sample, maximum) != Unknown
  {
    hide DescribeRange, ObstacleMessage;
    DescribeObstacle(timeUsec, Some(LostSample(maximum)), minimum, maximum, sensorId);
    if maximum.Number? && maximum.value < 655.35 {
      assert Above(LostSample(maximum), maximum);
      assert MaxCm(maximum) == 65534;
    } else {
      assert Clamp(655.35) == 655.35;
    }
  }

  /** The encoding keeps all meanings apart exactly when the encoded maximum is below 65534: above that a
      reading or a no-return is taken for an unknown one. */
  lemma ObstacleEncodingExact(minimum: Double, maximum: Double)
    requires LimitsFit(minimum, maximum)
    ensures (forall timeUsec: nat, sample: Option<real>, sensorId: nat ::
               DescribeRange(ObstacleMessage(timeUsec, sample, minimum, maximum), sensorId)
               == Ok(Meaning(sample, maximum)))
            <==> MaxCm(maximum) < 65534
  {
    hide DescribeRange, ObstacleMessage, Meaning, MaxCm;
    if MaxCm(maximum) < 65534 {
      forall timeUsec: nat, sample: Option<real>, sensorId: nat
        ensures DescribeRange(ObstacleMessage(timeUsec, sample, minimum, maximum), sensorId)
             == Ok(Meaning(sample, maximum))
      {
        ObstacleRoundTrip(timeUsec, sample, minimum, maximum, sensorId);
      }
    } else {
      LostSampleIsUnknown(0, minimum, maximum, 0);
    }
  }

  /** A reading that is not above the scan's maximum goes out at most the published maximum, and the checker
      accepts it exactly when it is at least the published minimum. */
  lemma DistanceSensorAccepted(timeBootMs: nat, sample: real, minimum: Double, maximum: Double, id: nat)
    requires LimitsFit(minimum, maximum) && !Above(sample, maximum)
    ensures var m := DistanceMessage(timeBootMs, sample, minimum, maximum, id);
            && m.current <= m.maximum
            && DescribeRange(m, id)
               == (if MinCm(minimum) <= Centimetres(Clamp(sample)) then Ok(Meaning(Some(sample), maximum))
                   else Err(OutsideLimits))
  {
    ReadingWithinMaximum(sample, maximum);
  }
}
