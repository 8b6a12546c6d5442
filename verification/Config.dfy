/** The configuration check. */
module Config {
  import opened Wrappers
  import Motors

  datatype RangefinderConfig = RangefinderConfig(enabled: bool, name: string, gazeboTopic: string, output: string,
                                                 sitlAddress: string, sitlPort: nat, mavlinkMessage: string,
                                                 orientation: string, sensorId: Option<nat>)

  // What the check reads of the configuration.
  datatype BridgeConfig = BridgeConfig(mavlinkAddress: string,
                                       imuTopic: string, altimeterTopic: string, actuatorTopic: string,
                                       navsatTopic: Option<string>,
                                       odometryEnabled: bool, odometryTopic: string,
                                       rateHz: Double, frameMode: string, seaLevelPressurePa: Double,
                                       pressureMode: string, altitudeSource: string,
                                       timeoutSeconds: Double, minVelocity: Double, maxVelocity: Double,
                                       motorMap: seq<int>, rangefinders: seq<RangefinderConfig>)

  // The map is an array of four.
  predicate Shaped(c: BridgeConfig) {
    |c.motorMap| == 4
  }

  // ---- Decimal numerals ----

  const ZERO := Number(0.0)

  function Digit(d: nat): (r: char)
    requires d < 10
    ensures r != ':'
  {
    '0' + d as char
  }

  /** A number in decimal, as std::to_string prints it. */
  function Decimal(n: nat): (s: string)
    ensures s != []
    ensures forall k :: 0 <= k < |s| ==> s[k] != ':'
  {
    if n < 10 then [Digit(n)] else Decimal(n / 10) + [Digit(n % 10)]
  }

  lemma DigitInjective(a: nat, b: nat)
    requires a < 10 && b < 10 && Digit(a) == Digit(b)
    ensures a == b
  {
  }

  lemma DecimalParts(n: nat)
    ensures Decimal(n)[|Decimal(n)| - 1] == Digit(n % 10)
    ensures n >= 10 ==> Decimal(n)[..|Decimal(n)| - 1] == Decimal(n / 10)
    ensures |Decimal(n)| == 1 <==> n < 10
  {
  }

  lemma {:induction false} DecimalInjective(a: nat, b: nat)
    requires Decimal(a) == Decimal(b)
    ensures a == b
  {
    hide Decimal, Digit;
    DecimalParts(a);
    DecimalParts(b);
    DigitInjective(a % 10, b % 10);
    if a >= 10 {
      DecimalInjective(a / 10, b / 10);
    }
  }

  // The string the check compares endpoints by.
  function Endpoint(address: string, port: nat): string {
    address + ":" + Decimal(port)
  }

  lemma LastColon(address: string, port: nat)
    ensures var e := Endpoint(address, port);
            e[|address|] == ':' && forall k :: |address| < k < |e| ==> e[k] != ':'
  {
    hide Decimal;
    var e := Endpoint(address, port);
    forall k | |address| < k < |e| ensures e[k] != ':' {
      assert e[k] == Decimal(port)[k - |address| - 1];
    }
  }

  /** Comparing address ":" port strings is comparing the pairs, whatever the addresses contain. */
  lemma EndpointInjective(a: string, p: nat, b: string, q: nat)
    ensures Endpoint(a, p) == Endpoint(b, q) <==> a == b && p == q
  {
    hide Decimal;
    if Endpoint(a, p) == Endpoint(b, q) {
      LastColon(a, p);
      LastColon(b, q);
      assert |a| == |b|;
      var e := Endpoint(a, p);
      assert e[..|a|] == a && Endpoint(b, q)[..|b|] == b;
      assert e[|a| + 1..] == Decimal(p) && Endpoint(b, q)[|b| + 1..] == Decimal(q);
      DecimalInjective(p, q);
    }
  }

  // ---- The rules ----

  datatype Rule = MavlinkAddress | TopicsNotEmpty | NavsatNotEmpty | OdometryTopicNotEmpty | RatePositive | FrameMode
                | SeaLevelPressurePositive | PressureMode | AltitudeSource | GpsNeedsNavsat | TimeoutPositive
                | VelocityRange | MapInRange | MapWithoutDuplicates | NamesUnique | TopicsUnique | TfminiComplete
                | EndpointsUnique | Forward | SensorIdsUnique | OneObstacleDistance | KnownMessage | KnownOutput

  predicate Tfmini(r: RangefinderConfig) {
    r.output == "tfmini"
  }

  predicate Mavlink(r: RangefinderConfig) {
    r.output == "mavlink"
  }

  predicate DistanceSensor(r: RangefinderConfig) {
    Mavlink(r) && r.mavlinkMessage == "distance_sensor"
  }

  predicate Obstacle(r: RangefinderConfig) {
    Mavlink(r) && r.mavlinkMessage == "obstacle_distance"
  }

  /** What a rule asks of one mapping by itself. */
  predicate Alone(rule: Rule, r: RangefinderConfig) {
    match rule
    case NamesUnique => r.name != ""
    case TopicsUnique => r.gazeboTopic != ""
    case TfminiComplete => Tfmini(r) ==> r.sitlAddress != "" && r.sitlPort != 0
    case Forward => Mavlink(r) ==> r.orientation == "forward"
    case SensorIdsUnique => DistanceSensor(r) ==> r.sensorId.Some?
    case KnownMessage => Mavlink(r) ==> DistanceSensor(r) || Obstacle(r)
    case KnownOutput => Tfmini(r) || Mavlink(r)
    case _ => true
  }

  /** What a rule asks of two different mappings, enabled or not. */
  predicate Together(rule: Rule, r: RangefinderConfig, s: RangefinderConfig) {
    match rule
    case NamesUnique => r.name != s.name
    case TopicsUnique => r.gazeboTopic != s.gazeboTopic
    case EndpointsUnique =>
      Tfmini(r) && Tfmini(s) ==> r.sitlAddress != s.sitlAddress || r.sitlPort != s.sitlPort
    case SensorIdsUnique => DistanceSensor(r) && DistanceSensor(s) ==> r.sensorId != s.sensorId
    case OneObstacleDistance => !(Obstacle(r) && Obstacle(s))
    case _ => true
  }

  // The rules about the list of rangefinders.
  predicate OfMappings(rule: Rule) {
    rule.NamesUnique? || rule.TopicsUnique? || rule.TfminiComplete? || rule.EndpointsUnique? || rule.Forward?
    || rule.SensorIdsUnique? || rule.OneObstacleDistance? || rule.KnownMessage? || rule.KnownOutput?
  }

  ghost predicate Mappings(rule: Rule, rs: seq<RangefinderConfig>) {
    && (forall i :: 0 <= i < |rs| ==> Alone(rule, rs[i]))
    && (forall i, j :: 0 <= i < j < |rs| ==> Together(rule, rs[i], rs[j]))
  }

  /** Whether a configuration keeps a rule. */
  ghost predicate Keeps(ipv4: string -> bool, c: BridgeConfig, rule: Rule)
    requires Shaped(c)
  {
    match rule
    case MavlinkAddress => ipv4(c.mavlinkAddress)
    case TopicsNotEmpty => c.imuTopic != "" && c.altimeterTopic != "" && c.actuatorTopic != ""
    case NavsatNotEmpty => c.navsatTopic != Some("")
    case OdometryTopicNotEmpty => c.odometryEnabled ==> c.odometryTopic != ""
    case RatePositive => !AtMost(c.rateHz, ZERO)
    case FrameMode => c.frameMode == "gazebo_bridge" || c.frameMode == "passthrough"
    case SeaLevelPressurePositive => !AtMost(c.seaLevelPressurePa, ZERO)
    case PressureMode => c.pressureMode == "from_altitude" || c.pressureMode == "zero"
    case AltitudeSource => c.altitudeSource == "altimeter" || c.altitudeSource == "gps"
    case GpsNeedsNavsat => c.altitudeSource == "gps" ==> c.navsatTopic.Some?
    case TimeoutPositive => !AtMost(c.timeoutSeconds, ZERO)
    case VelocityRange => !Less(c.minVelocity, ZERO) && !AtMost(c.maxVelocity, c.minVelocity)
    case MapInRange => forall i :: 0 <= i < 4 ==> 0 <= c.motorMap[i] <= 3
    case MapWithoutDuplicates => forall i, j :: 0 <= i < j < 4 ==> c.motorMap[i] != c.motorMap[j]
    case _ => Mappings(rule, c.rangefinders)
  }

  ghost predicate WellFormed(ipv4: string -> bool, c: BridgeConfig)
    requires Shaped(c)
  {
    forall rule: Rule :: Keeps(ipv4, c, rule)
  }

  // ---- The check ----

  // The scalar part, in the order of the source.
  method ValidateScalars(ipv4: string -> bool, c: BridgeConfig) returns (broken: Option<Rule>)
    requires Shaped(c)
    ensures broken.Some? ==> !Keeps(ipv4, c, broken.value)
    ensures broken.None? ==> forall rule: Rule ::
      Keeps(ipv4, c, rule) || OfMappings(rule) || rule.MapInRange? || rule.MapWithoutDuplicates?
  {
    if !ipv4(c.mavlinkAddress) { return Some(MavlinkAddress); }
    if c.imuTopic == "" || c.altimeterTopic == "" || c.actuatorTopic == "" { return Some(TopicsNotEmpty); }
    if c.navsatTopic.Some? && c.navsatTopic.value == "" { return Some(NavsatNotEmpty); }
    if c.odometryEnabled && c.odometryTopic == "" { return Some(OdometryTopicNotEmpty); }
    if AtMost(c.rateHz, ZERO) { return Some(RatePositive); }
    if c.frameMode != "gazebo_bridge" && c.frameMode != "passthrough" { return Some(FrameMode); }
    if AtMost(c.seaLevelPressurePa, ZERO) { return Some(SeaLevelPressurePositive); }
    if c.pressureMode != "from_altitude" && c.pressureMode != "zero" { return Some(PressureMode); }
    if c.altitudeSource != "altimeter" && c.altitudeSource != "gps" { return Some(AltitudeSource); }
    if c.altitudeSource == "gps" && c.navsatTopic.None? { return Some(GpsNeedsNavsat); }
    if AtMost(c.timeoutSeconds, ZERO) { return Some(TimeoutPositive); }
    if Less(c.minVelocity, ZERO) || AtMost(c.maxVelocity, c.minVelocity) { return Some(VelocityRange); }
    broken := None;
  }

  method ValidateMap(ipv4: string -> bool, c: BridgeConfig) returns (broken: Option<Rule>)
    requires Shaped(c)
    ensures broken.Some? ==> !Keeps(ipv4, c, broken.value)
    ensures broken.None? ==> Keeps(ipv4, c, MapInRange) && Keeps(ipv4, c, MapWithoutDuplicates)
  {
    var seen: set<int> := {};
    for i := 0 to 4
      invariant seen == set k | 0 <= k < i :: c.motorMap[k]
      invariant forall k :: 0 <= k < i ==> 0 <= c.motorMap[k] <= 3
      invariant forall j, k :: 0 <= j < k < i ==> c.motorMap[j] != c.motorMap[k]
    {
      var index := c.motorMap[i];
      if index < 0 || index > 3 { return Some(MapInRange); }
      if index in seen { return Some(MapWithoutDuplicates); }
      seen := seen + {index};
    }
    broken := None;
  }

  // What the source's local sets and flag hold after some mappings.
  ghost predicate Remembered(earlier: seq<RangefinderConfig>, names: set<string>, topics: set<string>,
                             endpoints: set<string>, sensorIds: set<nat>, hasObstacleDistance: bool) {
    && names == (set r | r in earlier :: r.name)
    && topics == (set r | r in earlier :: r.gazeboTopic)
    && endpoints == (set r | r in earlier && Tfmini(r) :: Endpoint(r.sitlAddress, r.sitlPort))
    && sensorIds == (set r | r in earlier && DistanceSensor(r) && r.sensorId.Some? :: r.sensorId.value)
    && (hasObstacleDistance <==> exists r :: r in earlier && Obstacle(r))
  }

  // A mapping keeps a rule beside all earlier ones.
  ghost predicate Fits(rule: Rule, earlier: seq<RangefinderConfig>, r: RangefinderConfig) {
    Alone(rule, r) && forall s :: s in earlier ==> Together(rule, s, r)
  }

  lemma MisfitBreaks(rule: Rule, rs: seq<RangefinderConfig>, i: nat)
    requires i < |rs| && !Fits(rule, rs[..i], rs[i])
    ensures !Mappings(rule, rs)
  {
    if Alone(rule, rs[i]) {
      var s :| s in rs[..i] && !Together(rule, s, rs[i]);
      var k :| 0 <= k < i && rs[..i][k] == s;
      assert !Together(rule, rs[k], rs[i]);
    }
  }

  lemma FitExtends(rule: Rule, rs: seq<RangefinderConfig>, i: nat)
    requires i < |rs| && Mappings(rule, rs[..i]) && Fits(rule, rs[..i], rs[i])
    ensures Mappings(rule, rs[..i + 1])
  {
    var more := rs[..i + 1];
    forall k | 0 <= k < |more| ensures Alone(rule, more[k]) {
      if k < i { assert more[k] == rs[..i][k]; }
    }
    forall j, k | 0 <= j < k < |more| ensures Together(rule, more[j], more[k]) {
      assert more[j] == rs[..i][j];
      if k < i { assert more[k] == rs[..i][k]; }
    }
  }

  lemma RememberOneMore(earlier: seq<RangefinderConfig>, r: RangefinderConfig, names: set<string>,
                        topics: set<string>, endpoints: set<string>, sensorIds: set<nat>, hasObstacle: bool)
    requires Remembered(earlier, names, topics, endpoints, sensorIds, hasObstacle)
    ensures Remembered(earlier + [r], names + {r.name}, topics + {r.gazeboTopic},
                       endpoints + (if Tfmini(r) then {Endpoint(r.sitlAddress, r.sitlPort)} else {}),
                       sensorIds + (if DistanceSensor(r) && r.sensorId.Some? then {r.sensorId.value} else {}),
                       hasObstacle || Obstacle(r))
  {
    hide Endpoint;
    var more := earlier + [r];
    assert r in more && forall s :: s in more <==> s in earlier || s == r;
  }

  // A string is among the earlier endpoints exactly when some earlier TFmini has the same pair.
  lemma EndpointsTell(earlier: seq<RangefinderConfig>, r: RangefinderConfig)
    ensures Endpoint(r.sitlAddress, r.sitlPort)
              in (set s | s in earlier && Tfmini(s) :: Endpoint(s.sitlAddress, s.sitlPort))
       <==> exists s :: s in earlier && Tfmini(s) && s.sitlAddress == r.sitlAddress && s.sitlPort == r.sitlPort
  {
    hide Endpoint;
    forall s | s in earlier
      ensures Endpoint(s.sitlAddress, s.sitlPort) == Endpoint(r.sitlAddress, r.sitlPort)
         <==> s.sitlAddress == r.sitlAddress && s.sitlPort == r.sitlPort
    {
      EndpointInjective(s.sitlAddress, s.sitlPort, r.sitlAddress, r.sitlPort);
    }
  }

  // What the local sets say about a mapping, rule by rule.
  lemma NamesTell(earlier: seq<RangefinderConfig>, r: RangefinderConfig, names: set<string>, topics: set<string>,
                  endpoints: set<string>, sensorIds: set<nat>, hasObstacle: bool)
    requires Remembered(earlier, names, topics, endpoints, sensorIds, hasObstacle)
    ensures Fits(NamesUnique, earlier, r) <==> r.name != "" && r.name !in names
    ensures Fits(TopicsUnique, earlier, r) <==> r.gazeboTopic != "" && r.gazeboTopic !in topics
  {
    hide Endpoint;
  }

  lemma OutputsTell(earlier: seq<RangefinderConfig>, r: RangefinderConfig, names: set<string>, topics: set<string>,
                    endpoints: set<string>, sensorIds: set<nat>, hasObstacle: bool)
    requires Remembered(earlier, names, topics, endpoints, sensorIds, hasObstacle)
    ensures Fits(EndpointsUnique, earlier, r)
       <==> !(Tfmini(r) && Endpoint(r.sitlAddress, r.sitlPort) in endpoints)
    ensures Fits(OneObstacleDistance, earlier, r) <==> !(Obstacle(r) && hasObstacle)
  {
    hide Endpoint;
    EndpointsTell(earlier, r);
  }

  lemma SensorIdsTell(earlier: seq<RangefinderConfig>, r: RangefinderConfig, names: set<string>, topics: set<string>,
                      endpoints: set<string>, sensorIds: set<nat>, hasObstacle: bool)
    requires Remembered(earlier, names, topics, endpoints, sensorIds, hasObstacle)
    ensures Fits(SensorIdsUnique, earlier, r)
       <==> (DistanceSensor(r) ==> r.sensorId.Some? && r.sensorId.value !in sensorIds)
  {
    hide Endpoint;
  }

  lemma OtherRulesTell(earlier: seq<RangefinderConfig>, r: RangefinderConfig, rule: Rule)
    requires rule.TfminiComplete? || rule.Forward? || rule.KnownMessage? || rule.KnownOutput? || !OfMappings(rule)
    ensures Fits(rule, earlier, r) <==> Alone(rule, r)
  {
  }

  // One turn of the loop over the mappings.
  method ValidateMapping(ghost earlier: seq<RangefinderConfig>, r: RangefinderConfig, names: set<string>,
                         topics: set<string>, endpoints: set<string>, sensorIds: set<nat>, hasObstacle: bool)
    returns (broken: Option<Rule>, names': set<string>, topics': set<string>, endpoints': set<string>,
             sensorIds': set<nat>, hasObstacle': bool)
    requires Remembered(earlier, names, topics, endpoints, sensorIds, hasObstacle)
    ensures broken.Some? ==> OfMappings(broken.value) && !Fits(broken.value, earlier, r)
    ensures broken.None? ==> forall rule: Rule :: Fits(rule, earlier, r)
    ensures broken.None? ==> Remembered(earlier + [r], names', topics', endpoints', sensorIds', hasObstacle')
  {
    hide Remembered, Fits, Endpoint;
    NamesTell(earlier, r, names, topics, endpoints, sensorIds, hasObstacle);
    OutputsTell(earlier, r, names, topics, endpoints, sensorIds, hasObstacle);
    SensorIdsTell(earlier, r, names, topics, endpoints, sensorIds, hasObstacle);
    forall rule: Rule | rule.TfminiComplete? || rule.Forward? || rule.KnownMessage? || rule.KnownOutput? || !OfMappings(rule)
      ensures Fits(rule, earlier, r) <==> Alone(rule, r)
    {
      OtherRulesTell(earlier, r, rule);
    }
    RememberOneMore(earlier, r, names, topics, endpoints, sensorIds, hasObstacle);
    broken, names', topics', endpoints', sensorIds', hasObstacle' :=
      None, names, topics, endpoints, sensorIds, hasObstacle;
    if r.name == "" || r.name in names { broken := Some(NamesUnique); return; }
    names' := names + {r.name};
    if r.gazeboTopic == "" || r.gazeboTopic in topics { broken := Some(TopicsUnique); return; }
    topics' := topics + {r.gazeboTopic};
    if r.output == "tfmini" {
      if r.sitlAddress == "" || r.sitlPort == 0 { broken := Some(TfminiComplete); return; }
      if Endpoint(r.sitlAddress, r.sitlPort) in endpoints { broken := Some(EndpointsUnique); return; }
      endpoints' := endpoints + {Endpoint(r.sitlAddress, r.sitlPort)};
    } else if r.output == "mavlink" {
      if r.orientation != "forward" { broken := Some(Forward); return; }
      if r.mavlinkMessage == "distance_sensor" {
        if r.sensorId.None? || r.sensorId.value in sensorIds { broken := Some(SensorIdsUnique); return; }
        sensorIds' := sensorIds + {r.sensorId.value};
      } else if r.mavlinkMessage == "obstacle_distance" {
        if hasObstacle { broken := Some(OneObstacleDistance); return; }
        hasObstacle' := true;
      } else {
        broken := Some(KnownMessage);
        return;
      }
    } else {
      broken := Some(KnownOutput);
      return;
    }
    assert endpoints' == endpoints + (if Tfmini(r) then {Endpoint(r.sitlAddress, r.sitlPort)} else {});
    assert sensorIds' == sensorIds + (if DistanceSensor(r) && r.sensorId.Some? then {r.sensorId.value} else {});
  }

  method ValidateRangefinders(rs: seq<RangefinderConfig>) returns (broken: Option<Rule>)
    ensures broken.Some? ==> OfMappings(broken.value) && !Mappings(broken.value, rs)
    ensures broken.None? ==> forall rule: Rule :: Mappings(rule, rs)
  {
    hide Remembered, Fits, Mappings;
    var names, topics, endpoints: set<string> := {}, {}, {};
    var sensorIds: set<nat> := {};
    var hasObstacleDistance := false;
    Nothing();
    for i := 0 to |rs|
      invariant Remembered(rs[..i], names, topics, endpoints, sensorIds, hasObstacleDistance)
      invariant forall rule: Rule :: Mappings(rule, rs[..i])
    {
      broken, names, topics, endpoints, sensorIds, hasObstacleDistance :=
        ValidateMapping(rs[..i], rs[i], names, topics, endpoints, sensorIds, hasObstacleDistance);
      if broken.Some? {
        MisfitBreaks(broken.value, rs, i);
        return;
      }
      forall rule: Rule {:trigger Mappings(rule, rs[..i + 1])} ensures Mappings(rule, rs[..i + 1]) {
        FitExtends(rule, rs, i);
      }
      assert rs[..i + 1] == rs[..i] + [rs[i]];
    }
    assert rs[..|rs|] == rs;
    broken := None;
  }

  lemma Nothing()
    ensures Remembered([], {}, {}, {}, {}, false)
    ensures forall rule: Rule :: Mappings(rule, [])
  {
  }

  lemma KeepsMappings(ipv4: string -> bool, c: BridgeConfig, rule: Rule)
    requires Shaped(c) && OfMappings(rule)
    ensures Keeps(ipv4, c, rule) <==> Mappings(rule, c.rangefinders)
  {
  }

  /** The check accepts exactly the well-formed configurations, and otherwise names a rule that is broken. */
  method Validate(ipv4: string -> bool, c: BridgeConfig) returns (broken: Option<Rule>)
    requires Shaped(c)
    ensures broken.None? <==> WellFormed(ipv4, c)
    ensures broken.Some? ==> !Keeps(ipv4, c, broken.value)
  {
    hide Mappings, Keeps;
    broken := ValidateScalars(ipv4, c);
    if broken.Some? { return; }
    broken := ValidateMap(ipv4, c);
    if broken.Some? { return; }
    forall rule: Rule | OfMappings(rule) ensures Keeps(ipv4, c, rule) <==> Mappings(rule, c.rangefinders) {
      KeepsMappings(ipv4, c, rule);
    }
    broken := ValidateRangefinders(c.rangefinders);
  }

  // ---- What acceptance means ----

  /** Everything acceptance asks, in one place: the scalars, the map, each rangefinder by itself and any two of them
      together. */
  lemma WellFormedMeaning(ipv4: string -> bool, c: BridgeConfig)
    requires Shaped(c)
    ensures WellFormed(ipv4, c) <==>
      && ipv4(c.mavlinkAddress)
      && |c.imuTopic| > 0 && |c.altimeterTopic| > 0 && |c.actuatorTopic| > 0
      && (c.navsatTopic.Some? ==> |c.navsatTopic.value| > 0)
      && (c.odometryEnabled ==> |c.odometryTopic| > 0)
      && NotBelow(c.rateHz, 0.0, true) && NotBelow(c.seaLevelPressurePa, 0.0, true) && NotBelow(c.timeoutSeconds, 0.0, true)
      && NotBelow(c.minVelocity, 0.0, false) && !AtMost(c.maxVelocity, c.minVelocity)
      && c.frameMode in {"gazebo_bridge", "passthrough"}
      && c.pressureMode in {"from_altitude", "zero"}
      && (c.altitudeSource == "altimeter" || (c.altitudeSource == "gps" && c.navsatTopic.Some?))
      && Motors.IsPermutation(c.motorMap)
      && (forall i :: 0 <= i < |c.rangefinders| ==> RightAlone(c.rangefinders[i]))
      && (forall i, j :: 0 <= i < j < |c.rangefinders| ==> RightTogether(c.rangefinders[i], c.rangefinders[j]))
  {
    hide Mappings, Alone, Together, RightAlone, RightTogether, WellFormed, Keeps, Motors.IsPermutation, NotBelow, AtMost;
    RulesInOnePlace(ipv4, c);
    ScalarsInOnePlace(ipv4, c);
    NamesInOnePlace(ipv4, c);
    MapInOnePlace(ipv4, c);
    MappingsInOnePlace(c.rangefinders);
  }

  // A number at least the bound, or above it if strict; or infinity; or NaN.
  predicate NotBelow(d: Double, bound: real, strict: bool) {
    match d
    case Number(x) => x > bound || (x == bound && !strict)
    case NegativeInfinity => false
    case _ => true
  }

  // A rangefinder is named and has a topic; it is a TFmini with an address and a port, or a forward MAVLink sensor
  // that is a distance sensor with an id or an obstacle sensor.
  predicate RightAlone(r: RangefinderConfig) {
    && |r.name| > 0 && |r.gazeboTopic| > 0
    && (|| (r.output == "tfmini" && |r.sitlAddress| > 0 && r.sitlPort > 0)
        || (r.output == "mavlink" && r.orientation == "forward"
            && (|| (r.mavlinkMessage == "distance_sensor" && r.sensorId.Some?)
                || r.mavlinkMessage == "obstacle_distance")))
  }

  // Two rangefinders, enabled or not, share no name, topic, TCP endpoint or sensor id and are not both obstacle
  // sensors.
  predicate RightTogether(r: RangefinderConfig, s: RangefinderConfig) {
    && r.name != s.name && r.gazeboTopic != s.gazeboTopic
    && !(r.output == "tfmini" && s.output == "tfmini" && (r.sitlAddress, r.sitlPort) == (s.sitlAddress, s.sitlPort))
    && !(r.output == "mavlink" && s.output == "mavlink" && r.mavlinkMessage == s.mavlinkMessage
         && (r.mavlinkMessage == "obstacle_distance"
             || (r.mavlinkMessage == "distance_sensor" && r.sensorId == s.sensorId)))
  }

  lemma ScalarsInOnePlace(ipv4: string -> bool, c: BridgeConfig)
    requires Shaped(c)
    ensures Keeps(ipv4, c, MavlinkAddress) <==> ipv4(c.mavlinkAddress)
    ensures Keeps(ipv4, c, TopicsNotEmpty) <==> |c.imuTopic| > 0 && |c.altimeterTopic| > 0 && |c.actuatorTopic| > 0
    ensures Keeps(ipv4, c, NavsatNotEmpty) <==> (c.navsatTopic.Some? ==> |c.navsatTopic.value| > 0)
    ensures Keeps(ipv4, c, OdometryTopicNotEmpty) <==> (c.odometryEnabled ==> |c.odometryTopic| > 0)
    ensures Keeps(ipv4, c, RatePositive) <==> NotBelow(c.rateHz, 0.0, true)
    ensures Keeps(ipv4, c, SeaLevelPressurePositive) <==> NotBelow(c.seaLevelPressurePa, 0.0, true)
    ensures Keeps(ipv4, c, TimeoutPositive) <==> NotBelow(c.timeoutSeconds, 0.0, true)
    ensures Keeps(ipv4, c, VelocityRange) <==> NotBelow(c.minVelocity, 0.0, false) && !AtMost(c.maxVelocity, c.minVelocity)
  {
    hide Mappings;
  }

  lemma NamesInOnePlace(ipv4: string -> bool, c: BridgeConfig)
    requires Shaped(c)
    ensures Keeps(ipv4, c, FrameMode) <==> c.frameMode in {"gazebo_bridge", "passthrough"}
    ensures Keeps(ipv4, c, PressureMode) <==> c.pressureMode in {"from_altitude", "zero"}
    ensures Keeps(ipv4, c, AltitudeSource) && Keeps(ipv4, c, GpsNeedsNavsat)
       <==> (c.altitudeSource == "altimeter" || (c.altitudeSource == "gps" && c.navsatTopic.Some?))
  {
    hide Mappings;
  }

  lemma MapInOnePlace(ipv4: string -> bool, c: BridgeConfig)
    requires Shaped(c)
    ensures Keeps(ipv4, c, MapInRange) && Keeps(ipv4, c, MapWithoutDuplicates) <==> Motors.IsPermutation(c.motorMap)
  {
    hide Mappings;
  }

  lemma RulesInOnePlace(ipv4: string -> bool, c: BridgeConfig)
    requires Shaped(c)
    ensures WellFormed(ipv4, c) <==>
      && Keeps(ipv4, c, MavlinkAddress) && Keeps(ipv4, c, TopicsNotEmpty) && Keeps(ipv4, c, NavsatNotEmpty)
      && Keeps(ipv4, c, OdometryTopicNotEmpty) && Keeps(ipv4, c, RatePositive) && Keeps(ipv4, c, FrameMode)
      && Keeps(ipv4, c, SeaLevelPressurePositive) && Keeps(ipv4, c, PressureMode) && Keeps(ipv4, c, AltitudeSource)
      && Keeps(ipv4, c, GpsNeedsNavsat) && Keeps(ipv4, c, TimeoutPositive) && Keeps(ipv4, c, VelocityRange)
      && Keeps(ipv4, c, MapInRange) && Keeps(ipv4, c, MapWithoutDuplicates)
      && forall rule: Rule :: Mappings(rule, c.rangefinders)
  {
    hide Mappings;
    forall rule: Rule | !OfMappings(rule) ensures Mappings(rule, c.rangefinders) {
      ScalarRulesHold(rule, c.rangefinders);
    }
    forall rule: Rule | OfMappings(rule) ensures Keeps(ipv4, c, rule) <==> Mappings(rule, c.rangefinders) {
      KeepsMappings(ipv4, c, rule);
    }
    hide Keeps;
    if (forall rule: Rule :: Mappings(rule, c.rangefinders)) {
      forall rule: Rule | OfMappings(rule) ensures Keeps(ipv4, c, rule) {
        assert Mappings(rule, c.rangefinders);
      }
    }
    if WellFormed(ipv4, c) {
      forall rule: Rule ensures Mappings(rule, c.rangefinders) {
        assert Keeps(ipv4, c, rule);
      }
    }
  }

  lemma ScalarRulesHold(rule: Rule, rs: seq<RangefinderConfig>)
    requires !OfMappings(rule)
    ensures Mappings(rule, rs)
  {
  }

  lemma MappingsInOnePlace(rs: seq<RangefinderConfig>)
    ensures (forall rule: Rule :: Mappings(rule, rs)) <==>
      && (forall i :: 0 <= i < |rs| ==> RightAlone(rs[i]))
      && (forall i, j :: 0 <= i < j < |rs| ==> RightTogether(rs[i], rs[j]))
  {
    hide Alone, Together, RightAlone, RightTogether;
    forall i | 0 <= i < |rs| ensures RightAlone(rs[i]) <==> forall rule: Rule :: Alone(rule, rs[i]) {
      AloneInOnePlace(rs[i]);
    }
    forall i, j | 0 <= i < j < |rs|
      ensures RightTogether(rs[i], rs[j]) <==> forall rule: Rule :: Together(rule, rs[i], rs[j])
    {
      TogetherInOnePlace(rs[i], rs[j]);
    }
    if forall rule: Rule :: Mappings(rule, rs) {
      forall i, rule: Rule | 0 <= i < |rs| ensures Alone(rule, rs[i]) { assert Mappings(rule, rs); }
      forall i, j, rule: Rule | 0 <= i < j < |rs| ensures Together(rule, rs[i], rs[j]) { assert Mappings(rule, rs); }
    }
  }

  lemma AloneInOnePlace(r: RangefinderConfig)
    ensures RightAlone(r) <==> forall rule: Rule :: Alone(rule, r)
  {
    if forall rule: Rule :: Alone(rule, r) {
      assert Alone(NamesUnique, r) && Alone(TopicsUnique, r) && Alone(TfminiComplete, r) && Alone(Forward, r)
        && Alone(SensorIdsUnique, r) && Alone(KnownMessage, r) && Alone(KnownOutput, r);
    }
  }

  lemma TogetherInOnePlace(r: RangefinderConfig, s: RangefinderConfig)
    ensures RightTogether(r, s) <==> forall rule: Rule :: Together(rule, r, s)
  {
    if forall rule: Rule :: Together(rule, r, s) {
      assert Together(NamesUnique, r, s) && Together(TopicsUnique, r, s) && Together(EndpointsUnique, r, s)
        && Together(SensorIdsUnique, r, s) && Together(OneObstacleDistance, r, s);
    }
  }


  // The values of the source's default member initialisers.
  const DEFAULT := BridgeConfig("127.0.0.1", "/imu", "/altimeter", "/X3/gazebo/command/motor_speed", None,
                                false, "/model/X3/odometry", Number(500.0), "gazebo_bridge", Number(101325.0),
                                "from_altitude", "altimeter", Number(0.10), Number(0.0), Number(800.0),
                                [0, 1, 2, 3], [])

  /** The default configuration is accepted wherever its address is an IPv4 address. */
  lemma DefaultAccepted(ipv4: string -> bool)
    ensures WellFormed(ipv4, DEFAULT) <==> ipv4("127.0.0.1")
  {
    assert Keeps(ipv4, DEFAULT, MavlinkAddress) <==> ipv4("127.0.0.1");
  }

  // The motor loop's configuration with the same map, limits and timeout.
  predicate Describes(c: BridgeConfig, m: Motors.MotorConfig) {
    && m.map_ == c.motorMap && Number(m.minVelocity) == c.minVelocity && Number(m.maxVelocity) == c.maxVelocity
    && m.timeoutSeconds == c.timeoutSeconds
  }

  // The motor loop's theorems apply to the configuration.
  ghost predicate LoopDefined(c: BridgeConfig) {
    exists m: Motors.MotorConfig :: Describes(c, m) && Motors.ConfigOk(m)
  }

  /** An accepted configuration is one the motor loop is defined for if and only if both velocities are numbers. */
  lemma AcceptedMotors(ipv4: string -> bool, c: BridgeConfig)
    requires Shaped(c) && WellFormed(ipv4, c)
    ensures LoopDefined(c) <==> c.minVelocity.Number? && c.maxVelocity.Number?
  {
    assert Keeps(ipv4, c, MapInRange) && Keeps(ipv4, c, MapWithoutDuplicates) && Keeps(ipv4, c, VelocityRange);
    if c.minVelocity.Number? && c.maxVelocity.Number? {
      var m := Motors.MotorConfig(c.motorMap, c.minVelocity.value, c.maxVelocity.value, c.timeoutSeconds);
      assert Describes(c, m) && Motors.ConfigOk(m);
    }
  }

  // What the rules ask of the five numbers.
  predicate NumbersPass(c: BridgeConfig) {
    && !AtMost(c.rateHz, ZERO) && !AtMost(c.seaLevelPressurePa, ZERO) && !AtMost(c.timeoutSeconds, ZERO)
    && !Less(c.minVelocity, ZERO) && !AtMost(c.maxVelocity, c.minVelocity)
  }

  lemma AcceptedNumbers(ipv4: string -> bool, c: BridgeConfig)
    requires Shaped(c) && WellFormed(ipv4, c)
    ensures NumbersPass(c)
  {
    assert Keeps(ipv4, c, RatePositive) && Keeps(ipv4, c, SeaLevelPressurePositive)
      && Keeps(ipv4, c, TimeoutPositive) && Keeps(ipv4, c, VelocityRange);
  }

  // Acceptance depends on the five numbers through those comparisons only.
  lemma OtherNumbers(ipv4: string -> bool, c: BridgeConfig, d: BridgeConfig)
    requires Shaped(c) && Shaped(d) && WellFormed(ipv4, c) && NumbersPass(d)
    requires d == c.(rateHz := d.rateHz, seaLevelPressurePa := d.seaLevelPressurePa,
                     timeoutSeconds := d.timeoutSeconds, minVelocity := d.minVelocity, maxVelocity := d.maxVelocity)
    ensures WellFormed(ipv4, d)
  {
    hide Mappings;
    forall rule: Rule ensures Keeps(ipv4, d, rule) {
      assert Keeps(ipv4, c, rule);
    }
  }

  /** Comparisons with NaN are false, so no rule about a number stops NaN: replacing the rate, the pressure, the
      timeout or a velocity limit by NaN, or the upper limit by infinity, keeps an accepted configuration
      accepted. With a velocity limit replaced the motor loop is no longer defined for it. */
  lemma NaNAccepted(ipv4: string -> bool, c: BridgeConfig)
    requires Shaped(c) && WellFormed(ipv4, c)
    ensures WellFormed(ipv4, c.(rateHz := NaN, seaLevelPressurePa := NaN, timeoutSeconds := NaN))
    ensures WellFormed(ipv4, c.(minVelocity := NaN)) && !LoopDefined(c.(minVelocity := NaN))
    ensures WellFormed(ipv4, c.(maxVelocity := NaN)) && !LoopDefined(c.(maxVelocity := NaN))
    ensures c.minVelocity.Number? ==>
              && WellFormed(ipv4, c.(maxVelocity := PositiveInfinity))
              && !LoopDefined(c.(maxVelocity := PositiveInfinity))
  {
    hide WellFormed, Keeps;
    AcceptedNumbers(ipv4, c);
    OtherNumbers(ipv4, c, c.(rateHz := NaN, seaLevelPressurePa := NaN, timeoutSeconds := NaN));
    OtherNumbers(ipv4, c, c.(minVelocity := NaN));
    OtherNumbers(ipv4, c, c.(maxVelocity := NaN));
    if c.minVelocity.Number? {
      OtherNumbers(ipv4, c, c.(maxVelocity := PositiveInfinity));
    }
  }
}
