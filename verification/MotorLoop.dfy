/** The control loop's motor half: drain the socket, publish, and stop. */
module MotorLoop {
  import opened Motors
  import opened Wrappers

  // What one turn of the loop meets: the datagrams waiting, and the clock when it publishes.
  datatype Turn = Turn(waiting: seq<Datagram>, now: int)

  predicate TurnsShaped(turns: seq<Turn>) {
    forall i :: 0 <= i < |turns| ==> AllShaped(turns[i].waiting)
  }

  // Everything received in the turns, in order.
  function Received(turns: seq<Turn>): (history: seq<Datagram>)
    requires TurnsShaped(turns)
    ensures AllShaped(history)
  {
    if turns == [] then [] else Received(turns[..|turns| - 1]) + turns[|turns| - 1].waiting
  }

  // What the turns should publish, one entry a turn.
  function ExpectedRun(c: MotorConfig, turns: seq<Turn>): seq<seq<real>>
    requires ConfigOk(c) && TurnsShaped(turns)
  {
    if turns == [] then []
    else ExpectedRun(c, turns[..|turns| - 1]) + [Expected(c, Received(turns), turns[|turns| - 1].now)]
  }

  /** Each turn's entry depends on the datagrams received up to then and on that turn's clock only. */
  lemma {:induction false} ExpectedRunAt(c: MotorConfig, turns: seq<Turn>, i: nat)
    requires ConfigOk(c) && TurnsShaped(turns) && i < |turns|
    ensures |ExpectedRun(c, turns)| == |turns|
    ensures ExpectedRun(c, turns)[i] == Expected(c, Received(turns[..i + 1]), turns[i].now)
  {
    hide Expected, Received;
    var n := |turns| - 1;
    if i < n {
      ExpectedRunAt(c, turns[..n], i);
      assert turns[..n][..i + 1] == turns[..i + 1];
    } else {
      assert turns[..i + 1] == turns;
      if n > 0 { ExpectedRunAt(c, turns[..n], 0); }
    }
  }

  lemma OneMoreTurn(c: MotorConfig, turns: seq<Turn>, n: nat)
    requires ConfigOk(c) && TurnsShaped(turns) && n < |turns|
    ensures Received(turns[..n + 1]) == Received(turns[..n]) + turns[n].waiting
    ensures ExpectedRun(c, turns[..n + 1])
         == ExpectedRun(c, turns[..n]) + [Expected(c, Received(turns[..n + 1]), turns[n].now)]
  {
    hide Expected;
    assert turns[..n + 1][..n] == turns[..n];
  }

  lemma OneMoreDatagram(history: seq<Datagram>, d: Datagram)
    ensures NewestValid(history + [d]) == if Valid(d) then |history| else NewestValid(history)
    ensures ValidCount(history + [d]) == ValidCount(history) + if Valid(d) then 1 else 0
  {
    hide Valid;
    assert (history + [d])[..|history|] == history;
  }

  /** What is received in two spells of turns is what is received in one after the other; in one turn, what waits. */
  lemma {:induction false} ReceivedConcatenates(a: seq<Turn>, b: seq<Turn>)
    requires TurnsShaped(a) && TurnsShaped(b)
    ensures Received(a + b) == Received(a) + Received(b)
    ensures |b| == 1 ==> Received(b) == b[0].waiting
    decreases |b|
  {
    if b == [] {
      assert a + b == a;
    } else {
      var n := |b| - 1;
      assert (a + b)[..|a + b| - 1] == a + b[..n];
      ReceivedConcatenates(a, b[..n]);
      if n == 0 { assert b[..0] == []; }
    }
  }

  // ---- What a run publishes, in plain numbers ----

  // Four bytes each of four finite floats, and nothing else.
  predicate GoodPacket(d: Datagram) {
    && d.size == 16 && |d.speeds| == 4
    && d.speeds[0].Number? && d.speeds[1].Number? && d.speeds[2].Number? && d.speeds[3].Number?
  }

  // The newest good packet is at place n, or there is none and n is -1.
  predicate NewestAt(history: seq<Datagram>, n: int) {
    && -1 <= n < |history|
    && (n >= 0 ==> GoodPacket(history[n]))
    && forall k :: n < k < |history| ==> !GoodPacket(history[k])
  }

  // The packet is too old at a clock reading: by the nanosecond clock, against a timeout in seconds.
  predicate TooOld(d: Datagram, now: int, timeoutSeconds: Double) {
    match timeoutSeconds
    case Number(t) => (now - d.at) as real > t * 1_000_000_000.0
    case PositiveInfinity => false
    case _ => true
  }

  // The velocity of a normalised speed: linear from the minimum at 0 to the maximum at 1, and level outside.
  function VelocityOf(speed: real, minimum: real, maximum: real): real {
    if speed <= 0.0 then minimum
    else if speed >= 1.0 then maximum
    else minimum + speed * (maximum - minimum)
  }

  /** What a turn must publish: four times the minimum velocity without a good packet or when the newest one is too
      old; otherwise, for rotor g, the velocity of the speed the packet has for Betaflight motor map[g]. Motor 0 is
      last in a packet, the others follow one another from the start. */
  predicate RightEntry(c: MotorConfig, history: seq<Datagram>, now: int, n: int, entry: seq<real>)
    requires ConfigOk(c) && NewestAt(history, n)
  {
    && |entry| == 4
    && if n < 0 || TooOld(history[n], now, c.timeoutSeconds)
       then forall g :: 0 <= g < 4 ==> entry[g] == c.minVelocity
       else forall g :: 0 <= g < 4 ==>
              entry[g] == VelocityOf(history[n].speeds[if c.map_[g] == 0 then 3 else c.map_[g] - 1].value,
                                     c.minVelocity, c.maxVelocity)
  }

  lemma NewestIsGood(history: seq<Datagram>)
    requires AllShaped(history)
    ensures NewestAt(history, NewestValid(history))
  {
    forall k | 0 <= k < |history| ensures Motors.Valid(history[k]) <==> GoodPacket(history[k]) {
      assert Shaped(history[k]);
    }
  }

  lemma FreshMeaning(c: MotorConfig, d: Datagram, now: int)
    ensures Fresh(c, d, now) <==> !TooOld(d, now, c.timeoutSeconds)
  {
  }

  lemma ConvertedEnds(minimum: real, maximum: real)
    ensures Portion(0.0, maximum - minimum) == 0.0 && Portion(1.0, maximum - minimum) == maximum - minimum
  {
  }

  lemma ConvertedBetween(c: MotorConfig, command: real)
    requires 0.0 < command < 1.0
    ensures Portion(command, c.maxVelocity - c.minVelocity) == command * (c.maxVelocity - c.minVelocity)
    ensures c.minVelocity + Portion(command, c.maxVelocity - c.minVelocity)
         == VelocityOf(command, c.minVelocity, c.maxVelocity)
  {
  }

  lemma ConvertMeaning(c: MotorConfig, command: real)
    ensures Convert(c, Number(command)) == Ok(VelocityOf(command, c.minVelocity, c.maxVelocity))
  {
    hide Portion;
    ConvertedEnds(c.minVelocity, c.maxVelocity);
    if 0.0 < command < 1.0 {
      hide VelocityOf;
      ConvertedBetween(c, command);
    }
  }

  lemma EntryOfPacket(c: MotorConfig, d: Datagram, g: nat)
    requires ConfigOk(c) && Shaped(d) && Motors.Valid(d) && g < 4
    ensures d.speeds[if c.map_[g] == 0 then 3 else c.map_[g] - 1].Number?
    ensures PacketVelocities(c, d)[g]
         == VelocityOf(d.speeds[if c.map_[g] == 0 then 3 else c.map_[g] - 1].value, c.minVelocity, c.maxVelocity)
  {
    hide Convert, VelocityOf;
    var k := if c.map_[g] == 0 then 3 else c.map_[g] - 1;
    assert SitlPacketToBetaflightMotorOrder(d.speeds)[c.map_[g]] == d.speeds[k];
    ConvertMeaning(c, d.speeds[k].value);
    assert PacketVelocities(c, d)[g] == RotorVelocity(c, d, g);
  }

  /** What the history calls for is right in plain numbers. */
  lemma ExpectedIsRight(c: MotorConfig, history: seq<Datagram>, now: int)
    requires ConfigOk(c) && AllShaped(history)
    ensures NewestAt(history, NewestValid(history))
    ensures RightEntry(c, history, now, NewestValid(history), Expected(c, history, now))
  {
    hide Convert, VelocityOf, Fresh, TooOld, PacketVelocities, NewestAt, GoodPacket;
    NewestIsGood(history);
    var n := NewestValid(history);
    if n >= 0 {
      FreshMeaning(c, history[n], now);
      if Fresh(c, history[n], now) {
        forall g | 0 <= g < 4
          ensures PacketVelocities(c, history[n])[g]
               == VelocityOf(history[n].speeds[if c.map_[g] == 0 then 3 else c.map_[g] - 1].value, c.minVelocity, c.maxVelocity)
        {
          EntryOfPacket(c, history[n], g);
        }
      }
    }
  }

  // Every entry is right for what had been received by its turn and for its turn's clock.
  ghost predicate RightEntries(c: MotorConfig, turns: seq<Turn>, entries: seq<seq<real>>)
    requires ConfigOk(c) && TurnsShaped(turns)
  {
    && |entries| == |turns|
    && forall i :: 0 <= i < |turns| ==> RightAt(c, Received(turns[..i + 1]), turns[i].now, entries[i])
  }

  ghost predicate RightAt(c: MotorConfig, history: seq<Datagram>, now: int, entry: seq<real>)
    requires ConfigOk(c)
  {
    exists n :: NewestAt(history, n) && RightEntry(c, history, now, n, entry)
  }

  lemma ExpectedRunIsRight(c: MotorConfig, turns: seq<Turn>)
    requires ConfigOk(c) && TurnsShaped(turns)
    ensures RightEntries(c, turns, ExpectedRun(c, turns))
  {
    hide Expected, Received, RightAt, ExpectedRun;
    forall i | 0 <= i < |turns|
      ensures |ExpectedRun(c, turns)| == |turns|
      ensures RightAt(c, Received(turns[..i + 1]), turns[i].now, ExpectedRun(c, turns)[i])
    {
      ExpectedRunAt(c, turns, i);
      ExpectedIsRightAt(c, Received(turns[..i + 1]), turns[i].now);
    }
    if turns == [] {
      NoTurns(c, turns);
      assert turns[..0] == turns;
    } else {
      ExpectedRunAt(c, turns, 0);
    }
  }

  lemma ExpectedIsRightAt(c: MotorConfig, history: seq<Datagram>, now: int)
    requires ConfigOk(c) && AllShaped(history)
    ensures RightAt(c, history, now, Expected(c, history, now))
  {
    hide Expected, RightEntry, NewestAt;
    ExpectedIsRight(c, history, now);
  }

  // The newest good packet is one.
  lemma NewestIsUnique(history: seq<Datagram>, m: int, n: int)
    requires NewestAt(history, m) && NewestAt(history, n)
    ensures m == n
  {
  }

  class BridgeApp {
    const config: MotorConfig
    var lastMotorCommand: seq<Double>
    var lastMotorPacketTime: int
    var hasMotorPacket: bool
    var motorTimedOut: bool
    var motorPackets: nat
    var malformedMotorPackets: nat
    // Everything received, and everything published.
    ghost var history: seq<Datagram>
    ghost var published: seq<seq<real>>

    /** The remembered command is the newest valid packet's, in Betaflight's order; the counters split the
        datagrams into valid and malformed ones. */
    ghost predicate Valid()
      reads this
    {
      && ConfigOk(config) && AllShaped(history)
      && motorPackets == ValidCount(history)
      && motorPackets + malformedMotorPackets == |history|
      && |lastMotorCommand| == 4
      && (hasMotorPacket <==> NewestValid(history) >= 0)
      && (hasMotorPacket ==>
            var d := history[NewestValid(history)];
            lastMotorPacketTime == d.at && lastMotorCommand == SitlPacketToBetaflightMotorOrder(d.speeds))
    }

    constructor (c: MotorConfig)
      requires ConfigOk(c)
      ensures Valid() && config == c && history == [] && published == []
    {
      config := c;
      lastMotorCommand, lastMotorPacketTime := [Number(0.0), Number(0.0), Number(0.0), Number(0.0)], 0;
      hasMotorPacket, motorTimedOut, motorPackets, malformedMotorPackets := false, false, 0, 0;
      history, published := [], [];
    }

    // The four floats of a packet, up to the first that is not finite.
    method ReadCommands(d: Datagram) returns (commands: seq<Double>, valid: bool)
      requires Shaped(d)
      ensures valid <==> forall i :: 0 <= i < 4 ==> d.speeds[i].Number?
      ensures valid ==> commands == d.speeds
    {
      var a := new Double[4](_ => Number(0.0));
      valid := true;
      for i := 0 to 4
        invariant valid
        invariant forall k :: 0 <= k < i ==> a[k] == d.speeds[k] && d.speeds[k].Number?
      {
        a[i] := d.speeds[i];
        if !a[i].Number? {
          valid := false;
          break;
        }
      }
      commands := a[..];
    }

    // One datagram of the receive loop.
    method Handle(d: Datagram)
      requires Valid() && Shaped(d)
      modifies this
      ensures Valid() && history == old(history) + [d] && published == old(published)
    {
      hide NewestValid, ValidCount;
      OneMoreDatagram(history, d);
      history := history + [d];
      if d.size != SERVO_PACKET_SIZE {
        malformedMotorPackets := malformedMotorPackets + 1;
        return;
      }
      var packetCommands, valid := ReadCommands(d);
      if !valid {
        malformedMotorPackets := malformedMotorPackets + 1;
        return;
      }
      lastMotorCommand := SitlPacketToBetaflightMotorOrder(packetCommands);
      lastMotorPacketTime := d.at;
      hasMotorPacket := true;
      motorTimedOut := false;
      motorPackets := motorPackets + 1;
    }

    method ReceiveMotorPackets(waiting: seq<Datagram>)
      requires Valid() && AllShaped(waiting)
      modifies this
      ensures Valid() && history == old(history) + waiting && published == old(published)
    {
      var next := 0;
      while next < |waiting|
        invariant 0 <= next <= |waiting|
        invariant Valid() && history == old(history) + waiting[..next] && published == old(published)
      {
        assert waiting[..next + 1] == waiting[..next] + [waiting[next]];
        Handle(waiting[next]);
        next := next + 1;
      }
      assert waiting[..next] == waiting;
    }

    // The mapper: simulator rotor g takes the command of Betaflight motor map[g].
    method Apply(betaflightMotors: seq<Double>) returns (gazeboMotors: seq<Double>)
      requires ConfigOk(config) && |betaflightMotors| == 4
      ensures |gazeboMotors| == 4 && forall g :: 0 <= g < 4 ==> gazeboMotors[g] == betaflightMotors[config.map_[g]]
    {
      var a := new Double[4](_ => Number(0.0));
      for g := 0 to 4
        invariant forall k :: 0 <= k < g ==> a[k] == betaflightMotors[config.map_[k]]
      {
        a[g] := betaflightMotors[config.map_[g]];
      }
      gazeboMotors := a[..];
    }

    // The converter never meets a command that is not finite here, so it never throws.
    method ConvertAll(mapped: seq<Double>) returns (velocities: seq<real>)
      requires |mapped| == 4 && forall g :: 0 <= g < 4 ==> mapped[g].Number?
      ensures |velocities| == 4 && forall g :: 0 <= g < 4 ==> Ok(velocities[g]) == Convert(config, mapped[g])
    {
      var a := new real[4](_ => 0.0);
      for g := 0 to 4
        invariant forall k :: 0 <= k < g ==> Ok(a[k]) == Convert(config, mapped[k])
      {
        var v := Convert(config, mapped[g]);
        a[g] := v.value;
      }
      velocities := a[..];
    }

    method PublishMotorCommandIfNeeded(now: int)
      requires Valid()
      modifies `motorTimedOut, `published
      ensures Valid() && published == old(published) + [Expected(config, history, now)]
      ensures motorTimedOut <==> old(motorTimedOut)
                                 || (hasMotorPacket && !Fresh(config, history[NewestValid(history)], now))
    {
      hide Convert;
      var zero := Number(0.0);
      var command := [zero, zero, zero, zero];
      if hasMotorPacket {
        var age := (now - lastMotorPacketTime) as real / 1_000_000_000.0;
        if AtMost(Number(age), config.timeoutSeconds) {
          command := lastMotorCommand;
        } else if !motorTimedOut {
          motorTimedOut := true;
        }
      }
      ghost var n := NewestValid(history);
      ghost var live := hasMotorPacket && Fresh(config, history[n], now);
      assert live ==> command == SitlPacketToBetaflightMotorOrder(history[n].speeds);
      var mapped := Apply(command);
      var velocities := ConvertAll(mapped);
      if live {
        PublishedPacket(config, history[n], mapped, velocities);
      } else {
        PublishedIdle(config, mapped, velocities);
      }
      published := published + [velocities];
    }

    /** Everything a run publishes: after each turn what the datagrams received so far call for, and zero
        velocity, unconverted, at the end. */
    method Run(turns: seq<Turn>)
      requires Valid() && history == [] && published == [] && TurnsShaped(turns)
      modifies this
      ensures Valid() && history == Received(turns)
      ensures published == ExpectedRun(config, turns) + [[0.0, 0.0, 0.0, 0.0]]
      ensures |published| == |turns| + 1 && RightEntries(config, turns, published[..|turns|])
      ensures published[|turns|] == [0.0, 0.0, 0.0, 0.0]
    {
      hide Expected, ExpectedRun, Received, NewestValid, ValidCount, RightAt;
      NoTurns(config, turns);
      var turn := 0;
      while turn < |turns|
        invariant 0 <= turn <= |turns|
        invariant Valid() && ConfigOk(config)
        invariant history == Received(turns[..turn]) && published == ExpectedRun(config, turns[..turn])
      {
        OneMoreTurn(config, turns, turn);
        ReceiveMotorPackets(turns[turn].waiting);
        PublishMotorCommandIfNeeded(turns[turn].now);
        turn := turn + 1;
      }
      assert turns[..turn] == turns;
      ghost var entries := published;
      published := published + [[0.0, 0.0, 0.0, 0.0]];
      ExpectedRunIsRight(config, turns);
      assert published[..|turns|] == entries;
    }
  }

  lemma NoTurns(c: MotorConfig, turns: seq<Turn>)
    requires ConfigOk(c) && TurnsShaped(turns)
    ensures Received(turns[..0]) == [] && ExpectedRun(c, turns[..0]) == []
  {
  }

  lemma PublishedPacket(c: MotorConfig, d: Datagram, mapped: seq<Double>, velocities: seq<real>)
    requires ConfigOk(c) && Shaped(d) && Motors.Valid(d) && |mapped| == 4 && |velocities| == 4
    requires forall g :: 0 <= g < 4 ==> mapped[g] == SitlPacketToBetaflightMotorOrder(d.speeds)[c.map_[g]]
    requires forall g :: 0 <= g < 4 ==> Ok(velocities[g]) == Convert(c, mapped[g])
    ensures velocities == PacketVelocities(c, d)
  {
    hide Convert;
    forall g | 0 <= g < 4 ensures velocities[g] == RotorVelocity(c, d, g) {
      assert Ok(velocities[g]) == Convert(c, mapped[g]);
    }
  }

  lemma PublishedIdle(c: MotorConfig, mapped: seq<Double>, velocities: seq<real>)
    requires ConfigOk(c) && |mapped| == 4 && |velocities| == 4
    requires forall g :: 0 <= g < 4 ==> mapped[g] == Number(0.0)
    requires forall g :: 0 <= g < 4 ==> Ok(velocities[g]) == Convert(c, mapped[g])
    ensures velocities == Idle(c)
  {
    hide Convert;
    ConvertLimits(c, Number(0.0));
    forall g | 0 <= g < 4 ensures velocities[g] == c.minVelocity {
      assert Ok(velocities[g]) == Convert(c, mapped[g]);
    }
  }
}
