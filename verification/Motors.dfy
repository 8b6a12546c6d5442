/** From motor datagrams to rotor velocities: reordering, mapping, conversion and the failsafe loop. */
module Motors {
  import opened Wrappers

  const SERVO_PACKET_SIZE := 16

  // A datagram as the receive loop sees it: its size, the four floats at its start, and the clock reading taken
  // when it is handled, in nanoseconds.
  datatype Datagram = Datagram(size: nat, speeds: seq<Double>, at: int)

  predicate Shaped(d: Datagram) {
    |d.speeds| == 4
  }

  // The motor section of the configuration, after validation.
  datatype MotorConfig = MotorConfig(map_: seq<int>, minVelocity: real, maxVelocity: real, timeoutSeconds: Double)

  predicate IsPermutation(map_: seq<int>) {
    && |map_| == 4
    && (forall i :: 0 <= i < 4 ==> 0 <= map_[i] < 4)
    && (forall i, j :: 0 <= i < j < 4 ==> map_[i] != map_[j])
  }

  predicate ConfigOk(c: MotorConfig) {
    IsPermutation(c.map_) && 0.0 <= c.minVelocity < c.maxVelocity
  }

  // Betaflight's own motor order from the packet's [M2, M3, M4, M1].
  function SitlPacketToBetaflightMotorOrder(packetMotors: seq<Double>): (motors: seq<Double>)
    requires |packetMotors| == 4
    ensures |motors| == 4 && forall m :: 0 <= m < 4 ==> motors[m] == packetMotors[(m + 3) % 4]
  {
    [packetMotors[3], packetMotors[0], packetMotors[1], packetMotors[2]]
  }

  datatype ConvertError = NotFinite

  function Clamped(command: real): (r: real)
    ensures 0.0 <= r <= 1.0
  {
    if command < 0.0 then 0.0 else if command > 1.0 then 1.0 else command
  }

  function Portion(clamped: real, span: real): real {
    clamped * span
  }

  /** The velocity of a normalised command. */
  function Convert(c: MotorConfig, command: Double): (v: Result<real, ConvertError>)
    ensures v.Ok? <==> command.Number?
  {
    if !command.Number? then Err(NotFinite)
    else Ok(c.minVelocity + Portion(Clamped(command.value), c.maxVelocity - c.minVelocity))
  }

  lemma PositiveProduct(a: real, b: real)
    requires a > 0.0 && b > 0.0
    ensures a * b > 0.0
  {
  }

  lemma Share(clamped: real, span: real)
    requires 0.0 <= clamped <= 1.0 && span > 0.0
    ensures 0.0 <= Portion(clamped, span) <= span
    ensures Portion(clamped, span) == 0.0 <==> clamped == 0.0
    ensures Portion(clamped, span) == span <==> clamped == 1.0
  {
    if clamped > 0.0 { PositiveProduct(clamped, span); }
    if clamped < 1.0 { PositiveProduct(1.0 - clamped, span); }
  }

  /** Only a command that is not finite is refused. A velocity is within the limits, and at a limit exactly for
      the commands at or beyond that end. */
  lemma ConvertLimits(c: MotorConfig, command: Double)
    requires c.minVelocity < c.maxVelocity
    ensures Convert(c, command).Ok? <==> command.Number?
    ensures command.Number? ==>
              var v := Convert(c, command).value;
              && c.minVelocity <= v <= c.maxVelocity
              && (v == c.minVelocity <==> command.value <= 0.0)
              && (v == c.maxVelocity <==> command.value >= 1.0)
  {
    hide Portion;
    if command.Number? {
      Share(Clamped(command.value), c.maxVelocity - c.minVelocity);
    }
  }

  /** The conversion is linear between the ends: half way up a command is half way up in velocity. */
  lemma ConvertLinear(c: MotorConfig, a: real, b: real)
    requires c.minVelocity < c.maxVelocity && 0.0 <= a <= 1.0 && 0.0 <= b <= 1.0
    ensures Convert(c, Number((a + b) / 2.0)).value
         == (Convert(c, Number(a)).value + Convert(c, Number(b)).value) / 2.0
  {
    var span := c.maxVelocity - c.minVelocity;
    assert (a + b) / 2.0 * span == (a * span + b * span) / 2.0;
  }

  // ---- What should be published, from the history of datagrams alone ----

  predicate Valid(d: Datagram) {
    d.size == SERVO_PACKET_SIZE && forall i :: 0 <= i < |d.speeds| ==> d.speeds[i].Number?
  }

  // The position of the newest valid datagram, or -1.
  function NewestValid(history: seq<Datagram>): (n: int)
    ensures -1 <= n < |history|
    ensures n >= 0 ==> Valid(history[n])
    ensures forall k :: n < k < |history| ==> !Valid(history[k])
  {
    if history == [] then -1
    else if Valid(history[|history| - 1]) then |history| - 1
    else NewestValid(history[..|history| - 1])
  }

  function ValidCount(history: seq<Datagram>): (n: nat)
    ensures n <= |history|
  {
    if history == [] then 0
    else ValidCount(history[..|history| - 1]) + if Valid(history[|history| - 1]) then 1 else 0
  }

  predicate AllShaped(history: seq<Datagram>) {
    forall i :: 0 <= i < |history| ==> Shaped(history[i])
  }

  predicate Fresh(c: MotorConfig, d: Datagram, now: int) {
    AtMost(Number((now - d.at) as real / 1_000_000_000.0), c.timeoutSeconds)
  }

  // The velocity rotor g of the simulator gets from a valid packet.
  function RotorVelocity(c: MotorConfig, d: Datagram, g: nat): real
    requires ConfigOk(c) && Shaped(d) && Valid(d) && g < 4
  {
    Convert(c, SitlPacketToBetaflightMotorOrder(d.speeds)[c.map_[g]]).value
  }

  function PacketVelocities(c: MotorConfig, d: Datagram): (v: seq<real>)
    requires ConfigOk(c) && Shaped(d) && Valid(d)
    ensures |v| == 4
  {
    [RotorVelocity(c, d, 0), RotorVelocity(c, d, 1), RotorVelocity(c, d, 2), RotorVelocity(c, d, 3)]
  }

  function Idle(c: MotorConfig): seq<real> {
    [c.minVelocity, c.minVelocity, c.minVelocity, c.minVelocity]
  }

  /** The newest valid packet's velocities while it is within the timeout, the minimum velocity otherwise. */
  function Expected(c: MotorConfig, history: seq<Datagram>, now: int): (v: seq<real>)
    requires ConfigOk(c) && AllShaped(history)
    ensures |v| == 4
  {
    var n := NewestValid(history);
    if n >= 0 && Fresh(c, history[n], now) then PacketVelocities(c, history[n]) else Idle(c)
  }

  /** Everything published lies between the two velocity limits. */
  lemma ExpectedWithinLimits(c: MotorConfig, history: seq<Datagram>, now: int, g: nat)
    requires ConfigOk(c) && AllShaped(history) && g < 4
    ensures c.minVelocity <= Expected(c, history, now)[g] <= c.maxVelocity
  {
    hide Convert;
    var n := NewestValid(history);
    if n >= 0 {
      var motors := SitlPacketToBetaflightMotorOrder(history[n].speeds);
      assert motors[c.map_[g]].Number?;
      ConvertLimits(c, motors[c.map_[g]]);
    }
  }

  // The four velocities of a packet in the packet's own order.
  function Converted(c: MotorConfig, d: Datagram): (v: seq<real>)
    requires ConfigOk(c) && Shaped(d) && Valid(d)
    ensures |v| == 4
  {
    [Convert(c, d.speeds[0]).value, Convert(c, d.speeds[1]).value,
     Convert(c, d.speeds[2]).value, Convert(c, d.speeds[3]).value]
  }

  function Bag(p: real, q: real, r: real, s: real): multiset<real> {
    multiset{p} + multiset{q} + multiset{r} + multiset{s}
  }

  lemma SumsCommute(a: multiset<real>, b: multiset<real>, c: multiset<real>)
    ensures a + b == b + a && a + b + c == a + c + b
  {
  }

  lemma BagSwaps(p: real, q: real, r: real, s: real)
    ensures Bag(p, q, r, s) == Bag(q, p, r, s) == Bag(p, r, q, s) == Bag(p, q, s, r)
  {
    SumsCommute(multiset{p}, multiset{q}, multiset{r});
    SumsCommute(multiset{p} + multiset{q}, multiset{r}, multiset{s});
  }

  lemma BagOf(v: seq<real>)
    requires |v| == 4
    ensures multiset(v) == Bag(v[0], v[1], v[2], v[3])
  {
    assert v == [v[0]] + [v[1]] + [v[2]] + [v[3]];
  }

  // Sorting the four places by neighbour swaps keeps what stands there.
  lemma {:induction false} Rearranged(v: seq<real>, a: int, b: int, c: int, d: int)
    requires |v| == 4
    requires 0 <= a < 4 && 0 <= b < 4 && 0 <= c < 4 && 0 <= d < 4
    requires a != b && a != c && a != d && b != c && b != d && c != d
    ensures Bag(v[a], v[b], v[c], v[d]) == Bag(v[0], v[1], v[2], v[3])
    decreases 3 * a + 2 * b + c
  {
    hide Bag;
    if a > b {
      BagSwaps(v[b], v[a], v[c], v[d]);
      Rearranged(v, b, a, c, d);
    } else if b > c {
      BagSwaps(v[a], v[c], v[b], v[d]);
      Rearranged(v, a, c, b, d);
    } else if c > d {
      BagSwaps(v[a], v[b], v[d], v[c]);
      Rearranged(v, a, b, d, c);
    } else {
      assert a == 0 && b == 1 && c == 2 && d == 3;
    }
  }

  // The place in the packet of the value rotor g gets.
  function Source(c: MotorConfig, g: nat): (k: nat)
    requires ConfigOk(c) && g < 4
    ensures k < 4
  {
    (c.map_[g] + 3) % 4
  }

  lemma SourcesDiffer(c: MotorConfig, g: nat, h: nat)
    requires ConfigOk(c) && g < h < 4
    ensures Source(c, g) != Source(c, h)
  {
    var a, b := c.map_[g], c.map_[h];
    assert a != b && (a + 3) % 4 == (if a == 0 then 3 else a - 1) && (b + 3) % 4 == (if b == 0 then 3 else b - 1);
  }

  lemma RotorSource(c: MotorConfig, d: Datagram, g: nat)
    requires ConfigOk(c) && Shaped(d) && Valid(d) && g < 4
    ensures RotorVelocity(c, d, g) == Converted(c, d)[Source(c, g)]
  {
    hide Convert;
  }

  /** A fresh packet's velocities are a rearrangement of its four converted values; rotor g has the value of
      Betaflight motor map[g]. */
  lemma PacketVelocitiesPermute(c: MotorConfig, d: Datagram)
    requires ConfigOk(c) && Shaped(d) && Valid(d)
    ensures multiset(PacketVelocities(c, d)) == multiset(Converted(c, d))
    ensures forall g :: 0 <= g < 4 ==> PacketVelocities(c, d)[g] == Converted(c, d)[Source(c, g)]
  {
    hide RotorVelocity, Converted, Valid, Bag, Source, IsPermutation;
    SourcesDiffer(c, 0, 1);
    SourcesDiffer(c, 0, 2);
    SourcesDiffer(c, 0, 3);
    SourcesDiffer(c, 1, 2);
    SourcesDiffer(c, 1, 3);
    SourcesDiffer(c, 2, 3);
    var v := Converted(c, d);
    RotorSource(c, d, 0);
    RotorSource(c, d, 1);
    RotorSource(c, d, 2);
    RotorSource(c, d, 3);
    Rearranged(v, Source(c, 0), Source(c, 1), Source(c, 2), Source(c, 3));
    BagOf(v);
    BagOf(PacketVelocities(c, d));
  }

  /** The failsafe output is at rest only if the configured minimum is zero. */
  lemma TimeoutStopsRotors(c: MotorConfig, history: seq<Datagram>, now: int)
    requires ConfigOk(c) && AllShaped(history)
    requires NewestValid(history) < 0 || !Fresh(c, history[NewestValid(history)], now)
    ensures Expected(c, history, now) == [0.0, 0.0, 0.0, 0.0] <==> c.minVelocity == 0.0
  {
    assert Idle(c)[0] == c.minVelocity;
  }
}
