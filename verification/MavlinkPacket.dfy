/** The MAVLink 2 packet parser of the telemetry checkers. */
module MavlinkPacket {
  import opened Bits
  import opened Crc
  import opened CrcDetection
  import opened Wrappers

  const MAGIC: Byte := 0xFD

  // The message ids a checker knows, with their CRC extra bytes.
  type Extras = map<nat, Byte>

  const ODOMETRY_EXTRAS: Extras := map[0 := 50, 331 := 91]
  const RANGEFINDER_EXTRAS: Extras := map[0 := 50, 132 := 85, 330 := 23]

  datatype ParseError = NotMavlink2 | BadLength(length: nat, expected: nat) | BadChecksum

  datatype Packet = Packet(messageId: nat, systemId: Byte, componentId: Byte, payload: Bytes)

  function SignatureSize(incompatFlags: Byte): nat {
    if incompatFlags % 2 == 1 then 13 else 0
  }

  function MessageId(packet: Bytes): nat
    requires |packet| >= 12
  {
    packet[7] as int + 256 * packet[8] as int + 65536 * packet[9] as int
  }

  // What the checksum covers: everything between the magic and the checksum, and the extra byte.
  function Covered(packet: Bytes, extra: Byte): Bytes
    requires |packet| >= 12 && |packet| >= 10 + packet[1] as int
  {
    packet[1..10 + packet[1] as int] + [extra]
  }

  function ParsePacket(extras: Extras, packet: Bytes): Result<Packet, ParseError> {
    if |packet| < 12 || packet[0] != MAGIC then Err(NotMavlink2)
    else
      var size: nat := packet[1];
      var frameSize := 12 + size + SignatureSize(packet[2]);
      if |packet| != frameSize then Err(BadLength(|packet|, frameSize))
      else
        var id := MessageId(packet);
        if id in extras
           && packet[10 + size] as int + 256 * packet[11 + size] as int != CrcFrom(INITIAL, Covered(packet, extras[id]))
        then Err(BadChecksum)
        else Ok(Packet(id, packet[5], packet[6], packet[10..10 + size]))
  }

  /** A packet is accepted exactly when it starts with 0xFD, has the length its header says, thirteen more with the
      signature flag, and for a known message id carries the bit-serial CRC of everything from the length byte to
      the end of the payload and the id's extra byte. Its id and fields are those at their places. */
  lemma AcceptedMeaning(extras: Extras, packet: Bytes)
    ensures ParsePacket(extras, packet).Ok? <==>
              && |packet| >= 12 && packet[0] == 0xFD
              && var size: nat := packet[1];
              && |packet| == 12 + size + (if packet[2] % 2 == 1 then 13 else 0)
              && var id := packet[7] as int + 256 * packet[8] as int + 65536 * packet[9] as int;
              && (id in extras ==> packet[10 + size] as int + 256 * packet[11 + size] as int
                                   == BitCrc(0xFFFF, MessageBits(packet[1..10 + size] + [extras[id]])))
    ensures ParsePacket(extras, packet).Ok? ==>
              && |packet| >= 12 && |packet| >= 10 + packet[1] as int
              && var p := ParsePacket(extras, packet).value;
              && p.messageId == packet[7] as int + 256 * packet[8] as int + 65536 * packet[9] as int
              && p.systemId == packet[5] && p.componentId == packet[6]
              && p.payload == packet[10..10 + packet[1] as int]
  {
    hide CrcFrom, BitCrc, MessageBits;
    if |packet| >= 12 && |packet| >= 10 + packet[1] as int && MessageId(packet) in extras {
      BytewiseIsBitwise(INITIAL, Covered(packet, extras[MessageId(packet)]));
    }
  }

  /** The odometry checker checks HEARTBEAT with the extra byte 50 and ODOMETRY with 91, the rangefinder checker
      HEARTBEAT with 50, DISTANCE_SENSOR with 85 and OBSTACLE_DISTANCE with 23, and neither checks any other. */
  lemma CheckedMessages(id: nat)
    ensures id in ODOMETRY_EXTRAS <==> id == 0 || id == 331
    ensures id in RANGEFINDER_EXTRAS <==> id == 0 || id == 132 || id == 330
    ensures ODOMETRY_EXTRAS[0] == 50 && ODOMETRY_EXTRAS[331] == 91
    ensures RANGEFINDER_EXTRAS[0] == 50 && RANGEFINDER_EXTRAS[132] == 85 && RANGEFINDER_EXTRAS[330] == 23
  {
  }

  // ---- Error detection ----

  lemma {:induction false} CrcAppend(crc: nat, xs: Bytes, ys: Bytes)
    ensures CrcFrom(crc, xs + ys) == CrcFrom(CrcFrom(crc, xs), ys)
    decreases |ys|
  {
    hide StepByte;
    if ys == [] {
      assert xs + ys == xs;
    } else {
      var n := |ys| - 1;
      assert (xs + ys)[..|xs + ys| - 1] == xs + ys[..n];
      CrcAppend(crc, xs, ys[..n]);
    }
  }

  lemma CrcAroundPair(crc: nat, m: Bytes, j: nat)
    requires crc < 65536 && j + 2 <= |m|
    ensures CrcFrom(crc, m) == CrcFrom(StepByte(StepByte(CrcFrom(crc, m[..j]), m[j]), m[j + 1]), m[j + 2..])
    ensures StepByte(StepByte(CrcFrom(crc, m[..j]), m[j]), m[j + 1]) < 65536
  {
    hide StepByte;
    assert m == m[..j] + ([m[j], m[j + 1]] + m[j + 2..]);
    CrcAppend(crc, m[..j], [m[j], m[j + 1]] + m[j + 2..]);
    CrcAppend(CrcFrom(crc, m[..j]), [m[j], m[j + 1]], m[j + 2..]);
    CrcOfPair(CrcFrom(crc, m[..j]), m[j], m[j + 1]);
    CrcBound(crc, m[..j]);
    CrcBound(CrcFrom(crc, m[..j]), [m[j], m[j + 1]]);
  }

  /** Two messages of any length that differ in at most two adjacent bytes and have the same checksum are the
      same message. */
  lemma AdjacentChangeDetected(m: Bytes, n: Bytes, j: nat)
    requires |m| == |n| && j + 2 <= |m|
    requires forall k :: 0 <= k < |m| && k != j && k != j + 1 ==> m[k] == n[k]
    requires CrcFrom(INITIAL, m) == CrcFrom(INITIAL, n)
    ensures m == n
  {
    hide StepByte;
    assert m[..j] == n[..j] && m[j + 2..] == n[j + 2..];
    CrcAroundPair(INITIAL, m, j);
    CrcAroundPair(INITIAL, n, j);
    var c := CrcFrom(INITIAL, m[..j]);
    CrcBound(INITIAL, m[..j]);
    CrcStateInjective(StepByte(StepByte(c, m[j]), m[j + 1]), StepByte(StepByte(c, n[j]), n[j + 1]), m[j + 2..]);
    TwoBytesInjective(c, m[j], m[j + 1], n[j], n[j + 1]);
  }

  lemma SameWhereCovered(packet: Bytes, corrupt: Bytes, extra: Byte)
    requires |packet| >= 12 && |packet| >= 10 + packet[1] as int && |corrupt| == |packet| && corrupt[1] == packet[1]
    requires Covered(packet, extra) == Covered(corrupt, extra)
    requires forall k :: 0 <= k < |packet| && !(1 <= k < 10 + packet[1] as int) ==> corrupt[k] == packet[k]
    ensures corrupt == packet
  {
    var m := Covered(packet, extra);
    forall k | 1 <= k < 10 + packet[1] as int ensures corrupt[k] == packet[k] {
      assert m[k - 1] == packet[k] && Covered(corrupt, extra)[k - 1] == corrupt[k];
    }
  }

  /** Corrupting the payload of an accepted packet with a known message id within two adjacent bytes, in any
      way, always makes the parser report a bad checksum. */
  lemma PayloadCorruptionRejected(extras: Extras, packet: Bytes, corrupt: Bytes, i: nat)
    requires ParsePacket(extras, packet).Ok? && MessageId(packet) in extras
    requires |corrupt| == |packet| && corrupt != packet
    requires 10 <= i < 10 + packet[1] as int
    requires forall k :: 0 <= k < |packet| && !(i <= k <= i + 1 && k < 10 + packet[1] as int) ==> corrupt[k] == packet[k]
    ensures ParsePacket(extras, corrupt) == Err(BadChecksum)
  {
    hide CrcFrom;
    var extra := extras[MessageId(packet)];
    var m, n := Covered(packet, extra), Covered(corrupt, extra);
    assert forall k :: 0 <= k < |m| - 1 ==> m[k] == packet[k + 1] && n[k] == corrupt[k + 1];
    if CrcFrom(INITIAL, m) == CrcFrom(INITIAL, n) {
      AdjacentChangeDetected(m, n, i - 1);
      SameWhereCovered(packet, corrupt, extra);
    }
  }

  function PayloadOf(packet: Bytes): Bytes
    requires |packet| >= 12 && |packet| >= 10 + packet[1] as int
  {
    packet[10..10 + packet[1] as int]
  }

  // The packets differ in at most sixteen consecutive bits of the payload.
  predicate PayloadBurst(packet: Bytes, corrupt: Bytes, i: nat, w: nat)
    requires |packet| >= 12 && |packet| >= 10 + packet[1] as int
  {
    && |corrupt| == |packet| && corrupt[..10] == packet[..10]
    && corrupt[10 + packet[1] as int..] == packet[10 + packet[1] as int..]
    && w <= 16 && i + w <= 8 * packet[1] as int
    && AgreeOutside(MessageBits(packet[10..10 + packet[1] as int]), MessageBits(corrupt[10..10 + packet[1] as int]), i, w)
  }

  lemma CoveredParts(packet: Bytes, extra: Byte)
    requires |packet| >= 12 && |packet| >= 10 + packet[1] as int
    ensures Covered(packet, extra) == packet[1..10] + (PayloadOf(packet) + [extra])
    ensures |Covered(packet, extra)| == 10 + packet[1] as int
  {
  }

  // Bits that agree outside a window still do with the same bits put before and behind them.
  lemma ShiftedWindow(head: seq<nat>, xs: seq<nat>, ys: seq<nat>, tail: seq<nat>, i: nat, w: nat)
    requires AgreeOutside(xs, ys, i, w)
    ensures AgreeOutside(head + (xs + tail), head + (ys + tail), |head| + i, w)
  {
  }

  lemma CoveredAgree(packet: Bytes, corrupt: Bytes, extra: Byte, i: nat, w: nat)
    requires |packet| >= 12 && |packet| >= 10 + packet[1] as int
    requires PayloadBurst(packet, corrupt, i, w)
    ensures |corrupt| >= 12 && |corrupt| >= 10 + corrupt[1] as int
    ensures AgreeOutside(MessageBits(Covered(packet, extra)), MessageBits(Covered(corrupt, extra)), 72 + i, w)
  {
    hide MessageBits, AgreeOutside;
    CoveredParts(packet, extra);
    CoveredParts(corrupt, extra);
    assert corrupt[1] == corrupt[..10][1] == packet[..10][1];
    assert corrupt[1..10] == corrupt[..10][1..] == packet[1..10];
    var head := packet[1..10];
    MessageBitsShape(head);
    MessageBitsAppend(head, PayloadOf(packet) + [extra]);
    MessageBitsAppend(head, PayloadOf(corrupt) + [extra]);
    MessageBitsAppend(PayloadOf(packet), [extra]);
    MessageBitsAppend(PayloadOf(corrupt), [extra]);
    ShiftedWindow(MessageBits(head), MessageBits(PayloadOf(packet)), MessageBits(PayloadOf(corrupt)),
                  MessageBits([extra]), i, w);
  }

  lemma SamePayloadSamePacket(packet: Bytes, corrupt: Bytes, extra: Byte)
    requires |packet| >= 12 && |packet| >= 10 + packet[1] as int
    requires |corrupt| == |packet| && corrupt[..10] == packet[..10]
    requires corrupt[10 + packet[1] as int..] == packet[10 + packet[1] as int..]
    requires Covered(packet, extra) == Covered(corrupt, extra)
    ensures corrupt == packet
  {
    var end := 10 + packet[1] as int;
    assert corrupt[1] == corrupt[..10][1] == packet[..10][1];
    CoveredParts(packet, extra);
    CoveredParts(corrupt, extra);
    var m, n := Covered(packet, extra), Covered(corrupt, extra);
    assert PayloadOf(packet) == m[9..end - 1] && PayloadOf(corrupt) == n[9..end - 1];
    assert packet == packet[..10] + packet[10..end] + packet[end..];
    assert corrupt == corrupt[..10] + corrupt[10..end] + corrupt[end..];
  }

  lemma ParsedAlike(extras: Extras, packet: Bytes, corrupt: Bytes)
    requires ParsePacket(extras, packet).Ok? && MessageId(packet) in extras
    requires |corrupt| == |packet| && corrupt[..10] == packet[..10]
    requires corrupt[10 + packet[1] as int..] == packet[10 + packet[1] as int..]
    ensures var extra := extras[MessageId(packet)];
            CrcFrom(INITIAL, Covered(packet, extra)) != CrcFrom(INITIAL, Covered(corrupt, extra))
            ==> ParsePacket(extras, corrupt) == Err(BadChecksum)
  {
    hide CrcFrom, Covered;
    var end := 10 + packet[1] as int;
    assert forall k :: 0 <= k < 10 ==> corrupt[k] == corrupt[..10][k] == packet[..10][k];
    assert corrupt[end] == corrupt[end..][0] == packet[end..][0];
    assert corrupt[end + 1] == corrupt[end..][1] == packet[end..][1];
  }

  /** Any burst of at most sixteen bits in the payload of an accepted packet with a known message id, wherever it
      starts, makes the parser report a bad checksum. */
  lemma PayloadBurstRejected(extras: Extras, packet: Bytes, corrupt: Bytes, i: nat, w: nat)
    requires ParsePacket(extras, packet).Ok? && MessageId(packet) in extras
    requires corrupt != packet && PayloadBurst(packet, corrupt, i, w)
    ensures ParsePacket(extras, corrupt) == Err(BadChecksum)
  {
    hide CrcFrom, MessageBits, AgreeOutside;
    var extra := extras[MessageId(packet)];
    ParsedAlike(extras, packet, corrupt);
    CoveredAgree(packet, corrupt, extra, i, w);
    var m, n := Covered(packet, extra), Covered(corrupt, extra);
    if CrcFrom(INITIAL, m) == CrcFrom(INITIAL, n) {
      CoveredParts(packet, extra);
      CoveredParts(corrupt, extra);
      BurstDetected(INITIAL, m, n, 72 + i, w);
      SamePayloadSamePacket(packet, corrupt, extra);
    }
  }

  // ---- The two checkers ----

  /** The odometry checker detects every such burst in a HEARTBEAT or an ODOMETRY packet. */
  lemma OdometryCheckerDetects(packet: Bytes, corrupt: Bytes, i: nat, w: nat)
    requires ParsePacket(ODOMETRY_EXTRAS, packet).Ok? && MessageId(packet) in {0, 331}
    requires corrupt != packet && PayloadBurst(packet, corrupt, i, w)
    ensures ParsePacket(ODOMETRY_EXTRAS, corrupt) == Err(BadChecksum)
  {
    hide ParsePacket, MessageBits, AgreeOutside;
    PayloadBurstRejected(ODOMETRY_EXTRAS, packet, corrupt, i, w);
  }

  /** The rangefinder checker does so in a HEARTBEAT, a DISTANCE_SENSOR or an OBSTACLE_DISTANCE packet. */
  lemma RangefinderCheckerDetects(packet: Bytes, corrupt: Bytes, i: nat, w: nat)
    requires ParsePacket(RANGEFINDER_EXTRAS, packet).Ok? && MessageId(packet) in {0, 132, 330}
    requires corrupt != packet && PayloadBurst(packet, corrupt, i, w)
    ensures ParsePacket(RANGEFINDER_EXTRAS, corrupt) == Err(BadChecksum)
  {
    hide ParsePacket, MessageBits, AgreeOutside;
    PayloadBurstRejected(RANGEFINDER_EXTRAS, packet, corrupt, i, w);
  }

  // ---- Encoding ----

  // The nine bytes between the magic and the payload.
  function Header(incompat: Byte, compat: Byte, sequence: Byte, p: Packet): Bytes
    requires |p.payload| <= 255 && p.messageId < 0x100_0000
  {
    [|p.payload|, incompat, compat, sequence, p.systemId, p.componentId,
     p.messageId % 256, p.messageId / 256 % 256, p.messageId / 65536]
  }

  function Trailer(crc: nat): Bytes {
    [crc % 256, crc / 256 % 256]
  }

  // A MAVLink 2 frame around a payload, as a sender builds it.
  function Encode(incompat: Byte, compat: Byte, sequence: Byte, p: Packet, extra: Byte, signature: Bytes): Bytes
    requires |p.payload| <= 255 && p.messageId < 0x100_0000
  {
    var covered := Header(incompat, compat, sequence, p) + p.payload;
    [MAGIC] + covered + Trailer(CrcFrom(INITIAL, covered + [extra])) + signature
  }

  // The bytes of an encoded frame, one by one.
  lemma EncodedBytes(incompat: Byte, compat: Byte, sequence: Byte, p: Packet, extra: Byte, signature: Bytes)
    requires |p.payload| <= 255 && p.messageId < 0x100_0000
    ensures var packet := Encode(incompat, compat, sequence, p, extra, signature);
            var size := |p.payload|;
            var covered := Header(incompat, compat, sequence, p) + p.payload;
            var crc := CrcFrom(INITIAL, covered + [extra]);
            && |packet| == 12 + size + |signature|
            && packet[0] == MAGIC && packet[1] == size && packet[2] == incompat
            && packet[5] == p.systemId && packet[6] == p.componentId
            && packet[7] == p.messageId % 256 && packet[8] == p.messageId / 256 % 256 && packet[9] == p.messageId / 65536
            && packet[10 + size] == crc % 256 && packet[11 + size] == crc / 256 % 256
            && packet[1..10 + size] == covered && packet[10..10 + size] == p.payload
  {
    hide CrcFrom;
    var packet := Encode(incompat, compat, sequence, p, extra, signature);
    var covered := Header(incompat, compat, sequence, p) + p.payload;
    assert forall k :: 0 <= k < |covered| ==> packet[1 + k] == covered[k];
  }

  lemma IdOfBytes(id: nat)
    requires id < 0x100_0000
    ensures id % 256 + 256 * (id / 256 % 256) + 65536 * (id / 65536) == id
  {
  }

  /** Parsing undoes encoding. */
  lemma ParseOfEncode(extras: Extras, incompat: Byte, compat: Byte, sequence: Byte, p: Packet, signature: Bytes)
    requires |p.payload| <= 255 && p.messageId < 0x100_0000 && p.messageId in extras
    requires |signature| == if incompat % 2 == 1 then 13 else 0
    ensures ParsePacket(extras, Encode(incompat, compat, sequence, p, extras[p.messageId], signature)) == Ok(p)
  {
    hide CrcFrom, Encode, Header;
    var extra := extras[p.messageId];
    EncodedBytes(incompat, compat, sequence, p, extra, signature);
    IdOfBytes(p.messageId);
    CrcBound(INITIAL, Header(incompat, compat, sequence, p) + p.payload + [extra]);
  }

  // Three little-endian bytes are the digits of their number to the base 256.
  lemma IdBytes(low: Byte, middle: Byte, high: Byte)
    ensures var id := low as int + 256 * middle as int + 65536 * high as int;
            && 0 <= id < 0x100_0000
            && id % 256 == low as int && id / 256 % 256 == middle as int && id / 65536 == high as int
  {
    var id := low as int + 256 * middle as int + 65536 * high as int;
    assert id == low as int + 256 * (middle as int + 256 * high as int);
    assert id / 256 == middle as int + 256 * high as int;
  }

  lemma Joined(b: Bytes, i: nat, j: nat, k: nat)
    requires i <= j <= k <= |b|
    ensures b[i..k] == b[i..j] + b[j..k]
  {
  }

  lemma NineBytes(b: Bytes, h: Bytes)
    requires |b| >= 10 && |h| == 9
    requires b[1] == h[0] && b[2] == h[1] && b[3] == h[2] && b[4] == h[3] && b[5] == h[4]
    requires b[6] == h[5] && b[7] == h[6] && b[8] == h[7] && b[9] == h[8]
    ensures b[1..10] == h
  {
  }

  lemma HeaderOfParsed(packet: Bytes)
    requires |packet| >= 12 && |packet| >= 10 + packet[1] as int
    ensures var size: nat := packet[1];
            var p := Packet(MessageId(packet), packet[5], packet[6], packet[10..10 + size]);
            && p.messageId < 0x100_0000
            && packet[1..10 + size] == Header(packet[2], packet[3], packet[4], p) + p.payload
  {
    var size: nat := packet[1];
    IdBytes(packet[7], packet[8], packet[9]);
    var p := Packet(MessageId(packet), packet[5], packet[6], packet[10..10 + size]);
    NineBytes(packet, Header(packet[2], packet[3], packet[4], p));
    Joined(packet, 1, 10, 10 + size);
  }

  lemma TrailerOfParsed(low: Byte, high: Byte, crc: nat)
    requires low as int + 256 * high as int == crc
    ensures Trailer(crc) == [low, high]
  {
  }

  lemma Pieces(b: Bytes, i: nat, j: nat, k: nat)
    requires i <= j <= k <= |b|
    ensures b == b[..i] + b[i..j] + b[j..k] + b[k..]
  {
  }

  /** An accepted packet with a known message id is, byte for byte, the encoding of what was parsed from it. */
  lemma EncodeOfParse(extras: Extras, packet: Bytes)
    requires ParsePacket(extras, packet).Ok? && MessageId(packet) in extras
    ensures var p := ParsePacket(extras, packet).value;
            && |p.payload| <= 255 && p.messageId < 0x100_0000
            && |packet| >= 12 + |p.payload|
            && packet == Encode(packet[2], packet[3], packet[4], p, extras[p.messageId], packet[12 + |p.payload|..])
  {
    hide CrcFrom;
    var p := ParsePacket(extras, packet).value;
    var size: nat := packet[1];
    HeaderOfParsed(packet);
    var crc := CrcFrom(INITIAL, Covered(packet, extras[p.messageId]));
    TrailerOfParsed(packet[10 + size], packet[11 + size], crc);
    assert packet[10 + size..12 + size] == Trailer(crc);
    assert packet[..1] == [MAGIC];
    Pieces(packet, 1, 10 + size, 12 + size);
  }
}
