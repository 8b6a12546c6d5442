/** What the parser and the request loop do, byte by byte: checksums by the parity of their bits, markers by
    their values. */
module MspMeaning {
  import opened Bits
  import opened Wrappers
  import opened Msp
  import opened MspStream
  import opened MspClient

  // ---- Parity ----

  // A binary digit.
  function BitOf(a: nat, bit: nat): nat {
    a / PowerOfTwo(bit) % 2
  }

  // How many of the bytes have a given bit set.
  function Ones(bytes: Bytes, bit: nat): nat {
    if bytes == [] then 0
    else Ones(bytes[..|bytes| - 1], bit) + BitOf(bytes[|bytes| - 1], bit)
  }

  /** Every bit is set in an even number of the bytes: their exclusive-or is zero. */
  predicate EvenParity(bytes: Bytes) {
    forall bit: nat :: bit < 8 ==> Ones(bytes, bit) % 2 == 0
  }

  lemma BitIsDown(a: nat, bit: nat)
    ensures BitOf(a, bit) == Down(bit, a) % 2
  {
    hide PowerOfTwo, Down;
    DownIsQuotient(bit, a);
  }

  lemma LastBit(a: nat, b: nat)
    ensures Xor(a, b) % 2 == (a % 2 + b % 2) % 2
  {
    hide Xor;
    XorParity(a, b);
  }

  lemma XorBit(a: nat, b: nat, bit: nat)
    ensures BitOf(Xor(a, b), bit) == (BitOf(a, bit) + BitOf(b, bit)) % 2
  {
    hide *;
    BitIsDown(a, bit);
    BitIsDown(b, bit);
    BitIsDown(Xor(a, b), bit);
    DownLinear(bit, a, b);
    LastBit(Down(bit, a), Down(bit, b));
  }

  lemma {:induction false} SameBits(n: nat, a: nat, b: nat)
    requires a < PowerOfTwo(n) && b < PowerOfTwo(n)
    requires forall bit: nat :: bit < n ==> BitOf(a, bit) == BitOf(b, bit)
    ensures a == b
  {
    if n > 0 {
      forall bit: nat | bit < n - 1 ensures BitOf(a / 2, bit) == BitOf(b / 2, bit) {
        HalfThenDivide(PowerOfTwo(bit), a);
        HalfThenDivide(PowerOfTwo(bit), b);
        assert BitOf(a, bit + 1) == BitOf(b, bit + 1);
      }
      SameBits(n - 1, a / 2, b / 2);
      assert BitOf(a, 0) == BitOf(b, 0);
    }
  }

  lemma ParityAdds(a: nat, b: nat, c: nat)
    ensures ((a + b) % 2 + c) % 2 == (a + (b + c)) % 2
  {
  }

  lemma OneBit(a: nat, bit: nat)
    ensures 0 <= BitOf(a, bit) <= 1
  {
  }

  lemma {:induction false} FoldBit(value: Byte, payload: Bytes, bit: nat)
    ensures BitOf(XorFold(value, payload), bit) == (BitOf(value, bit) + Ones(payload, bit)) % 2
    decreases |payload|
  {
    hide Xor, PowerOfTwo, BitOf;
    if payload == [] {
      OneBit(value, bit);
    } else {
      var n := |payload| - 1;
      FoldBit(value, payload[..n], bit);
      XorBit(XorFold(value, payload[..n]), payload[n], bit);
      ParityAdds(BitOf(value, bit), Ones(payload[..n], bit), BitOf(payload[n], bit));
    }
  }

  lemma CheckBit(size: Byte, command: Byte, payload: Bytes, bit: nat)
    ensures BitOf(CheckByte(size, command, payload), bit)
         == (BitOf(size, bit) + BitOf(command, bit) + Ones(payload, bit)) % 2
  {
    hide Xor, PowerOfTwo, XorFold, BitOf;
    FoldBit(XorByte(size, command), payload, bit);
    XorBit(size, command, bit);
  }

  lemma {:induction false} OnesAppend(m: Bytes, n: Bytes, bit: nat)
    ensures Ones(m + n, bit) == Ones(m, bit) + Ones(n, bit)
    decreases |n|
  {
    hide PowerOfTwo;
    if n == [] {
      assert m + n == m;
    } else {
      var k := |n| - 1;
      assert (m + n)[..|m + n| - 1] == m + n[..k];
      OnesAppend(m, n[..k], bit);
    }
  }

  lemma OnesOfOne(b: Byte, bit: nat)
    ensures Ones([b], bit) == BitOf(b, bit)
  {
    assert [b][..0] == [];
  }

  lemma OnesOfBody(size: Byte, command: Byte, payload: Bytes, check: Byte, bit: nat)
    ensures Ones([size, command] + payload + [check], bit)
         == BitOf(size, bit) + BitOf(command, bit) + Ones(payload, bit) + BitOf(check, bit)
  {
    hide PowerOfTwo, BitOf, Ones;
    assert [size, command] == [size] + [command];
    OnesAppend([size, command] + payload, [check], bit);
    OnesAppend([size, command], payload, bit);
    OnesAppend([size], [command], bit);
    OnesOfOne(size, bit);
    OnesOfOne(command, bit);
    OnesOfOne(check, bit);
  }

  /** The checksum byte is the one that makes the parity of size, command, payload and checksum even. */
  lemma ChecksumIsEvenParity(size: Byte, command: Byte, payload: Bytes, check: Byte)
    ensures EvenParity([size, command] + payload + [check]) <==> check == CheckByte(size, command, payload)
  {
    hide PowerOfTwo, BitOf, Ones, CheckByte;
    var body := [size, command] + payload + [check];
    forall bit: nat | bit < 8
      ensures Ones(body, bit) % 2 == 0 <==> BitOf(check, bit) == BitOf(CheckByte(size, command, payload), bit)
    {
      OnesOfBody(size, command, payload, check, bit);
      CheckBit(size, command, payload, bit);
      OneBit(check, bit);
      OneBit(CheckByte(size, command, payload), bit);
    }
    if EvenParity(body) {
      LargePowers();
      SameBits(8, check, CheckByte(size, command, payload));
    }
  }

  // ---- The parser ----

  // The marks "$M>" and "$M!".
  predicate StartsResponse(b: Bytes) {
    |b| >= 3 && b[0] == 0x24 && b[1] == 0x4D && (b[2] == 0x3E || b[2] == 0x21)
  }

  /** One call of the parser, by cases of the buffer: it waits while fewer than three bytes, or fewer than a whole
      frame, are there; drops a byte that starts no response; and reports a whole frame, parsed if and only if the
      parity of its size, command, payload and checksum is even, with exactly its command, its payload and the
      error flag of the '!' mark, leaving exactly what follows the frame. */
  lemma ParserMeaning(b: Bytes)
    ensures |b| < 3 ==> TryParse(b) == (NeedMore, b)
    ensures |b| >= 3 && !StartsResponse(b) ==> TryParse(b) == TryParse(b[1..])
    ensures StartsResponse(b) && (|b| < 6 || |b| < 6 + b[3] as int) ==> TryParse(b) == (NeedMore, b)
    ensures StartsResponse(b) && |b| >= 6 && |b| >= 6 + b[3] as int ==>
              var size: nat := b[3];
              && TryParse(b).1 == b[6 + size..]
              && (if EvenParity(b[3..6 + size])
                  then TryParse(b).0 == Parsed(Response(b[4], b[5..5 + size], b[2] == 0x21))
                  else TryParse(b).0.BadChecksum? && TryParse(b).0.command == b[4])
  {
    hide CheckByte, EvenParity;
    if StartsResponse(b) && |b| >= 6 && |b| >= 6 + b[3] as int {
      var size: nat := b[3];
      assert b[3..6 + size] == [b[3], b[4]] + b[5..5 + size] + [b[5 + size]];
      ChecksumIsEvenParity(b[3], b[4], b[5..5 + size], b[5 + size]);
    }
  }

  /** A request is "$M<", the length, the command, the payload and the byte that makes their parity even. */
  lemma RequestBytes(command: int, payload: Bytes)
    requires 0 <= command <= 255 && |payload| <= 255
    ensures var request := BuildRequest(command, payload);
            && request.Ok? && |request.value| == 6 + |payload|
            && request.value[..5] == [0x24, 0x4D, 0x3C, |payload|, command]
            && request.value[5..5 + |payload|] == payload
            && EvenParity(request.value[3..])
  {
    hide CheckByte, EvenParity;
    var r := BuildRequest(command, payload).value;
    var check := CheckByte(|payload|, command, payload);
    assert r[3..] == [|payload|, command] + payload + [check];
    ChecksumIsEvenParity(|payload|, command, payload, check);
  }

  // ---- The request loop ----

  // A whole frame of a response, as it comes over the wire.
  predicate ResponseFrame(frame: Bytes, isError: bool, command: Byte, payload: Bytes) {
    && |payload| <= 255 && |frame| == 6 + |payload|
    && frame[..5] == [0x24, 0x4D, if isError then 0x21 else 0x3E, |payload|, command]
    && frame[5..5 + |payload|] == payload
    && EvenParity(frame[3..])
  }

  lemma FrameParsed(frame: Bytes, isError: bool, command: Byte, payload: Bytes, tail: Bytes)
    requires ResponseFrame(frame, isError, command, payload)
    ensures TryParse(frame + tail) == (Parsed(Response(command, payload, isError)), tail)
    ensures StartsResponse(frame + tail)
  {
    hide EvenParity, TryParse;
    var b := frame + tail;
    var size := |payload|;
    assert forall k :: 0 <= k < 5 ==> b[k] == frame[..5][k];
    assert b[3..6 + size] == frame[3..];
    assert b[5..5 + size] == frame[5..5 + size];
    assert b[6 + size..] == tail;
    ParserMeaning(b);
  }

  lemma {:induction false} GarbageSkipped(garbage: Bytes, b: Bytes)
    requires StartsResponse(b) && forall i :: 0 <= i < |garbage| ==> !StartsResponse((garbage + b)[i..])
    ensures TryParse(garbage + b) == TryParse(b)
    decreases |garbage|
  {
    hide TryParse;
    if garbage == [] {
      assert garbage + b == b;
    } else {
      var all := garbage + b;
      assert all[0..] == all;
      assert all[1..] == garbage[1..] + b;
      forall i | 0 <= i < |garbage[1..]| ensures !StartsResponse((garbage[1..] + b)[i..]) {
        assert (garbage[1..] + b)[i..] == all[i + 1..];
      }
      ParserMeaning(all);
      GarbageSkipped(garbage[1..], b);
    }
  }

  // No response starts within the garbage before the frame.
  predicate OnlyGarbage(garbage: Bytes, rest: Bytes) {
    forall i :: 0 <= i < |garbage| ==> !StartsResponse((garbage + rest)[i..])
  }

  /** Behind garbage, a response with the requested command ends the request: with its payload, or as an error
      response if it carries the '!' mark; what follows it stays in the buffer. */
  lemma MatchingResponseAnswers(garbage: Bytes, frame: Bytes, isError: bool, command: Byte, payload: Bytes, tail: Bytes,
                                ticks: nat, recvs: seq<Recv>)
    requires ResponseFrame(frame, isError, command, payload) && OnlyGarbage(garbage, frame + tail) && ticks > 0
    ensures Await(garbage + (frame + tail), ticks, recvs, command)
         == Ending(if isError then ErrorResponse else Payload(payload), tail, 0)
  {
    hide TryParse, EvenParity, StartsResponse;
    FrameParsed(frame, isError, command, payload, tail);
    GarbageSkipped(garbage, frame + tail);
  }

  /** A response with another command is skipped, whatever its mark, at the cost of one turn of the loop. */
  lemma OtherResponseSkipped(garbage: Bytes, frame: Bytes, isError: bool, other: Byte, payload: Bytes, tail: Bytes,
                             ticks: nat, recvs: seq<Recv>, command: int)
    requires ResponseFrame(frame, isError, other, payload) && OnlyGarbage(garbage, frame + tail)
    requires ticks > 0 && other != command
    ensures Await(garbage + (frame + tail), ticks, recvs, command) == Await(tail, ticks - 1, recvs, command)
  {
    hide TryParse, EvenParity, StartsResponse;
    FrameParsed(frame, isError, other, payload, tail);
    GarbageSkipped(garbage, frame + tail);
  }

  /** A whole frame of odd parity ends the request as corrupt, whatever its command, and is dropped. */
  lemma CorruptResponseRaises(b: Bytes, ticks: nat, recvs: seq<Recv>, command: int)
    requires StartsResponse(b) && |b| >= 6 && |b| >= 6 + b[3] as int && !EvenParity(b[3..6 + b[3] as int])
    requires ticks > 0
    ensures Await(b, ticks, recvs, command).reply.Corrupt?
    ensures Await(b, ticks, recvs, command).buffer == b[6 + b[3] as int..]
    ensures Await(b, ticks, recvs, command).used == 0
  {
    hide TryParse, EvenParity, StartsResponse;
    ParserMeaning(b);
  }

  /** With no whole frame in the buffer a turn of the loop takes the next of what is received: bytes are appended,
      a timeout changes nothing, and the empty answer of a closed connection ends the request. Past the deadline
      it has timed out. */
  lemma WaitingMeaning(buffer: Bytes, ticks: nat, recvs: seq<Recv>, command: int)
    requires |buffer| < 3 || (StartsResponse(buffer) && (|buffer| < 6 || |buffer| < 6 + buffer[3] as int))
    ensures ticks == 0 ==> Await(buffer, ticks, recvs, command) == Ending(TimedOut, buffer, 0)
    ensures ticks > 0 && recvs != [] && recvs[0] == Data([]) ==>
              Await(buffer, ticks, recvs, command) == Ending(ConnectionClosed, buffer, 1)
    ensures ticks > 0 && recvs != [] && recvs[0] != Data([]) ==>
              var next := if recvs[0].Data? then buffer + recvs[0].bytes else buffer;
              var later := Await(next, ticks - 1, recvs[1..], command);
              Await(buffer, ticks, recvs, command) == later.(used := later.used + 1)
  {
    hide TryParse, StartsResponse;
    ParserMeaning(buffer);
    assert buffer + [] == buffer;
  }
}
