/** The MSP v1 response parser, which works on a growing byte buffer. */
module Msp {
  import opened Bits
  import opened Wrappers

  const DOLLAR: Byte := 0x24
  const LETTER_M: Byte := 0x4D
  const TO_MASTER: Byte := 0x3E    // '>'
  const FROM_MASTER: Byte := 0x3C  // '<'
  const ERROR_MARK: Byte := 0x21   // '!'

  datatype Response = Response(command: Byte, payload: Bytes, isError: bool)

  // What one call of the parser reports. BadChecksum is the exception it raises.
  datatype Outcome =
    | NeedMore
    | Parsed(response: Response)
    | BadChecksum(command: Byte, expected: Byte, actual: Byte)

  function XorFold(value: Byte, payload: Bytes): Byte
    decreases |payload|
  {
    if payload == [] then value
    else XorByte(XorFold(value, payload[..|payload| - 1]), payload[|payload| - 1])
  }

  function CheckByte(size: Byte, command: Byte, payload: Bytes): Byte {
    XorFold(XorByte(size, command), payload)
  }

  /** The running exclusive-or over size, command and payload. */
  method Checksum(size: Byte, command: Byte, payload: Bytes) returns (value: Byte)
    ensures value == CheckByte(size, command, payload)
  {
    value := XorByte(size, command);
    for i := 0 to |payload|
      invariant value == XorFold(XorByte(size, command), payload[..i])
    {
      assert payload[..i + 1][..i] == payload[..i];
      value := XorByte(value, payload[i]);
    }
    assert payload[..|payload|] == payload;
  }

  // ---- Specification ----

  predicate HeaderAt(b: Bytes, i: nat) {
    i + 3 <= |b| && b[i] == DOLLAR && b[i + 1] == LETTER_M && (b[i + 2] == TO_MASTER || b[i + 2] == ERROR_MARK)
  }

  // Drops bytes until a response header leads or fewer than three bytes are left.
  function Resync(b: Bytes): (r: Bytes)
    ensures |r| <= |b|
    ensures |r| < 3 || HeaderAt(r, 0)
    decreases |b|
  {
    if |b| < 3 || HeaderAt(b, 0) then b else Resync(b[1..])
  }

  function FrameSize(b: Bytes): nat
    requires |b| >= 4
  {
    6 + b[3] as int
  }

  // The frame leading the synchronised buffer is complete.
  predicate Complete(b: Bytes) {
    |b| >= 6 && |b| >= FrameSize(b)
  }

  function Judge(mark: Byte, size: Byte, command: Byte, payload: Bytes, actual: Byte): (r: Outcome)
    ensures r != NeedMore
  {
    var expected := CheckByte(size, command, payload);
    if actual != expected then BadChecksum(command, expected, actual)
    else Parsed(Response(command, payload, mark == ERROR_MARK))
  }

  function FrameOutcome(b: Bytes): (r: Outcome)
    requires Complete(b)
    ensures r != NeedMore
  {
    var size: nat := b[3];
    Judge(b[2], b[3], b[4], b[5..5 + size], b[5 + size])
  }

  // One call of the parser: what it reports and what it leaves in the buffer.
  function TryParse(b: Bytes): (r: (Outcome, Bytes))
    ensures |r.1| <= |b| && (r.0 != NeedMore ==> |r.1| < |b|)
    ensures r.0 == NeedMore <==> !Complete(Resync(b))
    ensures r.0 == NeedMore ==> r.1 == Resync(b)
  {
    var synced := Resync(b);
    if Complete(synced) then (FrameOutcome(synced), synced[FrameSize(synced)..]) else (NeedMore, synced)
  }

  // ---- The parser ----

  /** The caller's byte buffer, which the parser eats from the front. */
  class ByteArray {
    var bytes: Bytes

    constructor (initial: Bytes)
      ensures bytes == initial
    {
      bytes := initial;
    }

    method DeleteFirst(n: nat)
      requires n <= |bytes|
      modifies this
      ensures bytes == old(bytes)[n..]
    {
      bytes := bytes[n..];
    }

    method Extend(chunk: Bytes)
      modifies this
      ensures bytes == old(bytes) + chunk
    {
      bytes := bytes + chunk;
    }
  }

  /** Deletes leading bytes from the buffer until it starts with a response header or runs short. */
  method Synchronise(buffer: ByteArray)
    modifies buffer
    ensures buffer.bytes == Resync(old(buffer.bytes))
  {
    while |buffer.bytes| >= 3
      invariant Resync(buffer.bytes) == Resync(old(buffer.bytes))
      decreases |buffer.bytes|
    {
      var b := buffer.bytes;
      assert b[..2] == [b[0], b[1]];
      if b[..2] != [DOLLAR, LETTER_M] {
        assert !HeaderAt(b, 0);
        buffer.DeleteFirst(1);
        continue;
      }
      assert b[0] == b[..2][0] && b[1] == b[..2][1];
      if b[2] != TO_MASTER && b[2] != ERROR_MARK {
        buffer.DeleteFirst(1);
        continue;
      }
      break;
    }
  }

  /** Reads the complete frame at the head of the buffer. */
  method ReadFrame(buffer: Bytes) returns (outcome: Outcome)
    requires Complete(buffer)
    ensures outcome == FrameOutcome(buffer)
  {
    var size: nat := buffer[3];
    var command := buffer[4];
    var payload := buffer[5..5 + size];
    var expected := Checksum(buffer[3], command, payload);
    var actual := buffer[FrameSize(buffer) - 1];
    if actual != expected {
      return BadChecksum(command, expected, actual);
    }
    outcome := Parsed(Response(command, payload, buffer[2] == ERROR_MARK));
  }

  /** One call of the parser on the caller's buffer. */
  method TryParseResponse(buffer: ByteArray) returns (outcome: Outcome)
    modifies buffer
    ensures outcome == TryParse(old(buffer.bytes)).0 && buffer.bytes == TryParse(old(buffer.bytes)).1
  {
    Synchronise(buffer);
    if |buffer.bytes| < 6 {
      return NeedMore;
    }
    var frameSize := 3 + 1 + 1 + buffer.bytes[3] as int + 1;
    if |buffer.bytes| < frameSize {
      return NeedMore;
    }
    outcome := ReadFrame(buffer.bytes);
    buffer.DeleteFirst(frameSize);
  }

  // ---- Frames ----

  function Frame(mark: Byte, command: Byte, payload: Bytes): Bytes
    requires |payload| <= 255
  {
    [DOLLAR, LETTER_M, mark, |payload|, command] + payload
      + [CheckByte(|payload|, command, payload)]
  }

  datatype RequestError = CommandOutOfRange | PayloadTooLong

  function BuildRequest(command: int, payload: Bytes): Result<Bytes, RequestError> {
    if !(0 <= command <= 255) then Err(CommandOutOfRange)
    else if |payload| > 255 then Err(PayloadTooLong)
    else Ok(Frame(FROM_MASTER, command, payload))
  }

  ghost predicate NoHeader(b: Bytes) {
    forall i: nat :: !HeaderAt(b, i)
  }
}
