/** The parser over whole byte streams: chunking, resynchronisation, corruption. */
module MspStream {
  import opened Bits
  import opened Wrappers
  import opened Msp

  // ---- One step on a growing buffer ----

  lemma {:induction false} ResyncExtend(b: Bytes, c: Bytes)
    ensures Resync(b + c) == Resync(Resync(b) + c)
    decreases |b|
  {
    if |b| >= 3 && !HeaderAt(b, 0) {
      assert (b + c)[1..] == b[1..] + c;
      ResyncExtend(b[1..], c);
    }
  }

  lemma FrameExtend(synced: Bytes, c: Bytes)
    requires Complete(synced) && HeaderAt(synced, 0)
    ensures HeaderAt(synced + c, 0) && Complete(synced + c) && FrameSize(synced + c) == FrameSize(synced)
    ensures FrameOutcome(synced + c) == FrameOutcome(synced)
    ensures (synced + c)[FrameSize(synced)..] == synced[FrameSize(synced)..] + c
  {
    var longer := synced + c;
    var size: nat := synced[3];
    assert longer[2] == synced[2] && longer[3] == synced[3] && longer[4] == synced[4];
    assert longer[5..5 + size] == synced[5..5 + size];
    assert longer[5 + size] == synced[5 + size];
  }

  // A report, once made, does not depend on what arrives later.
  lemma TryParseReported(b: Bytes, c: Bytes)
    requires TryParse(b).0 != NeedMore
    ensures TryParse(b + c).0 == TryParse(b).0
    ensures TryParse(b + c).1 == TryParse(b).1 + c
  {
    ResyncExtend(b, c);
    FrameExtend(Resync(b), c);
  }

  // A call that needs more only drops bytes no later call could use.
  lemma TryParseWaiting(b: Bytes, c: Bytes)
    requires TryParse(b).0 == NeedMore
    ensures TryParse(b + c) == TryParse(TryParse(b).1 + c)
  {
    ResyncExtend(b, c);
  }

  // ---- The whole stream ----

  datatype Stream = Stream(reports: seq<Outcome>, leftover: Bytes)

  // Calls the parser until it needs more: the reports in order, and the leftover.
  function ParseAll(b: Bytes): Stream
    decreases |b|
  {
    var call := TryParse(b);
    if call.0 == NeedMore then Stream([], call.1) else Prepend(call.0, ParseAll(call.1))
  }

  function Prepend(outcome: Outcome, s: Stream): Stream {
    Stream([outcome] + s.reports, s.leftover)
  }

  // One call's outcome in front of what comes later.
  function Report(outcome: Outcome, later: Stream): Stream {
    if outcome == NeedMore then later else Prepend(outcome, later)
  }

  // The reports first and then everything the bytes behind them give.
  function Append(reports: seq<Outcome>, s: Stream): Stream {
    Stream(reports + s.reports, s.leftover)
  }

  lemma AppendPrepend(outcome: Outcome, reports: seq<Outcome>, s: Stream)
    ensures Append([outcome] + reports, s) == Prepend(outcome, Append(reports, s))
  {
    assert ([outcome] + reports) + s.reports == [outcome] + (reports + s.reports);
  }

  lemma AppendNothing(s: Stream)
    ensures Append([], s) == s
  {
    assert [] + s.reports == s.reports;
  }

  lemma {:induction false} ParseAllSplit(b: Bytes, c: Bytes)
    ensures ParseAll(b + c) == Append(ParseAll(b).reports, ParseAll(ParseAll(b).leftover + c))
    decreases |b|
  {
    var call := TryParse(b);
    if call.0 == NeedMore {
      TryParseWaiting(b, c);
      AppendNothing(ParseAll(call.1 + c));
      assert ParseAll(b + c) == ParseAll(call.1 + c);
    } else {
      TryParseReported(b, c);
      ParseAllSplit(call.1, c);
      AppendPrepend(call.0, ParseAll(call.1).reports, ParseAll(ParseAll(call.1).leftover + c));
    }
  }

  function Concat(chunks: seq<Bytes>): Bytes {
    if chunks == [] then [] else Concat(chunks[..|chunks| - 1]) + chunks[|chunks| - 1]
  }

  lemma {:induction false} ResyncIdempotent(b: Bytes)
    ensures Resync(Resync(b)) == Resync(b)
    decreases |b|
  {
    if |b| >= 3 && !HeaderAt(b, 0) { ResyncIdempotent(b[1..]); }
  }

  lemma WaitingIsStable(b: Bytes)
    requires TryParse(b).0 == NeedMore
    ensures ParseAll(TryParse(b).1) == Stream([], TryParse(b).1)
  {
    ResyncIdempotent(b);
    assert TryParse(b).1 == Resync(b) && TryParse(Resync(b)).0 == NeedMore;
  }

  lemma AppendOne(reports: seq<Outcome>, outcome: Outcome, s: Stream)
    ensures Append(reports, Prepend(outcome, s)) == Append(reports + [outcome], s)
  {
    assert reports + ([outcome] + s.reports) == (reports + [outcome]) + s.reports;
  }

  /** Calls the parser on the caller's buffer until it needs more bytes. */
  method Drain(buffer: ByteArray) returns (reports: seq<Outcome>)
    modifies buffer
    ensures Stream(reports, buffer.bytes) == ParseAll(old(buffer.bytes))
    ensures ParseAll(buffer.bytes) == Stream([], buffer.bytes)
  {
    reports := [];
    AppendNothing(ParseAll(buffer.bytes));
    while true
      invariant Append(reports, ParseAll(buffer.bytes)) == ParseAll(old(buffer.bytes))
      decreases |buffer.bytes|
    {
      ghost var before := buffer.bytes;
      var outcome := TryParseResponse(buffer);
      if outcome == NeedMore {
        WaitingIsStable(before);
        return;
      }
      AppendOne(reports, outcome, ParseAll(buffer.bytes));
      reports := reports + [outcome];
    }
  }

  /** Extends the buffer chunk by chunk and drains it after each: the same reports and the same leftover as
      parsing the bytes in one piece. */
  method ParseChunks(chunks: seq<Bytes>) returns (reports: seq<Outcome>, leftover: Bytes)
    ensures Stream(reports, leftover) == ParseAll(Concat(chunks))
  {
    reports := [];
    var buffer := new ByteArray([]);
    for i := 0 to |chunks|
      invariant fresh(buffer)
      invariant Stream(reports, buffer.bytes) == ParseAll(Concat(chunks[..i]))
    {
      assert chunks[..i + 1][..i] == chunks[..i];
      ParseAllSplit(Concat(chunks[..i]), chunks[i]);
      buffer.Extend(chunks[i]);
      var more := Drain(buffer);
      reports := reports + more;
    }
    assert chunks[..|chunks|] == chunks;
    leftover := buffer.bytes;
  }

  // ---- Any interleaving of receiving and parsing ----

  datatype Op = Extend(chunk: Bytes) | Parse

  // The reports made and the buffer left after a history of operations.
  function RunOps(buffer: Bytes, ops: seq<Op>): Stream
    decreases |ops|
  {
    if ops == [] then Stream([], buffer)
    else
      match ops[0]
      case Extend(chunk) => RunOps(buffer + chunk, ops[1..])
      case Parse =>
        Report(TryParse(buffer).0, RunOps(TryParse(buffer).1, ops[1..]))
  }

  function Chunk(op: Op): Bytes {
    match op
    case Extend(chunk) => chunk
    case Parse => []
  }

  function Fed(ops: seq<Op>): Bytes
    decreases |ops|
  {
    if ops == [] then [] else Chunk(ops[0]) + Fed(ops[1..])
  }

  /** However receiving and parsing interleave, the reports made so far followed by those still in the buffer
      are exactly the reports of the bytes received, in order, and the final leftover is the same. */
  lemma {:induction false} InterleavingIndependent(buffer: Bytes, ops: seq<Op>)
    ensures ParseAll(buffer + Fed(ops))
            == Append(RunOps(buffer, ops).reports, ParseAll(RunOps(buffer, ops).leftover))
    decreases |ops|
  {
    if ops == [] {
      assert buffer + Fed(ops) == buffer;
      AppendNothing(ParseAll(buffer));
    } else if ops[0].Extend? {
      assert buffer + Fed(ops) == (buffer + ops[0].chunk) + Fed(ops[1..]);
      InterleavingIndependent(buffer + ops[0].chunk, ops[1..]);
    } else {
      var call := TryParse(buffer);
      var rest := Fed(ops[1..]);
      InterleavingIndependent(call.1, ops[1..]);
      RunOpsParse(buffer, ops);
      FedParse(ops);
      ParseAllStep(buffer, rest);
      ParseOpStep(call.0, RunOps(buffer, ops), ParseAll(call.1 + rest), RunOps(call.1, ops[1..]), ParseAll(buffer + rest));
    }
  }

  lemma AppendReport(outcome: Outcome, later: Stream, s: Stream)
    ensures Append(Report(outcome, later).reports, s) == Report(outcome, Append(later.reports, s))
    ensures Report(outcome, later).leftover == later.leftover
  {
    if outcome != NeedMore { AppendPrepend(outcome, later.reports, s); }
  }

  lemma RunOpsParse(buffer: Bytes, ops: seq<Op>)
    requires ops != [] && ops[0].Parse?
    ensures RunOps(buffer, ops) == Report(TryParse(buffer).0, RunOps(TryParse(buffer).1, ops[1..]))
  {
  }

  lemma FedParse(ops: seq<Op>)
    requires ops != [] && ops[0].Parse?
    ensures Fed(ops) == Fed(ops[1..])
  {
    assert Chunk(ops[0]) + Fed(ops[1..]) == Fed(ops[1..]);
  }

  // The step of the induction at a parse, with `later` for what the remaining operations do.
  lemma ParseOpStep(outcome: Outcome, now: Stream, next: Stream, later: Stream, whole: Stream)
    requires now == Report(outcome, later) && whole == Report(outcome, next)
    requires next == Append(later.reports, ParseAll(later.leftover))
    ensures whole == Append(now.reports, ParseAll(now.leftover))
  {
    AppendReport(outcome, later, ParseAll(later.leftover));
  }

  lemma ParseAllStep(b: Bytes, c: Bytes)
    ensures ParseAll(b + c) == Report(TryParse(b).0, ParseAll(TryParse(b).1 + c))
  {
    if TryParse(b).0 == NeedMore {
      TryParseWaiting(b, c);
    } else {
      TryParseReported(b, c);
    }
  }

  // ---- Resynchronisation ----

  predicate WellFormedMark(mark: Byte) {
    mark == TO_MASTER || mark == ERROR_MARK
  }

  // Garbage without a header is dropped whole; it cannot form a header with the frame behind it.
  lemma {:induction false} GarbageDropped(garbage: Bytes, b: Bytes)
    requires NoHeader(garbage) && HeaderAt(b, 0)
    ensures Resync(garbage + b) == b
    decreases |garbage|
  {
    var all := garbage + b;
    if garbage == [] {
      assert all == b;
    } else {
      assert !HeaderAt(garbage, 0);
      assert !HeaderAt(all, 0) by {
        if |garbage| == 1 { assert all[1] == b[0]; }
        else if |garbage| == 2 { assert all[2] == b[0]; }
        else { assert all[0] == garbage[0] && all[1] == garbage[1] && all[2] == garbage[2]; }
      }
      assert all[1..] == garbage[1..] + b;
      forall i: nat ensures !HeaderAt(garbage[1..], i) {
        assert !HeaderAt(garbage, i + 1);
      }
      GarbageDropped(garbage[1..], b);
    }
  }

  lemma FrameParts(mark: Byte, command: Byte, payload: Bytes, tail: Bytes)
    requires |payload| <= 255
    ensures var b := Frame(mark, command, payload) + tail;
            && |b| >= 6 + |payload| && b[2] == mark && b[3] == |payload| && b[4] == command
            && b[0] == DOLLAR && b[1] == LETTER_M
            && b[5..5 + |payload|] == payload
            && b[5 + |payload|] == CheckByte(|payload|, command, payload)
            && b[6 + |payload|..] == tail
  {
  }

  /** Behind any garbage that holds no header, a well-formed response frame parses to exactly its command,
      payload and error flag, and what follows it stays in the buffer. */
  lemma ResynchronisesOnFrame(garbage: Bytes, mark: Byte, command: Byte, payload: Bytes, tail: Bytes)
    requires NoHeader(garbage) && WellFormedMark(mark) && |payload| <= 255
    ensures TryParse(garbage + (Frame(mark, command, payload) + tail))
            == (Parsed(Response(command, payload, mark == ERROR_MARK)), tail)
  {
    var b := Frame(mark, command, payload) + tail;
    FrameParts(mark, command, payload, tail);
    GarbageDropped(garbage, b);
    assert b[3] == |payload|;
  }

  // ---- Corruption ----

  lemma XorDiffers(a: Byte, b: Byte, c: Byte)
    requires a != b
    ensures XorByte(a, c) != XorByte(b, c) && XorByte(c, a) != XorByte(c, b)
  {
    if XorByte(a, c) == XorByte(b, c) || XorByte(c, a) == XorByte(c, b) { XorCancel(a, b, c); }
  }

  lemma {:induction false} FoldSeedDiffers(a: Byte, b: Byte, payload: Bytes)
    requires a != b
    ensures XorFold(a, payload) != XorFold(b, payload)
    decreases |payload|
  {
    if payload != [] {
      var init := payload[..|payload| - 1];
      FoldSeedDiffers(a, b, init);
      XorDiffers(XorFold(a, init), XorFold(b, init), payload[|payload| - 1]);
    }
  }

  // Changing one payload byte changes the fold.
  lemma {:induction false} FoldByteDiffers(value: Byte, payload: Bytes, i: nat, x: Byte)
    requires i < |payload| && payload[i] != x
    ensures XorFold(value, payload[i := x]) != XorFold(value, payload)
    decreases |payload|
  {
    var n := |payload| - 1;
    var init := payload[..n];
    if i == n {
      assert payload[i := x][..n] == init;
      XorDiffers(payload[n], x, XorFold(value, init));
    } else {
      assert payload[i := x][..n] == init[i := x];
      FoldByteDiffers(value, init, i, x);
      XorDiffers(XorFold(value, init[i := x]), XorFold(value, init), payload[n]);
    }
  }

  lemma SliceOfPrefix(a: Bytes, tail: Bytes, lo: nat, hi: nat)
    requires lo <= hi <= |a|
    ensures (a + tail)[lo..hi] == a[lo..hi]
  {
  }

  lemma CorruptFrame(mark: Byte, command: Byte, payload: Bytes, tail: Bytes, i: nat, x: Byte)
    requires WellFormedMark(mark) && |payload| <= 255
    requires 4 <= i < 6 + |payload| && Frame(mark, command, payload)[i] != x
    ensures var (outcome, rest) := TryParse(Frame(mark, command, payload)[i := x] + tail);
            outcome.BadChecksum? && rest == tail
  {
    var n := |payload|;
    var good := Frame(mark, command, payload);
    var bad := good[i := x] + tail;
    FrameParts(mark, command, payload, []);
    assert good + [] == good;
    assert bad[3] == n && Resync(bad) == bad && FrameSize(bad) == 6 + n && Complete(bad);
    assert bad[6 + n..] == tail;
    assert |good| == 6 + n && good[5..5 + n] == payload;
    SliceOfPrefix(good[i := x], tail, 5, 5 + n);
    if i == 4 {
      assert bad[5..5 + n] == payload;
      XorDiffers(command, x, n);
      FoldSeedDiffers(XorByte(n, command), XorByte(n, x), payload);
    } else if i == 5 + n {
      assert bad[5..5 + n] == payload;
    } else {
      assert bad[5..5 + n] == payload[i - 5 := x];
      FoldByteDiffers(XorByte(n, command), payload, i - 5, x);
    }
  }

  /** Behind any garbage that holds no header, changing any single command, payload or checksum byte of a frame
      makes the parser raise the checksum error for that frame, and the bytes behind it are kept. */
  lemma CorruptionDetected(garbage: Bytes, mark: Byte, command: Byte, payload: Bytes, tail: Bytes, i: nat, x: Byte)
    requires NoHeader(garbage) && WellFormedMark(mark) && |payload| <= 255
    requires 4 <= i < 6 + |payload| && Frame(mark, command, payload)[i] != x
    ensures var (outcome, rest) := TryParse(garbage + (Frame(mark, command, payload)[i := x] + tail));
            outcome.BadChecksum? && rest == tail
  {
    var bad := Frame(mark, command, payload)[i := x] + tail;
    CorruptFrame(mark, command, payload, tail, i, x);
    GarbageDropped(garbage, bad);
    assert Resync(bad) == bad;
  }

  // ---- Requests ----

  /** A request is built exactly for commands and lengths that fit a byte, and it is the response frame for
      the same command and payload but for its direction mark. */
  lemma RequestMirrorsResponse(command: int, payload: Bytes, tail: Bytes)
    ensures BuildRequest(command, payload).Ok? <==> 0 <= command <= 255 && |payload| <= 255
    ensures BuildRequest(command, payload).Ok? ==>
              TryParse(BuildRequest(command, payload).value[2 := TO_MASTER] + tail)
              == (Parsed(Response(command, payload, false)), tail)
  {
    if 0 <= command <= 255 && |payload| <= 255 {
      var b := BuildRequest(command, payload).value[2 := TO_MASTER];
      assert b == Frame(TO_MASTER, command, payload);
      ResynchronisesOnFrame([], TO_MASTER, command, payload, tail);
      assert [] + (b + tail) == b + tail;
    }
  }
}
