/** The request loop of the MSP client and its receive buffer, which lives across requests. */
module MspClient {
  import opened Bits
  import opened Wrappers
  import opened Msp
  import opened MspStream

  // What one receive call gives. Empty data is the peer closing the connection.
  datatype Recv = Timeout | Data(bytes: Bytes)

  datatype Reply =
    | Payload(bytes: Bytes)
    | ErrorResponse
    | Corrupt(report: Outcome)
    | ConnectionClosed
    | TimedOut
    | NotConnected
    | BadRequest(error: RequestError)

  // Does this report end a request for `command`?
  predicate Deciding(report: Outcome, command: int) {
    report.BadChecksum? || (report.Parsed? && report.response.command == command)
  }

  function ReplyTo(report: Outcome): Reply
    requires report != NeedMore
  {
    match report
    case BadChecksum(_, _, _) => Corrupt(report)
    case Parsed(response) => if response.isError then ErrorResponse else Payload(response.payload)
  }

  datatype Decision = Decision(reply: Reply, rest: Bytes)

  // What the first deciding report of a byte stream is, and the bytes behind its frame.
  function FirstDecision(b: Bytes, command: int): Option<Decision>
    decreases |b|
  {
    var call := TryParse(b);
    if call.0 == NeedMore then None
    else if Deciding(call.0, command) then Some(Decision(ReplyTo(call.0), call.1))
    else FirstDecision(call.1, command)
  }

  // The first deciding report of a list.
  function FirstDeciding(reports: seq<Outcome>, command: int): (k: nat)
    ensures k <= |reports|
    ensures forall i :: 0 <= i < k ==> !Deciding(reports[i], command)
    ensures k < |reports| ==> Deciding(reports[k], command)
  {
    if reports == [] || Deciding(reports[0], command) then 0 else 1 + FirstDeciding(reports[1..], command)
  }

  // What the k-th of the reports decides, and what is reported behind it.
  ghost predicate DecidesAt(reports: seq<Outcome>, k: nat, decision: Option<Decision>) {
    if k >= |reports| then decision.None?
    else reports[k] != NeedMore && decision.Some? && decision.value.reply == ReplyTo(reports[k])
         && ParseAll(decision.value.rest).reports == reports[k + 1..]
  }

  lemma DecidesCons(report: Outcome, later: seq<Outcome>, decision: Option<Decision>, command: int)
    requires !Deciding(report, command)
    requires DecidesAt(later, FirstDeciding(later, command), decision)
    ensures DecidesAt([report] + later, FirstDeciding([report] + later, command), decision)
  {
    var all := [report] + later;
    var k := FirstDeciding(later, command);
    assert all[1..] == later;
    assert FirstDeciding(all, command) == 1 + k;
    if k < |later| {
      assert all[1 + k] == later[k];
      assert all[k + 2..] == later[k + 1..];
    }
  }

  lemma DecidesNow(report: Outcome, rest: Bytes, command: int)
    requires report != NeedMore && Deciding(report, command)
    ensures var all := [report] + ParseAll(rest).reports;
            DecidesAt(all, FirstDeciding(all, command), Some(Decision(ReplyTo(report), rest)))
  {
    assert ([report] + ParseAll(rest).reports)[1..] == ParseAll(rest).reports;
  }

  lemma DecisionStep(b: Bytes, command: int)
    ensures var call := TryParse(b);
            FirstDecision(b, command) ==
            if call.0 == NeedMore then None
            else if Deciding(call.0, command) then Some(Decision(ReplyTo(call.0), call.1))
            else FirstDecision(call.1, command)
    ensures ParseAll(b).reports ==
            if TryParse(b).0 == NeedMore then [] else [TryParse(b).0] + ParseAll(TryParse(b).1).reports
  {
  }

  /** The decision over a stream is made by its first deciding report, skips exactly the reports before it,
      and leaves exactly the reports behind it. */
  lemma {:induction false} DecidedByFirstReport(b: Bytes, command: int)
    ensures DecidesAt(ParseAll(b).reports, FirstDeciding(ParseAll(b).reports, command), FirstDecision(b, command))
    decreases |b|
  {
    var call := TryParse(b);
    DecisionStep(b, command);
    if call.0 == NeedMore {
      assert DecidesAt([], FirstDeciding([], command), None);
    } else if Deciding(call.0, command) {
      DecidesNow(call.0, call.1, command);
    } else {
      DecidedByFirstReport(call.1, command);
      DecidesCons(call.0, ParseAll(call.1).reports, FirstDecision(call.1, command), command);
    }
  }

  // A wait or a response to another command changes nothing about the decision of the stream.
  lemma DecisionAfterCall(b: Bytes, c: Bytes, command: int)
    ensures var call := TryParse(b);
            if call.0 != NeedMore && Deciding(call.0, command)
            then FirstDecision(b + c, command) == Some(Decision(ReplyTo(call.0), call.1 + c))
            else FirstDecision(b + c, command) == FirstDecision(call.1 + c, command)
  {
    if TryParse(b).0 == NeedMore { TryParseWaiting(b, c); } else { TryParseReported(b, c); }
  }

  // The bytes still to come.
  function Pending(recvs: seq<Recv>): Bytes {
    if recvs == [] then [] else BytesOf(recvs[0]) + Pending(recvs[1..])
  }

  function BytesOf(recv: Recv): Bytes {
    if recv.Data? then recv.bytes else []
  }

  lemma Associative(a: Bytes, b: Bytes, c: Bytes)
    ensures a + (b + c) == (a + b) + c
  {
  }

  predicate Decided(reply: Reply) {
    reply.Payload? || reply.ErrorResponse? || reply.Corrupt?
  }

  // ---- The receive loop ----

  // How a loop ends: the reply, the buffer it leaves and how many receives it took.
  datatype Ending = Ending(reply: Reply, buffer: Bytes, used: nat)

  // The loop whose guard holds `ticks` more times; a receive beyond `recvs` times out.
  function Await(buffer: Bytes, ticks: nat, recvs: seq<Recv>, command: int): Ending
    decreases ticks
  {
    if ticks == 0 then Ending(TimedOut, buffer, 0)
    else
      var call := TryParse(buffer);
      if call.0 != NeedMore then
        if Deciding(call.0, command) then Ending(ReplyTo(call.0), call.1, 0)
        else Await(call.1, ticks - 1, recvs, command)
      else if recvs == [] then Await(call.1, ticks - 1, recvs, command)
      else if recvs[0] == Data([]) then Ending(ConnectionClosed, call.1, 1)
      else Later(Await(call.1 + BytesOf(recvs[0]), ticks - 1, recvs[1..], command), 1)
  }

  function Later(ending: Ending, used: nat): Ending {
    ending.(used := ending.used + used)
  }

  // What the whole loop owes the stream it reads: see Client.Request.
  ghost predicate Answers(ending: Ending, buffer: Bytes, ticks: nat, recvs: seq<Recv>, command: int) {
    ending.used <= |recvs| &&
    var stream := buffer + Pending(recvs);
    var unread := ending.buffer + Pending(recvs[ending.used..]);
    && (Decided(ending.reply) ==> FirstDecision(stream, command) == Some(Decision(ending.reply, unread)))
    && (!Decided(ending.reply) ==> FirstDecision(stream, command) == FirstDecision(unread, command))
    && (ending.reply.ConnectionClosed? ==> ending.used > 0 && recvs[ending.used - 1] == Data([]))
    && (ending.reply.TimedOut? && ticks > |stream| + |recvs| ==>
          ending.used == |recvs| && FirstDecision(stream, command) == None)
    && !ending.reply.NotConnected? && !ending.reply.BadRequest?
  }

  lemma AnswersAfterSkip(buffer: Bytes, ticks: nat, recvs: seq<Recv>, command: int, ending: Ending)
    requires ticks > 0 && TryParse(buffer).0 != NeedMore && !Deciding(TryParse(buffer).0, command)
    requires Answers(ending, TryParse(buffer).1, ticks - 1, recvs, command)
    ensures Answers(ending, buffer, ticks, recvs, command)
  {
    DecisionAfterCall(buffer, Pending(recvs), command);
  }

  lemma AnswersNow(buffer: Bytes, ticks: nat, recvs: seq<Recv>, command: int)
    requires TryParse(buffer).0 != NeedMore && Deciding(TryParse(buffer).0, command)
    ensures Answers(Ending(ReplyTo(TryParse(buffer).0), TryParse(buffer).1, 0), buffer, ticks, recvs, command)
  {
    assert recvs[0..] == recvs;
    DecisionAfterCall(buffer, Pending(recvs), command);
  }

  lemma AnswersAfterReceive(buffer: Bytes, ticks: nat, recvs: seq<Recv>, command: int, ending: Ending)
    requires ticks > 0 && TryParse(buffer).0 == NeedMore && recvs != []
    requires Answers(ending, TryParse(buffer).1 + BytesOf(recvs[0]), ticks - 1, recvs[1..], command)
    ensures Answers(Later(ending, 1), buffer, ticks, recvs, command)
  {
    var rest := TryParse(buffer).1;
    DecisionAfterCall(buffer, Pending(recvs), command);
    Associative(rest, BytesOf(recvs[0]), Pending(recvs[1..]));
    assert recvs[1..][ending.used..] == recvs[ending.used + 1..];
  }

  lemma AnswersClosed(buffer: Bytes, ticks: nat, recvs: seq<Recv>, command: int)
    requires TryParse(buffer).0 == NeedMore && recvs != [] && recvs[0] == Data([])
    ensures Answers(Ending(ConnectionClosed, TryParse(buffer).1, 1), buffer, ticks, recvs, command)
  {
    DecisionAfterCall(buffer, Pending(recvs), command);
    assert Pending(recvs) == [] + Pending(recvs[1..]) == Pending(recvs[1..]);
  }

  lemma {:induction false} AwaitNothing(buffer: Bytes, ticks: nat, command: int)
    requires TryParse(buffer).0 == NeedMore
    ensures Await(buffer, ticks, [], command).reply == TimedOut
    ensures Await(buffer, ticks, [], command).used == 0
    ensures FirstDecision(Await(buffer, ticks, [], command).buffer, command) == None
    decreases ticks
  {
    if ticks > 0 {
      WaitingStaysWaiting(buffer);
      AwaitNothing(TryParse(buffer).1, ticks - 1, command);
    }
  }

  lemma AnswersDry(buffer: Bytes, ticks: nat, command: int, ending: Ending)
    requires TryParse(buffer).0 == NeedMore
    requires ending.reply == TimedOut && ending.used == 0 && FirstDecision(ending.buffer, command) == None
    ensures Answers(ending, buffer, ticks, [], command)
  {
    assert buffer + [] == buffer && ending.buffer + [] == ending.buffer;
  }

  lemma WaitingStaysWaiting(b: Bytes)
    requires TryParse(b).0 == NeedMore
    ensures TryParse(TryParse(b).1).0 == NeedMore
  {
    ResyncIdempotent(b);
  }

  lemma AwaitSkip(buffer: Bytes, ticks: nat, recvs: seq<Recv>, command: int)
    requires ticks > 0 && TryParse(buffer).0 != NeedMore && !Deciding(TryParse(buffer).0, command)
    ensures Await(buffer, ticks, recvs, command) == Await(TryParse(buffer).1, ticks - 1, recvs, command)
  {
  }

  lemma AnswersAtOnce(buffer: Bytes, recvs: seq<Recv>, command: int)
    ensures Answers(Ending(TimedOut, buffer, 0), buffer, 0, recvs, command)
  {
    assert recvs[0..] == recvs;
  }

  lemma AnswersReported(buffer: Bytes, ticks: nat, recvs: seq<Recv>, command: int) returns (ending: Ending)
    requires ticks > 0 && TryParse(buffer).0 != NeedMore
    ensures ending == Await(buffer, ticks, recvs, command)
    ensures Answers(ending, buffer, ticks, recvs, command)
    decreases ticks, 0
  {
    var call := TryParse(buffer);
    if Deciding(call.0, command) {
      ending := Ending(ReplyTo(call.0), call.1, 0);
      AnswersNow(buffer, ticks, recvs, command);
    } else {
      ending := AwaitAnswers(call.1, ticks - 1, recvs, command);
      AnswersAfterSkip(buffer, ticks, recvs, command, ending);
      AwaitSkip(buffer, ticks, recvs, command);
    }
  }

  lemma AwaitReceive(buffer: Bytes, ticks: nat, recvs: seq<Recv>, command: int)
    requires ticks > 0 && TryParse(buffer).0 == NeedMore && recvs != [] && recvs[0] != Data([])
    ensures Await(buffer, ticks, recvs, command)
            == Later(Await(TryParse(buffer).1 + BytesOf(recvs[0]), ticks - 1, recvs[1..], command), 1)
  {
  }

  lemma AnswersWaiting(buffer: Bytes, ticks: nat, recvs: seq<Recv>, command: int) returns (ending: Ending)
    requires ticks > 0 && TryParse(buffer).0 == NeedMore
    ensures ending == Await(buffer, ticks, recvs, command)
    ensures Answers(ending, buffer, ticks, recvs, command)
    decreases ticks, 0
  {
    var rest := TryParse(buffer).1;
    if recvs == [] {
      ending := Await(buffer, ticks, [], command);
      AwaitNothing(buffer, ticks, command);
      AnswersDry(buffer, ticks, command, ending);
    } else if recvs[0] == Data([]) {
      ending := Ending(ConnectionClosed, rest, 1);
      AnswersClosed(buffer, ticks, recvs, command);
    } else {
      var later := AwaitAnswers(rest + BytesOf(recvs[0]), ticks - 1, recvs[1..], command);
      AnswersAfterReceive(buffer, ticks, recvs, command, later);
      AwaitReceive(buffer, ticks, recvs, command);
      ending := Later(later, 1);
    }
  }

  /** The loop answers the stream by its first deciding report, whatever the chunking. */
  lemma {:induction false} AwaitAnswers(buffer: Bytes, ticks: nat, recvs: seq<Recv>, command: int) returns (ending: Ending)
    ensures ending == Await(buffer, ticks, recvs, command)
    ensures Answers(ending, buffer, ticks, recvs, command)
    decreases ticks, 1
  {
    if ticks == 0 {
      ending := Ending(TimedOut, buffer, 0);
      AnswersAtOnce(buffer, recvs, command);
    } else if TryParse(buffer).0 != NeedMore {
      ending := AnswersReported(buffer, ticks, recvs, command);
    } else {
      ending := AnswersWaiting(buffer, ticks, recvs, command);
    }
  }

  class Client {
    var connected: bool
    const buffer: ByteArray
    var sent: seq<Bytes>

    constructor ()
      ensures !connected && fresh(buffer) && buffer.bytes == [] && sent == []
    {
      connected, sent := false, [];
      buffer := new ByteArray([]);
    }

    // The while loop of a request.
    method Receive(command: int, ticks: nat, recvs: seq<Recv>) returns (reply: Reply, used: nat)
      modifies buffer
      ensures Ending(reply, buffer.bytes, used) == Await(old(buffer.bytes), ticks, recvs, command)
    {
      used := 0;
      var left := ticks;
      assert recvs[0..] == recvs;
      while left > 0
        invariant used <= |recvs|
        invariant Later(Await(buffer.bytes, left, recvs[used..], command), used)
               == Await(old(buffer.bytes), ticks, recvs, command)
        decreases left
      {
        left := left - 1;
        var outcome := TryParseResponse(buffer);
        if outcome.BadChecksum? {
          return Corrupt(outcome), used;
        }
        if outcome.Parsed? {
          if outcome.response.command != command {
            continue;
          }
          if outcome.response.isError {
            return ErrorResponse, used;
          }
          return Payload(outcome.response.payload), used;
        }

        if used == |recvs| {
          continue;  // nothing more arrives: the receive times out
        }
        assert recvs[used..][0] == recvs[used] && recvs[used..][1..] == recvs[used + 1..];
        var recv := recvs[used];
        used := used + 1;
        if recv.Timeout? {
          assert buffer.bytes + [] == buffer.bytes;
          continue;
        }
        if recv.bytes == [] {
          return ConnectionClosed, used;
        }
        buffer.Extend(recv.bytes);
      }
      return TimedOut, used;
    }

    /** One request. The loop guard holds `ticks` times before the deadline passes, and `recvs` is what the
        receive calls give in turn. `used` counts the receives taken.

        The reply before the deadline is the first deciding report of everything unread, whatever the chunking,
        and the buffer with the bytes still to come is exactly what follows that report's frame. A request that
        runs into the deadline or a closed connection consumes no deciding report, and it can only time out on a
        stream with a decision if the deadline cut it short. */
    method Request(command: int, payload: Bytes, ticks: nat, recvs: seq<Recv>) returns (reply: Reply, used: nat)
      modifies this, buffer
      ensures connected == old(connected)
      ensures !old(connected) ==> reply == NotConnected
      ensures old(connected) && BuildRequest(command, payload).Err? ==>
                reply == BadRequest(BuildRequest(command, payload).error)
      ensures reply.NotConnected? || reply.BadRequest? ==> used == 0 && buffer.bytes == old(buffer.bytes) && sent == old(sent)
      ensures old(connected) && BuildRequest(command, payload).Ok? ==>
                && sent == old(sent) + [BuildRequest(command, payload).value]
                && Answers(Ending(reply, buffer.bytes, used), old(buffer.bytes), ticks, recvs, command)
    {
      if !connected {
        return NotConnected, 0;
      }
      var request := BuildRequest(command, payload);
      if request.Err? {
        return BadRequest(request.error), 0;
      }
      sent := sent + [request.value];
      ghost var ending := AwaitAnswers(buffer.bytes, ticks, recvs, command);
      reply, used := Receive(command, ticks, recvs);
    }
  }

  /** Two clients that hold and receive the same bytes, however cut, and both get an answer, get the same
      answer and are left with the same unread bytes. */
  lemma AnswerIgnoresChunking(b1: Bytes, t1: nat, r1: seq<Recv>, b2: Bytes, t2: nat, r2: seq<Recv>, command: int)
    requires b1 + Pending(r1) == b2 + Pending(r2)
    ensures var e1, e2 := Await(b1, t1, r1, command), Await(b2, t2, r2, command);
            && e1.used <= |r1| && e2.used <= |r2|
            && (Decided(e1.reply) && Decided(e2.reply) ==>
                  e1.reply == e2.reply
                  && e1.buffer + Pending(r1[e1.used..]) == e2.buffer + Pending(r2[e2.used..]))
  {
    var e1 := AwaitAnswers(b1, t1, r1, command);
    var e2 := AwaitAnswers(b2, t2, r2, command);
  }
}
