/** The POSIX client's receive engine, receive_file in C/client: it sends
    one read request, then handles each received datagram in turn until an
    ERROR packet or a short DATA block ends the transfer. It retries after
    a failed receive, reads any opcode but 5 as DATA, accepts a block only
    when its number is one past the last accepted one, and times the
    transfer with a stopwatch. */
module PosixClient {
  import opened Wire
  import opened Paths
  import opened Engine
  import Stopwatch

  /** The opcode, read as a 16-bit big-endian value. With a signed char a
      high bit in either octet makes the C value negative, but it equals 5
      exactly when the octets are 0 and 5 either way. */
  function Opcode(d: seq<byte>): nat
    requires |d| >= 2
  {
    Uint16(d[0], d[1])
  }

  predicate IsError(d: seq<byte>)
    requires |d| >= 2
  {
    Opcode(d) == ERROR
  }

  /** A block is new when it carries data and its number is one past the
      last block accepted. */
  predicate IsNewBlock(s: Session, d: seq<byte>)
    requires |d| >= 4
  {
    |d| > 4 && BlockNumber(d) == s.blockCount + 1
  }

  /** Handles one received event. */
  function Step(name: seq<byte>, s: Session, e: Event): (r: StepResult)
    requires ValidEvent(e)
    ensures e.RecvError? ==> r == StepResult(s, [], Waiting)
    ensures e.Datagram? && IsError(e.data) ==>
      r == StepResult(s, [], Failed(ServerError(ErrorMessage(e.data))))
    ensures e.Datagram? && !IsError(e.data) ==>
      && r.session.sinkOpen
      && (r.outcome == Succeeded <==> |Payload(e.data)| < BlockSize)
      && (r.outcome != Succeeded ==> r.outcome == Waiting)
  {
    match e
    case RecvError => StepResult(s, [], Waiting)
    case Datagram(d, src) =>
      if IsError(d) then StepResult(s, [], Failed(ServerError(ErrorMessage(d))))
      else
        var isNew := IsNewBlock(s, d);
        var s' :=
          if isNew then Session(true, s.blockCount + 1, s.byteCount + |Payload(d)|)
          else s.(sinkOpen := true);
        StepResult(s', DatagramEffects(name, s, d, src), if |Payload(d)| < BlockSize then Succeeded else Waiting)
  }

  /** What answering a datagram does: open the output file if it is not
      open yet, append the payload if the block is new, send the ACK. */
  function DatagramEffects(name: seq<byte>, s: Session, d: seq<byte>, src: Address): seq<Effect>
    requires |d| >= 4
  {
    (if s.sinkOpen then [] else [OpenSink(BaseName(name))])
    + (if IsNewBlock(s, d) then [Append(BlockNumber(d), Payload(d))] else [])
    + [SendAck(AckFor(d), src)]
  }

  /** The events the engine acknowledges: every datagram but an ERROR packet. */
  predicate IsAcked(e: Event)
    requires ValidEvent(e)
  {
    e.Datagram? && !IsError(e.data)
  }

  /** The effects of an answered datagram are the optional open, the
      optional append and the ACK; other events have none. */
  lemma StepEffects(name: seq<byte>, s: Session, e: Event)
    requires ValidEvent(e)
    ensures var r := Step(name, s, e);
      && (IsAcked(e) ==> r.effects == DatagramEffects(name, s, e.data, e.src))
      && (!IsAcked(e) ==> r.effects == [] && r.session == s)
  {
  }

  /** A datagram other than an ERROR packet has its payload written, and
      the counters advanced, exactly when its block is new; other events
      write nothing. */
  lemma StepWrites(name: seq<byte>, s: Session, e: Event)
    requires ValidEvent(e)
    ensures var r := Step(name, s, e);
      var isNew := IsAcked(e) && IsNewBlock(s, e.data);
      && Written(r.effects) == (if isNew then Payload(e.data) else [])
      && AppendedBlocks(r.effects) == (if isNew then [s.blockCount + 1] else [])
      && r.session.blockCount == s.blockCount + |AppendedBlocks(r.effects)|
      && r.session.byteCount == s.byteCount + |Written(r.effects)|
  {
    StepEffects(name, s, e);
    if IsAcked(e) {
      var d := e.data;
      var open := if s.sinkOpen then [] else [OpenSink(BaseName(name))];
      var write := if IsNewBlock(s, d) then [Append(BlockNumber(d), Payload(d))] else [];
      var ack := [SendAck(AckFor(d), e.src)];
      WrittenOfThree(open, write, ack);
      BlocksOfThree(open, write, ack);
    } else {
      ViewsOfOne([]);
    }
  }

  /** A datagram other than an ERROR packet gets one ACK that echoes its
      block-number octets back to its source; other events get none. */
  lemma StepAcks(name: seq<byte>, s: Session, e: Event)
    requires ValidEvent(e)
    ensures Acks(Step(name, s, e).effects) == (if IsAcked(e) then [SendAck(AckFor(e.data), e.src)] else [])
  {
    StepEffects(name, s, e);
    if IsAcked(e) {
      var d := e.data;
      var open := if s.sinkOpen then [] else [OpenSink(BaseName(name))];
      var write := if IsNewBlock(s, d) then [Append(BlockNumber(d), Payload(d))] else [];
      var ack := [SendAck(AckFor(d), e.src)];
      AcksOfThree(open, write, ack);
    } else {
      ViewsOfOne([]);
    }
  }

  /** The first datagram answered opens the output file, before anything
      else; no event sends a request. */
  lemma StepOpens(name: seq<byte>, s: Session, e: Event)
    requires ValidEvent(e)
    ensures var r := Step(name, s, e);
      && Opens(r.effects) == (if IsAcked(e) && !s.sinkOpen then [OpenSink(BaseName(name))] else [])
      && (r.session.sinkOpen <==> s.sinkOpen || IsAcked(e))
      && (r.effects != [] <==> IsAcked(e))
      && Requests(r.effects) == []
      && (!s.sinkOpen && r.effects != [] ==> r.effects[0] == OpenSink(BaseName(name)))
  {
    StepEffects(name, s, e);
    if IsAcked(e) {
      var d := e.data;
      var open := if s.sinkOpen then [] else [OpenSink(BaseName(name))];
      var write := if IsNewBlock(s, d) then [Append(BlockNumber(d), Payload(d))] else [];
      var ack := [SendAck(AckFor(d), e.src)];
      OpensOfThree(open, write, ack);
      RequestsOfThree(open, write, ack);
    } else {
      ViewsOfOne([]);
    }
  }

  /** The receive loop over the events that arrive, ending at the first
      ERROR packet or short block. */
  function Loop(name: seq<byte>, s: Session, events: seq<Event>): (r: Run)
    requires ValidEvents(events)
    ensures r.consumed <= |events|
    ensures r.outcome.Waiting? ==> r.consumed == |events|
    ensures !r.outcome.Waiting? ==> r.consumed > 0
    decreases |events|
  {
    if |events| == 0 then Run(s, [], Waiting, 0)
    else
      var step := Step(name, s, events[0]);
      if step.outcome.Waiting? then
        var rest := Loop(name, step.session, events[1..]);
        Run(rest.session, step.effects + rest.effects, rest.outcome, rest.consumed + 1)
      else Run(step.session, step.effects, step.outcome, 1)
  }

  /** An event that ends the loop: an ERROR packet, or any other datagram
      whose payload is shorter than a full block. */
  predicate Stops(e: Event)
    requires ValidEvent(e)
  {
    e.Datagram? && (IsError(e.data) || |Payload(e.data)| < BlockSize)
  }

  /** The number of events the loop acknowledged: all it consumed, save a
      closing ERROR packet. */
  function AckedCount(r: Run): nat
  {
    if r.outcome.Failed? && r.consumed > 0 then r.consumed - 1 else r.consumed
  }

  // ---------------------------------------------------------------------
  // Properties of the loop

  /** The loop ends exactly at the first stopping event: with success unless
      that event is an ERROR packet, whose message it reports. */
  lemma {:induction false} LoopEndsAtFirstStop(name: seq<byte>, s: Session, events: seq<Event>)
    requires ValidEvents(events)
    ensures var r := Loop(name, s, events);
      && (r.outcome.Waiting? <==> forall i :: 0 <= i < |events| ==> !Stops(events[i]))
      && (!r.outcome.Waiting? ==>
            && Stops(events[r.consumed - 1])
            && (forall i :: 0 <= i < r.consumed - 1 ==> !Stops(events[i]))
            && (r.outcome == Succeeded <==> !IsError(events[r.consumed - 1].data))
            && (r.outcome.Failed? ==>
                  r.outcome == Failed(ServerError(ErrorMessage(events[r.consumed - 1].data)))))
    decreases |events|
  {
    if |events| > 0 {
      var step := Step(name, s, events[0]);
      var r := Loop(name, s, events);
      StepStops(name, s, events[0]);
      if step.outcome.Waiting? {
        LoopEndsAtFirstStop(name, step.session, events[1..]);
        var rest := Loop(name, step.session, events[1..]);
        assert r.outcome == rest.outcome && r.consumed == rest.consumed + 1;
        forall i | 0 <= i < |events[1..]| ensures events[1..][i] == events[i + 1] { }
        if !r.outcome.Waiting? {
          assert events[r.consumed - 1] == events[1..][rest.consumed - 1];
          forall i | 0 <= i < r.consumed - 1 ensures !Stops(events[i]) {
            if i > 0 {
              assert events[i] == events[1..][i - 1];
            }
          }
        } else {
          forall i | 0 <= i < |events| ensures !Stops(events[i]) {
            if i > 0 {
              assert events[i] == events[1..][i - 1];
            }
          }
        }
      } else {
        assert r.outcome == step.outcome && r.consumed == 1;
      }
    }
  }

  /** One event ends the loop exactly when it stops it, with success unless
      it is an ERROR packet. */
  lemma StepStops(name: seq<byte>, s: Session, e: Event)
    requires ValidEvent(e)
    ensures var r := Step(name, s, e);
      && (r.outcome.Waiting? <==> !Stops(e))
      && (!r.outcome.Waiting? ==>
            && (r.outcome == Succeeded <==> !IsError(e.data))
            && (r.outcome.Failed? ==> r.outcome == Failed(ServerError(ErrorMessage(e.data)))))
  {
  }

  /** The counters track the file: the byte counter grows by the bytes
      written, and the blocks written are the next ones in order, one past
      the counter each, so the file holds blocks 1..blockCount. */
  lemma {:induction false} LoopCountsWrites(name: seq<byte>, s: Session, events: seq<Event>)
    requires ValidEvents(events)
    ensures var r := Loop(name, s, events);
      && r.session.byteCount == s.byteCount + |Written(r.effects)|
      && r.session.blockCount == s.blockCount + |AppendedBlocks(r.effects)|
      && (forall j :: 0 <= j < |AppendedBlocks(r.effects)| ==>
            AppendedBlocks(r.effects)[j] == s.blockCount + 1 + j)
    decreases |events|
  {
    if |events| > 0 {
      var step := Step(name, s, events[0]);
      StepWrites(name, s, events[0]);
      if step.outcome.Waiting? {
        LoopCountsWrites(name, step.session, events[1..]);
        var rest := Loop(name, step.session, events[1..]);
        WrittenDistributes(step.effects, rest.effects);
        BlocksDistribute(step.effects, rest.effects);
        ConsecutiveConcat(AppendedBlocks(step.effects), AppendedBlocks(rest.effects), s.blockCount);
      }
    }
  }

  lemma ConsecutiveConcat(head: seq<nat>, tail: seq<nat>, base: nat)
    requires forall j :: 0 <= j < |head| ==> head[j] == base + 1 + j
    requires forall j :: 0 <= j < |tail| ==> tail[j] == base + |head| + 1 + j
    ensures forall j :: 0 <= j < |head + tail| ==> (head + tail)[j] == base + 1 + j
  {
    forall j | 0 <= j < |head + tail| ensures (head + tail)[j] == base + 1 + j {
      if j >= |head| {
        assert (head + tail)[j] == tail[j - |head|];
      }
    }
  }

  /** Every datagram the loop handles, other than a closing ERROR packet, is
      answered by exactly one ACK, in order, that echoes its block-number
      octets and goes to the address the datagram came from; failed
      receives get none. */
  lemma {:induction false} LoopAcksEachDatagram(name: seq<byte>, s: Session, events: seq<Event>)
    requires ValidEvents(events)
    ensures var r := Loop(name, s, events);
      AckedCount(r) <= |events| && Acks(r.effects) == AcksFor(events[..AckedCount(r)])
    decreases |events|
  {
    if |events| > 0 {
      var step := Step(name, s, events[0]);
      var r := Loop(name, s, events);
      if step.outcome.Waiting? {
        LoopAcksEachDatagram(name, step.session, events[1..]);
        var rest := Loop(name, step.session, events[1..]);
        AcksDistribute(step.effects, rest.effects);
        assert AckedCount(r) == AckedCount(rest) + 1;
        PrefixOfTail(events, AckedCount(rest));
        assert ValidEvents([events[0]]);
        assert ValidEvents(events[1..][..AckedCount(rest)]);
        AcksForDistribute([events[0]], events[1..][..AckedCount(rest)]);
        AcksForOne(events[0]);
        StepAcks(name, s, events[0]);
      } else if step.outcome.Failed? {
        assert events[..AckedCount(r)] == [];
        StepAcks(name, s, events[0]);
      } else {
        assert events[..AckedCount(r)] == [events[0]];
        AcksForOne(events[0]);
        StepAcks(name, s, events[0]);
      }
    }
  }

  /** The output file is opened once, by the first datagram the loop
      answers, before anything is written: it is open exactly when some
      datagram was answered, so a transfer whose first datagram is an ERROR
      packet opens nothing. */
  lemma {:induction false} LoopOpensOnFirstAnswer(name: seq<byte>, s: Session, events: seq<Event>)
    requires ValidEvents(events)
    ensures var r := Loop(name, s, events);
      && (r.session.sinkOpen <==> s.sinkOpen || Acks(r.effects) != [])
      && Opens(r.effects) == (if s.sinkOpen || !r.session.sinkOpen then [] else [OpenSink(BaseName(name))])
      && (!s.sinkOpen && r.effects != [] ==> r.effects[0] == OpenSink(BaseName(name)))
    decreases |events|
  {
    if |events| > 0 {
      var step := Step(name, s, events[0]);
      StepOpens(name, s, events[0]);
      StepAcks(name, s, events[0]);
      if step.outcome.Waiting? {
        LoopOpensOnFirstAnswer(name, step.session, events[1..]);
        var rest := Loop(name, step.session, events[1..]);
        OpensDistribute(step.effects, rest.effects);
        AcksDistribute(step.effects, rest.effects);
        if step.effects != [] {
          assert (step.effects + rest.effects)[0] == step.effects[0];
        } else {
          assert step.effects + rest.effects == rest.effects;
        }
      }
    }
  }

  /** The documented limitation: once 65535 blocks are accepted, no 16-bit
      block number is one past the counter, so nothing more is written. */
  lemma {:induction false} NothingWrittenPastLastBlockNumber(name: seq<byte>, s: Session, events: seq<Event>)
    requires ValidEvents(events)
    requires s.blockCount >= 0xFFFF
    ensures Written(Loop(name, s, events).effects) == []
    ensures Loop(name, s, events).session.blockCount == s.blockCount
    decreases |events|
  {
    if |events| > 0 {
      var step := Step(name, s, events[0]);
      var r := Loop(name, s, events);
      if events[0].Datagram? {
        assert !IsNewBlock(s, events[0].data);
      }
      StepWrites(name, s, events[0]);
      assert Written(step.effects) == [] && step.session.blockCount == s.blockCount;
      if step.outcome.Waiting? {
        var rest := Loop(name, step.session, events[1..]);
        assert r.effects == step.effects + rest.effects && r.session == rest.session;
        NothingWrittenPastLastBlockNumber(name, step.session, events[1..]);
        WrittenDistributes(step.effects, rest.effects);
      } else {
        assert r.effects == step.effects && r.session == step.session;
      }
    }
  }

  /** Failed receives are ignored: removing one from anywhere in the run
      leaves the effects, the counters and the outcome as they were. */
  lemma {:induction false} RecvErrorChangesNothing(
    name: seq<byte>, s: Session, before: seq<Event>, after: seq<Event>)
    requires ValidEvents(before) && ValidEvents(after)
    ensures ValidEvents(before + [RecvError] + after) && ValidEvents(before + after)
    ensures var withError := Loop(name, s, before + [RecvError] + after);
      var without := Loop(name, s, before + after);
      && withError.session == without.session
      && withError.effects == without.effects
      && withError.outcome == without.outcome
    decreases |before|
  {
    AcksForDistribute(before, [RecvError]);
    AcksForDistribute(before + [RecvError], after);
    AcksForDistribute(before, after);
    var all := before + [RecvError] + after;
    if |before| == 0 {
      assert all[1..] == before + after;
    } else {
      var step := Step(name, s, before[0]);
      assert all[0] == before[0] && (before + after)[0] == before[0];
      assert all[1..] == before[1..] + [RecvError] + after;
      assert (before + after)[1..] == before[1..] + after;
      if step.outcome.Waiting? {
        RecvErrorChangesNothing(name, step.session, before[1..], after);
      }
    }
  }

  // ---------------------------------------------------------------------
  // The whole transfer

  /** A finished or pending transfer and the stopwatch that timed it. */
  datatype Report = Report(transfer: Transfer, stopwatch: Stopwatch.Timer)

  /** receive_file: initialises and starts the stopwatch at `startedAt`,
      sends the read request to the server, runs the receive loop, and once
      the loop ends closes the output file (if it was opened) and stops
      the stopwatch at `finishedAt`. `uninitialized` is the stopwatch's
      storage before initialisation. */
  function ReceiveFile(
    name: seq<byte>, server: Address, events: seq<Event>,
    uninitialized: Stopwatch.Timer, startedAt: Stopwatch.TimeVal, finishedAt: Stopwatch.TimeVal): (rep: Report)
    requires ValidName(name) && ValidEvents(events)
    ensures rep.transfer.effects != [] && rep.transfer.effects[0] == SendRequest(EncodeRequest(name), server)
    ensures rep.transfer.consumed <= |events|
    ensures rep.transfer.outcome.Waiting? ==> rep.transfer.consumed == |events|
    ensures rep.transfer.outcome.Waiting? <==> rep.stopwatch.state == Stopwatch.Running
    ensures !rep.transfer.outcome.Waiting? <==> rep.stopwatch.state == Stopwatch.Stopped
  {
    var run := Loop(name, Initial, events);
    var timer := TimeTransfer(!run.outcome.Waiting?, uninitialized, startedAt, finishedAt);
    Report(Bracket(name, server, run), timer)
  }

  /** The request before the loop and the close after it. */
  function Bracket(name: seq<byte>, server: Address, run: Run): (t: Transfer)
    requires ValidName(name)
    ensures t.outcome == run.outcome && t.session == run.session && t.consumed == run.consumed
    ensures t.effects != [] && t.effects[0] == SendRequest(EncodeRequest(name), server)
  {
    var request := [SendRequest(EncodeRequest(name), server)];
    if run.outcome.Waiting? then Transfer(request + run.effects, Waiting, run.session, run.consumed)
    else
      var close := if run.session.sinkOpen then [CloseSink] else [];
      Transfer(request + run.effects + close, run.outcome, run.session, run.consumed)
  }

  /** The stopwatch of a transfer: started at `startedAt`, and stopped at
      `finishedAt` once the transfer is over. Its reading is the time from
      start to finish, or to the present while the transfer goes on. */
  function TimeTransfer(
    over: bool, uninitialized: Stopwatch.Timer, startedAt: Stopwatch.TimeVal, finishedAt: Stopwatch.TimeVal): (t: Stopwatch.Timer)
    ensures over <==> t.state == Stopwatch.Stopped
    ensures !over ==> t.state == Stopwatch.Running
    ensures Stopwatch.Elapsed(t, finishedAt) == Stopwatch.Adjusted(finishedAt) - Stopwatch.Adjusted(startedAt)
  {
    var timer := Stopwatch.Start(Stopwatch.Initialize(uninitialized), startedAt);
    Stopwatch.StoppedReading(timer, finishedAt, finishedAt);
    if over then Stopwatch.Stop(timer, finishedAt) else timer
  }

  /** A transfer sends exactly one read request, before anything else, to
      the configured server: opcode 1, the name and the mode "octet", which
      read back as the name asked for. Once the loop ends the output file,
      if it was opened, is closed last; if it was never opened it is never
      closed. */
  lemma ReceiveFileRequestsOnce(
    name: seq<byte>, server: Address, events: seq<Event>,
    uninitialized: Stopwatch.Timer, startedAt: Stopwatch.TimeVal, finishedAt: Stopwatch.TimeVal)
    requires ValidName(name) && ValidEvents(events)
    ensures var t := ReceiveFile(name, server, events, uninitialized, startedAt, finishedAt).transfer;
      && t.effects[0] == SendRequest(EncodeRequest(name), server)
      && Requests(t.effects) == [SendRequest(EncodeRequest(name), server)]
      && ParseRequest(t.effects[0].packet) == Some(Request(name, Octet))
      && (!t.outcome.Waiting? && t.session.sinkOpen ==> t.effects[|t.effects| - 1] == CloseSink)
      && (!t.session.sinkOpen ==> CloseSink !in t.effects)
  {
    var run := Loop(name, Initial, events);
    NoRequestsInLoop(name, Initial, events);
    NoCloseInLoop(name, Initial, events);
    BracketRequestsOnce(name, server, run);
  }

  lemma BracketRequestsOnce(name: seq<byte>, server: Address, run: Run)
    requires ValidName(name)
    requires Requests(run.effects) == [] && CloseSink !in run.effects
    ensures var t := Bracket(name, server, run);
      && t.effects[0] == SendRequest(EncodeRequest(name), server)
      && Requests(t.effects) == [SendRequest(EncodeRequest(name), server)]
      && ParseRequest(t.effects[0].packet) == Some(Request(name, Octet))
      && (!t.outcome.Waiting? && t.session.sinkOpen ==> t.effects[|t.effects| - 1] == CloseSink)
      && (!t.session.sinkOpen ==> CloseSink !in t.effects)
  {
    var request := SendRequest(EncodeRequest(name), server);
    RequestRoundTrip(name);
    if run.outcome.Waiting? {
      Bracketed(request, run.effects, []);
      assert [request] + run.effects == [request] + run.effects + [];
    } else {
      Bracketed(request, run.effects, if run.session.sinkOpen then [CloseSink] else []);
    }
  }

  /** The loop never closes the output file; only the clean-up after it does. */
  lemma {:induction false} NoCloseInLoop(name: seq<byte>, s: Session, events: seq<Event>)
    requires ValidEvents(events)
    ensures CloseSink !in Loop(name, s, events).effects
    decreases |events|
  {
    if |events| > 0 {
      var step := Step(name, s, events[0]);
      if step.outcome.Waiting? {
        NoCloseInLoop(name, step.session, events[1..]);
      }
    }
  }

  lemma {:induction false} NoRequestsInLoop(name: seq<byte>, s: Session, events: seq<Event>)
    requires ValidEvents(events)
    ensures Requests(Loop(name, s, events).effects) == []
    decreases |events|
  {
    if |events| > 0 {
      var step := Step(name, s, events[0]);
      StepOpens(name, s, events[0]);
      if step.outcome.Waiting? {
        NoRequestsInLoop(name, step.session, events[1..]);
        RequestsDistribute(step.effects, Loop(name, step.session, events[1..]).effects);
      }
    }
  }
}
