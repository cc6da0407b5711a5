/** The Windows client's receive engine, get_file in Windows/client: it
    sends one read request and handles each received datagram in turn, but
    unlike the POSIX engine it gives up at the first thing that goes wrong:
    a failed receive, an ERROR packet, any opcode but DATA, a file it cannot
    open or write, an ACK it cannot send. It reads the opcode from the
    second octet alone, opens the output file before it looks at the block,
    and accepts any block numbered above the count of blocks accepted. */
module WindowsClient {
  import opened Wire
  import opened Paths
  import opened Engine

  /** What the host reports while one datagram is handled: whether opening
      the output file succeeds (asked only while it is not open), whether
      the stream is free of errors after the payload is written (asked only
      for a new block), and what the ACK send returns. */
  datatype HostIo = HostIo(openOk: bool, writeOk: bool, ackSent: SendResult)

  /** The value a `char` holding octet `b` has where `char` is signed, as it
      is by default with Microsoft's compiler. */
  function SignedChar(b: byte): (c: int)
    ensures -128 <= c < 128 && c % 256 == b
  {
    if b < 128 then b else b - 256
  }

  /** The opcode as get_file reads it: the second octet, as a char. */
  function Opcode(d: seq<byte>): int
    requires |d| >= 2
  {
    SignedChar(d[1])
  }

  /** A block is new when it carries data and its number is above the count
      of blocks accepted so far. */
  predicate IsNewBlock(s: Session, d: seq<byte>)
    requires |d| >= 4
  {
    |Payload(d)| > 0 && BlockNumber(d) > s.blockCount
  }

  /** A DATA datagram that gets past the file-open step: the output file is
      open, or opening it succeeds. */
  predicate Accepted(s: Session, e: Event, io: HostIo)
    requires ValidEvent(e)
  {
    e.Datagram? && e.data[1] == DATA && (s.sinkOpen || io.openOk)
  }

  /** An accepted datagram that gets as far as its ACK: it is not a new
      block, or its payload is written without error. */
  predicate Acknowledged(s: Session, e: Event, io: HostIo)
    requires ValidEvent(e)
  {
    Accepted(s, e, io) && (!IsNewBlock(s, e.data) || io.writeOk)
  }

  /** Handles one received event. */
  function Step(name: seq<byte>, s: Session, e: Event, io: HostIo): (r: StepResult)
    requires ValidEvent(e)
    ensures e.RecvError? ==> r == StepResult(s, [], Failed(NetworkError))
    ensures e.Datagram? && e.data[1] == ERROR ==>
      r == StepResult(s, [], Failed(ServerError(ErrorMessage(e.data))))
    ensures e.Datagram? && e.data[1] != ERROR && e.data[1] != DATA ==>
      r == StepResult(s, [], Failed(ProtocolError(SignedChar(e.data[1]))))
    ensures e.Datagram? && e.data[1] == DATA && !Accepted(s, e, io) ==>
      r == StepResult(s, [], Failed(LocalIoError))
  {
    match e
    case RecvError => StepResult(s, [], Failed(NetworkError))
    case Datagram(d, src) =>
      if Opcode(d) == ERROR then StepResult(s, [], Failed(ServerError(ErrorMessage(d))))
      else if Opcode(d) != DATA then StepResult(s, [], Failed(ProtocolError(Opcode(d))))
      else if !s.sinkOpen && !io.openOk then StepResult(s, [], Failed(LocalIoError))
      else Take(name, s, d, src, io)
  }

  /** Handles a DATA datagram once the output file is open: open it if it
      was not, write the payload if the block is new (counting it before
      the stream is checked for errors), then send the ACK back to the
      datagram's source unless the write failed. The transfer goes on only
      after a full block whose ACK went out in full. */
  function Take(name: seq<byte>, s: Session, d: seq<byte>, src: Address, io: HostIo): (r: StepResult)
    requires |d| >= 4
    ensures r.outcome == Failed(LocalIoError) <==> IsNewBlock(s, d) && !io.writeOk
    ensures r.outcome.Waiting? ==> SentInFull(io.ackSent, AckLength) && |Payload(d)| == BlockSize
  {
    var isNew := IsNewBlock(s, d);
    var writeFailed := isNew && !io.writeOk;
    var s' := if isNew then Session(true, s.blockCount + 1, s.byteCount + |Payload(d)|) else s.(sinkOpen := true);
    var open := if s.sinkOpen then [] else [OpenSink(BaseName(name))];
    var write := if isNew then [Append(BlockNumber(d), Payload(d))] else [];
    var ack := if writeFailed then [] else [SendAck(AckFor(d), src)];
    var outcome :=
      if writeFailed then Failed(LocalIoError)
      else if !SentInFull(io.ackSent, AckLength) then Failed(NetworkError)
      else if |Payload(d)| != BlockSize then Succeeded
      else Waiting;
    StepResult(s', open + write + ack, outcome)
  }

  /** How one event ends: a DATA datagram that gets past the open and the
      write and has its ACK sent in full lets the loop go on when it holds
      a full block and ends it with success otherwise; a failed write or
      open is a local failure, a short ACK send a network failure. */
  lemma StepOutcome(name: seq<byte>, s: Session, e: Event, io: HostIo)
    requires ValidEvent(e)
    ensures var r := Step(name, s, e, io);
      && (Accepted(s, e, io) && !Acknowledged(s, e, io) ==> r.outcome == Failed(LocalIoError))
      && (Acknowledged(s, e, io) && !SentInFull(io.ackSent, AckLength) ==> r.outcome == Failed(NetworkError))
      && (r.outcome == Succeeded <==>
            Acknowledged(s, e, io) && SentInFull(io.ackSent, AckLength) && |Payload(e.data)| != BlockSize)
      && (r.outcome.Waiting? <==>
            Acknowledged(s, e, io) && SentInFull(io.ackSent, AckLength) && |Payload(e.data)| == BlockSize)
      && (r.outcome.Waiting? ==> Continues(e, io))
      && (Acknowledged(s, e, io) <==> r.outcome.Waiting? || r.outcome == Succeeded || (r.outcome == Failed(NetworkError) && e.Datagram?))
  {
  }

  /** What one event writes: an accepted datagram whose block is new has
      its payload written, and the counters advance by that block and its
      bytes; nothing else writes. */
  lemma StepWrites(name: seq<byte>, s: Session, e: Event, io: HostIo)
    requires ValidEvent(e)
    ensures var r := Step(name, s, e, io);
      var isNew := Accepted(s, e, io) && IsNewBlock(s, e.data);
      && Written(r.effects) == (if isNew then Payload(e.data) else [])
      && AppendedBlocks(r.effects) == (if isNew then [BlockNumber(e.data)] else [])
      && r.session.blockCount == s.blockCount + |AppendedBlocks(r.effects)|
      && r.session.byteCount == s.byteCount + |Written(r.effects)|
  {
    StepEffects(name, s, e, io);
    WrittenOfThree(OpenEffect(name, s, e, io), WriteEffect(s, e, io), AckEffect(s, e, io));
    BlocksOfThree(OpenEffect(name, s, e, io), WriteEffect(s, e, io), AckEffect(s, e, io));
  }

  /** What one event sends: an accepted datagram whose write (if any)
      succeeds gets one ACK, echoing its block-number octets, sent back to
      the address it came from; nothing else is answered. */
  lemma StepAcks(name: seq<byte>, s: Session, e: Event, io: HostIo)
    requires ValidEvent(e)
    ensures var r := Step(name, s, e, io);
      Acks(r.effects) == (if Acknowledged(s, e, io) then [SendAck(AckFor(e.data), e.src)] else [])
  {
    StepEffects(name, s, e, io);
    AcksOfThree(OpenEffect(name, s, e, io), WriteEffect(s, e, io), AckEffect(s, e, io));
  }

  /** What one event does to the output file: an accepted datagram opens it,
      first of all, if it is not open; nothing else opens it. */
  lemma StepOpens(name: seq<byte>, s: Session, e: Event, io: HostIo)
    requires ValidEvent(e)
    ensures var r := Step(name, s, e, io);
      && Opens(r.effects) == (if Accepted(s, e, io) && !s.sinkOpen then [OpenSink(BaseName(name))] else [])
      && (r.session.sinkOpen <==> s.sinkOpen || Accepted(s, e, io))
      && (!s.sinkOpen && r.effects != [] ==> r.effects[0] == OpenSink(BaseName(name)))
  {
    StepEffects(name, s, e, io);
    OpensOfThree(OpenEffect(name, s, e, io), WriteEffect(s, e, io), AckEffect(s, e, io));
  }

  /** No event sends a request or closes the output file. */
  lemma StepSendsNoRequest(name: seq<byte>, s: Session, e: Event, io: HostIo)
    requires ValidEvent(e)
    ensures var r := Step(name, s, e, io);
      Requests(r.effects) == [] && CloseSink !in r.effects
  {
    StepEffects(name, s, e, io);
    RequestsOfThree(OpenEffect(name, s, e, io), WriteEffect(s, e, io), AckEffect(s, e, io));
    NoCloseOfThree(OpenEffect(name, s, e, io), WriteEffect(s, e, io), AckEffect(s, e, io));
  }

  /** The open an event causes, if any. */
  function OpenEffect(name: seq<byte>, s: Session, e: Event, io: HostIo): seq<Effect>
    requires ValidEvent(e)
  {
    if Accepted(s, e, io) && !s.sinkOpen then [OpenSink(BaseName(name))] else []
  }

  /** The append an event causes, if any. */
  function WriteEffect(s: Session, e: Event, io: HostIo): seq<Effect>
    requires ValidEvent(e)
  {
    if Accepted(s, e, io) && IsNewBlock(s, e.data) then [Append(BlockNumber(e.data), Payload(e.data))] else []
  }

  /** The ACK an event causes, if any. */
  function AckEffect(s: Session, e: Event, io: HostIo): seq<Effect>
    requires ValidEvent(e)
  {
    if Acknowledged(s, e, io) then [SendAck(AckFor(e.data), e.src)] else []
  }

  /** The effects of one event are an optional open, an optional append and
      an optional ACK, in that order. */
  lemma StepEffects(name: seq<byte>, s: Session, e: Event, io: HostIo)
    requires ValidEvent(e)
    ensures Step(name, s, e, io).effects == OpenEffect(name, s, e, io) + WriteEffect(s, e, io) + AckEffect(s, e, io)
    ensures HandledShape(OpenEffect(name, s, e, io), WriteEffect(s, e, io), AckEffect(s, e, io))
  {
    if Accepted(s, e, io) {
      assert Step(name, s, e, io) == Take(name, s, e.data, e.src, io);
    } else {
      assert Step(name, s, e, io).effects == [];
    }
  }

  /** The loop goes on only after an ACK. */
  lemma StepGoesOnAfterAck(name: seq<byte>, s: Session, e: Event, io: HostIo)
    requires ValidEvent(e) && Step(name, s, e, io).outcome.Waiting?
    ensures Acknowledged(s, e, io)
  {
  }

  /** An acknowledged datagram's last effect is its ACK. */
  lemma StepEndsWithAck(name: seq<byte>, s: Session, e: Event, io: HostIo)
    requires ValidEvent(e) && Acknowledged(s, e, io)
    ensures var r := Step(name, s, e, io);
      r.effects != [] && r.effects[|r.effects| - 1] == SendAck(AckFor(e.data), e.src)
  {
    var d := e.data;
    assert Step(name, s, e, io) == Take(name, s, d, e.src, io);
  }

  /** The receive loop over the events that arrive, `io[i]` being what the
      host reports while event `i` is handled. */
  function Loop(name: seq<byte>, s: Session, events: seq<Event>, io: seq<HostIo>): (r: Run)
    requires ValidEvents(events) && |io| == |events|
    ensures r.consumed <= |events|
    ensures r.outcome.Waiting? ==> r.consumed == |events|
    ensures !r.outcome.Waiting? ==> r.consumed > 0
    decreases |events|
  {
    if |events| == 0 then Run(s, [], Waiting, 0)
    else
      var step := Step(name, s, events[0], io[0]);
      if step.outcome.Waiting? then
        var rest := Loop(name, step.session, events[1..], io[1..]);
        Run(rest.session, step.effects + rest.effects, rest.outcome, rest.consumed + 1)
      else Run(step.session, step.effects, step.outcome, 1)
  }

  /** The number of events the loop acknowledged: all it consumed, save a
      last one that failed before its ACK was sent. */
  function AckedCount(r: Run): nat
  {
    if r.outcome.Failed? && r.outcome.why != NetworkError && r.consumed > 0 then r.consumed - 1
    else r.consumed
  }

  /** An event the loop goes on after: a full DATA block whose ACK was sent
      in full. */
  predicate Continues(e: Event, io: HostIo)
    requires ValidEvent(e)
  {
    e.Datagram? && e.data[1] == DATA && |Payload(e.data)| == BlockSize && SentInFull(io.ackSent, AckLength)
  }

  // ---------------------------------------------------------------------
  // Properties of the loop

  /** The loop gives up at the first problem: every event before the last
      one it consumed (every event, while it is still waiting) is a full
      DATA block that was acknowledged in full. */
  lemma {:induction false} LoopGoesOnOnlyAfterFullBlocks(
    name: seq<byte>, s: Session, events: seq<Event>, io: seq<HostIo>)
    requires ValidEvents(events) && |io| == |events|
    ensures var r := Loop(name, s, events, io);
      forall i :: 0 <= i < |events| && (i < r.consumed - 1 || r.outcome.Waiting?) ==> Continues(events[i], io[i])
    decreases |events|
  {
    if |events| > 0 {
      var step := Step(name, s, events[0], io[0]);
      StepOutcome(name, s, events[0], io[0]);
      if step.outcome.Waiting? {
        LoopGoesOnOnlyAfterFullBlocks(name, step.session, events[1..], io[1..]);
        var r := Loop(name, s, events, io);
        forall i | 0 <= i < |events| && (i < r.consumed - 1 || r.outcome.Waiting?)
          ensures Continues(events[i], io[i])
        {
          if i > 0 {
            assert events[i] == events[1..][i - 1] && io[i] == io[1..][i - 1];
          }
        }
      }
    }
  }

  /** A success ends at a DATA datagram whose payload is not a full block,
      with its ACK as the last effect. */
  lemma {:induction false} LoopSucceedsOnShortBlock(
    name: seq<byte>, s: Session, events: seq<Event>, io: seq<HostIo>)
    requires ValidEvents(events) && |io| == |events|
    ensures var r := Loop(name, s, events, io);
      r.outcome == Succeeded ==>
        var last := events[r.consumed - 1];
        && last.Datagram? && last.data[1] == DATA && |Payload(last.data)| != BlockSize
        && r.effects != [] && r.effects[|r.effects| - 1] == SendAck(AckFor(last.data), last.src)
    decreases |events|
  {
    if |events| > 0 {
      var step := Step(name, s, events[0], io[0]);
      if step.outcome.Waiting? {
        LoopSucceedsOnShortBlock(name, step.session, events[1..], io[1..]);
        var rest := Loop(name, step.session, events[1..], io[1..]);
        if rest.outcome == Succeeded {
          LastOfConcat(step.effects, rest.effects);
          assert events[rest.consumed] == events[1..][rest.consumed - 1];
        }
      } else if step.outcome == Succeeded {
        StepOutcome(name, s, events[0], io[0]);
        StepEndsWithAck(name, s, events[0], io[0]);
      }
    }
  }

  lemma LastOfConcat(a: seq<Effect>, b: seq<Effect>)
    requires b != []
    ensures (a + b)[|a + b| - 1] == b[|b| - 1]
  {
  }

  /** The counters track the file: the byte counter grows by the bytes
      written and the block counter by the blocks written. */
  lemma {:induction false} LoopCountsWrites(name: seq<byte>, s: Session, events: seq<Event>, io: seq<HostIo>)
    requires ValidEvents(events) && |io| == |events|
    ensures var r := Loop(name, s, events, io);
      && r.session.byteCount == s.byteCount + |Written(r.effects)|
      && r.session.blockCount == s.blockCount + |AppendedBlocks(r.effects)|
    decreases |events|
  {
    if |events| > 0 {
      var step := Step(name, s, events[0], io[0]);
      StepWrites(name, s, events[0], io[0]);
      if step.outcome.Waiting? {
        LoopCountsWrites(name, step.session, events[1..], io[1..]);
        WrittenDistributes(step.effects, Loop(name, step.session, events[1..], io[1..]).effects);
        BlocksDistribute(step.effects, Loop(name, step.session, events[1..], io[1..]).effects);
      }
    }
  }

  /** Each block written is numbered above the count at the time, so the
      j-th one written has a number above the starting count plus j; a
      block that skips ahead is accepted, and counted as one. */
  lemma {:induction false} LoopWritesBlocksAboveCount(name: seq<byte>, s: Session, events: seq<Event>, io: seq<HostIo>)
    requires ValidEvents(events) && |io| == |events|
    ensures AboveCount(AppendedBlocks(Loop(name, s, events, io).effects), s.blockCount)
    decreases |events|
  {
    if |events| > 0 {
      var step := Step(name, s, events[0], io[0]);
      StepBlocksAboveCount(name, s, events[0], io[0]);
      if step.outcome.Waiting? {
        LoopWritesBlocksAboveCount(name, step.session, events[1..], io[1..]);
        var rest := Loop(name, step.session, events[1..], io[1..]);
        assert Loop(name, s, events, io).effects == step.effects + rest.effects;
        BlocksDistribute(step.effects, rest.effects);
        AboveCountConcat(AppendedBlocks(step.effects), AppendedBlocks(rest.effects), s.blockCount);
      }
    }
  }

  /** The block one event writes, if any, is above the count, and the count
      goes up by the blocks written. */
  lemma StepBlocksAboveCount(name: seq<byte>, s: Session, e: Event, io: HostIo)
    requires ValidEvent(e)
    ensures var r := Step(name, s, e, io);
      && AboveCount(AppendedBlocks(r.effects), s.blockCount)
      && r.session.blockCount == s.blockCount + |AppendedBlocks(r.effects)|
  {
    StepWrites(name, s, e, io);
  }

  /** Every datagram the loop takes, other than one that ends it before its
      ACK goes out, is answered by exactly one ACK, in order, that echoes
      its block-number octets to the address it came from. */
  lemma {:induction false} LoopAcksEachDatagram(name: seq<byte>, s: Session, events: seq<Event>, io: seq<HostIo>)
    requires ValidEvents(events) && |io| == |events|
    ensures var r := Loop(name, s, events, io);
      AckedCount(r) <= |events| && Acks(r.effects) == AcksFor(events[..AckedCount(r)])
    decreases |events|
  {
    if |events| > 0 {
      var step := Step(name, s, events[0], io[0]);
      var r := Loop(name, s, events, io);
      StepAcks(name, s, events[0], io[0]);
      StepOutcome(name, s, events[0], io[0]);
      AcksForOne(events[0]);
      if step.outcome.Waiting? {
        LoopAcksEachDatagram(name, step.session, events[1..], io[1..]);
        var rest := Loop(name, step.session, events[1..], io[1..]);
        AcksDistribute(step.effects, rest.effects);
        assert AckedCount(r) == AckedCount(rest) + 1;
        PrefixOfTail(events, AckedCount(rest));
        assert ValidEvents(events[1..][..AckedCount(rest)]);
        AcksForDistribute([events[0]], events[1..][..AckedCount(rest)]);
      } else if AckedCount(r) == 0 {
        assert events[..AckedCount(r)] == [];
      } else {
        assert events[..AckedCount(r)] == [events[0]];
      }
    }
  }

  /** Once open, the output file stays open; it is opened at most once:
      by the first DATA datagram for which the open succeeds, even one that
      carries no data or repeats an old block. */
  lemma {:induction false} LoopOpensOnce(name: seq<byte>, s: Session, events: seq<Event>, io: seq<HostIo>)
    requires ValidEvents(events) && |io| == |events|
    ensures var r := Loop(name, s, events, io);
      && (s.sinkOpen ==> r.session.sinkOpen)
      && Opens(r.effects) == (if s.sinkOpen || !r.session.sinkOpen then [] else [OpenSink(BaseName(name))])
    decreases |events|
  {
    if |events| > 0 {
      var step := Step(name, s, events[0], io[0]);
      var r := Loop(name, s, events, io);
      StepOpensOnce(name, s, events[0], io[0]);
      if step.outcome.Waiting? {
        var rest := Loop(name, step.session, events[1..], io[1..]);
        assert r.effects == step.effects + rest.effects && r.session == rest.session;
        LoopOpensOnce(name, step.session, events[1..], io[1..]);
        OpensDistribute(step.effects, rest.effects);
        assert step.session.sinkOpen ==> Opens(rest.effects) == [];
      } else {
        assert r.effects == step.effects && r.session == step.session;
      }
    }
  }

  /** One event opens the file exactly when it leaves a closed file open. */
  lemma StepOpensOnce(name: seq<byte>, s: Session, e: Event, io: HostIo)
    requires ValidEvent(e)
    ensures var r := Step(name, s, e, io);
      && (s.sinkOpen ==> r.session.sinkOpen)
      && Opens(r.effects) == (if s.sinkOpen || !r.session.sinkOpen then [] else [OpenSink(BaseName(name))])
  {
    StepOpens(name, s, e, io);
  }

  /** The open, when there is one, is the loop's first effect. */
  lemma LoopOpensFirst(name: seq<byte>, s: Session, events: seq<Event>, io: seq<HostIo>)
    requires ValidEvents(events) && |io| == |events|
    ensures var r := Loop(name, s, events, io);
      !s.sinkOpen && r.effects != [] ==> r.effects[0] == OpenSink(BaseName(name))
  {
    if |events| > 0 {
      var step := Step(name, s, events[0], io[0]);
      StepOpens(name, s, events[0], io[0]);
      if step.outcome.Waiting? {
        var rest := Loop(name, step.session, events[1..], io[1..]);
        StepGoesOnAfterAck(name, s, events[0], io[0]);
        StepEndsWithAck(name, s, events[0], io[0]);
        assert (step.effects + rest.effects)[0] == step.effects[0];
      }
    }
  }

  /** A new block whose write fails is still handed to the file and still
      counted, since the counters advance before the stream is checked for
      errors; it is not acknowledged, and the transfer fails. */
  lemma FailedWriteStillCounted(name: seq<byte>, s: Session, d: seq<byte>, src: Address, io: HostIo)
    requires 4 <= |d| <= MaxDatagram && d[1] == DATA && (s.sinkOpen || io.openOk)
    requires IsNewBlock(s, d) && !io.writeOk
    ensures var r := Step(name, s, Datagram(d, src), io);
      && r.outcome == Failed(LocalIoError)
      && Written(r.effects) == Payload(d)
      && r.session.blockCount == s.blockCount + 1
      && r.session.byteCount == s.byteCount + |Payload(d)|
      && Acks(r.effects) == []
  {
    StepWrites(name, s, Datagram(d, src), io);
    StepAcks(name, s, Datagram(d, src), io);
    StepOutcome(name, s, Datagram(d, src), io);
  }

  /** An empty block, or one numbered at or below the count, still opens
      the output file (and is acknowledged) though nothing is written. */
  lemma StaleBlockOpensFile(name: seq<byte>, s: Session, d: seq<byte>, src: Address, io: HostIo)
    requires 4 <= |d| <= MaxDatagram && d[1] == DATA
    requires !s.sinkOpen && io.openOk
    requires |Payload(d)| == 0 || BlockNumber(d) <= s.blockCount
    ensures var r := Step(name, s, Datagram(d, src), io);
      && r.session.sinkOpen
      && Opens(r.effects) == [OpenSink(BaseName(name))]
      && Written(r.effects) == []
      && Acks(r.effects) == [SendAck(AckFor(d), src)]
  {
    StepWrites(name, s, Datagram(d, src), io);
    StepAcks(name, s, Datagram(d, src), io);
    StepOpens(name, s, Datagram(d, src), io);
  }

  /** A block resent after it was accepted is not written again, provided
      it was at most one past the count: accepting it raises the count to
      its number. (A block that skipped ahead is another matter: see
      SkippedBlockRewritten.) */
  lemma {:induction false} ResentBlockNotRewritten(
    name: seq<byte>, s: Session, d: seq<byte>, src: Address, first: HostIo, again: HostIo)
    requires 4 <= |d| <= MaxDatagram && BlockNumber(d) <= s.blockCount + 1
    requires Step(name, s, Datagram(d, src), first).outcome.Waiting?
    ensures var s' := Step(name, s, Datagram(d, src), first).session;
      Written(Step(name, s', Datagram(d, src), again).effects) == []
  {
    var s' := Step(name, s, Datagram(d, src), first).session;
    StepWrites(name, s', Datagram(d, src), again);
    StepWrites(name, s, Datagram(d, src), first);
    assert BlockNumber(d) <= s'.blockCount;
  }

  /** The documented limitation: once 65535 blocks are accepted, no 16-bit
      block number is above the count, so nothing more is written and the
      rest of a larger file is silently dropped. */
  lemma {:induction false} NothingWrittenPastLastBlockNumber(
    name: seq<byte>, s: Session, events: seq<Event>, io: seq<HostIo>)
    requires ValidEvents(events) && |io| == |events|
    requires s.blockCount >= 0xFFFF
    ensures Written(Loop(name, s, events, io).effects) == []
    ensures Loop(name, s, events, io).session.blockCount == s.blockCount
    decreases |events|
  {
    if |events| > 0 {
      var step := Step(name, s, events[0], io[0]);
      if events[0].Datagram? {
        assert !IsNewBlock(s, events[0].data);
      }
      StepWrites(name, s, events[0], io[0]);
      if step.outcome.Waiting? {
        NothingWrittenPastLastBlockNumber(name, step.session, events[1..], io[1..]);
        WrittenDistributes(step.effects, Loop(name, step.session, events[1..], io[1..]).effects);
      }
    }
  }

  lemma {:induction false} NoRequestsInLoop(name: seq<byte>, s: Session, events: seq<Event>, io: seq<HostIo>)
    requires ValidEvents(events) && |io| == |events|
    ensures Requests(Loop(name, s, events, io).effects) == []
    ensures CloseSink !in Loop(name, s, events, io).effects
    decreases |events|
  {
    if |events| > 0 {
      var step := Step(name, s, events[0], io[0]);
      StepSendsNoRequest(name, s, events[0], io[0]);
      if step.outcome.Waiting? {
        NoRequestsInLoop(name, step.session, events[1..], io[1..]);
        RequestsDistribute(step.effects, Loop(name, step.session, events[1..], io[1..]).effects);
      }
    }
  }

  // ---------------------------------------------------------------------
  // The whole transfer

  /** get_file: sends the read request to the server and gives up at once
      if it does not go out in full; otherwise runs the receive loop, and
      once the loop ends closes the output file if it was opened. A failed
      close turns a success into a failure. `requestSent` and `closeOk` are
      what the host reports for the request send and the close. */
  function GetFile(
    name: seq<byte>, server: Address, requestSent: SendResult, closeOk: bool,
    events: seq<Event>, io: seq<HostIo>): (t: Transfer)
    requires ValidName(name) && ValidEvents(events) && |io| == |events|
    ensures !SentInFull(requestSent, |name| + 9) ==>
      t == Transfer([SendRequest(EncodeRequest(name), server)], Failed(NetworkError), Initial, 0)
  {
    var request := [SendRequest(EncodeRequest(name), server)];
    if !SentInFull(requestSent, |EncodeRequest(name)|) then Transfer(request, Failed(NetworkError), Initial, 0)
    else Bracket(request, Loop(name, Initial, events, io), closeOk)
  }

  /** The clean-up after the loop: close the file if it was opened; a
      failed close makes the result a failure. */
  function Bracket(request: seq<Effect>, run: Run, closeOk: bool): (t: Transfer)
    ensures t.session == run.session && t.consumed == run.consumed
    ensures t.outcome == Succeeded <==> run.outcome == Succeeded && (closeOk || !run.session.sinkOpen)
    ensures t.outcome.Waiting? <==> run.outcome.Waiting?
  {
    if run.outcome.Waiting? then Transfer(request + run.effects, Waiting, run.session, run.consumed)
    else
      var close := if run.session.sinkOpen then [CloseSink] else [];
      var outcome := if run.outcome == Succeeded && run.session.sinkOpen && !closeOk then Failed(LocalIoError) else run.outcome;
      Transfer(request + run.effects + close, outcome, run.session, run.consumed)
  }

  /** get_file returns 0 exactly when the request went out in full, the
      loop ended with a short DATA block whose ACK went out in full, and the
      file closed cleanly. A success always has the file open. */
  lemma GetFileReturnsZero(
    name: seq<byte>, server: Address, requestSent: SendResult, closeOk: bool,
    events: seq<Event>, io: seq<HostIo>)
    requires ValidName(name) && ValidEvents(events) && |io| == |events|
    ensures var t := GetFile(name, server, requestSent, closeOk, events, io);
      var run := Loop(name, Initial, events, io);
      && (!t.outcome.Waiting? ==>
            (ReturnCode(t.outcome) == 0 <==>
               SentInFull(requestSent, |name| + 9) && run.outcome == Succeeded && closeOk))
      && (t.outcome == Succeeded ==> t.session.sinkOpen)
  {
    var run := Loop(name, Initial, events, io);
    if run.outcome == Succeeded {
      LoopOpensOnce(name, Initial, events, io);
      LoopAcksEachDatagram(name, Initial, events, io);
      SucceededOpened(name, Initial, events, io);
    }
  }

  /** A loop that succeeds has opened the output file. */
  lemma {:induction false} SucceededOpened(name: seq<byte>, s: Session, events: seq<Event>, io: seq<HostIo>)
    requires ValidEvents(events) && |io| == |events|
    requires Loop(name, s, events, io).outcome == Succeeded
    ensures Loop(name, s, events, io).session.sinkOpen
    decreases |events|
  {
    var step := Step(name, s, events[0], io[0]);
    StepOpens(name, s, events[0], io[0]);
    if step.outcome.Waiting? {
      SucceededOpened(name, step.session, events[1..], io[1..]);
    }
  }

  /** A transfer sends one read request, before anything else; the output
      file, if opened, is closed last once the loop ends, and a file never
      opened is never closed. */
  lemma GetFileRequestsOnce(
    name: seq<byte>, server: Address, requestSent: SendResult, closeOk: bool,
    events: seq<Event>, io: seq<HostIo>)
    requires ValidName(name) && ValidEvents(events) && |io| == |events|
    ensures var t := GetFile(name, server, requestSent, closeOk, events, io);
      && t.effects[0] == SendRequest(EncodeRequest(name), server)
      && Requests(t.effects) == [SendRequest(EncodeRequest(name), server)]
      && (!t.outcome.Waiting? && t.session.sinkOpen ==> t.effects[|t.effects| - 1] == CloseSink)
      && (!t.session.sinkOpen ==> CloseSink !in t.effects)
  {
    var request := [SendRequest(EncodeRequest(name), server)];
    ViewsOfOne(request);
    if SentInFull(requestSent, |EncodeRequest(name)|) {
      var run := Loop(name, Initial, events, io);
      NoRequestsInLoop(name, Initial, events, io);
      BracketRequestsOnce(request, run, closeOk);
    }
  }

  lemma BracketRequestsOnce(request: seq<Effect>, run: Run, closeOk: bool)
    requires |request| == 1 && request[0].SendRequest?
    requires Requests(run.effects) == [] && CloseSink !in run.effects
    ensures var t := Bracket(request, run, closeOk);
      && t.effects[0] == request[0]
      && Requests(t.effects) == request
      && (!t.outcome.Waiting? && t.session.sinkOpen ==> t.effects[|t.effects| - 1] == CloseSink)
      && (!t.session.sinkOpen ==> CloseSink !in t.effects)
  {
    assert request == [request[0]];
    if run.outcome.Waiting? {
      Bracketed(request[0], run.effects, []);
      assert request + run.effects == request + run.effects + [];
    } else {
      Bracketed(request[0], run.effects, if run.session.sinkOpen then [CloseSink] else []);
    }
  }

  // ---------------------------------------------------------------------
  // The block number as written

  /** The value of a C `int` converted to `unsigned short`: reduced
      modulo 2^16. */
  function UnsignedShort(c: int): (u: nat)
    ensures u < 0x1_0000 && (u - c) % 0x1_0000 == 0
  {
    c % 0x1_0000
  }

  /** Bitwise or of two octets. */
  function Or8(a: byte, b: byte): byte
  {
    ((a as bv8) | (b as bv8)) as int
  }

  /** Bitwise or of two 16-bit values, octet by octet. */
  function Or16(a: nat, b: nat): (r: nat)
    requires a < 0x1_0000 && b < 0x1_0000
    ensures r < 0x1_0000
  {
    Or8(a / 256, b / 256) * 256 + Or8(a % 256, b % 256)
  }

  /** The block number as client.c computes it with a signed `char`: each
      octet is converted through its signed value to unsigned short, the
      high one shifted left by 8, the two or-ed and stored in an unsigned
      short. A low octet of 128 or more converts to 0xFF80 and up, and its
      one bits cover the high octet. */
  function BlockNumberAsWritten(d: seq<byte>): (n: nat)
    requires |d| >= 4
    ensures n < 0x1_0000
  {
    Or16(UnsignedShort(UnsignedShort(SignedChar(d[2])) * 256), UnsignedShort(SignedChar(d[3])))
  }

  /** As written, the block number is right while the low octet is below
      128; from 128 on it is 0xFF00 plus the low octet, whatever the high
      octet. */
  lemma BlockNumberAsWrittenReads(d: seq<byte>)
    requires |d| >= 4
    ensures BlockNumberAsWritten(d) == if d[3] < 128 then BlockNumber(d) else 0xFF00 + d[3] as int
  {
    var high := d[2];
    var low := d[3];
    assert UnsignedShort(UnsignedShort(SignedChar(high)) * 256) == high as int * 256;
    if low < 128 {
      assert UnsignedShort(SignedChar(low)) == low;
      OrBelow(high, low);
    } else {
      assert UnsignedShort(SignedChar(low)) == 255 * 256 + low as int;
      OrCovered(high, low);
    }
  }

  lemma OrBelow(high: byte, low: byte)
    ensures Or16(high as int * 256, low) == high as int * 256 + low
  {
    var a: int := high as int * 256;
    assert a / 256 == high && a % 256 == 0;
    assert low as int / 256 == 0 && low as int % 256 == low;
    OrWithZero(high);
    OrWithZero(low);
  }

  lemma OrCovered(high: byte, low: byte)
    ensures Or16(high as int * 256, 255 * 256 + low as int) == 255 * 256 + low as int
  {
    var a: int := high as int * 256;
    var b: int := 255 * 256 + low as int;
    assert a / 256 == high && a % 256 == 0;
    assert b / 256 == 255 && b % 256 == low;
    OrWithOnes(high);
    OrWithZero(low);
  }

  lemma OrWithZero(x: byte)
    ensures Or8(x, 0) == x && Or8(0, x) == x
  {
    assert (x as bv8) | 0 == x as bv8;
    assert 0 | (x as bv8) == x as bv8;
  }

  lemma OrWithOnes(x: byte)
    ensures Or8(x, 255) == 255
  {
    assert (x as bv8) | 0xFF == 0xFF;
  }

  /** The new-block test with the block number as written. */
  predicate IsNewBlockAsWritten(s: Session, d: seq<byte>)
    requires |d| >= 4
  {
    |Payload(d)| > 0 && BlockNumberAsWritten(d) > s.blockCount
  }

  /** With the block number as written, block 128 reads as 65408, so once
      it is accepted, its resend passes the new-block test and would be
      written a second time; the unsigned block number rejects it. */
  lemma ResentBlockRewrittenAsWritten()
    ensures var d := DataPacket(128, [7]);
      var afterFirst := Session(true, 128, 512 * 127 + 1);
      && BlockNumberAsWritten(d) == 0xFF80
      && IsNewBlockAsWritten(afterFirst, d)
      && !IsNewBlock(afterFirst, d)
  {
    var d := DataPacket(128, [7]);
    assert d[2] == 0 && d[3] == 128;
    BlockNumberAsWrittenReads(d);
  }

  /** A block that skips ahead is written, but the count goes up by one
      only; when the block is resent it is still above the count and is
      written again. */
  lemma SkippedBlockRewritten(name: seq<byte>, src: Address)
    ensures var d := DataPacket(3, [7]);
      var ok := HostIo(true, true, SentBytes(AckLength));
      var first := Step(name, Initial, Datagram(d, src), ok);
      var again := Step(name, first.session, Datagram(d, src), ok);
      && Written(first.effects) == [7]
      && Written(again.effects) == [7]
  {
    var d := DataPacket(3, [7]);
    var ok := HostIo(true, true, SentBytes(AckLength));
    StepWrites(name, Initial, Datagram(d, src), ok);
    var first := Step(name, Initial, Datagram(d, src), ok);
    StepWrites(name, first.session, Datagram(d, src), ok);
  }
}
