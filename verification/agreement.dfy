/** How the two clients and the server fit together: what each client does
    with the server's one reply, how a clean stream of DATA blocks (as
    section 6 of RFC 1350 has a sender cut a file) is received by either
    client, and the inputs on which the two clients part ways. */
module Agreement {
  import opened Wire
  import opened Engine
  import PosixClient
  import WindowsClient
  import Server
  import Stopwatch

  /** What the Windows client's host reports when nothing goes wrong: the
      open and the write succeed and the ACK goes out in full. */
  const Smooth: WindowsClient.HostIo := WindowsClient.HostIo(true, true, SentBytes(AckLength))

  function SmoothRun(n: nat): (io: seq<WindowsClient.HostIo>)
    ensures |io| == n && forall i :: 0 <= i < n ==> io[i] == Smooth
  {
    seq(n, i => Smooth)
  }

  // ---------------------------------------------------------------------
  // The server's reply

  /** The server's ERROR reply, arriving first from any address, ends
      either client's transfer with the server's message: nothing is
      opened, written or acknowledged, and only the request was sent. */
  lemma ErrorReplyEndsTransfer(
    name: seq<byte>, server: Address, src: Address, rest: seq<Event>,
    io: seq<WindowsClient.HostIo>, closeOk: bool,
    uninitialized: Stopwatch.Timer, startedAt: Stopwatch.TimeVal, finishedAt: Stopwatch.TimeVal)
    requires ValidName(name) && ValidEvents(rest) && |io| == |rest| + 1
    ensures ValidEvents([Datagram(Server.ErrorDatagram(), src)] + rest)
    ensures var events := [Datagram(Server.ErrorDatagram(), src)] + rest;
      var p := PosixClient.ReceiveFile(name, server, events, uninitialized, startedAt, finishedAt).transfer;
      var w := WindowsClient.GetFile(name, server, SentBytes(|name| + 9), closeOk, events, io);
      && p.outcome == Failed(ServerError(Server.NotImplemented))
      && w.outcome == Failed(ServerError(Server.NotImplemented))
      && p.effects == [SendRequest(EncodeRequest(name), server)]
      && w.effects == p.effects
  {
    Server.ErrorDatagramIsErrorPacket();
    ErrorPacketEndsTransfer(name, server, Server.ErrorDatagram(), src, rest, io, closeOk, uninitialized, startedAt, finishedAt);
  }

  /** Any ERROR packet arriving first ends either client's transfer with
      its message, after the request and nothing else. */
  lemma ErrorPacketEndsTransfer(
    name: seq<byte>, server: Address, d: seq<byte>, src: Address, rest: seq<Event>,
    io: seq<WindowsClient.HostIo>, closeOk: bool,
    uninitialized: Stopwatch.Timer, startedAt: Stopwatch.TimeVal, finishedAt: Stopwatch.TimeVal)
    requires ValidName(name) && ValidEvents(rest) && |io| == |rest| + 1
    requires 4 <= |d| <= MaxDatagram && d[0] == 0 && d[1] == ERROR
    ensures ValidEvents([Datagram(d, src)] + rest)
    ensures var events := [Datagram(d, src)] + rest;
      var p := PosixClient.ReceiveFile(name, server, events, uninitialized, startedAt, finishedAt).transfer;
      var w := WindowsClient.GetFile(name, server, SentBytes(|name| + 9), closeOk, events, io);
      && p.outcome == Failed(ServerError(ErrorMessage(d)))
      && w.outcome == Failed(ServerError(ErrorMessage(d)))
      && p.effects == [SendRequest(EncodeRequest(name), server)]
      && w.effects == p.effects
  {
    PosixStopsAtError(name, Initial, d, src, rest);
    WindowsStopsAtError(name, Initial, d, src, rest, io);
    var request := [SendRequest(EncodeRequest(name), server)];
    assert request + [] == request;
  }

  /** An ERROR packet first in the run ends the POSIX loop at once. */
  lemma PosixStopsAtError(name: seq<byte>, s: Session, d: seq<byte>, src: Address, rest: seq<Event>)
    requires 4 <= |d| <= MaxDatagram && d[0] == 0 && d[1] == ERROR && ValidEvents(rest)
    ensures ValidEvents([Datagram(d, src)] + rest)
    ensures PosixClient.Loop(name, s, [Datagram(d, src)] + rest) == Run(s, [], Failed(ServerError(ErrorMessage(d))), 1)
  {
    AcksForDistribute([Datagram(d, src)], rest);
    assert ([Datagram(d, src)] + rest)[0] == Datagram(d, src);
    assert PosixClient.IsError(d);
  }

  /** An ERROR packet first in the run ends the Windows loop at once. */
  lemma WindowsStopsAtError(
    name: seq<byte>, s: Session, d: seq<byte>, src: Address, rest: seq<Event>, io: seq<WindowsClient.HostIo>)
    requires 4 <= |d| <= MaxDatagram && d[0] == 0 && d[1] == ERROR && ValidEvents(rest) && |io| == |rest| + 1
    ensures ValidEvents([Datagram(d, src)] + rest)
    ensures WindowsClient.Loop(name, s, [Datagram(d, src)] + rest, io) == Run(s, [], Failed(ServerError(ErrorMessage(d))), 1)
  {
    AcksForDistribute([Datagram(d, src)], rest);
    assert ([Datagram(d, src)] + rest)[0] == Datagram(d, src);
  }

  // ---------------------------------------------------------------------
  // A clean stream of blocks

  /** The blocks a file is sent in: full 512-byte blocks, then one shorter
      block, empty when the file's length is a multiple of 512. */
  predicate FileBlocks(blocks: seq<seq<byte>>) {
    && |blocks| > 0
    && (forall i :: 0 <= i < |blocks| - 1 ==> |blocks[i]| == BlockSize)
    && |blocks[|blocks| - 1]| < BlockSize
  }

  function Concat(blocks: seq<seq<byte>>): seq<byte>
  {
    if |blocks| == 0 then [] else blocks[0] + Concat(blocks[1..])
  }

  /** A file cut into the blocks a sender sends. */
  function Blocks(file: seq<byte>): (blocks: seq<seq<byte>>)
    ensures |blocks| == |file| / BlockSize + 1
    ensures FileBlocks(blocks)
    ensures Concat(blocks) == file
    decreases |file|
  {
    if |file| < BlockSize then
      assert [file][1..] == [];
      [file]
    else
      var head := file[..BlockSize];
      var tail := Blocks(file[BlockSize..]);
      var blocks := [head] + tail;
      assert blocks[1..] == tail;
      assert forall i :: 1 <= i < |blocks| ==> blocks[i] == tail[i - 1];
      assert head + file[BlockSize..] == file;
      blocks
  }

  /** The DATA datagrams carrying `blocks`, numbered from `first`, all from
      `src`. */
  function Stream(blocks: seq<seq<byte>>, first: nat, src: Address): (events: seq<Event>)
    requires first + |blocks| <= 0x1_0000
    requires forall i :: 0 <= i < |blocks| ==> |blocks[i]| <= BlockSize
    ensures |events| == |blocks| && ValidEvents(events)
  {
    seq(|blocks|, i requires 0 <= i < |blocks| => Datagram(DataPacket(first + i, blocks[i]), src))
  }

  /** The i-th datagram of a stream carries the i-th block, numbered from
      `first`. */
  lemma StreamAt(blocks: seq<seq<byte>>, first: nat, src: Address, i: nat)
    requires first + |blocks| <= 0x1_0000
    requires forall i :: 0 <= i < |blocks| ==> |blocks[i]| <= BlockSize
    requires i < |blocks|
    ensures Stream(blocks, first, src)[i] == Datagram(DataPacket(first + i, blocks[i]), src)
  {
  }

  lemma StreamTail(blocks: seq<seq<byte>>, first: nat, src: Address)
    requires |blocks| > 0 && first + |blocks| <= 0x1_0000
    requires forall i :: 0 <= i < |blocks| ==> |blocks[i]| <= BlockSize
    ensures Stream(blocks, first, src)[1..] == Stream(blocks[1..], first + 1, src)
  {
    var a := Stream(blocks, first, src)[1..];
    var b := Stream(blocks[1..], first + 1, src);
    assert |a| == |b|;
    forall i | 0 <= i < |a| ensures a[i] == b[i] {
      assert a[i] == Stream(blocks, first, src)[i + 1];
    }
  }

  lemma FileBlocksTail(blocks: seq<seq<byte>>)
    requires FileBlocks(blocks) && |blocks| > 1
    ensures FileBlocks(blocks[1..]) && |blocks[0]| == BlockSize
  {
    forall i | 0 <= i < |blocks[1..]| - 1 ensures |blocks[1..][i]| == BlockSize {
      assert blocks[1..][i] == blocks[i + 1];
    }
  }

  /** The POSIX client receives a clean stream whole: it writes exactly the
      blocks' contents, in order, and ends with success after the last. */
  lemma {:induction false} PosixReceivesStream(name: seq<byte>, s: Session, blocks: seq<seq<byte>>, src: Address)
    requires FileBlocks(blocks) && s.blockCount + |blocks| < 0x1_0000
    ensures var r := PosixClient.Loop(name, s, Stream(blocks, s.blockCount + 1, src));
      && r.outcome == Succeeded && r.consumed == |blocks| && r.session.sinkOpen
      && Written(r.effects) == Concat(blocks)
    decreases |blocks|
  {
    var events := Stream(blocks, s.blockCount + 1, src);
    PosixStreamHead(name, s, blocks, src);
    var step := PosixClient.Step(name, s, events[0]);
    if |blocks| == 1 {
      assert Concat(blocks) == blocks[0] + Concat([]);
    } else {
      PosixReceivesStream(name, step.session, blocks[1..], src);
      var rest := PosixClient.Loop(name, step.session, events[1..]);
      WrittenDistributes(step.effects, rest.effects);
    }
  }

  /** The first block of a clean stream, at the POSIX client: it is
      written, and the loop goes on exactly when more blocks follow, at
      the next count and on the rest of the stream. */
  lemma PosixStreamHead(name: seq<byte>, s: Session, blocks: seq<seq<byte>>, src: Address)
    requires FileBlocks(blocks) && s.blockCount + |blocks| < 0x1_0000
    ensures var events := Stream(blocks, s.blockCount + 1, src);
      var step := PosixClient.Step(name, s, events[0]);
      && Written(step.effects) == blocks[0]
      && step.session.sinkOpen
      && (step.outcome.Waiting? <==> |blocks| > 1)
      && (|blocks| == 1 ==> step.outcome == Succeeded)
      && (|blocks| > 1 ==>
            && step.session.blockCount == s.blockCount + 1
            && FileBlocks(blocks[1..])
            && events[1..] == Stream(blocks[1..], s.blockCount + 2, src))
  {
    StreamAt(blocks, s.blockCount + 1, src, 0);
    PosixTakesNextBlock(name, s, blocks[0], src);
    if |blocks| > 1 {
      FileBlocksTail(blocks);
      StreamTail(blocks, s.blockCount + 1, src);
    } else {
      assert |blocks[0]| < BlockSize;
    }
  }

  /** The POSIX client takes the block numbered one past its count: it
      writes the payload, counts a non-empty one, and goes on after a full
      block only. */
  lemma PosixTakesNextBlock(name: seq<byte>, s: Session, b: seq<byte>, src: Address)
    requires |b| <= BlockSize && s.blockCount + 1 < 0x1_0000
    ensures var step := PosixClient.Step(name, s, Datagram(DataPacket(s.blockCount + 1, b), src));
      && Written(step.effects) == b
      && step.session.sinkOpen
      && (step.outcome == Succeeded <==> |b| < BlockSize)
      && (step.outcome != Succeeded ==> step.outcome == Waiting)
      && (b != [] ==> step.session.blockCount == s.blockCount + 1)
  {
    var e := Datagram(DataPacket(s.blockCount + 1, b), src);
    assert !PosixClient.IsError(e.data);
    PosixClient.StepWrites(name, s, e);
  }

  /** On a DATA datagram numbered at most one past the count, with a host
      that raises no error, the two clients take the same step. */
  lemma StepsAgree(name: seq<byte>, s: Session, d: seq<byte>, src: Address)
    requires 4 <= |d| <= MaxDatagram && d[0] == 0 && d[1] == DATA
    requires BlockNumber(d) <= s.blockCount + 1
    ensures PosixClient.Step(name, s, Datagram(d, src)) == WindowsClient.Step(name, s, Datagram(d, src), Smooth)
  {
    assert PosixClient.IsNewBlock(s, d) == WindowsClient.IsNewBlock(s, d);
    assert WindowsClient.Step(name, s, Datagram(d, src), Smooth) == WindowsClient.Take(name, s, d, src, Smooth);
  }

  /** On a clean stream the two receive loops coincide: same effects, same
      counters, same outcome. */
  lemma {:induction false} LoopsAgreeOnStream(name: seq<byte>, s: Session, blocks: seq<seq<byte>>, src: Address)
    requires FileBlocks(blocks) && s.blockCount + |blocks| < 0x1_0000
    ensures var events := Stream(blocks, s.blockCount + 1, src);
      PosixClient.Loop(name, s, events) == WindowsClient.Loop(name, s, events, SmoothRun(|events|))
    decreases |blocks|
  {
    var events := Stream(blocks, s.blockCount + 1, src);
    var io := SmoothRun(|events|);
    StreamHeadAgrees(name, s, blocks, src);
    var step := PosixClient.Step(name, s, events[0]);
    if |blocks| > 1 {
      LoopsAgreeOnStream(name, step.session, blocks[1..], src);
      assert io[1..] == SmoothRun(|events| - 1);
    }
    LoopsAgreeByStep(name, s, events, io);
  }

  /** The first block of a clean stream: both clients take it alike, and
      the loop goes on exactly when more blocks follow, at the next count
      and on the rest of the stream. */
  lemma StreamHeadAgrees(name: seq<byte>, s: Session, blocks: seq<seq<byte>>, src: Address)
    requires FileBlocks(blocks) && s.blockCount + |blocks| < 0x1_0000
    ensures var events := Stream(blocks, s.blockCount + 1, src);
      var step := PosixClient.Step(name, s, events[0]);
      && step == WindowsClient.Step(name, s, events[0], Smooth)
      && (step.outcome.Waiting? <==> |blocks| > 1)
      && (|blocks| > 1 ==>
            && step.session.blockCount == s.blockCount + 1
            && FileBlocks(blocks[1..])
            && events[1..] == Stream(blocks[1..], s.blockCount + 2, src))
  {
    var events := Stream(blocks, s.blockCount + 1, src);
    var d := DataPacket(s.blockCount + 1, blocks[0]);
    StreamAt(blocks, s.blockCount + 1, src, 0);
    StepsAgree(name, s, d, src);
    PosixTakesNextBlock(name, s, blocks[0], src);
    if |blocks| > 1 {
      FileBlocksTail(blocks);
      StreamTail(blocks, s.blockCount + 1, src);
    }
  }

  /** Two loops that take the same first step, and agree on the rest when
      the first step lets them go on, agree. */
  lemma LoopsAgreeByStep(name: seq<byte>, s: Session, events: seq<Event>, io: seq<WindowsClient.HostIo>)
    requires ValidEvents(events) && |io| == |events| && |events| > 0
    requires PosixClient.Step(name, s, events[0]) == WindowsClient.Step(name, s, events[0], io[0])
    requires var step := PosixClient.Step(name, s, events[0]);
      step.outcome.Waiting? ==>
        PosixClient.Loop(name, step.session, events[1..]) == WindowsClient.Loop(name, step.session, events[1..], io[1..])
    ensures PosixClient.Loop(name, s, events) == WindowsClient.Loop(name, s, events, io)
  {
  }

  /** A file the server side cuts into blocks and sends from one address,
      with nothing lost, reordered or duplicated, reaches the POSIX client
      whole: the transfer succeeds, the file's bytes are written in order
      and counted, and the file is closed last. The Windows client, with a
      host that raises no error, does exactly the same. A file of 65535 *
      512 bytes or more needs block numbers past 16 bits and is excluded. */
  lemma CleanTransfer(
    name: seq<byte>, server: Address, src: Address, file: seq<byte>,
    uninitialized: Stopwatch.Timer, startedAt: Stopwatch.TimeVal, finishedAt: Stopwatch.TimeVal)
    requires ValidName(name) && |file| / BlockSize + 1 < 0x1_0000
    ensures var events := Stream(Blocks(file), 1, src);
      var p := PosixClient.ReceiveFile(name, server, events, uninitialized, startedAt, finishedAt).transfer;
      var w := WindowsClient.GetFile(name, server, SentBytes(|name| + 9), true, events, SmoothRun(|events|));
      && p.outcome == Succeeded && w.outcome == Succeeded
      && Written(p.effects) == file && p.session.byteCount == |file|
      && p.effects[|p.effects| - 1] == CloseSink
      && w.effects == p.effects
  {
    var events := Stream(Blocks(file), 1, src);
    var run := PosixClient.Loop(name, Initial, events);
    CleanLoopOn(name, src, Blocks(file), Initial, 1);
    TransfersAgreeOnSuccess(name, server, events, SmoothRun(|events|), uninitialized, startedAt, finishedAt);
    WrittenOfBracket(SendRequest(EncodeRequest(name), server), run.effects);
  }

  /** The receive loops on a clean stream of file blocks, from a session
      with nothing counted yet: both end in success with the file open,
      alike, having written every block in order and counted it. The
      session is left general rather than `Initial`, which keeps the loop
      definitions folded while the three inductions are combined. */
  lemma CleanLoopOn(name: seq<byte>, src: Address, blocks: seq<seq<byte>>, s: Session, first: nat)
    requires FileBlocks(blocks) && |blocks| < 0x1_0000
    requires s.blockCount == 0 && s.byteCount == 0 && first == s.blockCount + 1
    ensures var events := Stream(blocks, first, src);
      var run := PosixClient.Loop(name, s, events);
      && run == WindowsClient.Loop(name, s, events, SmoothRun(|events|))
      && run.outcome == Succeeded && run.session.sinkOpen
      && Written(run.effects) == Concat(blocks) && run.session.byteCount == |Concat(blocks)|
  {
    var events := Stream(blocks, first, src);
    var run := PosixClient.Loop(name, s, events);
    assert run.outcome == Succeeded && run.session.sinkOpen && Written(run.effects) == Concat(blocks) by {
      PosixReceivesStream(name, s, blocks, src);
    }
    assert run == WindowsClient.Loop(name, s, events, SmoothRun(|events|)) by {
      LoopsAgreeOnStream(name, s, blocks, src);
    }
    assert run.session.byteCount == |Written(run.effects)| by {
      PosixClient.LoopCountsWrites(name, s, events);
    }
  }

  /** When the two receive loops coincide and end in success with the file
      open, the two whole transfers coincide: request, loop, close. */
  lemma TransfersAgreeOnSuccess(
    name: seq<byte>, server: Address, events: seq<Event>, io: seq<WindowsClient.HostIo>,
    uninitialized: Stopwatch.Timer, startedAt: Stopwatch.TimeVal, finishedAt: Stopwatch.TimeVal)
    requires ValidName(name) && ValidEvents(events) && |io| == |events|
    requires PosixClient.Loop(name, Initial, events) == WindowsClient.Loop(name, Initial, events, io)
    requires var run := PosixClient.Loop(name, Initial, events);
      run.outcome == Succeeded && run.session.sinkOpen
    ensures var run := PosixClient.Loop(name, Initial, events);
      var p := PosixClient.ReceiveFile(name, server, events, uninitialized, startedAt, finishedAt).transfer;
      && p == WindowsClient.GetFile(name, server, SentBytes(|name| + 9), true, events, io)
      && p.outcome == Succeeded && p.session == run.session
      && p.effects == [SendRequest(EncodeRequest(name), server)] + run.effects + [CloseSink]
  {
    var run := PosixClient.Loop(name, Initial, events);
    BracketsAgreeOnSuccess(name, server, run);
  }

  /** After a successful loop that opened the file, the two clients'
      clean-ups agree: request, loop, close. */
  lemma BracketsAgreeOnSuccess(name: seq<byte>, server: Address, run: Run)
    requires ValidName(name) && run.outcome == Succeeded && run.session.sinkOpen
    ensures var request := [SendRequest(EncodeRequest(name), server)];
      var p := PosixClient.Bracket(name, server, run);
      && p == WindowsClient.Bracket(request, run, true)
      && p.effects == request + run.effects + [CloseSink]
  {
  }

  /** The request before the loop and the close after it write nothing. */
  lemma WrittenOfBracket(request: Effect, body: seq<Effect>)
    requires request.SendRequest?
    ensures Written([request] + body + [CloseSink]) == Written(body)
  {
    ViewsOfOne([request]);
    ViewsOfOne([CloseSink]);
    WrittenDistributes([request], body);
    WrittenDistributes([request] + body, [CloseSink]);
  }

  // ---------------------------------------------------------------------
  // Where the clients part ways

  /** A datagram with opcode octets 1 and 5 is an ERROR packet to the
      Windows client, which reads only the second octet, and a DATA packet
      to the POSIX client, which reads both: one ends the transfer with the
      server's (empty) message, the other acknowledges an empty last block
      and succeeds. */
  lemma OpcodeReadDifferently(name: seq<byte>, s: Session, src: Address, io: WindowsClient.HostIo)
    ensures var d := [1, ERROR, 0, 1];
      var p := PosixClient.Step(name, s, Datagram(d, src));
      var w := WindowsClient.Step(name, s, Datagram(d, src), io);
      && p.outcome == Succeeded && Acks(p.effects) == [SendAck(AckFor(d), src)]
      && w.outcome == Failed(ServerError([])) && w.effects == []
  {
    var d: seq<byte> := [1, ERROR, 0, 1];
    assert Uint16(d[0], d[1]) == 261;
    assert d[4..] == [];
    PosixClient.StepAcks(name, s, Datagram(d, src));
  }

  /** A block that skips ahead of the count is written by the Windows
      client and ignored (though acknowledged) by the POSIX client. */
  lemma SkippedBlockAcceptedOnlyByWindows(name: seq<byte>, src: Address)
    ensures var d := DataPacket(3, [7]);
      && Written(PosixClient.Step(name, Initial, Datagram(d, src)).effects) == []
      && Written(WindowsClient.Step(name, Initial, Datagram(d, src), Smooth).effects) == [7]
  {
    var d := DataPacket(3, [7]);
    PosixClient.StepWrites(name, Initial, Datagram(d, src));
    WindowsClient.StepWrites(name, Initial, Datagram(d, src), Smooth);
  }

  /** A failed receive is skipped by the POSIX client, whose loop goes on
      with the next datagram, and ends the Windows client's transfer. */
  lemma ReceiveFailurePolicies(name: seq<byte>, s: Session, rest: seq<Event>, io: seq<WindowsClient.HostIo>)
    requires ValidEvents(rest) && |io| == |rest| + 1
    ensures ValidEvents([RecvError] + rest)
    ensures PosixClient.Loop(name, s, [RecvError] + rest) ==
      var r := PosixClient.Loop(name, s, rest);
      r.(consumed := r.consumed + 1)
    ensures WindowsClient.Loop(name, s, [RecvError] + rest, io) == Run(s, [], Failed(NetworkError), 1)
  {
    AcksForDistribute([RecvError], rest);
    assert ([RecvError] + rest)[1..] == rest;
  }
}
