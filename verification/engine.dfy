/** What the two client receive engines share: the events the network
    delivers to them, the effects they have on the outside world, and the
    outcome of a transfer. Sockets, the file system and the console are
    not modelled; each receive becomes an event and each send, open and
    write an effect. */
module Engine {
  import opened Wire

  /** A socket address. Only its identity matters here. */
  datatype Address = Address(host: nat, port: nat)

  /** What one blocking receive returns: a failure, or a datagram and the
      address it came from. */
  datatype Event = RecvError | Datagram(data: seq<byte>, src: Address)

  /** The datagrams the engines can act on: a receive into the 516-byte
      buffer returns at most 516 bytes, and a datagram shorter than its
      4-byte header would leave stale buffer contents in the header. */
  predicate ValidEvent(e: Event) {
    e.Datagram? ==> 4 <= |e.data| <= MaxDatagram
  }

  predicate ValidEvents(events: seq<Event>) {
    forall i :: 0 <= i < |events| ==> ValidEvent(events[i])
  }

  /** A file name the clients' request buffer can hold: a C string that
      fits in 516 bytes with the opcode, the mode and the two terminators. */
  predicate ValidName(name: seq<byte>) {
    NoNul(name) && |name| + 9 <= MaxDatagram
  }

  /** The outcome of a send: failed outright, or some number of bytes sent. */
  datatype SendResult = SendFailed | SentBytes(count: nat)

  /** A send the clients count as successful: every byte went out. */
  predicate SentInFull(r: SendResult, length: nat) {
    r.SentBytes? && r.count == length
  }

  /** Effects of a transfer on the outside world, in order. `Append` is a
      write of the payload handed to the file, with the block number of the
      DATA packet that delivered it recorded alongside; the host may still
      fail the write. */
  datatype Effect =
    | SendRequest(packet: seq<byte>, dest: Address)
    | OpenSink(localName: seq<byte>)
    | Append(block: nat, payload: seq<byte>)
    | SendAck(packet: seq<byte>, dest: Address)
    | CloseSink

  datatype Failure =
    | ServerError(message: seq<byte>)
    | ProtocolError(opcode: int)
    | NetworkError
    | LocalIoError

  /** Where a transfer stands: still waiting for the next datagram, or
      finished, with success or a failure. */
  datatype Outcome = Waiting | Succeeded | Failed(why: Failure)

  /** The return value of a finished transfer: 0 for success, -1 otherwise. */
  function ReturnCode(o: Outcome): (code: int)
    requires !o.Waiting?
    ensures code == 0 <==> o == Succeeded
    ensures code == 0 || code == -1
  {
    if o.Succeeded? then 0 else -1
  }

  /** The per-transfer state of a receive engine: whether the output file
      is open, and the block and byte counters. */
  datatype Session = Session(sinkOpen: bool, blockCount: nat, byteCount: nat)

  const Initial: Session := Session(false, 0, 0)

  /** What handling one event does. A `Waiting` outcome means the receive
      loop goes on. */
  datatype StepResult = StepResult(session: Session, effects: seq<Effect>, outcome: Outcome)

  /** The receive loop over a finite run of events: the final session, the
      effects, the outcome, and how many events the loop consumed before it
      ended (all of them while it is still waiting). */
  datatype Run = Run(session: Session, effects: seq<Effect>, outcome: Outcome, consumed: nat)

  /** A whole transfer: request, receive loop and clean-up. */
  datatype Transfer = Transfer(effects: seq<Effect>, outcome: Outcome, session: Session, consumed: nat)

  // ---------------------------------------------------------------------
  // Views of an effect log

  /** What `pick` selects from each effect of a log, joined in order. */
  function Collect<T>(effs: seq<Effect>, pick: Effect -> seq<T>): seq<T>
  {
    if |effs| == 0 then [] else pick(effs[0]) + Collect(effs[1..], pick)
  }

  function PayloadOf(e: Effect): seq<byte> { if e.Append? then e.payload else [] }
  function BlockOf(e: Effect): seq<nat> { if e.Append? then [e.block] else [] }
  function IfAck(e: Effect): seq<Effect> { if e.SendAck? then [e] else [] }
  function IfOpen(e: Effect): seq<Effect> { if e.OpenSink? then [e] else [] }
  function IfRequest(e: Effect): seq<Effect> { if e.SendRequest? then [e] else [] }

  /** The bytes handed to the file's writes, in order: the contents of the
      file when every write succeeds. */
  function Written(effs: seq<Effect>): seq<byte> { Collect(effs, PayloadOf) }

  /** The block numbers of the appends, in order. */
  function AppendedBlocks(effs: seq<Effect>): seq<nat> { Collect(effs, BlockOf) }

  /** The ACKs sent, in order. */
  function Acks(effs: seq<Effect>): seq<Effect> { Collect(effs, IfAck) }

  /** The opens of the output file, in order. */
  function Opens(effs: seq<Effect>): seq<Effect> { Collect(effs, IfOpen) }

  /** The requests sent, in order. */
  function Requests(effs: seq<Effect>): seq<Effect> { Collect(effs, IfRequest) }

  /** The ACK each datagram among `events` is answered with, in order:
      opcode 4, the datagram's block-number octets, sent back to the
      datagram's source. */
  function AcksFor(events: seq<Event>): seq<Effect>
    requires ValidEvents(events)
  {
    if |events| == 0 then []
    else
      (if events[0].Datagram? then [SendAck(AckFor(events[0].data), events[0].src)] else [])
      + AcksFor(events[1..])
  }

  lemma {:induction false} CollectDistributes<T>(a: seq<Effect>, b: seq<Effect>, pick: Effect -> seq<T>)
    ensures Collect(a + b, pick) == Collect(a, pick) + Collect(b, pick)
  {
    if |a| > 0 {
      assert (a + b)[1..] == a[1..] + b;
      CollectDistributes(a[1..], b, pick);
    } else {
      assert a + b == b;
    }
  }

  lemma CollectOfShort<T>(effs: seq<Effect>, pick: Effect -> seq<T>)
    requires |effs| <= 1
    ensures Collect(effs, pick) == if |effs| == 1 then pick(effs[0]) else []
  {
    if |effs| == 1 {
      assert effs[1..] == [];
    }
  }

  lemma WrittenDistributes(a: seq<Effect>, b: seq<Effect>)
    ensures Written(a + b) == Written(a) + Written(b)
  {
    CollectDistributes(a, b, PayloadOf);
  }

  lemma BlocksDistribute(a: seq<Effect>, b: seq<Effect>)
    ensures AppendedBlocks(a + b) == AppendedBlocks(a) + AppendedBlocks(b)
  {
    CollectDistributes(a, b, BlockOf);
  }

  lemma AcksDistribute(a: seq<Effect>, b: seq<Effect>)
    ensures Acks(a + b) == Acks(a) + Acks(b)
  {
    CollectDistributes(a, b, IfAck);
  }

  lemma OpensDistribute(a: seq<Effect>, b: seq<Effect>)
    ensures Opens(a + b) == Opens(a) + Opens(b)
  {
    CollectDistributes(a, b, IfOpen);
  }

  lemma RequestsDistribute(a: seq<Effect>, b: seq<Effect>)
    ensures Requests(a + b) == Requests(a) + Requests(b)
  {
    CollectDistributes(a, b, IfRequest);
  }

  /** The views of a log of at most one effect. */
  lemma ViewsOfOne(effs: seq<Effect>)
    requires |effs| <= 1
    ensures Written(effs) == (if |effs| == 1 && effs[0].Append? then effs[0].payload else [])
    ensures AppendedBlocks(effs) == (if |effs| == 1 && effs[0].Append? then [effs[0].block] else [])
    ensures Acks(effs) == (if |effs| == 1 && effs[0].SendAck? then effs else [])
    ensures Opens(effs) == (if |effs| == 1 && effs[0].OpenSink? then effs else [])
    ensures Requests(effs) == (if |effs| == 1 && effs[0].SendRequest? then effs else [])
  {
    CollectOfShort(effs, PayloadOf);
    CollectOfShort(effs, BlockOf);
    CollectOfShort(effs, IfAck);
    CollectOfShort(effs, IfOpen);
    CollectOfShort(effs, IfRequest);
  }

  /** The shape of the effects one handled datagram has: an optional open,
      an optional append, and an optional ACK, in that order. */
  predicate HandledShape(open: seq<Effect>, write: seq<Effect>, ack: seq<Effect>) {
    && |open| <= 1 && (|open| == 1 ==> open[0].OpenSink?)
    && |write| <= 1 && (|write| == 1 ==> write[0].Append?)
    && |ack| <= 1 && (|ack| == 1 ==> ack[0].SendAck?)
  }

  /** What `pick` selects from such effects: what it selects from each. */
  lemma CollectOfThree<T>(open: seq<Effect>, write: seq<Effect>, ack: seq<Effect>, pick: Effect -> seq<T>)
    requires |open| <= 1 && |write| <= 1 && |ack| <= 1
    ensures Collect(open + write + ack, pick)
      == (if |open| == 1 then pick(open[0]) else [])
       + (if |write| == 1 then pick(write[0]) else [])
       + (if |ack| == 1 then pick(ack[0]) else [])
  {
    CollectOfShort(open, pick);
    CollectOfShort(write, pick);
    CollectOfShort(ack, pick);
    CollectDistributes(open, write, pick);
    CollectDistributes(open + write, ack, pick);
  }

  lemma WrittenOfThree(open: seq<Effect>, write: seq<Effect>, ack: seq<Effect>)
    requires HandledShape(open, write, ack)
    ensures Written(open + write + ack) == (if |write| == 1 then write[0].payload else [])
  {
    CollectOfThree(open, write, ack, PayloadOf);
  }

  lemma BlocksOfThree(open: seq<Effect>, write: seq<Effect>, ack: seq<Effect>)
    requires HandledShape(open, write, ack)
    ensures AppendedBlocks(open + write + ack) == (if |write| == 1 then [write[0].block] else [])
  {
    CollectOfThree(open, write, ack, BlockOf);
  }

  lemma AcksOfThree(open: seq<Effect>, write: seq<Effect>, ack: seq<Effect>)
    requires HandledShape(open, write, ack)
    ensures Acks(open + write + ack) == ack
  {
    CollectOfThree(open, write, ack, IfAck);
  }

  lemma OpensOfThree(open: seq<Effect>, write: seq<Effect>, ack: seq<Effect>)
    requires HandledShape(open, write, ack)
    ensures Opens(open + write + ack) == open
  {
    CollectOfThree(open, write, ack, IfOpen);
  }

  lemma RequestsOfThree(open: seq<Effect>, write: seq<Effect>, ack: seq<Effect>)
    requires HandledShape(open, write, ack)
    ensures Requests(open + write + ack) == []
  {
    CollectOfThree(open, write, ack, IfRequest);
  }

  lemma NoCloseOfThree(open: seq<Effect>, write: seq<Effect>, ack: seq<Effect>)
    requires HandledShape(open, write, ack)
    ensures CloseSink !in open + write + ack
  {
    var log := open + write + ack;
    forall i | 0 <= i < |log| ensures log[i] != CloseSink {
      if i < |open| {
        assert log[i] == open[i];
      } else if i < |open| + |write| {
        assert log[i] == write[i - |open|];
      } else {
        assert log[i] == ack[i - |open| - |write|];
      }
    }
  }

  /** A log made of one request, then effects that neither send requests
      nor close the file, then at most a close: the request is first and
      only, and the close, if present, last. */
  lemma Bracketed(request: Effect, body: seq<Effect>, close: seq<Effect>)
    requires request.SendRequest? && Requests(body) == [] && CloseSink !in body
    requires close == [] || close == [CloseSink]
    ensures var log := [request] + body + close;
      && log[0] == request
      && Requests(log) == [request]
      && (close != [] ==> log[|log| - 1] == CloseSink)
      && (close == [] ==> CloseSink !in log)
  {
    var log := [request] + body + close;
    ViewsOfOne([request]);
    ViewsOfOne(close);
    RequestsDistribute([request], body);
    RequestsDistribute([request] + body, close);
    if close == [] {
      assert log == [request] + body;
    }
  }

  lemma {:induction false} AcksForDistribute(a: seq<Event>, b: seq<Event>)
    requires ValidEvents(a) && ValidEvents(b)
    ensures ValidEvents(a + b)
    ensures AcksFor(a + b) == AcksFor(a) + AcksFor(b)
  {
    assert ValidEvents(a + b) by {
      forall i | 0 <= i < |a + b| ensures ValidEvent((a + b)[i]) {
        if i >= |a| {
          assert (a + b)[i] == b[i - |a|];
        }
      }
    }
    if |a| > 0 {
      assert (a + b)[1..] == a[1..] + b;
      AcksForDistribute(a[1..], b);
    } else {
      assert a + b == b;
    }
  }

  lemma AcksForOne(e: Event)
    requires ValidEvent(e)
    ensures ValidEvents([e])
    ensures AcksFor([e]) == (if e.Datagram? then [SendAck(AckFor(e.data), e.src)] else [])
  {
    assert [e][1..] == [];
  }

  /** Block numbers each above a running count: the j-th is above
      `base + j`. */
  predicate AboveCount(blocks: seq<nat>, base: nat) {
    forall j :: 0 <= j < |blocks| ==> blocks[j] > base + j
  }

  lemma AboveCountConcat(head: seq<nat>, tail: seq<nat>, base: nat)
    requires AboveCount(head, base) && AboveCount(tail, base + |head|)
    ensures AboveCount(head + tail, base)
  {
    forall j | 0 <= j < |head + tail| ensures (head + tail)[j] > base + j {
      if j >= |head| {
        assert (head + tail)[j] == tail[j - |head|];
      }
    }
  }

  /** Taking one more event of a run: the prefix of length k + 1 is the
      first event followed by the tail's prefix of length k. */
  lemma PrefixOfTail(events: seq<Event>, k: nat)
    requires 0 < |events| && k < |events|
    ensures events[..k + 1] == [events[0]] + events[1..][..k]
  {
  }
}
