/** The server's request handling. Its main loop receives a request, forks
    a child for it, and the child creates a socket of its own and answers.
    The file-name extraction is still a stub that finds no name, so every
    request that gets that far is answered with one ERROR datagram and no
    file is ever sent. Sockets and processes are not modelled: a receive,
    a fork and a socket creation become the facts of an arrival. */
module Server {
  import opened Wire
  import opened Engine

  /** The error text the server sends, "Not implemented!". */
  const NotImplemented: seq<byte> := [78, 111, 116, 32, 105, 109, 112, 108, 101, 109, 101, 110, 116, 101, 100, 33]

  lemma NotImplementedIsAscii()
    ensures NotImplemented == Ascii("Not implemented!")
  {
  }

  /** The ERROR datagram the server answers with: opcode 5, error code 0
      ("not defined"), the text "Not implemented!" and its terminating NUL,
      21 octets in all. */
  function ErrorDatagram(): (d: seq<byte>)
    ensures |d| == 21
    ensures d[..4] == [0, ERROR, 0, 0]
    ensures d[4..20] == NotImplemented && d[20] == 0
  {
    [0, ERROR, 0, 0] + NotImplemented + [0]
  }

  /** The server's datagram is the RFC 1350 ERROR packet with code 0 and
      the message "Not implemented!", and a client reads that message back
      from it. */
  lemma ErrorDatagramIsErrorPacket()
    ensures ErrorDatagram() == EncodeError(0, NotImplemented)
    ensures ParseError(ErrorDatagram()) == Some(ErrorPacket(0, NotImplemented))
    ensures ErrorMessage(ErrorDatagram()) == NotImplemented
  {
    assert NoNul(NotImplemented);
    EncodeErrorCodeZero(NotImplemented);
    ErrorRoundTrip(0, NotImplemented);
  }

  lemma EncodeErrorCodeZero(m: seq<byte>)
    requires NoNul(m)
    ensures EncodeError(0, m) == [0, ERROR, 0, 0] + m + [0]
  {
    Be16Zero();
    EncodeErrorUnfolds(m);
    HeaderJoins(m);
  }

  lemma Be16Zero()
    ensures Be16(0) == [0, 0]
  {
  }

  lemma EncodeErrorUnfolds(m: seq<byte>)
    requires NoNul(m)
    ensures EncodeError(0, m) == [0, ERROR] + Be16(0) + m + [0]
  {
  }

  lemma HeaderJoins(m: seq<byte>)
    ensures [0, ERROR] + [0, 0] + m + [0] == [0, ERROR, 0, 0] + m + [0]
  {
  }

  /** The name of the file a request asks for. Not yet written: it finds
      none in any request. */
  function ExtractFileName(request: seq<byte>): (name: Option<seq<byte>>)
    ensures name.None?
  {
    None
  }

  /** The length of the server's request buffer: a longer request is cut
      short by the receive. */
  const RequestBufferLength: nat := 512

  /** What one pass of the main loop sees: a failed receive, or a request
      from `client` together with whether the fork of the child, and the
      child's creation of its socket, succeed. */
  datatype Arrival =
    | ReceiveFailed
    | RequestArrived(request: seq<byte>, client: Address, forkOk: bool, socketOk: bool)

  predicate ValidArrival(a: Arrival) {
    a.RequestArrived? ==> |a.request| <= RequestBufferLength
  }

  /** What a child sends: an ERROR reply, or the file it was asked for. */
  datatype Outgoing =
    | ErrorReply(packet: seq<byte>, dest: Address)
    | FileTransfer(fileName: seq<byte>, dest: Address)

  /** How a child ends. */
  datatype ExitStatus = ExitSuccess | ExitFailure

  /** What handling one arrival comes to: the child's exit status, if a
      child was created, and what it sent. */
  datatype Handled = Handled(child: Option<ExitStatus>, sent: seq<Outgoing>)

  /** One pass of the main loop. A failed receive or fork creates no child
      and sends nothing; a child that cannot create its socket exits with
      failure; otherwise it answers the client, with the ERROR datagram
      since no file name is found, and exits with success. */
  function Handle(a: Arrival): (h: Handled)
    requires ValidArrival(a)
    ensures h.child.Some? <==> a.RequestArrived? && a.forkOk
    ensures h.child == Some(ExitFailure) <==> a.RequestArrived? && a.forkOk && !a.socketOk
    ensures h.sent != [] <==> ReachesChild(a)
    ensures ReachesChild(a) ==> h.sent == [ErrorReply(ErrorDatagram(), a.client)]
    ensures forall i :: 0 <= i < |h.sent| ==> !h.sent[i].FileTransfer?
  {
    match a
    case ReceiveFailed => Handled(None, [])
    case RequestArrived(request, client, forkOk, socketOk) =>
      if !forkOk then Handled(None, [])
      else if !socketOk then Handled(Some(ExitFailure), [])
      else
        match ExtractFileName(request)
        case None => Handled(Some(ExitSuccess), [ErrorReply(ErrorDatagram(), client)])
        case Some(name) => Handled(Some(ExitSuccess), [FileTransfer(name, client)])
  }

  /** A request that reaches a child with a socket of its own. */
  predicate ReachesChild(a: Arrival) {
    a.RequestArrived? && a.forkOk && a.socketOk
  }

  /** The main loop over a finite run of arrivals: everything the children
      send, in order. */
  function Serve(arrivals: seq<Arrival>): (out: seq<Outgoing>)
    requires forall i :: 0 <= i < |arrivals| ==> ValidArrival(arrivals[i])
    ensures |out| <= |arrivals|
    ensures forall i :: 0 <= i < |out| ==> out[i].ErrorReply? && out[i].packet == ErrorDatagram()
  {
    if |arrivals| == 0 then []
    else Handle(arrivals[0]).sent + Serve(arrivals[1..])
  }

  /** The clients whose requests reached a child with a socket, in order. */
  function AnsweredClients(arrivals: seq<Arrival>): seq<Address>
  {
    if |arrivals| == 0 then []
    else (if ReachesChild(arrivals[0]) then [arrivals[0].client] else []) + AnsweredClients(arrivals[1..])
  }

  /** The server answers each request that reaches a child with a socket
      by exactly one ERROR datagram to the address the request came from,
      in order, and sends nothing else: no file, and nothing for failed
      receives, forks or sockets. */
  lemma {:induction false} ServeRepliesOncePerRequest(arrivals: seq<Arrival>)
    requires forall i :: 0 <= i < |arrivals| ==> ValidArrival(arrivals[i])
    ensures var out := Serve(arrivals);
      var clients := AnsweredClients(arrivals);
      && |out| == |clients|
      && forall i :: 0 <= i < |out| ==> out[i] == ErrorReply(ErrorDatagram(), clients[i])
  {
    if |arrivals| > 0 {
      ServeRepliesOncePerRequest(arrivals[1..]);
      var head := Handle(arrivals[0]).sent;
      var tail := Serve(arrivals[1..]);
      var heads := if ReachesChild(arrivals[0]) then [arrivals[0].client] else [];
      var tails := AnsweredClients(arrivals[1..]);
      forall i | 0 <= i < |head + tail| ensures (head + tail)[i] == ErrorReply(ErrorDatagram(), (heads + tails)[i]) {
        if i >= |head| {
          assert (head + tail)[i] == tail[i - |head|];
          assert (heads + tails)[i] == tails[i - |heads|];
        }
      }
    }
  }
}
