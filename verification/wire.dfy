/** Wire formats of the datagrams the TFTP client and server exchange,
    after section 5 of RFC 1350 (TFTP revision 2): the read request (RRQ),
    DATA, ACK and ERROR packets, each led by a 16-bit big-endian opcode. */
module Wire {

  datatype Option<+T> = None | Some(value: T)

  /** One octet of a datagram, read as an unsigned value. */
  type byte = x: int | 0 <= x < 256

  /** Opcodes of section 5 of RFC 1350. */
  const RRQ: byte := 1
  const DATA: byte := 3
  const ACK: byte := 4
  const ERROR: byte := 5

  /** Payload size of a full DATA block; a shorter block ends the transfer. */
  const BlockSize: nat := 512
  /** Size of the clients' receive buffer: a 4-byte header and one full block. */
  const MaxDatagram: nat := 516
  /** Size of an ACK datagram. */
  const AckLength: nat := 4

  /** Bytes with no NUL in them: the contents of a C string. */
  predicate NoNul(s: seq<byte>) {
    forall i :: 0 <= i < |s| ==> s[i] != 0
  }

  /** The bytes of an ASCII text. */
  function Ascii(s: string): (r: seq<byte>)
    requires forall i :: 0 <= i < |s| ==> s[i] as int < 256
    ensures |r| == |s|
  {
    seq(|s|, i requires 0 <= i < |s| => s[i] as int)
  }

  /** The transfer mode every request of this client names. */
  const Octet: seq<byte> := [111, 99, 116, 101, 116]

  lemma OctetIsAscii()
    ensures Octet == Ascii("octet")
  {
  }

  // ---------------------------------------------------------------------
  // 16-bit big-endian fields

  /** A 16-bit field from its high and low octets. */
  function Uint16(hi: byte, lo: byte): (n: nat)
    ensures n < 0x1_0000
  {
    hi * 256 + lo
  }

  /** The two octets of a 16-bit field, most significant first. */
  function Be16(n: nat): (r: seq<byte>)
    requires n < 0x1_0000
    ensures |r| == 2 && Uint16(r[0], r[1]) == n
  {
    [n / 256, n % 256]
  }

  /** Decoding the two octets of a field gives them back: a 16-bit field
      and its pair of octets determine each other. */
  lemma Be16OfUint16(hi: byte, lo: byte)
    ensures Be16(Uint16(hi, lo)) == [hi, lo]
  {
    var n := hi * 256 + lo;
    assert n / 256 == hi && n % 256 == lo by {
      assert n == hi * 256 + lo && 0 <= lo < 256;
    }
  }

  /** The block number of a DATA packet (also the block an ACK names). */
  function BlockNumber(d: seq<byte>): nat
    requires |d| >= 4
  {
    Uint16(d[2], d[3])
  }

  /** Everything after the 4-byte header. */
  function Payload(d: seq<byte>): seq<byte>
    requires |d| >= 4
  {
    d[4..]
  }

  // ---------------------------------------------------------------------
  // C strings inside datagrams

  /** The bytes before the first NUL of `s`, or all of `s` if it has none:
      what a C routine reading a string at the start of `s` sees. */
  function TakeCString(s: seq<byte>): (r: seq<byte>)
    ensures r <= s
    ensures NoNul(r)
    ensures |r| < |s| ==> s[|r|] == 0
  {
    if |s| == 0 || s[0] == 0 then [] else [s[0]] + TakeCString(s[1..])
  }

  lemma {:induction false} TakeCStringOfTerminated(s: seq<byte>, rest: seq<byte>)
    requires NoNul(s)
    ensures TakeCString(s + [0] + rest) == s
  {
    if |s| > 0 {
      assert (s + [0] + rest)[1..] == s[1..] + [0] + rest;
      TakeCStringOfTerminated(s[1..], rest);
    }
  }

  // ---------------------------------------------------------------------
  // RRQ

  datatype Request = Request(fileName: seq<byte>, mode: seq<byte>)

  /** The read request the clients send: opcode 1, the file name and the
      mode "octet", each NUL-terminated. */
  function EncodeRequest(name: seq<byte>): (r: seq<byte>)
    requires NoNul(name)
    ensures |r| == |name| + 9
    ensures r[0] == 0 && r[1] == RRQ
  {
    [0, RRQ] + name + [0] + Octet + [0]
  }

  /** Reads a read request back: the opcode, then two NUL-terminated
      strings that end the datagram. */
  function ParseRequest(d: seq<byte>): (r: Option<Request>)
    ensures r.Some? ==> NoNul(r.value.fileName) && NoNul(r.value.mode)
    ensures r.Some? ==> |d| == |r.value.fileName| + |r.value.mode| + 4
  {
    if |d| < 2 || d[0] != 0 || d[1] != RRQ then None
    else
      var name := TakeCString(d[2..]);
      if |name| == |d| - 2 then None
      else
        var rest := d[2 + |name| + 1..];
        var mode := TakeCString(rest);
        if |mode| + 1 != |rest| then None
        else Some(Request(name, mode))
  }

  /** The request the clients build is read back as the file name they
      asked for, in octet mode. */
  lemma RequestRoundTrip(name: seq<byte>)
    requires NoNul(name)
    ensures ParseRequest(EncodeRequest(name)) == Some(Request(name, Octet))
  {
    var d := EncodeRequest(name);
    assert d[2..] == name + [0] + (Octet + [0]);
    TakeCStringOfTerminated(name, Octet + [0]);
    var rest := d[2 + |name| + 1..];
    assert rest == Octet + [0] + [];
    TakeCStringOfTerminated(Octet, []);
  }

  // ---------------------------------------------------------------------
  // DATA and ACK

  /** A DATA packet carrying block `n`. */
  function DataPacket(n: nat, payload: seq<byte>): (r: seq<byte>)
    requires n < 0x1_0000
    ensures |r| == |payload| + 4
    ensures r[0] == 0 && r[1] == DATA
    ensures BlockNumber(r) == n && Payload(r) == payload
  {
    [0, DATA] + Be16(n) + payload
  }

  /** The ACK the clients answer a packet with: opcode 4 and the packet's
      block-number octets copied verbatim. */
  function AckFor(d: seq<byte>): (r: seq<byte>)
    requires |d| >= 4
    ensures |r| == AckLength
    ensures r[0] == 0 && r[1] == ACK
    ensures BlockNumber(r) == BlockNumber(d)
  {
    [0, ACK, d[2], d[3]]
  }

  // ---------------------------------------------------------------------
  // ERROR

  datatype ErrorPacket = ErrorPacket(code: nat, message: seq<byte>)

  /** An ERROR packet: opcode 5, a 16-bit error code and a NUL-terminated
      message. */
  function EncodeError(code: nat, message: seq<byte>): (r: seq<byte>)
    requires code < 0x1_0000 && NoNul(message)
    ensures |r| == |message| + 5
    ensures r[0] == 0 && r[1] == ERROR
  {
    [0, ERROR] + Be16(code) + message + [0]
  }

  /** The message text an ERROR packet carries, as a client prints it. */
  function ErrorMessage(d: seq<byte>): seq<byte>
    requires |d| >= 4
  {
    TakeCString(d[4..])
  }

  /** Reads an ERROR packet back: opcode 5, the code, and a message whose
      NUL ends the datagram. */
  function ParseError(d: seq<byte>): (r: Option<ErrorPacket>)
    ensures r.Some? ==> |d| == |r.value.message| + 5 && NoNul(r.value.message)
  {
    if |d| < 4 || d[0] != 0 || d[1] != ERROR then None
    else
      var message := ErrorMessage(d);
      if |message| + 5 != |d| then None
      else Some(ErrorPacket(Uint16(d[2], d[3]), message))
  }

  lemma ErrorRoundTrip(code: nat, message: seq<byte>)
    requires code < 0x1_0000 && NoNul(message)
    ensures ParseError(EncodeError(code, message)) == Some(ErrorPacket(code, message))
    ensures ErrorMessage(EncodeError(code, message)) == message
  {
    var d := EncodeError(code, message);
    assert d[4..] == message + [0] + [];
    TakeCStringOfTerminated(message, []);
  }
}
