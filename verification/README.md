# A verified model of the TFTP receive engines

This project models the read side of a small TFTP (RFC 1350) system and
proves properties of the model:

- the POSIX client's `receive_file`;
- the Windows client's `get_file` and its `convert_path`;
- the POSIX stopwatch (`Timer`) that times a transfer;
- the server's ERROR reply.

Both clients do the same job in slightly different ways:

1. send a read request (RRQ, mode `octet`);
2. receive DATA packets;
3. open the local file, named after the last path component, on the first
   packet that gets that far;
4. append each new block;
5. acknowledge each packet to the address it came from;
6. stop on an ERROR packet or a short block.

The server answers every request with the fixed ERROR packet
"Not implemented!".

## Modules

| module | file | what it holds |
|---|---|---|
| `Wire` | `wire.dfy` | bytes, 16-bit big-endian fields, and the RRQ, DATA, ACK and ERROR layouts with their parsers |
| `Paths` | `paths.dfy` | the last path component of a file name |
| `Stopwatch` | `stopwatch.dfy` | the time value, its add and subtract, and the timer's operations |
| `Engine` | `engine.dfy` | shared vocabulary and the views used to state properties |
| `PosixClient` | `posix_client.dfy` | the POSIX receive loop |
| `WindowsClient` | `windows_client.dfy` | the Windows receive loop, with the block-number defect as written |
| `Server` | `server.dfy` | the ERROR reply and the per-request dispatch |
| `Agreement` | `agreement.dfy` | what the two clients and the server do together |

The shared vocabulary in `Engine`:

- a receive is an `Event`: a failed receive, or a datagram with its source address;
- a side effect is an `Effect`: a request sent, the file opened, a block appended, an ACK sent, or the file closed;
- an `Outcome` is `Waiting`, `Succeeded` or `Failed`.

Each client is a step function folded over the events. Properties are stated
on views of the effect log:

- `Written`: the bytes handed to the file's writes, which are the file's contents when every write succeeds;
- `AppendedBlocks`: the block numbers appended;
- `Acks`: the ACKs sent;
- `Opens`: the files opened;
- `Requests`: the requests sent.

Everything outside the program becomes a parameter:

- the clock readings;
- what each receive returns;
- the results of the Windows client's open, write, ACK send, request send and close;
- the server's fork and socket results.

## Model

| member | source | states |
|---|---|---|
| `Wire.Be16OfUint16` | C/client/receive_file.c:97 | a 16-bit field read from two octets encodes back to the same two octets |
| `Wire.EncodeRequest` | C/client/receive_file.c:51-54 | the request is opcode 1, the name, a NUL, "octet" and a NUL: name length plus 9 bytes, the request length the client sends |
| `Wire.RequestRoundTrip` | Windows/client/client.c:107-111 | parsing the request gives back the file name and the mode "octet" |
| `Wire.AckFor` | C/client/receive_file.c:122-132 | an ACK is 4 bytes with opcode 4 and repeats the block number of the packet it answers |
| `Wire.ErrorRoundTrip` | C/client/receive_file.c:90-93 | an ERROR packet parses back to its code and message, and the message the client reports from offset 4 is the one encoded |
| `Paths.BaseName` | Windows/client/client.c:64-69 | the local name is a suffix of the path with no '/' in it, preceded by '/' when shorter than the path, and the whole path when it has no '/' |
| `Stopwatch.Adjusted` | C/client/Timer.c:59-64 | a time value stands for seconds × 1000 + milliseconds, and a normalised value is recovered from that number, so two normalised values are equal exactly when they stand for the same time |
| `Stopwatch.Sample` | C/client/Timer.c:30-35 | a clock sample is normalised and truncates the clock to whole milliseconds |
| `Stopwatch.Add` | C/client/Timer.c:99-106 | the sum's millisecond value is the sum of the operands' values; normalised operands leave milliseconds in 0..1000 |
| `Stopwatch.AddLeavesThousandMilliseconds` | C/client/Timer.c:102-105 | the carry test can leave exactly 1000 milliseconds: 500 ms plus 500 ms gives 0 s and 1000 ms |
| `Stopwatch.Subtract` | C/client/Timer.c:131-142 | the difference's millisecond value is the difference of the operands' values, and for normalised operands seconds and milliseconds never have opposite signs |
| `Stopwatch.Initialize` | C/client/Timer.c:148-168 | a new timer is in the reset state with nothing accumulated |
| `Stopwatch.ResetTimer` | C/client/Timer.h:75-80 | resetting leaves the timer as it was just after construction |
| `Stopwatch.Start` | C/client/Timer.c:194-199 | starting records the start time, enters the running state and keeps the accumulated time |
| `Stopwatch.Stop` | C/client/Timer.c:202-211 | stopping adds the interval since the last start to the accumulated time |
| `Stopwatch.Time` | C/client/Timer.c:214-227 | the reading is the accumulated time, plus the running interval when running |
| `Stopwatch.RestartLosesPartialInterval` | C/client/Timer.h:88-93 | a second start without a stop discards the interval begun by the first |
| `Stopwatch.ReadingWhileRunningIsCorrect` | C/client/Timer.h:105-111 | reading a running timer gives what it would read if stopped at that moment |
| `Stopwatch.CycleAccumulates` | C/client/Timer.h:59-60 | start/stop pairs accumulate the sum of their interval lengths |
| `Stopwatch.ConstructedTimerReadsIntervals` | C/client/Timer.h:68-72 | a fresh timer taken through start/stop pairs reads exactly the sum of the intervals |
| `Stopwatch.ReadingsArePromised` | C/client/Timer.h:75-111 | after any sequence of starts, stops, resets and reads, every reading equals `Promised`, which works on clock readings in milliseconds alone: the intervals completed since the last reset, where each stop adds the time since the last start, also when the timer is already stopped, plus the time since the last start while running |
| `Stopwatch.ReadingsNonDecreasing` | C/client/Timer.h:55-57 | with a clock that never goes back, paired starts and stops and no reset in between, successive readings never decrease |
| `Stopwatch.ClockSetBackBreaksReadings` | C/client/Timer.h:55-57 | a clock set back lowers the reading: a timer started at 100 s reads less at 50 s than at 101 s |
| `Engine.ReturnCode` | C/client/receive_file.c:43 | a finished transfer returns 0 exactly when it succeeded, and -1 otherwise |
| `PosixClient.ReceiveFile` | C/client/receive_file.c:22-159 | the transfer's first effect is the read request to the server; it consumes at most the events given, and all of them while still waiting; the stopwatch is running while the transfer waits and stopped once it is over |
| `PosixClient.Loop` | C/client/receive_file.c:68-144 | the loop consumes at most the events given, is still waiting only when it consumed them all, and consumes at least one event when it ends |
| `PosixClient.Step` | C/client/receive_file.c:82-143 | a failed receive changes nothing; an ERROR packet fails with its message; any other packet leaves the file open and succeeds exactly when the payload is shorter than 512 bytes |
| `PosixClient.StepWrites` | C/client/receive_file.c:115-120 | a packet writes its payload exactly when it is non-empty and numbered one past the block count, and the counters grow by what was written |
| `PosixClient.StepAcks` | C/client/receive_file.c:124-132 | every packet that is not an ERROR is answered with one ACK echoing its block number, sent to its source |
| `PosixClient.StepOpens` | C/client/receive_file.c:99-112 | the file, named by the last path component, is opened by the first packet that gets past the ERROR test, and before anything else that packet does |
| `PosixClient.LoopEndsAtFirstStop` | C/client/receive_file.c:88-143 | the loop ends at the first ERROR packet or short block; it succeeds exactly when that packet is not an ERROR |
| `PosixClient.LoopCountsWrites` | C/client/receive_file.c:114-120 | the byte and block counts grow by exactly the bytes and blocks handed to the writes, and the blocks written are numbered consecutively from one past the count |
| `PosixClient.LoopAcksEachDatagram` | C/client/receive_file.c:122-132 | the ACKs sent are exactly one per non-ERROR packet handled, in order, each to its packet's source |
| `PosixClient.LoopOpensOnFirstAnswer` | C/client/receive_file.c:99-112 | the file is opened once, first, and is open at the end exactly when some packet was acknowledged |
| `PosixClient.NothingWrittenPastLastBlockNumber` | C/client/receive_file.c:115-116 | once 65535 blocks are counted, no further block can ever be written |
| `PosixClient.RecvErrorChangesNothing` | C/client/receive_file.c:81-85 | inserting a failed receive anywhere leaves the counters, effects and outcome unchanged |
| `PosixClient.Bracket` | C/client/receive_file.c:146-150 | wrapping the loop in the request and the close keeps its outcome and counters |
| `PosixClient.TimeTransfer` | C/client/receive_file.c:151-152 | the stopwatch is stopped exactly when the transfer is over, and reads the time from the request to the end |
| `PosixClient.ReceiveFileRequestsOnce` | C/client/receive_file.c:50-65 | the request is sent once, before anything else; a finished transfer with an open file ends by closing it |
| `WindowsClient.SignedChar` | Windows/client/client.c:139 | an octet read as a signed char lies in -128..127 and is congruent to it modulo 256 |
| `WindowsClient.Loop` | Windows/client/client.c:124-192 | the loop consumes at most the events given, is still waiting only when it consumed them all, and consumes at least one event when it ends |
| `WindowsClient.Step` | Windows/client/client.c:131-155 | a failed receive is a network failure; ERROR fails with its message; any other opcode than DATA is a protocol failure; a DATA packet whose file cannot be opened is a local I/O failure; none of these has an effect |
| `WindowsClient.Take` | Windows/client/client.c:157-191 | a DATA packet past the open fails with a local I/O error exactly when it is a new block and the write fails, and lets the loop go on only when its payload is a full block and its ACK went out in full |
| `WindowsClient.StepOutcome` | Windows/client/client.c:160-191 | a failed write is a local I/O failure; a short ACK send is a network failure; otherwise the step succeeds when the payload is not 512 bytes and waits when it is |
| `WindowsClient.StepWrites` | Windows/client/client.c:160-169 | a packet writes its payload exactly when it is non-empty and its block number is above the count, and the counters grow by what was written |
| `WindowsClient.StepAcks` | Windows/client/client.c:171-185 | an ACK echoing the block number goes to the packet's source exactly when the packet got past the write |
| `WindowsClient.StepOpens` | Windows/client/client.c:149-155 | the file is opened by the first DATA packet, before anything else that packet does |
| `WindowsClient.LoopGoesOnOnlyAfterFullBlocks` | Windows/client/client.c:124-192 | every packet before the last one handled was a 512-byte DATA packet that was fully acknowledged |
| `WindowsClient.LoopSucceedsOnShortBlock` | Windows/client/client.c:187-191 | success means the last packet was a DATA packet whose payload is not 512 bytes and whose ACK was the last effect |
| `WindowsClient.LoopCountsWrites` | Windows/client/client.c:161-164 | the byte and block counts grow by exactly the bytes and blocks handed to the writes |
| `WindowsClient.FailedWriteStillCounted` | Windows/client/client.c:161-168 | a new block whose write fails is still handed to the file and counted, since the counters advance before `ferror` is checked; it gets no ACK and the transfer fails |
| `WindowsClient.LoopWritesBlocksAboveCount` | Windows/client/client.c:157-164 | every block written was numbered above the block count at the time it arrived |
| `WindowsClient.LoopAcksEachDatagram` | Windows/client/client.c:171-185 | the ACKs sent are exactly one per acknowledged packet, in order, each to its packet's source |
| `WindowsClient.LoopOpensOnce` | Windows/client/client.c:149-155 | an open file stays open, and the file is opened at most once, exactly when the loop opened it |
| `WindowsClient.LoopOpensFirst` | Windows/client/client.c:149-155 | when the file was not open, the first effect of the loop is opening it |
| `WindowsClient.StaleBlockOpensFile` | Windows/client/client.c:149-164 | a duplicate or empty DATA packet still opens the file and is acknowledged, but writes nothing |
| `WindowsClient.ResentBlockNotRewritten` | Windows/client/client.c:158-164 | a block numbered at most one past the count, once accepted, is not written again when it arrives again |
| `WindowsClient.NothingWrittenPastLastBlockNumber` | Windows/client/client.c:46-50 | once 65535 blocks are counted, no further block can ever be written |
| `WindowsClient.GetFile` | Windows/client/client.c:113-119 | a request not sent in full fails with a network error before anything is received |
| `WindowsClient.Bracket` | Windows/client/client.c:195-203 | the transfer succeeds exactly when the loop succeeded and the file, if open, closed without error |
| `WindowsClient.GetFileReturnsZero` | Windows/client/client.c:190-205 | 0 is returned exactly when the request went out in full, the loop succeeded and the close succeeded, and success implies an open file |
| `WindowsClient.GetFileRequestsOnce` | Windows/client/client.c:107-119 | the request is sent once, first; a finished transfer with an open file ends by closing it; an unopened file is never closed |
| `WindowsClient.BlockNumberAsWritten` | Windows/client/client.c:158 | the block number as the code computes it, through signed chars, still fits in 16 bits |
| `WindowsClient.BlockNumberAsWrittenReads` | Windows/client/client.c:158 | as written, the block number is the unsigned one while the low octet is below 128, and 0xFF00 plus the low octet otherwise, whatever the high octet |
| `WindowsClient.ResentBlockRewrittenAsWritten` | Windows/client/client.c:158-161 | as written, block 128 reads as 65408, so it passes the new-block test again after it was accepted |
| `WindowsClient.SkippedBlockRewritten` | Windows/client/client.c:161-164 | a block that skips ahead is written, and written again when it is resent |
| `Server.ExtractFileName` | C/server/server.c:24-28 | no file name is found in any request |
| `Server.ErrorDatagram` | C/server/server.c:33-45 | the reply is 21 bytes: opcode 5, error code 0, "Not implemented!" and a NUL |
| `Server.ErrorDatagramIsErrorPacket` | C/server/server.c:35-39 | the reply is the ERROR encoding of code 0 and the message, and parses back to them |
| `Server.Handle` | C/server/server.c:111-139 | a child exists exactly when a request arrived and fork succeeded; it fails exactly when its socket fails; otherwise it sends exactly the one ERROR reply to the requester; no file is ever sent |
| `Server.Serve` | C/server/server.c:99-140 | the server sends at most one datagram per arrival, and every one it sends is the ERROR reply |
| `Server.ServeRepliesOncePerRequest` | C/server/server.c:99-140 | the server's output is one ERROR reply per answered request, in arrival order, each to its requester |
| `Agreement.ErrorReplyEndsTransfer` | C/server/server.c:129-133 | both clients end a transfer answered by the server's reply with a server error carrying "Not implemented!", having done nothing but send the request |
| `Agreement.ErrorPacketEndsTransfer` | C/client/receive_file.c:90-94 | both clients end on a first ERROR packet with its message and no effect beyond the request |
| `Agreement.PosixReceivesStream` | C/client/receive_file.c:114-143 | fed a file's blocks numbered consecutively, the POSIX loop succeeds after the last block, with exactly the file's bytes written |
| `Agreement.LoopsAgreeOnStream` | Windows/client/client.c:157-191 | on such a stream, with every host operation succeeding, the two loops behave identically |
| `Agreement.CleanTransfer` | C/client/receive_file.c:22-159 | a clean transfer of any file succeeds on both clients with identical effects; the bytes written are exactly the file, and the last effect closes it |
| `Agreement.OpcodeReadDifferently` | Windows/client/client.c:139 | a packet with octets 1, 5 is an ERROR for the Windows client but a data packet for the POSIX client |
| `Agreement.SkippedBlockAcceptedOnlyByWindows` | Windows/client/client.c:161 | a first packet numbered 3 is written by the Windows client and not by the POSIX client |
| `Agreement.ReceiveFailurePolicies` | Windows/client/client.c:131-136 | a failed receive is skipped by the POSIX client and ends the Windows transfer with a network error |

## Left out

- Sockets, `bind`, `fork`, the server's and the clients' main loops, argument parsing and the interactive prompt are not modelled. The receive results, send results and fork results become parameters.
- Console output is not modelled: the progress line and the printing of error messages. The text of a server's ERROR packet, which the clients print, is kept as the message of `Engine.Failure.ServerError`.
- The transfer-rate computation in floating point (C/client/receive_file.c:153-156) is not modelled.
- The DOS and Win32 branches of the stopwatch are not modelled; only the POSIX `gettimeofday` branch is.
- `Timer_state` is declared in C/client/Timer.h:85 but defined nowhere, so it has no model.
- environ.h, client.h, server.h and the Java sources are not part of this model.
- The POSIX client does not check `fopen`'s result; writing after a failed open is undefined behaviour, so the model lets that open always succeed.
- The POSIX client ignores its send results. Its request and ACK effects record the attempt.
- Datagrams shorter than the 4-byte header are excluded by `Engine.ValidEvent`. The code would read stale buffer contents in that case.
- An ERROR message without a NUL is read up to the end of the datagram. The code would read past it.
- Timeouts and retransmission do not exist in the source, so they are absent here too.
- `long` and `time_t` overflow are not modelled. Integers are unbounded, and only 16-bit block numbers are modelled as such.
- The server's request buffer bound of 512 bytes is assumed of arrivals (`Server.ValidArrival`), not enforced by a truncation.
- `extract_file_name` always yields nothing in the source. `Server.ExtractFileName` keeps it that way, so the file-sending branch is unreachable and `send_file` is left out.
- WindowsClient.StepWrites: the new-block test reads the block number unsigned, as 256 × high + low. The code builds it through the signed `char` buffer, which differs for low octets of 128 or more (see Findings); every Windows write and ACK property is stated for the unsigned reading.
- Engine.Written: a write the host fails is still an `Append` effect. The Windows client counts the block before it checks `ferror` (`WindowsClient.FailedWriteStillCounted`), and the POSIX client never checks. The model does not say which bytes of a failed write reach the disk.
- Stopwatch.Initialize: leaves the start field as the caller gave it, since the source's constructor never writes it. No reading depends on it unless the timer is stopped before it is first started, which in C reads an indeterminate field (`Stopwatch.Stop` then uses the caller's value); C/client/receive_file.c always starts the timer before it stops it.
- Agreement.CleanTransfer: covers files of fewer than 65535 × 512 bytes; past that the 16-bit block number wraps, and both clients stop writing (`PosixClient.NothingWrittenPastLastBlockNumber`, `WindowsClient.NothingWrittenPastLastBlockNumber`).
- WindowsClient.ResentBlockNotRewritten: covers a block numbered at most one past the count. A block that skips further ahead is written and raises the count by one only, so its resend is written again (`WindowsClient.SkippedBlockRewritten`).
- Engine.ValidName: both clients copy the name into their 516-byte request buffer without a length check (C/client/receive_file.c:53, Windows/client/client.c:110); the overflow for names longer than the bound is not modelled, and those names are left out.
- PosixClient.StepAcks: each ACK goes to the source of the packet it answers, as the code does. There is no separate peer address pinned at the first packet.

## Findings

| source | as written | input that shows it | evidently intended | confidence | as-written member | corrected member |
|---|---|---|---|---|---|---|
| Windows/client/client.c:158 | the block number is built from the two buffer octets through the signed `char` buffer, so a low octet of 128 or more sign-extends and covers the high octet | DATA block 128 (octets 0, 128) reads as 65408; after block 128 is accepted (count 128), a resend still passes the new-block test and its payload is written twice | the unsigned 16-bit block number 256 × high + low, under which a block numbered at most one past the count is not written again when it arrives again | medium, not executed | `WindowsClient.ResentBlockRewrittenAsWritten`, `WindowsClient.BlockNumberAsWrittenReads` | `WindowsClient.ResentBlockNotRewritten` |

The rest of the Windows model uses the unsigned block number (`Wire.BlockNumber`).
