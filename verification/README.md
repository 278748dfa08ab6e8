# OpenSnell: the Snell v4/v5 transport and what is built on it

This project models, in Dafny, the parts of OpenSnell where bytes and sessions can go wrong, and proves what every run
of them keeps. `dafny verify dfyconfig.toml` checks everything.

| file | what it models |
|---|---|
| `Bytes.dfy`, `Streams.dfy`, `Sockets.dfy` | octets; what a direction carries once frames are opened; byte queues with short writes and fragmented reads |
| `Nonces.dfy`, `Frames.dfy` | the 12-byte nonce counter; the sealed frame format and its reader on arbitrary bytes |
| `RecordSizing.dfy`, `Padding.dfy` | the frame-size ramp; first-frame padding, its popcount and its bit ratio |
| `FrameWriter.dfy`, `FrameReader.dfy`, `Fidelity.dfy` | the stateful writer and reader, runs of one against runs of the other, and whole transfers |
| `Requests.dfy`, `Connections.dfy` | request headers, responses, and the client and server connection wrappers |
| `Sessions.dfy`, `Histories.dfy`, `FailedDials.dfy`, `ConnPool.dfy` | connection reuse as a two-party protocol; its runs against their own list of actions; what a failed dial does to it; the client's pool |
| `TlsObfs.dfy`, `TlsConns.dfy`, `EndToEnd.dfy` | the TLS-shaped disguise; the transport carried inside it |
| `Socks5.dfy`, `Datagrams.dfy`, `Quic.dfy`, `FlowTable.dfy` | SOCKS5 addresses, UDP over frames, the QUIC envelope, the flow table |

How the system is represented:

- **AES-GCM** is a pair of functions `seal` and `open` of a nonce and a byte string; a salt determines the pair, the
  pre-shared key being fixed. Two facts are assumed of it, as a precondition (`Lawful`): opening what was sealed under
  the same nonce gives it back, and sealing adds 16 bytes. The QUIC decoder, which indexes an opened header without
  looking at its length, also needs that opening takes 16 bytes off (`OpensToLength`).
- **Salts, clock readings, hello randomness and the jitter of the bit ratio** are parameters; padding and shuffle draws
  are arbitrary choices inside methods. Floating point is read as real arithmetic.
- **The socket** is a byte queue: a write may take any non-empty part, a read may return any non-empty part, and the
  queue may be cut anywhere.
- **Reuse** is a transition system. One side is `PoolConn` over `Snell`, the other the loop of `handleConn`; the actions
  are the steps of either side, the relays and deadlines being arbitrary actions. `ReplyRefines`, `DrainRefines` and
  `ServerDrainRefines` tie its response step and its drains to the contracts of the connection classes.

Where the code and its documentation differ, the model follows the code:

- The project's README has the first-frame padding balance salt, padding and ciphertext; the code balances padding and
  payload ciphertext only, and counts the ciphertext's ones in whole groups of four bytes. `WireRatio` states the bound
  that remains.
- The README and the comment in `pool.go` say that the drain before pooling leaves a clean frame boundary. It does not
  when upstream closed without sending a byte, because the server then sends two zero chunks (`server.go:496-512`).
  `StaleZeroChunk` is a run in which the next session's first read is a false end of file; `PoolingIsSafeExactly` says
  exactly when pooling is safe: upstream sent something, or the client's relay had itself read the end of file.
  `SeenEofIsNotPooled` adds that after real data a relay that ended by reading the server's zero chunk leaves nothing to
  drain to, so such a connection is never pooled.

One more behaviour of the code is stated separately because reuse is not safe with it. After a failed dial the server
reports the error and goes back to reading a request (`server.go:466-472`), so it takes what the application had already
written for the refused session as the client's next header. `FailedDialPoolsExactly` says when such a connection still
ends up in the pool: the client's relay has read the error, the connection has a use left, and those bytes are a CONNECT
request, for reuse or not. `RequestInData` is a run in which the server so takes on a host the client never asked for.

## Model

| member | source | states |
|---|---|---|
| Fidelity.StreamFidelity | components/snell/v4.go:183-301 | for every run of writes, zero chunks and packets, any clock, salt, padding, cut of the wire and read sizes, the reader has a prefix of what was sent with each zero chunk in place, and all of it once the wire is complete and reads suffice |
| Fidelity.Transfer | components/snell/v4.go:183-301 | the same of the code: a new writer makes any run of calls, any part of what it sent arrives, and a new reader makes any run of reads |
| Fidelity.Transmit | components/snell/v4.go:276-381 | what a new writer sends in any run is the image of frames that carry the run's chunks, with 256 to 511 bytes of padding in the first frame if it has a payload, none anywhere else, and in them the ones the ratio asks for |
| Fidelity.RunWriter | components/snell/v4.go:276-301 | any run of Write and WritePacketFrame calls adds exactly the frames' chunks of that run at its clock readings |
| Fidelity.RunReader | components/snell/v4.go:183-197 | any run of Reads up to the first failure gets what the stream function says |
| Fidelity.Receive | components/snell/v4.go:49-67 | a new reader on any bytes whatever gets what their decoding says |
| Fidelity.RunCarriesItems | components/snell/v4.go:276-301 | the frames of a run of writer calls carry exactly the bytes and zero chunks asked for, oversized packets excepted |
| Fidelity.DecodeConnectionPrefix | components/snell/v4.go:49-67 | from the salt on, a cut wire decodes to a prefix of the frames with only an end-of-stream error, a whole wire to all of them |
| Fidelity.NonceLockStep | components/snell/v4.go:199-241 | at every frame boundary the reader's nonce counter is the writer's after that frame, and the rest of the wire is the rest of the frames |
| Fidelity.SealsNeverRepeat | components/snell/v4.go:352-359 | a writer's first 2^96 seals use pairwise distinct nonces, as section 3.1 of RFC 5116 requires |
| Fidelity.BurstStartFitsOnePacket | components/snell/v4.go:303-330 | the first frame of a fresh stream or of a burst after an idle gap is at most 1460 bytes on the wire, salt and padding included, and exactly that when full |
| Fidelity.FirstFrameRatio | components/snell/v4.go:371-378 | the padded first frame a writer sends satisfies the bit-ratio bound for the jitter it drew, whenever the popcount branch was taken, and the bands of WireBands |
| Nonces.IncrementNonce | components/snell/v4.go:500-507 | the in-place loop with early exit is the carry-propagating increment |
| Nonces.IncrementAddsOne | components/snell/v4.go:500-507 | incrementing adds one modulo 256^length to the little-endian value |
| Nonces.IncrementIsSuccessor | components/snell/v4.go:500-507 | incrementing the encoding of v gives the encoding of v+1, wrap-around included |
| Nonces.NoncesDistinct | components/snell/v4.go:500-507 | two counter values below 2^96 never give the same nonce |
| Nonces.LittleEndianValue | components/snell/v4.go:500-507 | a counter value's encoding, read as a little-endian integer, is the value |
| Frames.SwapInvolutive | components/snell/v4.go:383-393 | the receiver's interleave undoes the sender's for any two lengths |
| Frames.ReadFrameInverts | components/snell/v4.go:199-241 | a whole frame in front of anything is opened to exactly its payload or zero chunk, leaving what follows and the counter advanced by one or two |
| Frames.ReadFrameStarves | components/snell/v4.go:199-230 | a frame cut short is a clean end in front of its header or right behind it, and an unexpected end anywhere else |
| Frames.DecodeCut | components/snell/v4.go:183-241 | whole frames and part of one give exactly the chunks of the whole ones, and the end that fits the cut |
| Frames.FrameFormat | components/snell/v4.go:339-381 | the frame byte by byte: the sealed header with type 4 and both lengths, then padding and ciphertext with their shared even positions exchanged |
| Frames.FrameRefused | components/snell/v4.go:199-241 | on arbitrary bytes, exactly when each error is returned; in particular a failed authentication exactly when header or de-interleaved body does not open under the nonce due |
| Frames.FrameAccepted | components/snell/v4.go:199-241 | on arbitrary bytes, what is accepted opened under the nonces due, has the announced lengths, and is delivered unchanged |
| Frames.DecodeAuthentic | components/snell/v4.go:199-241 | whatever arrives, every chunk delivered is an opening under the very nonces due, in their order |
| Frames.DataOpened | components/snell/v4.go:235-241 | every payload delivered is what open made of some ciphertext under some nonce of the counter |
| Frames.DecodeInverts | components/snell/v4.go:183-241 | decoding a run of frames gives one chunk per frame in order and then a clean end |
| Frames.DecodePrefix | components/snell/v4.go:183-241 | any prefix of the wire decodes to a prefix of the chunks |
| Frames.EncodedLength | components/snell/v4.go:361-380 | the wire cost of a frame: 23 bytes, and with a payload its padding, itself and 16 |
| FrameReader.V4Reader.Open | components/snell/v4.go:49-67 | reads exactly the salt and starts a reader at nonce zero whose input is the decoding of the rest |
| FrameReader.V4Reader.OpenNext | components/snell/v4.go:205-206 | opens under the current nonce and steps it whether or not the tag is good |
| FrameReader.V4Reader.NextFrame | components/snell/v4.go:199-241 | returns payload, zero chunk or error, consumes and counts exactly as the frame function says, on arbitrary bytes; fails authentication exactly on a forged header or body |
| FrameReader.V4Reader.NextBody | components/snell/v4.go:214-241 | the same for padding and payload, with the zero-chunk and size checks |
| FrameReader.V4Reader.Read | components/snell/v4.go:183-197 | one Read returns the front of one frame, keeps the rest, never passes a zero chunk, and with nothing buffered fails authentication exactly on a forged header or body |
| FrameReader.Unswap | components/snell/v4.go:231-234 | in-place swap within one buffer recovers the payload ciphertext |
| FrameWriter.V4Writer.constructor | components/snell/v4.go:255-274 | a new writer has sent nothing, is at nonce zero and has an initial padding between 256 and 511 |
| FrameWriter.V4Writer.SealNext | components/snell/v4.go:352-358 | seals under the current nonce, records it, and steps |
| FrameWriter.V4Writer.NextPayloadLimit | components/snell/v4.go:307-330 | the limit and ramp are those of the run's clock readings, within 894 and 16383, with no uint16 wrap |
| FrameWriter.V4Writer.NextFramePaddingLength | components/snell/v4.go:332-337 | the initial padding before the first frame if that frame has a payload, otherwise none |
| FrameWriter.V4Writer.SealFrame | components/snell/v4.go:347-379 | header and body are the frame's encoding under the next one or two nonces, with the requested padding |
| FrameWriter.V4Writer.WriteFrame | components/snell/v4.go:339-381 | refuses what the source refuses and writes nothing, else appends one frame, the salt only before the first; everything sent is the image of the frames |
| FrameWriter.V4Writer.Write | components/snell/v4.go:276-301 | the frames added are exactly b cut by the ramp at the given clock readings, or one zero chunk for an empty b |
| FrameWriter.V4Writer.WritePiece | components/snell/v4.go:284-300 | one turn of the loop in Write sends the next piece, cut at the limit of this clock reading, as one frame |
| FrameWriter.V4Writer.WritePacketFrame | components/snell/v4.go:96-113 | the whole of b in one frame, or refused above 16383 bytes with nothing written |
| FrameWriter.PadAndSwap | components/snell/v4.go:371-379 | what goes out is padding and ciphertext interleaved, the padding obeying the ratio rule for the given jitter |
| FrameWriter.WireImageAppend | components/snell/v4.go:365-380 | one more frame adds its encoding, and the salt exactly once, before the first |
| Sockets.WriteFull | components/snell/v4.go:486-498 | all of p reaches the sink in order however short each write is |
| Sockets.ReadFull | components/snell/v4.go:199-230 | exactly n bytes from the front however fragmented, or the right end-of-stream error |
| RecordSizing.LimitInRange | components/snell/v4.go:287-330 | in any reachable ramp the limit is within 894 and 16383 and the caller's guard changes nothing |
| RecordSizing.LimitClosedForm | components/snell/v4.go:303-330 | in every run, frame k of a burst has limit min(base + 1421k, 16383), a burst starting at the first frame or after more than 30 s |
| RecordSizing.LimitInNumbers | components/snell/v4.go:303-330 | the same in numbers: 1405 less the padding, or 1421, plus 1421 a frame, up to 16383, a burst starting over after more than 30 s |
| RecordSizing.TwelfthFrameSaturates | components/snell/v4.go:303-330 | for every base the twelfth frame of a burst is the first at the maximum |
| RecordSizing.PiecesConserve | components/snell/v4.go:284-300 | cutting loses no byte and makes no empty or oversized frame |
| RecordSizing.PiecesFollowLimits | components/snell/v4.go:284-300 | after any run each frame of a Write is within the limit of its place in the run, all but the last exactly at it |
| RecordSizing.ShortWriteIsOneFrame | components/snell/v4.go:284-300 | up to 894 bytes travel in one frame whatever the ramp |
| Padding.SwapPadding | components/snell/v4.go:383-393 | the loop over slices, also of one buffer, exchanges the even positions both have and touches nothing else |
| Padding.SwapKeepsOnes | components/snell/v4.go:383-393 | the interleave conserves the number of set bits |
| Padding.CountPayloadOnes | components/snell/v4.go:430-437 | counts the set bits of the whole four-byte groups |
| Padding.CountedOnesBound | components/snell/v4.go:430-437 | the count is short of the true one by at most 24 |
| Padding.CountedOnesExact | components/snell/v4.go:430-437 | exactly the last one to three bytes go uncounted |
| Padding.FillBits | components/snell/v4.go:450-453 | a bit set with exactly the requested number of ones |
| Padding.Shuffle | components/snell/v4.go:454-460 | whatever is drawn, the bits are permuted and their sum kept |
| Padding.PackBits | components/snell/v4.go:461-466 | bit i lands in bit i mod 8 of byte i div 8, and none is lost |
| Padding.SetBit | components/snell/v4.go:462-466 | or-ing a clear bit sets that bit alone |
| Padding.MakeBitCountPadding | components/snell/v4.go:445-468 | exactly the requested number of bytes and of ones, or an error exactly when the count is impossible |
| Padding.MakePadding | components/snell/v4.go:398-428 | the padding has the length asked for, and the target popcount whenever none of the fallbacks applies |
| Padding.TruncateWithinOne | components/snell/v4.go:423 | the conversion to int moves the value by less than one |
| Padding.WireRatio | components/snell/v4.go:371-428 | after the interleave the ones on the wire lie strictly between T·r/(r+1) − 1 and T·r/(r+1) + 25 |
| Padding.BranchTaken | components/snell/v4.go:402-427 | exactly when padding falls back to random: no zeros, at most half as many ones as zeros, at least 1.6 times as many, or an impossible count, in integers and for the ratio of the side that is in the minority |
| Padding.WireBands | components/snell/v4.go:409-428 | in integers: where the counted ones outnumber the zeros, between 2/7 and 1/3 of the bits on the wire are ones, else between 8/13 and 17/27, up to 1 below and 25 above |
| Streams.ReadsConserve | components/snell/v4.go:183-197 | Reads of any sizes deliver the stream in order, losing and repeating nothing |
| Streams.ReadsProgress | components/snell/v4.go:183-197 | every Read with a real buffer makes progress until nothing is left |
| Streams.TakeReadFills | components/snell/v4.go:183-197 | a Read fills its buffer as far as the rest of one frame goes and leaves exactly what is behind |
| Requests.ConnectRoundTrip | components/snell/server.go:384-456 | the server parses what the client wrote to the same host, port and mode and stops at the end of the header |
| Requests.UdpRoundTrip | components/snell/conn.go:96-100 | the UDP header parses to a UDP request of exactly its length |
| Requests.EmptyHostRefused | components/snell/server.go:438-445 | an empty host passes the client and is refused by the server |
| Requests.ConnectParses | components/snell/server.go:384-456 | any CONNECT header with any client ID of up to 255 bytes parses to its target and length, and one with an empty host is refused |
| Requests.UdpParses | components/snell/server.go:406-416 | a UDP header with any client ID parses to a UDP request behind the ID |
| Requests.UnknownParses | components/snell/server.go:406-420 | any other command is refused once the client ID is there |
| Requests.ConnectIsFormat | components/snell/server.go:384-456 | whatever parses as a CONNECT is such a header |
| Requests.ParsedIsFormat | components/snell/server.go:384-445 | what parses as UDP or PING is one, and each refusal is for what the bytes say |
| Requests.CutIsShort | components/snell/server.go:384-456 | nothing is decided on an incomplete header |
| Requests.ReplyOutcome | components/snell/conn.go:36-72 | what ReadReply returns and leaves, from the leading bytes alone, including a zero chunk or the end in the middle |
| Requests.ErrorReplyDelivered | components/snell/server.go:701-710 | an error reply reaches the client with its code and its message cut to 250 bytes, and nothing behind it is touched |
| Requests.LazyRunIsTunnel | components/snell/server.go:552-586 | the server's plaintext for a relay is the tunnel byte and then the relayed bytes |
| Requests.LazyResponseDelivered | components/snell/server.go:532-586 | the client's ReadReply takes the tunnel byte and leaves exactly the relayed bytes, however they are framed |
| Requests.TakeFullOutcome | components/snell/conn.go:39-71 | a full read gives the next n bytes, or the zero chunk that comes first, or io.ReadFull's error, in each case leaving the right rest |
| Connections.ReadFullFrom | components/snell/conn.go:44-46 | io.ReadFull over the transport, frame by frame |
| Connections.Snell.ReadReply | components/snell/conn.go:36-72 | result, reply flag and remaining stream are those of the reply function |
| Connections.Snell.Read | components/snell/conn.go:27-34 | the response first, once, then one transport read; after an error reply or an unknown code the rest is left as it was |
| Connections.Snell.Write | components/snell/conn.go:102-107 | exactly the bytes given, or one zero chunk; up to 894 bytes in one frame |
| Connections.Snell.WriteHeader | components/snell/conn.go:77-94 | refused over 255 bytes of host, else exactly one frame holding the request |
| Connections.Snell.WriteUdpHeader | components/snell/conn.go:96-100 | exactly one frame holding the UDP request |
| Connections.BufReader.ReadByte | components/snell/server.go:384-398 | a byte from the buffer or from one refill |
| Connections.BufReader.Read | components/snell/server.go:600-607 | a relay read from the buffer or one transport read |
| Connections.BrSkipItems | components/snell/server.go:384-421 | byte by byte a buffered reader yields the leading bytes of what is pending and nothing else |
| Connections.ReadTarget | components/snell/server.go:438-455 | host and port of a CONNECT on any input, with the reader right behind them |
| Connections.ReadRequest | components/snell/server.go:384-456 | the request the leading bytes spell, or none while they are too few, and the reader stopped right behind it |
| Connections.ConnectHeaderFrame | components/snell/server.go:384-456 | one CONNECT frame is read back with the buffer left empty and the transport at the next frame |
| Connections.UdpHeaderFrame | components/snell/server.go:384-421 | the same for UDP, so the datagram loop that reads the stream directly loses nothing |
| Connections.ServerReadConn.Read | components/snell/server.go:600-607 | the client's zero chunk becomes end of file and is remembered |
| Connections.ServerReadConn.Drain | components/snell/server.go:513-528 | ends right behind the client's zero chunk with an empty buffer, and is clean without one only at end of stream |
| Connections.BrReadItems | components/snell/server.go:600-607 | a relay read returns leading bytes, or meets the zero chunk with nothing left in the buffer |
| Connections.LazyResponseStream.Write | components/snell/server.go:532-586 | the tunnel byte goes out with the first data, or alone before the zero chunk, and never twice |
| Connections.WriteServerError | components/snell/server.go:701-710 | one frame: code 2, the error code, the cut message |
| Connections.PoolConn.CloseWrite | components/snell/pool.go:126-131 | one zero chunk however often it is called |
| Connections.PoolConn.DrainPendingForReuse | components/snell/pool.go:159-176 | succeeds exactly when the server's zero chunk is there behind no complete error and no unknown code, and leaves what is behind it |
| Connections.PoolConn.Close | components/snell/pool.go:133-157 | once: zero chunk, drain, and pooled with a cleared reply flag exactly when the drain succeeds |
| Sessions.ReuseSafety | components/snell/server.go:360-530 | in every joint run in which dials succeed and pooling is safe, sessions stay apart on both sides, a pooled connection has nothing unread or owed, and the server's next request is the client's newest header |
| Sessions.PoolingIsSafeExactly | components/snell/pool.go:133-157 | pooling keeps the invariant, and leaves nothing unread or owed, if and only if upstream sent something or the client's relay had read the end of file |
| Sessions.StaleZeroChunk | components/snell/server.go:491-512 | a run that pools a connection with a stale zero chunk, whose next session reads a false end of file |
| Sessions.SeenEofIsNotPooled | components/snell/pool.go:141-176 | after real data, a relay that read the server's zero chunk leaves a connection that cannot be pooled |
| Sessions.StepKeeps | components/snell/server.go:438-530 | every enabled step of either side but a failed dial keeps the joint invariant, pooling only when safe |
| Sessions.SafeRunKeeps | components/snell/server.go:360-382 | whole runs of such steps keep it |
| Sessions.ReplyRefines | components/snell/conn.go:36-72 | the joint model's response step is possible exactly when ReadReply does not fail, and leaves the flag and the rest that ReadReply leaves |
| Sessions.DrainRefines | components/snell/pool.go:159-176 | each drain step of the joint model keeps, and ends in accordance with, the outcome PoolConn.Close promises |
| Sessions.ServerDrainRefines | components/snell/server.go:513-528 | likewise for the server's drain |
| Sessions.SessionParses | components/snell/server.go:384-456 | whatever follows it, a session's header parses to that session's target |
| Sessions.TakenBytes | components/snell/conn.go:27-34 | what the client reads is the next part of this session's upstream data |
| Sessions.GivenBytes | components/snell/server.go:600-607 | what the server relays is the next part of this session's client data |
| Histories.RunRecorded | components/snell/server.go:360-530 | in every run the client's logs hold the targets and bytes its Open and write actions gave, and the server's hold all the bytes upstream sent for each request, read off the list of actions |
| Histories.OnlyWhatWasSent | components/snell/server.go:360-530 | in every safe run each session reaches the target asked for, upstream gets a front part of what was written for it, and the client a front part of what upstream sent for it |
| Histories.FullSession | components/snell/pool.go:133-176 | from a fresh or pooled connection, any session in which both sides send and the client closes delivers both directions in full and leaves the connection at rest, in the pool while it has a use left |
| Histories.AtRestAgain | components/snell/pool.go:133-157 | a fresh connection, and a safely pooled one whose server is back between requests, are where a full session can start |
| FailedDials.FailedDial | components/snell/server.go:464-472 | from any safely reached state a failed dial sends the error code and the message cut to 250 bytes, uses up the header, and leaves the server about to read all the application wrote for the refused session, and no more |
| FailedDials.FailedDialPoolsExactly | components/snell/server.go:360-382 | after a failed dial a closed session's connection can still be pooled if and only if the relay has read the error, a use is left, and the application's bytes are a CONNECT request |
| FailedDials.FailedDialPoolsOnRequest | components/snell/server.go:464-472 | in every run after a failed dial, with the session still open or not, pooling means that the application wrote a CONNECT request |
| FailedDials.ServedAndPooled | components/snell/server.go:491-512 | the run that does it: the server takes on the written request, and a silent upstream gives the client its zero chunk; without reuse the server has then closed the pooled connection |
| FailedDials.RequestInData | components/snell/server.go:464-472 | from a fresh connection: the dial fails while the first data is a request for another host, the server takes on that host, and the connection is pooled |
| ConnPool.Pool.TakeIdle | components/snell/pool.go:63-76 | returns the last live item and closes everything behind it, or closes all |
| ConnPool.TakesLatestOrClosesAll | components/snell/pool.go:63-76 | on a list sorted by expiry that is the latest-expiring item popped alone, or every item expired |
| ConnPool.ClosesExactly | components/snell/pool.go:63-76 | closing the expired items closes exactly those and moves no other connection |
| ConnPool.Pool.Dial | components/snell/pool.go:56-60 | a fresh connection on its first session |
| ConnPool.Pool.Get | components/snell/pool.go:49-61 | an idle connection on its second session, else a fresh one, else nothing; only the items behind it are closed and every other connection stays where it was |
| ConnPool.Pool.Put | components/snell/pool.go:78-94 | closed on its last use or into a full pool, else idle for 15 s |
| ConnPool.Pool.Discard | components/snell/pool.go:133-151 | closed, nothing else moves |
| ConnPool.PopKeeps | components/snell/pool.go:67-74 | popping keeps every connection in exactly one place with at most two sessions, and the list sorted |
| ConnPool.PushKeeps | components/snell/pool.go:85-93 | so does returning one after its first session |
| TlsObfs.RoundTrip | components/obfs/tls/server.go:31-63 | both directions: for every run of writes, cut, buffer sizes and short reads the reads return a prefix of what was written; on the complete wire reading until a Read fails returns all of it, in no more reads than bytes |
| TlsObfs.JoinedAppend | components/obfs/tls/client.go:51-62 | the chunks of successive writes join to the writes one after the other |
| TlsObfs.SentNamesFit | components/obfs/tls/server.go:31-38 | on any part of what a client with a host name of at most 256 bytes sent, the server never meets a name its skip buffer does not hold |
| TlsObfs.SentTunnel | components/obfs/tls/client.go:64-82 | a hello and records, read with the fixed skips, hold exactly the chunks written, and end at a block boundary |
| TlsObfs.ReadStepConserves | components/obfs/tls/common.go:24-47 | every success of Read takes the front of the payload, leaving the rest |
| TlsObfs.ReadStepProgress | components/obfs/tls/common.go:24-47 | on a complete wire Read succeeds while payload is left and never returns nothing |
| TlsObfs.TunnelMonotone | components/obfs/tls/common.go:24-47 | more wire only extends the payload |
| TlsConns.ReadBlock | components/obfs/tls/common.go:24-47 | succeeds exactly when the bytes it needs are there, with the block or a first part of it and the remainder |
| TlsConns.ReadRemain | components/obfs/tls/server.go:41-49 | drains the rest of a block by the caller's buffer |
| TlsConns.MakeClientHello | components/obfs/tls/client.go:93-152 | data, its length, host name and trailer lie where the skips 140, 7 and 66 expect, the random parts where a hello has them, and the nested lengths count the bytes behind them |
| TlsConns.MakeServerHello | components/obfs/tls/server.go:105-136 | the data's length lies at 105, the random parts where a hello has them, and the first record's length ends at the change-cipher-spec record |
| TlsConns.Chunked | components/obfs/tls/client.go:51-62 | chunks that join to the whole, all of 16 KiB but the last, which is non-empty and at most that |
| TlsConns.TlsObfsServer.Read | components/obfs/tls/server.go:40-63 | unless a longer host name than 256 bytes is next, succeeds exactly when its bytes are there, with one of the steps the disguise allows |
| TlsConns.TlsObfsServer.SkipOtherExts | components/obfs/tls/server.go:31-38 | skips exactly the rest of the client hello; with a host name over 256 bytes it ends inside the hello, short by what one read did not take of the name |
| TlsConns.TlsObfsServer.WriteChunk | components/obfs/tls/server.go:78-95 | what was sent is a server hello around the first chunk and records around the others |
| TlsConns.TlsObfsServer.Write | components/obfs/tls/server.go:65-76 | adds exactly the 16 KiB chunks of b |
| TlsConns.TlsObfsClient.Read | components/obfs/tls/client.go:31-49 | the same with the 105-byte skip |
| TlsConns.TlsObfsClient.WriteChunk | components/obfs/tls/client.go:64-82 | what was sent is a client hello around the first chunk and records around the others |
| TlsConns.TlsObfsClient.Write | components/obfs/tls/client.go:51-62 | adds exactly the 16 KiB chunks of b |
| TlsConns.SendToServer | components/obfs/tls/client.go:51-82 | any run of writes puts what they join to on the wire as one hello and records |
| TlsConns.SendToClient | components/obfs/tls/server.go:65-95 | the same from the server |
| TlsConns.ReadOnServer | components/obfs/tls/server.go:40-63 | any run of Reads with any buffers is a run of allowed steps, ending only at a Read that cannot succeed |
| TlsConns.ReadOnClient | components/obfs/tls/client.go:31-49 | the same on the client |
| EndToEnd.DisguisedFidelity | components/snell/client.go:130-148 | the transport inside the disguise: a prefix of what was sent at any moment, all of it once the disguise of a complete wire has been read until nothing more comes |
| EndToEnd.ClientToServer | components/snell/client.go:130-148 | the same of the code, from the writer's calls through the disguise, its reads with any buffers and the reader's reads |
| EndToEnd.ServerToClient | components/snell/server.go:360-368 | the same in the other direction |
| Socks5.SplitAddr | components/socks5/socks5.go:176-198 | the address is a prefix of the input of at least four bytes |
| Socks5.SplitAccepts | components/socks5/socks5.go:176-198 | accepted exactly when the type is known and the address is all there, with the length section 5 of RFC 1928 gives it |
| Socks5.SplitStops | components/socks5/socks5.go:176-198 | splitting stops at the end of the address whatever follows |
| Socks5.ReadAddr | components/socks5/socks5.go:150-174 | from a stream, the same address as SplitAddr, consuming exactly it, and unsupported types told apart |
| Socks5.FromUdpAddr | components/socks5/socks5.go:233-258 | always a valid IP address encoding, of the given port and the given IP, a v4-mapped one as IPv4 |
| Socks5.UdpAddrRoundTrip | components/socks5/socks5.go:79-96 | to a SOCKS address and back normalises a v4-mapped IP and changes nothing else |
| Socks5.V4Encoding | components/socks5/socks5.go:233-258 | an IPv4 address, in four bytes or v4-mapped in sixteen, becomes type 1, its four bytes and the port |
| Socks5.V6Encoding | components/socks5/socks5.go:233-258 | any other sixteen-byte address becomes type 4, its bytes and the port |
| Socks5.PacketRefused | components/socks5/socks5.go:262-281 | exactly when a UDP packet is too short, has reserved bytes, is a fragment, or has no whole address |
| Socks5.PacketRoundTrip | components/socks5/socks5.go:262-290 | decoding inverts encoding on every valid address |
| Socks5.PacketAcceptedIsEncoded | components/socks5/socks5.go:262-290 | what is accepted is exactly what an encoder produces |
| Datagrams.EncodedRequestFits | components/snell/udp.go:77-148 | a whole address is accepted exactly when header and payload fit one frame, and anything accepted has that length |
| Datagrams.RequestRoundTrip | components/snell/udp.go:31-135 | the server recovers destination, port and payload exactly when the destination is an IP or host and payload are non-empty |
| Datagrams.RequestFormat | components/snell/udp.go:98-148 | the request byte by byte for host names and both kinds of IP, refused exactly over 16383 bytes |
| Datagrams.RequestParses | components/snell/udp.go:31-75 | every such request with a host name and payload, or an IP, parses to its fields |
| Datagrams.ServerUnmaps | components/snell/udp.go:50-72 | the server holds a v4-mapped address as its four bytes and any other as it came |
| Datagrams.AcceptedIsFormat | components/snell/udp.go:31-75 | nothing else is accepted |
| Datagrams.RequestRefused | components/snell/udp.go:31-75 | exactly when each parse error is returned |
| Datagrams.WritePacket | components/snell/udp.go:98-148 | for any address bytes: refused with nothing written, or exactly one frame |
| Datagrams.DatagramIsOneRead | components/snell/server.go:631-641 | one Read with the server's buffer returns the whole frame |
| Datagrams.DatagramDelivered | components/snell/server.go:631-641 | from an accepted datagram to the server's view of it, with the stream at the next frame |
| Datagrams.SocksToServer | components/snell/client.go:330-352 | a SOCKS5 packet with an IP destination reaches the server with the same IP (v4-mapped as IPv4), port and payload whenever it fits |
| Datagrams.SocksToServerBytes | components/snell/client.go:330-352 | in bytes: a packet for an IPv4 address, short or v4-mapped, is for those four bytes at the server, one for any other IPv6 address for those sixteen |
| Datagrams.ResponseRoundTrip | components/snell/udp.go:150-237 | the client recovers the normalised source and the payload cut to its buffer |
| Datagrams.ResponseFormat | components/snell/udp.go:150-187 | the response byte by byte: version, IP in its short form if it has one, port, payload |
| Datagrams.ResponseParses | components/snell/udp.go:189-237 | any such frame decodes to its IP, port and cut payload |
| Datagrams.ResponseSource | components/snell/udp.go:150-237 | so the client sees an IPv4 source as IPv4 however the server held it |
| Datagrams.WritePacketResponse | components/snell/udp.go:150-187 | one frame, or refused exactly when too large |
| Datagrams.ParseResponse | components/snell/udp.go:201-236 | overwriting the first byte and splitting as a SOCKS address parses the response format, errors included |
| Datagrams.ReadPacketResponse | components/snell/udp.go:189-237 | one Read, one response |
| Quic.EnvelopeRoundTrip | components/snell/quic.go:243-287 | every successfully encoded envelope decodes to the same host, port and inner packet |
| Quic.RequestRoundTrip | components/snell/quic.go:289-322 | the request inside it likewise |
| Quic.EnvelopeParses | components/snell/quic.go:246-287 | with any padding of up to 65535 bytes between header and payload, and anything behind, the payload is found and parsed |
| Quic.RequestParses | components/snell/quic.go:289-322 | a request with any client ID and any command but 0 parses to its target and inner packet |
| Quic.EncodedIsEnvelope | components/snell/quic.go:411-457 | what the encoder produces is such an envelope around such a request, without padding and ID |
| Quic.AcceptedRequest | components/snell/quic.go:289-322 | an accepted request is laid out as the format says, with any client ID and any non-zero command |
| Quic.EncodeEnvelope | components/snell/quic.go:411-457 | an error exactly for a long host, a missing inner packet or a payload over 65535 bytes |
| Quic.DirectNonces | components/snell/quic.go:278-282 | the nonces written out directly are the transport's first two |
| FlowTable.QuicFlow.Close | components/snell/quic.go:107-112 | closes once |
| FlowTable.Table.Get | components/snell/quic.go:334-338 | the client's flow, which is open, or none |
| FlowTable.Table.Put | components/snell/quic.go:340-347 | replaces and closes what the client had, keeping every flow open exactly while mapped |
| FlowTable.Table.Remove | components/snell/quic.go:349-356 | unmaps and closes, touching no other flow |
| FlowTable.Table.FindDead | components/snell/quic.go:367-375 | exactly the keys idle since before the cutoff |
| FlowTable.Table.Reap | components/snell/quic.go:376-386 | for any list of keys, however stale, unmaps them and keeps every flow open exactly while mapped |

## Left out

- FrameReader.V4Reader.NextFrame: after an error it promises the error but not what was consumed, because a connection that failed inside a frame is dead; deadlines fire only between frames.
- FrameReader.V4Reader.Read: the same after an error.
- Connections.Snell.ReadReply: the same after an error.
- Connections.ReadFullFrom: the same after an error.
- Connections.Snell.Read: the same after a failed read of the response.
- Sockets.WriteFull: a sink that fails or takes nothing is not modelled; a writer whose connection failed is dead.
- FrameWriter.V4Writer.WriteFrame: nor are a failing sink and a failing random source here.
- FrameWriter.V4Writer.Write: nor are they here, nor the partial count an error comes with.
- FrameWriter.V4Writer.NextPayloadLimit: durations are unbounded integers; the saturation of Go's time arithmetic at 292 years is not modelled.
- Connections.PoolConn.DrainPendingForReuse: its 500 ms deadline is input that runs out, between frames only.
- Connections.PoolConn.Close: write errors are left out, and that the connection goes to the pool is a flag here; the pool is ConnPool.
- Padding.MakePadding: float64 rounding is not modelled, and random fallback padding has only its length.
- TlsConns.TlsObfsServer.Read: promises nothing about a Read that has to skip a host name of more than 256 bytes, which no DNS name reaches; what the skip does then is stated by SkipOtherExts.
- TlsObfs.RoundTrip: the same, for a client with such a host name.
- Sessions.ReuseSafety: excludes failed dials, which FailedDials states, and claims nothing after an unsafe pooling.
- FailedDials.FailedDialPoolsExactly: nothing is claimed of the connection once it is in the pool again.
- Sessions.StepKeeps: a PING, UDP or unreadable request ends the model's server, its UDP relay not being part of this state machine; none of them sends a zero chunk.
- FlowTable.Table.Put: only flows the table has not seen, as the server's loop puts them; whose flow a late removal hits is not claimed.
- Argon2id, AES-GCM and the random source are library code.
- The lazy creation of the reader and writer inside v4Conn, and the 64 KiB read buffer below the reader, which any fragmentation already covers.
- Locks: each locked section is one step.
- The copy loops WriteTo and ReadFrom of v4Conn: plain loops over the modelled Read and Write.
- ParseAddr and the textual forms of addresses, which rest on library parsers; a target is a host and a port.
- HTTP obfuscation, sockets, dialing, DNS, TFO, egress binding, listeners, configuration, logging and installation.
