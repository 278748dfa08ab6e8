/** Request headers and response codes: the plaintext a session starts with, in each direction. */
module Requests {
  import opened Bytes
  import opened Streams

  const HEADER_VERSION: byte := 1
  const COMMAND_PING: byte := 0
  const COMMAND_CONNECT: byte := 1
  const COMMAND_CONNECT_V2: byte := 5
  const COMMAND_UDP: byte := 6
  const RESPONSE_TUNNEL: byte := 0
  const RESPONSE_PONG: byte := 1
  const RESPONSE_ERROR: byte := 2
  const MAX_HOST: nat := 255
  const MAX_HEADER: nat := 261
  const MAX_ERROR_MESSAGE: nat := 250

  /** WriteHeader's bytes; None where it refuses the host name. */
  function EncodeConnect(host: seq<byte>, port: uint16, reuse: bool): (b: Option<seq<byte>>)
    ensures b.None? <==> |host| > MAX_HOST
    ensures b.Some? ==> |b.value| == 6 + |host| <= MAX_HEADER
  {
    if |host| > MAX_HOST then None
    else Some([HEADER_VERSION, if reuse then COMMAND_CONNECT_V2 else COMMAND_CONNECT, 0, |host|] + host + BigEndian16(port))
  }

  const UDP_HEADER: seq<byte> := [HEADER_VERSION, COMMAND_UDP, 0]

  datatype RejectReason = BadVersion | UnknownCommand | EmptyHost

  /** What handleRequest makes of the leading bytes of a session, and how many of them it uses. */
  datatype Request =
    | Ping(used: nat)
    | Connect(host: seq<byte>, port: uint16, reuse: bool, used: nat)
    | Udp(used: nat)
    | Reject(reason: RejectReason)
    | Short

  function ParseRequest(b: seq<byte>): (r: Request)
    ensures r.Ping? || r.Connect? || r.Udp? ==> 0 < r.used <= |b|
    ensures r.Connect? ==> |r.host| <= MAX_HOST
  {
    if |b| < 1 then Short
    else if b[0] != HEADER_VERSION then Reject(BadVersion)
    else if |b| < 2 then Short
    else if b[1] == COMMAND_PING then Ping(2)
    else if |b| < 3 || |b| < 3 + b[2] as int then Short
    else
      var off := 3 + b[2] as int;
      if b[1] == COMMAND_UDP then Udp(off)
      else if b[1] != COMMAND_CONNECT && b[1] != COMMAND_CONNECT_V2 then Reject(UnknownCommand)
      else if |b| < off + 1 then Short
      else if b[off] == 0 then Reject(EmptyHost)
      else
        var end := off + 1 + b[off] as int;
        if |b| < end + 2 then Short
        else Connect(b[off + 1..end], FromBigEndian16(b[end..end + 2]), b[1] == COMMAND_CONNECT_V2, end + 2)
  }

  /** The server recovers exactly the host, port and mode the client wrote, and stops at the end of the header. */
  lemma ConnectRoundTrip(host: seq<byte>, port: uint16, reuse: bool, more: seq<byte>)
    requires 1 <= |host| <= MAX_HOST
    ensures var b := EncodeConnect(host, port, reuse).value;
      ParseRequest(b + more) == Connect(host, port, reuse, |b|)
  {
    var b := EncodeConnect(host, port, reuse).value + more;
    var end := 4 + |host|;
    assert b[4..end] == host;
    assert b[end..end + 2] == BigEndian16(port);
  }

  lemma UdpRoundTrip(more: seq<byte>)
    ensures ParseRequest(UDP_HEADER + more) == Udp(|UDP_HEADER|)
  {
  }

  /** An empty host is written by the client but refused by the server. */
  lemma EmptyHostRefused(port: uint16, reuse: bool, more: seq<byte>)
    ensures ParseRequest(EncodeConnect([], port, reuse).value + more) == Reject(EmptyHost)
  {
  }

  // ---- The format in full, with a client ID of any length ----

  function ConnectBytes(command: byte, id: seq<byte>, host: seq<byte>, port: uint16): seq<byte>
    requires |id| <= 255 && |host| <= 255
  {
    [1, command, |id|] + id + [|host|] + host + BigEndian16(port)
  }

  /** Every CONNECT header with any client ID: the ID is skipped, the target read, and nothing behind it touched. */
  lemma ConnectParses(command: byte, id: seq<byte>, host: seq<byte>, port: uint16, more: seq<byte>)
    requires |id| <= 255 && |host| <= 255 && command in {1, 5}
    ensures ParseRequest(ConnectBytes(command, id, host, port) + more)
      == if host == [] then Reject(EmptyHost) else Connect(host, port, command == 5, 6 + |id| + |host|)
  {
    var b := ConnectBytes(command, id, host, port) + more;
    var off := 3 + |id|;
    var end := off + 1 + |host|;
    assert b == ([1, command, |id|] + id) + ([|host|] + host + BigEndian16(port) + more);
    assert b[off] == |host|;
    if host != [] {
      assert b[off + 1..end] == host;
      assert b[end..end + 2] == BigEndian16(port);
    }
  }

  lemma UdpParses(id: seq<byte>, more: seq<byte>)
    requires |id| <= 255
    ensures ParseRequest([1, 6, |id|] + id + more) == Udp(3 + |id|)
  {
  }

  lemma PingParses(more: seq<byte>)
    ensures ParseRequest([1, 0] + more) == Ping(2)
  {
  }

  lemma UnknownParses(command: byte, id: seq<byte>, more: seq<byte>)
    requires |id| <= 255 && command !in {0, 1, 5, 6}
    ensures ParseRequest([1, command, |id|] + id + more) == Reject(UnknownCommand)
  {
  }

  /** Nothing else is a CONNECT. */
  lemma ConnectIsFormat(b: seq<byte>) returns (id: seq<byte>)
    requires ParseRequest(b).Connect?
    ensures var r := ParseRequest(b);
      && |id| <= 255 && 0 < |r.host| <= 255 && r.used <= |b|
      && b[..r.used] == ConnectBytes(if r.reuse then 5 else 1, id, r.host, r.port)
  {
    hide ConnectBytes, BigEndian16;
    var r := ParseRequest(b);
    var off := 3 + b[2] as int;
    id := b[3..off];
    PortAt(b[r.used - 2..r.used]);
    var p := b[..r.used];
    assert p[3..off] == id && p[off + 1..r.used - 2] == b[off + 1..r.used - 2] && p[r.used - 2..] == b[r.used - 2..r.used];
    Assembled(p, if r.reuse then 5 else 1, id, r.host, r.port);
  }

  lemma PortAt(p: seq<byte>)
    requires |p| == 2
    ensures BigEndian16(FromBigEndian16(p)) == p
  {
  }

  lemma Assembled(p: seq<byte>, command: byte, id: seq<byte>, host: seq<byte>, port: uint16)
    requires |id| <= 255 && |host| <= 255 && |p| == 6 + |id| + |host|
    requires p[0] == 1 && p[1] == command && p[2] == |id| && p[3..3 + |id|] == id
    requires p[3 + |id|] == |host| && p[4 + |id|..4 + |id| + |host|] == host && p[4 + |id| + |host|..] == BigEndian16(port)
    ensures p == ConnectBytes(command, id, host, port)
  {
    hide BigEndian16;
    var off := 3 + |id|;
    assert p[..3] == [1, command, |id|];
    assert p[off..off + 1] == [|host|];
    SixParts(p[..3], id, [|host|], host, BigEndian16(port), [], p);
    assert ConnectBytes(command, id, host, port) == [1, command, |id|] + id + [|host|] + host + BigEndian16(port) + [];
  }

  /** Nor anything else a UDP or PING request, and what is refused is refused for what it says. */
  lemma ParsedIsFormat(b: seq<byte>)
    ensures match ParseRequest(b)
      case Connect(_, _, _, _) => true
      case Udp(used) => |b| >= 3 && used == 3 + b[2] as int <= |b| && b[0] == 1 && b[1] == 6
      case Ping(used) => used == 2 <= |b| && b[..2] == [1, 0]
      case Reject(BadVersion) => b != [] && b[0] != 1
      case Reject(UnknownCommand) => |b| >= 3 && b[0] == 1 && |b| >= 3 + b[2] as int && b[1] !in {0, 1, 5, 6}
      case Reject(EmptyHost) => |b| >= 3 && b[0] == 1 && |b| > 3 + b[2] as int && b[1] in {1, 5} && b[3 + b[2] as int] == 0
      case Short => b != [] ==> b[0] == 1
  {
  }

  /** While a header is incomplete the server decides nothing. */
  lemma CutIsShort(command: byte, id: seq<byte>, host: seq<byte>, port: uint16, cut: nat)
    requires |id| <= 255 && 0 < |host| <= 255 && command in {1, 5}
    requires cut < |ConnectBytes(command, id, host, port)|
    ensures ParseRequest(ConnectBytes(command, id, host, port)[..cut]).Short?
  {
    var b := ConnectBytes(command, id, host, port);
    assert b[3 + |id|] == |host|;
  }

  /** The longest run of bytes at the front of a stream. */
  function LeadingBytes(items: seq<Item>): (b: seq<byte>)
    ensures |b| <= |items| && items[..|b|] == Items(b)
    ensures |b| < |items| ==> items[|b|].ZeroChunk?
  {
    if items == [] || items[0].ZeroChunk? then []
    else
      var rest := LeadingBytes(items[1..]);
      assert items[..1 + |rest|] == [items[0]] + items[1..][..|rest|];
      [items[0].b] + rest
  }

  lemma LeadingAt(p: seq<Item>, i: nat)
    requires i <= |LeadingBytes(p)|
    ensures i < |LeadingBytes(p)| ==> p[i] == Byte(LeadingBytes(p)[i])
    ensures i == |LeadingBytes(p)| && i < |p| ==> p[i] == ZeroChunk
  {
    var L := LeadingBytes(p);
    if i < |L| {
      assert p[..|L|][i] == Items(L)[i];
    }
  }

  /** Taking n leading bytes off a stream. */
  lemma LeadingTake(p: seq<Item>, n: nat)
    requires n <= |LeadingBytes(p)|
    ensures p == Items(LeadingBytes(p)[..n]) + p[n..]
  {
    assert Items(LeadingBytes(p)[..n]) == Items(LeadingBytes(p))[..n];
  }

  lemma {:induction false} LeadingBytesOf(b: seq<byte>, more: seq<Item>)
    ensures LeadingBytes(Items(b) + more) == b + LeadingBytes(more)
  {
    if b == [] {
      assert Items(b) + more == more;
    } else {
      assert (Items(b) + more)[1..] == Items(b[1..]) + more;
      LeadingBytesOf(b[1..], more);
    }
  }

  /** writeServerError's bytes. */
  function EncodeError(code: byte, message: seq<byte>): (b: seq<byte>)
    ensures |b| <= 3 + MAX_ERROR_MESSAGE
  {
    var m := if |message| > MAX_ERROR_MESSAGE then message[..MAX_ERROR_MESSAGE] else message;
    [RESPONSE_ERROR, code, |m|] + m
  }

  /** What the first Read of a session makes of the response. */
  datatype Reply =
    | Ready
    | AppError(code: byte, message: seq<byte>)
    | UnknownResponse(code: byte)
    | NoReply(cause: ReadResult)

  /** io.ReadFull over a transport connection. */
  function TakeFull(s: Stream, n: nat): (r: (ReadResult, Stream))
    ensures r.0.Got? ==> |r.0.bytes| == n
    decreases n, |s.chunks|
  {
    if n == 0 then (Got([]), s)
    else match TakeRead(s, n)
      case (Got(b), s') =>
        (match TakeFull(s', n - |b|)
         case (Got(more), s'') => (Got(b + more), s'')
         case (Failed(EndOfStream), s'') => (Failed(if b == [] then EndOfStream else UnexpectedEnd), s'')
         case other => other)
      case other => other
  }

  /** ReadReply: the reply flag and stream after it, and what it returned. */
  function TakeReply(reply: bool, s: Stream): (Reply, bool, Stream) {
    if reply then (Ready, true, s)
    else match TakeFull(s, 1)
      case (Got(b), s1) =>
        if b[0] == RESPONSE_TUNNEL || b[0] == RESPONSE_PONG then (Ready, true, s1)
        else if b[0] != RESPONSE_ERROR then (UnknownResponse(b[0]), true, s1)
        else TakeError(s1)
      case (e, s1) => (NoReply(e), false, s1)
  }

  function TakeError(s: Stream): (Reply, bool, Stream) {
    match TakeFull(s, 1)
    case (Got(code), s1) =>
      (match TakeFull(s1, 1)
       case (Got(length), s2) =>
         (match TakeFull(s2, length[0])
          case (Got(message), s3) => (AppError(code[0], message), true, s3)
          case (e, s3) => (NoReply(e), true, s3))
       case (e, s2) => (NoReply(e), true, s2))
    case (e, s1) => (NoReply(e), true, s1)
  }

  /** When the next n items are bytes, ReadFull returns them however they are framed. */
  lemma {:induction false} TakeFullDelivers(s: Stream, b: seq<byte>, more: seq<Item>)
    requires Flatten(s.chunks) == Items(b) + more
    ensures TakeFull(s, |b|).0 == Got(b)
    ensures Flatten(TakeFull(s, |b|).1.chunks) == more && TakeFull(s, |b|).1.end == s.end
    ensures NoEmptyData(s.chunks) ==> NoEmptyData(TakeFull(s, |b|).1.chunks)
    decreases |b|, |s.chunks|
  {
    if b == [] {
      assert Items(b) + more == more;
    } else {
      TakeReadConserves(s, |b|);
      var (r, s') := TakeRead(s, |b|);
      assert Flatten(s.chunks)[0] == Byte(b[0]);
      assert r.Got?;
      var k := |r.bytes|;
      ItemsPrefix(r.bytes, Flatten(s'.chunks), b, more);
      TakeFullDelivers(s', b[k..], more);
      assert b == b[..k] + b[k..];
    }
  }

  /** The items lazyResponseStream.Write adds to the server's output. */
  function LazyItems(sent: bool, p: seq<byte>): seq<Item> {
    if sent then (if p == [] then [ZeroChunk] else Items(p))
    else if p == [] then [Byte(RESPONSE_TUNNEL), ZeroChunk]
    else Items([RESPONSE_TUNNEL] + p)
  }

  function LazyRun(sent: bool, writes: seq<seq<byte>>): seq<Item>
    decreases |writes|
  {
    if writes == [] then [] else LazyItems(sent, writes[0]) + LazyRun(true, writes[1..])
  }

  function Concat(writes: seq<seq<byte>>): seq<byte> {
    if writes == [] then [] else writes[0] + Concat(writes[1..])
  }

  lemma {:induction false} SentRunIsConcat(writes: seq<seq<byte>>)
    requires [] !in writes
    ensures LazyRun(true, writes) == Items(Concat(writes))
  {
    if writes != [] {
      SentRunIsConcat(writes[1..]);
      ItemsAppend(writes[0], Concat(writes[1..]));
    }
  }

  /** Whatever the relay writes, the client's ReadReply takes the tunnel byte and leaves exactly the relayed bytes. */
  lemma LazyResponseDelivered(s: Stream, writes: seq<seq<byte>>, more: seq<Item>)
    requires writes != [] && [] !in writes
    requires Flatten(s.chunks) == LazyRun(false, writes) + more
    ensures var (r, reply, s') := TakeReply(false, s);
      r == Ready && reply && Flatten(s'.chunks) == Items(Concat(writes)) + more
  {
    hide TakeFull, Flatten, LazyRun, Concat, Items;
    LazyRunIsTunnel(writes);
    var rest := Items(Concat(writes)) + more;
    assert Items([RESPONSE_TUNNEL]) + Items(Concat(writes)) + more == Items([RESPONSE_TUNNEL]) + rest;
    TakeFullDelivers(s, [RESPONSE_TUNNEL], rest);
  }

  /** The server's plaintext is the tunnel byte and then the relayed bytes. */
  lemma LazyRunIsTunnel(writes: seq<seq<byte>>)
    requires writes != [] && [] !in writes
    ensures LazyRun(false, writes) == Items([RESPONSE_TUNNEL]) + Items(Concat(writes))
  {
    SentRunIsConcat(writes[1..]);
    ItemsAppend([RESPONSE_TUNNEL], writes[0]);
    ItemsAppend(writes[0], Concat(writes[1..]));
  }

  /** When a zero chunk comes before n bytes do, ReadFull reports it and has consumed it. */
  lemma {:induction false} TakeFullMeetsZero(s: Stream, b: seq<byte>, more: seq<Item>, n: nat)
    requires Flatten(s.chunks) == Items(b) + [ZeroChunk] + more && |b| < n
    ensures TakeFull(s, n).0 == HalfClosed && Flatten(TakeFull(s, n).1.chunks) == more
    decreases n, |s.chunks|
  {
    hide TakeRead, Flatten;
    TakeReadConserves(s, n);
    TakeReadWhole(s, n);
    var (r, s') := TakeRead(s, n);
    if r.Got? {
      SplitBeforeZero(r.bytes, Flatten(s'.chunks), b, more);
      TakeFullMeetsZero(s', b[|r.bytes|..], more, n - |r.bytes|);
    } else {
      assert (Items(b) + [ZeroChunk] + more)[0] == ZeroChunk;
      assert b == [];
      assert Items(b) + [ZeroChunk] + more == [ZeroChunk] + more;
      assert ([ZeroChunk] + more)[1..] == more && ([ZeroChunk] + Flatten(s'.chunks))[1..] == Flatten(s'.chunks);
    }
  }

  lemma TakeReadWhole(s: Stream, n: nat)
    requires n > 0 && Flatten(s.chunks) != []
    ensures !TakeRead(s, n).0.Failed?
    ensures var (r, s') := TakeRead(s, n);
      r.Got? ==> |r.bytes| <= n && (r.bytes == [] ==> |s'.chunks| < |s.chunks|)
  {
  }

  lemma SplitBeforeZero(x: seq<byte>, rest: seq<Item>, b: seq<byte>, more: seq<Item>)
    requires Items(x) + rest == Items(b) + [ZeroChunk] + more
    ensures |x| <= |b| && rest == Items(b[|x|..]) + [ZeroChunk] + more
  {
    var p := Items(b) + ([ZeroChunk] + more);
    assert p == Items(x) + rest && p[|b|] == ZeroChunk;
    ItemsPrefix(x, rest, b, [ZeroChunk] + more);
  }

  /** The error of io.ReadFull that got no more than b: a clean end becomes an unexpected one if there was anything. */
  function Starving(b: seq<byte>, end: ReadError): ReadError {
    if b != [] && end == EndOfStream then UnexpectedEnd else end
  }

  /** When neither comes, ReadFull fails. */
  lemma {:induction false} TakeFullFails(s: Stream, b: seq<byte>, n: nat)
    requires Flatten(s.chunks) == Items(b) && |b| < n
    ensures TakeFull(s, n).0 == Failed(Starving(b, s.end))
    decreases n, |s.chunks|
  {
    hide Items;
    TakeReadConserves(s, n);
    var (r, s') := TakeRead(s, n);
    NoZeroIn(b, Flatten(s'.chunks));
    if r.Got? {
      BytesLeft(r.bytes, Flatten(s'.chunks), b);
      TakeFullFails(s', b[|r.bytes|..], n - |r.bytes|);
    }
  }

  lemma NoZeroIn(b: seq<byte>, more: seq<Item>)
    ensures |Items(b)| == |b| && [ZeroChunk] + more != Items(b)
  {
    assert ([ZeroChunk] + more)[0] == ZeroChunk;
  }

  lemma BytesLeft(x: seq<byte>, rest: seq<Item>, b: seq<byte>)
    requires Items(x) + rest == Items(b)
    ensures |x| <= |b| && x == b[..|x|] && rest == Items(b[|x|..])
  {
    assert Items(b) == Items(b) + [];
    assert |x| <= |b|;
    ItemsPrefix(x, rest, b, []);
    assert Items(b[|x|..]) + [] == Items(b[|x|..]);
  }

  /** Leading bytes that hold a whole error reply. */
  predicate WholeError(b: seq<byte>) {
    |b| >= 3 && b[0] == RESPONSE_ERROR && |b| >= 3 + b[2] as int
  }

  /**
   * Exactly when a drain before reuse succeeds: the server's zero chunk is there to be met, and the response in front
   * of it, if still unread, is no complete error and no unknown code.
   */
  predicate Drainable(reply: bool, p: seq<Item>) {
    var L := LeadingBytes(p);
    && |L| < |p|
    && (reply || L == [] || L[0] == RESPONSE_TUNNEL || L[0] == RESPONSE_PONG || (L[0] == RESPONSE_ERROR && !WholeError(L)))
  }

  /** What is left behind the first zero chunk. */
  function AfterZeroChunk(p: seq<Item>): seq<Item> {
    var n := |LeadingBytes(p)|;
    if n < |p| then p[n + 1..] else []
  }

  /** The three ways n bytes can be asked of a stream, by its leading bytes. */
  lemma TakeFullOutcome(s: Stream, n: nat)
    ensures var p := Flatten(s.chunks);
      var L := LeadingBytes(p);
      var (r, s') := TakeFull(s, n);
      if n <= |L| then r == Got(L[..n]) && Flatten(s'.chunks) == p[n..] && LeadingBytes(p[n..]) == L[n..]
      else if |L| < |p| then r == HalfClosed && Flatten(s'.chunks) == p[|L| + 1..]
      else r == Failed(Starving(L, s.end))
  {
    hide TakeFull, LeadingBytes;
    var p := Flatten(s.chunks);
    var L := LeadingBytes(p);
    if n <= |L| {
      assert p == Items(L[..n]) + p[n..] by {
        assert Items(L[..n]) == Items(L)[..n];
      }
      TakeFullDelivers(s, L[..n], p[n..]);
      LeadingBytesOf(L[..n], p[n..]);
      assert LeadingBytes(p[n..]) == L[n..];
    } else if |L| < |p| {
      assert p == Items(L) + [ZeroChunk] + p[|L| + 1..];
      TakeFullMeetsZero(s, L, p[|L| + 1..], n);
    } else {
      TakeFullFails(s, L, n);
    }
  }

  /** What ReadReply makes of a stream, by its leading bytes alone. */
  lemma ReplyOutcome(s: Stream)
    ensures var p := Flatten(s.chunks);
      var L := LeadingBytes(p);
      var (r, reply, s') := TakeReply(false, s);
      if L != [] && (L[0] == RESPONSE_TUNNEL || L[0] == RESPONSE_PONG) then
        r == Ready && reply && Flatten(s'.chunks) == p[1..]
      else if L != [] && L[0] != RESPONSE_ERROR then r == UnknownResponse(L[0]) && reply && Flatten(s'.chunks) == p[1..]
      else if WholeError(L) then
        r == AppError(L[1], L[3..3 + L[2]]) && reply && Flatten(s'.chunks) == p[3 + L[2] as int..]
      else if |L| < |p| then r == NoReply(HalfClosed) && reply == (L != []) && Flatten(s'.chunks) == p[|L| + 1..]
      else r.NoReply? && r.cause.Failed?
  {
    hide TakeFull, LeadingBytes, TakeError, Flatten;
    TakeFullOutcome(s, 1);
    var L := LeadingBytes(Flatten(s.chunks));
    if L != [] && L[0] == RESPONSE_ERROR {
      ErrorOutcome(TakeFull(s, 1).1);
      var p := Flatten(s.chunks);
      assert |L| < |p| ==> p[1..][|L| - 1 + 1..] == p[|L| + 1..];
      if WholeError(L) {
        assert L[1..][2..2 + L[2]] == L[3..3 + L[2]] && p[1..][2 + L[2] as int..] == p[3 + L[2] as int..];
      }
    }
  }

  lemma ErrorOutcome(s: Stream)
    ensures var p := Flatten(s.chunks);
      var L := LeadingBytes(p);
      var (r, reply, s') := TakeError(s);
      if |L| >= 2 && |L| >= 2 + L[1] as int then
        r == AppError(L[0], L[2..2 + L[1]]) && reply && Flatten(s'.chunks) == p[2 + L[1] as int..]
      else if |L| < |p| then r == NoReply(HalfClosed) && reply && Flatten(s'.chunks) == p[|L| + 1..]
      else r.NoReply? && r.cause.Failed?
  {
    hide TakeFull, LeadingBytes, Flatten;
    TakeFullOutcome(s, 1);
    var p := Flatten(s.chunks);
    var L := LeadingBytes(p);
    if L != [] {
      var s2 := TakeFull(s, 1).1;
      TakeFullOutcome(s2, 1);
      assert |L| < |p| ==> p[1..][|L| - 1 + 1..] == p[|L| + 1..];
      if |L| >= 2 {
        var s3 := TakeFull(s2, 1).1;
        TakeFullOutcome(s3, L[1]);
        assert L[1..][1..] == L[2..] && p[1..][1..] == p[2..];
        assert |L| < |p| ==> p[2..][|L| - 2 + 1..] == p[|L| + 1..];
        assert 2 + L[1] <= |L| ==> L[2..][..L[1]] == L[2..2 + L[1]];
      }
    }
  }

  /** An error reply reaches the client with its code, its message cut to 250 bytes. */
  lemma ErrorReplyDelivered(s: Stream, code: byte, message: seq<byte>, more: seq<Item>)
    requires Flatten(s.chunks) == Items(EncodeError(code, message)) + more
    ensures var (r, reply, s') := TakeReply(false, s);
      && r == AppError(code, if |message| > MAX_ERROR_MESSAGE then message[..MAX_ERROR_MESSAGE] else message)
      && reply && Flatten(s'.chunks) == more
  {
    hide TakeReply, LeadingBytes;
    var e := EncodeError(code, message);
    LeadingBytesOf(e, more);
    ReplyOutcome(s);
    var L := LeadingBytes(Flatten(s.chunks));
    assert L[3..3 + L[2]] == e[3..];
    assert (Items(e) + more)[|e|..] == more;
  }
}
