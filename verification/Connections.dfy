/** The session layer's connection wrappers, client and server side, over one transport connection. */
module Connections {
  import opened Bytes
  import opened Streams
  import opened Frames
  import opened RecordSizing
  import opened FrameWriter
  import opened FrameReader
  import opened Requests
  import opened Sockets

  const BUFIO_SIZE: nat := 4096
  const DRAIN_SIZE: nat := 4096
  const RELAY_BUFFER_SIZE: nat := 32768

  /** io.ReadFull over the transport reader. */
  method ReadFullFrom(r: V4Reader, n: nat) returns (res: ReadResult)
    requires r.Valid()
    modifies r, r.nonce, r.source
    ensures r.Valid()
    ensures res == TakeFull(old(r.Incoming()), n).0
    ensures !res.Failed? ==> r.Incoming() == TakeFull(old(r.Incoming()), n).1
    decreases n, |r.Incoming().chunks|
  {
    hide V4Reader.Valid, V4Reader.Incoming, TakeRead;
    if n == 0 {
      return Got([]);
    }
    TakeReadEmpty(r.Incoming(), n);
    TakeReadBounded(r.Incoming(), n);
    res := r.Read(n);
    if !res.Got? {
      return;
    }
    var first := res.bytes;
    res := ReadFullFrom(r, n - |first|);
    match res
    case Got(more) => res := Got(first + more);
    case Failed(e) => res := if e == EndOfStream then Failed(if first == [] then EndOfStream else UnexpectedEnd) else res;
    case HalfClosed =>
  }

  /** The client's view: a transport connection and whether this session's response byte has been read. */
  class Snell {
    const r: V4Reader
    const w: V4Writer
    var reply: bool

    ghost predicate Valid()
      reads this, r, r.nonce, w, w.nonce, w.sink
    {
      && r.Valid() && w.Valid() && r.nonce != w.nonce
      && Lawful(w.aead) && PaddingRule(w.aead, w.frames, w.initialPaddingLength, w.jitter)
    }

    constructor (r: V4Reader, w: V4Writer, server: bool)
      requires r.Valid() && w.Valid() && r.nonce != w.nonce
      requires Lawful(w.aead) && PaddingRule(w.aead, w.frames, w.initialPaddingLength, w.jitter)
      ensures Valid() && this.r == r && this.w == w && reply == server
    {
      this.r, this.w, reply := r, w, server;
    }

    method ReadReply() returns (res: Reply)
      requires Valid()
      modifies this, r, r.nonce, r.source
      ensures Valid()
      ensures res == TakeReply(old(reply), old(r.Incoming())).0
      ensures reply == TakeReply(old(reply), old(r.Incoming())).1
      ensures !(res.NoReply? && res.cause.Failed?) ==> r.Incoming() == TakeReply(old(reply), old(r.Incoming())).2
    {
      hide TakeFull, V4Writer.Valid, PaddingRule, Lawful;
      if reply {
        return Ready;
      }
      var b := ReadFullFrom(r, 1);
      if !b.Got? {
        return NoReply(b);
      }
      reply := true;
      if b.bytes[0] == RESPONSE_TUNNEL || b.bytes[0] == RESPONSE_PONG {
        return Ready;
      }
      if b.bytes[0] != RESPONSE_ERROR {
        return UnknownResponse(b.bytes[0]);
      }
      var code := ReadFullFrom(r, 1);
      if !code.Got? {
        return NoReply(code);
      }
      var length := ReadFullFrom(r, 1);
      if !length.Got? {
        return NoReply(length);
      }
      var message := ReadFullFrom(r, length.bytes[0]);
      if !message.Got? {
        return NoReply(message);
      }
      return AppError(code.bytes[0], message.bytes);
    }

    /** Read: the response first, then relayed data. */
    method Read(n: nat) returns (first: Reply, res: ReadResult)
      requires Valid()
      modifies this, r, r.nonce, r.source
      ensures Valid()
      ensures var (f, fl, s) := TakeReply(old(reply), old(r.Incoming()));
        && first == f && reply == fl
        && (f.Ready? ==> res == TakeRead(s, n).0 && (!res.Failed? ==> r.Incoming() == TakeRead(s, n).1))
        && (!f.Ready? && !(f.NoReply? && f.cause.Failed?) ==> r.Incoming() == s)
    {
      hide TakeReply, TakeRead, V4Writer.Valid, PaddingRule, Lawful;
      first := ReadReply();
      res := Failed(EndOfStream);
      if first.Ready? {
        res := r.Read(n);
      }
    }

    /** Write through to the transport; an empty write is the zero chunk. */
    method Write(b: seq<byte>, clock: nat -> int)
      requires Valid()
      modifies w, w.nonce, w.sink
      ensures Valid()
      ensures SentItems(w) == old(SentItems(w)) + (if b == [] then [ZeroChunk] else Items(b))
      ensures 0 < |b| <= SMALLEST_LIMIT ==> Chunks(w.frames) == old(Chunks(w.frames)) + [Data(b)]
      ensures b == [] ==> Chunks(w.frames) == old(Chunks(w.frames)) + [Zero]
    {
      hide Pieces, WireImage, PaddingRule, V4Reader.Valid;
      ghost var was, ramp := Chunks(w.frames), w.ramp;
      w.Write(b, clock);
      WriteItems(was, b, ramp, w.initialPaddingLength, clock);
    }

    /** WriteHeader: refused, or exactly one frame holding the request. */
    method WriteHeader(host: seq<byte>, port: uint16, reuse: bool, clock: nat -> int) returns (ok: bool)
      requires Valid()
      modifies w, w.nonce, w.sink
      ensures Valid()
      ensures ok <==> |host| <= MAX_HOST
      ensures Chunks(w.frames) == old(Chunks(w.frames)) + (if ok then [Data(EncodeConnect(host, port, reuse).value)] else [])
    {
      hide Snell.Valid;
      var b := EncodeConnect(host, port, reuse);
      if b.None? {
        return false;
      }
      Write(b.value, clock);
      ok := true;
    }

    method WriteUdpHeader(clock: nat -> int)
      requires Valid()
      modifies w, w.nonce, w.sink
      ensures Valid()
      ensures Chunks(w.frames) == old(Chunks(w.frames)) + [Data(UDP_HEADER)]
    {
      hide Snell.Valid;
      Write(UDP_HEADER, clock);
    }
  }

  /** Everything a writer has sent, frame boundaries forgotten. */
  ghost function SentItems(w: V4Writer): seq<Item>
    reads w
  {
    Flatten(Chunks(w.frames))
  }

  lemma WriteItems(was: seq<Chunk>, b: seq<byte>, r: Ramp, initialPadding: uint16, clock: nat -> int)
    requires r.Valid() && InitialPadding(initialPadding)
    ensures Flatten(was + WriteChunks(b, r, initialPadding, clock).0)
      == Flatten(was) + (if b == [] then [ZeroChunk] else Items(b))
    ensures 0 < |b| <= SMALLEST_LIMIT ==> WriteChunks(b, r, initialPadding, clock).0 == [Data(b)]
  {
    hide Pieces;
    FlattenAppend(was, WriteChunks(b, r, initialPadding, clock).0);
    PiecesConserve(b, r, initialPadding, clock, 0);
    assert Flatten([Zero]) == [ZeroChunk] by {
      assert [Zero][1..] == [];
    }
    if 0 < |b| <= SMALLEST_LIMIT {
      ShortWriteIsOneFrame(b, r, initialPadding, clock, 0);
    }
  }

  /** bufio.Reader: bytes taken from the transport and not yet consumed. */
  datatype BrState = BrState(buf: seq<byte>, s: Stream) {
    function Pending(): seq<Item> {
      Items(buf) + Flatten(s.chunks)
    }
  }

  /** ReadByte: from the buffer, or from one refill. */
  function BrStep(st: BrState): (ReadResult, BrState)
    decreases |st.s.chunks|
  {
    if st.buf != [] then (Got(st.buf[..1]), st.(buf := st.buf[1..]))
    else match TakeRead(st.s, BUFIO_SIZE)
      case (Got(b), s') => if b == [] then BrStep(BrState([], s')) else (Got(b[..1]), BrState(b[1..], s'))
      case (r, s') => (r, BrState([], s'))
  }

  /** The reader after n ReadBytes. */
  function BrSkip(st: BrState, n: nat): BrState {
    if n == 0 then st else BrStep(BrSkip(st, n - 1)).1
  }

  /** Read with an n-byte buffer: buffered bytes, else one transport read. */
  function BrRead(st: BrState, n: nat): (ReadResult, BrState) {
    if st.buf != [] then (if n < |st.buf| then (Got(st.buf[..n]), st.(buf := st.buf[n..])) else (Got(st.buf), st.(buf := [])))
    else if n >= BUFIO_SIZE then var (r, s') := TakeRead(st.s, n); (r, BrState([], s'))
    else match TakeRead(st.s, BUFIO_SIZE)
      case (Got(b), s') => if n < |b| then (Got(b[..n]), BrState(b[n..], s')) else (Got(b), BrState([], s'))
      case (r, s') => (r, BrState([], s'))
  }

  lemma {:induction false} BrStepItems(st: BrState)
    ensures BrStepShape(st.Pending(), st.s.end, BrStep(st).0, BrStep(st).1)
    decreases |st.s.chunks|
  {
    hide TakeRead, Flatten;
    var p := st.Pending();
    if st.buf != [] {
      ItemsTail(st.buf, Flatten(st.s.chunks));
    } else {
      TakeReadConserves(st.s, BUFIO_SIZE);
      TakeReadFailed(st.s, BUFIO_SIZE);
      TakeReadEmpty(st.s, BUFIO_SIZE);
      var (r, s') := TakeRead(st.s, BUFIO_SIZE);
      assert p == ResultItems(r) + Flatten(s'.chunks);
      if r.Got? && r.bytes == [] {
        BrStepItems(BrState([], s'));
        assert p == BrState([], s').Pending();
      } else if r.Got? {
        ItemsTail(r.bytes, Flatten(s'.chunks));
      } else if r.HalfClosed? {
        assert BrState([], s').Pending() == p[1..];
      }
    }
  }

  /** What ReadByte does to the pending items p. */
  ghost predicate BrStepShape(p: seq<Item>, end: ReadError, r: ReadResult, st: BrState) {
    if p == [] then r == Failed(end)
    else match p[0]
      case Byte(b) => r == Got([b]) && st.Pending() == p[1..]
      case ZeroChunk => r == HalfClosed && st.Pending() == p[1..] && st.buf == []
  }

  lemma TakeReadFailed(s: Stream, n: nat)
    ensures TakeRead(s, n).0.Failed? <==> s.chunks == []
    ensures TakeRead(s, n).0.Failed? ==> TakeRead(s, n) == (Failed(s.end), s) && Flatten(s.chunks) == []
  {
  }

  /** Byte by byte, a bufio.Reader yields the leading bytes of what is pending and nothing else. */
  lemma {:induction false} BrSkipItems(st: BrState, n: nat)
    requires n <= |LeadingBytes(st.Pending())|
    ensures var L := LeadingBytes(st.Pending());
      && BrSkip(st, n).Pending() == st.Pending()[n..]
      && (n < |L| ==> BrStep(BrSkip(st, n)).0 == Got([L[n]]))
      && (n == |L| ==> !BrStep(BrSkip(st, n)).0.Got?)
  {
    hide BrStep, BrState.Pending;
    var p := st.Pending();
    if n > 0 {
      BrSkipItems(st, n - 1);
      BrStepItems(BrSkip(st, n - 1));
      LeadingAt(p, n - 1);
      assert p[n - 1..][1..] == p[n..];
    }
    BrStepItems(BrSkip(st, n));
    LeadingAt(p, n);
  }

  lemma BrSkipZero(st: BrState)
    ensures BrSkip(st, 0) == st
  {
  }

  /** Consuming exactly one small frame's bytes leaves the buffer empty and the transport at the next frame. */
  lemma {:induction false} BrSkipFrame(h: seq<byte>, s: Stream, n: nat)
    requires 0 < n <= |h| <= BUFIO_SIZE
    ensures BrSkip(BrState([], Prepend(Data(h), s)), n) == BrState(h[n..], s)
  {
    var st := BrState([], Prepend(Data(h), s));
    assert Prepend(Data(h), s).chunks[1..] == s.chunks;
    if n == 1 {
      assert BrSkip(st, 0) == st;
    } else {
      BrSkipFrame(h, s, n - 1);
      assert h[n - 1..][1..] == h[n..];
    }
  }

  class BufReader {
    const r: V4Reader
    var buf: seq<byte>

    ghost predicate Valid()
      reads this, r, r.nonce
    {
      r.Valid()
    }

    ghost function State(): BrState
      reads this, r, r.source
    {
      BrState(buf, r.Incoming())
    }

    constructor (r: V4Reader)
      requires r.Valid()
      ensures Valid() && this.r == r && buf == []
    {
      this.r, buf := r, [];
    }

    method ReadByte() returns (res: ReadResult)
      requires Valid()
      modifies this, r, r.nonce, r.source
      ensures Valid()
      ensures res == BrStep(old(State())).0
      ensures !res.Failed? ==> State() == BrStep(old(State())).1
      ensures res.Got? ==> |res.bytes| == 1
    {
      hide TakeRead;
      while buf == []
        invariant Valid()
        invariant BrStep(State()) == BrStep(old(State()))
        decreases if buf == [] then 1 + |r.Incoming().chunks| else 0
      {
        TakeReadEmpty(r.Incoming(), BUFIO_SIZE);
        res := r.Read(BUFIO_SIZE);
        if !res.Got? {
          return;
        }
        buf := res.bytes;
      }
      res := Got(buf[..1]);
      buf := buf[1..];
    }

    /** io.ReadFull through the buffer, for the short fields of a header: the next n leading bytes, or an error. */
    method ReadFull(n: nat, ghost st: BrState, ghost k: nat) returns (res: ReadResult)
      requires Valid() && State() == BrSkip(st, k) && k <= |LeadingBytes(st.Pending())|
      modifies this, r, r.nonce, r.source
      ensures Valid()
      ensures var L := LeadingBytes(st.Pending());
        if k + n <= |L| then res == Got(L[k..k + n]) && State() == BrSkip(st, k + n) else !res.Got?
    {
      hide BrStep, BufReader.Valid, LeadingBytes, BrState.Pending, V4Reader.Incoming;
      var b: seq<byte> := [];
      ghost var L := LeadingBytes(st.Pending());
      while |b| < n
        invariant Valid() && |b| <= n
        invariant k + |b| <= |L| && b == L[k..k + |b|]
        invariant State() == BrSkip(st, k + |b|)
      {
        BrSkipItems(st, k + |b|);
        res := ReadByte();
        if !res.Got? {
          return;
        }
        b := b + res.bytes;
      }
      res := Got(b);
    }

    /** Read, as the relay uses it. */
    method Read(n: nat) returns (res: ReadResult)
      requires Valid() && n > 0
      modifies this, r, r.nonce, r.source
      ensures Valid()
      ensures res == BrRead(old(State()), n).0
      ensures !res.Failed? ==> State() == BrRead(old(State()), n).1
    {
      hide TakeRead;
      if buf == [] {
        if n >= BUFIO_SIZE {
          res := r.Read(n);
          return;
        }
        res := r.Read(BUFIO_SIZE);
        if !res.Got? {
          return;
        }
        buf := res.bytes;
      }
      var m := if n < |buf| then n else |buf|;
      res := Got(buf[..m]);
      buf := buf[m..];
    }
  }

  lemma TakeReadBounded(s: Stream, n: nat)
    ensures TakeRead(s, n).0.Got? ==> |TakeRead(s, n).0.bytes| <= n
  {
  }

  lemma TakeReadEmpty(s: Stream, n: nat)
    requires n > 0
    ensures TakeRead(s, n).0 == Got([]) ==> |TakeRead(s, n).1.chunks| < |s.chunks|
  {
  }

  /** A relay read returns leading bytes, or meets the zero chunk with nothing left in the buffer. */
  lemma BrReadItems(st: BrState, n: nat)
    requires n > 0
    ensures var p := st.Pending();
      match BrRead(st, n)
      case (Got(b), st') => p == Items(b) + st'.Pending()
      case (HalfClosed, st') => p == [ZeroChunk] + st'.Pending() && st'.buf == []
      case (Failed(e), _) => p == [] && e == st.s.end
  {
    hide TakeRead, Flatten;
    if st.buf != [] {
      if n < |st.buf| {
        ItemsAppend(st.buf[..n], st.buf[n..]);
        assert st.buf == st.buf[..n] + st.buf[n..];
      }
    } else {
      var m := if n >= BUFIO_SIZE then n else BUFIO_SIZE;
      TakeReadConserves(st.s, m);
      TakeReadFailed(st.s, m);
      var (r, s') := TakeRead(st.s, m);
      assert st.Pending() == ResultItems(r) + Flatten(s'.chunks);
      if r.Got? && n < |r.bytes| {
        ItemsAppend(r.bytes[..n], r.bytes[n..]);
        assert r.bytes == r.bytes[..n] + r.bytes[n..];
      }
    }
  }

  /** The host and port of a CONNECT, at offset `off` of the request. */
  method ReadTarget(br: BufReader, reuse: bool, ghost st: BrState, off: nat) returns (res: Option<Request>)
    requires br.Valid() && br.State() == BrSkip(st, off) && 3 <= off <= |LeadingBytes(st.Pending())|
    modifies br, br.r, br.r.nonce, br.r.source
    ensures br.Valid()
    ensures var L := LeadingBytes(st.Pending());
      && res == (if |L| < off + 1 then None
                 else if L[off] == 0 then Some(Reject(EmptyHost))
                 else
                   var end := off + 1 + L[off] as int;
                   if |L| < end + 2 then None
                   else Some(Connect(L[off + 1..end], FromBigEndian16(L[end..end + 2]), reuse, end + 2)))
      && (res.Some? && res.value.Connect? ==> br.State() == BrSkip(st, res.value.used))
  {
    hide BrSkip, BrStep, BufReader.Valid;
    var hostLength := br.ReadFull(1, st, off);
    if !hostLength.Got? {
      return None;
    }
    if hostLength.bytes[0] == 0 {
      return Some(Reject(EmptyHost));
    }
    var host := br.ReadFull(hostLength.bytes[0], st, off + 1);
    if !host.Got? {
      return None;
    }
    var end: nat := off + 1 + hostLength.bytes[0] as int;
    var port := br.ReadFull(2, st, end);
    if !port.Got? {
      return None;
    }
    res := Some(Connect(host.bytes, FromBigEndian16(port.bytes), reuse, end + 2));
  }

  /** The header part of handleRequest: what the leading bytes say, and the reader stopped right behind them. */
  method ReadRequest(br: BufReader) returns (res: Option<Request>)
    requires br.Valid()
    modifies br, br.r, br.r.nonce, br.r.source
    ensures br.Valid()
    ensures var q := ParseRequest(LeadingBytes(old(br.State()).Pending()));
      && res == (if q.Short? then None else Some(q))
      && (q.Ping? || q.Connect? || q.Udp? ==> br.State() == BrSkip(old(br.State()), q.used))
  {
    hide BrSkip, BrStep, BufReader.Valid, LeadingBytes, BrState.Pending, V4Reader.Incoming;
    ghost var st := br.State();
    ghost var L := LeadingBytes(st.Pending());
    BrSkipZero(st);
    var version := br.ReadFull(1, st, 0);
    if !version.Got? {
      return None;
    }
    if version.bytes[0] != HEADER_VERSION {
      return Some(Reject(BadVersion));
    }
    var command := br.ReadFull(1, st, 1);
    if !command.Got? {
      return None;
    }
    if command.bytes[0] == COMMAND_PING {
      return Some(Ping(2));
    }
    var idLength := br.ReadFull(1, st, 2);
    if !idLength.Got? {
      return None;
    }
    var id := br.ReadFull(idLength.bytes[0], st, 3);
    if !id.Got? {
      return None;
    }
    var off: nat := 3 + idLength.bytes[0] as int;
    if command.bytes[0] == COMMAND_UDP {
      return Some(Udp(off));
    }
    if command.bytes[0] != COMMAND_CONNECT && command.bytes[0] != COMMAND_CONNECT_V2 {
      return Some(Reject(UnknownCommand));
    }
    res := ReadTarget(br, command.bytes[0] == COMMAND_CONNECT_V2, st, off);
  }

  /**
   * A CONNECT header travels as one frame; the server reads back its host, port and mode, with its buffer empty and
   * the transport at the next frame.
   */
  lemma ConnectHeaderFrame(host: seq<byte>, port: uint16, reuse: bool, s: Stream)
    requires 1 <= |host| <= MAX_HOST
    ensures var h := EncodeConnect(host, port, reuse).value;
      var st := BrState([], Prepend(Data(h), s));
      && ParseRequest(LeadingBytes(st.Pending())) == Connect(host, port, reuse, |h|)
      && BrSkip(st, |h|) == BrState([], s)
  {
    var h := EncodeConnect(host, port, reuse).value;
    ConnectRoundTrip(host, port, reuse, LeadingBytes(Flatten(s.chunks)));
    HeaderFramePosition(h, s);
  }

  /** The UDP header likewise, so the datagram frames behind it lose no byte to the buffer. */
  lemma UdpHeaderFrame(s: Stream)
    ensures var st := BrState([], Prepend(Data(UDP_HEADER), s));
      && ParseRequest(LeadingBytes(st.Pending())) == Udp(|UDP_HEADER|)
      && BrSkip(st, |UDP_HEADER|) == BrState([], s)
  {
    UdpRoundTrip(LeadingBytes(Flatten(s.chunks)));
    HeaderFramePosition(UDP_HEADER, s);
  }

  lemma HeaderFramePosition(h: seq<byte>, s: Stream)
    requires 0 < |h| <= BUFIO_SIZE
    ensures var st := BrState([], Prepend(Data(h), s));
      && LeadingBytes(st.Pending()) == h + LeadingBytes(Flatten(s.chunks))
      && BrSkip(st, |h|) == BrState([], s)
  {
    hide BrSkip;
    var st := BrState([], Prepend(Data(h), s));
    assert st.s.chunks[1..] == s.chunks;
    assert st.Pending() == Items(h) + Flatten(s.chunks);
    LeadingBytesOf(h, Flatten(s.chunks));
    BrSkipFrame(h, s, |h|);
    assert h[|h|..] == [];
  }

  /** serverReadConn: the client's half-close becomes end of file, and is remembered. */
  class ServerReadConn {
    const br: BufReader
    var zeroChunkSeen: bool

    constructor (br: BufReader)
      ensures this.br == br && !zeroChunkSeen
    {
      this.br, zeroChunkSeen := br, false;
    }

    method Read(n: nat) returns (res: ReadResult)
      requires br.Valid() && n > 0
      modifies this, br, br.r, br.r.nonce, br.r.source
      ensures br.Valid() && !res.HalfClosed?
      ensures var (r, st) := BrRead(old(br.State()), n);
        && res == (if r.HalfClosed? then Failed(EndOfStream) else r)
        && zeroChunkSeen == (old(zeroChunkSeen) || r.HalfClosed?)
        && (!r.Failed? ==> br.State() == st)
    {
      hide BrRead;
      res := br.Read(n);
      if res.HalfClosed? {
        zeroChunkSeen := true;
        res := Failed(EndOfStream);
      }
    }

    /** The reuse-mode drain of handleTCP: discard up to and including the client's zero chunk. */
    method Drain() returns (clean: bool)
      requires br.Valid() && !zeroChunkSeen
      modifies this, br, br.r, br.r.nonce, br.r.source
      ensures br.Valid()
      ensures var p := old(br.State()).Pending();
        var n := |LeadingBytes(p)|;
        && zeroChunkSeen == (n < |p|)
        && (zeroChunkSeen ==> clean && br.buf == [] && br.State().Pending() == AfterZeroChunk(p))
        && (!zeroChunkSeen ==> clean == old(br.State()).s.end.EndOfStream?)
    {
      hide BrRead, BufReader.Valid, LeadingBytes, BrState.Pending, V4Reader.Incoming, Items;
      ghost var st0 := br.State();
      ghost var done: seq<byte> := [];
      assert Items(done) + st0.Pending() == st0.Pending();
      while true
        invariant br.Valid() && !zeroChunkSeen
        invariant st0.Pending() == Items(done) + br.State().Pending()
        invariant br.State().s.end == st0.s.end
        decreases |br.State().Pending()|, |br.State().s.chunks|
      {
        ghost var st := br.State();
        DrainStep(st0.Pending(), done, st);
        var res := Read(RELAY_BUFFER_SIZE);
        if res.Failed? {
          return res.error == EndOfStream;
        }
        done := done + res.bytes;
      }
    }
  }

  /** One relay-sized read while draining p, of which the bytes `done` are already gone. */
  lemma DrainStep(p: seq<Item>, done: seq<byte>, st: BrState)
    requires p == Items(done) + st.Pending()
    ensures var (r, st') := BrRead(st, RELAY_BUFFER_SIZE);
      match r
      case Got(b) => p == Items(done + b) + st'.Pending() && st'.s.end == st.s.end
        && (|st'.Pending()| < |st.Pending()| || (|st'.Pending()| == |st.Pending()| && |st'.s.chunks| < |st.s.chunks|))
      case HalfClosed => |LeadingBytes(p)| < |p| && st'.buf == [] && st'.Pending() == p[|LeadingBytes(p)| + 1..]
      case Failed(e) => |LeadingBytes(p)| == |p| && e == st.s.end
  {
    hide BrRead, BrState.Pending;
    BrReadItems(st, RELAY_BUFFER_SIZE);
    BrReadProgress(st, RELAY_BUFFER_SIZE);
    var (r, st') := BrRead(st, RELAY_BUFFER_SIZE);
    match r
    case Got(b) => ItemsAppend(done, b);
    case HalfClosed => DrainEnds(p, done, st.Pending(), st'.Pending());
    case Failed(_) => DrainEnds(p, done, st.Pending(), []);
  }

  lemma DrainEnds(p: seq<Item>, done: seq<byte>, rest: seq<Item>, after: seq<Item>)
    requires p == Items(done) + rest
    ensures rest == [] ==> LeadingBytes(p) == done && |done| == |p|
    ensures rest == [ZeroChunk] + after ==> LeadingBytes(p) == done && |done| < |p| && after == p[|done| + 1..]
  {
    LeadingBytesOf(done, rest);
  }

  /** A read that returns data leaves less to read. */
  lemma BrReadProgress(st: BrState, n: nat)
    requires n > 0
    ensures var (r, st') := BrRead(st, n);
      r.Got? ==> (st'.s.end == st.s.end && (|r.bytes| > 0 || |st'.s.chunks| < |st.s.chunks|))
  {
    TakeReadConserves(st.s, if n >= BUFIO_SIZE then n else BUFIO_SIZE);
  }

  /** lazyResponseStream: the tunnel byte is held back until there is something to send with it. */
  class LazyResponseStream {
    const s: Snell
    var sent: bool

    constructor (s: Snell)
      ensures this.s == s && !sent
    {
      this.s, sent := s, false;
    }

    method Write(p: seq<byte>, clock: nat -> int) returns (n: nat)
      requires s.Valid()
      modifies this, s.w, s.w.nonce, s.w.sink
      ensures s.Valid() && sent && n == |p|
      ensures SentItems(s.w) == old(SentItems(s.w)) + LazyItems(old(sent), p)
    {
      hide Snell.Valid;
      n := |p|;
      if sent {
        s.Write(p, clock);
        return;
      }
      sent := true;
      if p == [] {
        s.Write([RESPONSE_TUNNEL], clock);
        s.Write([], clock);
        return;
      }
      s.Write([RESPONSE_TUNNEL] + p, clock);
    }
  }

  /** writeServerError: one frame. */
  method WriteServerError(s: Snell, code: byte, message: seq<byte>, clock: nat -> int)
    requires s.Valid()
    modifies s.w, s.w.nonce, s.w.sink
    ensures s.Valid()
    ensures Chunks(s.w.frames) == old(Chunks(s.w.frames)) + [Data(EncodeError(code, message))]
    ensures SentItems(s.w) == old(SentItems(s.w)) + Items(EncodeError(code, message))
  {
    hide Snell.Valid;
    s.Write(EncodeError(code, message), clock);
  }

  /** A checked-out connection on the client. */
  class PoolConn {
    const s: Snell
    const uses: nat
    var writeClosed: bool
    var closed: bool

    constructor (s: Snell, uses: nat)
      ensures this.s == s && this.uses == uses && !writeClosed && !closed
    {
      this.s, this.uses, writeClosed, closed := s, uses, false, false;
    }

    method CloseWrite(clock: nat -> int)
      requires s.Valid()
      modifies this`writeClosed, s.w, s.w.nonce, s.w.sink
      ensures s.Valid() && writeClosed
      ensures SentItems(s.w) == old(SentItems(s.w)) + (if old(writeClosed) then [] else [ZeroChunk])
    {
      hide Snell.Valid;
      if !writeClosed {
        writeClosed := true;
        s.Write([], clock);
      }
    }

    /** Read frames until the server's zero chunk; running out of input stands for the deadline. */
    method DrainPendingForReuse() returns (clean: bool)
      requires s.Valid()
      modifies s, s.r, s.r.nonce, s.r.source
      ensures s.Valid()
      ensures clean <==> Drainable(old(s.reply), old(Flatten(s.r.Incoming().chunks)))
      ensures clean ==> Flatten(s.r.Incoming().chunks) == AfterZeroChunk(old(Flatten(s.r.Incoming().chunks)))
    {
      hide TakeReply, TakeRead, Flatten, Snell.Valid, V4Reader.Incoming, Drainable, AfterZeroChunk, DrainState;
      ghost var reply0, p, done: seq<byte> := s.reply, Flatten(s.r.Incoming().chunks), [];
      DrainStarts(reply0, p);
      while true
        invariant s.Valid()
        invariant DrainState(reply0, p, done, s.reply, Flatten(s.r.Incoming().chunks))
        decreases |Flatten(s.r.Incoming().chunks)|, |s.r.Incoming().chunks|
      {
        ghost var before, reply := s.r.Incoming(), s.reply;
        ClientDrainStep(reply0, p, done, reply, before);
        var first, res := s.Read(DRAIN_SIZE);
        if first == NoReply(HalfClosed) || (first.Ready? && res.HalfClosed?) {
          return true;
        }
        if !first.Ready? || res.Failed? {
          return false;
        }
        done := (if reply then done else [LeadingBytes(Flatten(before.chunks))[0]]) + res.bytes;
      }
    }

    /** Close, once: zero chunk, drain, and then back to the pool or discarded. */
    method Close(clock: nat -> int) returns (pooled: bool)
      requires s.Valid()
      modifies this, s, s.r, s.r.nonce, s.r.source, s.w, s.w.nonce, s.w.sink
      ensures s.Valid() && closed
      ensures old(closed) ==> !pooled && SentItems(s.w) == old(SentItems(s.w))
      ensures !old(closed) ==>
        && SentItems(s.w) == old(SentItems(s.w)) + (if old(writeClosed) then [] else [ZeroChunk])
        && pooled == Drainable(old(s.reply), old(Flatten(s.r.Incoming().chunks)))
        && (pooled ==> !s.reply && Flatten(s.r.Incoming().chunks) == AfterZeroChunk(old(Flatten(s.r.Incoming().chunks))))
    {
      hide Flatten, V4Reader.Incoming, Drainable, AfterZeroChunk;
      if closed {
        return false;
      }
      closed := true;
      CloseWrite(clock);
      pooled := DrainPendingForReuse();
      if pooled {
        s.reply := false;
      }
    }
  }

  /** Where a drain of p stands: `done` is gone, `rest` is left. */
  ghost predicate DrainState(reply0: bool, p: seq<Item>, done: seq<byte>, reply: bool, rest: seq<Item>) {
    && p == Items(done) + rest
    && (reply0 ==> reply)
    && (!reply ==> done == [])
    && (reply && !reply0 ==> done != [] && (done[0] == RESPONSE_TUNNEL || done[0] == RESPONSE_PONG))
  }

  lemma DrainStarts(reply: bool, p: seq<Item>)
    ensures DrainState(reply, p, [], reply, p)
  {
    assert Items([]) + p == p;
  }

  /** One client drain read, from what is left of p. */
  lemma ClientDrainStep(reply0: bool, p: seq<Item>, done: seq<byte>, reply: bool, s: Stream)
    requires DrainState(reply0, p, done, reply, Flatten(s.chunks))
    ensures var (f, fl, s1) := TakeReply(reply, s);
      var (r, s2) := TakeRead(s1, DRAIN_SIZE);
      if f == NoReply(HalfClosed) then Drainable(reply0, p) && Flatten(s1.chunks) == AfterZeroChunk(p)
      else if !f.Ready? || r.Failed? then !Drainable(reply0, p)
      else if r.HalfClosed? then Drainable(reply0, p) && Flatten(s2.chunks) == AfterZeroChunk(p)
      else
        && (!reply ==> LeadingBytes(Flatten(s.chunks)) != [])
        && fl
        && DrainState(reply0, p, (if reply then done else [LeadingBytes(Flatten(s.chunks))[0]]) + r.bytes, fl, Flatten(s2.chunks))
        && (|Flatten(s2.chunks)| < |Flatten(s.chunks)|
            || (|Flatten(s2.chunks)| == |Flatten(s.chunks)| && |s2.chunks| < |s.chunks|))
  {
    hide TakeReply, TakeRead, Flatten, LeadingBytes, DrainState, Drainable, AfterZeroChunk;
    var (f, fl, s1) := TakeReply(reply, s);
    ClientReplyStep(reply0, p, done, reply, s);
    if f.Ready? {
      var done1 := if reply then done else [LeadingBytes(Flatten(s.chunks))[0]];
      ClientDataStep(reply0, p, done1, s1);
      var (r, s2) := TakeRead(s1, DRAIN_SIZE);
      if r.Got? {
        assert DrainState(reply0, p, done1 + r.bytes, fl, Flatten(s2.chunks));
      }
    }
  }

  /** The response part of a drain read. */
  lemma ClientReplyStep(reply0: bool, p: seq<Item>, done: seq<byte>, reply: bool, s: Stream)
    requires DrainState(reply0, p, done, reply, Flatten(s.chunks))
    ensures var (f, fl, s1) := TakeReply(reply, s);
      var L := LeadingBytes(Flatten(s.chunks));
      if f == NoReply(HalfClosed) then Drainable(reply0, p) && Flatten(s1.chunks) == AfterZeroChunk(p)
      else if !f.Ready? then !Drainable(reply0, p)
      else
        && fl
        && (!reply ==> L != [])
        && DrainState(reply0, p, if reply then done else [L[0]], true, Flatten(s1.chunks))
        && (if reply then s1 == s else |Flatten(s1.chunks)| < |Flatten(s.chunks)|)
  {
    hide TakeFull, Flatten, LeadingBytes;
    if !reply {
      var q := Flatten(s.chunks);
      assert p == q;
      ReplyOutcome(s);
      LeadingAt(q, 0);
      var L := LeadingBytes(q);
      if L != [] {
        LeadingTake(q, 1);
        assert L[..1] == [L[0]];
      }
    }
  }

  /** The data part: more bytes to discard, the zero chunk, or nothing more. */
  lemma ClientDataStep(reply0: bool, p: seq<Item>, done: seq<byte>, s: Stream)
    requires DrainState(reply0, p, done, true, Flatten(s.chunks))
    ensures var (r, s') := TakeRead(s, DRAIN_SIZE);
      match r
      case Got(b) =>
        && DrainState(reply0, p, done + b, true, Flatten(s'.chunks))
        && (|Flatten(s'.chunks)| < |Flatten(s.chunks)|
            || (|Flatten(s'.chunks)| == |Flatten(s.chunks)| && |s'.chunks| < |s.chunks|))
      case HalfClosed => Drainable(reply0, p) && Flatten(s'.chunks) == AfterZeroChunk(p)
      case Failed(_) => !Drainable(reply0, p)
  {
    hide TakeRead, Flatten, LeadingBytes;
    TakeReadConserves(s, DRAIN_SIZE);
    TakeReadFailed(s, DRAIN_SIZE);
    TakeReadEmpty(s, DRAIN_SIZE);
    var (r, s') := TakeRead(s, DRAIN_SIZE);
    match r
    case Got(b) => ItemsAppend(done, b);
    case HalfClosed =>
      DrainEnds(p, done, Flatten(s.chunks), Flatten(s'.chunks));
    case Failed(_) =>
      DrainEnds(p, done, Flatten(s.chunks), []);
  }
}
