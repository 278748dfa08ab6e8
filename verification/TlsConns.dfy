/** The two connection types of the TLS-shaped disguise. */
module TlsConns {
  import opened Bytes
  import opened Streams
  import opened Frames
  import opened Sockets
  import opened TlsObfs

  const TIME_SIZE: nat := 4
  const RANDOM_SIZE: nat := 28
  const SESSION_SIZE: nat := 32

  const CIPHER_SUITES: seq<byte> := [
    0xc0, 0x2c, 0xc0, 0x30, 0x00, 0x9f, 0xcc, 0xa9, 0xcc, 0xa8, 0xcc, 0xaa, 0xc0, 0x2b, 0xc0, 0x2f,
    0x00, 0x9e, 0xc0, 0x24, 0xc0, 0x28, 0x00, 0x6b, 0xc0, 0x23, 0xc0, 0x27, 0x00, 0x67, 0xc0, 0x0a,
    0xc0, 0x14, 0x00, 0x39, 0xc0, 0x09, 0xc0, 0x13, 0x00, 0x33, 0x00, 0x9d, 0x00, 0x9c, 0x00, 0x3d,
    0x00, 0x3c, 0x00, 0x35, 0x00, 0x2f, 0x00, 0xff]

  const POINT_FORMATS: seq<byte> := [0x00, 0x0b, 0x00, 0x04, 0x03, 0x01, 0x00, 0x02]
  const GROUPS: seq<byte> := [0x00, 0x0a, 0x00, 0x0a, 0x00, 0x08, 0x00, 0x1d, 0x00, 0x17, 0x00, 0x19, 0x00, 0x18]
  const SIGNATURES: seq<byte> := [
    0x00, 0x0d, 0x00, 0x20, 0x00, 0x1e, 0x06, 0x01, 0x06, 0x02, 0x06, 0x03, 0x05,
    0x01, 0x05, 0x02, 0x05, 0x03, 0x04, 0x01, 0x04, 0x02, 0x04, 0x03, 0x03, 0x01,
    0x03, 0x02, 0x03, 0x03, 0x02, 0x01, 0x02, 0x02, 0x02, 0x03]

  /** The random parts of a hello. */
  datatype Draws = Draws(time: seq<byte>, random: seq<byte>, sessionId: seq<byte>) {
    predicate Valid() {
      |time| == TIME_SIZE && |random| == RANDOM_SIZE && |sessionId| == SESSION_SIZE
    }
  }

  /** Where either hello carries its random parts, behind the record and handshake headers. */
  predicate Carries(msg: seq<byte>, w: Draws) {
    && |msg| >= 76
    && msg[9..11] == [0x03, 0x03] && msg[11..15] == w.time && msg[15..43] == w.random
    && msg[43] == 32 && msg[44..76] == w.sessionId
  }

  /** The fixed front of the client hello, up to and with the session ticket type. */
  method ClientHelloFront(total: nat, w: Draws) returns (buf: seq<byte>)
    requires w.Valid()
    ensures |buf| == CLIENT_HELLO_SKIP
    ensures buf[3..5] == BigEndian16(Cast16(212 + total))
    ensures buf[6] == 0 && buf[7..9] == BigEndian16(Cast16(208 + total))
    ensures buf[136..138] == BigEndian16(Cast16(79 + total))
    ensures buf[..3] == [22, 0x03, 0x01] && buf[5] == 1 && Carries(buf, w)
    ensures buf[138..140] == [0x00, 0x23]
  {
    var start := ClientStart(212 + total, 208 + total);
    var draws := w.time + w.random + [32] + w.sessionId;
    var suites := [0x00, 0x38] + CIPHER_SUITES + [0x01, 0x00];
    var end := BigEndian16(Cast16(79 + total)) + [0x00, 0x23];
    assert |suites| == 60;
    buf := start + draws + suites + end;
    HelloLayout(start, w, suites, end);
    assert buf[136..138] == buf[136..][..2] && buf[138..140] == buf[136..][2..];
  }

  /** Record header, handshake header and version. */
  method ClientStart(record: nat, handshake: nat) returns (start: seq<byte>)
    ensures |start| == 11 && start[..3] == [22, 0x03, 0x01] && start[3..5] == BigEndian16(Cast16(record))
    ensures start[5] == 1 && start[6] == 0 && start[7..9] == BigEndian16(Cast16(handshake)) && start[9..] == [0x03, 0x03]
  {
    start := [22, 0x03, 0x01] + BigEndian16(Cast16(record)) + [1, 0] + BigEndian16(Cast16(handshake)) + [0x03, 0x03];
  }

  /** The front of either hello, part by part. */
  lemma HelloLayout(start: seq<byte>, w: Draws, middle: seq<byte>, end: seq<byte>)
    requires w.Valid() && |start| == 11 && start[9..] == [0x03, 0x03]
    ensures var buf := start + (w.time + w.random + [32] + w.sessionId) + middle + end;
      && |buf| == 76 + |middle| + |end| && Carries(buf, w)
      && buf[..3] == start[..3] && buf[3..5] == start[3..5] && buf[5] == start[5] && buf[6] == start[6] && buf[7..9] == start[7..9]
      && buf[76 + |middle|..] == end
  {
    hide Carries;
    var draws := w.time + w.random + [32] + w.sessionId;
    var buf := start + draws + middle + end;
    assert |draws| == 65;
    assert buf == start + draws + (middle + end);
    CarriesDraws(start, w, middle + end);
    SplitAppend(start + draws + middle, end);
    assert buf == start + (draws + middle + end);
    SliceFront(start, draws + middle + end, 0, 3);
    SliceFront(start, draws + middle + end, 3, 5);
    SliceFront(start, draws + middle + end, 7, 9);
  }

  lemma CarriesDraws(start: seq<byte>, w: Draws, rest: seq<byte>)
    requires w.Valid() && |start| == 11 && start[9..] == [0x03, 0x03]
    ensures Carries(start + (w.time + w.random + [32] + w.sessionId) + rest, w)
  {
    var draws := w.time + w.random + [32] + w.sessionId;
    var msg := start + draws + rest;
    assert |draws| == 65;
    assert draws[..4] == w.time && draws[4..32] == w.random && draws[32] == 32 && draws[33..] == w.sessionId;
    assert msg[9..11] == start[9..] && msg[11..76] == draws;
    assert msg[11..15] == msg[11..76][..4] && msg[15..43] == msg[11..76][4..32];
    assert msg[43] == msg[11..76][32] && msg[44..76] == msg[11..76][33..];
  }

  /** The server name extension and the fixed extensions behind it. */
  method ClientHelloBack(name: seq<byte>) returns (buf: seq<byte>)
    ensures |buf| == EXTENSION_SKIP + 2 + |name| + TRAILER
    ensures buf[2..4] == BigEndian16(Cast16(|name| + 5)) && buf[4..6] == BigEndian16(Cast16(|name| + 3))
    ensures buf[EXTENSION_SKIP..EXTENSION_SKIP + 2] == BigEndian16(Cast16(|name|))
    ensures buf[EXTENSION_SKIP + 2..EXTENSION_SKIP + 2 + |name|] == name
    ensures buf[..2] == [0, 0] && buf[6] == 0
  {
    var head := [0x00, 0x00] + BigEndian16(Cast16(|name| + 5)) + BigEndian16(Cast16(|name| + 3)) + [0] + BigEndian16(Cast16(|name|));
    assert head[2..4] == BigEndian16(Cast16(|name| + 5)) && head[4..6] == BigEndian16(Cast16(|name| + 3));
    assert head[7..9] == BigEndian16(Cast16(|name|));
    var trailer := POINT_FORMATS + GROUPS + SIGNATURES + [0x00, 0x16, 0x00, 0x00] + [0x00, 0x17, 0x00, 0x00];
    assert |head| == 9 && |trailer| == TRAILER;
    buf := head + name + trailer;
    assert buf[..2] == head[..2] && buf[6] == head[6];
    assert buf[2..4] == head[2..4] && buf[4..6] == head[4..6] && buf[7..9] == head[7..9];
    assert buf[9..9 + |name|] == name;
  }

  /** makeClientHelloMsg: skips land on field boundaries, and while the message fits its 16-bit lengths they all agree. */
  method MakeClientHello(data: seq<byte>, name: seq<byte>, w: Draws) returns (msg: seq<byte>)
    requires w.Valid()
    ensures ClientHello(msg, data, name)
    ensures 212 + |data| + |name| < 0x1_0000 ==> ClientHelloLengths(msg, data, name)
    ensures |msg| >= 76 && msg[..3] == [22, 0x03, 0x01] && msg[5] == 1 && Carries(msg, w)
  {
    hide ClientHello, ClientHelloLengths, Carries;
    var front := ClientHelloFront(|data| + |name|, w);
    var back := ClientHelloBack(name);
    var ticket := BigEndian16(Cast16(|data|));
    msg := front + ticket + data + back;
    JoinHello(front, ticket, data, back, name);
    assert msg == front + (ticket + data + back);
    FrontCarries(front, ticket + data + back, w);
    if 212 + |data| + |name| < 0x1_0000 {
      JoinLengths(front, ticket, data, back, name);
    }
  }

  lemma FrontCarries(front: seq<byte>, behind: seq<byte>, w: Draws)
    requires Carries(front, w)
    ensures Carries(front + behind, w) && (front + behind)[..3] == front[..3] && (front + behind)[5] == front[5]
  {
    SliceFront(front, behind, 9, 11);
    SliceFront(front, behind, 11, 15);
    SliceFront(front, behind, 15, 43);
    SliceFront(front, behind, 44, 76);
    SliceFront(front, behind, 0, 3);
  }

  lemma JoinHello(front: seq<byte>, ticket: seq<byte>, data: seq<byte>, back: seq<byte>, name: seq<byte>)
    requires |front| == CLIENT_HELLO_SKIP && ticket == BigEndian16(Cast16(|data|))
    requires |back| == EXTENSION_SKIP + 2 + |name| + TRAILER
    requires back[EXTENSION_SKIP..EXTENSION_SKIP + 2] == BigEndian16(Cast16(|name|))
    requires back[EXTENSION_SKIP + 2..EXTENSION_SKIP + 2 + |name|] == name
    ensures ClientHello(front + ticket + data + back, data, name)
  {
    var msg := front + ticket + data + back;
    var d := CLIENT_HELLO_SKIP + 2 + |data|;
    assert msg[d..] == back;
    assert msg[d + EXTENSION_SKIP..d + EXTENSION_SKIP + 2] == msg[d..][EXTENSION_SKIP..EXTENSION_SKIP + 2];
    assert msg[d + EXTENSION_SKIP + 2..d + EXTENSION_SKIP + 2 + |name|] == msg[d..][EXTENSION_SKIP + 2..EXTENSION_SKIP + 2 + |name|];
    assert msg[CLIENT_HELLO_SKIP..CLIENT_HELLO_SKIP + 2] == ticket;
    assert msg[CLIENT_HELLO_SKIP + 2..d] == data;
  }

  lemma JoinLengths(front: seq<byte>, ticket: seq<byte>, data: seq<byte>, back: seq<byte>, name: seq<byte>)
    requires |front| == CLIENT_HELLO_SKIP && |ticket| == 2 && |back| == EXTENSION_SKIP + 2 + |name| + TRAILER
    requires 212 + |data| + |name| < 0x1_0000
    requires front[3..5] == BigEndian16(Cast16(212 + |data| + |name|))
    requires front[6] == 0 && front[7..9] == BigEndian16(Cast16(208 + |data| + |name|))
    requires front[136..138] == BigEndian16(Cast16(79 + |data| + |name|))
    requires back[2..4] == BigEndian16(Cast16(|name| + 5)) && back[4..6] == BigEndian16(Cast16(|name| + 3))
    ensures ClientHelloLengths(front + ticket + data + back, data, name)
  {
    hide OuterLengths, NameLengths, BigEndian16, Cast16;
    var behind := ticket + data + back;
    var msg := front + ticket + data + back;
    assert msg == front + behind;
    OuterFields(front, behind, |data| + |name|);
    NameFields(front + ticket + data, back, name);
  }

  lemma OuterFields(front: seq<byte>, behind: seq<byte>, total: nat)
    requires |front| == CLIENT_HELLO_SKIP && |behind| == 77 + total && 212 + total < 0x1_0000
    requires front[3..5] == BigEndian16(Cast16(212 + total))
    requires front[6] == 0 && front[7..9] == BigEndian16(Cast16(208 + total))
    requires front[136..138] == BigEndian16(Cast16(79 + total))
    ensures OuterLengths(front + behind)
  {
    SliceFront(front, behind, 3, 5);
    SliceFront(front, behind, 7, 9);
    SliceFront(front, behind, 136, 138);
  }

  lemma NameFields(front: seq<byte>, back: seq<byte>, name: seq<byte>)
    requires |name| + 5 < 0x1_0000 && |back| >= 6
    requires back[2..4] == BigEndian16(Cast16(|name| + 5)) && back[4..6] == BigEndian16(Cast16(|name| + 3))
    ensures (front + back)[|front|..] == back && NameLengths(back, name)
  {
    SplitAppend(front, back);
  }

  /** makeServerHello: 105 bytes, then the length, then the data. */
  method MakeServerHello(data: seq<byte>, w: Draws) returns (msg: seq<byte>)
    requires w.Valid()
    ensures ServerHello(msg, data)
    ensures msg[..3] == [0x16, 0x03, 0x01] && msg[5] == 2 && Carries(msg, w)
    ensures FromBigEndian16(msg[3..5]) == 91 && msg[5 + 91..5 + 91 + 6] == [0x14, 0x03, 0x03, 0x00, 0x01, 0x01]
  {
    hide Carries, BigEndian16;
    var front := ServerHelloFront(w);
    var behind := BigEndian16(Cast16(|data|)) + data;
    msg := front + BigEndian16(Cast16(|data|)) + data;
    assert msg == front + behind;
    FrontCarries(front, behind, w);
    SliceFront(front, behind, 3, 5);
    SliceFront(front, behind, 96, 102);
    SliceBack(front, behind, 0, 2);
    SplitAppend(front, behind);
    assert msg[107..] == msg[105..][2..];
  }

  /** The 105 fixed bytes: one record with the hello, the change-cipher-spec record, and the start of a third. */
  method ServerHelloFront(w: Draws) returns (front: seq<byte>)
    requires w.Valid()
    ensures |front| == SERVER_HELLO_SKIP && front[..3] == [0x16, 0x03, 0x01] && front[5] == 2 && Carries(front, w)
    ensures FromBigEndian16(front[3..5]) == 91 && front[96..102] == [0x14, 0x03, 0x03, 0x00, 0x01, 0x01]
  {
    var start := [0x16] + BigEndian16(0x0301) + BigEndian16(91) + [2, 0, 0, 87, 0x03, 0x03];
    assert start[3..5] == BigEndian16(91) && start[..3] == [0x16, 0x03, 0x01] && start[9..] == [0x03, 0x03];
    var draws := w.time + w.random + [32] + w.sessionId;
    var middle := [0xcc, 0xa8] + [0] + [0x00, 0x00]
      + [0xff, 0x01, 0x00, 0x01, 0x00] + [0x00, 0x17, 0x00, 0x00] + [0x00, 0x0b, 0x00, 0x02, 0x01, 0x00];
    var end := [0x14, 0x03, 0x03, 0x00, 0x01, 0x01] + [0x16, 0x03, 0x03];
    assert |middle| == 20 && |end| == 9;
    front := start + draws + middle + end;
    HelloLayout(start, w, middle, end);
    assert front[96..102] == front[96..][..6];
  }

  /** readBlock. */
  method ReadBlock(source: Source, n: nat, skip: nat) returns (res: Result<seq<byte>, ReadError>, remain: nat)
    modifies source
    ensures res.Ok? <==> CanBlock(skip, old(source.data), n)
    ensures res.Ok? ==> BlockStep(skip, old(source.data), n, res.value, remain, source.data)
  {
    remain := 0;
    ghost var wire := source.data;
    if skip > 0 {
      res := ReadFull(source, skip);
      if res.Err? {
        return;
      }
    }
    var size := ReadFull(source, 2);
    if size.Err? {
      return Err(size.error), 0;
    }
    assert size.value == wire[skip..skip + 2];
    var length := FromBigEndian16(size.value);
    assert source.data == wire[skip + 2..];
    if length > n {
      var out: seq<byte> := [];
      if n > 0 {
        var eof;
        out, eof := source.Read(n);
        if eof {
          return Err(EndOfStream), 0;
        }
      }
      assert wire[skip + 2..] == out + source.data;
      res, remain := Ok(out), length - |out|;
    } else {
      res := ReadFull(source, length);
      if res.Ok? {
        assert res.value == wire[skip + 2..][..length];
      }
    }
  }

  /** Draining a block larger than the caller's buffer. */
  method ReadRemain(source: Source, remain: nat, n: nat) returns (res: Result<seq<byte>, ReadError>)
    modifies source
    ensures var k := Min(remain, n);
      && (res.Ok? <==> |old(source.data)| >= k)
      && (res.Ok? ==> res.value == old(source.data)[..k] && source.data == old(source.data)[k..])
  {
    res := ReadFull(source, Min(remain, n));
  }

  /** Every 16 KiB of b a chunk of its own. */
  function Chunked(b: seq<byte>): (cs: seq<seq<byte>>)
    ensures ChunkSized(cs) && Joined(cs) == b
    ensures forall i :: 0 <= i < |cs| - 1 ==> |cs[i]| == CHUNK_SIZE
  {
    if b == [] then []
    else
      var end := Min(CHUNK_SIZE, |b|);
      var rest := Chunked(b[end..]);
      assert ([b[..end]] + rest)[1..] == rest;
      [b[..end]] + rest
  }

  class TlsObfsServer {
    const source: Source
    const sink: Sink
    var remain: nat
    var firstRequest: bool
    var sessionTicketDone: bool
    var firstResponse: bool
    ghost var chunks: seq<seq<byte>>

    function State(): Reader
      reads this
    {
      Reader(remain, if firstRequest then Hello else if !sessionTicketDone then Extensions else InRecords)
    }

    /** The hello comes before the extensions behind it. */
    ghost predicate Reading()
      reads this
    {
      firstRequest ==> !sessionTicketDone
    }

    ghost predicate Sending()
      reads this, sink
    {
      (firstResponse <==> chunks == []) && ChunkSized(chunks) && Sent(ToClient, sink.data, chunks)
    }

    constructor (source: Source, sink: Sink)
      requires sink.data == []
      ensures this.source == source && this.sink == sink
      ensures Reading() && State() == Reader(0, Hello) && Sending() && chunks == []
    {
      this.source, this.sink := source, sink;
      remain, firstRequest, sessionTicketDone, firstResponse, chunks := 0, true, false, true, [];
    }

    /** A success is one of the steps ReadStep allows; an error means the connection ran dry first. */
    method Read(n: nat) returns (res: Result<seq<byte>, ReadError>)
      requires Reading()
      modifies this`remain, this`firstRequest, this`sessionTicketDone, source
      ensures Reading()
      ensures old(NameFits(State(), source.data)) ==> (res.Ok? <==> CanRead(true, old(State()), old(source.data), n))
      ensures old(NameFits(State(), source.data)) && res.Ok? ==>
        ReadStep(true, old(State()), old(source.data), n, res.value, State(), source.data)
    {
      if remain > 0 {
        res := ReadRemain(source, remain, n);
        if res.Ok? {
          remain := remain - |res.value|;
        }
        return;
      }
      if firstRequest {
        firstRequest := false;
        res, remain := ReadBlock(source, n, CLIENT_HELLO_SKIP);
        return;
      }
      if !sessionTicketDone {
        sessionTicketDone := true;
        var skipped := SkipOtherExts();
        if skipped.Err? {
          return skipped;
        }
      }
      res, remain := ReadBlock(source, n, RECORD_SKIP);
    }

    /**
     * skipOtherExts: the host name through a 256-byte buffer, then the fixed trailer. A longer name is read short, by one
     * read of up to 256 bytes, and then the skip ends inside the hello, before the rest of it.
     */
    method SkipOtherExts() returns (res: Result<seq<byte>, ReadError>)
      modifies this`remain, source
      ensures old(NameFits(Reader(0, Extensions), source.data)) ==>
        && (res.Ok? <==> ExtensionLength(old(source.data)) > 0)
        && (res.Ok? ==> remain == 0 && source.data == old(source.data)[ExtensionLength(old(source.data))..])
      ensures !old(NameFits(Reader(0, Extensions), source.data)) && res.Ok? ==>
        var name := FromBigEndian16(old(source.data)[EXTENSION_SKIP..EXTENSION_SKIP + 2]);
        && 0 < name - EXTENSION_BUFFER <= remain < name
        && EXTENSION_SKIP + 2 + name - remain + TRAILER <= |old(source.data)|
        && source.data == old(source.data)[EXTENSION_SKIP + 2 + name - remain + TRAILER..]
    {
      ghost var wire := source.data;
      res, remain := ReadBlock(source, EXTENSION_BUFFER, EXTENSION_SKIP);
      if res.Ok? {
        ghost var k := EXTENSION_SKIP + 2 + |res.value|;
        assert source.data == wire[k..];
        res := ReadFull(source, TRAILER);
        assert res.Ok? ==> source.data == wire[k + TRAILER..];
      }
    }

    /** One chunk: inside a server hello the first time, a record after that. */
    method WriteChunk(b: seq<byte>, w: Draws)
      requires Sending() && 0 < |b| <= CHUNK_SIZE && w.Valid()
      modifies this`firstResponse, this`chunks, sink
      ensures Sending() && chunks == old(chunks) + [b]
    {
      hide ServerHello;
      ghost var before := sink.data;
      if firstResponse {
        var hello := MakeServerHello(b, w);
        WriteFull(sink, hello);
        firstResponse := false;
        FirstSent(ToClient, hello, b);
      } else {
        WriteFull(sink, RECORD_HEAD + BigEndian16(Cast16(|b|)));
        WriteFull(sink, b);
        assert sink.data == before + Record(b);
        NextSent(ToClient, before, chunks, b);
      }
      chunks := chunks + [b];
    }

    /** Write: b in chunks of 16 KiB. */
    method Write(b: seq<byte>, w: Draws)
      requires Sending() && w.Valid()
      modifies this`firstResponse, this`chunks, sink
      ensures Sending() && chunks == old(chunks) + Chunked(b)
    {
      hide Sent, Chunked, Joined, TlsObfsServer.Sending;
      var i := 0;
      assert b[0..] == b;
      while i < |b|
        invariant 0 <= i <= |b| && Sending()
        invariant chunks + Chunked(b[i..]) == old(chunks) + Chunked(b)
      {
        var end := Min(i + CHUNK_SIZE, |b|);
        ChunkOff(b, i);
        assert 0 < |b[i..end]| <= CHUNK_SIZE;
        WriteChunk(b[i..end], w);
        i := end;
      }
      assert b[i..] == [];
      ChunkNothing();
    }
  }

  lemma ChunkNothing()
    ensures Chunked([]) == []
  {
  }

  lemma ChunkOff(b: seq<byte>, i: nat)
    requires i < |b|
    ensures var end := Min(i + CHUNK_SIZE, |b|);
      Chunked(b[i..]) == [b[i..end]] + Chunked(b[end..])
  {
    var end := Min(i + CHUNK_SIZE, |b|);
    assert b[i..][..end - i] == b[i..end] && b[i..][end - i..] == b[end..];
  }

  lemma FirstSent(side: Side, hello: seq<byte>, b: seq<byte>)
    requires match side case ToServer(name) => ClientHello(hello, b, name) case ToClient => ServerHello(hello, b)
    ensures Sent(side, [] + hello, [] + [b])
  {
    hide ClientHello, ServerHello;
    var chunks := [] + [b];
    assert chunks[1..] == [] && chunks[0] == b;
    assert Records(chunks[1..]) == [];
    assert [] + hello == hello + Records(chunks[1..]);
  }

  lemma NextSent(side: Side, wire: seq<byte>, chunks: seq<seq<byte>>, b: seq<byte>)
    requires Sent(side, wire, chunks) && chunks != []
    ensures Sent(side, wire + Record(b), chunks + [b])
  {
    hide ClientHello, ServerHello, Record, Records;
    var records, all := Records(chunks[1..]), chunks + [b];
    RecordsAppend(chunks[1..], b);
    assert all[1..] == chunks[1..] + [b] && all[0] == chunks[0];
    match side
    case ToServer(name) =>
      var hello: seq<byte> :| wire == hello + records && ClientHello(hello, chunks[0], name);
      assert wire + Record(b) == hello + (records + Record(b));
      assert wire + Record(b) == hello + Records(all[1..]) && ClientHello(hello, all[0], name);
    case ToClient =>
      var hello: seq<byte> :| wire == hello + records && ServerHello(hello, chunks[0]);
      assert wire + Record(b) == hello + (records + Record(b));
      assert wire + Record(b) == hello + Records(all[1..]) && ServerHello(hello, all[0]);
  }

  lemma {:induction false} RecordsAppend(chunks: seq<seq<byte>>, b: seq<byte>)
    ensures Records(chunks + [b]) == Records(chunks) + Record(b)
  {
    hide Record;
    if chunks == [] {
      assert ([b])[1..] == [];
      assert chunks + [b] == [b];
    } else {
      RecordsAppend(chunks[1..], b);
      assert (chunks + [b])[1..] == chunks[1..] + [b];
    }
  }

  class TlsObfsClient {
    const source: Source
    const sink: Sink
    const server: seq<byte>
    var remain: nat
    var firstRequest: bool
    var firstResponse: bool
    ghost var chunks: seq<seq<byte>>

    function State(): Reader
      reads this
    {
      Reader(remain, if firstResponse then Hello else InRecords)
    }

    ghost predicate Sending()
      reads this, sink
    {
      (firstRequest <==> chunks == []) && ChunkSized(chunks) && Sent(ToServer(server), sink.data, chunks)
    }

    constructor (source: Source, sink: Sink, server: seq<byte>)
      requires sink.data == []
      ensures this.source == source && this.sink == sink && this.server == server
      ensures State() == Reader(0, Hello) && Sending() && chunks == []
    {
      this.source, this.sink, this.server := source, sink, server;
      remain, firstRequest, firstResponse, chunks := 0, true, true, [];
    }

    method Read(n: nat) returns (res: Result<seq<byte>, ReadError>)
      modifies this`remain, this`firstResponse, source
      ensures res.Ok? <==> CanRead(false, old(State()), old(source.data), n)
      ensures res.Ok? ==> ReadStep(false, old(State()), old(source.data), n, res.value, State(), source.data)
    {
      if remain > 0 {
        res := ReadRemain(source, remain, n);
        if res.Ok? {
          remain := remain - |res.value|;
        }
        return;
      }
      if firstResponse {
        firstResponse := false;
        res, remain := ReadBlock(source, n, SERVER_HELLO_SKIP);
        return;
      }
      res, remain := ReadBlock(source, n, RECORD_SKIP);
    }

    /** One chunk: inside a client hello the first time, a record after that. */
    method WriteChunk(b: seq<byte>, w: Draws)
      requires Sending() && 0 < |b| <= CHUNK_SIZE && w.Valid()
      modifies this`firstRequest, this`chunks, sink
      ensures Sending() && chunks == old(chunks) + [b]
    {
      hide ClientHello;
      ghost var before := sink.data;
      if firstRequest {
        var hello := MakeClientHello(b, server, w);
        WriteFull(sink, hello);
        firstRequest := false;
        FirstSent(ToServer(server), hello, b);
      } else {
        WriteFull(sink, RECORD_HEAD + BigEndian16(Cast16(|b|)));
        WriteFull(sink, b);
        assert sink.data == before + Record(b);
        NextSent(ToServer(server), before, chunks, b);
      }
      chunks := chunks + [b];
    }

    method Write(b: seq<byte>, w: Draws)
      requires Sending() && w.Valid()
      modifies this`firstRequest, this`chunks, sink
      ensures Sending() && chunks == old(chunks) + Chunked(b)
    {
      hide Sent, Chunked, Joined, TlsObfsClient.Sending;
      var i := 0;
      assert b[0..] == b;
      while i < |b|
        invariant 0 <= i <= |b| && Sending()
        invariant chunks + Chunked(b[i..]) == old(chunks) + Chunked(b)
      {
        var end := Min(i + CHUNK_SIZE, |b|);
        ChunkOff(b, i);
        assert 0 < |b[i..end]| <= CHUNK_SIZE;
        WriteChunk(b[i..end], w);
        i := end;
      }
      assert b[i..] == [];
      ChunkNothing();
    }
  }

  // ---- Runs ----

  /** Any run of writes of b in non-empty parts. */
  method SendToServer(c: TlsObfsClient, b: seq<byte>, w: Draws)
    requires c.Sending() && w.Valid()
    modifies c`firstRequest, c`chunks, c.sink
    ensures c.Sending() && Joined(c.chunks) == old(Joined(c.chunks)) + b
  {
    hide TlsObfsClient.Sending, Joined, Chunked;
    var rest := b;
    while rest != []
      invariant c.Sending() && Joined(c.chunks) + rest == old(Joined(c.chunks)) + b
      decreases |rest|
    {
      var n :| 0 < n <= |rest|;
      assert rest == rest[..n] + rest[n..];
      JoinedAppend(c.chunks, Chunked(rest[..n]));
      c.Write(rest[..n], w);
      rest := rest[n..];
    }
  }

  method SendToClient(c: TlsObfsServer, b: seq<byte>, w: Draws)
    requires c.Sending() && w.Valid()
    modifies c`firstResponse, c`chunks, c.sink
    ensures c.Sending() && Joined(c.chunks) == old(Joined(c.chunks)) + b
  {
    hide TlsObfsServer.Sending, Joined, Chunked;
    var rest := b;
    while rest != []
      invariant c.Sending() && Joined(c.chunks) + rest == old(Joined(c.chunks)) + b
      decreases |rest|
    {
      var n :| 0 < n <= |rest|;
      assert rest == rest[..n] + rest[n..];
      JoinedAppend(c.chunks, Chunked(rest[..n]));
      c.Write(rest[..n], w);
      rest := rest[n..];
    }
  }

  /** Reads with the given buffer sizes, up to the first that fails. */
  method ReadOnClient(c: TlsObfsClient, sizes: seq<nat>) returns (out: seq<byte>, ghost trace: seq<ReadEvent>)
    modifies c`remain, c`firstResponse, c.source
    ensures ReadTrace(false, old(c.State()), old(c.source.data), trace) && out == Returned(trace)
    ensures (forall i :: 0 <= i < |sizes| ==> sizes[i] > 0) ==>
      (forall i :: 0 <= i < |trace| ==> trace[i].n > 0)
      && (|trace| == |sizes| || Exhausted(false, old(c.State()), old(c.source.data), trace))
  {
    hide ReadTrace, Returned, ReadStep, CanRead;
    out, trace := [], [];
    EmptyTrace(false, c.State(), c.source.data);
    for i := 0 to |sizes|
      invariant |trace| == i && ReadTrace(false, old(c.State()), old(c.source.data), trace) && out == Returned(trace)
      invariant Left(old(c.State()), old(c.source.data), trace) == (c.State(), c.source.data)
      invariant forall j :: 0 <= j < i ==> trace[j].n == sizes[j]
    {
      ghost var r, wire := c.State(), c.source.data;
      var res := c.Read(sizes[i]);
      if res.Err? {
        assert !CanRead(false, r, wire, sizes[i]);
        return;
      }
      ghost var t := ReadEvent(sizes[i], res.value, c.State(), c.source.data);
      TraceAppend(false, old(c.State()), old(c.source.data), trace, t);
      out, trace := out + res.value, trace + [t];
    }
  }

  lemma EmptyTrace(toServer: bool, r: Reader, wire: seq<byte>)
    ensures ReadTrace(toServer, r, wire, []) && Returned([]) == []
  {
  }

  lemma {:induction false} TraceAppend(toServer: bool, r: Reader, wire: seq<byte>, trace: seq<ReadEvent>, t: ReadEvent)
    requires ReadTrace(toServer, r, wire, trace)
    requires var (r', wire') := Left(r, wire, trace); ReadStep(toServer, r', wire', t.n, t.out, t.r, t.rest)
    ensures ReadTrace(toServer, r, wire, trace + [t])
    ensures Returned(trace + [t]) == Returned(trace) + t.out
    decreases |trace|
  {
    hide ReadStep;
    if trace == [] {
      assert trace + [t] == [t] && [t][1..] == [];
      EmptyTrace(toServer, t.r, t.rest);
    } else {
      assert (trace + [t])[1..] == trace[1..] + [t];
      TraceAppend(toServer, trace[0].r, trace[0].rest, trace[1..], t);
    }
  }

  method ReadOnServer(c: TlsObfsServer, sizes: seq<nat>) returns (out: seq<byte>, ghost trace: seq<ReadEvent>)
    requires c.Reading() && NamesFit(c.State(), c.source.data)
    modifies c`remain, c`firstRequest, c`sessionTicketDone, c.source
    ensures ReadTrace(true, old(c.State()), old(c.source.data), trace) && out == Returned(trace)
    ensures (forall i :: 0 <= i < |sizes| ==> sizes[i] > 0) ==>
      (forall i :: 0 <= i < |trace| ==> trace[i].n > 0)
      && (|trace| == |sizes| || Exhausted(true, old(c.State()), old(c.source.data), trace))
  {
    hide ReadTrace, Returned, ReadStep, CanRead, NamesFit, NameFits;
    out, trace := [], [];
    EmptyTrace(true, c.State(), c.source.data);
    for i := 0 to |sizes|
      invariant |trace| == i && ReadTrace(true, old(c.State()), old(c.source.data), trace) && out == Returned(trace)
      invariant Left(old(c.State()), old(c.source.data), trace) == (c.State(), c.source.data)
      invariant forall j :: 0 <= j < i ==> trace[j].n == sizes[j]
      invariant c.Reading() && NamesFit(c.State(), c.source.data)
    {
      ghost var r, wire := c.State(), c.source.data;
      NamesFitNow(r, wire);
      var res := c.Read(sizes[i]);
      if res.Err? {
        assert !CanRead(true, r, wire, sizes[i]);
        return;
      }
      ghost var t := ReadEvent(sizes[i], res.value, c.State(), c.source.data);
      NamesFitStep(r, wire, t.n, t.out, t.r, t.rest);
      TraceAppend(true, old(c.State()), old(c.source.data), trace, t);
      out, trace := out + res.value, trace + [t];
    }
  }
}
