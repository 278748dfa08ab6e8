/**
 * The TLS-shaped disguise: hello messages that carry the first chunk of each direction, application-data records
 * after them, and readers that find the payload by fixed skip counts.
 */
module TlsObfs {
  import opened Bytes

  const CHUNK_SIZE: nat := 16384
  const CLIENT_HELLO_SKIP: nat := 140
  const SERVER_HELLO_SKIP: nat := 105
  const RECORD_SKIP: nat := 3
  const EXTENSION_SKIP: nat := 7
  const EXTENSION_BUFFER: nat := 256
  const TRAILER: nat := 66
  const RECORD_HEAD: seq<byte> := [0x17, 0x03, 0x03]

  // ---- What is on the wire ----

  /** uint16(n). */
  function Cast16(n: nat): uint16 {
    n % 0x1_0000
  }

  function Record(chunk: seq<byte>): seq<byte> {
    RECORD_HEAD + BigEndian16(Cast16(|chunk|)) + chunk
  }

  function Records(chunks: seq<seq<byte>>): seq<byte> {
    if chunks == [] then [] else Record(chunks[0]) + Records(chunks[1..])
  }

  function Joined(chunks: seq<seq<byte>>): seq<byte> {
    if chunks == [] then [] else chunks[0] + Joined(chunks[1..])
  }

  predicate ChunkSized(chunks: seq<seq<byte>>) {
    forall c <- chunks :: 0 < |c| <= CHUNK_SIZE
  }

  /** A client hello around data: where the data, its length, the host name and the trailer lie. */
  predicate ClientHello(msg: seq<byte>, data: seq<byte>, name: seq<byte>) {
    var d := CLIENT_HELLO_SKIP + 2 + |data|;
    var e := d + EXTENSION_SKIP + 2 + |name|;
    && |msg| == e + TRAILER
    && msg[CLIENT_HELLO_SKIP..CLIENT_HELLO_SKIP + 2] == BigEndian16(Cast16(|data|))
    && msg[CLIENT_HELLO_SKIP + 2..d] == data
    && msg[d + EXTENSION_SKIP..d + EXTENSION_SKIP + 2] == BigEndian16(Cast16(|name|))
    && msg[d + EXTENSION_SKIP + 2..e] == name
  }

  /** The nested TLS lengths: each field counts exactly the bytes behind it. */
  predicate ClientHelloLengths(msg: seq<byte>, data: seq<byte>, name: seq<byte>) {
    var d := CLIENT_HELLO_SKIP + 2 + |data|;
    && |msg| == d + EXTENSION_SKIP + 2 + |name| + TRAILER
    && OuterLengths(msg)
    && NameLengths(msg[d..], name)
  }

  predicate OuterLengths(msg: seq<byte>)
    requires |msg| >= 138
  {
    && FromBigEndian16(msg[3..5]) == |msg| - 5
    && msg[6] == 0 && FromBigEndian16(msg[7..9]) == |msg| - 9
    && FromBigEndian16(msg[136..138]) == |msg| - 138
  }

  /** At the server name extension: its length, and that of the list in it. */
  predicate NameLengths(extension: seq<byte>, name: seq<byte>)
    requires |extension| >= 6
  {
    FromBigEndian16(extension[2..4]) == |name| + 5 && FromBigEndian16(extension[4..6]) == |name| + 3
  }

  predicate ServerHello(msg: seq<byte>, data: seq<byte>) {
    && |msg| == SERVER_HELLO_SKIP + 2 + |data|
    && msg[SERVER_HELLO_SKIP..SERVER_HELLO_SKIP + 2] == BigEndian16(Cast16(|data|))
    && msg[SERVER_HELLO_SKIP + 2..] == data
  }

  datatype Side = ToServer(name: seq<byte>) | ToClient

  /** wire is what a sender produces for these chunks: a hello around the first, records around the others. */
  ghost predicate Sent(side: Side, wire: seq<byte>, chunks: seq<seq<byte>>) {
    if chunks == [] then wire == []
    else exists hello: seq<byte> ::
      && wire == hello + Records(chunks[1..])
      && match side
         case ToServer(name) => ClientHello(hello, chunks[0], name)
         case ToClient => ServerHello(hello, chunks[0])
  }

  // ---- What a reader gets out of it ----

  datatype Stage = Hello | Extensions | InRecords

  /** remain: payload bytes of the current block not yet returned. */
  datatype Reader = Reader(remain: nat, stage: Stage)

  /** Bytes before the next block's length field, once extensions are out of the way. */
  function Skip(toServer: bool, stage: Stage): nat {
    if stage.Hello? then (if toServer then CLIENT_HELLO_SKIP else SERVER_HELLO_SKIP) else RECORD_SKIP
  }

  function After(toServer: bool, stage: Stage): Stage {
    if stage.Hello? && toServer then Extensions else InRecords
  }

  /** Length of the rest of the client hello, 0 while it is incomplete or its host name exceeds the skip buffer. */
  function ExtensionLength(wire: seq<byte>): (n: nat)
    ensures n <= |wire|
  {
    if |wire| < EXTENSION_SKIP + 2 then 0
    else
      var name := FromBigEndian16(wire[EXTENSION_SKIP..EXTENSION_SKIP + 2]);
      var n := EXTENSION_SKIP + 2 + name + TRAILER;
      if name > EXTENSION_BUFFER || |wire| < n then 0 else n
  }

  /** All the payload a reader in this state will return from wire. */
  function Tunnel(toServer: bool, r: Reader, wire: seq<byte>): seq<byte>
    decreases |wire|, r.remain, if r.stage.Extensions? then 1 else 0
  {
    if r.remain > 0 then
      if |wire| < r.remain then wire
      else wire[..r.remain] + Tunnel(toServer, r.(remain := 0), wire[r.remain..])
    else if r.stage.Extensions? then
      var n := ExtensionLength(wire);
      if n == 0 then [] else Tunnel(toServer, Reader(0, InRecords), wire[n..])
    else
      var k := Skip(toServer, r.stage);
      if |wire| < k + 2 then []
      else Tunnel(toServer, Reader(FromBigEndian16(wire[k..k + 2]), After(toServer, r.stage)), wire[k + 2..])
  }

  /** readBlock's possible successes: a whole block if it fits the buffer, else any first part of it. */
  predicate BlockStep(skip: nat, wire: seq<byte>, n: nat, out: seq<byte>, remain: nat, wire': seq<byte>) {
    && |wire| >= skip + 2
    && var length := FromBigEndian16(wire[skip..skip + 2]);
       && |out| <= n && skip + 2 + |out| <= |wire|
       && (if length > n then n > 0 ==> |out| > 0 else |out| == length)
       && out == wire[skip + 2..skip + 2 + |out|]
       && remain == length - |out|
       && wire' == wire[skip + 2 + |out|..]
  }

  /** The bytes readBlock cannot do without are there. */
  predicate CanBlock(skip: nat, wire: seq<byte>, n: nat) {
    && |wire| >= skip + 2
    && var length := FromBigEndian16(wire[skip..skip + 2]);
       if length > n then n == 0 || |wire| > skip + 2 else |wire| >= skip + 2 + length
  }

  /** Every way a Read with an n-byte buffer can succeed. */
  predicate ReadStep(toServer: bool, r: Reader, wire: seq<byte>, n: nat, out: seq<byte>, r': Reader, wire': seq<byte>) {
    if r.remain > 0 then
      && |out| == Min(r.remain, n) <= |wire|
      && out == wire[..|out|] && r' == r.(remain := r.remain - |out|) && wire' == wire[|out|..]
    else if r.stage.Extensions? then
      var k := ExtensionLength(wire);
      k > 0 && BlockStep(RECORD_SKIP, wire[k..], n, out, r'.remain, wire') && r'.stage.InRecords?
    else
      BlockStep(Skip(toServer, r.stage), wire, n, out, r'.remain, wire') && r'.stage == After(toServer, r.stage)
  }

  predicate CanRead(toServer: bool, r: Reader, wire: seq<byte>, n: nat) {
    if r.remain > 0 then |wire| >= Min(r.remain, n)
    else if r.stage.Extensions? then
      var k := ExtensionLength(wire);
      k > 0 && CanBlock(RECORD_SKIP, wire[k..], n)
    else CanBlock(Skip(toServer, r.stage), wire, n)
  }

  /** The host name a server-side reader is about to skip fits its buffer. */
  predicate NameFits(r: Reader, wire: seq<byte>) {
    r.remain == 0 && r.stage.Extensions? && |wire| >= EXTENSION_SKIP + 2 ==>
      FromBigEndian16(wire[EXTENSION_SKIP..EXTENSION_SKIP + 2]) <= EXTENSION_BUFFER
  }

  /** Whatever a server-side reader reads before it, the host name it is going to skip fits. */
  predicate NamesFit(r: Reader, wire: seq<byte>)
    decreases |wire|
  {
    match r.stage
    case InRecords => true
    case Extensions =>
      var k := r.remain + EXTENSION_SKIP;
      |wire| >= k + 2 ==> FromBigEndian16(wire[k..k + 2]) <= EXTENSION_BUFFER
    case Hello =>
      var k := CLIENT_HELLO_SKIP;
      && r.remain == 0
      && (|wire| >= k + 2 ==> NamesFit(Reader(FromBigEndian16(wire[k..k + 2]), Extensions), wire[k + 2..]))
  }

  lemma NamesFitNow(r: Reader, wire: seq<byte>)
    requires NamesFit(r, wire)
    ensures NameFits(r, wire)
  {
  }

  lemma NamesFitStep(r: Reader, wire: seq<byte>, n: nat, out: seq<byte>, r': Reader, wire': seq<byte>)
    requires NamesFit(r, wire) && ReadStep(true, r, wire, n, out, r', wire')
    ensures NamesFit(r', wire')
  {
    if r.remain > 0 && r.stage.Extensions? {
      NamesFitTake(r, wire, |out|);
    } else if r.stage.Hello? {
      var k := CLIENT_HELLO_SKIP;
      NamesFitTake(Reader(FromBigEndian16(wire[k..k + 2]), Extensions), wire[k + 2..], |out|);
      assert wire[k + 2..][|out|..] == wire';
    }
  }

  lemma NamesFitTake(r: Reader, wire: seq<byte>, m: nat)
    requires r.stage.Extensions? && NamesFit(r, wire) && m <= r.remain && m <= |wire|
    ensures NamesFit(r.(remain := r.remain - m), wire[m..])
  {
    var k := r.remain + EXTENSION_SKIP;
    if |wire| >= k + 2 {
      assert wire[m..][k - m..k - m + 2] == wire[k..k + 2];
    }
  }

  // One step of Tunnel and Whole, for proofs that hide them.

  lemma TunnelRemain(toServer: bool, r: Reader, wire: seq<byte>)
    requires r.remain > 0
    ensures Tunnel(toServer, r, wire)
      == if |wire| < r.remain then wire else wire[..r.remain] + Tunnel(toServer, r.(remain := 0), wire[r.remain..])
  {
  }

  lemma TunnelExtensions(toServer: bool, wire: seq<byte>)
    ensures var n := ExtensionLength(wire);
      Tunnel(toServer, Reader(0, Extensions), wire) == if n == 0 then [] else Tunnel(toServer, Reader(0, InRecords), wire[n..])
  {
  }

  lemma TunnelBlock(toServer: bool, stage: Stage, wire: seq<byte>)
    requires !stage.Extensions?
    ensures var k := Skip(toServer, stage);
      Tunnel(toServer, Reader(0, stage), wire)
      == if |wire| < k + 2 then []
         else Tunnel(toServer, Reader(FromBigEndian16(wire[k..k + 2]), After(toServer, stage)), wire[k + 2..])
  {
  }

  lemma WholeBlock(toServer: bool, stage: Stage, wire: seq<byte>)
    requires !stage.Extensions?
    ensures var k := Skip(toServer, stage);
      Whole(toServer, Reader(0, stage), wire)
      == (wire == [] ||
          (&& |wire| >= k + 2
           && FromBigEndian16(wire[k..k + 2]) > 0
           && Whole(toServer, Reader(FromBigEndian16(wire[k..k + 2]), After(toServer, stage)), wire[k + 2..])))
  {
  }

  /** Part of a block taken off the front. */
  lemma PayloadSplits(toServer: bool, r: Reader, wire: seq<byte>, m: nat)
    requires m <= r.remain && m <= |wire|
    ensures Tunnel(toServer, r, wire) == wire[..m] + Tunnel(toServer, r.(remain := r.remain - m), wire[m..])
  {
    if m == 0 {
      assert wire[0..] == wire;
    } else if |wire| >= r.remain {
      assert wire[..r.remain] == wire[..m] + wire[m..r.remain];
      assert wire[m..][..r.remain - m] == wire[m..r.remain] && wire[m..][r.remain - m..] == wire[r.remain..];
      if m == r.remain {
        assert wire[m..r.remain] == [];
      }
    } else {
      assert wire == wire[..m] + wire[m..];
    }
  }

  lemma BlockConserves(toServer: bool, stage: Stage, wire: seq<byte>, n: nat, out: seq<byte>, remain: nat, wire': seq<byte>)
    requires !stage.Extensions? && BlockStep(Skip(toServer, stage), wire, n, out, remain, wire')
    ensures Tunnel(toServer, Reader(0, stage), wire) == out + Tunnel(toServer, Reader(remain, After(toServer, stage)), wire')
  {
    hide Tunnel;
    TunnelBlock(toServer, stage, wire);
    var k := Skip(toServer, stage);
    var length := FromBigEndian16(wire[k..k + 2]);
    PayloadSplits(toServer, Reader(length, After(toServer, stage)), wire[k + 2..], |out|);
    assert wire[k + 2..][..|out|] == out && wire[k + 2..][|out|..] == wire';
  }

  /** A Read takes the front of the payload, whatever its buffer and however short the connection's reads. */
  lemma ReadStepConserves(toServer: bool, r: Reader, wire: seq<byte>, n: nat, out: seq<byte>, r': Reader, wire': seq<byte>)
    requires ReadStep(toServer, r, wire, n, out, r', wire')
    ensures Tunnel(toServer, r, wire) == out + Tunnel(toServer, r', wire')
  {
    hide BlockStep;
    if r.remain > 0 {
      PayloadSplits(toServer, r, wire, |out|);
    } else if r.stage.Extensions? {
      BlockConserves(toServer, InRecords, wire[ExtensionLength(wire)..], n, out, r'.remain, wire');
    } else {
      BlockConserves(toServer, r.stage, wire, n, out, r'.remain, wire');
    }
  }

  /** wire ends at a block boundary and every block on it holds something. */
  predicate Whole(toServer: bool, r: Reader, wire: seq<byte>)
    decreases |wire|, r.remain, if r.stage.Extensions? then 1 else 0
  {
    if r.remain > 0 then |wire| >= r.remain && Whole(toServer, r.(remain := 0), wire[r.remain..])
    else if r.stage.Extensions? then
      var n := ExtensionLength(wire);
      n > 0 && Whole(toServer, Reader(0, InRecords), wire[n..])
    else
      var k := Skip(toServer, r.stage);
      wire == [] ||
      (&& |wire| >= k + 2
       && FromBigEndian16(wire[k..k + 2]) > 0
       && Whole(toServer, Reader(FromBigEndian16(wire[k..k + 2]), After(toServer, r.stage)), wire[k + 2..]))
  }

  lemma WholeSplits(toServer: bool, r: Reader, wire: seq<byte>, m: nat)
    requires Whole(toServer, r, wire) && m <= r.remain
    ensures m <= |wire| && Whole(toServer, r.(remain := r.remain - m), wire[m..])
  {
    if m == 0 {
      assert wire[0..] == wire;
    } else {
      assert wire[m..][r.remain - m..] == wire[r.remain..];
      if m == r.remain {
        assert wire[m..] == wire[r.remain..];
      }
    }
  }

  /** On a whole wire a Read with a real buffer returns something, and succeeds as long as any payload is left. */
  lemma ReadStepProgress(toServer: bool, r: Reader, wire: seq<byte>, n: nat)
    requires Whole(toServer, r, wire) && n > 0
    ensures Tunnel(toServer, r, wire) != [] ==> CanRead(toServer, r, wire, n)
    ensures forall out, r', wire' :: ReadStep(toServer, r, wire, n, out, r', wire') ==>
      out != [] && Whole(toServer, r', wire')
  {
    forall out, r', wire' | ReadStep(toServer, r, wire, n, out, r', wire')
      ensures out != [] && Whole(toServer, r', wire')
    {
      if r.remain > 0 {
        WholeSplits(toServer, r, wire, |out|);
      } else if r.stage.Extensions? {
        BlockProgress(toServer, InRecords, wire[ExtensionLength(wire)..], n, out, r'.remain, wire');
      } else {
        BlockProgress(toServer, r.stage, wire, n, out, r'.remain, wire');
      }
    }
    if r.remain == 0 && r.stage.Extensions? {
      BlockPossible(toServer, InRecords, wire[ExtensionLength(wire)..], n);
    } else if r.remain == 0 {
      BlockPossible(toServer, r.stage, wire, n);
    }
  }

  lemma BlockPossible(toServer: bool, stage: Stage, wire: seq<byte>, n: nat)
    requires !stage.Extensions? && n > 0 && Whole(toServer, Reader(0, stage), wire)
    ensures wire != [] ==> CanBlock(Skip(toServer, stage), wire, n)
    ensures wire == [] ==> Tunnel(toServer, Reader(0, stage), wire) == []
  {
  }

  lemma BlockProgress(toServer: bool, stage: Stage, wire: seq<byte>, n: nat, out: seq<byte>, remain: nat, wire': seq<byte>)
    requires !stage.Extensions? && n > 0 && Whole(toServer, Reader(0, stage), wire)
    requires BlockStep(Skip(toServer, stage), wire, n, out, remain, wire')
    ensures out != [] && Whole(toServer, Reader(remain, After(toServer, stage)), wire')
  {
    hide Whole;
    WholeBlock(toServer, stage, wire);
    var k := Skip(toServer, stage);
    var length := FromBigEndian16(wire[k..k + 2]);
    WholeSplits(toServer, Reader(length, After(toServer, stage)), wire[k + 2..], |out|);
    assert wire[k + 2..][|out|..] == wire';
  }

  /** Reading on changes no byte already read: more of the wire only extends the payload. */
  lemma {:induction false} TunnelMonotone(toServer: bool, r: Reader, wire: seq<byte>, more: seq<byte>)
    ensures Tunnel(toServer, r, wire) <= Tunnel(toServer, r, wire + more)
    decreases |wire|, r.remain, if r.stage.Extensions? then 1 else 0
  {
    hide Tunnel;
    var all := wire + more;
    if r.remain > 0 {
      TunnelRemain(toServer, r, wire);
      TunnelRemain(toServer, r, all);
      if |wire| >= r.remain {
        DropAppend(wire, more, r.remain);
        TunnelMonotone(toServer, r.(remain := 0), wire[r.remain..], more);
        assert all[..r.remain] == wire[..r.remain];
      } else if |all| >= r.remain {
        assert all[..|wire|] == wire;
      }
    } else if r.stage.Extensions? {
      TunnelExtensions(toServer, wire);
      TunnelExtensions(toServer, all);
      var n := ExtensionLength(wire);
      if n > 0 {
        SliceFront(wire, more, EXTENSION_SKIP, EXTENSION_SKIP + 2);
        DropAppend(wire, more, n);
        TunnelMonotone(toServer, Reader(0, InRecords), wire[n..], more);
      }
    } else {
      TunnelBlock(toServer, r.stage, wire);
      TunnelBlock(toServer, r.stage, all);
      var k := Skip(toServer, r.stage);
      if |wire| >= k + 2 {
        SliceFront(wire, more, k, k + 2);
        DropAppend(wire, more, k + 2);
        TunnelMonotone(toServer, Reader(FromBigEndian16(wire[k..k + 2]), After(toServer, r.stage)), wire[k + 2..], more);
      }
    }
  }

  // ---- Sender against reader ----

  /** A length field, its payload, and what follows. */
  lemma HeadTunnel(toServer: bool, stage: Stage, wire: seq<byte>, c: seq<byte>, rest: seq<byte>)
    requires !stage.Extensions? && 0 < |c| <= CHUNK_SIZE
    requires var k := Skip(toServer, stage);
      |wire| >= k + 2 && wire[k..k + 2] == BigEndian16(|c|) && wire[k + 2..] == c + rest
    ensures Tunnel(toServer, Reader(0, stage), wire) == c + Tunnel(toServer, Reader(0, After(toServer, stage)), rest)
    ensures Whole(toServer, Reader(0, After(toServer, stage)), rest) ==> Whole(toServer, Reader(0, stage), wire)
  {
    hide Tunnel;
    TunnelBlock(toServer, stage, wire);
    TunnelRemain(toServer, Reader(|c|, After(toServer, stage)), c + rest);
    SplitAppend(c, rest);
  }

  lemma NothingLeft(toServer: bool)
    ensures Tunnel(toServer, Reader(0, InRecords), []) == [] && Whole(toServer, Reader(0, InRecords), [])
    ensures Tunnel(toServer, Reader(0, Hello), []) == [] && Whole(toServer, Reader(0, Hello), [])
  {
  }

  lemma RecordParts(c: seq<byte>, rest: seq<byte>)
    requires |c| <= CHUNK_SIZE
    ensures var wire := Record(c) + rest;
      |wire| >= 5 && wire[..3] == [0x17, 0x03, 0x03] && wire[3..5] == BigEndian16(|c|) && wire[5..] == c + rest
  {
    hide BigEndian16;
    var head := RECORD_HEAD + BigEndian16(|c|);
    assert Record(c) == head + c;
    assert (head + c) + rest == head + (c + rest);
    SplitAppend(head, c + rest);
    SliceFront(head, c + rest, 0, 3);
    SliceFront(head, c + rest, 3, 5);
  }

  lemma {:induction false} RecordsTunnel(toServer: bool, chunks: seq<seq<byte>>)
    requires ChunkSized(chunks)
    ensures Tunnel(toServer, Reader(0, InRecords), Records(chunks)) == Joined(chunks)
    ensures Whole(toServer, Reader(0, InRecords), Records(chunks))
  {
    hide Tunnel, Whole, Record;
    NothingLeft(toServer);
    if chunks != [] {
      var c, rest := chunks[0], Records(chunks[1..]);
      var wire := Record(c) + rest;
      RecordsTunnel(toServer, chunks[1..]);
      RecordParts(c, rest);
      HeadTunnel(toServer, InRecords, wire, c, rest);
    }
  }

  /** The rest of a client hello is skipped exactly. */
  lemma ExtensionsTunnel(wire: seq<byte>, name: seq<byte>, rest: seq<byte>)
    requires |name| <= EXTENSION_BUFFER
    requires var n := EXTENSION_SKIP + 2 + |name| + TRAILER;
      |wire| >= n && wire[n..] == rest && wire[EXTENSION_SKIP..EXTENSION_SKIP + 2] == BigEndian16(|name|)
    ensures Tunnel(true, Reader(0, Extensions), wire) == Tunnel(true, Reader(0, InRecords), rest)
    ensures Whole(true, Reader(0, Extensions), wire) == Whole(true, Reader(0, InRecords), rest)
  {
  }

  /** What the sender put on the wire is what the reader finds on it. */
  lemma SentTunnel(side: Side, wire: seq<byte>, chunks: seq<seq<byte>>)
    requires Sent(side, wire, chunks) && ChunkSized(chunks)
    requires side.ToServer? ==> |side.name| <= EXTENSION_BUFFER
    ensures Tunnel(side.ToServer?, Reader(0, Hello), wire) == Joined(chunks)
    ensures Whole(side.ToServer?, Reader(0, Hello), wire)
  {
    hide Tunnel, Whole, Records, ClientHello, ServerHello;
    NothingLeft(side.ToServer?);
    if chunks != [] {
      var c, records := chunks[0], Records(chunks[1..]);
      RecordsTunnel(side.ToServer?, chunks[1..]);
      match side
      case ToServer(name) =>
        var hello: seq<byte> :| wire == hello + records && ClientHello(hello, c, name);
        ClientHelloParts(hello, c, name, records);
        var rest := (hello + records)[CLIENT_HELLO_SKIP + 2 + |c|..];
        HeadTunnel(true, Hello, wire, c, rest);
        ExtensionsTunnel(rest, name, records);
      case ToClient =>
        var hello: seq<byte> :| wire == hello + records && ServerHello(hello, c);
        ServerHelloParts(hello, c, records);
        HeadTunnel(false, Hello, wire, c, records);
    }
  }

  lemma ClientHelloParts(hello: seq<byte>, c: seq<byte>, name: seq<byte>, records: seq<byte>)
    requires ClientHello(hello, c, name) && |c| <= CHUNK_SIZE && |name| <= EXTENSION_BUFFER
    ensures var wire := hello + records;
      var k := CLIENT_HELLO_SKIP;
      var n := EXTENSION_SKIP + 2 + |name| + TRAILER;
      && |wire| >= k + 2 + |c| + n
      && wire[k..k + 2] == BigEndian16(|c|)
      && wire[k + 2..] == c + wire[k + 2 + |c|..]
      && wire[k + 2 + |c|..][EXTENSION_SKIP..EXTENSION_SKIP + 2] == BigEndian16(|name|)
      && wire[k + 2 + |c|..][n..] == records
  {
    var wire := hello + records;
    var d := CLIENT_HELLO_SKIP + 2 + |c|;
    assert wire[CLIENT_HELLO_SKIP..CLIENT_HELLO_SKIP + 2] == hello[CLIENT_HELLO_SKIP..CLIENT_HELLO_SKIP + 2];
    assert wire[CLIENT_HELLO_SKIP + 2..d] == c;
    assert wire[d..][EXTENSION_SKIP..EXTENSION_SKIP + 2] == wire[d + EXTENSION_SKIP..d + EXTENSION_SKIP + 2];
    assert wire[d + EXTENSION_SKIP..d + EXTENSION_SKIP + 2] == hello[d + EXTENSION_SKIP..d + EXTENSION_SKIP + 2];
  }

  /** On any part of what a client with a short enough host name sent. */
  lemma SentNamesFit(wire: seq<byte>, chunks: seq<seq<byte>>, name: seq<byte>, cut: nat)
    requires Sent(ToServer(name), wire, chunks) && ChunkSized(chunks) && |name| <= EXTENSION_BUFFER && cut <= |wire|
    ensures NamesFit(Reader(0, Hello), wire[..cut])
  {
    hide Records, ClientHello, NamesFit;
    if chunks == [] {
      assert wire[..cut] == [];
      NoNames();
    } else {
      var c, records := chunks[0], Records(chunks[1..]);
      var hello: seq<byte> :| wire == hello + records && ClientHello(hello, c, name);
      ClientHelloParts(hello, c, name, records);
      HelloNamesFit(wire, c, name, cut);
    }
  }

  lemma NoNames()
    ensures NamesFit(Reader(0, Hello), [])
  {
  }

  lemma HelloNamesFit(wire: seq<byte>, c: seq<byte>, name: seq<byte>, cut: nat)
    requires |c| <= CHUNK_SIZE && |name| <= EXTENSION_BUFFER
    requires var d := CLIENT_HELLO_SKIP + 2 + |c|;
      && d + EXTENSION_SKIP + 2 <= |wire| && cut <= |wire|
      && wire[CLIENT_HELLO_SKIP..CLIENT_HELLO_SKIP + 2] == BigEndian16(|c|)
      && wire[d..][EXTENSION_SKIP..EXTENSION_SKIP + 2] == BigEndian16(|name|)
    ensures NamesFit(Reader(0, Hello), wire[..cut])
  {
    hide BigEndian16;
    var k, d, all := CLIENT_HELLO_SKIP, CLIENT_HELLO_SKIP + 2 + |c| + EXTENSION_SKIP, wire[..cut];
    if cut >= k + 2 {
      assert all[k..k + 2] == wire[k..k + 2];
      if cut >= d + 2 {
        assert all[k + 2..][|c| + EXTENSION_SKIP..|c| + EXTENSION_SKIP + 2] == all[d..d + 2] == wire[d..d + 2];
      }
    }
  }

  lemma ServerHelloParts(hello: seq<byte>, c: seq<byte>, records: seq<byte>)
    requires ServerHello(hello, c) && |c| <= CHUNK_SIZE
    ensures var wire := hello + records;
      && |wire| >= SERVER_HELLO_SKIP + 2
      && wire[SERVER_HELLO_SKIP..SERVER_HELLO_SKIP + 2] == BigEndian16(|c|)
      && wire[SERVER_HELLO_SKIP + 2..] == c + records
  {
    var wire := hello + records;
    assert wire[SERVER_HELLO_SKIP..SERVER_HELLO_SKIP + 2] == hello[SERVER_HELLO_SKIP..SERVER_HELLO_SKIP + 2];
  }

  /** One successful Read of a run: its buffer size, what it returned, and the state it left. */
  datatype ReadEvent = ReadEvent(n: nat, out: seq<byte>, r: Reader, rest: seq<byte>)

  predicate ReadTrace(toServer: bool, r: Reader, wire: seq<byte>, trace: seq<ReadEvent>)
    decreases |trace|
  {
    trace == [] ||
    (&& ReadStep(toServer, r, wire, trace[0].n, trace[0].out, trace[0].r, trace[0].rest)
     && ReadTrace(toServer, trace[0].r, trace[0].rest, trace[1..]))
  }

  function Returned(trace: seq<ReadEvent>): seq<byte> {
    if trace == [] then [] else trace[0].out + Returned(trace[1..])
  }

  /** The reader after a run, and what is left on the wire. */
  function Left(r: Reader, wire: seq<byte>, trace: seq<ReadEvent>): (Reader, seq<byte>) {
    if trace == [] then (r, wire) else (trace[|trace| - 1].r, trace[|trace| - 1].rest)
  }

  /** A run of Reads splits the payload into what it returned and what it left. */
  lemma {:induction false} TraceConserves(toServer: bool, r: Reader, wire: seq<byte>, trace: seq<ReadEvent>)
    requires ReadTrace(toServer, r, wire, trace)
    ensures var (r', wire') := Left(r, wire, trace);
      Returned(trace) + Tunnel(toServer, r', wire') == Tunnel(toServer, r, wire)
    decreases |trace|
  {
    hide Tunnel, ReadStep;
    if trace != [] {
      var t := trace[0];
      ReadStepConserves(toServer, r, wire, t.n, t.out, t.r, t.rest);
      TraceConserves(toServer, t.r, t.rest, trace[1..]);
    }
  }

  /** On a whole wire every Read with a real buffer returns something and leaves a whole wire. */
  lemma {:induction false} TraceProgress(toServer: bool, r: Reader, wire: seq<byte>, trace: seq<ReadEvent>)
    requires ReadTrace(toServer, r, wire, trace) && Whole(toServer, r, wire)
    requires forall i :: 0 <= i < |trace| ==> trace[i].n > 0
    ensures |Returned(trace)| >= |trace|
    ensures var (r', wire') := Left(r, wire, trace); Whole(toServer, r', wire')
    decreases |trace|
  {
    hide Tunnel, ReadStep, Whole;
    if trace != [] {
      var t := trace[0];
      ReadStepProgress(toServer, r, wire, t.n);
      TraceProgress(toServer, t.r, t.rest, trace[1..]);
    }
  }

  /** Reading went on, with real buffers, until a Read failed. */
  ghost predicate Exhausted(toServer: bool, r: Reader, wire: seq<byte>, trace: seq<ReadEvent>) {
    && (forall i :: 0 <= i < |trace| ==> trace[i].n > 0)
    && var (r', wire') := Left(r, wire, trace);
       exists n: nat :: n > 0 && !CanRead(toServer, r', wire', n)
  }

  /**
   * Round trip, both directions: for every run of writes, every host name the skip buffer holds, every cut of the wire,
   * all buffer sizes and short reads, the reads return a prefix of what was written; and on the complete wire reading
   * until a Read fails returns all of it, which takes no more reads than there are bytes.
   */
  lemma RoundTrip(side: Side, wire: seq<byte>, chunks: seq<seq<byte>>, cut: nat, trace: seq<ReadEvent>)
    requires Sent(side, wire, chunks) && ChunkSized(chunks) && cut <= |wire|
    requires side.ToServer? ==> |side.name| <= EXTENSION_BUFFER
    requires ReadTrace(side.ToServer?, Reader(0, Hello), wire[..cut], trace)
    ensures Returned(trace) <= Joined(chunks)
    ensures cut == |wire| && Exhausted(side.ToServer?, Reader(0, Hello), wire, trace) ==> Returned(trace) == Joined(chunks)
    ensures cut == |wire| && (forall i :: 0 <= i < |trace| ==> trace[i].n > 0) ==> |trace| <= |Joined(chunks)|
  {
    hide Tunnel, Sent, ReadTrace, Whole, Joined, Returned, CanRead;
    var toServer, r := side.ToServer?, Reader(0, Hello);
    SentTunnel(side, wire, chunks);
    TunnelMonotone(toServer, r, wire[..cut], wire[cut..]);
    assert wire[..cut] + wire[cut..] == wire;
    TraceConserves(toServer, r, wire[..cut], trace);
    if cut == |wire| && forall i :: 0 <= i < |trace| ==> trace[i].n > 0 {
      assert wire[..cut] == wire;
      TraceProgress(toServer, r, wire, trace);
      if Exhausted(toServer, r, wire, trace) {
        var (r', wire') := Left(r, wire, trace);
        var n: nat :| n > 0 && !CanRead(toServer, r', wire', n);
        ReadStepProgress(toServer, r', wire', n);
      }
    }
  }

  lemma {:induction false} JoinedAppend(a: seq<seq<byte>>, b: seq<seq<byte>>)
    ensures Joined(a + b) == Joined(a) + Joined(b)
  {
    if a == [] {
      assert a + b == b;
    } else {
      assert (a + b)[1..] == a[1..] + b;
      JoinedAppend(a[1..], b);
    }
  }
}
