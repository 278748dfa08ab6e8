/** The AEAD frame format: how a frame is sealed and what a reader makes of an arbitrary byte stream. */
module Frames {
  import opened Bytes
  import opened Nonces
  import opened Streams

  const MAX_PAYLOAD_LENGTH: uint16 := 0x3FFF
  const SALT_SIZE: nat := 16
  const OVERHEAD: nat := 16
  const HEADER_PLAIN_SIZE: nat := 7
  const HEADER_CIPHER_SIZE: nat := HEADER_PLAIN_SIZE + OVERHEAD
  const FRAME_TYPE: byte := 4

  /** AES-GCM under one key, as the two functions of a nonce the transport uses. */
  datatype Aead = Aead(seal: (seq<byte>, seq<byte>) -> seq<byte>, open: (seq<byte>, seq<byte>) -> Option<seq<byte>>)

  /** The pre-shared key fixed: a salt determines the AEAD. */
  type KeySchedule = seq<byte> -> Aead

  ghost predicate Lawful(a: Aead) {
    forall n, p :: |a.seal(n, p)| == |p| + OVERHEAD && a.open(n, a.seal(n, p)) == Some(p)
  }

  ghost predicate LawfulKeys(keys: KeySchedule) {
    forall salt :: Lawful(keys(salt))
  }

  datatype Frame = Frame(payload: seq<byte>, padding: seq<byte>) {
    predicate Valid() {
      && |payload| <= MAX_PAYLOAD_LENGTH
      && |padding| <= MAX_PAYLOAD_LENGTH
      && (payload == [] ==> padding == [])
    }

    /** How many AEAD calls, hence nonces, the frame takes. */
    function Seals(): nat {
      if payload == [] then 1 else 2
    }

    function Chunk(): Chunk {
      if payload == [] then Zero else Data(payload)
    }
  }

  predicate ValidFrames(fs: seq<Frame>) {
    forall f <- fs :: f.Valid()
  }

  /** The first argument with its even-indexed bytes taken from the second where both have them. */
  function Swapped(a: seq<byte>, b: seq<byte>): (r: seq<byte>)
    ensures |r| == |a|
  {
    seq(|a|, i requires 0 <= i < |a| => if i % 2 == 0 && i < |b| then b[i] else a[i])
  }

  /** The receiver undoes the interleave by performing it again. */
  lemma SwapInvolutive(a: seq<byte>, b: seq<byte>)
    ensures Swapped(Swapped(a, b), Swapped(b, a)) == a
  {
  }

  function HeaderPlain(paddingLength: uint16, payloadLength: uint16): (h: seq<byte>)
    ensures |h| == HEADER_PLAIN_SIZE
  {
    [FRAME_TYPE, 0, 0] + BigEndian16(paddingLength) + BigEndian16(payloadLength)
  }

  lemma HeaderFields(paddingLength: uint16, payloadLength: uint16)
    ensures var h := HeaderPlain(paddingLength, payloadLength);
      && h[0] == FRAME_TYPE
      && FromBigEndian16(h[3..5]) == paddingLength
      && FromBigEndian16(h[5..7]) == payloadLength
  {
    var h := HeaderPlain(paddingLength, payloadLength);
    assert h[3..5] == BigEndian16(paddingLength);
    assert h[5..7] == BigEndian16(payloadLength);
  }

  /** Padding and payload ciphertext as they travel. */
  function Body(a: Aead, k: nat, f: Frame): seq<byte> {
    var c := a.seal(Nonce(k + 1), f.payload);
    Swapped(f.padding, c) + Swapped(c, f.padding)
  }

  /** The bytes of frame f when k AEAD calls came before it. */
  function Encode(a: Aead, k: nat, f: Frame): seq<byte>
    requires f.Valid()
  {
    a.seal(Nonce(k), HeaderPlain(|f.padding|, |f.payload|)) + (if f.payload == [] then [] else Body(a, k, f))
  }

  function Wire(a: Aead, k: nat, fs: seq<Frame>): seq<byte>
    requires ValidFrames(fs)
    decreases |fs|
  {
    if fs == [] then [] else Encode(a, k, fs[0]) + Wire(a, k + fs[0].Seals(), fs[1..])
  }

  function SealCount(fs: seq<Frame>): nat {
    if fs == [] then 0 else fs[0].Seals() + SealCount(fs[1..])
  }

  function Chunks(fs: seq<Frame>): (cs: seq<Chunk>)
    ensures |cs| == |fs|
    ensures NoEmptyData(cs)
  {
    seq(|fs|, i requires 0 <= i < |fs| => fs[i].Chunk())
  }

  lemma {:induction false} WireAppend(a: Aead, k: nat, fs: seq<Frame>, f: Frame)
    requires ValidFrames(fs) && f.Valid()
    ensures ValidFrames(fs + [f])
    ensures Wire(a, k, fs + [f]) == Wire(a, k, fs) + Encode(a, k + SealCount(fs), f)
    ensures SealCount(fs + [f]) == SealCount(fs) + f.Seals()
    decreases |fs|
  {
    hide Encode;
    if fs == [] {
      assert (fs + [f])[1..] == [];
    } else {
      WireAppend(a, k + fs[0].Seals(), fs[1..], f);
      assert (fs + [f])[1..] == fs[1..] + [f];
    }
  }

  datatype FrameResult =
    | Payload(payload: seq<byte>, rest: seq<byte>, next: nat)
    | Empty(rest: seq<byte>, next: nat)
    | Bad(error: ReadError)

  /** io.ReadFull on a stream with fewer bytes than asked for. */
  function Starved(available: nat): ReadError {
    if available == 0 then EndOfStream else UnexpectedEnd
  }

  /** One frame read from the front of `wire` by a reader that has made k AEAD calls. */
  function ReadFrame(a: Aead, k: nat, wire: seq<byte>): (r: FrameResult)
    ensures !r.Bad? ==> |r.rest| < |wire|
  {
    if |wire| < HEADER_CIPHER_SIZE then Bad(Starved(|wire|))
    else
      var header := a.open(Nonce(k), wire[..HEADER_CIPHER_SIZE]);
      if header.None? then Bad(AuthFailed)
      else if |header.value| != HEADER_PLAIN_SIZE || header.value[0] != FRAME_TYPE then Bad(BadHeader)
      else
        var paddingLength := FromBigEndian16(header.value[3..5]);
        var payloadLength := FromBigEndian16(header.value[5..7]);
        ReadBody(a, k + 1, wire[HEADER_CIPHER_SIZE..], paddingLength, payloadLength)
  }

  function ReadBody(a: Aead, k: nat, wire: seq<byte>, paddingLength: uint16, payloadLength: uint16): (r: FrameResult)
    ensures !r.Bad? ==> |r.rest| <= |wire|
  {
    if payloadLength == 0 then
      if paddingLength != 0 then Bad(PaddedZeroChunk) else Empty(wire, k)
    else if payloadLength > MAX_PAYLOAD_LENGTH || paddingLength > MAX_PAYLOAD_LENGTH then Bad(FrameTooLarge)
    else
      var n := paddingLength + payloadLength + OVERHEAD;
      if |wire| < n then Bad(Starved(|wire|))
      else
        var payload := a.open(Nonce(k), Swapped(wire[paddingLength..n], wire[..paddingLength]));
        if payload.None? then Bad(AuthFailed) else Payload(payload.value, wire[n..], k + 1)
  }

  /** Everything a reader can get out of `wire`, frame by frame, until the first error. */
  function Decode(a: Aead, k: nat, wire: seq<byte>): Stream
    decreases |wire|
  {
    match ReadFrame(a, k, wire)
    case Payload(p, rest, next) => Prepend(Data(p), Decode(a, next, rest))
    case Empty(rest, next) => Prepend(Zero, Decode(a, next, rest))
    case Bad(e) => Stream([], e)
  }

  function Prepend(c: Chunk, s: Stream): Stream {
    s.(chunks := [c] + s.chunks)
  }

  /** A whole frame is opened to exactly its payload, and the reader's nonce counter ends where the writer's did. */
  lemma ReadFrameInverts(a: Aead, k: nat, f: Frame, rest: seq<byte>)
    requires Lawful(a) && f.Valid()
    ensures ReadFrame(a, k, Encode(a, k, f) + rest)
      == if f.payload == [] then Empty(rest, k + f.Seals()) else Payload(f.payload, rest, k + f.Seals())
  {
    var h := HeaderPlain(|f.padding|, |f.payload|);
    var hc := a.seal(Nonce(k), h);
    HeaderFields(|f.padding|, |f.payload|);
    var wire := Encode(a, k, f) + rest;
    assert wire[..HEADER_CIPHER_SIZE] == hc;
    if f.payload == [] {
      assert wire[HEADER_CIPHER_SIZE..] == rest;
    } else {
      assert wire[HEADER_CIPHER_SIZE..] == Body(a, k, f) + rest;
      ReadBodyInverts(a, k, f, rest);
    }
  }

  lemma ReadBodyInverts(a: Aead, k: nat, f: Frame, rest: seq<byte>)
    requires Lawful(a) && f.Valid() && f.payload != []
    ensures ReadBody(a, k + 1, Body(a, k, f) + rest, |f.padding|, |f.payload|) == Payload(f.payload, rest, k + 2)
  {
    var c := a.seal(Nonce(k + 1), f.payload);
    var n := |f.padding| + |f.payload| + OVERHEAD;
    var wire := Body(a, k, f) + rest;
    assert wire[..|f.padding|] == Swapped(f.padding, c);
    assert wire[|f.padding|..n] == Swapped(c, f.padding);
    assert wire[n..] == rest;
    SwapInvolutive(c, f.padding);
  }

  /** A frame cut short anywhere is an end of stream: a clean one in front of either part, else an unexpected one. */
  lemma ReadFrameStarves(a: Aead, k: nat, f: Frame, cut: nat)
    requires Lawful(a) && f.Valid() && cut < |Encode(a, k, f)|
    ensures ReadFrame(a, k, Encode(a, k, f)[..cut]) == Bad(if cut == 0 || cut == 23 then EndOfStream else UnexpectedEnd)
  {
    var h := HeaderPlain(|f.padding|, |f.payload|);
    HeaderFields(|f.padding|, |f.payload|);
    var wire := Encode(a, k, f)[..cut];
    if HEADER_CIPHER_SIZE <= cut {
      assert wire[..HEADER_CIPHER_SIZE] == a.seal(Nonce(k), h);
      assert f.payload != [];
    }
  }

  /** The wire cost of a frame. */
  lemma EncodedLength(a: Aead, k: nat, f: Frame)
    requires Lawful(a) && f.Valid()
    ensures |Encode(a, k, f)|
      == HEADER_CIPHER_SIZE + |f.padding| + (if f.payload == [] then 0 else |f.payload| + OVERHEAD)
  {
    assert a.open(Nonce(k), a.seal(Nonce(k), HeaderPlain(|f.padding|, |f.payload|))).Some?;
  }

  lemma ReadFrameAtEnd(a: Aead, k: nat)
    ensures ReadFrame(a, k, []) == Bad(EndOfStream)
  {
  }

  /** Decoding undoes encoding: one chunk per frame, in order, then a clean end. */
  lemma {:induction false} DecodeInverts(a: Aead, k: nat, fs: seq<Frame>)
    requires Lawful(a) && ValidFrames(fs)
    ensures Decode(a, k, Wire(a, k, fs)) == Stream(Chunks(fs), EndOfStream)
    decreases |fs|
  {
    hide Encode, ReadFrame;
    if fs == [] {
      ReadFrameAtEnd(a, k);
    }
    if fs != [] {
      ReadFrameInverts(a, k, fs[0], Wire(a, k + fs[0].Seals(), fs[1..]));
      DecodeInverts(a, k + fs[0].Seals(), fs[1..]);
      assert Chunks(fs) == [fs[0].Chunk()] + Chunks(fs[1..]);
    }
  }

  /** The same at any moment of the transfer: a prefix of the wire decodes to a prefix of the chunks. */
  lemma {:induction false} DecodePrefix(a: Aead, k: nat, fs: seq<Frame>, cut: nat)
    requires Lawful(a) && ValidFrames(fs) && cut <= |Wire(a, k, fs)|
    ensures var s := Decode(a, k, Wire(a, k, fs)[..cut]);
      s.chunks <= Chunks(fs) && s.end in {EndOfStream, UnexpectedEnd}
    decreases |fs|
  {
    hide Encode, ReadFrame;
    ReadFrameAtEnd(a, k);
    var wire := Wire(a, k, fs);
    assert fs == [] ==> wire[..cut] == [];
    if fs != [] {
      var f := fs[0];
      var e := Encode(a, k, f);
      if cut < |e| {
        assert wire[..cut] == e[..cut];
        ReadFrameStarves(a, k, f, cut);
      } else {
        var tail := Wire(a, k + f.Seals(), fs[1..]);
        assert wire[..cut] == e + tail[..cut - |e|];
        ReadFrameInverts(a, k, f, tail[..cut - |e|]);
        DecodePrefix(a, k + f.Seals(), fs[1..], cut - |e|);
        assert Chunks(fs) == [f.Chunk()] + Chunks(fs[1..]);
      }
    }
  }

  /** And exactly: whole frames and then part of one give the whole ones, and an end that tells where the cut is. */
  lemma {:induction false} DecodeCut(a: Aead, k: nat, fs: seq<Frame>, f: Frame, extra: nat)
    requires Lawful(a) && ValidFrames(fs) && f.Valid() && extra < |Encode(a, k + SealCount(fs), f)|
    ensures Decode(a, k, Wire(a, k, fs) + Encode(a, k + SealCount(fs), f)[..extra])
      == Stream(Chunks(fs), if extra == 0 || extra == 23 then EndOfStream else UnexpectedEnd)
    decreases |fs|
  {
    hide Encode, ReadFrame;
    var part := Encode(a, k + SealCount(fs), f)[..extra];
    if fs == [] {
      assert Wire(a, k, fs) + part == part;
      ReadFrameStarves(a, k, f, extra);
    } else {
      var next := k + fs[0].Seals();
      var e, tail := Encode(a, k, fs[0]), Wire(a, next, fs[1..]);
      assert (e + tail) + part == e + (tail + part);
      ReadFrameInverts(a, k, fs[0], tail + part);
      DecodeCut(a, next, fs[1..], f, extra);
      assert Chunks(fs) == [fs[0].Chunk()] + Chunks(fs[1..]);
    }
  }

  // ---- The format and the reader's verdict, byte by byte ----

  /** The header in plain: type 4, two reserved bytes, and both lengths. */
  function HeaderBytes(paddingLength: uint16, payloadLength: uint16): (h: seq<byte>)
    ensures h == HeaderPlain(paddingLength, payloadLength)
  {
    [4, 0, 0, paddingLength / 256, paddingLength % 256, payloadLength / 256, payloadLength % 256]
  }

  /** What a frame looks like: the sealed header, then padding and ciphertext with their shared even positions exchanged. */
  lemma FrameFormat(a: Aead, k: nat, f: Frame)
    requires Lawful(a) && f.Valid()
    ensures var e, p, c := Encode(a, k, f), |f.padding|, a.seal(Nonce(k + 1), f.payload);
      && |e| >= 23 && e[..23] == a.seal(Nonce(k), HeaderBytes(p, |f.payload|))
      && (f.payload == [] ==> |e| == 23)
      && (f.payload != [] ==>
            && |e| == 23 + p + |c|
            && (forall i :: 0 <= i < p ==> e[23 + i] == if i % 2 == 0 && i < |c| then c[i] else f.padding[i])
            && (forall i :: 0 <= i < |c| ==> e[23 + p + i] == if i % 2 == 0 && i < p then f.padding[i] else c[i]))
  {
    var header := a.seal(Nonce(k), HeaderPlain(|f.padding|, |f.payload|));
    assert |header| == 23;
    if f.payload != [] {
      var c := a.seal(Nonce(k + 1), f.payload);
      assert |c| == |f.payload| + OVERHEAD;
      SplitAppend(header, Body(a, k, f));
      BodyFormat(a, k, f);
    }
  }

  lemma BodyFormat(a: Aead, k: nat, f: Frame)
    ensures var b, p, c := Body(a, k, f), |f.padding|, a.seal(Nonce(k + 1), f.payload);
      && |b| == p + |c|
      && (forall i :: 0 <= i < p ==> b[i] == if i % 2 == 0 && i < |c| then c[i] else f.padding[i])
      && (forall i :: 0 <= i < |c| ==> b[p + i] == if i % 2 == 0 && i < p then f.padding[i] else c[i])
  {
    hide Nonce;
  }

  /** The opened header of what arrived, None while it is incomplete or if it is not authentic. */
  function Opened(a: Aead, k: nat, wire: seq<byte>): Option<seq<byte>> {
    if |wire| < 23 then None else a.open(Nonce(k), wire[..23])
  }

  predicate GoodHeader(h: Option<seq<byte>>) {
    h.Some? && |h.value| == 7 && h.value[0] == 4
  }

  /** The two lengths in a header. */
  function PaddingIn(h: seq<byte>): nat
    requires |h| == 7
  {
    h[3] as int * 256 + h[4] as int
  }

  function PayloadIn(h: seq<byte>): nat
    requires |h| == 7
  {
    h[5] as int * 256 + h[6] as int
  }

  /** A header that announces a payload of acceptable size. */
  predicate Announces(h: Option<seq<byte>>) {
    GoodHeader(h) && 0 < PayloadIn(h.value) <= 16383 && PaddingIn(h.value) <= 16383
  }

  /** The payload ciphertext in a body with p bytes of padding and a payload of n: even positions back in their place. */
  function Ciphertext(wire: seq<byte>, p: nat, n: nat): (c: seq<byte>)
    requires |wire| >= 23 + p + n + 16
    ensures |c| == n + 16
  {
    seq(n + 16, i requires 0 <= i < n + 16 => if i % 2 == 0 && i < p then wire[23 + i] else wire[23 + p + i])
  }

  predicate HeaderForged(a: Aead, k: nat, wire: seq<byte>) {
    |wire| >= 23 && a.open(Nonce(k), wire[..23]).None?
  }

  predicate BodyForged(a: Aead, k: nat, wire: seq<byte>) {
    var h := Opened(a, k, wire);
    && Announces(h)
    && var p, n := PaddingIn(h.value), PayloadIn(h.value);
       |wire| >= 23 + p + n + 16 && a.open(Nonce(k + 1), Ciphertext(wire, p, n)).None?
  }

  /** What is refused and why, exactly, on arbitrary bytes. */
  lemma FrameRefused(a: Aead, k: nat, wire: seq<byte>)
    ensures var r, h := ReadFrame(a, k, wire), Opened(a, k, wire);
      && (r == Bad(AuthFailed) <==> HeaderForged(a, k, wire) || BodyForged(a, k, wire))
      && (r == Bad(BadHeader) <==> h.Some? && !GoodHeader(h))
      && (r == Bad(PaddedZeroChunk) <==> GoodHeader(h) && PayloadIn(h.value) == 0 && PaddingIn(h.value) != 0)
      && (r == Bad(FrameTooLarge) <==>
            GoodHeader(h) && PayloadIn(h.value) != 0 && (PayloadIn(h.value) > 16383 || PaddingIn(h.value) > 16383))
      && (r == Bad(EndOfStream) <==> wire == [] || (Announces(h) && |wire| == 23))
      && (r == Bad(UnexpectedEnd) <==>
            || 0 < |wire| < 23
            || (Announces(h) && 23 < |wire| < 23 + PaddingIn(h.value) + PayloadIn(h.value) + 16))
  {
    ReadFrameFields(a, k, wire);
  }

  /** What is accepted: only what opens under this reader's nonces, and then exactly that. */
  lemma FrameAccepted(a: Aead, k: nat, wire: seq<byte>)
    ensures var h := Opened(a, k, wire);
      match ReadFrame(a, k, wire)
      case Payload(payload, rest, next) =>
        && Announces(h)
        && var p, n := PaddingIn(h.value), PayloadIn(h.value);
           && |wire| >= 23 + p + n + 16
           && a.open(Nonce(k + 1), Ciphertext(wire, p, n)) == Some(payload)
           && rest == wire[23 + p + n + 16..] && next == k + 2
      case Empty(rest, next) =>
        GoodHeader(h) && PayloadIn(h.value) == 0 && PaddingIn(h.value) == 0 && rest == wire[23..] && next == k + 1
      case Bad(_) => true
  {
    ReadFrameFields(a, k, wire);
  }

  /** ReadFrame's fields are those of the format. */
  lemma ReadFrameFields(a: Aead, k: nat, wire: seq<byte>)
    ensures var h := Opened(a, k, wire);
      GoodHeader(h) ==>
        && FromBigEndian16(h.value[3..5]) == PaddingIn(h.value)
        && FromBigEndian16(h.value[5..7]) == PayloadIn(h.value)
        && ReadFrame(a, k, wire) == ReadBody(a, k + 1, wire[23..], PaddingIn(h.value), PayloadIn(h.value))
        && (|wire| >= 23 + PaddingIn(h.value) + PayloadIn(h.value) + 16 ==>
              var p, n := PaddingIn(h.value), PayloadIn(h.value);
              Swapped(wire[23..][p..p + n + 16], wire[23..][..p]) == Ciphertext(wire, p, n))
  {
  }

  /** Some ciphertext opens to `plain` under the k-th nonce. */
  ghost predicate Opens(a: Aead, k: nat, plain: seq<byte>) {
    exists c :: a.open(Nonce(k), c) == Some(plain)
  }

  /** Chunks that are openings under the nonces from k on, in their order: a header each, and a payload under the next. */
  ghost predicate Authentic(a: Aead, k: nat, chunks: seq<Chunk>)
    decreases |chunks|
  {
    chunks == [] ||
    (&& (exists h :: Opens(a, k, h))
     && match chunks[0]
        case Data(b) => Opens(a, k + 1, b) && Authentic(a, k + 2, chunks[1..])
        case Zero => Authentic(a, k + 1, chunks[1..]))
  }

  lemma FrameOpens(a: Aead, k: nat, wire: seq<byte>)
    ensures !ReadFrame(a, k, wire).Bad? ==> exists h :: Opens(a, k, h)
    ensures match ReadFrame(a, k, wire)
      case Payload(payload, _, next) => Opens(a, k + 1, payload) && next == k + 2
      case Empty(_, next) => next == k + 1
      case Bad(_) => true
  {
    hide Nonce, ReadFrame, Ciphertext;
    FrameAccepted(a, k, wire);
    if !ReadFrame(a, k, wire).Bad? {
      assert a.open(Nonce(k), wire[..23]) == Some(Opened(a, k, wire).value);
      assert Opens(a, k, Opened(a, k, wire).value);
    }
  }

  /**
   * Whatever arrives, a reader delivers nothing that did not open: each chunk is what open made of some ciphertext under
   * the very nonce that is due, so nothing forged, replayed or out of order gets through.
   */
  lemma {:induction false} DecodeAuthentic(a: Aead, k: nat, wire: seq<byte>)
    ensures Authentic(a, k, Decode(a, k, wire).chunks)
    decreases |wire|
  {
    hide ReadFrame, Opens;
    FrameOpens(a, k, wire);
    match ReadFrame(a, k, wire)
    case Payload(p, rest, next) =>
      DecodeAuthentic(a, next, rest);
      assert ([Data(p)] + Decode(a, next, rest).chunks)[1..] == Decode(a, next, rest).chunks;
    case Empty(rest, next) =>
      DecodeAuthentic(a, next, rest);
      assert ([Zero] + Decode(a, next, rest).chunks)[1..] == Decode(a, next, rest).chunks;
    case Bad(_) =>
  }

  /** In particular every payload delivered is one. */
  lemma {:induction false} DataOpened(a: Aead, k: nat, wire: seq<byte>, i: nat)
    requires i < |Decode(a, k, wire).chunks| && Decode(a, k, wire).chunks[i].Data?
    ensures exists j: nat, c :: a.open(Nonce(j), c) == Some(Decode(a, k, wire).chunks[i].bytes)
  {
    hide Nonce, Decode;
    DecodeAuthentic(a, k, wire);
    AuthenticAt(a, k, Decode(a, k, wire).chunks, i);
  }

  lemma {:induction false} AuthenticAt(a: Aead, k: nat, chunks: seq<Chunk>, i: nat)
    requires Authentic(a, k, chunks) && i < |chunks| && chunks[i].Data?
    ensures exists j: nat, c :: a.open(Nonce(j), c) == Some(chunks[i].bytes)
    decreases i
  {
    hide Nonce;
    if i > 0 {
      AuthenticAt(a, k + (if chunks[0].Zero? then 1 else 2), chunks[1..], i - 1);
    }
  }
}
