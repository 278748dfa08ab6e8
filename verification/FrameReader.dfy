/** The receiving half of a transport connection. */
module FrameReader {
  import opened Bytes
  import opened Nonces
  import opened Streams
  import opened Frames
  import opened Sockets
  import opened Padding

  /** What is still to be read when `buf` holds the rest of an opened frame. */
  function Buffered(buf: seq<byte>, s: Stream): Stream {
    if buf == [] then s else Prepend(Data(buf), s)
  }

  /** All a reader can get out of a connection's bytes, from the salt on. */
  function DecodeConnection(keys: KeySchedule, wire: seq<byte>): Stream {
    if |wire| < SALT_SIZE then Stream([], Starved(|wire|)) else Decode(keys(wire[..SALT_SIZE]), 0, wire[SALT_SIZE..])
  }

  class V4Reader {
    const source: Source
    const aead: Aead
    const nonce: array<byte>
    var buf: seq<byte>
    ghost var seals: nat

    ghost predicate Valid()
      reads this, nonce
    {
      nonce.Length == NONCE_SIZE && nonce[..] == Nonce(seals)
    }

    /** Everything Reads can still return. */
    ghost function Incoming(): Stream
      reads this, source
    {
      Buffered(buf, Decode(aead, seals, source.data))
    }

    constructor (aead: Aead, source: Source)
      ensures Valid() && fresh(nonce) && this.source == source && this.aead == aead
      ensures buf == [] && seals == 0
    {
      this.aead, this.source := aead, source;
      nonce := new byte[NONCE_SIZE](_ => 0);
      buf, seals := [], 0;
      new;
      assert nonce[..] == Nonce(0);
    }

    /** initReader: the salt, then a reader at nonce zero. */
    static method Open(keys: KeySchedule, source: Source) returns (r: Result<V4Reader, ReadError>)
      modifies source
      ensures r.Err? <==> |old(source.data)| < SALT_SIZE
      ensures r.Err? ==> Stream([], r.error) == DecodeConnection(keys, old(source.data))
      ensures r.Ok? ==> fresh(r.value) && fresh(r.value.nonce) && r.value.source == source && r.value.Valid()
      ensures r.Ok? ==> r.value.Incoming() == DecodeConnection(keys, old(source.data))
    {
      var salt := ReadFull(source, SALT_SIZE);
      if salt.Err? {
        return Err(salt.error);
      }
      var reader := new V4Reader(keys(salt.value), source);
      r := Ok(reader);
    }

    /** aead.Open under the current nonce, which steps whether or not the tag is good. */
    method OpenNext(cipher: seq<byte>) returns (plain: Option<seq<byte>>)
      requires Valid()
      modifies this`seals, nonce
      ensures Valid() && seals == old(seals) + 1
      ensures plain == aead.open(Nonce(old(seals)), cipher)
    {
      hide Nonce, Increment;
      plain := aead.open(nonce[..], cipher);
      NonceStep(seals);
      IncrementNonce(nonce);
      seals := seals + 1;
    }

    /** readFrame: the payload of the next frame, the zero chunk, or the error, exactly as ReadFrame says. */
    method NextFrame() returns (r: ReadResult)
      requires Valid()
      modifies this`seals, nonce, source
      ensures Valid()
      ensures match ReadFrame(aead, old(seals), old(source.data))
        case Payload(p, rest, next) => r == Got(p) && source.data == rest && seals == next
        case Empty(rest, next) => r == HalfClosed && source.data == rest && seals == next
        case Bad(e) => r == Failed(e)
      ensures HeaderForged(aead, old(seals), old(source.data)) || BodyForged(aead, old(seals), old(source.data))
        <==> r == Failed(AuthFailed)
    {
      hide Nonce, ReadBody, HeaderForged, BodyForged;
      FrameRefused(aead, seals, source.data);
      var headerCipher := ReadFull(source, HEADER_CIPHER_SIZE);
      if headerCipher.Err? {
        return Failed(headerCipher.error);
      }
      var header := OpenNext(headerCipher.value);
      if header.None? {
        return Failed(AuthFailed);
      }
      if |header.value| != HEADER_PLAIN_SIZE || header.value[0] != FRAME_TYPE {
        return Failed(BadHeader);
      }
      var paddingLength := FromBigEndian16(header.value[3..5]);
      var payloadLength := FromBigEndian16(header.value[5..7]);
      r := NextBody(paddingLength, payloadLength);
    }

    method NextBody(paddingLength: uint16, payloadLength: uint16) returns (r: ReadResult)
      requires Valid()
      modifies this`seals, nonce, source
      ensures Valid()
      ensures match ReadBody(aead, old(seals), old(source.data), paddingLength, payloadLength)
        case Payload(p, rest, next) => r == Got(p) && source.data == rest && seals == next
        case Empty(rest, next) => r == HalfClosed && source.data == rest && seals == next
        case Bad(e) => r == Failed(e)
    {
      hide Nonce;
      if payloadLength == 0 {
        return if paddingLength != 0 then Failed(PaddedZeroChunk) else HalfClosed;
      }
      if payloadLength > MAX_PAYLOAD_LENGTH || paddingLength > MAX_PAYLOAD_LENGTH {
        return Failed(FrameTooLarge);
      }
      var body := ReadFull(source, paddingLength + payloadLength + OVERHEAD);
      if body.Err? {
        return Failed(body.error);
      }
      ghost var wire, n := old(source.data), paddingLength + payloadLength + OVERHEAD;
      assert body.value[paddingLength..] == wire[paddingLength..n] && body.value[..paddingLength] == wire[..paddingLength];
      var payloadCipher := Unswap(body.value, paddingLength);
      var payload := OpenNext(payloadCipher);
      return if payload.None? then Failed(AuthFailed) else Got(payload.value);
    }

    /** Read with an n-byte buffer. */
    method Read(n: nat) returns (r: ReadResult)
      requires Valid()
      modifies this, nonce, source
      ensures Valid()
      ensures r == TakeRead(old(Incoming()), n).0
      ensures !r.Failed? ==> Incoming() == TakeRead(old(Incoming()), n).1
      ensures old(buf) == [] ==>
        (HeaderForged(aead, old(seals), old(source.data)) || BodyForged(aead, old(seals), old(source.data))
         <==> r == Failed(AuthFailed))
    {
      hide Nonce, ReadFrame, HeaderForged, BodyForged;
      if buf == [] {
        var frame := NextFrame();
        if !frame.Got? {
          return frame;
        }
        buf := frame.bytes;
      }
      var m := if n < |buf| then n else |buf|;
      r := Got(buf[..m]);
      buf := buf[m..];
    }
  }

  /** The ciphertext of a received body after the interleave is undone in place. */
  method Unswap(body: seq<byte>, paddingLength: nat) returns (payloadCipher: seq<byte>)
    requires paddingLength <= |body|
    ensures payloadCipher == Swapped(body[paddingLength..], body[..paddingLength])
  {
    var frame := new byte[|body|](i requires 0 <= i < |body| => body[i]);
    assert frame[..] == body;
    var padding, cipher := Slice(frame, 0, paddingLength), Slice(frame, paddingLength, |body|);
    assert padding.Bytes() == body[..paddingLength] && cipher.Bytes() == body[paddingLength..];
    if paddingLength > 0 {
      SwapPadding(padding, cipher);
    }
    payloadCipher := frame[paddingLength..];
    assert payloadCipher == cipher.Bytes();
  }
}
