/** The sending half of a transport connection: salt once, then sealed frames under a stepping nonce. */
module FrameWriter {
  import opened Bytes
  import opened Nonces
  import opened Streams
  import opened Frames
  import opened Sockets
  import opened RecordSizing
  import opened Padding

  datatype WriteError = FrameTooLargeToWrite | ZeroChunkWithPadding

  /** Only a first frame with a payload carries padding, and its bytes follow the ratio rule for the jitter drawn. */
  predicate PaddingRule(aead: Aead, fs: seq<Frame>, initialPadding: uint16, jitter: real) {
    && (forall i :: 0 <= i < |fs| ==> |fs[i].padding| == if i == 0 && fs[i].payload != [] then initialPadding else 0)
    && (fs != [] && fs[0].padding != [] ==> Chosen(aead.seal(Nonce(1), fs[0].payload), fs[0].padding, jitter))
  }

  /** Everything a writer with these frames has put on its connection. */
  function WireImage(aead: Aead, salt: seq<byte>, fs: seq<Frame>): seq<byte>
    requires ValidFrames(fs)
  {
    if fs == [] then [] else salt + Wire(aead, 0, fs)
  }

  /** The nonces of the first n seals. */
  function NonceLog(n: nat): (log: seq<seq<byte>>)
    ensures |log| == n
  {
    seq(n, i requires 0 <= i < n => Nonce(i))
  }

  class V4Writer {
    const sink: Sink
    const aead: Aead
    const nonce: array<byte>
    const salt: seq<byte>
    const initialPaddingLength: uint16
    /** The draw from [0, 1) that goes into the ratio of the one frame with padding. */
    const jitter: real
    var saltSent: bool
    var ramp: Ramp
    ghost var frames: seq<Frame>
    ghost var sealedUnder: seq<seq<byte>>
    ghost var times: seq<int>

    /** The nonce counter, the salt flag and the sink all agree with the frames written so far. */
    ghost predicate Valid()
      reads this, sink, nonce
    {
      && nonce.Length == NONCE_SIZE
      && nonce[..] == Nonce(SealCount(frames))
      && (saltSent <==> frames != [])
      && |salt| == SALT_SIZE
      && InitialPadding(initialPaddingLength)
      && 0.0 <= jitter < 1.0
      && ramp.Valid()
      && ramp == RampAfter(initialPaddingLength, times)
      && ValidFrames(frames)
      && sink.data == WireImage(aead, salt, frames)
      && sealedUnder == NonceLog(SealCount(frames))
    }

    constructor (keys: KeySchedule, sink: Sink, salt: seq<byte>, jitter: real)
      requires sink.data == [] && |salt| == SALT_SIZE && 0.0 <= jitter < 1.0
      ensures Valid() && frames == [] && times == [] && fresh(nonce)
      ensures this.sink == sink && this.salt == salt && this.jitter == jitter && aead == keys(salt)
      ensures ramp == FRESH && 256 <= initialPaddingLength <= 511
    {
      var delta := RandomInt(INITIAL_PADDING_SPAN as nat);
      this.sink, this.salt, this.jitter, aead := sink, salt, jitter, keys(salt);
      initialPaddingLength := INITIAL_PADDING_MIN as int + delta;
      nonce := new byte[NONCE_SIZE](_ => 0);
      saltSent, ramp, frames, sealedUnder, times := false, FRESH, [], [], [];
      new;
      ZeroNonce();
      assert nonce[..] == Zeros(NONCE_SIZE);
    }

    /** Seal under the current nonce, then step it. */
    method SealNext(plain: seq<byte>) returns (c: seq<byte>)
      requires nonce.Length == NONCE_SIZE
      modifies nonce, this`sealedUnder
      ensures c == aead.seal(old(nonce[..]), plain)
      ensures nonce[..] == Increment(old(nonce[..]))
      ensures sealedUnder == old(sealedUnder) + [old(nonce[..])]
    {
      c := aead.seal(nonce[..], plain);
      sealedUnder := sealedUnder + [nonce[..]];
      IncrementNonce(nonce);
    }

    method NextPayloadLimit(now: int) returns (limit: uint16)
      requires Valid()
      modifies this`ramp, this`times
      ensures Valid() && times == old(times) + [now]
      ensures SMALLEST_LIMIT <= limit <= MAX_PAYLOAD_LENGTH
      ensures limit == LimitAt(initialPaddingLength, times, |times| - 1)
      ensures limit == CurrentLimit(old(ramp), initialPaddingLength, now)
      ensures ramp == NextRamp(old(ramp), initialPaddingLength, now)
    {
      LimitInRange(ramp, initialPaddingLength, now);
      times := times + [now];
      assert times[..|times| - 1] == old(times);
      if ramp.lastWrite.None? {
        limit := Minus16(FRAME_SIZE - 55, initialPaddingLength);
      } else if now - ramp.lastWrite.value > IDLE {
        limit := FRAME_SIZE - 39;
      } else {
        limit := ramp.payloadLimit;
      }
      ramp := ramp.(lastWrite := Some(now));
      if limit <= MAX_PAYLOAD_LENGTH - 1 {
        var next := limit as int + FRAME_SIZE - 39;
        if next > MAX_PAYLOAD_LENGTH {
          next := MAX_PAYLOAD_LENGTH;
        }
        ramp := ramp.(payloadLimit := next);
      } else {
        ramp := ramp.(payloadLimit := MAX_PAYLOAD_LENGTH);
      }
    }

    function NextFramePaddingLength(payloadLength: nat): (n: nat)
      requires Valid()
      reads this, sink, nonce
      ensures n == if frames == [] && payloadLength != 0 then initialPaddingLength else 0
      ensures n <= MAX_PAYLOAD_LENGTH
    {
      if saltSent || payloadLength == 0 then 0 else initialPaddingLength
    }

    /** Header and body of one frame, sealed under the next nonces. */
    method SealFrame(payload: seq<byte>, paddingLength: nat, ghost k: nat)
      returns (frame: seq<byte>, ghost padding: seq<byte>)
      requires nonce.Length == NONCE_SIZE && nonce[..] == Nonce(k) && 0.0 <= jitter < 1.0
      requires |payload| <= MAX_PAYLOAD_LENGTH && paddingLength <= MAX_PAYLOAD_LENGTH
      requires payload == [] ==> paddingLength == 0
      modifies nonce, this`sealedUnder
      ensures |padding| == paddingLength
      ensures frame == Encode(aead, k, Frame(payload, padding))
      ensures paddingLength > 0 ==> Chosen(aead.seal(Nonce(k + 1), payload), padding, jitter)
      ensures nonce[..] == Nonce(k + Frame(payload, padding).Seals())
      ensures sealedUnder == old(sealedUnder) + seq(Frame(payload, padding).Seals(), i requires 0 <= i => Nonce(k + i))
    {
      hide Nonce, HeaderPlain, Chosen, Increment, Swapped;
      NonceStep(k);
      NonceStep(k + 1);
      padding := [];
      frame := SealNext(HeaderPlain(paddingLength, |payload|));
      if payload != [] {
        var payloadCipher := SealNext(payload);
        if paddingLength > 0 {
          var body;
          body, padding := PadAndSwap(payloadCipher, paddingLength, jitter);
          frame := frame + body;
        } else {
          SwapWithNothing(payloadCipher);
          frame := frame + payloadCipher;
        }
      }
    }

    /** One frame with the given padding length, or an error and nothing written. */
    method WriteFrame(payload: seq<byte>, paddingLength: nat)
      returns (err: Option<WriteError>, ghost padding: seq<byte>)
      requires Valid() && Lawful(aead)
      modifies this`saltSent, this`frames, this`sealedUnder, nonce, sink
      ensures Valid()
      ensures err == if |payload| > MAX_PAYLOAD_LENGTH || paddingLength > MAX_PAYLOAD_LENGTH then Some(FrameTooLargeToWrite)
                     else if payload == [] && paddingLength != 0 then Some(ZeroChunkWithPadding) else None
      ensures err.Some? ==> frames == old(frames)
      ensures err.None? ==> frames == old(frames) + [Frame(payload, padding)] && |padding| == paddingLength
      ensures err.None? && paddingLength > 0 ==>
        Chosen(aead.seal(Nonce(SealCount(old(frames)) + 1), payload), padding, jitter)
    {
      hide Nonce, Chosen, Encode, WireImage, NonceLog;
      padding := [];
      if |payload| > MAX_PAYLOAD_LENGTH || paddingLength > MAX_PAYLOAD_LENGTH {
        return Some(FrameTooLargeToWrite), [];
      }
      if payload == [] && paddingLength != 0 {
        return Some(ZeroChunkWithPadding), [];
      }
      ghost var k := SealCount(frames);
      var frame;
      frame, padding := SealFrame(payload, paddingLength, k);
      if !saltSent {
        frame := salt + frame;
        saltSent := true;
      }
      WriteFull(sink, frame);
      err := None;
      ghost var f := Frame(payload, padding);
      WireImageAppend(aead, salt, frames, f);
      LogAppend(k, f.Seals());
      frames := frames + [f];
    }

    /** One round of Write's loop: the next frame of b, as long as the limit at `now` lets it be. */
    method WritePiece(b: seq<byte>, written: nat, now: int) returns (end: nat)
      requires Valid() && Lawful(aead) && PaddingRule(aead, frames, initialPaddingLength, jitter)
      requires written < |b|
      modifies this`saltSent, this`ramp, this`times, this`frames, this`sealedUnder, nonce, sink
      ensures Valid() && PaddingRule(aead, frames, initialPaddingLength, jitter)
      ensures end == written + Min(Guarded(CurrentLimit(old(ramp), initialPaddingLength, now)), |b| - written)
      ensures Chunks(frames) == old(Chunks(frames)) + [Data(b[written..end])]
      ensures ramp == NextRamp(old(ramp), initialPaddingLength, now)
    {
      hide CurrentLimit, NextRamp, LimitAt, V4Writer.Valid, PaddingRule, Chosen, Chunks, Lawful;
      ghost var was := frames;
      var limit := NextPayloadLimit(now);
      end := written + Guarded(limit);
      if end > |b| {
        end := |b|;
      }
      var paddingLength := NextFramePaddingLength(end - written);
      ghost var padding;
      var err;
      err, padding := WriteFrame(b[written..end], paddingLength);
      ChunksAppend(was, Frame(b[written..end], padding));
      PaddingRuleAppend(aead, was, Frame(b[written..end], padding), initialPaddingLength, jitter);
    }

    /** Write: b cut into frames by the ramp at the given clock readings; an empty b is the zero chunk. */
    method Write(b: seq<byte>, clock: nat -> int)
      requires Valid() && Lawful(aead) && PaddingRule(aead, frames, initialPaddingLength, jitter)
      modifies this`saltSent, this`ramp, this`times, this`frames, this`sealedUnder, nonce, sink
      ensures Valid() && PaddingRule(aead, frames, initialPaddingLength, jitter)
      ensures var (cs, r) := WriteChunks(b, old(ramp), initialPaddingLength, clock);
        Chunks(frames) == old(Chunks(frames)) + cs && ramp == r
    {
      hide Pieces, CurrentLimit, NextRamp, Guarded, V4Writer.Valid, PaddingRule, Chosen, Chunks, Lawful;
      ghost var was := frames;
      if b == [] {
        ghost var padding;
        var err;
        err, padding := WriteFrame([], 0);
        ChunksAppend(was, Frame([], padding));
        PaddingRuleAppend(aead, was, Frame([], padding), initialPaddingLength, jitter);
        return;
      }
      var written, i := 0, 0;
      ghost var p0 := initialPaddingLength;
      ghost var all := Pieces(b, ramp, p0, clock, 0);
      assert b[0..] == b;
      while written < |b|
        invariant 0 <= written <= |b|
        invariant Valid() && PaddingRule(aead, frames, initialPaddingLength, jitter)
        invariant var (cs, r) := Pieces(b[written..], ramp, p0, clock, i);
          Chunks(was) + all.0 == Chunks(frames) + cs && r == all.1
      {
        PiecesUnfold(b[written..], ramp, p0, clock, i);
        var end := WritePiece(b, written, clock(i));
        assert b[written..][..end - written] == b[written..end];
        assert b[written..][end - written..] == b[end..];
        written, i := end, i + 1;
      }
      assert b[written..] == [];
      PiecesUnfold([], ramp, p0, clock, i);
    }

    /** WritePacketFrame: the whole of b in one frame, or an error and nothing written. */
    method WritePacketFrame(b: seq<byte>) returns (err: Option<WriteError>)
      requires Valid() && Lawful(aead) && PaddingRule(aead, frames, initialPaddingLength, jitter)
      modifies this`saltSent, this`frames, this`sealedUnder, nonce, sink
      ensures Valid() && PaddingRule(aead, frames, initialPaddingLength, jitter)
      ensures err.None? <==> |b| <= MAX_PAYLOAD_LENGTH
      ensures Chunks(frames) == old(Chunks(frames)) + PacketChunks(b)
    {
      if |b| > MAX_PAYLOAD_LENGTH {
        return Some(FrameTooLargeToWrite);
      }
      hide PaddingRule, Chosen;
      ghost var was := frames;
      var paddingLength := NextFramePaddingLength(|b|);
      ghost var padding;
      err, padding := WriteFrame(b, paddingLength);
      ChunksAppend(was, Frame(b, padding));
      PaddingRuleAppend(aead, was, Frame(b, padding), initialPaddingLength, jitter);
    }
  }

  /** The chunks Write produces, and the ramp it leaves. */
  function WriteChunks(b: seq<byte>, r: Ramp, initialPadding: uint16, clock: nat -> int): (seq<Chunk>, Ramp) {
    if b == [] then ([Zero], r) else Pieces(b, r, initialPadding, clock, 0)
  }

  function PacketChunks(b: seq<byte>): seq<Chunk> {
    if |b| > MAX_PAYLOAD_LENGTH then [] else if b == [] then [Zero] else [Data(b)]
  }

  lemma PaddingRuleAppend(aead: Aead, fs: seq<Frame>, f: Frame, initialPadding: uint16, jitter: real)
    requires PaddingRule(aead, fs, initialPadding, jitter)
    requires |f.padding| == if fs == [] && f.payload != [] then initialPadding else 0
    requires f.padding != [] ==> Chosen(aead.seal(Nonce(1), f.payload), f.padding, jitter)
    ensures PaddingRule(aead, fs + [f], initialPadding, jitter)
  {
    hide Chosen, Nonce;
  }

  lemma ChunksAppend(fs: seq<Frame>, f: Frame)
    ensures Chunks(fs + [f]) == Chunks(fs) + [f.Chunk()]
  {
  }

  lemma LogAppend(k: nat, n: nat)
    ensures NonceLog(k + n) == NonceLog(k) + seq(n, i requires 0 <= i < n => Nonce(k + i))
  {
  }

  /** The padding region and the ciphertext after it, interleaved. */
  method PadAndSwap(payloadCipher: seq<byte>, paddingLength: nat, jitter: real)
    returns (onWire: seq<byte>, padding: seq<byte>)
    requires 0.0 <= jitter < 1.0
    ensures |padding| == paddingLength && Chosen(payloadCipher, padding, jitter)
    ensures onWire == Swapped(padding, payloadCipher) + Swapped(payloadCipher, padding)
  {
    var p := MakePadding(payloadCipher, paddingLength, jitter);
    padding := p[..];
    var c := new byte[|payloadCipher|](i requires 0 <= i < |payloadCipher| => payloadCipher[i]);
    assert c[..] == payloadCipher && p[0..p.Length] == padding && c[0..c.Length] == c[..];
    SwapPadding(Slice(p, 0, p.Length), Slice(c, 0, c.Length));
    assert p[0..p.Length] == p[..] && c[0..c.Length] == c[..];
    onWire := p[..] + c[..];
  }

  /** Writing one more frame appends its encoding, and the salt before the very first. */
  lemma WireImageAppend(aead: Aead, salt: seq<byte>, fs: seq<Frame>, f: Frame)
    requires ValidFrames(fs) && f.Valid()
    ensures ValidFrames(fs + [f])
    ensures WireImage(aead, salt, fs + [f])
      == WireImage(aead, salt, fs) + ((if fs == [] then salt else []) + Encode(aead, SealCount(fs), f))
    ensures SealCount(fs + [f]) == SealCount(fs) + f.Seals()
  {
    hide Encode;
    WireAppend(aead, 0, fs, f);
  }

  lemma SwapWithNothing(c: seq<byte>)
    ensures Swapped([], c) + Swapped(c, []) == c
  {
  }

  lemma ZeroNonce()
    ensures Zeros(NONCE_SIZE) == Nonce(0)
  {
  }
}
