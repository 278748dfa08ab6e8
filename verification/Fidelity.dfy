/** What a whole run of a writer and a whole run of a reader have to do with each other. */
module Fidelity {
  import opened Bytes
  import opened Nonces
  import opened Sockets
  import opened Streams
  import opened Frames
  import opened RecordSizing
  import opened Padding
  import opened FrameWriter
  import opened FrameReader

  /** A call on the sending side; an empty Write or packet is a zero chunk. */
  datatype Op = WriteOp(b: seq<byte>, clock: nat -> int) | PacketOp(b: seq<byte>)

  /** The chunks the sending side's contracts promise for a run of calls. */
  function RunChunks(ops: seq<Op>, r: Ramp, initialPadding: uint16): seq<Chunk>
    decreases |ops|
  {
    if ops == [] then []
    else match ops[0]
      case WriteOp(b, clock) =>
        var (cs, r') := WriteChunks(b, r, initialPadding, clock);
        cs + RunChunks(ops[1..], r', initialPadding)
      case PacketOp(b) => PacketChunks(b) + RunChunks(ops[1..], r, initialPadding)
  }

  /** What the caller asked to send; an oversized packet is refused and sends nothing. */
  function RunItems(ops: seq<Op>): seq<Item> {
    if ops == [] then []
    else
      (if ops[0].b == [] then [ZeroChunk]
       else if ops[0].PacketOp? && |ops[0].b| > MAX_PAYLOAD_LENGTH then []
       else Items(ops[0].b)) + RunItems(ops[1..])
  }

  lemma FlattenOne(c: Chunk)
    ensures Flatten([c]) == ChunkItems(c)
  {
    assert [c][1..] == [];
    assert Flatten([c][1..]) == [];
  }

  lemma {:induction false} RunCarriesItems(ops: seq<Op>, r: Ramp, initialPadding: uint16)
    requires r.Valid() && InitialPadding(initialPadding)
    ensures Flatten(RunChunks(ops, r, initialPadding)) == RunItems(ops)
    decreases |ops|
  {
    if ops != [] {
      var op := ops[0];
      match op
      case WriteOp(b, clock) =>
        var (cs, r') := WriteChunks(b, r, initialPadding, clock);
        PiecesConserve(b, r, initialPadding, clock, 0);
        FlattenOne(Zero);
        RunCarriesItems(ops[1..], r', initialPadding);
        FlattenAppend(cs, RunChunks(ops[1..], r', initialPadding));
      case PacketOp(b) =>
        FlattenOne(Zero);
        FlattenOne(Data(b));
        RunCarriesItems(ops[1..], r, initialPadding);
        FlattenAppend(PacketChunks(b), RunChunks(ops[1..], r, initialPadding));
    }
  }

  /** Any cut of the wire decodes, from the salt on, to a prefix of the frames; the whole wire to all of them. */
  lemma DecodeConnectionPrefix(keys: KeySchedule, salt: seq<byte>, fs: seq<Frame>, cut: nat)
    requires LawfulKeys(keys) && |salt| == SALT_SIZE && ValidFrames(fs)
    requires cut <= |WireImage(keys(salt), salt, fs)|
    ensures var wire := WireImage(keys(salt), salt, fs);
      var s := DecodeConnection(keys, wire[..cut]);
      && s.chunks <= Chunks(fs)
      && s.end in {EndOfStream, UnexpectedEnd}
      && (cut == |wire| ==> s == Stream(Chunks(fs), EndOfStream))
  {
    hide Wire, Decode;
    var a := keys(salt);
    var wire := WireImage(a, salt, fs);
    if fs != [] && cut >= SALT_SIZE {
      assert wire[..cut][..SALT_SIZE] == salt;
      assert wire[..cut][SALT_SIZE..] == Wire(a, 0, fs)[..cut - SALT_SIZE];
      DecodePrefix(a, 0, fs, cut - SALT_SIZE);
      if cut == |wire| {
        assert Wire(a, 0, fs)[..cut - SALT_SIZE] == Wire(a, 0, fs);
        DecodeInverts(a, 0, fs);
      }
    }
  }

  /**
   * For every run of writes, zero chunks and packets, every clock, salt, padding, and moment of the transfer, and
   * every sequence of read sizes: the reader has got a prefix of what was sent, each zero chunk in its place; and once
   * the wire is complete, enough non-empty reads get exactly what was sent.
   */
  lemma StreamFidelity(keys: KeySchedule, salt: seq<byte>, initialPadding: uint16, ops: seq<Op>, fs: seq<Frame>,
                       cut: nat, sizes: seq<nat>)
    requires LawfulKeys(keys) && |salt| == SALT_SIZE && InitialPadding(initialPadding)
    requires ValidFrames(fs) && Chunks(fs) == RunChunks(ops, FRESH, initialPadding)
    requires cut <= |WireImage(keys(salt), salt, fs)|
    ensures var wire := WireImage(keys(salt), salt, fs);
      var got := ReadRun(DecodeConnection(keys, wire[..cut]), sizes).0;
      && got <= RunItems(ops)
      && (cut == |wire| && Enough(sizes, |RunItems(ops)|) ==> got == RunItems(ops))
  {
    hide DecodeConnection, Chunks, ReadRun, RunItems, WireImage;
    var wire := WireImage(keys(salt), salt, fs);
    var s := DecodeConnection(keys, wire[..cut]);
    DecodeConnectionPrefix(keys, salt, fs, cut);
    RunCarriesItems(ops, FRESH, initialPadding);
    FlattenPrefix(s.chunks, Chunks(fs));
    ReadsConserve(s, sizes);
    if Enough(sizes, |RunItems(ops)|) {
      ReadsProgress(s, sizes);
    }
  }

  /** A run of calls on a writer adds the frames that RunChunks says. */
  method RunWriter(w: V4Writer, ops: seq<Op>)
    requires w.Valid() && Lawful(w.aead) && PaddingRule(w.aead, w.frames, w.initialPaddingLength, w.jitter)
    modifies w, w.nonce, w.sink
    ensures w.Valid() && PaddingRule(w.aead, w.frames, w.initialPaddingLength, w.jitter)
    ensures Chunks(w.frames) == old(Chunks(w.frames)) + RunChunks(ops, old(w.ramp), w.initialPaddingLength)
  {
    hide V4Writer.Valid, PaddingRule, Lawful, Chunks, WriteChunks, PacketChunks;
    ghost var all := RunChunks(ops, w.ramp, w.initialPaddingLength);
    var i := 0;
    assert ops[0..] == ops;
    while i < |ops|
      invariant 0 <= i <= |ops|
      invariant w.Valid() && PaddingRule(w.aead, w.frames, w.initialPaddingLength, w.jitter)
      invariant Chunks(w.frames) + RunChunks(ops[i..], w.ramp, w.initialPaddingLength) == old(Chunks(w.frames)) + all
    {
      assert ops[i..][1..] == ops[i + 1..];
      match ops[i] {
        case WriteOp(b, clock) => w.Write(b, clock);
        case PacketOp(b) => var err := w.WritePacketFrame(b);
      }
      i := i + 1;
    }
  }

  /** Reads with the given buffer sizes, up to the first that fails, get what ReadRun says. */
  method RunReader(r: V4Reader, sizes: seq<nat>) returns (got: seq<Item>)
    requires r.Valid()
    modifies r, r.nonce, r.source
    ensures r.Valid()
    ensures got == ReadRun(old(r.Incoming()), sizes).0
  {
    hide V4Reader.Valid, V4Reader.Incoming, TakeRead;
    got := [];
    var i := 0;
    assert sizes[0..] == sizes;
    while i < |sizes|
      invariant 0 <= i <= |sizes| && r.Valid()
      invariant got + ReadRun(r.Incoming(), sizes[i..]).0 == ReadRun(old(r.Incoming()), sizes).0
    {
      assert sizes[i..][1..] == sizes[i + 1..];
      ghost var s := r.Incoming();
      var result := r.Read(sizes[i]);
      if result.Failed? {
        FailedRun(s, sizes[i..]);
        return;
      }
      got := got + ResultItems(result);
      i := i + 1;
    }
  }

  lemma {:induction false} FailedRun(s: Stream, sizes: seq<nat>)
    requires sizes != [] && TakeRead(s, sizes[0]).0.Failed?
    ensures ReadRun(s, sizes).0 == []
    decreases |sizes|
  {
    if |sizes| > 1 {
      FailedRun(s, sizes[1..]);
    }
  }

  /**
   * How a writer pads: 256 to 511 bytes in front of its very first payload if that comes in the first frame, nothing
   * anywhere else; and those bytes hold the ones the ratio asks for whenever it asks for any.
   */
  predicate Padded(a: Aead, fs: seq<Frame>, initialPadding: uint16, jitter: real)
    requires 0.0 <= jitter < 1.0
  {
    && 256 <= initialPadding <= 511
    && (forall i :: 0 < i < |fs| ==> fs[i].padding == [])
    && (fs != [] && fs[0].payload == [] ==> fs[0].padding == [])
    && (fs != [] && fs[0].payload != [] ==>
          && |fs[0].padding| == initialPadding
          && var t := TargetOnes(a.seal(Nonce(1), fs[0].payload), initialPadding, jitter);
             t.Some? ==> Ones(fs[0].padding) == t.value)
  }

  lemma NothingPadded(a: Aead, initialPadding: uint16, jitter: real)
    ensures PaddingRule(a, [], initialPadding, jitter)
  {
  }

  lemma RuleIsPadded(a: Aead, fs: seq<Frame>, initialPadding: uint16, jitter: real)
    requires PaddingRule(a, fs, initialPadding, jitter) && InitialPadding(initialPadding) && 0.0 <= jitter < 1.0
    ensures Padded(a, fs, initialPadding, jitter)
  {
    hide TargetOnes, Ones, Nonce;
    assert forall i :: 0 < i < |fs| ==> |fs[i].padding| == 0;
  }

  /** What a new writer puts on its connection in a run of calls. */
  method Transmit(keys: KeySchedule, salt: seq<byte>, jitter: real, ops: seq<Op>)
    returns (image: seq<byte>, ghost fs: seq<Frame>, ghost initialPadding: uint16)
    requires LawfulKeys(keys) && |salt| == SALT_SIZE && 0.0 <= jitter < 1.0
    ensures ValidFrames(fs) && image == WireImage(keys(salt), salt, fs)
    ensures InitialPadding(initialPadding) && Chunks(fs) == RunChunks(ops, FRESH, initialPadding)
    ensures Padded(keys(salt), fs, initialPadding, jitter)
  {
    hide RunChunks, Chunks, Padded, PaddingRule;
    var sink := new Sink();
    var w := new V4Writer(keys, sink, salt, jitter);
    NothingPadded(w.aead, w.initialPaddingLength, jitter);
    RunWriter(w, ops);
    image, fs, initialPadding := sink.data, w.frames, w.initialPaddingLength;
    RuleIsPadded(w.aead, fs, initialPadding, jitter);
  }

  /**
   * A connection from its first write to its last read: a new writer makes any run of calls, any part of what it sent
   * arrives, and a new reader makes any run of reads. It has got a prefix of what was asked for, and all of it once all
   * has arrived and the reads suffice.
   */
  method Transfer(keys: KeySchedule, salt: seq<byte>, jitter: real, ops: seq<Op>, cut: nat, sizes: seq<nat>)
    returns (sent: seq<byte>, got: seq<Item>, ghost fs: seq<Frame>, ghost initialPadding: uint16)
    requires LawfulKeys(keys) && |salt| == SALT_SIZE && 0.0 <= jitter < 1.0
    ensures ValidFrames(fs) && sent == WireImage(keys(salt), salt, fs)
    ensures InitialPadding(initialPadding) && Chunks(fs) == RunChunks(ops, FRESH, initialPadding)
    ensures Padded(keys(salt), fs, initialPadding, jitter)
    ensures got <= RunItems(ops)
    ensures cut >= |sent| && Enough(sizes, |RunItems(ops)|) ==> got == RunItems(ops)
  {
    hide WireImage, Chunks, RunChunks, RunItems, ReadRun, DecodeConnection, V4Reader.Incoming, Padded;
    sent, fs, initialPadding := Transmit(keys, salt, jitter, ops);
    got := Receive(keys, sent[..Min(cut, |sent|)], sizes);
    StreamFidelity(keys, salt, initialPadding, ops, fs, Min(cut, |sent|), sizes);
  }

  /** A new reader on these bytes. */
  method Receive(keys: KeySchedule, wire: seq<byte>, sizes: seq<nat>) returns (got: seq<Item>)
    ensures got == ReadRun(DecodeConnection(keys, wire), sizes).0
  {
    hide V4Reader.Incoming, DecodeConnection;
    var source := new Source(wire);
    var r := V4Reader.Open(keys, source);
    if r.Err? {
      if sizes != [] {
        FailedRun(DecodeConnection(keys, wire), sizes);
      }
      return [];
    }
    got := RunReader(r.value, sizes);
  }

  lemma FlattenPrefix(a: seq<Chunk>, b: seq<Chunk>)
    requires a <= b
    ensures Flatten(a) <= Flatten(b)
    ensures NoEmptyData(b) ==> NoEmptyData(a)
  {
    FlattenAppend(a, b[|a|..]);
    assert a + b[|a|..] == b;
  }

  /** The reader after n whole frames: its seal count and what is left. */
  function AfterFrames(a: Aead, k: nat, wire: seq<byte>, n: nat): Option<(nat, seq<byte>)>
    decreases n
  {
    if n == 0 then Some((k, wire))
    else match ReadFrame(a, k, wire)
      case Payload(_, rest, next) => AfterFrames(a, next, rest, n - 1)
      case Empty(rest, next) => AfterFrames(a, next, rest, n - 1)
      case Bad(_) => None
  }

  /** Lock step: at each frame boundary the reader's counter is the writer's after that frame. */
  lemma {:induction false} NonceLockStep(a: Aead, k: nat, fs: seq<Frame>, n: nat)
    requires Lawful(a) && ValidFrames(fs) && n <= |fs|
    ensures AfterFrames(a, k, Wire(a, k, fs), n) == Some((k + SealCount(fs[..n]), Wire(a, k + SealCount(fs[..n]), fs[n..])))
    decreases n
  {
    hide Encode, ReadFrame;
    if n > 0 {
      ReadFrameInverts(a, k, fs[0], Wire(a, k + fs[0].Seals(), fs[1..]));
      NonceLockStep(a, k + fs[0].Seals(), fs[1..], n - 1);
      assert fs[..n][1..] == fs[1..][..n - 1];
      assert fs[1..][n - 1..] == fs[n..];
    } else {
      assert fs[0..] == fs;
    }
  }

  /** A writer that has made at most 2^96 seals has used no nonce twice. */
  lemma SealsNeverRepeat(n: nat, i: nat, j: nat)
    requires i < j < n <= Pow256(NONCE_SIZE)
    ensures NonceLog(n)[i] != NonceLog(n)[j]
  {
    hide Nonce;
    NoncesDistinct(i, j);
  }

  /** The first frame of a burst, with salt and padding where they apply, fits 1460 bytes; a full one fills them. */
  lemma BurstStartFitsOnePacket(a: Aead, k: nat, f: Frame, initialPadding: uint16, times: seq<int>, i: nat)
    requires Lawful(a) && f.Valid() && InitialPadding(initialPadding)
    requires i < |times| && BurstStart(times, i) == i
    requires 0 < |f.payload| <= LimitAt(initialPadding, times, i)
    requires |f.padding| <= if i == 0 then initialPadding else 0
    ensures var onWire := (if i == 0 then SALT_SIZE else 0) + |Encode(a, k, f)|;
      && onWire <= FRAME_SIZE
      && (|f.payload| == LimitAt(initialPadding, times, i) && (i == 0 ==> |f.padding| == initialPadding)
          ==> onWire == FRAME_SIZE)
  {
    hide Encode;
    EncodedLength(a, k, f);
    LimitClosedForm(initialPadding, times, i);
  }

  /** On the wire of a padded first frame the ones are within the ratio bound, whenever the popcount branch applied. */
  lemma FirstFrameRatio(a: Aead, fs: seq<Frame>, initialPadding: uint16, jitter: real)
    requires PaddingRule(a, fs, initialPadding, jitter) && fs != [] && fs[0].padding != []
    requires 0.0 <= jitter < 1.0
    requires TargetOnes(a.seal(Nonce(1), fs[0].payload), |fs[0].padding|, jitter).Some?
    ensures var c := a.seal(Nonce(1), fs[0].payload);
      var ideal := IdealOnes(8 * (|fs[0].padding| + |c|), RatioOf(c, jitter));
      ideal - 1.0 < Ones(Body(a, 0, fs[0])) as real < ideal + 25.0
    ensures var c := a.seal(Nonce(1), fs[0].payload);
      var bits, ones := 8 * (|fs[0].padding| + |c|), Ones(Body(a, 0, fs[0]));
      if 2 * CountedOnes(c) > 8 * |c| then 2 * bits - 7 < 7 * ones && 3 * ones < bits + 75
      else 8 * bits - 13 < 13 * ones && 27 * ones < 17 * bits + 675
  {
    hide Nonce, Chosen, TargetOnes, Swapped, Ones, CountedOnes, RatioOf, IdealOnes;
    WireBands(a.seal(Nonce(1), fs[0].payload), fs[0].padding, jitter);
    WireRatio(a.seal(Nonce(1), fs[0].payload), fs[0].padding, jitter);
  }
}
