/** The transport carried inside the TLS-shaped disguise. */
module EndToEnd {
  import opened Bytes
  import opened Sockets
  import opened Streams
  import opened Frames
  import opened RecordSizing
  import opened FrameWriter
  import opened FrameReader
  import opened Fidelity
  import opened TlsObfs
  import opened TlsConns

  /**
   * Writes through the frame layer, the disguise, any part of the connection, any reads of the disguise and any reads
   * of the frame layer: the far side has got a prefix of what was sent; and once the disguise has been read until nothing
   * more comes, enough reads get exactly what was sent.
   */
  lemma DisguisedFidelity(side: Side, wire: seq<byte>, chunks: seq<seq<byte>>, cut: nat, trace: seq<ReadEvent>,
                          keys: KeySchedule, salt: seq<byte>, initialPadding: uint16, ops: seq<Op>, fs: seq<Frame>,
                          sizes: seq<nat>)
    requires LawfulKeys(keys) && |salt| == SALT_SIZE && InitialPadding(initialPadding)
    requires ValidFrames(fs) && Chunks(fs) == RunChunks(ops, FRESH, initialPadding)
    requires Sent(side, wire, chunks) && ChunkSized(chunks) && Joined(chunks) == WireImage(keys(salt), salt, fs)
    requires side.ToServer? ==> |side.name| <= EXTENSION_BUFFER
    requires cut <= |wire| && ReadTrace(side.ToServer?, Reader(0, Hello), wire[..cut], trace)
    ensures var got := ReadRun(DecodeConnection(keys, Returned(trace)), sizes).0;
      && got <= RunItems(ops)
      && (cut == |wire| && Exhausted(side.ToServer?, Reader(0, Hello), wire, trace) && Enough(sizes, |RunItems(ops)|)
          ==> got == RunItems(ops))
  {
    hide Sent, ReadTrace, Exhausted, Joined, Returned, WireImage, DecodeConnection, ReadRun, RunItems, RunChunks;
    RoundTrip(side, wire, chunks, cut, trace);
    var image := WireImage(keys(salt), salt, fs);
    var n := |Returned(trace)|;
    assert image[..n] == Returned(trace);
    StreamFidelity(keys, salt, initialPadding, ops, fs, n, sizes);
  }

  /**
   * From client to server with nothing left out: a new writer makes any run of calls, a new disguise sends what it
   * wrote in any parts, any part of that arrives, the far disguise is read with any buffers and any short reads, and a
   * new reader reads what it returned. The reader has got a prefix of what was asked for; and all of it once all has
   * arrived, with one more buffer for the disguise than there are bytes at the most, and enough reads of the frames.
   */
  method ClientToServer(keys: KeySchedule, salt: seq<byte>, jitter: real, name: seq<byte>, draws: Draws, ops: seq<Op>,
                        cut: nat, buffers: seq<nat>, sizes: seq<nat>)
    returns (image: seq<byte>, sent: seq<byte>, got: seq<Item>, ghost fs: seq<Frame>, ghost initialPadding: uint16)
    requires LawfulKeys(keys) && |salt| == SALT_SIZE && 0.0 <= jitter < 1.0
    requires |name| <= EXTENSION_BUFFER && draws.Valid()
    ensures ValidFrames(fs) && image == WireImage(keys(salt), salt, fs)
    ensures InitialPadding(initialPadding) && Chunks(fs) == RunChunks(ops, FRESH, initialPadding)
    ensures exists chunks :: Sent(ToServer(name), sent, chunks) && ChunkSized(chunks) && Joined(chunks) == image
    ensures got <= RunItems(ops)
    ensures cut >= |sent| && Enough(buffers, |image| + 1) && Enough(sizes, |RunItems(ops)|) ==> got == RunItems(ops)
  {
    hide Sent, ReadTrace, Exhausted, Joined, Returned, WireImage, DecodeConnection, ReadRun, RunItems, RunChunks, NamesFit;
    image, fs, initialPadding := Transmit(keys, salt, jitter, ops);
    var idle := new Source([]);
    var line := new Sink();
    var near := new TlsObfsClient(idle, line, name);
    NothingJoined();
    SendToServer(near, image, draws);
    assert near.Sending();
    sent := line.data;
    ghost var chunks, arrived := near.chunks, Min(cut, |sent|);
    SentNamesFit(sent, chunks, name, arrived);
    var source := new Source(sent[..Min(cut, |sent|)]);
    var back := new Sink();
    var far := new TlsObfsServer(source, back);
    var bytes, trace := ReadOnServer(far, buffers);
    got := Receive(keys, bytes, sizes);
    RoundTrip(ToServer(name), sent, chunks, arrived, trace);
    DisguisedFidelity(ToServer(name), sent, chunks, arrived, trace, keys, salt, initialPadding, ops, fs, sizes);
    assert cut >= |sent| ==> sent[..arrived] == sent;
  }

  lemma NothingJoined()
    ensures Joined([]) == []
  {
  }

  /** The same from server to client. */
  method ServerToClient(keys: KeySchedule, salt: seq<byte>, jitter: real, name: seq<byte>, draws: Draws, ops: seq<Op>,
                        cut: nat, buffers: seq<nat>, sizes: seq<nat>)
    returns (image: seq<byte>, sent: seq<byte>, got: seq<Item>, ghost fs: seq<Frame>, ghost initialPadding: uint16)
    requires LawfulKeys(keys) && |salt| == SALT_SIZE && 0.0 <= jitter < 1.0
    requires draws.Valid()
    ensures ValidFrames(fs) && image == WireImage(keys(salt), salt, fs)
    ensures InitialPadding(initialPadding) && Chunks(fs) == RunChunks(ops, FRESH, initialPadding)
    ensures exists chunks :: Sent(ToClient, sent, chunks) && ChunkSized(chunks) && Joined(chunks) == image
    ensures got <= RunItems(ops)
    ensures cut >= |sent| && Enough(buffers, |image| + 1) && Enough(sizes, |RunItems(ops)|) ==> got == RunItems(ops)
  {
    hide Sent, ReadTrace, Exhausted, Joined, Returned, WireImage, DecodeConnection, ReadRun, RunItems, RunChunks;
    image, fs, initialPadding := Transmit(keys, salt, jitter, ops);
    var idle := new Source([]);
    var line := new Sink();
    var near := new TlsObfsServer(idle, line);
    NothingJoined();
    SendToClient(near, image, draws);
    assert near.Sending();
    sent := line.data;
    ghost var chunks, arrived := near.chunks, Min(cut, |sent|);
    var source := new Source(sent[..Min(cut, |sent|)]);
    var back := new Sink();
    var far := new TlsObfsClient(source, back, name);
    var bytes, trace := ReadOnClient(far, buffers);
    got := Receive(keys, bytes, sizes);
    RoundTrip(ToClient, sent, chunks, arrived, trace);
    DisguisedFidelity(ToClient, sent, chunks, arrived, trace, keys, salt, initialPadding, ops, fs, sizes);
    assert cut >= |sent| ==> sent[..arrived] == sent;
  }
}
