/** What one direction of a snell transport carries once frames are opened: runs of bytes and zero chunks. */
module Streams {
  import opened Bytes

  /** The payload of one frame; `Zero` is the empty frame that signals half-close. */
  datatype Chunk = Data(bytes: seq<byte>) | Zero

  /** Frame boundaries forgotten: what a byte-stream reader can observe. */
  datatype Item = Byte(b: byte) | ZeroChunk

  datatype ReadError = EndOfStream | UnexpectedEnd | AuthFailed | BadHeader | PaddedZeroChunk | FrameTooLarge

  /** Everything still to be read, and the error a reader meets after it. */
  datatype Stream = Stream(chunks: seq<Chunk>, end: ReadError)

  datatype ReadResult = Got(bytes: seq<byte>) | HalfClosed | Failed(error: ReadError)

  function Items(b: seq<byte>): (r: seq<Item>)
    ensures |r| == |b|
  {
    seq(|b|, i requires 0 <= i < |b| => Byte(b[i]))
  }

  function ChunkItems(c: Chunk): seq<Item> {
    match c
    case Data(b) => Items(b)
    case Zero => [ZeroChunk]
  }

  function Flatten(chunks: seq<Chunk>): seq<Item> {
    if chunks == [] then [] else ChunkItems(chunks[0]) + Flatten(chunks[1..])
  }

  /** No data chunk is empty. */
  predicate NoEmptyData(chunks: seq<Chunk>) {
    forall c <- chunks :: c.Data? ==> c.bytes != []
  }

  /** One Read with an n-byte buffer: never more than the rest of one frame, never past a zero chunk. */
  function TakeRead(s: Stream, n: nat): (ReadResult, Stream) {
    if s.chunks == [] then (Failed(s.end), s)
    else match s.chunks[0]
      case Zero => (HalfClosed, s.(chunks := s.chunks[1..]))
      case Data(b) =>
        if n < |b| then (Got(b[..n]), s.(chunks := [Data(b[n..])] + s.chunks[1..]))
        else (Got(b), s.(chunks := s.chunks[1..]))
  }

  /** A Read fills its buffer as far as the rest of one frame goes, whatever follows. */
  lemma TakeReadFills(b: seq<byte>, more: seq<Chunk>, end: ReadError, n: nat)
    ensures var (r, s) := TakeRead(Stream([Data(b)] + more, end), n);
      && r.Got? && |r.bytes| == Min(n, |b|) && r.bytes <= b
      && s == Stream(if n < |b| then [Data(b[n..])] + more else more, end)
    ensures TakeRead(Stream([Zero] + more, end), n) == (HalfClosed, Stream(more, end))
    ensures TakeRead(Stream([], end), n) == (Failed(end), Stream([], end))
  {
    assert ([Data(b)] + more)[1..] == more && ([Zero] + more)[1..] == more;
  }

  function ResultItems(r: ReadResult): seq<Item> {
    match r
    case Got(b) => Items(b)
    case HalfClosed => [ZeroChunk]
    case Failed(_) => []
  }

  /** At least n reads, each with a real buffer. */
  predicate Enough(sizes: seq<nat>, n: nat) {
    |sizes| >= n && forall i :: 0 <= i < |sizes| ==> sizes[i] > 0
  }

  /** What a caller collects from Reads with the given buffer sizes, and what is left. */
  function ReadRun(s: Stream, sizes: seq<nat>): (seq<Item>, Stream)
    decreases |sizes|
  {
    if sizes == [] then ([], s)
    else
      var (r, s') := TakeRead(s, sizes[0]);
      var (rest, s'') := ReadRun(s', sizes[1..]);
      (ResultItems(r) + rest, s'')
  }

  lemma {:induction false} FlattenAppend(a: seq<Chunk>, b: seq<Chunk>)
    ensures Flatten(a + b) == Flatten(a) + Flatten(b)
  {
    hide ChunkItems;
    if a == [] {
      assert a + b == b;
    } else {
      FlattenAppend(a[1..], b);
      assert (a + b)[1..] == a[1..] + b;
      var x, y, z := ChunkItems(a[0]), Flatten(a[1..]), Flatten(b);
      assert Flatten(a + b) == x + (y + z);
      assert x + (y + z) == (x + y) + z;
    }
  }

  lemma ItemsAppend(a: seq<byte>, b: seq<byte>)
    ensures Items(a + b) == Items(a) + Items(b)
  {
  }

  /** One byte off the front. */
  lemma ItemsTail(b: seq<byte>, rest: seq<Item>)
    requires b != []
    ensures var p := Items(b) + rest; p[0] == Byte(b[0]) && p[1..] == Items(b[1..]) + rest
  {
    DropAppend(Items(b), rest, 1);
    assert Items(b)[1..] == Items(b[1..]);
  }

  lemma ItemsInjective(a: seq<byte>, b: seq<byte>)
    requires Items(a) == Items(b)
    ensures a == b
  {
    forall i | 0 <= i < |a| ensures a[i] == b[i] {
      assert Items(a)[i] == Items(b)[i];
    }
  }

  lemma ItemsPrefix(x: seq<byte>, rest: seq<Item>, b: seq<byte>, more: seq<Item>)
    requires Items(x) + rest == Items(b) + more && |x| <= |b|
    ensures x == b[..|x|] && rest == Items(b[|x|..]) + more
  {
    var all := Items(b) + more;
    assert Items(x) == all[..|x|] == Items(b)[..|x|];
    assert Items(b)[..|x|] == Items(b[..|x|]);
    ItemsInjective(x, b[..|x|]);
    assert rest == all[|x|..] == Items(b)[|x|..] + more;
    assert Items(b)[|x|..] == Items(b[|x|..]);
  }

  lemma TakeReadConserves(s: Stream, n: nat)
    ensures var (r, s') := TakeRead(s, n);
      && ResultItems(r) + Flatten(s'.chunks) == Flatten(s.chunks)
      && s'.end == s.end
      && (NoEmptyData(s.chunks) ==> NoEmptyData(s'.chunks))
  {
    if s.chunks != [] && s.chunks[0].Data? && n < |s.chunks[0].bytes| {
      var b := s.chunks[0].bytes;
      ItemsAppend(b[..n], b[n..]);
      assert b[..n] + b[n..] == b;
      var s' := TakeRead(s, n).1;
      assert s'.chunks[1..] == s.chunks[1..];
      assert Flatten(s'.chunks) == Items(b[n..]) + Flatten(s.chunks[1..]);
    }
  }

  /** Reads with any buffer sizes deliver the stream in order, losing and repeating nothing. */
  lemma {:induction false} ReadsConserve(s: Stream, sizes: seq<nat>)
    ensures var (got, s') := ReadRun(s, sizes);
      && got + Flatten(s'.chunks) == Flatten(s.chunks)
      && s'.end == s.end
      && (NoEmptyData(s.chunks) ==> NoEmptyData(s'.chunks))
    decreases |sizes|
  {
    if sizes != [] {
      TakeReadConserves(s, sizes[0]);
      ReadsConserve(TakeRead(s, sizes[0]).1, sizes[1..]);
    }
  }

  /** Every Read with a non-empty buffer makes progress until nothing is left. */
  lemma {:induction false} ReadsProgress(s: Stream, sizes: seq<nat>)
    requires NoEmptyData(s.chunks)
    requires forall i :: 0 <= i < |sizes| ==> sizes[i] > 0
    ensures |ReadRun(s, sizes).0| >= Min(|sizes|, |Flatten(s.chunks)|)
    decreases |sizes|
  {
    if sizes != [] {
      TakeReadConserves(s, sizes[0]);
      var (r, s') := TakeRead(s, sizes[0]);
      ReadsProgress(s', sizes[1..]);
      assert s.chunks != [] ==> |ResultItems(r)| > 0;
    }
  }
}
