/** The byte queues below the transport: short writes, fragmented reads, and the full-length helpers over them. */
module Sockets {
  import opened Bytes
  import opened Streams
  import opened Frames

  /** Where a connection's bytes go. A write may take any non-empty prefix. */
  class Sink {
    var data: seq<byte>

    constructor ()
      ensures data == []
    {
      data := [];
    }

    method Write(p: seq<byte>) returns (n: nat)
      requires p != []
      modifies this
      ensures 0 < n <= |p| && data == old(data) + p[..n]
    {
      n :| 0 < n <= |p|;
      data := data + p[..n];
    }
  }

  /** Where a connection's bytes come from. A read yields any non-empty part of what is asked for, or end of stream. */
  class Source {
    var data: seq<byte>

    constructor (data: seq<byte>)
      ensures this.data == data
    {
      this.data := data;
    }

    method Read(n: nat) returns (b: seq<byte>, eof: bool)
      requires n > 0
      modifies this
      ensures eof <==> old(data) == []
      ensures !eof ==> 0 < |b| <= n
      ensures eof ==> b == []
      ensures old(data) == b + data
    {
      if data == [] {
        return [], true;
      }
      var m :| 0 < m <= n && m <= |data|;
      b, eof := data[..m], false;
      data := data[m..];
    }
  }

  /** writeFull: the whole of p reaches the sink in order, however the sink splits it. */
  method WriteFull(sink: Sink, p: seq<byte>)
    modifies sink
    ensures sink.data == old(sink.data) + p
  {
    var rest := p;
    while rest != []
      invariant sink.data + rest == old(sink.data) + p
      decreases |rest|
    {
      var n := sink.Write(rest);
      assert rest == rest[..n] + rest[n..];
      rest := rest[n..];
    }
  }

  /** io.ReadFull: exactly n bytes from the front, or an error saying whether any were there. */
  method ReadFull(source: Source, n: nat) returns (r: Result<seq<byte>, ReadError>)
    modifies source
    ensures |old(source.data)| >= n ==> r == Ok(old(source.data)[..n]) && source.data == old(source.data)[n..]
    ensures |old(source.data)| < n ==> r == Err(Starved(|old(source.data)|)) && source.data == []
  {
    var got: seq<byte> := [];
    while |got| < n
      invariant |got| <= n
      invariant got + source.data == old(source.data)
      decreases n - |got|
    {
      var b, eof := source.Read(n - |got|);
      if eof {
        return Err(Starved(|got|));
      }
      got := got + b;
    }
    return Ok(got);
  }
}
