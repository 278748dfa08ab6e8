/** The QUIC envelope: a sealed header and a sealed request around the first packet of a flow. */
module Quic {
  import opened Bytes
  import opened Nonces
  import opened Frames

  const REQUEST_VERSION: byte := 1
  const REQUEST_COMMAND: byte := 1

  datatype Target = Target(host: seq<byte>, port: uint16)

  datatype QuicError =
    | EnvelopeTooShort
    | HeaderDecrypt
    | UnexpectedFrameType
    | PayloadTruncated
    | PayloadDecrypt
    | RequestTooShort
    | UnsupportedVersion
    | InvalidCommand
    | ClientIdOverruns
    | HostOverruns
    | InnerMissing

  /** AES-GCM opens a ciphertext to 16 bytes less, if it opens at all. */
  ghost predicate OpensToLength(keys: KeySchedule) {
    forall salt, n, c :: keys(salt).open(n, c).Some? ==> |keys(salt).open(n, c).value| + OVERHEAD == |c|
  }

  /** Target and inner packet of a decrypted request; total on every byte string. */
  function ParseQuicRequest(p: seq<byte>): Result<(Target, seq<byte>), QuicError> {
    if |p| < 5 then Err(RequestTooShort)
    else if p[0] != REQUEST_VERSION then Err(UnsupportedVersion)
    else if p[1] == 0 then Err(InvalidCommand)
    else
      var off := 3 + p[2] as int;
      if off + 1 > |p| then Err(ClientIdOverruns)
      else
        var host := off + 1;
        var port := host + p[off] as int;
        if port + 2 > |p| then Err(HostOverruns)
        else if p[port + 2..] == [] then Err(InnerMissing)
        else Ok((Target(p[host..port], FromBigEndian16(p[port..port + 2])), p[port + 2..]))
  }

  function DecodeEnvelope(keys: KeySchedule, packet: seq<byte>): Result<(Target, seq<byte>), QuicError>
    requires OpensToLength(keys)
  {
    if |packet| < SALT_SIZE + HEADER_CIPHER_SIZE + 16 then Err(EnvelopeTooShort)
    else
      var aead := keys(packet[..SALT_SIZE]);
      var rest := packet[SALT_SIZE..];
      var header := aead.open(Zeros(NONCE_SIZE), rest[..HEADER_CIPHER_SIZE]);
      if header.None? then Err(HeaderDecrypt)
      else if header.value[0] != FRAME_TYPE then Err(UnexpectedFrameType)
      else
        var start := HEADER_CIPHER_SIZE + FromBigEndian16(header.value[3..5]);
        var end := start + FromBigEndian16(header.value[5..7]) + OVERHEAD;
        if end > |rest| then Err(PayloadTruncated)
        else
          var payload := aead.open(LittleEndian(1, 8) + Zeros(4), rest[start..end]);
          if payload.None? then Err(PayloadDecrypt) else ParseQuicRequest(payload.value)
  }

  function RequestPayload(host: seq<byte>, port: uint16, inner: seq<byte>): seq<byte>
    requires |host| <= 255
  {
    [REQUEST_VERSION, REQUEST_COMMAND, 0, |host|] + host + BigEndian16(port) + inner
  }

  /** EncodeQUICEnvelope with the salt drawn; None where it returns an error. */
  function EncodeEnvelope(keys: KeySchedule, salt: seq<byte>, host: seq<byte>, port: uint16, inner: seq<byte>): (r: Option<seq<byte>>)
    ensures r.Some? <==> |host| <= 255 && inner != [] && 6 + |host| + |inner| <= 0xFFFF
  {
    if |host| > 255 || inner == [] then None
    else
      var payload := RequestPayload(host, port, inner);
      if |payload| > 0xFFFF then None
      else
        var aead := keys(salt);
        var header := [FRAME_TYPE, 0, 0, 0, 0] + BigEndian16(|payload|);
        Some(salt + aead.seal(Zeros(NONCE_SIZE), header) + aead.seal(LittleEndian(1, 8) + Zeros(4), payload))
  }

  /** The two nonces written out here are the first two of the transport's counter. */
  lemma DirectNonces()
    ensures Zeros(NONCE_SIZE) == Nonce(0)
    ensures LittleEndian(1, 8) + Zeros(4) == Nonce(1) == Increment(Nonce(0))
  {
    NonceStep(0);
  }

  lemma RequestRoundTrip(host: seq<byte>, port: uint16, inner: seq<byte>)
    requires |host| <= 255 && inner != []
    ensures ParseQuicRequest(RequestPayload(host, port, inner)) == Ok((Target(host, port), inner))
  {
    var p := RequestPayload(host, port, inner);
    var end := 4 + |host|;
    assert p[4..end] == host && p[end..end + 2] == BigEndian16(port) && p[end + 2..] == inner;
  }

  /** The request with any client ID and any command but 0. */
  function RequestBytes(command: byte, id: seq<byte>, host: seq<byte>, port: uint16, inner: seq<byte>): seq<byte>
    requires |id| <= 255 && |host| <= 255
  {
    [1, command, |id|] + id + [|host|] + host + BigEndian16(port) + inner
  }

  lemma RequestParses(command: byte, id: seq<byte>, host: seq<byte>, port: uint16, inner: seq<byte>)
    requires |id| <= 255 && |host| <= 255 && command != 0 && inner != []
    ensures ParseQuicRequest(RequestBytes(command, id, host, port, inner)) == Ok((Target(host, port), inner))
  {
    var p := RequestBytes(command, id, host, port, inner);
    var off := 3 + |id|;
    var end := off + 1 + |host|;
    assert p == ([1, command, |id|] + id) + ([|host|] + host + BigEndian16(port) + inner);
    assert p[off] == |host|;
    assert p[off + 1..end] == host && p[end..end + 2] == BigEndian16(port) && p[end + 2..] == inner;
  }

  /** Salt, sealed header, padding of any length, sealed payload, and whatever follows in the datagram. */
  function Envelope(keys: KeySchedule, salt: seq<byte>, padding: seq<byte>, payload: seq<byte>, more: seq<byte>): seq<byte>
    requires |padding| <= 0xFFFF && |payload| <= 0xFFFF
  {
    var aead := keys(salt);
    var header := [4, 0, 0] + BigEndian16(|padding|) + BigEndian16(|payload|);
    salt + aead.seal(Nonce(0), header) + padding + aead.seal(Nonce(1), payload) + more
  }

  /** The payload is found behind any padding, and is what the request is parsed from. */
  lemma EnvelopeParses(keys: KeySchedule, salt: seq<byte>, padding: seq<byte>, payload: seq<byte>, more: seq<byte>)
    requires LawfulKeys(keys) && OpensToLength(keys) && |salt| == SALT_SIZE
    requires |padding| <= 0xFFFF && |payload| <= 0xFFFF
    ensures DecodeEnvelope(keys, Envelope(keys, salt, padding, payload, more)) == ParseQuicRequest(payload)
  {
    hide ParseQuicRequest, LittleEndian, Nonce, Zeros, BigEndian16;
    DirectNonces();
    var aead := keys(salt);
    var header := [4, 0, 0] + BigEndian16(|padding|) + BigEndian16(|payload|);
    EnvelopeHeader(|padding|, |payload|);
    var hc, pc := aead.seal(Nonce(0), header), aead.seal(Nonce(1), payload);
    assert aead.open(Nonce(0), hc) == Some(header) && aead.open(Nonce(1), pc) == Some(payload);
    assert |hc| == 23 && |pc| == |payload| + OVERHEAD;
    var packet := Envelope(keys, salt, padding, payload, more);
    assert packet == salt + (hc + (padding + (pc + more)));
    SplitAppend(salt, hc + (padding + (pc + more)));
    EnvelopeSlices(hc, padding, pc, more);
  }

  lemma EnvelopeHeader(paddingLength: uint16, payloadLength: uint16)
    ensures var h := [4, 0, 0] + BigEndian16(paddingLength) + BigEndian16(payloadLength);
      |h| == 7 && FromBigEndian16(h[3..5]) == paddingLength && FromBigEndian16(h[5..7]) == payloadLength
  {
    var h := [4, 0, 0] + BigEndian16(paddingLength) + BigEndian16(payloadLength);
    assert h[3..5] == BigEndian16(paddingLength) && h[5..7] == BigEndian16(payloadLength);
  }

  lemma EnvelopeSlices(a: seq<byte>, b: seq<byte>, c: seq<byte>, d: seq<byte>)
    ensures var rest := a + (b + (c + d));
      rest[..|a|] == a && rest[|a| + |b|..|a| + |b| + |c|] == c
  {
    var rest := a + (b + (c + d));
    SplitAppend(a, b + (c + d));
    assert rest == (a + b) + (c + d);
    SliceBack(a + b, c + d, 0, |c|);
  }

  /** What the encoder sends is such an envelope, without padding, around such a request, without an ID. */
  lemma EncodedIsEnvelope(keys: KeySchedule, salt: seq<byte>, host: seq<byte>, port: uint16, inner: seq<byte>)
    requires EncodeEnvelope(keys, salt, host, port, inner).Some?
    ensures EncodeEnvelope(keys, salt, host, port, inner).value
      == Envelope(keys, salt, [], RequestBytes(1, [], host, port, inner), [])
  {
    hide LittleEndian, Nonce, Zeros;
    DirectNonces();
    var payload := RequestBytes(1, [], host, port, inner);
    assert RequestPayload(host, port, inner) == payload;
    assert [FRAME_TYPE, 0, 0, 0, 0] + BigEndian16(|payload|) == [4, 0, 0] + BigEndian16(0) + BigEndian16(|payload|);
  }

  /** Whatever was encoded successfully decodes to the same host, port and inner packet. */
  lemma EnvelopeRoundTrip(keys: KeySchedule, salt: seq<byte>, host: seq<byte>, port: uint16, inner: seq<byte>)
    requires LawfulKeys(keys) && OpensToLength(keys) && |salt| == SALT_SIZE
    requires EncodeEnvelope(keys, salt, host, port, inner).Some?
    ensures DecodeEnvelope(keys, EncodeEnvelope(keys, salt, host, port, inner).value) == Ok((Target(host, port), inner))
  {
    hide DecodeEnvelope, Envelope, ParseQuicRequest, RequestBytes;
    EncodedIsEnvelope(keys, salt, host, port, inner);
    RequestLength(host, port, inner);
    EnvelopeParses(keys, salt, [], RequestBytes(1, [], host, port, inner), []);
    RequestParses(1, [], host, port, inner);
  }

  lemma RequestLength(host: seq<byte>, port: uint16, inner: seq<byte>)
    requires |host| <= 255
    ensures |RequestBytes(1, [], host, port, inner)| == 6 + |host| + |inner|
  {
  }

  /** An accepted request is one the far side can have meant: its fields are where the format says, nothing is left out. */
  lemma AcceptedRequest(p: seq<byte>)
    requires ParseQuicRequest(p).Ok?
    ensures var (t, inner) := ParseQuicRequest(p).value;
      && inner != [] && |t.host| <= 255
      && exists id: seq<byte>, command: byte :: |id| <= 255 && command != 0
           && p == RequestBytes(command, id, t.host, t.port, inner)
  {
    var (t, inner) := ParseQuicRequest(p).value;
    var off := 3 + p[2] as int;
    var id := p[3..off];
    var host, port := off + 1, off + 1 + p[off] as int;
    SixParts(p[..3], id, [p[off]], p[host..port], p[port..port + 2], p[port + 2..], p);
    assert p[..3] == [1, p[1], |id|];
    assert p == RequestBytes(p[1], id, t.host, t.port, inner);
  }
}
