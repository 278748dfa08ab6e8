/** UDP over the transport: one datagram per frame, with its address in front. */
module Datagrams {
  import opened Bytes
  import opened Streams
  import opened Frames
  import opened RecordSizing
  import opened FrameWriter
  import opened FrameReader
  import opened Socks5

  const COMMAND_UDP_FORWARD: byte := 1
  const WIRE_IPV4: byte := 4
  const WIRE_IPV6: byte := 6

  datatype Destination = ToHost(host: seq<byte>) | ToIp(ip: Ip)
  datatype UdpRequest = UdpRequest(to: Destination, port: uint16, payload: seq<byte>)
  datatype ParseError = InvalidRequest | InvalidDomain | InvalidIp | InvalidIpv4 | InvalidIpv6 | InvalidAddressType

  function ParseUdpRequest(packet: seq<byte>): Result<UdpRequest, ParseError> {
    if |packet| < 2 || packet[0] != COMMAND_UDP_FORWARD then Err(InvalidRequest)
    else if packet[1] != 0 then
      var offset := 2 + packet[1] as int;
      if |packet| <= offset + 2 then Err(InvalidDomain)
      else Ok(UdpRequest(ToHost(packet[2..offset]), FromBigEndian16(packet[offset..offset + 2]), packet[offset + 2..]))
    else if |packet| < 3 then Err(InvalidIp)
    else if packet[2] == WIRE_IPV4 then
      if |packet| < 3 + IPV4_LEN + 2 then Err(InvalidIpv4)
      else Ok(UdpRequest(ToIp(Unmap(packet[3..7])), FromBigEndian16(packet[7..9]), packet[9..]))
    else if packet[2] == WIRE_IPV6 then
      if |packet| < 3 + IPV6_LEN + 2 then Err(InvalidIpv6)
      else Ok(UdpRequest(ToIp(Unmap(packet[3..19])), FromBigEndian16(packet[19..21]), packet[21..]))
    else Err(InvalidAddressType)
  }

  /** The encoded header length for a SOCKS address, or more than any frame holds. */
  function UdpHeaderLength(a: Addr): nat {
    if a == [] then MAX_PAYLOAD_LENGTH + 1
    else if a[0] == ATYP_DOMAIN then (if |a| < 2 then MAX_PAYLOAD_LENGTH + 1 else 1 + 1 + a[1] as int + 2)
    else if a[0] == ATYP_IPV4 then 1 + 2 + IPV4_LEN + 2
    else if a[0] == ATYP_IPV6 then 1 + 2 + IPV6_LEN + 2
    else MAX_PAYLOAD_LENGTH + 1
  }

  datatype SendError = AddressTooLarge | PayloadTooLarge | AddressInvalid

  /** The frame payload WritePacket hands to the transport. */
  function EncodeRequest(a: Addr, payload: seq<byte>): Result<seq<byte>, SendError> {
    var maxPayload := MAX_PAYLOAD_LENGTH - UdpHeaderLength(a);
    if maxPayload <= 0 then Err(AddressTooLarge)
    else if |payload| > maxPayload then Err(PayloadTooLarge)
    else if a[0] == ATYP_DOMAIN then
      var n := 1 + 1 + a[1] as int + 2;
      if |a| < n then Err(AddressInvalid) else Ok([COMMAND_UDP_FORWARD] + a[1..n] + payload)
    else if a[0] == ATYP_IPV4 then
      if |a| < 1 + IPV4_LEN + 2 then Err(AddressInvalid)
      else Ok([COMMAND_UDP_FORWARD, 0, WIRE_IPV4] + a[1..7] + payload)
    else
      if |a| < 1 + IPV6_LEN + 2 then Err(AddressInvalid)
      else Ok([COMMAND_UDP_FORWARD, 0, WIRE_IPV6] + a[1..19] + payload)
  }

  // ---- The request format, byte by byte ----

  /** What goes out for each kind of address. */
  lemma RequestFormat(host: seq<byte>, ip: Ip, port: uint16, payload: seq<byte>)
    requires |host| <= 255
    ensures var b := [1, |host|] + host + BigEndian16(port) + payload;
      EncodeRequest([3, |host|] + host + BigEndian16(port), payload) == if |b| <= 16383 then Ok(b) else Err(PayloadTooLarge)
    ensures var b := [1, 0, if |ip| == 4 then 4 else 6] + ip + BigEndian16(port) + payload;
      EncodeRequest([if |ip| == 4 then 1 else 4] + ip + BigEndian16(port), payload)
      == if |b| <= 16383 then Ok(b) else Err(PayloadTooLarge)
  {
    HostFormat(host, port, payload);
    IpFormat(ip, port, payload);
  }

  lemma HostFormat(host: seq<byte>, port: uint16, payload: seq<byte>)
    requires |host| <= 255
    ensures var b := [1, |host|] + host + BigEndian16(port) + payload;
      EncodeRequest([3, |host|] + host + BigEndian16(port), payload) == if |b| <= 16383 then Ok(b) else Err(PayloadTooLarge)
  {
    hide BigEndian16;
    var a, tail := [3, |host|] + host + BigEndian16(port), [|host|] + host + BigEndian16(port);
    assert a == [3] + tail;
    assert a[1..4 + |host|] == tail;
    assert [1, |host|] + host + BigEndian16(port) + payload == [1] + tail + payload;
  }

  lemma IpFormat(ip: Ip, port: uint16, payload: seq<byte>)
    ensures var b := [1, 0, if |ip| == 4 then 4 else 6] + ip + BigEndian16(port) + payload;
      EncodeRequest([if |ip| == 4 then 1 else 4] + ip + BigEndian16(port), payload)
      == if |b| <= 16383 then Ok(b) else Err(PayloadTooLarge)
  {
    hide BigEndian16;
    var kind := if |ip| == 4 then 1 else 4;
    var a, tail := [kind] + ip + BigEndian16(port), ip + BigEndian16(port);
    assert a == [kind] + tail;
    assert a[1..3 + |ip|] == tail;
    var head := [1, 0, if |ip| == 4 then 4 else 6];
    assert head + ip + BigEndian16(port) + payload == head + tail + payload;
  }

  /** What the server makes of each. */
  lemma RequestParses(host: seq<byte>, ip: Ip, port: uint16, payload: seq<byte>)
    requires |host| <= 255
    ensures host != [] && payload != [] ==>
      ParseUdpRequest([1, |host|] + host + BigEndian16(port) + payload) == Ok(UdpRequest(ToHost(host), port, payload))
    ensures ParseUdpRequest([1, 0, if |ip| == 4 then 4 else 6] + ip + BigEndian16(port) + payload)
      == Ok(UdpRequest(ToIp(Unmap(ip)), port, payload))
  {
    hide Unmap;
    var d := [1, |host|] + host + BigEndian16(port) + payload;
    var n := 2 + |host|;
    assert d[2..n] == host && d[n..n + 2] == BigEndian16(port) && d[n + 2..] == payload;
    ParsesIp(ip, port, payload);
  }

  lemma ParsesIp(ip: Ip, port: uint16, payload: seq<byte>)
    ensures ParseUdpRequest([1, 0, if |ip| == 4 then 4 else 6] + ip + BigEndian16(port) + payload)
      == Ok(UdpRequest(ToIp(Unmap(ip)), port, payload))
  {
    hide Unmap;
    var kind := if |ip| == 4 then 4 else 6;
    var b := [1, 0, kind] + ip + BigEndian16(port) + payload;
    var n := 3 + |ip|;
    assert b[3..n] == ip && b[n..n + 2] == BigEndian16(port) && b[n + 2..] == payload;
  }

  /** The server holds a v4-mapped address as IPv4, and any other as it came. */
  lemma ServerUnmaps(v: V4, ip: Ip, port: uint16, payload: seq<byte>)
    requires |ip| == 16 && !IsMapped(ip)
    ensures ParseUdpRequest([1, 0, 4] + v + BigEndian16(port) + payload) == Ok(UdpRequest(ToIp(v), port, payload))
    ensures ParseUdpRequest([1, 0, 6] + Mapped(v) + BigEndian16(port) + payload) == Ok(UdpRequest(ToIp(v), port, payload))
    ensures ParseUdpRequest([1, 0, 6] + ip + BigEndian16(port) + payload) == Ok(UdpRequest(ToIp(ip), port, payload))
  {
    hide ParseUdpRequest, Unmap;
    UnmapMapped(v);
    UnmapOther(ip);
    ParsesIp(v, port, payload);
    ParsesIp(Mapped(v), port, payload);
    ParsesIp(ip, port, payload);
  }

  /** Nothing else is accepted. */
  lemma AcceptedIsFormat(b: seq<byte>)
    requires ParseUdpRequest(b).Ok?
    ensures var r := ParseUdpRequest(b).value;
      match r.to
      case ToHost(host) =>
        0 < |host| <= 255 && r.payload != [] && b == [1, |host|] + host + BigEndian16(r.port) + r.payload
      case ToIp(ip) => exists raw: Ip ::
        ip == Unmap(raw) && b == [1, 0, if |raw| == 4 then 4 else 6] + raw + BigEndian16(r.port) + r.payload
  {
    hide Unmap;
    var r := ParseUdpRequest(b).value;
    if b[1] != 0 {
      var n := 2 + b[1] as int;
      SixParts(b[..2], b[2..n], b[n..n + 2], b[n + 2..], [], [], b);
      assert b[..2] == [1, |r.to.host|];
    } else {
      var raw: Ip := if b[2] == WIRE_IPV4 then b[3..7] else b[3..19];
      var n := 3 + |raw|;
      SixParts(b[..3], raw, b[n..n + 2], b[n + 2..], [], [], b);
      assert b[..3] == [1, 0, if |raw| == 4 then 4 else 6];
      assert b == [1, 0, if |raw| == 4 then 4 else 6] + raw + BigEndian16(r.port) + r.payload;
    }
  }

  /** And why the others are refused, exactly. */
  lemma RequestRefused(b: seq<byte>)
    ensures var r := ParseUdpRequest(b);
      && (r == Err(InvalidRequest) <==> |b| < 2 || b[0] != 1)
      && (r == Err(InvalidDomain) <==> |b| >= 2 && b[0] == 1 && b[1] != 0 && |b| <= 4 + b[1] as int)
      && (r == Err(InvalidIp) <==> |b| == 2 && b[0] == 1 && b[1] == 0)
      && (r == Err(InvalidAddressType) <==> |b| >= 3 && b[0] == 1 && b[1] == 0 && b[2] != 4 && b[2] != 6)
      && (r == Err(InvalidIpv4) <==> 3 <= |b| < 9 && b[0] == 1 && b[1] == 0 && b[2] == 4)
      && (r == Err(InvalidIpv6) <==> 3 <= |b| < 21 && b[0] == 1 && b[1] == 0 && b[2] == 6)
  {
    hide Unmap;
  }

  /** What the far side should make of a datagram to this address. */
  function Expected(a: Addr, payload: seq<byte>): UdpRequest
    requires ValidAddr(a)
  {
    if IsIp(a) then
      var u := ToUdpAddr(a).value;
      UdpRequest(ToIp(Unmap(u.ip)), u.port, payload)
    else UdpRequest(ToHost(a[2..|a| - 2]), FromBigEndian16(a[|a| - 2..]), payload)
  }

  /** A whole address is accepted exactly when header and payload fit one frame; what is accepted is that long. */
  lemma EncodedRequestFits(a: Addr, payload: seq<byte>)
    ensures ValidAddr(a) ==> (EncodeRequest(a, payload).Ok? <==> UdpHeaderLength(a) + |payload| <= MAX_PAYLOAD_LENGTH)
    ensures EncodeRequest(a, payload).Ok? ==>
      0 < |EncodeRequest(a, payload).value| == UdpHeaderLength(a) + |payload| <= MAX_PAYLOAD_LENGTH
  {
  }

  /**
   * The server recovers the destination, port and payload the client sent, a v4-mapped address as IPv4, exactly when
   * the destination is an IP or the host name and the payload are both non-empty.
   */
  lemma RequestRoundTrip(a: Addr, payload: seq<byte>)
    requires ValidAddr(a) && EncodeRequest(a, payload).Ok?
    ensures ParseUdpRequest(EncodeRequest(a, payload).value) == Ok(Expected(a, payload))
      <==> IsIp(a) || (a[1] != 0 && payload != [])
  {
    if a[0] == ATYP_IPV4 {
      RoundTripV4(a, payload);
    } else if a[0] == ATYP_IPV6 {
      RoundTripV6(a, payload);
    } else {
      RoundTripHost(a, payload);
    }
  }

  lemma RoundTripV4(a: Addr, payload: seq<byte>)
    requires ValidAddr(a) && a[0] == ATYP_IPV4 && EncodeRequest(a, payload).Ok?
    ensures ParseUdpRequest(EncodeRequest(a, payload).value) == Ok(Expected(a, payload))
  {
    hide Unmap;
    var b := EncodeRequest(a, payload).value;
    assert b[3..7] == a[1..5] && b[7..9] == a[5..7] && b[9..] == payload;
  }

  lemma RoundTripV6(a: Addr, payload: seq<byte>)
    requires ValidAddr(a) && a[0] == ATYP_IPV6 && EncodeRequest(a, payload).Ok?
    ensures ParseUdpRequest(EncodeRequest(a, payload).value) == Ok(Expected(a, payload))
  {
    hide Unmap;
    var b := EncodeRequest(a, payload).value;
    assert b[3..19] == a[1..17] && b[19..21] == a[17..19] && b[21..] == payload;
  }

  lemma RoundTripHost(a: Addr, payload: seq<byte>)
    requires ValidAddr(a) && a[0] == ATYP_DOMAIN && EncodeRequest(a, payload).Ok?
    ensures ParseUdpRequest(EncodeRequest(a, payload).value) == Ok(Expected(a, payload)) <==> a[1] != 0 && payload != []
  {
    var b := EncodeRequest(a, payload).value;
    var n := 2 + a[1] as int;
    assert b[1] == a[1];
    assert b[2..n] == a[2..n] && b[n..n + 2] == a[n..n + 2] && b[n + 2..] == payload;
  }

  /** writeUDPRequest under WritePacket: refused, or one frame. */
  method WritePacket(w: V4Writer, a: Addr, payload: seq<byte>) returns (r: Result<nat, SendError>)
    requires w.Valid() && Lawful(w.aead) && PaddingRule(w.aead, w.frames, w.initialPaddingLength, w.jitter)
    modifies w, w.nonce, w.sink
    ensures w.Valid() && PaddingRule(w.aead, w.frames, w.initialPaddingLength, w.jitter)
    ensures match EncodeRequest(a, payload)
      case Ok(b) => r == Ok(|payload|) && Chunks(w.frames) == old(Chunks(w.frames)) + [Data(b)]
      case Err(e) => r == Err(e) && Chunks(w.frames) == old(Chunks(w.frames))
  {
    hide V4Writer.Valid, PaddingRule, Lawful, Chunks;
    EncodedRequestFits(a, payload);
    var b := EncodeRequest(a, payload);
    if b.Err? {
      return Err(b.error);
    }
    var err := w.WritePacketFrame(b.value);
    r := Ok(|payload|);
  }

  /** A datagram frame is read back whole by one Read with the server's buffer, and the next Read starts at the next frame. */
  lemma DatagramIsOneRead(b: seq<byte>, s: Stream)
    requires 0 < |b| <= MAX_PAYLOAD_LENGTH
    ensures TakeRead(Prepend(Data(b), s), MAX_PAYLOAD_LENGTH) == (Got(b), s)
  {
    assert Prepend(Data(b), s).chunks[1..] == s.chunks;
  }

  /** From an accepted packet to the server's view of it, over any stream. */
  lemma DatagramDelivered(a: Addr, payload: seq<byte>, s: Stream)
    requires ValidAddr(a) && EncodeRequest(a, payload).Ok?
    requires IsIp(a) || (a[1] != 0 && payload != [])
    ensures var (r, s') := TakeRead(Prepend(Data(EncodeRequest(a, payload).value), s), MAX_PAYLOAD_LENGTH);
      r.Got? && s' == s && ParseUdpRequest(r.bytes) == Ok(Expected(a, payload))
  {
    hide EncodeRequest, ParseUdpRequest;
    EncodedRequestFits(a, payload);
    RequestRoundTrip(a, payload);
    DatagramIsOneRead(EncodeRequest(a, payload).value, s);
  }

  /** A SOCKS5 UDP packet with an IP destination, from the local client to the server's view of it. */
  lemma SocksToServer(packet: seq<byte>)
    ensures match DecodeUdpPacket(packet)
      case Err(_) => true
      case Ok((a, payload)) =>
        ValidAddr(a) &&
        (IsIp(a) ==>
          var u := ToUdpAddr(a).value;
          var out := FromUdpAddr(u);
          && (EncodeRequest(out, payload).Ok? <==> UdpHeaderLength(out) + |payload| <= MAX_PAYLOAD_LENGTH)
          && (EncodeRequest(out, payload).Ok? ==>
                ParseUdpRequest(EncodeRequest(out, payload).value) == Ok(UdpRequest(ToIp(Unmap(u.ip)), u.port, payload))))
  {
    hide EncodeRequest, ParseUdpRequest, FromUdpAddr, UdpHeaderLength, Unmap;
    PacketAcceptedIsEncoded(packet);
    match DecodeUdpPacket(packet)
    case Err(_) =>
    case Ok((a, payload)) =>
      if IsIp(a) {
        var u := ToUdpAddr(a).value;
        var out := FromUdpAddr(u);
        EncodedRequestFits(out, payload);
        UdpAddrRoundTrip(u);
        UnmapOnce(u.ip);
        if EncodeRequest(out, payload).Ok? {
          RequestRoundTrip(out, payload);
        }
      }
  }

  /**
   * The same in bytes: a packet for an IPv4 address, short or v4-mapped, is for that IPv4 address at the server, and one
   * for any other IPv6 address for that one.
   */
  lemma SocksToServerBytes(v: V4, ip: Ip, port: uint16, payload: seq<byte>)
    requires |ip| == 16 && !IsMapped(ip) && 21 + |payload| <= 16383
    ensures forall a <- [[1] + v + BigEndian16(port), [4] + Mapped(v) + BigEndian16(port)] :: Forwarded(a, v, port, payload)
    ensures Forwarded([4] + ip + BigEndian16(port), ip, port, payload)
  {
    hide Forwarded, Unmap;
    UnmapMapped(v);
    UnmapOther(ip);
    ForwardsIp(v, port, payload);
    ForwardsIp(Mapped(v), port, payload);
    ForwardsIp(ip, port, payload);
  }

  /** A SOCKS5 packet for a, on its way: what it decodes to, is sent as, and is to the server. */
  predicate Forwarded(a: Addr, ip: Ip, port: uint16, payload: seq<byte>) {
    && DecodeUdpPacket([0, 0, 0] + a + payload) == Ok((a, payload))
    && ValidAddr(a) && IsIp(a)
    && var sent := EncodeRequest(FromUdpAddr(ToUdpAddr(a).value), payload);
       sent.Ok? && ParseUdpRequest(sent.value) == Ok(UdpRequest(ToIp(ip), port, payload))
  }

  lemma ForwardsIp(raw: Ip, port: uint16, payload: seq<byte>)
    requires 21 + |payload| <= 16383
    ensures Forwarded([if |raw| == 4 then 1 else 4] + raw + BigEndian16(port), Unmap(raw), port, payload)
  {
    hide Unmap, EncodeRequest, ParseUdpRequest, DecodeUdpPacket, FromUdpAddr, ValidAddr;
    var a := [if |raw| == 4 then 1 else 4] + raw + BigEndian16(port);
    AddrFields(raw, port);
    PacketRoundTrip(a, payload);
    var ip := Unmap(raw);
    UnmapOnce(raw);
    SentAs(UdpAddr(raw, port));
    RequestFormat([], ip, port, payload);
    RequestParses([], ip, port, payload);
  }

  lemma SentAs(u: UdpAddr)
    ensures FromUdpAddr(u) == [if |Unmap(u.ip)| == 4 then 1 else 4] + Unmap(u.ip) + BigEndian16(u.port)
  {
    hide Unmap;
  }

  lemma UnmapOnce(ip: Ip)
    ensures Unmap(Unmap(ip)) == Unmap(ip)
  {
  }

  /** The frame payload of a response from u. */
  function EncodeResponse(u: UdpAddr, payload: seq<byte>): (b: seq<byte>)
    ensures |b| >= 7
  {
    var a := FromUdpAddr(u);
    [if a[0] == ATYP_IPV4 then WIRE_IPV4 else WIRE_IPV6] + a[1..] + payload
  }

  datatype ResponseError = ReadFailed(cause: ReadResult) | InsufficientLength | IpVersionInvalid

  /** ReadPacketResponse's view of one frame, for an out-buffer of n bytes. */
  function DecodeResponse(b: seq<byte>, n: nat): Result<(UdpAddr, seq<byte>), ResponseError> {
    if |b| < 1 then Err(InsufficientLength)
    else if b[0] == WIRE_IPV4 then
      if |b| < 7 then Err(InsufficientLength)
      else Ok((UdpAddr(b[1..5], FromBigEndian16(b[5..7])), b[7..7 + Min(n, |b| - 7)]))
    else if b[0] == WIRE_IPV6 then
      if |b| < 19 then Err(InsufficientLength)
      else Ok((UdpAddr(b[1..17], FromBigEndian16(b[17..19])), b[19..19 + Min(n, |b| - 19)]))
    else Err(IpVersionInvalid)
  }

  /** A kind byte, an IP, a port and a payload, taken apart. */
  lemma ResponseSlices(kind: byte, ip: seq<byte>, port: uint16, payload: seq<byte>, m: nat)
    requires m <= |payload|
    ensures var b := [kind] + (ip + BigEndian16(port)) + payload;
      var h := 3 + |ip|;
      b[1..1 + |ip|] == ip && b[1 + |ip|..h] == BigEndian16(port) && b[h..h + m] == payload[..m]
  {
    var head := ip + BigEndian16(port);
    var b := [kind] + head + payload;
    assert b == [kind] + (head + payload);
    SliceBack([kind], head + payload, 0, |ip|);
    SliceBack([kind], head + payload, |ip|, |head|);
    SliceFront(head, payload, 0, |ip|);
    SliceFront(head, payload, |ip|, |head|);
    SliceBack([kind] + head, payload, 0, m);
    SliceBack(ip, BigEndian16(port), 0, 2);
  }

  /** The client recovers the source, normalised, and the payload cut to its buffer. */
  lemma ResponseRoundTrip(u: UdpAddr, payload: seq<byte>, n: nat)
    ensures DecodeResponse(EncodeResponse(u, payload), n) == Ok((UdpAddr(Unmap(u.ip), u.port), payload[..Min(n, |payload|)]))
  {
    hide Unmap, FromUdpAddr;
    var kind := if FromUdpAddr(u)[0] == ATYP_IPV4 then WIRE_IPV4 else WIRE_IPV6;
    ResponseSlices(kind, Unmap(u.ip), u.port, payload, Min(n, |payload|));
  }

  // ---- The response format, byte by byte ----

  lemma ResponseFormat(v: V4, ip: Ip, port: uint16, payload: seq<byte>)
    requires |ip| == 16 && !IsMapped(ip)
    ensures EncodeResponse(UdpAddr(v, port), payload) == [4] + v + BigEndian16(port) + payload
    ensures EncodeResponse(UdpAddr(Mapped(v), port), payload) == [4] + v + BigEndian16(port) + payload
    ensures EncodeResponse(UdpAddr(ip, port), payload) == [6] + ip + BigEndian16(port) + payload
  {
    hide FromUdpAddr;
    V4Encoding(v, port);
    V6Encoding(ip, port);
    assert [4] + v + BigEndian16(port) + payload == [4] + (v + BigEndian16(port)) + payload;
    assert [6] + ip + BigEndian16(port) + payload == [6] + (ip + BigEndian16(port)) + payload;
    assert ([1] + v + BigEndian16(port))[1..] == v + BigEndian16(port);
    assert ([4] + ip + BigEndian16(port))[1..] == ip + BigEndian16(port);
  }

  /** What the client makes of any such frame, whatever IP is in it, and of the rest of the payload. */
  lemma ResponseParses(ip: Ip, port: uint16, payload: seq<byte>, n: nat)
    ensures DecodeResponse([if |ip| == 4 then 4 else 6] + ip + BigEndian16(port) + payload, n)
      == Ok((UdpAddr(ip, port), payload[..Min(n, |payload|)]))
  {
    ResponseSlices(if |ip| == 4 then 4 else 6, ip, port, payload, Min(n, |payload|));
    var kind := if |ip| == 4 then 4 else 6;
    assert [kind] + ip + BigEndian16(port) + payload == [kind] + (ip + BigEndian16(port)) + payload;
  }

  /** So the client sees an IPv4 source as IPv4 however the server held it, and any other as it is. */
  lemma ResponseSource(v: V4, ip: Ip, port: uint16, payload: seq<byte>, n: nat)
    requires |ip| == 16 && !IsMapped(ip)
    ensures var cut := payload[..Min(n, |payload|)];
      && DecodeResponse(EncodeResponse(UdpAddr(v, port), payload), n) == Ok((UdpAddr(v, port), cut))
      && DecodeResponse(EncodeResponse(UdpAddr(Mapped(v), port), payload), n) == Ok((UdpAddr(v, port), cut))
      && DecodeResponse(EncodeResponse(UdpAddr(ip, port), payload), n) == Ok((UdpAddr(ip, port), cut))
  {
    hide EncodeResponse, DecodeResponse;
    ResponseFormat(v, ip, port, payload);
    ResponseParses(v, port, payload, n);
    ResponseParses(ip, port, payload, n);
  }

  /** And what it refuses. */
  lemma ResponseRefused(b: seq<byte>, n: nat)
    ensures DecodeResponse(b, n) == Err(IpVersionInvalid) <==> b != [] && b[0] != 4 && b[0] != 6
    ensures DecodeResponse(b, n) == Err(InsufficientLength)
      <==> b == [] || (b[0] == 4 && |b| < 7) || (b[0] == 6 && |b| < 19)
  {
  }

  /** WritePacketResponse: one frame, unless it is too large for any. */
  method WritePacketResponse(w: V4Writer, u: UdpAddr, payload: seq<byte>) returns (err: Option<WriteError>)
    requires w.Valid() && Lawful(w.aead) && PaddingRule(w.aead, w.frames, w.initialPaddingLength, w.jitter)
    modifies w, w.nonce, w.sink
    ensures w.Valid() && PaddingRule(w.aead, w.frames, w.initialPaddingLength, w.jitter)
    ensures err.None? <==> |EncodeResponse(u, payload)| <= MAX_PAYLOAD_LENGTH
    ensures Chunks(w.frames) == old(Chunks(w.frames)) + (if err.None? then [Data(EncodeResponse(u, payload))] else [])
  {
    hide V4Writer.Valid, PaddingRule, Lawful, Chunks;
    err := w.WritePacketFrame(EncodeResponse(u, payload));
  }

  /** The parse in ReadPacketResponse: the first byte is overwritten so that the head splits as a SOCKS address. */
  method ParseResponse(frame: seq<byte>, n: nat) returns (res: Result<(UdpAddr, seq<byte>), ResponseError>)
    ensures res == DecodeResponse(frame, n)
  {
    hide ValidAddr, ToUdpAddr, FromBigEndian16;
    if |frame| < 1 {
      return Err(InsufficientLength);
    }
    var headLen: nat := 1;
    var kind := ATYP_IPV4;
    if frame[0] == WIRE_IPV4 {
      headLen := headLen + IPV4_LEN + 2;
    } else if frame[0] == WIRE_IPV6 {
      headLen, kind := headLen + IPV6_LEN + 2, ATYP_IPV6;
    } else {
      return Err(IpVersionInvalid);
    }
    if |frame| < headLen {
      return Err(InsufficientLength);
    }
    var head := frame[0 := kind][..headLen];
    HeadIsAddr(frame, kind, headLen);
    var u := ToUdpAddr(head);
    res := Ok((u.value, frame[headLen..headLen + Min(n, |frame| - headLen)]));
  }

  /** The overwritten head is a SOCKS address with the IP and port of the frame. */
  lemma HeadIsAddr(frame: seq<byte>, kind: byte, headLen: nat)
    requires 7 <= headLen <= |frame|
    requires (kind == ATYP_IPV4 && headLen == 1 + IPV4_LEN + 2) || (kind == ATYP_IPV6 && headLen == 1 + IPV6_LEN + 2)
    ensures var head := frame[0 := kind][..headLen];
      && ValidAddr(head)
      && ToUdpAddr(head) == Some(UdpAddr(frame[1..headLen - 2], FromBigEndian16(frame[headLen - 2..headLen])))
  {
    var head := frame[0 := kind][..headLen];
    assert head[..headLen] == head;
    assert head[1..headLen - 2] == frame[1..headLen - 2];
    assert head[headLen - 2..headLen] == frame[headLen - 2..headLen];
  }

  /** ReadPacketResponse: one frame, one source address, the payload cut to the caller's buffer. */
  method ReadPacketResponse(r: V4Reader, n: nat) returns (res: Result<(UdpAddr, seq<byte>), ResponseError>)
    requires r.Valid()
    modifies r, r.nonce, r.source
    ensures r.Valid()
    ensures var (got, s) := TakeRead(old(r.Incoming()), MAX_PAYLOAD_LENGTH + 1);
      && res == (if got.Got? then DecodeResponse(got.bytes, n) else Err(ReadFailed(got)))
      && (!got.Failed? ==> r.Incoming() == s)
  {
    hide TakeRead, V4Reader.Valid, V4Reader.Incoming, DecodeResponse;
    var got := r.Read(MAX_PAYLOAD_LENGTH as int + 1);
    if !got.Got? {
      return Err(ReadFailed(got));
    }
    res := ParseResponse(got.bytes, n);
  }
}
