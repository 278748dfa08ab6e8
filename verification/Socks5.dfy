/** SOCKS5 address and UDP packet encodings (sections 5 and 7 of RFC 1928). */
module Socks5 {
  import opened Bytes
  import opened Streams
  import opened Frames
  import opened Sockets

  const ATYP_IPV4: byte := 1
  const ATYP_DOMAIN: byte := 3
  const ATYP_IPV6: byte := 4
  const IPV4_LEN: nat := 4
  const IPV6_LEN: nat := 16

  type Addr = seq<byte>

  /** net.IP of a UDP address: four or sixteen bytes. */
  type Ip = b: seq<byte> | |b| == IPV4_LEN || |b| == IPV6_LEN witness [0, 0, 0, 0]

  datatype UdpAddr = UdpAddr(ip: Ip, port: uint16)

  const V4_MAPPED: seq<byte> := [0, 0, 0, 0, 0, 0, 0, 0, 0, 0, 0xFF, 0xFF]

  /** A v4-mapped IPv6 address as plain IPv4; anything else as it is. */
  function Unmap(ip: Ip): (r: Ip) {
    if |ip| == IPV6_LEN && ip[..12] == V4_MAPPED then ip[12..] else ip
  }

  /** The address at the front of b, whole or not, is of a known type and takes n bytes (section 5 of RFC 1928). */
  predicate AddrLength(b: seq<byte>, n: int) {
    || (|b| >= 1 && b[0] == ATYP_IPV4 && n == 1 + 4 + 2)
    || (|b| >= 2 && b[0] == ATYP_DOMAIN && n == 1 + (1 + b[1] as int) + 2)
    || (|b| >= 1 && b[0] == ATYP_IPV6 && n == 1 + 16 + 2)
  }

  /** The address at the front of b, or None. */
  function SplitAddr(b: seq<byte>): (a: Option<Addr>)
    ensures a.Some? ==> a.value <= b && |a.value| >= 4
  {
    if |b| < 1 then None
    else if b[0] == ATYP_DOMAIN && |b| < 2 then None
    else if b[0] != ATYP_DOMAIN && b[0] != ATYP_IPV4 && b[0] != ATYP_IPV6 then None
    else
      var n := if b[0] == ATYP_DOMAIN then 1 + 1 + b[1] as int + 2
               else if b[0] == ATYP_IPV4 then 1 + IPV4_LEN + 2 else 1 + IPV6_LEN + 2;
      if |b| < n then None else Some(b[..n])
  }

  /** Accepted exactly when the type is known and all its bytes are there; and then it is those bytes. */
  lemma SplitAccepts(b: seq<byte>)
    ensures SplitAddr(b).Some? ==> AddrLength(b, |SplitAddr(b).value|)
    ensures SplitAddr(b).None? ==> forall n :: AddrLength(b, n) ==> n > |b|
  {
  }

  predicate ValidAddr(a: Addr) {
    SplitAddr(a) == Some(a)
  }

  /** Splitting stops at the end of the address whatever follows. */
  lemma SplitStops(a: Addr, more: seq<byte>)
    requires ValidAddr(a)
    ensures SplitAddr(a + more) == Some(a)
  {
    assert (a + more)[..|a|] == a;
  }

  lemma SplitValid(b: seq<byte>)
    ensures SplitAddr(b).Some? ==> ValidAddr(SplitAddr(b).value)
  {
    if SplitAddr(b).Some? {
      var a := SplitAddr(b).value;
      assert a[..|a|] == a && a[0] == b[0];
    }
  }

  predicate IsIp(a: Addr) {
    a != [] && (a[0] == ATYP_IPV4 || a[0] == ATYP_IPV6)
  }

  /** Addr.UDPAddr: None for a domain name. */
  function ToUdpAddr(a: Addr): (r: Option<UdpAddr>)
    requires ValidAddr(a)
    ensures r.Some? <==> IsIp(a)
  {
    if a[0] == ATYP_IPV4 then Some(UdpAddr(a[1..5], FromBigEndian16(a[5..7])))
    else if a[0] == ATYP_IPV6 then Some(UdpAddr(a[1..17], FromBigEndian16(a[17..19])))
    else None
  }

  /** ParseAddrToSocksAddr on an address that has an IP. */
  function FromUdpAddr(u: UdpAddr): (a: Addr)
    ensures ValidAddr(a) && IsIp(a)
    ensures a[1..] == Unmap(u.ip) + BigEndian16(u.port)
  {
    var ip := Unmap(u.ip);
    var a := [if |ip| == IPV4_LEN then ATYP_IPV4 else ATYP_IPV6] + ip + BigEndian16(u.port);
    assert a[..|a|] == a;
    a
  }

  /** Going out to a SOCKS address and back normalises a v4-mapped IP and changes nothing else. */
  lemma UdpAddrRoundTrip(u: UdpAddr)
    ensures ToUdpAddr(FromUdpAddr(u)) == Some(UdpAddr(Unmap(u.ip), u.port))
  {
    var ip := Unmap(u.ip);
    var a := FromUdpAddr(u);
    assert a[1..1 + |ip|] == ip && a[1 + |ip|..3 + |ip|] == BigEndian16(u.port);
  }

  // ---- Byte by byte ----

  /** Four bytes of IPv4 address. */
  type V4 = b: seq<byte> | |b| == 4 witness [0, 0, 0, 0]

  /** The same address in sixteen bytes, as resolvers and sockets often hold it. */
  function Mapped(v: V4): Ip {
    [0, 0, 0, 0, 0, 0, 0, 0, 0, 0, 0xFF, 0xFF] + v
  }

  predicate IsMapped(ip: Ip) {
    |ip| == 16 && (forall i :: 0 <= i < 10 ==> ip[i] == 0) && ip[10] == ip[11] == 0xFF
  }

  /** An IPv4 address is sent in its short form however it is held. */
  lemma V4Encoding(v: V4, port: uint16)
    ensures FromUdpAddr(UdpAddr(v, port)) == [1] + v + BigEndian16(port)
    ensures FromUdpAddr(UdpAddr(Mapped(v), port)) == [1] + v + BigEndian16(port)
  {
    UnmapMapped(v);
  }

  lemma UnmapMapped(v: V4)
    ensures Unmap(v) == v && Unmap(Mapped(v)) == v
  {
    assert Mapped(v)[..12] == V4_MAPPED && Mapped(v)[12..] == v;
  }

  /** Every other address in its long form. */
  lemma V6Encoding(ip: Ip, port: uint16)
    requires |ip| == 16 && !IsMapped(ip)
    ensures FromUdpAddr(UdpAddr(ip, port)) == [4] + ip + BigEndian16(port)
  {
    UnmapOther(ip);
  }

  lemma UnmapOther(ip: Ip)
    requires |ip| == 16 && !IsMapped(ip)
    ensures Unmap(ip) == ip
  {
    if ip[..12] == V4_MAPPED {
      assert forall i :: 0 <= i < 12 ==> ip[i] == V4_MAPPED[i];
    }
  }

  /** What an address with an IP says. */
  lemma AddrFields(ip: Ip, port: uint16)
    ensures var a := [if |ip| == 4 then 1 else 4] + ip + BigEndian16(port);
      ValidAddr(a) && ToUdpAddr(a) == Some(UdpAddr(ip, port))
  {
    var a := [if |ip| == 4 then 1 else 4] + ip + BigEndian16(port);
    assert a[..|a|] == a;
    assert a[1..1 + |ip|] == ip && a[1 + |ip|..3 + |ip|] == BigEndian16(port);
  }

  datatype PacketError = ShortPacket | ReservedNotZero | Fragmented | BadAddress

  function DecodeUdpPacket(packet: seq<byte>): Result<(Addr, seq<byte>), PacketError> {
    if |packet| < 5 then Err(ShortPacket)
    else if packet[..2] != [0, 0] then Err(ReservedNotZero)
    else if packet[2] != 0 then Err(Fragmented)
    else match SplitAddr(packet[3..])
      case None => Err(BadAddress)
      case Some(a) => Ok((a, packet[3 + |a|..]))
  }

  function EncodeUdpPacket(a: Addr, payload: seq<byte>): seq<byte> {
    [0, 0, 0] + a + payload
  }

  /** Decoding inverts encoding on every valid address. */
  lemma PacketRoundTrip(a: Addr, payload: seq<byte>)
    requires ValidAddr(a)
    ensures DecodeUdpPacket(EncodeUdpPacket(a, payload)) == Ok((a, payload))
  {
    var p := EncodeUdpPacket(a, payload);
    SplitStops(a, payload);
    assert p[3..] == a + payload && p[..2] == [0, 0];
    assert p[3 + |a|..] == payload;
  }

  /** And encoding inverts decoding: what is accepted is exactly what an encoder produces. */
  lemma PacketAcceptedIsEncoded(packet: seq<byte>)
    ensures match DecodeUdpPacket(packet)
      case Ok((a, payload)) => ValidAddr(a) && packet == EncodeUdpPacket(a, payload)
      case Err(_) => forall a, payload :: ValidAddr(a) ==> packet != EncodeUdpPacket(a, payload)
  {
    match DecodeUdpPacket(packet)
    case Ok((a, payload)) =>
      SplitValid(packet[3..]);
      assert packet[3..] == a + packet[3..][|a|..];
      assert packet[3..][|a|..] == payload;
      assert packet == packet[..2] + [packet[2]] + packet[3..];
    case Err(_) =>
      forall a, payload | ValidAddr(a) ensures packet != EncodeUdpPacket(a, payload) {
        PacketRoundTrip(a, payload);
      }
  }

  /** And why a packet is refused, exactly. */
  lemma PacketRefused(packet: seq<byte>)
    ensures DecodeUdpPacket(packet) == Err(ShortPacket) <==> |packet| < 5
    ensures DecodeUdpPacket(packet) == Err(ReservedNotZero) <==> |packet| >= 5 && (packet[0] != 0 || packet[1] != 0)
    ensures DecodeUdpPacket(packet) == Err(Fragmented) <==>
      |packet| >= 5 && packet[0] == 0 && packet[1] == 0 && packet[2] != 0
    ensures DecodeUdpPacket(packet) == Err(BadAddress) <==>
      |packet| >= 5 && packet[..3] == [0, 0, 0] && forall n :: AddrLength(packet[3..], n) ==> n > |packet| - 3
  {
    if |packet| >= 5 {
      SplitAccepts(packet[3..]);
      assert packet[..2] == [packet[0], packet[1]] && packet[..3] == [packet[0], packet[1], packet[2]];
    }
  }

  datatype AddrError = Broken(error: ReadError) | NotSupported

  /** ReadAddr: the address at the front of a stream, consuming exactly it. */
  method ReadAddr(source: Source) returns (r: Result<Addr, AddrError>)
    modifies source
    ensures var wire := old(source.data);
      && (r.Ok? <==> SplitAddr(wire).Some?)
      && (r.Ok? ==> r.value == SplitAddr(wire).value && source.data == wire[|r.value|..])
      && (r == Err(NotSupported) <==> wire != [] && wire[0] !in {ATYP_IPV4, ATYP_DOMAIN, ATYP_IPV6})
  {
    ghost var wire := source.data;
    var kind := ReadFull(source, 1);
    if kind.Err? {
      return Err(Broken(kind.error));
    }
    var a := kind.value;
    var n: nat := 0;
    if a[0] == ATYP_DOMAIN {
      var length := ReadFull(source, 1);
      if length.Err? {
        return Err(Broken(length.error));
      }
      a := a + length.value;
      n := length.value[0] as int + 2;
    } else if a[0] == ATYP_IPV4 {
      n := IPV4_LEN + 2;
    } else if a[0] == ATYP_IPV6 {
      n := IPV6_LEN + 2;
    } else {
      return Err(NotSupported);
    }
    assert wire == a + source.data;
    var rest := ReadFull(source, n);
    if rest.Err? {
      return Err(Broken(rest.error));
    }
    assert wire == (a + rest.value) + source.data;
    r := Ok(a + rest.value);
  }
}
