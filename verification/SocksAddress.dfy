/**
 The SOCKS address codec (section 5 of RFC 1928): how an outbound connection writes its
 destination and how an inbound one reads it back. Indices into the message are computed in
 8-bit arithmetic where the program computes them from a length byte.
 */
module SocksAddress {
  import opened Options

  type Byte = x: int | 0 <= x < 256
  type Port = x: int | 0 <= x < 0x1_0000

  const ATYP_IPV4: Byte := 1
  const ATYP_DOMAIN: Byte := 3
  const ATYP_IPV6: Byte := 4
  const DOT: Byte := 46

  datatype Ip = NoIp | V4(bytes: seq<Byte>) | V6(bytes: seq<Byte>, zone: string)

  datatype AddrType = Domain | IPv4 | IPv6

  datatype Metadata = Metadata(host: seq<Byte>, dstIP: Ip, dstPort: Port)

  /** Addresses have the length of their kind. */
  predicate WellFormed(m: Metadata) {
    match m.dstIP
    case NoIp => true
    case V4(b) => |b| == 4
    case V6(b, _) => |b| == 16
  }

  /** An IPv4 address inside the IPv6 block ::ffff:0:0/96. */
  predicate Is4In6(b: seq<Byte>) {
    |b| == 16 && (forall i :: 0 <= i < 10 ==> b[i] == 0) && b[10] == 255 && b[11] == 255
  }

  function Unmap(ip: Ip): Ip {
    if ip.V6? && Is4In6(ip.bytes) then V4(ip.bytes[12..]) else ip
  }

  function AddrTypeOf(m: Metadata): AddrType {
    if m.host != [] || m.dstIP.NoIp? then Domain else if m.dstIP.V4? then IPv4 else IPv6
  }

  function Serialize(m: Metadata): seq<Byte>
    requires WellFormed(m)
  {
    var port: seq<Byte> := [m.dstPort / 256, m.dstPort % 256];
    match AddrTypeOf(m)
    case Domain => [ATYP_DOMAIN, |m.host| % 256] + m.host + port
    case IPv4 => [ATYP_IPV4] + m.dstIP.bytes + port
    case IPv6 => [ATYP_IPV6] + m.dstIP.bytes + port
  }

  function TrimDots(h: seq<Byte>): (r: seq<Byte>)
    ensures |r| <= |h| && r == h[..|r|]
    ensures r == h <==> h == [] || h[|h| - 1] != DOT
  {
    if |h| > 0 && h[|h| - 1] == DOT then TrimDots(h[..|h| - 1]) else h
  }

  /** A big-endian port at two positions of the message, None when one is out of range. */
  function PortAt(t: seq<Byte>, hi: nat, lo: nat): Option<Port> {
    if hi < |t| && lo < |t| then Some(t[hi] as int * 256 + t[lo] as int) else None
  }

  /** What the reader makes of a message; None stands for a run-time panic on a bad index. */
  function Parse(t: seq<Byte>): Option<Metadata> {
    if |t| == 0 then None
    else if t[0] == ATYP_DOMAIN then
      if |t| < 2 then None
      else
        var end := (2 + t[1] as int) % 256;
        if end < 2 || end > |t| then None
        else match PortAt(t, end, (end + 1) % 256)
          case None => None
          case Some(port) => Some(Metadata(TrimDots(t[2..end]), NoIp, port))
    else if t[0] == ATYP_IPV4 then
      match PortAt(t, 5, 6)
      case None => None
      case Some(port) => Some(Metadata([], V4(t[1..5]), port))
    else if t[0] == ATYP_IPV6 then
      match PortAt(t, 17, 18)
      case None => None
      case Some(port) => Some(Metadata([], Unmap(V6(t[1..17], "")), port))
    else Some(Metadata([], NoIp, 0))
  }

  /** The reader, field by field. */
  method ParseSocksAddr(target: seq<Byte>) returns (r: Option<Metadata>)
    ensures r == Parse(target)
  {
    if |target| == 0 {
      return None;
    }
    var host: seq<Byte>, dstIP, dstPort: Port := [], NoIp, 0;
    if target[0] == ATYP_DOMAIN {
      if |target| < 2 {
        return None;
      }
      var end := (2 + target[1] as int) % 256;
      if end < 2 || end > |target| || end >= |target| || (end + 1) % 256 >= |target| {
        return None;
      }
      host := TrimDots(target[2..end]);
      dstPort := target[end] as int * 256 + target[(end + 1) % 256] as int;
    } else if target[0] == ATYP_IPV4 {
      if |target| < 7 {
        return None;
      }
      dstIP := V4(target[1..5]);
      dstPort := target[5] as int * 256 + target[6] as int;
    } else if target[0] == ATYP_IPV6 {
      if |target| < 19 {
        return None;
      }
      dstIP := V6(target[1..17], "");
      dstPort := target[17] as int * 256 + target[18] as int;
    }
    dstIP := Unmap(dstIP);
    return Some(Metadata(host, dstIP, dstPort));
  }

  /** The bytes on the wire, as section 5 of RFC 1928 lays them out: address type, address, port with
      its high byte first; a host name is preceded by its length. */
  lemma WireFormat(m: Metadata)
    requires WellFormed(m)
    ensures var t := Serialize(m); var n := |t|;
      && n >= 4 && t[n - 2] as int * 256 + t[n - 1] as int == m.dstPort
      && (m.host != [] ==> t[0] == 3 && t[1] == |m.host| % 256 && t[2..n - 2] == m.host)
      && (m.host == [] && m.dstIP.NoIp? ==> t[0] == 3 && t[1] == 0 && n == 4)
      && (m.host == [] && m.dstIP.V4? ==> t[0] == 1 && t[1..n - 2] == m.dstIP.bytes && n == 7)
      && (m.host == [] && m.dstIP.V6? ==> t[0] == 4 && t[1..n - 2] == m.dstIP.bytes && n == 19)
  {
  }

  /** What a message is meant to carry: the host if there is one, else the address, and the port. */
  function Carried(m: Metadata): Metadata {
    if AddrTypeOf(m) == Domain then Metadata(m.host, NoIp, m.dstPort) else Metadata([], m.dstIP, m.dstPort)
  }

  /** Hosts that survive: no trailing dot, and short enough for 8-bit indices. At 253 bytes the index
      of the low port byte wraps to 0, where the address type 3 stands. */
  predicate HostFits(host: seq<Byte>, port: Port) {
    && (host == [] || host[|host| - 1] != DOT)
    && (|host| <= 252 || (|host| == 253 && port % 256 == ATYP_DOMAIN))
  }

  predicate Survives(m: Metadata) {
    match AddrTypeOf(m)
    case Domain => HostFits(m.host, m.dstPort)
    case IPv4 => true
    case IPv6 => m.dstIP.V6? && !Is4In6(m.dstIP.bytes) && m.dstIP.zone == ""
  }

  lemma DomainRoundTrip(m: Metadata)
    requires WellFormed(m) && AddrTypeOf(m) == Domain
    ensures Parse(Serialize(m)) == Some(Carried(m)) <==> HostFits(m.host, m.dstPort)
  {
    if |m.host| <= 253 {
      ShortDomain(m);
    } else {
      LongDomain(m);
    }
  }

  lemma DomainLayout(m: Metadata)
    requires WellFormed(m) && AddrTypeOf(m) == Domain
    ensures var t := Serialize(m); var l := |m.host|;
      && |t| == l + 4 && t[0] == ATYP_DOMAIN && t[1] == l % 256 && t[2..2 + l] == m.host
      && t[2 + l] == m.dstPort / 256 && t[2 + l + 1] == m.dstPort % 256
  {
  }

  lemma ShortDomain(m: Metadata)
    requires WellFormed(m) && AddrTypeOf(m) == Domain && |m.host| <= 253
    ensures Parse(Serialize(m)) == Some(Carried(m)) <==> HostFits(m.host, m.dstPort)
  {
    DomainLayout(m);
    var t := Serialize(m);
    assert (2 + t[1] as int) % 256 == 2 + |m.host|;
  }

  /** From 254 bytes on what is read is shorter than what was written, if anything is. */
  lemma LongDomain(m: Metadata)
    requires WellFormed(m) && AddrTypeOf(m) == Domain && |m.host| > 253
    ensures Parse(Serialize(m)) != Some(Carried(m))
  {
    DomainLayout(m);
    var t, l := Serialize(m), |m.host|;
    var end := (2 + t[1] as int) % 256;
    if l % 256 <= 253 {
      assert end == 2 + l % 256 && |t[2..end]| < l;
    }
  }

  /** Reading a written address gives back the host or the address, and the port, exactly when it survives. */
  lemma RoundTripIff(m: Metadata)
    requires WellFormed(m)
    ensures Parse(Serialize(m)) == Some(Carried(m)) <==> Survives(m)
  {
    if AddrTypeOf(m) == Domain {
      DomainRoundTrip(m);
    } else {
      var t := Serialize(m);
      assert t[1..1 + |m.dstIP.bytes|] == m.dstIP.bytes;
    }
  }

  /** 252 is tight: with one byte more the low byte of the port is lost. */
  lemma HostOf253LosesPort(m: Metadata)
    requires WellFormed(m) && |m.host| == 253 && m.host[252] != DOT
    ensures Parse(Serialize(m)) == Some(Metadata(m.host, NoIp, m.dstPort / 256 * 256 + 3))
  {
    var t := Serialize(m);
    assert t[0] == ATYP_DOMAIN && t[1] == 253;
    assert t[2..255] == m.host && t[255] == m.dstPort / 256;
  }

  /** With two or three more the reader panics. */
  lemma HostOf254Panics(m: Metadata)
    requires WellFormed(m) && (|m.host| == 254 || |m.host| == 255)
    ensures Parse(Serialize(m)) == None
  {
    assert Serialize(m)[0] == ATYP_DOMAIN && Serialize(m)[1] == |m.host|;
  }

  /** Two surviving destinations written the same way are the same. */
  lemma SerializeInjective(m: Metadata, n: Metadata)
    requires WellFormed(m) && WellFormed(n) && Survives(m) && Survives(n) && Serialize(m) == Serialize(n)
    ensures Carried(m) == Carried(n)
  {
    RoundTripIff(m);
    RoundTripIff(n);
  }
}
