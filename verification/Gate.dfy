/** From captured frames to decoded packets: link-layer stripping, validation and parsing. */
module Gate {
  import opened Words
  import opened Packets
  import opened SocketPairs

  type Bytes = seq<Byte>

  const IP_HEADER_LEN := 20
  const IP6_HEADER_LEN := 40
  const TCP_HEADER_LEN := 20
  const ENET_HEADER_LEN := 14
  const SLL_HEADER_LEN := 16
  const VLAN_HEADER_LEN := 4
  const ETHERTYPE_IP := 0x0800
  const ETHERTYPE_IPV6 := 0x86dd
  const ETHERTYPE_VLAN := 0x8100
  const IPPROTO_TCP := 6

  /** The link types the sniffer agrees to open. */
  datatype LinkType = EN10MB | LINUX_SLL | RAW | NULL

  function Be16(b: Bytes, i: nat): U16
    requires i + 2 <= |b|
  {
    b[i] as int * 0x100 + b[i + 1] as int
  }

  function Be32(b: Bytes, i: nat): U32
    requires i + 4 <= |b|
  {
    b[i] as int * 0x100_0000 + b[i + 1] as int * 0x1_0000 + b[i + 2] as int * 0x100 + b[i + 3] as int
  }

  // ---------------------------------------------------------------- link layer

  predicate IsVlan(frame: Bytes)
    requires |frame| >= ENET_HEADER_LEN
  {
    Be16(frame, 12) == ETHERTYPE_VLAN
  }

  /** The network-layer bytes of a frame. */
  function NetworkBytes(frame: Bytes, dlt: LinkType): (r: Option<Bytes>)
    ensures r.Some? ==> 16 <= |r.value| <= |frame| && r.value == frame[|frame| - |r.value|..]
  {
    match dlt
    case EN10MB =>
      if |frame| < ENET_HEADER_LEN + IP_HEADER_LEN then None else
        var start := ENET_HEADER_LEN + if IsVlan(frame) then VLAN_HEADER_LEN else 0;
        var etherType := Be16(frame, start - 2);
        if etherType == ETHERTYPE_IP || etherType == ETHERTYPE_IPV6 then Some(frame[start..]) else None
    case LINUX_SLL =>
      if |frame| < SLL_HEADER_LEN + IP_HEADER_LEN then None else Some(frame[SLL_HEADER_LEN..])
    case RAW => if |frame| < IP_HEADER_LEN then None else Some(frame)
    case NULL => if |frame| < IP_HEADER_LEN then None else Some(frame)
  }

  /** Copies the network layer of a captured frame into a buffer of its own; null if there is none. */
  method GetNlp(p: array<Byte>, caplen: nat, dlt: LinkType) returns (n: array?<Byte>)
    requires caplen <= p.Length
    ensures n == null <==> NetworkBytes(p[..caplen], dlt).None?
    ensures n != null ==> fresh(n) && n[..] == NetworkBytes(p[..caplen], dlt).value
  {
    var offset := 0;
    match dlt {
      case EN10MB =>
        if caplen < ENET_HEADER_LEN + IP_HEADER_LEN {
          return null;
        }
        var vlanFrame := Be16(p[..caplen], 12) == ETHERTYPE_VLAN;
        var etherType: U16;
        if vlanFrame {
          etherType := Be16(p[..caplen], ENET_HEADER_LEN + VLAN_HEADER_LEN - 2);
        } else {
          etherType := Be16(p[..caplen], 12);
        }
        if etherType == ETHERTYPE_IP || etherType == ETHERTYPE_IPV6 {
          offset := ENET_HEADER_LEN + if vlanFrame then VLAN_HEADER_LEN else 0;
        } else {
          return null;
        }
      case LINUX_SLL =>
        if caplen < SLL_HEADER_LEN + IP_HEADER_LEN {
          return null;
        }
        offset := SLL_HEADER_LEN;
      case RAW =>
        if caplen < IP_HEADER_LEN {
          return null;
        }
      case NULL =>
        if caplen < IP_HEADER_LEN {
          return null;
        }
    }
    var copy := new Byte[caplen - offset];
    forall i | 0 <= i < caplen - offset {
      copy[i] := p[offset + i];
    }
    assert copy[..] == p[..caplen][offset..];
    n := copy;
  }

  // ---------------------------------------------------------------- validation

  /** Port and data-offset checks on a TCP header that starts at the given byte. */
  predicate CheckTcp(b: Bytes, start: nat)
    requires start + TCP_HEADER_LEN <= |b|
  {
    b[start + 12] / 16 >= 5 && Be16(b, start) != 0 && Be16(b, start + 2) != 0
  }

  /** Accepts TCP over IPv4 or IPv6. Every byte it reads lies within the 16 bytes that NetworkBytes guarantees
      or within a length already compared. */
  predicate CheckNlp(b: Bytes)
    requires |b| >= 16
  {
    if b[0] / 16 == 6 then
      |b| >= IP6_HEADER_LEN + TCP_HEADER_LEN && b[6] == IPPROTO_TCP && CheckTcp(b, IP6_HEADER_LEN)
    else
      var ipHeaderLen := b[0] as int % 16 * 4;
      && |b| >= ipHeaderLen + TCP_HEADER_LEN
      && b[0] / 16 == 4
      && Be16(b, 2) >= ipHeaderLen + TCP_HEADER_LEN
      && b[0] % 16 >= 5
      && b[9] == IPPROTO_TCP
      && CheckTcp(b, ipHeaderLen)
  }

  // ---------------------------------------------------------------- parsing

  /** The eight masks FIN = 0x01 up to CWR = 0x80, lowest bit first. */
  function DecodeFlags(x: Byte): Flags {
    var syn := x as int / 2;
    var rst := syn / 2;
    var psh := rst / 2;
    var ack := psh / 2;
    var urg := ack / 2;
    var ece := urg / 2;
    var cwr := ece / 2;
    Flags(x % 2 == 1, syn % 2 == 1, rst % 2 == 1, psh % 2 == 1, ack % 2 == 1, urg % 2 == 1, ece % 2 == 1, cwr % 2 == 1)
  }

  /** What the parser makes of a buffer: a packet, "not TCP", a failed assertion, or a read past the end. */
  datatype ParseResult = Parsed(packet: Packet) | NotTcp | AssertionFailed | OutOfBounds

  function ParseTcp(b: Bytes, start: nat, totalLen: U32, src: Address, dst: Address): ParseResult
    requires start < 0x1_0000
  {
    if |b| < start + 14 then OutOfBounds
    else if b[start + 12] / 16 < 5 then AssertionFailed
    else Parsed(Packet(totalLen, start, src, dst,
                       TcpHeader(Be16(b, start), Be16(b, start + 2), Be32(b, start + 4), Be32(b, start + 8),
                                 DecodeFlags(b[start + 13]), b[start + 12] as int / 16 * 4)))
  }

  function ParseIpv4(b: Bytes): ParseResult
    requires |b| >= 10
  {
    if |b| < 20 || Be16(b, 2) < 20 || b[0] % 16 < 5 then AssertionFailed
    else ParseTcp(b, b[0] as int % 16 * 4, Be16(b, 2), V4(b[12..16]), V4(b[16..20]))
  }

  function ParseIpv6(b: Bytes): ParseResult {
    if |b| < IP6_HEADER_LEN then OutOfBounds
    else ParseTcp(b, IP6_HEADER_LEN, Be16(b, 4), V6(b[8..24]), V6(b[24..40]))
  }

  function NewTCPPacket(b: Bytes): ParseResult {
    if |b| < 10 then OutOfBounds
    else if b[0] / 16 == 4 then if b[9] != IPPROTO_TCP then NotTcp else ParseIpv4(b)
    else if b[0] / 16 == 6 then if b[6] != IPPROTO_TCP then NotTcp else ParseIpv6(b)
    else AssertionFailed
  }

  /** A packet every later stage can handle: no assertion of the hash or the headers can fail on it. */
  predicate Sound(p: Packet) {
    && p.WellFormed()
    && PairOf(p).Hashable()
    && p.tcp.headerLen >= 20
    && (p.src.V4? ==> p.PayloadLen() == p.totalLen - p.headerLen >= 20)
  }

  /** For every link type and all captured bytes: what passes the gate parses, without a read out of bounds or a
      failed assertion, into a packet on which the later assertions hold too. */
  lemma GateDischargesAssertions(frame: Bytes, dlt: LinkType)
    ensures var n := NetworkBytes(frame, dlt);
            n.Some? && CheckNlp(n.value) ==> NewTCPPacket(n.value).Parsed? && Sound(NewTCPPacket(n.value).packet)
  {
    var n := NetworkBytes(frame, dlt);
    if n.Some? && CheckNlp(n.value) {
      GateIsExact(n.value);
    }
  }

  /** The gate refuses nothing that the parser can handle, short of three demands: non-zero ports, a whole TCP header in
      the capture, and room for one in the IPv4 length field. */
  lemma GateIsExact(b: Bytes)
    requires |b| >= 16
    ensures CheckNlp(b) <==> (
              && NewTCPPacket(b).Parsed?
              && var p := NewTCPPacket(b).packet;
                 && PairOf(p).Hashable()
                 && |b| >= p.headerLen + TCP_HEADER_LEN
                 && (p.src.V4? ==> p.totalLen >= p.headerLen + TCP_HEADER_LEN))
    ensures CheckNlp(b) ==> Sound(NewTCPPacket(b).packet)
  {
  }

  /** What never passes, by number: any IP version but 4 and 6, and any protocol but TCP, UDP (17) among them. */
  lemma OnlyTcpPasses(b: Bytes)
    requires |b| >= 16 && CheckNlp(b)
    ensures (b[0] / 16 == 4 && b[9] == 6) || (b[0] / 16 == 6 && b[6] == 6)
    ensures NewTCPPacket(b).Parsed? && (NewTCPPacket(b).packet.src.V4? <==> b[0] / 16 == 4)
  {
  }

  /** Which frames are looked into, by number. Ethernet: at least 34 bytes, type 0x0800 or 0x86dd, or behind one tag of type
      0x8100 either of them; the other link types by length alone. */
  lemma FramesLookedInto(frame: Bytes)
    ensures NetworkBytes(frame, LINUX_SLL).Some? <==> |frame| >= 36
    ensures NetworkBytes(frame, RAW).Some? <==> |frame| >= 20
    ensures NetworkBytes(frame, NULL).Some? <==> |frame| >= 20
    ensures NetworkBytes(frame, EN10MB).Some? <==>
              && |frame| >= 34
              && var type1, type2 := Be16(frame, 12), Be16(frame, 16);
                 type1 == 0x0800 || type1 == 0x86dd || (type1 == 0x8100 && (type2 == 0x0800 || type2 == 0x86dd))
  {
  }

  /** How the parser fails, by number, on a buffer with both headers captured: another protocol than TCP is told from broken
      lengths and unknown versions, and a buffer is never read past its end. */
  lemma ParserFailures(b: Bytes)
    requires |b| >= 80
    ensures var version, words := b[0] / 16, b[0] % 16;
            && NewTCPPacket(b) != OutOfBounds
            && (NewTCPPacket(b) == NotTcp <==> (version == 4 && b[9] != 6) || (version == 6 && b[6] != 6))
            && (NewTCPPacket(b) == AssertionFailed <==>
                || (version != 4 && version != 6)
                || (version == 4 && b[9] == 6 &&
                    (words < 5 || Be16(b, 2) < 20 || b[words as int * 4 + 12] / 16 < 5))
                || (version == 6 && b[6] == 6 && b[52] / 16 < 5))
  {
  }

  // ---------------------------------------------------------------- VLAN tags

  /** Inserts one tag behind the two hardware addresses. */
  function Tagged(frame: Bytes, tci0: Byte, tci1: Byte): Bytes
    requires |frame| >= ENET_HEADER_LEN
  {
    frame[..12] + [0x81, 0x00, tci0, tci1] + frame[12..]
  }

  /** The bytes a frame hands on, if it passes. */
  function Admitted(frame: Bytes, dlt: LinkType): Option<Bytes> {
    var n := NetworkBytes(frame, dlt);
    if n.Some? && CheckNlp(n.value) then n else None
  }

  /** Network-layer bytes shorter than an IPv4 header never pass. */
  lemma ShortNeverPasses(b: Bytes)
    requires 16 <= |b| < 20
    ensures !CheckNlp(b)
  {
  }

  /** One tag changes neither the verdict nor the bytes handed on, exactly unless the frame passes with a tag already:
      only one level of tags is looked through. */
  lemma TagIsTransparentIff(frame: Bytes, tci0: Byte, tci1: Byte)
    requires |frame| >= ENET_HEADER_LEN
    ensures Admitted(Tagged(frame, tci0, tci1), EN10MB) == Admitted(frame, EN10MB) <==>
            !(IsVlan(frame) && Admitted(frame, EN10MB).Some?)
  {
    var tagged := Tagged(frame, tci0, tci1);
    assert Be16(tagged, 12) == ETHERTYPE_VLAN;
    assert Be16(tagged, 16) == Be16(frame, 12);
    assert tagged[18..] == frame[14..];
    if 16 <= |frame[14..]| < 20 {
      ShortNeverPasses(frame[14..]);
    }
  }

  // ---------------------------------------------------------------- encoding

  /** Puts a bit below the others. */
  function Push(b: bool, high: int): int {
    2 * high + if b then 1 else 0
  }

  function EncodeFlags(f: Flags): Byte {
    Push(f.fin, Push(f.syn, Push(f.rst, Push(f.psh, Push(f.ack, Push(f.urg, Push(f.ece, Push(f.cwr, 0))))))))
  }

  function Put16(x: U16): Bytes {
    [x / 0x100, x % 0x100]
  }

  function Put32(x: U32): Bytes {
    [x / 0x100_0000, x / 0x1_0000 % 0x100, x / 0x100 % 0x100, x % 0x100]
  }

  /** A TCP header (RFC 793 section 3.1): fields, then window, checksum and urgent pointer, then options and text. */
  function EncodeTcp(h: TcpHeader, reserved: Byte, tail: Bytes): Bytes
    requires h.headerLen % 4 == 0 && 20 <= h.headerLen <= 60 && reserved < 16
  {
    Put16(h.srcPort) + Put16(h.dstPort) + Put32(h.seqn) + Put32(h.ackn)
    + [h.headerLen / 4 * 16 + reserved, EncodeFlags(h.flags)] + tail
  }

  /** An IPv4 header (RFC 791 section 3.1) in front of a TCP header. */
  function EncodeIpv4(p: Packet, tos: Byte, fragment: Octets4, ttl: Byte, sum0: Byte, sum1: Byte, options: Bytes,
                      reserved: Byte, tail: Bytes): Bytes
    requires p.src.V4? && p.dst.V4? && p.totalLen < 0x1_0000
    requires p.headerLen == 20 + |options| && |options| % 4 == 0 && |options| <= 40
    requires p.tcp.headerLen % 4 == 0 && 20 <= p.tcp.headerLen <= 60 && reserved < 16
  {
    [0x40 + p.headerLen / 4, tos] + Put16(p.totalLen) + fragment + [ttl, 6, sum0, sum1]
    + p.src.octets + p.dst.octets + options + EncodeTcp(p.tcp, reserved, tail)
  }

  /** An IPv6 header (RFC 8200 section 3) in front of a TCP header; the length field is the payload length. */
  function EncodeIpv6(p: Packet, first4: Octets4, hop: Byte, reserved: Byte, tail: Bytes): Bytes
    requires p.src.V6? && p.dst.V6? && p.totalLen < 0x1_0000 && p.headerLen == IP6_HEADER_LEN && first4[0] / 16 == 6
    requires p.tcp.headerLen % 4 == 0 && 20 <= p.tcp.headerLen <= 60 && reserved < 16
  {
    first4 + Put16(p.totalLen) + [6, hop] + p.src.hextets + p.dst.hextets + EncodeTcp(p.tcp, reserved, tail)
  }

  lemma PushPop(b: bool, high: int)
    ensures (Push(b, high) % 2 == 1 <==> b) && Push(b, high) / 2 == high
  {
  }

  lemma FlagsRoundTrip(f: Flags)
    ensures DecodeFlags(EncodeFlags(f)) == f
  {
    hide Push;
    var e7 := Push(f.cwr, 0);
    var e6 := Push(f.ece, e7);
    var e5 := Push(f.urg, e6);
    var e4 := Push(f.ack, e5);
    var e3 := Push(f.psh, e4);
    var e2 := Push(f.rst, e3);
    var e1 := Push(f.syn, e2);
    PushPop(f.fin, e1);
    PushPop(f.syn, e2);
    PushPop(f.rst, e3);
    PushPop(f.psh, e4);
    PushPop(f.ack, e5);
    PushPop(f.urg, e6);
    PushPop(f.ece, e7);
    PushPop(f.cwr, 0);
  }

  lemma Put32RoundTrip(x: U32)
    ensures Be32(Put32(x), 0) == x
  {
    var hi, lo := x / 0x1_0000, x % 0x1_0000;
    assert x / 0x100_0000 == hi / 0x100;
    assert x / 0x100 % 0x100 == lo / 0x100;
    assert x % 0x100 == lo % 0x100;
  }

  /** Parsing a TCP header behind any prefix returns the encoded fields. */
  lemma TcpRoundTrip(ip: Bytes, h: TcpHeader, reserved: Byte, tail: Bytes, totalLen: U32, src: Address, dst: Address)
    requires |ip| < 0x1_0000
    requires h.headerLen % 4 == 0 && 20 <= h.headerLen <= 60 && reserved < 16
    ensures ParseTcp(ip + EncodeTcp(h, reserved, tail), |ip|, totalLen, src, dst)
         == Parsed(Packet(totalLen, |ip|, src, dst, h))
  {
    var t := EncodeTcp(h, reserved, tail);
    var b := ip + t;
    assert forall i :: 0 <= i < |t| ==> b[|ip| + i] == t[i];
    assert t[0..2] == Put16(h.srcPort) && t[2..4] == Put16(h.dstPort);
    assert t[4..8] == Put32(h.seqn) && t[8..12] == Put32(h.ackn);
    assert t[12] == h.headerLen / 4 * 16 + reserved && t[13] == EncodeFlags(h.flags);
    Put32RoundTrip(h.seqn);
    Put32RoundTrip(h.ackn);
    FlagsRoundTrip(h.flags);
    assert Be32(b, |ip| + 4) == Be32(t[4..8], 0);
    assert Be32(b, |ip| + 8) == Be32(t[8..12], 0);
    assert b[|ip| + 12] / 16 == h.headerLen / 4;
  }

  /** The parser recovers exactly the encoded IPv4 packet, whatever the fields it ignores hold. */
  lemma Ipv4RoundTrip(p: Packet, tos: Byte, fragment: Octets4, ttl: Byte, sum0: Byte, sum1: Byte, options: Bytes,
                      reserved: Byte, tail: Bytes)
    requires p.src.V4? && p.dst.V4? && 20 <= p.totalLen < 0x1_0000
    requires p.headerLen == 20 + |options| && |options| % 4 == 0 && |options| <= 40
    requires p.tcp.headerLen % 4 == 0 && 20 <= p.tcp.headerLen <= 60 && reserved < 16
    ensures NewTCPPacket(EncodeIpv4(p, tos, fragment, ttl, sum0, sum1, options, reserved, tail)) == Parsed(p)
  {
    hide EncodeTcp, ParseTcp;
    var ip := [0x40 + p.headerLen / 4, tos] + Put16(p.totalLen) + fragment + [ttl, IPPROTO_TCP, sum0, sum1]
              + p.src.octets + p.dst.octets + options;
    var b := EncodeIpv4(p, tos, fragment, ttl, sum0, sum1, options, reserved, tail);
    assert b == ip + EncodeTcp(p.tcp, reserved, tail);
    assert ip[2..4] == Put16(p.totalLen) && ip[12..16] == p.src.octets && ip[16..20] == p.dst.octets;
    assert b[12..16] == ip[12..16] && b[16..20] == ip[16..20];
    assert Be16(b, 2) == p.totalLen;
    assert b[0] / 16 == 4 && b[0] % 16 * 4 == p.headerLen;
    TcpRoundTrip(ip, p.tcp, reserved, tail, p.totalLen, p.src, p.dst);
  }

  /** The same for IPv6. */
  lemma Ipv6RoundTrip(p: Packet, first4: Octets4, hop: Byte, reserved: Byte, tail: Bytes)
    requires p.src.V6? && p.dst.V6? && p.totalLen < 0x1_0000 && p.headerLen == IP6_HEADER_LEN && first4[0] / 16 == 6
    requires p.tcp.headerLen % 4 == 0 && 20 <= p.tcp.headerLen <= 60 && reserved < 16
    ensures NewTCPPacket(EncodeIpv6(p, first4, hop, reserved, tail)) == Parsed(p)
  {
    hide EncodeTcp, ParseTcp;
    var ip := first4 + Put16(p.totalLen) + [IPPROTO_TCP, hop] + p.src.hextets + p.dst.hextets;
    var b := EncodeIpv6(p, first4, hop, reserved, tail);
    assert b == ip + EncodeTcp(p.tcp, reserved, tail);
    assert ip[4..6] == Put16(p.totalLen) && ip[8..24] == p.src.hextets && ip[24..40] == p.dst.hextets;
    assert b[8..24] == ip[8..24] && b[24..40] == ip[24..40];
    assert Be16(b, 4) == p.totalLen;
    TcpRoundTrip(ip, p.tcp, reserved, tail, p.totalLen, p.src, p.dst);
  }

  /** A link-layer header in front of a packet of the given type; raw frames have none. */
  predicate LinkHeader(dlt: LinkType, header: Bytes, etherType: U16) {
    match dlt
    case EN10MB => |header| == 14 && Be16(header, 12) == etherType
    case LINUX_SLL => |header| == 16
    case RAW => header == []
    case NULL => IsLoopbackWord(header)
  }

  /** The address family in front of a loopback frame, in the byte order of the capturing host:
      2 is IPv4; 24, 28 and 30 are IPv6 on different systems. */
  predicate IsLoopbackWord(w: Bytes) {
    exists f: Byte :: (f == 2 || f == 24 || f == 28 || f == 30) && (w == [f, 0, 0, 0] || w == [0, 0, 0, f])
  }

  /** Over every link type but the loopback one the gate lets each properly encoded IPv4 segment through and the parser
      recovers it. */
  lemma EncodedSegmentPasses(dlt: LinkType, header: Bytes, p: Packet, tos: Byte, fragment: Octets4, ttl: Byte,
                             sum0: Byte, sum1: Byte, options: Bytes, reserved: Byte, tail: Bytes)
    requires dlt != NULL && LinkHeader(dlt, header, 0x0800) && |tail| >= 6
    requires p.src.V4? && p.dst.V4? && p.headerLen + 20 <= p.totalLen < 0x1_0000
    requires p.headerLen == 20 + |options| && |options| % 4 == 0 && |options| <= 40
    requires p.tcp.headerLen % 4 == 0 && 20 <= p.tcp.headerLen <= 60 && reserved < 16
    requires p.tcp.srcPort > 0 && p.tcp.dstPort > 0
    ensures var b := EncodeIpv4(p, tos, fragment, ttl, sum0, sum1, options, reserved, tail);
            Admitted(header + b, dlt) == Some(b) && NewTCPPacket(b) == Parsed(p)
  {
    hide CheckNlp, NewTCPPacket;
    var b := EncodeIpv4(p, tos, fragment, ttl, sum0, sum1, options, reserved, tail);
    var frame := header + b;
    assert |b| >= p.headerLen + TCP_HEADER_LEN;
    Ipv4RoundTrip(p, tos, fragment, ttl, sum0, sum1, options, reserved, tail);
    GateIsExact(b);
    assert frame[|header|..] == b;
    if dlt == EN10MB {
      assert Be16(frame, 12) == Be16(header, 12);
    }
  }

  /** The same for IPv6, whose length field the gate does not look at. */
  lemma EncodedIpv6SegmentPasses(dlt: LinkType, header: Bytes, p: Packet, first4: Octets4, hop: Byte, reserved: Byte,
                                 tail: Bytes)
    requires dlt != NULL && LinkHeader(dlt, header, 0x86dd) && |tail| >= 6
    requires p.src.V6? && p.dst.V6? && p.totalLen < 0x1_0000 && p.headerLen == IP6_HEADER_LEN && first4[0] / 16 == 6
    requires p.tcp.headerLen % 4 == 0 && 20 <= p.tcp.headerLen <= 60 && reserved < 16
    requires p.tcp.srcPort > 0 && p.tcp.dstPort > 0
    ensures var b := EncodeIpv6(p, first4, hop, reserved, tail);
            Admitted(header + b, dlt) == Some(b) && NewTCPPacket(b) == Parsed(p)
  {
    hide CheckNlp, NewTCPPacket;
    var b := EncodeIpv6(p, first4, hop, reserved, tail);
    var frame := header + b;
    assert |b| >= IP6_HEADER_LEN + TCP_HEADER_LEN;
    Ipv6RoundTrip(p, first4, hop, reserved, tail);
    GateIsExact(b);
    assert frame[|header|..] == b;
    if dlt == EN10MB {
      assert Be16(frame, 12) == Be16(header, 12);
    }
  }

  // ---------------------------------------------------------------- loopback frames

  /** The address family word is not stripped, so no loopback frame ever passes, whatever packet it carries. */
  lemma LoopbackFramesAreRefused(word: Bytes, packet: Bytes)
    requires IsLoopbackWord(word)
    ensures Admitted(word + packet, NULL) == None
  {
    assert (word + packet)[0] == word[0] < 0x40;
  }

  /** An IP header followed by a TCP header passes if the IP header says so. */
  lemma NullFramePasses(ip: Bytes, tcp: Bytes)
    requires |ip| >= 20 && |tcp| >= 20
    requires Be16(tcp, 0) > 0 && Be16(tcp, 2) > 0 && tcp[12] == 0x50
    requires if ip[0] / 16 == 6 then |ip| == IP6_HEADER_LEN && ip[6] == IPPROTO_TCP
             else ip[0] / 16 == 4 && |ip| == ip[0] as int % 16 * 4 && Be16(ip, 2) >= |ip| + 20 && ip[9] == IPPROTO_TCP
    ensures (ip + tcp)[0] == ip[0] && Admitted(ip + tcp, NULL).Some?
  {
    var n, frame := |ip|, ip + tcp;
    assert frame[n] == tcp[0] && frame[n + 1] == tcp[1] && frame[n + 2] == tcp[2] && frame[n + 3] == tcp[3];
    assert frame[n + 12] == tcp[12];
    assert CheckNlp(frame);
  }

  /** Among frames of the loopback type, exactly those can pass whose very first byte reads as the start of an IP header:
      version 6, or version 4 with at least five words. */
  lemma NullFrameCanPassIff(first: Byte)
    ensures (exists frame: Bytes :: |frame| > 0 && frame[0] == first && Admitted(frame, NULL).Some?) <==>
            (first / 16 == 6 || (first / 16 == 4 && first % 16 >= 5))
  {
    var tcp: Bytes := [0, 1, 0, 1, 0, 0, 0, 0, 0, 0, 0, 0, 0x50, 0, 0, 0, 0, 0, 0, 0];
    if first / 16 == 6 {
      NullFramePasses([first, 0, 0, 0, 0, 20, IPPROTO_TCP] + seq(33, i => 0), tcp);
    }
    if first / 16 == 4 && first % 16 >= 5 {
      NullFramePasses([first, 0, 0, 100, 0, 0, 0, 0, 0, IPPROTO_TCP] + seq(first as int % 16 * 4 - 10, i => 0), tcp);
    }
  }

  // ---------------------------------------------------------------- concrete frames

  /** A segment from 10.0.0.1 port 40000 to 10.0.0.2 port 80. */
  const EXAMPLE_PACKET := Packet(40, 20, V4([10, 0, 0, 1]), V4([10, 0, 0, 2]),
                                 TcpHeader(40000, 80, 1, 1, Flags(false, false, false, false, true, false, false, false), 20))

  function ExampleBytes(): Bytes {
    EncodeIpv4(EXAMPLE_PACKET, 0, [0, 0, 0, 0], 64, 0, 0, [], 0, [0, 0, 0, 0, 0, 0])
  }

  /** The example passes over Ethernet and raw links, and is refused as a loopback frame. */
  lemma LoopbackFrameExample()
    ensures Admitted(ExampleBytes(), RAW) == Some(ExampleBytes())
    ensures Admitted([2, 0, 0, 0] + ExampleBytes(), NULL) == None
  {
    EncodedSegmentPasses(RAW, [], EXAMPLE_PACKET, 0, [0, 0, 0, 0], 64, 0, 0, [], 0, [0, 0, 0, 0, 0, 0]);
    assert [] + ExampleBytes() == ExampleBytes();
    LoopbackFramesAreRefused([2, 0, 0, 0], ExampleBytes());
  }

  /** A frame that passes untagged and with one tag, and is refused with two. */
  lemma DoubleTagExample() returns (frame: Bytes)
    ensures |frame| >= ENET_HEADER_LEN && Admitted(frame, EN10MB) == Some(ExampleBytes())
    ensures Admitted(Tagged(frame, 0, 1), EN10MB) == Some(ExampleBytes())
    ensures Admitted(Tagged(Tagged(frame, 0, 1), 0, 2), EN10MB) == None
  {
    var header := [0, 0, 0, 0, 0, 0, 0, 0, 0, 0, 0, 0, 0x08, 0x00];
    frame := header + ExampleBytes();
    hide EncodeIpv4, CheckNlp, NewTCPPacket;
    EncodedSegmentPasses(EN10MB, header, EXAMPLE_PACKET, 0, [0, 0, 0, 0], 64, 0, 0, [], 0, [0, 0, 0, 0, 0, 0]);
    assert Be16(frame, 12) == ETHERTYPE_IP;
    TagIsTransparentIff(frame, 0, 1);
    DoubleTagIsRefused(frame, 0, 1, 0, 2);
  }

  /** A second tag hides any frame. */
  lemma DoubleTagIsRefused(frame: Bytes, a0: Byte, a1: Byte, b0: Byte, b1: Byte)
    requires |frame| >= ENET_HEADER_LEN
    ensures Admitted(Tagged(Tagged(frame, a0, a1), b0, b1), EN10MB) == None
  {
    var once := Tagged(frame, a0, a1);
    var twice := Tagged(once, b0, b1);
    assert Be16(twice, 12) == ETHERTYPE_VLAN && Be16(twice, 16) == ETHERTYPE_VLAN;
  }
}
