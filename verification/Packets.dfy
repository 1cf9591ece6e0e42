/** Machine words, and the decoded packets that every other component works on. */
module Words {
  datatype Option<+T> = None | Some(value: T)

  const TWO32: int := 0x1_0000_0000
  const TWO64: int := 0x1_0000_0000_0000_0000

  type Byte = x: int | 0 <= x < 0x100
  type U16 = x: int | 0 <= x < 0x1_0000
  type U32 = x: int | 0 <= x < 0x1_0000_0000
  type I32 = x: int | -0x8000_0000 <= x < 0x8000_0000
  type U64 = x: int | 0 <= x < 0x1_0000_0000_0000_0000

  /** Unsigned 32-bit arithmetic wraps around. */
  function Wrap32(x: int): U32 {
    x % TWO32
  }

  /** A partial sum may wrap without changing the wrapped sum. */
  lemma WrapAdd(a: int, b: int)
    ensures Wrap32(Wrap32(a) + b) == Wrap32(a + b)
  {
    assert a == (a / TWO32) * TWO32 + Wrap32(a);
    assert a + b == (a / TWO32) * TWO32 + (Wrap32(a) + b);
    WrapMultiple(Wrap32(a) + b, a / TWO32);
  }

  lemma {:induction false} WrapMultiple(x: int, k: int)
    ensures Wrap32(k * TWO32 + x) == Wrap32(x)
    decreases if k < 0 then -k else k
  {
    if k > 0 {
      WrapMultiple(x, k - 1);
      assert k * TWO32 + x == (k - 1) * TWO32 + x + TWO32;
    } else if k < 0 {
      WrapMultiple(x, k + 1);
      assert k * TWO32 + x == (k + 1) * TWO32 + x - TWO32;
    }
  }

  function Get<K, V>(m: map<K, V>, k: K): Option<V> {
    if k in m then Some(m[k]) else None
  }

  /** Conversion to a 32-bit int. A value that does not fit leaves whatever the machine makes of it, never the value. */
  function ToInt(x: int, spill: I32): (r: I32)
    ensures r == x <==> -0x8000_0000 <= x < 0x8000_0000
  {
    if -0x8000_0000 <= x < 0x8000_0000 then x else spill
  }

  /** Unsigned 64-bit arithmetic wraps around. */
  function Wrap64(x: int): U64 {
    x % TWO64
  }
}

module Packets {
  import opened Words

  type Octets4 = s: seq<Byte> | |s| == 4 witness [0, 0, 0, 0]
  type Octets16 = s: seq<Byte> | |s| == 16 witness [0, 0, 0, 0, 0, 0, 0, 0, 0, 0, 0, 0, 0, 0, 0, 0]

  datatype Address = V4(octets: Octets4) | V6(hextets: Octets16)

  datatype Endpoint = Endpoint(addr: Address, port: U16)

  /** The eight bits of the flag byte of a TCP header, as its accessors report them. */
  datatype Flags = Flags(fin: bool, syn: bool, rst: bool, psh: bool, ack: bool, urg: bool, ece: bool, cwr: bool)

  datatype TcpHeader = TcpHeader(srcPort: U16, dstPort: U16, seqn: U32, ackn: U32, flags: Flags, headerLen: U16)

  datatype Packet = Packet(totalLen: U32, headerLen: U16, src: Address, dst: Address, tcp: TcpHeader) {
    predicate Fin() { tcp.flags.fin }
    predicate Syn() { tcp.flags.syn }
    predicate Rst() { tcp.flags.rst }
    predicate Ack() { tcp.flags.ack }
    predicate Ece() { tcp.flags.ece }

    function Source(): Endpoint { Endpoint(src, tcp.srcPort) }
    function Target(): Endpoint { Endpoint(dst, tcp.dstPort) }

    /** The unordered pair of endpoints: the same for both directions of a connection. */
    function Pair(): set<Endpoint> { {Source(), Target()} }

    /** Length of what follows the network header, in wrapping 32-bit arithmetic. */
    function PayloadLen(): U32 { Wrap32(totalLen - headerLen) }

    /** Length of the TCP segment text, in wrapping 32-bit arithmetic. */
    function SegmentLen(): U32 { Wrap32(PayloadLen() - tcp.headerLen) }

    /** The acknowledgement number the tracker expects for a FIN carried by this packet. */
    function FinAck(): U32 { Wrap32(tcp.seqn + SegmentLen() + 1) }

    /** What the packet parser guarantees: one IP version, with that version's header length. */
    predicate WellFormed() {
      && (src.V4? <==> dst.V4?)
      && (src.V4? ==> headerLen >= 20)
      && (src.V6? ==> headerLen == 40)
    }

    /** The segment length the protocols define: the IPv6 length field does not count the IPv6 header
        (RFC 8200 section 3), the IPv4 one counts the IPv4 header (RFC 791 section 3.1). */
    function RfcSegmentLen(): int {
      if src.V6? then totalLen - tcp.headerLen else totalLen - headerLen - tcp.headerLen
    }

    /** The acknowledgement of a FIN according to RFC 793 section 3.3. */
    function RfcFinAck(): U32 { Wrap32(tcp.seqn + RfcSegmentLen() + 1) }
  }

  /** A packet with the second at which it was captured. */
  datatype Capture = Capture(packet: Packet, seconds: int)

  /** Direct or reversed comparison of the four address fields is equality of unordered endpoint pairs. */
  lemma MatchIsSamePair(a: Endpoint, b: Endpoint, x: Endpoint, y: Endpoint)
    ensures {a, b} == {x, y} <==> (a == x && b == y) || (a == y && b == x)
  {
    if {a, b} == {x, y} {
      assert a in {x, y} && b in {x, y};
      assert x in {a, b} && y in {a, b};
    }
  }
}
