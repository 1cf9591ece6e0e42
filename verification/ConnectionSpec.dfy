/** One tracked connection as a value: what each packet and each refresh tick does to it.
    The class in TCPConnection.dfy is proved to behave exactly like this. */
module ConnectionSpec {
  import opened Words
  import opened Packets

  datatype TcpState = SynSynack | SynackAck | Up | FinFinack | Closed | Reset {
    /** The TCP_STATE_* number. */
    function Number(): nat {
      match this
      case SynSynack => 1
      case SynackAck => 2
      case Up => 3
      case FinFinack => 4
      case Closed => 5
      case Reset => 6
    }

    predicate Finished() { Closed? || Reset? }
  }

  /** Handshake and close tracking. */
  datatype Close = Close(
    state: TcpState, finackFromDst: U32, finackFromSrc: U32, recvdFromDst: bool, recvdFromSrc: bool)

  /** Bytes seen during one refresh interval, stamped in microseconds. */
  datatype AvgStat = AvgStat(ts: U64, size: U32)

  datatype Traffic = Traffic(packets: nat, bytes: nat, interval: U32, avgstack: seq<AvgStat>)

  datatype Conn = Conn(src: Endpoint, dst: Endpoint, close: Close, traffic: Traffic, lastPacket: int, rate: I32) {
    function Pair(): set<Endpoint> { {src, dst} }
  }

  const WINDOW := 3_000_000
  const SYN_SYNACK_WAIT := 30
  const FIN_FINACK_WAIT := 60

  function OpenState(p: Packet): TcpState {
    if p.Syn() then SynSynack else Up
  }

  function Open(p: Packet, now: int): Conn {
    Conn(p.Source(), p.Target(),
         Close(OpenState(p), 0, 0, false, false),
         Traffic(1, p.totalLen, p.totalLen, []),
         now, 0)
  }

  /** A FIN makes the tracker expect its acknowledgement from the other side. Sides are told apart by address. */
  function NoteFin(k: Close, p: Packet, src: Address, dst: Address): Close {
    if !p.Fin() then k else
      Close(k.state,
            if p.src == src then p.FinAck() else k.finackFromDst,
            if p.src == dst then p.FinAck() else k.finackFromSrc,
            k.recvdFromDst && p.src != src,
            k.recvdFromSrc && p.src != dst)
  }

  /** In FIN_FINACK an ACK with the expected number confirms the peer's FIN; both confirmed means closed. */
  function NoteAck(k: Close, p: Packet, src: Address, dst: Address): Close {
    var fromSrc := k.recvdFromSrc || (p.src == src && p.tcp.ackn == k.finackFromSrc);
    var fromDst := k.recvdFromDst || (p.src == dst && p.tcp.ackn == k.finackFromDst);
    k.(recvdFromSrc := fromSrc, recvdFromDst := fromDst, state := if fromSrc && fromDst then Closed else FinFinack)
  }

  function Advance(k: Close, p: Packet, src: Address, dst: Address): Close {
    match k.state
    case SynSynack => if p.Syn() && p.Ack() then k.(state := SynackAck) else k
    case SynackAck => if p.Ack() then k.(state := Up) else k
    case Up => if p.Fin() then k.(state := FinFinack) else k
    case FinFinack => if p.Ack() then NoteAck(k, p, src, dst) else k
    case Closed => k
    case Reset => k
  }

  function Follow(k: Close, p: Packet, src: Address, dst: Address): Close {
    var k' := Advance(NoteFin(k, p, src, dst), p, src, dst);
    if p.Rst() then k'.(state := Reset) else k'
  }

  function Count(t: Traffic, p: Packet): Traffic {
    t.(packets := t.packets + 1, bytes := t.bytes + p.totalLen, interval := Wrap32(t.interval + p.totalLen))
  }

  predicate Accepts(c: Conn, p: Packet) {
    c.close.state != Closed && c.Pair() == p.Pair()
  }

  function Accept(c: Conn, p: Packet, now: int): Conn {
    if !Accepts(c, p) then c else
      c.(close := Follow(c.close, p, c.src.addr, c.dst.addr), traffic := Count(c.traffic, p), lastPacket := now)
  }

  /** The oldest timestamp no longer kept at time now, in wrapping 64-bit arithmetic. */
  function Limit(now: U64): U64 {
    Wrap64(now - WINDOW)
  }

  /** The entries in front of the first stale one. */
  function BeforeStale(s: seq<AvgStat>, limit: U64): seq<AvgStat> {
    if s == [] || s[0].ts <= limit then [] else [s[0]] + BeforeStale(s[1..], limit)
  }

  /** One refresh tick: the purge reads the clock first, the new entry is stamped by a second reading. */
  function Refresh(t: Traffic, purgeUs: U64, stampUs: U64): Traffic {
    t.(avgstack := [AvgStat(stampUs, t.interval)] + BeforeStale(t.avgstack, Limit(purgeUs)), interval := 0)
  }

  function SumSizes(s: seq<AvgStat>): nat {
    if s == [] then 0 else s[0].size + SumSizes(s[1..])
  }

  /** The first timestamp that is not 0, or 0. */
  function FirstStamp(s: seq<AvgStat>): U64 {
    if s == [] then 0 else if s[0].ts != 0 then s[0].ts else FirstStamp(s[1..])
  }

  function LastStamp(s: seq<AvgStat>): U64 {
    if s == [] then 0 else s[|s| - 1].ts
  }

  /** Bytes per second as the accumulators leave them, all in wrapping arithmetic. */
  function Rate(s: seq<AvgStat>, refreshUs: U32): nat {
    var interval := Wrap64(FirstStamp(s) - LastStamp(s) + refreshUs);
    if interval > 0 then Wrap32(SumSizes(s)) * 1_000_000 / interval else 0
  }

  /** A packet, a maintenance tick, or a redraw of the display, which recalculates the rate; spill is what the machine
      leaves for a rate beyond the int that stores it. */
  datatype Event =
    | Arrival(packet: Packet, seconds: int)
    | Tick(purgeUs: U64, stampUs: U64)
    | Redraw(refreshUs: U32, spill: I32)

  function Step(c: Conn, e: Event): Conn {
    match e
    case Arrival(p, now) => Accept(c, p, now)
    case Tick(t1, t2) => c.(traffic := Refresh(c.traffic, t1, t2))
    case Redraw(refreshUs, spill) => c.(rate := ToInt(Rate(c.traffic.avgstack, refreshUs), spill))
  }

  /** When the maintenance loop drops a connection. */
  predicate Expired(c: Conn, now: int, remto: int) {
    var idle := now - c.lastPacket;
    || (c.close.state.Finished() && idle > remto)
    || (c.close.state == SynSynack && idle > SYN_SYNACK_WAIT)
    || (c.close.state == FinFinack && idle > FIN_FINACK_WAIT)
  }

  function Run(c: Conn, es: seq<Event>): Conn {
    if es == [] then c else Step(Run(c, es[..|es| - 1]), es[|es| - 1])
  }

  /** The packets of a run that the connection took. */
  function Log(c: Conn, es: seq<Event>): seq<Packet> {
    if es == [] then [] else
      var before, e := es[..|es| - 1], es[|es| - 1];
      if e.Arrival? && Accepts(Run(c, before), e.packet) then Log(c, before) + [e.packet] else Log(c, before)
  }

  /** The packets of a run that belong to the connection, taken or not. */
  function Offered(c: Conn, es: seq<Event>): seq<Packet> {
    if es == [] then [] else
      var before, e := es[..|es| - 1], es[|es| - 1];
      if e.Arrival? && c.Pair() == e.packet.Pair() then Offered(c, before) + [e.packet] else Offered(c, before)
  }
}
