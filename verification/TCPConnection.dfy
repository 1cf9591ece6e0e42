/** The tracked connection as the object that packets and ticks update in place. */
module TcpConnections {
  import opened Words
  import opened Packets
  import opened ConnectionSpec
  import TrafficTheorems

  class TCPConnection {
    const srcAddr: Address
    const dstAddr: Address
    const srcPort: U16
    const dstPort: U16
    var state: TcpState
    var finackFromDst: U32
    var finackFromSrc: U32
    var recvdFinackFromSrc: bool
    var recvdFinackFromDst: bool
    var lastPktTs: int
    var packetCount: nat
    var totalByteCount: nat
    var totalBytesThisInterval: U32
    var avgstack: seq<AvgStat>
    var avgBps: I32

    function View(): Conn
      reads this
    {
      Conn(Endpoint(srcAddr, srcPort), Endpoint(dstAddr, dstPort),
           Close(state, finackFromDst, finackFromSrc, recvdFinackFromDst, recvdFinackFromSrc),
           Traffic(packetCount, totalByteCount, totalBytesThisInterval, avgstack),
           lastPktTs, avgBps)
    }

    constructor (p: Packet, now: int)
      ensures View() == Open(p, now)
    {
      srcAddr, dstAddr := p.src, p.dst;
      srcPort, dstPort := p.tcp.srcPort, p.tcp.dstPort;
      packetCount := 1;
      if p.Syn() {
        state := SynSynack;
      } else {
        state := Up;
      }
      lastPktTs := now;
      totalByteCount := p.totalLen;
      totalBytesThisInterval := p.totalLen;
      avgstack := [];
      avgBps := 0;
      finackFromDst, finackFromSrc := 0, 0;
      recvdFinackFromSrc, recvdFinackFromDst := false, false;
    }

    predicate IsFinished()
      reads this
      ensures IsFinished() <==> View().close.state.Finished()
    {
      state == Closed || state == Reset
    }

    function GetIdleSeconds(now: int): int
      reads this
    {
      now - lastPktTs
    }

    predicate Match(sa: Address, da: Address, sp: U16, dp: U16) {
      srcAddr == sa && dstAddr == da && !(dp != dstPort || sp != srcPort)
    }

    lemma MatchesEitherWay(p: Packet)
      ensures Match(p.src, p.dst, p.tcp.srcPort, p.tcp.dstPort) || Match(p.dst, p.src, p.tcp.dstPort, p.tcp.srcPort) <==>
              View().Pair() == p.Pair()
    {
      MatchIsSamePair(View().src, View().dst, p.Source(), p.Target());
    }

    /** Taken exactly when the connection is not closed and the packet belongs to its endpoint pair;
        refused packets change nothing, taken ones change the connection as ConnectionSpec.Accept says. */
    method AcceptPacket(p: Packet, now: int) returns (taken: bool)
      modifies this
      ensures taken <==> old(Accepts(View(), p))
      ensures View() == old(Accept(View(), p, now))
    {
      var payloadLen := Wrap32(p.PayloadLen() - p.tcp.headerLen);
      if state == Closed {
        return false;
      }
      MatchesEitherWay(p);
      if Match(p.src, p.dst, p.tcp.srcPort, p.tcp.dstPort) || Match(p.dst, p.src, p.tcp.dstPort, p.tcp.srcPort) {
        packetCount := packetCount + 1;
        UpdateCountersForPacket(p);
        ExpectFinAck(p, payloadLen);
        AdvanceState(p);
        if p.Rst() {
          state := Reset;
        }
        lastPktTs := now;
        return true;
      }
      return false;
    }

    /** The FIN block: the other side's acknowledgement is now awaited. */
    method ExpectFinAck(p: Packet, payloadLen: U32)
      requires payloadLen == p.SegmentLen()
      modifies this`finackFromDst, this`finackFromSrc, this`recvdFinackFromDst, this`recvdFinackFromSrc
      ensures View() == old(View().(close := NoteFin(View().close, p, srcAddr, dstAddr)))
    {
      if p.Fin() {
        if p.src == srcAddr {
          if payloadLen == 0 {
            finackFromDst := Wrap32(p.tcp.seqn + 1);
          } else {
            finackFromDst := Wrap32(p.tcp.seqn + payloadLen + 1);
          }
          recvdFinackFromDst := false;
        }
        if p.src == dstAddr {
          if payloadLen == 0 {
            finackFromSrc := Wrap32(p.tcp.seqn + 1);
          } else {
            finackFromSrc := Wrap32(p.tcp.seqn + payloadLen + 1);
          }
          recvdFinackFromSrc := false;
        }
      }
    }

    /** The state block: handshake, first FIN, and the acknowledgements of both FINs. */
    method AdvanceState(p: Packet)
      modifies this`state, this`recvdFinackFromDst, this`recvdFinackFromSrc
      ensures View() == old(View().(close := Advance(View().close, p, srcAddr, dstAddr)))
    {
      if state == SynackAck {
        if p.Ack() {
          state := Up;
        }
      } else if state == SynSynack {
        if p.Syn() && p.Ack() {
          state := SynackAck;
        }
      } else if state == Up {
        if p.Fin() {
          state := FinFinack;
        }
      } else if state == FinFinack {
        if p.Ack() {
          if p.src == srcAddr {
            if p.tcp.ackn == finackFromSrc {
              recvdFinackFromSrc := true;
            }
          }
          if p.src == dstAddr {
            if p.tcp.ackn == finackFromDst {
              recvdFinackFromDst := true;
            }
          }
          if recvdFinackFromSrc && recvdFinackFromDst {
            state := Closed;
          }
        }
      }
    }

    method UpdateCountersForPacket(p: Packet)
      modifies this`totalBytesThisInterval, this`totalByteCount
      ensures totalBytesThisInterval == Wrap32(old(totalBytesThisInterval) + p.totalLen)
      ensures totalByteCount == old(totalByteCount) + p.totalLen
    {
      totalBytesThisInterval := Wrap32(totalBytesThisInterval + p.totalLen);
      totalByteCount := totalByteCount + p.totalLen;
    }

    /** Finds the first stale entry and erases everything from there on. */
    method PurgeAvgStack(now: U64)
      modifies this`avgstack
      ensures avgstack == BeforeStale(old(avgstack), Limit(now))
    {
      var limit := Limit(now);
      TrafficTheorems.BeforeStaleIsPrefix(avgstack, limit);
      var i := 0;
      while i < |avgstack|
        invariant 0 <= i <= |avgstack|
        invariant avgstack == old(avgstack)
        invariant forall k :: 0 <= k < i ==> avgstack[k].ts > limit
      {
        if avgstack[i].ts <= limit {
          avgstack := avgstack[..i];
          break;
        }
        i := i + 1;
      }
    }

    method UpdateCounters(purgeUs: U64, stampUs: U64)
      modifies this
      ensures View() == old(Step(View(), Tick(purgeUs, stampUs)))
    {
      PurgeAvgStack(purgeUs);
      avgstack := [AvgStat(stampUs, totalBytesThisInterval)] + avgstack;
      totalBytesThisInterval := 0;
    }

    /** Leaves the specified rate, narrowed to int, in the rate field and changes nothing else. */
    method RecalcAvg(refreshUs: U32, spill: I32)
      modifies this`avgBps
      ensures View() == old(Step(View(), Redraw(refreshUs, spill)))
    {
      var totalBytes: U32, time1: U64, time2: U64 := 0, 0, 0;
      var i := 0;
      while i < |avgstack|
        invariant 0 <= i <= |avgstack|
        invariant totalBytes == Wrap32(SumSizes(avgstack[..i]))
        invariant time1 == LastStamp(avgstack[..i])
        invariant time2 == FirstStamp(avgstack[..i])
      {
        AccumulateOne(avgstack, i);
        totalBytes := Wrap32(totalBytes + avgstack[i].size);
        time1 := avgstack[i].ts;
        if time2 == 0 {
          time2 := avgstack[i].ts;
        }
        i := i + 1;
      }
      assert avgstack[..i] == avgstack;
      var interval := Wrap64(time2 - time1 + refreshUs);
      if interval > 0 {
        avgBps := ToInt(totalBytes * 1_000_000 / interval, spill);
      } else {
        avgBps := 0;
      }
    }
  }

  lemma {:induction false} AccumulateOne(s: seq<AvgStat>, i: nat)
    requires i < |s|
    ensures Wrap32(SumSizes(s[..i + 1])) == Wrap32(Wrap32(SumSizes(s[..i])) + s[i].size)
    ensures FirstStamp(s[..i + 1]) ==
            if FirstStamp(s[..i]) == 0 then s[i].ts else FirstStamp(s[..i])
  {
    SumSnoc(s[..i], s[i]);
    FirstStampSnoc(s[..i], s[i]);
    assert s[..i + 1] == s[..i] + [s[i]];
    WrapAdd(SumSizes(s[..i]), s[i].size);
  }

  lemma {:induction false} SumSnoc(s: seq<AvgStat>, e: AvgStat)
    ensures SumSizes(s + [e]) == SumSizes(s) + e.size
  {
    TrafficTheorems.SumSplit(s + [e], |s|);
    assert (s + [e])[..|s|] == s && (s + [e])[|s|..] == [e];
    assert SumSizes([e]) == e.size;
  }

  lemma {:induction false} FirstStampSnoc(s: seq<AvgStat>, e: AvgStat)
    ensures FirstStamp(s + [e]) ==
            if FirstStamp(s) == 0 then e.ts else FirstStamp(s)
  {
    if s == [] {
      assert s + [e] == [e];
      assert FirstStamp([]) == 0;
      assert [e][1..] == [];
    } else {
      assert (s + [e])[1..] == s[1..] + [e];
      FirstStampSnoc(s[1..], e);
    }
  }
}
