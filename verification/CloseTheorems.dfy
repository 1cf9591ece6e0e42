/** When a tracked connection is taken for closed: what is guaranteed, and where the guarantee ends. */
module CloseTheorems {
  import opened Words
  import opened Packets
  import opened ConnectionSpec
  import opened ConnectionHistory

  // ---------------------------------------------------------------- runs

  lemma {:induction false} RunConcat(c: Conn, es: seq<Event>, fs: seq<Event>)
    ensures Run(c, es + fs) == Run(Run(c, es), fs)
  {
    if fs == [] {
      assert es + fs == es;
    } else {
      var n := |fs| - 1;
      assert (es + fs)[..|es + fs| - 1] == es + fs[..n];
      RunConcat(c, es, fs[..n]);
    }
  }

  lemma NumbersTellStatesApart(s: TcpState, s': TcpState)
    ensures s.Number() == s'.Number() <==> s == s'
  {
  }

  /** Every step keeps the state number or raises it by one, or resets; CLOSED and RESET are final. */
  lemma StateStep(c: Conn, e: Event)
    ensures var s, s' := c.close.state, Step(c, e).close.state;
            && s.Number() <= s'.Number()
            && (s' == Reset || s'.Number() <= s.Number() + 1)
            && (s.Finished() ==> s' == s)
  {
    if e.Arrival? && Accepts(c, e.packet) {
      var k := NoteFin(c.close, e.packet, c.src.addr, c.dst.addr);
      assert k.state == c.close.state;
      assert Advance(k, e.packet, c.src.addr, c.dst.addr).state.Number() <= k.state.Number() + 1;
    }
  }

  /** Over whole runs the state number never decreases, and CLOSED and RESET never end. */
  lemma {:induction false} StatesGoForward(c: Conn, es: seq<Event>)
    ensures c.close.state.Number() <= Run(c, es).close.state.Number()
    ensures c.close.state.Finished() ==> Run(c, es).close.state == c.close.state
  {
    if es != [] {
      StatesGoForward(c, es[..|es| - 1]);
      StateStep(Run(c, es[..|es| - 1]), es[|es| - 1]);
    }
  }

  /** A closed connection takes no more packets: only the averaging window and the rate shown for it move. */
  lemma {:induction false} ClosedIsFrozen(c: Conn, es: seq<Event>)
    requires c.close.state == Closed
    ensures var r := Run(c, es);
            && r == c.(traffic := r.traffic, rate := r.rate)
            && r.traffic.packets == c.traffic.packets && r.traffic.bytes == c.traffic.bytes
    ensures Log(c, es) == []
  {
    if es != [] {
      ClosedIsFrozen(c, es[..|es| - 1]);
    }
  }

  /** The endpoints of a connection never change. */
  lemma {:induction false} EndpointsStay(c: Conn, es: seq<Event>)
    ensures Run(c, es).src == c.src && Run(c, es).dst == c.dst
  {
    if es != [] {
      EndpointsStay(c, es[..|es| - 1]);
    }
  }

  /** Until it closes, a connection takes every packet of its endpoint pair. */
  lemma {:induction false} OpenTakesAll(c: Conn, es: seq<Event>)
    requires Run(c, es).close.state != Closed
    ensures Log(c, es) == Offered(c, es)
  {
    if es != [] {
      var before, e := es[..|es| - 1], es[|es| - 1];
      StateStep(Run(c, before), e);
      OpenTakesAll(c, before);
      EndpointsStay(c, before);
    }
  }

  lemma {:induction false} LogIsOfThePair(c: Conn, es: seq<Event>)
    ensures forall i :: 0 <= i < |Log(c, es)| ==> Log(c, es)[i].Pair() == c.Pair()
    ensures forall i :: 0 <= i < |Offered(c, es)| ==> Offered(c, es)[i].Pair() == c.Pair()
  {
    if es != [] {
      LogIsOfThePair(c, es[..|es| - 1]);
      EndpointsStay(c, es[..|es| - 1]);
    }
  }

  // ---------------------------------------------------------------- the handshake

  /** Outside RESET, a connection shown as up, closing or closed completed the handshake of RFC 793 section 3.4. */
  lemma UpMeansEstablished(c: Conn, es: seq<Event>)
    requires Fresh(c)
    requires var s := Run(c, es).close.state; s == Up || s == FinFinack || s == Closed
    ensures Established(c.close.state, Log(c, es))
    ensures c.close.state == SynSynack ==>
              exists i, j :: 0 <= i < j < |Log(c, es)| && Log(c, es)[i].Syn() && Log(c, es)[i].Ack() && Log(c, es)[j].Ack()
  {
    var h := Log(c, es);
    HistoryDeterminesClose(c, es);
    PhasesNest(c.close.state, h);
    if c.close.state == SynSynack {
      var j :| 0 <= j < |h| && h[j].Ack() && SynAckSeen(SynSynack, h[..j]);
      var i :| 0 <= i < j && h[..j][i].Syn() && h[..j][i].Ack();
      assert h[i].Syn() && h[i].Ack();
    }
  }

  ghost predicate SynAckTaken(h: seq<Packet>) {
    exists i :: 0 <= i < |h| && h[i].Syn() && h[i].Ack()
  }

  ghost predicate HandshakeTaken(h: seq<Packet>) {
    exists i, j :: 0 <= i < j < |h| && h[i].Syn() && h[i].Ack() && h[j].Ack()
  }

  /** A connection opened by a SYN waits for the answer until a SYN with ACK or a RST is taken, and is up or beyond only
      after the whole handshake of RFC 793 section 3.4. */
  lemma SynWaitsForAnswer(p: Packet, now: int, es: seq<Event>)
    requires p.Syn()
    ensures var h, s := Log(Open(p, now), es), Run(Open(p, now), es).close.state;
            && (s == SynSynack <==> !SynAckTaken(h) && !HasRst(h))
            && (s == SynackAck <==> SynAckTaken(h) && !HandshakeTaken(h) && !HasRst(h))
            && (s == Up || s == FinFinack || s == Closed ==> HandshakeTaken(h))
  {
    hide Log, Run, Closing, Confirmed;
    var c := Open(p, now);
    var h := Log(c, es);
    HistoryDeterminesClose(c, es);
    PhasesNest(SynSynack, h);
    EstablishedIsHandshake(h);
  }

  lemma EstablishedIsHandshake(h: seq<Packet>)
    ensures Established(SynSynack, h) <==> HandshakeTaken(h)
  {
    if Established(SynSynack, h) {
      var j :| 0 <= j < |h| && h[j].Ack() && SynAckSeen(SynSynack, h[..j]);
      var i :| 0 <= i < j && h[..j][i].Syn() && h[..j][i].Ack();
      assert h[i].Syn() && h[i].Ack();
    }
    if HandshakeTaken(h) {
      var i, j :| 0 <= i < j < |h| && h[i].Syn() && h[i].Ack() && h[j].Ack();
      assert h[..j][i].Syn() && h[..j][i].Ack();
      assert SynAckSeen(SynSynack, h[..j]);
    }
  }

  /** A connection opened by any other packet is up at once, and stays so until a FIN or a RST is taken. */
  lemma OthersAreUpAtOnce(p: Packet, now: int, es: seq<Event>)
    requires !p.Syn()
    ensures var h, s := Log(Open(p, now), es), Run(Open(p, now), es).close.state;
            && s != SynSynack && s != SynackAck
            && (s == Up <==> !HasRst(h) && forall i :: 0 <= i < |h| ==> !h[i].Fin())
  {
    hide Log, Run, Confirmed;
    HistoryDeterminesClose(Open(p, now), es);
    var h := Log(Open(p, now), es);
    if i :| 0 <= i < |h| && h[i].Fin() {
      assert Established(Up, h[..i]);
    }
  }

  // ---------------------------------------------------------------- when it was last heard

  /** Event i of the run is a packet that the connection took. */
  predicate TakenAt(c: Conn, es: seq<Event>, i: nat)
    requires i < |es|
  {
    es[i].Arrival? && Accepts(Run(c, es[..i]), es[i].packet)
  }

  lemma {:induction false} QuietSince(c: Conn, es: seq<Event>, i: nat)
    requires i <= |es| && forall j :: i <= j < |es| ==> !TakenAt(c, es, j)
    ensures Run(c, es).lastPacket == Run(c, es[..i]).lastPacket
  {
    hide Accepts, Refresh, Rate;
    var n := |es| - 1;
    if i <= n {
      var before := es[..n];
      forall j | i <= j < n ensures !TakenAt(c, before, j) {
        assert before[..j] == es[..j] && !TakenAt(c, es, j);
      }
      QuietSince(c, before, i);
      assert before[..i] == es[..i] && !TakenAt(c, es, n);
    } else {
      assert es[..i] == es;
    }
  }

  predicate LastTaken(c: Conn, es: seq<Event>, i: nat)
    requires i < |es|
  {
    TakenAt(c, es, i) && forall j :: i < j < |es| ==> !TakenAt(c, es, j)
  }

  /** Every packet taken renews the time of the last packet, in whatever state; nothing else moves it. */
  lemma LastPacketIsLastTaken(c: Conn, es: seq<Event>)
    ensures (forall i :: 0 <= i < |es| ==> !TakenAt(c, es, i)) ==> Run(c, es).lastPacket == c.lastPacket
    ensures forall i :: 0 <= i < |es| && LastTaken(c, es, i) ==>
                          es[i].Arrival? && Run(c, es).lastPacket == es[i].seconds
  {
    hide Run, TakenAt, LastTaken;
    if forall i :: 0 <= i < |es| ==> !TakenAt(c, es, i) {
      QuietSince(c, es, 0);
      RunOfNothing(c, es[..0]);
    }
    forall i | 0 <= i < |es| && LastTaken(c, es, i) ensures es[i].Arrival? && Run(c, es).lastPacket == es[i].seconds {
      LastTakenRenews(c, es, i);
    }
  }

  lemma LastTakenRenews(c: Conn, es: seq<Event>, i: nat)
    requires i < |es| && LastTaken(c, es, i)
    ensures es[i].Arrival? && Run(c, es).lastPacket == es[i].seconds
  {
    hide Run, TakenAt;
    QuietSince(c, es, i + 1);
    TakenRenews(c, es, i);
  }

  lemma RunOfNothing(c: Conn, es: seq<Event>)
    requires es == []
    ensures Run(c, es) == c
  {
  }

  lemma TakenRenews(c: Conn, es: seq<Event>, i: nat)
    requires i < |es| && TakenAt(c, es, i)
    ensures es[i].Arrival? && Run(c, es[..i + 1]).lastPacket == es[i].seconds
  {
    hide Accepts, Follow, Count;
    assert es[..i + 1][..i] == es[..i];
  }

  /** Until the connection closes that is the last packet of its pair; p, which opened it, is the first. */
  lemma LastPacketIsLastOffered(p: Packet, now: int, es: seq<Event>)
    requires Run(Open(p, now), es).close.state != Closed
    ensures (forall i :: 0 <= i < |es| && es[i].Arrival? ==> es[i].packet.Pair() != p.Pair()) ==>
              Run(Open(p, now), es).lastPacket == now
    ensures forall i :: 0 <= i < |es| && es[i].Arrival? && es[i].packet.Pair() == p.Pair()
                        && (forall j :: i < j < |es| && es[j].Arrival? ==> es[j].packet.Pair() != p.Pair()) ==>
                          Run(Open(p, now), es).lastPacket == es[i].seconds
  {
    hide Run;
    var c := Open(p, now);
    LastPacketIsLastTaken(c, es);
    forall i | 0 <= i < |es| ensures TakenAt(c, es, i) <==> es[i].Arrival? && es[i].packet.Pair() == p.Pair() {
      OpenBefore(c, es, i);
      EndpointsStay(c, es[..i]);
    }
  }

  lemma OpenBefore(c: Conn, es: seq<Event>, i: nat)
    requires i <= |es| && Run(c, es).close.state != Closed
    ensures Run(c, es[..i]).close.state != Closed
  {
    assert es == es[..i] + es[i..];
    RunConcat(c, es[..i], es[i..]);
    StatesGoForward(Run(c, es[..i]), es[i..]);
  }

  // ---------------------------------------------------------------- closing

  /** Packet i is the last FIN of one endpoint and packet j of the other endpoint acknowledges it,
      j coming after some FIN that followed the handshake. */
  ghost predicate FinAcked(start: TcpState, h: seq<Packet>, i: int, j: int, closer: Endpoint, peer: Endpoint) {
    && 0 <= i < j < |h|
    && h[i].Fin() && h[i].Source() == closer
    && (forall k :: i < k < |h| ==> !(h[k].Fin() && h[k].Source() == closer))
    && h[j].Source() == peer && h[j].Ack() && h[j].tcp.ackn == h[i].FinAck()
    && Closing(start, h[..j])
  }

  ghost predicate FinAckedBy(start: TcpState, h: seq<Packet>, closer: Endpoint, peer: Endpoint) {
    exists i, j :: FinAcked(start, h, i, j, closer, peer)
  }

  /** Without RST in the log there is none in any prefix. */
  lemma NoRstInPrefix(h: seq<Packet>, n: nat)
    requires !HasRst(h) && n <= |h|
    ensures !HasRst(h[..n])
  {
    assert forall i :: 0 <= i < n ==> h[..n][i] == h[i];
  }

  lemma FinAckedConfirms(start: TcpState, h: seq<Packet>, i: int, j: int, closer: Endpoint, peer: Endpoint)
    requires !HasRst(h)
    requires FinAcked(start, h, i, j, closer, peer)
    requires forall k :: i < k < |h| ==> !(h[k].Fin() && h[k].src == closer.addr)
    ensures Confirmed(start, h, closer.addr, peer.addr)
  {
    hide HasRst, Closing;
    NoRstInPrefix(h, j);
    assert LastFin(h, closer.addr) == i;
    assert Confirms(start, h, j, closer.addr, peer.addr);
  }

  /** Every packet of the pair comes from one of the two endpoints. */
  lemma FromEitherEnd(p: Packet, src: Endpoint, dst: Endpoint)
    requires p.Pair() == {src, dst}
    ensures (p.Source() == src && p.Target() == dst) || (p.Source() == dst && p.Target() == src)
  {
    assert p.Source() in p.Pair() && p.Target() in p.Pair();
    assert src in p.Pair() && dst in p.Pair();
  }

  ghost predicate PairLog(h: seq<Packet>, src: Endpoint, dst: Endpoint) {
    forall i :: 0 <= i < |h| ==> h[i].Pair() == {src, dst}
  }

  lemma BothConfirmed(start: TcpState, h: seq<Packet>, src: Endpoint, dst: Endpoint)
    requires !HasRst(h) && PairLog(h, src, dst)
    requires FinAckedBy(start, h, src, dst) && FinAckedBy(start, h, dst, src)
    ensures Closing(start, h)
    ensures Confirmed(start, h, src.addr, dst.addr) && Confirmed(start, h, dst.addr, src.addr)
  {
    hide HasRst, Closing, Confirmed;
    var i, j :| FinAcked(start, h, i, j, src, dst);
    var i', j' :| FinAcked(start, h, i', j', dst, src);
    forall k | 0 <= k < |h| ensures h[k].Source() == src || h[k].Source() == dst { FromEitherEnd(h[k], src, dst); }
    if src.addr == dst.addr {
      // Sides cannot be told apart: the later of the two FINs is the last one for both.
      if i <= i' {
        FinAckedConfirms(start, h, i', j', dst, src);
      } else {
        FinAckedConfirms(start, h, i, j, src, dst);
      }
    } else {
      FinAckedConfirms(start, h, i, j, src, dst);
      FinAckedConfirms(start, h, i', j', dst, src);
    }
    ConfirmedOnlyWhenClosing(start, h, src.addr, dst.addr);
  }

  /** Close completeness: whatever else arrives and in whatever order, once each side's last FIN has been
      acknowledged the connection is closed. Simultaneous close, retransmitted FINs and sequence wrap-around included. */
  lemma CloseIsComplete(c: Conn, es: seq<Event>)
    requires Fresh(c)
    requires var h := Offered(c, es);
             !HasRst(h) && FinAckedBy(c.close.state, h, c.src, c.dst) && FinAckedBy(c.close.state, h, c.dst, c.src)
    ensures Run(c, es).close.state == Closed
  {
    if Run(c, es).close.state != Closed {
      OpenTakesAll(c, es);
      LogIsOfThePair(c, es);
      HistoryDeterminesClose(c, es);
      BothConfirmed(c.close.state, Log(c, es), c.src, c.dst);
    }
  }

  /** The peer acknowledged number 0 during the close. */
  ghost predicate ZeroAcked(start: TcpState, h: seq<Packet>, peer: Address) {
    exists j :: 0 <= j < |h| && h[j].src == peer && h[j].Ack() && h[j].tcp.ackn == 0 && Closing(start, h[..j])
  }

  /** One direction counts as closed: its last FIN was acknowledged, or it sent none and number 0, with which
      the expected numbers start, was acknowledged in its place. */
  ghost predicate SideDone(start: TcpState, h: seq<Packet>, closer: Endpoint, peer: Endpoint) {
    FinAckedBy(start, h, closer, peer) || (LastFin(h, closer.addr) == -1 && ZeroAcked(start, h, peer.addr))
  }

  lemma EitherEndOf(h: seq<Packet>, src: Endpoint, dst: Endpoint)
    requires PairLog(h, src, dst)
    ensures forall k :: 0 <= k < |h| ==> h[k].Source() == src || h[k].Source() == dst
  {
    forall k | 0 <= k < |h| ensures h[k].Source() == src || h[k].Source() == dst {
      FromEitherEnd(h[k], src, dst);
    }
  }

  /** Between distinct addresses a side is confirmed exactly when it is done. */
  lemma ConfirmedIffSideDone(start: TcpState, h: seq<Packet>, closer: Endpoint, peer: Endpoint)
    requires PairLog(h, closer, peer) && closer.addr != peer.addr && !HasRst(h)
    ensures Confirmed(start, h, closer.addr, peer.addr) <==> SideDone(start, h, closer, peer)
  {
    hide Closing, HasRst;
    EitherEndOf(h, closer, peer);
    if Confirmed(start, h, closer.addr, peer.addr) {
      var j :| 0 <= j < |h| && Confirms(start, h, j, closer.addr, peer.addr);
      var i := LastFin(h, closer.addr);
      if i >= 0 {
        assert FinAcked(start, h, i, j, closer, peer);
      }
    }
    if FinAckedBy(start, h, closer, peer) {
      var i, j :| FinAcked(start, h, i, j, closer, peer);
      FinAckedConfirms(start, h, i, j, closer, peer);
    }
    if LastFin(h, closer.addr) == -1 && ZeroAcked(start, h, peer.addr) {
      var j :| 0 <= j < |h| && h[j].src == peer.addr && h[j].Ack() && h[j].tcp.ackn == 0 && Closing(start, h[..j]);
      NoRstInPrefix(h, j);
      assert Confirms(start, h, j, closer.addr, peer.addr);
    }
  }

  /** Exactly when a connection between distinct addresses counts as closed. */
  lemma ClosedIffBothSidesDone(c: Conn, es: seq<Event>)
    requires Fresh(c) && c.src.addr != c.dst.addr
    ensures var h := Log(c, es);
            Run(c, es).close.state == Closed <==>
            !HasRst(h) && SideDone(c.close.state, h, c.src, c.dst) && SideDone(c.close.state, h, c.dst, c.src)
  {
    hide Confirmed, SideDone, HasRst, Closing, Log, Run;
    var h := Log(c, es);
    HistoryDeterminesClose(c, es);
    LogIsOfThePair(c, es);
    assert PairLog(h, c.src, c.dst) && PairLog(h, c.dst, c.src);
    if !HasRst(h) {
      ConfirmedIffSideDone(c.close.state, h, c.src, c.dst);
      ConfirmedIffSideDone(c.close.state, h, c.dst, c.src);
      ConfirmedOnlyWhenClosing(c.close.state, h, c.src.addr, c.dst.addr);
    }
  }

  /** Where no zero ACK stands in for a FIN, closed is exactly "no RST, and both last FINs acknowledged". */
  lemma ClosedIffBothFinsAcked(c: Conn, es: seq<Event>)
    requires Fresh(c) && c.src.addr != c.dst.addr
    requires var h := Log(c, es);
             && (LastFin(h, c.src.addr) == -1 ==> !ZeroAcked(c.close.state, h, c.dst.addr))
             && (LastFin(h, c.dst.addr) == -1 ==> !ZeroAcked(c.close.state, h, c.src.addr))
    ensures var h := Log(c, es);
            Run(c, es).close.state == Closed <==>
            !HasRst(h) && FinAckedBy(c.close.state, h, c.src, c.dst) && FinAckedBy(c.close.state, h, c.dst, c.src)
  {
    hide FinAckedBy, ZeroAcked, HasRst, LastFin, Log, Run;
    ClosedIffBothSidesDone(c, es);
  }

  // ---------------------------------------------------------------- where the guarantee ends

  /** A side that sent a FIN is not excused by a zero ACK. */
  lemma AckedSideSentFin(start: TcpState, h: seq<Packet>, closer: Endpoint, peer: Endpoint)
    requires FinAckedBy(start, h, closer, peer)
    ensures LastFin(h, closer.addr) >= 0
  {
    hide Closing;
    var i, j :| FinAcked(start, h, i, j, closer, peer);
    assert h[i].Fin() && h[i].src == closer.addr;
  }

  /** Between distinct addresses, exactly when a connection counts as closed without both FINs acknowledged:
      a zero ACK stands in for the FIN of at least one side. */
  lemma ClosedTooEarlyIff(c: Conn, es: seq<Event>)
    requires Fresh(c) && c.src.addr != c.dst.addr
    ensures var h, start := Log(c, es), c.close.state;
            (Run(c, es).close.state == Closed && !(FinAckedBy(start, h, c.src, c.dst) && FinAckedBy(start, h, c.dst, c.src)))
            <==>
            (&& !HasRst(h) && SideDone(start, h, c.src, c.dst) && SideDone(start, h, c.dst, c.src)
             && (LastFin(h, c.src.addr) == -1 || LastFin(h, c.dst.addr) == -1))
  {
    hide FinAckedBy, ZeroAcked, HasRst, LastFin, Log, Run;
    var h, start := Log(c, es), c.close.state;
    ClosedIffBothSidesDone(c, es);
    if FinAckedBy(start, h, c.src, c.dst) {
      AckedSideSentFin(start, h, c.src, c.dst);
    }
    if FinAckedBy(start, h, c.dst, c.src) {
      AckedSideSentFin(start, h, c.dst, c.src);
    }
  }

  /** Exactly when a connection counts as closed although the given side, server or client, sent no FIN. */
  lemma ClosedWithoutFinOf(c: Conn, es: seq<Event>, silent: Endpoint, other: Endpoint)
    requires Fresh(c) && c.src.addr != c.dst.addr
    requires (silent == c.dst && other == c.src) || (silent == c.src && other == c.dst)
    requires LastFin(Log(c, es), silent.addr) == -1
    ensures var h := Log(c, es);
            Run(c, es).close.state == Closed <==>
            !HasRst(h) && ZeroAcked(c.close.state, h, other.addr) && SideDone(c.close.state, h, other, silent)
  {
    hide FinAckedBy, ZeroAcked, HasRst, LastFin, Log, Run;
    ClosedIffBothSidesDone(c, es);
    if FinAckedBy(c.close.state, Log(c, es), silent, other) {
      AckedSideSentFin(c.close.state, Log(c, es), silent, other);
    }
  }

  /** The case of a server that sent no FIN, with the confirmation of the client's FIN as the field records it. */
  lemma ClosedWithoutServerFin(c: Conn, es: seq<Event>)
    requires Fresh(c) && c.src.addr != c.dst.addr
    requires LastFin(Log(c, es), c.dst.addr) == -1
    ensures var h := Log(c, es);
            Run(c, es).close.state == Closed <==>
            && !HasRst(h)
            && Confirmed(c.close.state, h, c.src.addr, c.dst.addr)
            && ZeroAcked(c.close.state, h, c.src.addr)
  {
    hide SideDone, Confirmed, ZeroAcked, HasRst, LastFin, Log, Run;
    LogIsOfThePair(c, es);
    ClosedWithoutFinOf(c, es, c.dst, c.src);
    if !HasRst(Log(c, es)) {
      ConfirmedIffSideDone(c.close.state, Log(c, es), c.src, c.dst);
    }
  }

  /** Packets of a connection between two ports of one address all come from that address. */
  lemma OneAddress(h: seq<Packet>, src: Endpoint, dst: Endpoint)
    requires PairLog(h, src, dst) && src.addr == dst.addr
    ensures forall k :: 0 <= k < |h| ==> h[k].src == src.addr
  {
    EitherEndOf(h, src, dst);
  }

  /** Exactly when a connection between two ports of one address counts as closed: one ACK, from either end, of the
      last FIN, of either end, is enough. */
  lemma LoopbackClosedIff(c: Conn, es: seq<Event>)
    requires Fresh(c) && c.src.addr == c.dst.addr
    ensures var h, a := Log(c, es), c.src.addr;
            Run(c, es).close.state == Closed <==>
            && !HasRst(h)
            && exists j :: 0 <= j < |h| && LastFin(h, a) <= j && h[j].Ack() && h[j].tcp.ackn == ExpectedAck(h, a)
                           && Closing(c.close.state, h[..j])
  {
    hide Closing, HasRst, LastFin, ExpectedAck, Log, Run;
    var h, a, start := Log(c, es), c.src.addr, c.close.state;
    HistoryDeterminesClose(c, es);
    LogIsOfThePair(c, es);
    OneAddress(h, c.src, c.dst);
    ConfirmedOnlyWhenClosing(start, h, a, a);
    if Confirmed(start, h, a, a) {
      var j :| 0 <= j < |h| && Confirms(start, h, j, a, a);
    }
    if !HasRst(h) {
      forall j | 0 <= j < |h| && LastFin(h, a) <= j && h[j].Ack() && h[j].tcp.ackn == ExpectedAck(h, a) && Closing(start, h[..j])
        ensures Confirmed(start, h, a, a)
      {
        NoRstInPrefix(h, j);
        assert Confirms(start, h, j, a, a);
      }
    }
  }

  /** So between two ports of one address an ACK of the last FIN closes the connection, whichever sides sent them and
      whatever else is offered. */
  lemma LoopbackClosesOnOneFin(c: Conn, es: seq<Event>, j: int)
    requires Fresh(c) && c.src.addr == c.dst.addr
    requires var h, a := Offered(c, es), c.src.addr;
             && !HasRst(h)
             && 0 <= j < |h| && LastFin(h, a) <= j && h[j].Ack() && h[j].tcp.ackn == ExpectedAck(h, a)
             && Closing(c.close.state, h[..j])
    ensures Run(c, es).close.state == Closed
  {
    hide Closing, HasRst, LastFin, ExpectedAck, Offered, Log, Run;
    if Run(c, es).close.state != Closed {
      OpenTakesAll(c, es);
      LoopbackClosedIff(c, es);
    }
  }

  /** The number expected for a FIN is the one RFC 793 prescribes exactly for IPv4. */
  lemma FinAckIsRfcIffIpv4(p: Packet)
    requires p.WellFormed()
    ensures p.FinAck() == p.RfcFinAck() <==> p.src.V4?
  {
    var x := p.tcp.seqn + p.totalLen - p.headerLen - p.tcp.headerLen + 1;
    assert p.FinAck() == x % TWO32 by {
      var a, b := p.totalLen - p.headerLen, p.PayloadLen() - p.tcp.headerLen;
      WrapAdd(a, 0 - p.tcp.headerLen);
      WrapAdd(b, p.tcp.seqn + 1);
      WrapAdd(a, b - p.PayloadLen() + p.tcp.seqn + 1);
    }
    if p.src.V6? {
      assert p.RfcFinAck() == (x + 40) % TWO32;
      assert (x + 40) % TWO32 != x % TWO32;
    }
  }

  /** An IPv6 connection whose client's FIN is acknowledged only with the prescribed number never closes. */
  lemma Ipv6NeverCloses(c: Conn, es: seq<Event>)
    requires Fresh(c) && c.src.addr.V6? && c.src.addr != c.dst.addr
    requires var h := Log(c, es);
             var i := LastFin(h, c.src.addr);
             && i >= 0 && h[i].WellFormed()
             && forall j :: i < j < |h| && h[j].src == c.dst.addr && h[j].Ack() ==> h[j].tcp.ackn == h[i].RfcFinAck()
    ensures Run(c, es).close.state != Closed
  {
    hide Closing, HasRst, Established, SynAckSeen, Packet.FinAck, Packet.RfcFinAck, Log, Run;
    var h := Log(c, es);
    var i := LastFin(h, c.src.addr);
    HistoryDeterminesClose(c, es);
    FinAckIsRfcIffIpv4(h[i]);
    forall j | 0 <= j < |h| ensures !Confirms(c.close.state, h, j, c.src.addr, c.dst.addr) {
    }
  }

  /** With IPv4 packets, close completeness holds for the acknowledgement numbers that RFC 793 prescribes, if they come
      during the close. */
  lemma Ipv4ClosesByTheBook(c: Conn, es: seq<Event>, i: int, j: int, i': int, j': int)
    requires Fresh(c)
    requires var h := Offered(c, es);
             && !HasRst(h)
             && AllIpv4(h)
             && FinAckedByTheBook(c.close.state, h, i, j, c.src, c.dst)
             && FinAckedByTheBook(c.close.state, h, i', j', c.dst, c.src)
    ensures Run(c, es).close.state == Closed
  {
    hide Closing, HasRst, Run, Offered, Packet.FinAck, Packet.RfcFinAck;
    var h := Offered(c, es);
    FinAckIsRfcIffIpv4(h[i]);
    FinAckIsRfcIffIpv4(h[i']);
    assert FinAcked(c.close.state, h, i, j, c.src, c.dst);
    assert FinAcked(c.close.state, h, i', j', c.dst, c.src);
    CloseIsComplete(c, es);
  }

  /** Packet i is the last FIN of one endpoint and packet j acknowledges it with the number RFC 793 prescribes. */
  ghost predicate AckedByTheBook(h: seq<Packet>, i: int, j: int, closer: Endpoint, peer: Endpoint) {
    && 0 <= i < j < |h|
    && h[i].Fin() && h[i].Source() == closer
    && (forall k :: i < k < |h| ==> !(h[k].Fin() && h[k].Source() == closer))
    && h[j].Source() == peer && h[j].Ack() && h[j].tcp.ackn == h[i].RfcFinAck()
  }

  /** The same, during the close as the tracker sees it: some FIN came after the handshake and before packet j. */
  ghost predicate FinAckedByTheBook(start: TcpState, h: seq<Packet>, i: int, j: int, closer: Endpoint, peer: Endpoint) {
    AckedByTheBook(h, i, j, closer, peer) && Closing(start, h[..j])
  }

  /** A close by the book: no RST, and the last FIN of each endpoint acknowledged by the other as prescribed. */
  ghost predicate ClosedByTheBook(h: seq<Packet>, src: Endpoint, dst: Endpoint) {
    && !HasRst(h)
    && (exists i, j :: AckedByTheBook(h, i, j, src, dst))
    && (exists i, j :: AckedByTheBook(h, i, j, dst, src))
  }

  ghost predicate SeenByTheBook(start: TcpState, h: seq<Packet>, closer: Endpoint, peer: Endpoint) {
    exists i, j :: FinAckedByTheBook(start, h, i, j, closer, peer)
  }

  ghost predicate AllIpv4(h: seq<Packet>) {
    forall k :: 0 <= k < |h| ==> h[k].WellFormed() && h[k].src.V4?
  }

  /** What a connection takes is the beginning of what it is offered. */
  lemma {:induction false} LogIsPrefix(c: Conn, es: seq<Event>)
    ensures Log(c, es) <= Offered(c, es)
  {
    if es != [] {
      var before := es[..|es| - 1];
      LogIsPrefix(c, before);
      if Run(c, before).close.state != Closed {
        OpenTakesAll(c, before);
        EndpointsStay(c, before);
      }
    }
  }

  lemma ClosingGrows(start: TcpState, h: seq<Packet>, m: nat, n: nat)
    requires m <= n <= |h| && Closing(start, h[..m])
    ensures Closing(start, h[..n])
  {
    hide Established;
    var k :| 0 <= k < m && h[..m][k].Fin() && Established(start, h[..m][..k]);
    assert h[..m][..k] == h[..n][..k] && h[..n][k] == h[k];
  }

  /** One direction of a close by the book that the tracker took for complete: either its last FIN was seen and
      acknowledged before the connection closed, or it came later. */
  lemma DoneIsSeen(start: TcpState, h: seq<Packet>, n: nat, i: int, j: int, closer: Endpoint, peer: Endpoint)
    requires n <= |h| && AllIpv4(h) && PairLog(h, closer, peer) && closer.addr != peer.addr
    requires Closing(start, h[..n]) && SideDone(start, h[..n], closer, peer)
    requires AckedByTheBook(h, i, j, closer, peer)
    ensures SeenByTheBook(start, h, closer, peer)
  {
    hide Closing, Packet.FinAck, Packet.RfcFinAck;
    var log := h[..n];
    EitherEndOf(h, closer, peer);
    if i < n {
      assert log[i] == h[i];
      var i', j' :| FinAcked(start, log, i', j', closer, peer);
      assert h[i'] == log[i'] && h[j'] == log[j'] && log[..j'] == h[..j'];
      assert i' == i;
      FinAckIsRfcIffIpv4(h[i]);
      assert FinAckedByTheBook(start, h, i, j', closer, peer);
    } else {
      ClosingGrows(start, h, n, j);
      assert FinAckedByTheBook(start, h, i, j, closer, peer);
    }
  }

  lemma SeenIsAcked(start: TcpState, h: seq<Packet>, closer: Endpoint, peer: Endpoint)
    requires AllIpv4(h) && SeenByTheBook(start, h, closer, peer)
    ensures FinAckedBy(start, h, closer, peer)
  {
    hide Closing, Packet.FinAck, Packet.RfcFinAck;
    var i, j :| FinAckedByTheBook(start, h, i, j, closer, peer);
    FinAckIsRfcIffIpv4(h[i]);
    assert FinAcked(start, h, i, j, closer, peer);
  }

  /** Exactly when a close by the book between distinct IPv4 addresses is noticed: each side's last FIN has a prescribed
      acknowledgement that comes after some FIN that came after the handshake. */
  lemma Ipv4ByTheBookIff(c: Conn, es: seq<Event>)
    requires Fresh(c) && c.src.addr != c.dst.addr
    requires AllIpv4(Offered(c, es)) && ClosedByTheBook(Offered(c, es), c.src, c.dst)
    ensures var h := Offered(c, es);
            Run(c, es).close.state == Closed <==>
            SeenByTheBook(c.close.state, h, c.src, c.dst) && SeenByTheBook(c.close.state, h, c.dst, c.src)
  {
    hide Closing, SideDone, FinAckedBy, SeenByTheBook, Offered, Log, Run, AckedByTheBook, AllIpv4;
    var h, start := Offered(c, es), c.close.state;
    if SeenByTheBook(start, h, c.src, c.dst) && SeenByTheBook(start, h, c.dst, c.src) {
      SeenIsAcked(start, h, c.src, c.dst);
      SeenIsAcked(start, h, c.dst, c.src);
      CloseIsComplete(c, es);
    }
    if Run(c, es).close.state == Closed {
      LogIsPrefix(c, es);
      LogIsOfThePair(c, es);
      ClosedIffBothSidesDone(c, es);
      ClosedWhileClosing(c, es);
      var n := |Log(c, es)|;
      assert h[..n] == Log(c, es);
      var i, j :| AckedByTheBook(h, i, j, c.src, c.dst);
      DoneIsSeen(start, h, n, i, j, c.src, c.dst);
      var i', j' :| AckedByTheBook(h, i', j', c.dst, c.src);
      DoneIsSeen(start, h, n, i', j', c.dst, c.src);
    }
  }

  lemma ClosedWhileClosing(c: Conn, es: seq<Event>)
    requires Fresh(c) && Run(c, es).close.state == Closed
    ensures Closing(c.close.state, Log(c, es))
  {
    HistoryDeterminesClose(c, es);
  }

  /** A FIN after the handshake puts everything behind it into the close. */
  lemma LateFinIsSeen(start: TcpState, h: seq<Packet>, closer: Endpoint, peer: Endpoint)
    requires exists i, j :: AckedByTheBook(h, i, j, closer, peer)
    requires forall k :: 0 <= k < |h| && h[k].Fin() ==> Established(start, h[..k])
    ensures SeenByTheBook(start, h, closer, peer)
  {
    hide Established, Packet.RfcFinAck;
    var i, j :| AckedByTheBook(h, i, j, closer, peer);
    assert h[..j][i].Fin() && h[..j][..i] == h[..i];
    assert FinAckedByTheBook(start, h, i, j, closer, peer);
  }

  /** So a close by the book over IPv4 is noticed if no FIN comes before the handshake is over, as is always the case for a
      connection picked up running; between two ports of one address as well. */
  lemma Ipv4ClosesAfterHandshake(c: Conn, es: seq<Event>)
    requires Fresh(c) && AllIpv4(Offered(c, es)) && ClosedByTheBook(Offered(c, es), c.src, c.dst)
    requires var h := Offered(c, es);
             c.close.state == Up || forall k :: 0 <= k < |h| && h[k].Fin() ==> Established(c.close.state, h[..k])
    ensures Run(c, es).close.state == Closed
  {
    hide FinAckedBy, SeenByTheBook, Offered, Log, Run, AckedByTheBook, AllIpv4;
    var h, start := Offered(c, es), c.close.state;
    LateFinIsSeen(start, h, c.src, c.dst);
    LateFinIsSeen(start, h, c.dst, c.src);
    SeenIsAcked(start, h, c.src, c.dst);
    SeenIsAcked(start, h, c.dst, c.src);
    CloseIsComplete(c, es);
  }

  // ---------------------------------------------------------------- concrete runs

  /** A segment without text, 20-byte headers throughout. */
  function Segment(src: Endpoint, dst: Endpoint, fin: bool, seqn: U32, ackn: U32): Packet {
    Packet(if src.addr.V6? then 20 else 40, if src.addr.V6? then 40 else 20, src.addr, dst.addr,
           TcpHeader(src.port, dst.port, seqn, ackn, Flags(fin, false, false, false, true, false, false, false), 20))
  }

  function StepAll(c: Conn, p: Packet, q: Packet, r: Packet): Conn {
    Accept(Accept(Accept(c, p, 0), q, 0), r, 0)
  }

  /** The packets of a sequence, one after the other. */
  function InTurn(h: seq<Packet>): seq<Event> {
    if h == [] then [] else InTurn(h[..|h| - 1]) + [Arrival(h[|h| - 1], 0)]
  }

  lemma OneMoreInTurn(c: Conn, h: seq<Packet>, n: nat)
    requires n < |h| && c.Pair() == h[n].Pair()
    ensures var before := Run(c, InTurn(h[..n]));
            before.src == c.src && before.dst == c.dst && before.close.state != Closed ==>
            var r := Run(c, InTurn(h[..n + 1]));
            r.src == c.src && r.dst == c.dst && r.close == Follow(before.close, h[n], c.src.addr, c.dst.addr)
  {
    assert h[..n + 1][..n] == h[..n];
    var es := InTurn(h[..n + 1]);
    assert es[..|es| - 1] == InTurn(h[..n]);
    assert Run(c, es) == Accept(Run(c, InTurn(h[..n])), h[n], 0);
    if Run(c, InTurn(h[..n])).close.state != Closed && Run(c, InTurn(h[..n])).Pair() == c.Pair() {
      AcceptMoves(Run(c, InTurn(h[..n])), h[n]);
    }
  }

  lemma RunOfThree(c: Conn, p: Packet, q: Packet, r: Packet)
    ensures Run(c, [Arrival(p, 0), Arrival(q, 0), Arrival(r, 0)]) == StepAll(c, p, q, r)
  {
    var e, f, g := Arrival(p, 0), Arrival(q, 0), Arrival(r, 0);
    assert [e, f, g][..2] == [e, f] && [e, f][..1] == [e] && [e][..0] == [];
    assert Run(c, [e]) == Accept(c, p, 0);
    assert Run(c, [e, f]) == Accept(Accept(c, p, 0), q, 0);
  }

  lemma AcceptMoves(c: Conn, p: Packet)
    requires c.Pair() == p.Pair() && c.close.state != Closed
    ensures var r := Accept(c, p, 0);
            r.src == c.src && r.dst == c.dst && r.close == Follow(c.close, p, c.src.addr, c.dst.addr)
  {
  }

  /** Closed is not "both sides sent a FIN": between any two IPv4 hosts, the server need not send one if the client
      sends an ACK numbered 0. */
  lemma ZeroAckExample(client: Endpoint, server: Endpoint) returns (c: Conn, p: Packet, q: Packet, r: Packet)
    requires client.addr.V4? && server.addr.V4? && client.addr != server.addr
    ensures Fresh(c) && c.src == client && c.dst == server
    ensures Run(c, [Arrival(p, 0), Arrival(q, 0), Arrival(r, 0)]).close.state == Closed
    ensures p.Source() == q.Source() == client && r.Source() == server && !r.Fin()
  {
    c := Open(Segment(client, server, false, 1, 1), 0);
    p := Segment(client, server, true, 1, 1);
    q := Segment(client, server, false, 2, 0);
    r := Segment(server, client, false, 1, 2);
    assert c.Pair() == p.Pair() == q.Pair() == r.Pair();
    assert p.FinAck() == 2;
    hide StepAll, Run, Segment;
    RunOfThree(c, p, q, r);
    ZeroAckRun(c, p, q, r);
  }

  lemma ZeroAckRun(c: Conn, p: Packet, q: Packet, r: Packet)
    requires c.close == Close(Up, 0, 0, false, false) && c.src.addr != c.dst.addr
    requires c.Pair() == p.Pair() == q.Pair() == r.Pair()
    requires p.src == q.src == c.src.addr && r.src == c.dst.addr
    requires p.Fin() && !q.Fin() && q.Ack() && !r.Fin() && r.Ack() && !p.Rst() && !q.Rst() && !r.Rst()
    requires q.tcp.ackn == 0 && r.tcp.ackn == p.FinAck()
    ensures StepAll(c, p, q, r).close.state == Closed
  {
    hide Accept, Packet.FinAck;
    AcceptMoves(c, p);
    var c1 := Accept(c, p, 0);
    assert c1.close == Close(FinFinack, p.FinAck(), 0, false, false);
    AcceptMoves(c1, q);
    var c2 := Accept(c1, q, 0);
    assert c2.close == Close(FinFinack, p.FinAck(), 0, false, true);
    AcceptMoves(c2, r);
  }

  /** Between two ports of one address the closer's own next packet may close the connection: the other end sends nothing. */
  lemma LoopbackExample(client: Endpoint, server: Endpoint) returns (c: Conn, p: Packet, q: Packet)
    requires client.addr.V4? && client.addr == server.addr && client.port != server.port
    ensures Fresh(c) && c.src == client && c.dst == server
    ensures p.Source() == q.Source() == client
    ensures Run(c, [Arrival(p, 0), Arrival(q, 0)]).close.state == Closed
  {
    c := Open(Segment(client, server, false, 1, 1), 0);
    p := Segment(client, server, true, 1, 1);
    q := Segment(client, server, false, 2, 2);
    assert c.Pair() == p.Pair() == q.Pair();
    assert p.FinAck() == 2;
    var e, f := Arrival(p, 0), Arrival(q, 0);
    assert [e, f][..1] == [e] && [e][..0] == [];
    assert Run(c, [e]) == Accept(c, p, 0);
    assert Run(c, [e, f]) == Accept(Accept(c, p, 0), q, 0);
    hide Run, Accept, Segment, Packet.FinAck;
    AcceptMoves(c, p);
    var c1 := Accept(c, p, 0);
    assert c1.close == Close(FinFinack, 2, 2, false, false);
    AcceptMoves(c1, q);
  }

  /** Between any two IPv4 hosts: the packet that ends the handshake carries the client's FIN as well, everything is
      acknowledged as prescribed, and the connection stays half closed. */
  lemma EarlyFinExample(client: Endpoint, server: Endpoint) returns (c: Conn, h: seq<Packet>)
    requires client.addr.V4? && server.addr.V4? && client.addr != server.addr
    ensures Fresh(c) && c.src == client && c.dst == server
    ensures |h| == 5 && AllIpv4(h) && ClosedByTheBook(h, client, server)
    ensures h[0].Syn() && h[0].Ack() && h[1].Fin() && h[1].Source() == client && h[1].Ack() && h[1].tcp.ackn == 1
    ensures Run(c, InTurn(h)).close.state == FinFinack
  {
    var syn := Segment(client, server, false, 0, 0);
    c := Open(syn.(tcp := syn.tcp.(flags := Flags(false, true, false, false, false, false, false, false))), 0);
    var reply := Segment(server, client, false, 0, 1);
    reply := reply.(tcp := reply.tcp.(flags := Flags(false, true, false, false, true, false, false, false)));
    h := [reply, Segment(client, server, true, 1, 1), Segment(server, client, false, 1, 2),
          Segment(server, client, true, 1, 2), Segment(client, server, false, 2, 2)];
    assert AckedByTheBook(h, 1, 2, client, server);
    assert AckedByTheBook(h, 3, 4, server, client);
    assert h[1].FinAck() == 2 && h[3].FinAck() == 2;
    hide Segment, Packet.RfcFinAck;
    EarlyFinRun(c, h);
  }

  lemma EarlyFinRun(c: Conn, h: seq<Packet>)
    requires c.close == Close(SynSynack, 0, 0, false, false) && c.src.addr != c.dst.addr
    requires |h| == 5 && forall i :: 0 <= i < 5 ==> h[i].Pair() == c.Pair() && !h[i].Rst() && h[i].Ack()
    requires h[0].Syn() && !h[0].Fin() && h[1].Fin() && !h[2].Fin() && h[3].Fin() && !h[4].Fin()
    requires h[1].src == h[4].src == c.src.addr && h[2].src == h[3].src == c.dst.addr
    requires h[1].FinAck() == 2 && h[3].FinAck() == 2 && h[4].tcp.ackn == 2
    ensures Run(c, InTurn(h)).close.state == FinFinack
  {
    hide Run, InTurn, Packet.FinAck;
    assert Run(c, InTurn(h[..0])) == c by { EmptyRun(c); }
    OneMoreInTurn(c, h, 0);
    assert Run(c, InTurn(h[..1])).close == Close(SynackAck, 0, 0, false, false);
    OneMoreInTurn(c, h, 1);
    assert Run(c, InTurn(h[..2])).close == Close(Up, 2, 0, false, false);
    OneMoreInTurn(c, h, 2);
    assert Run(c, InTurn(h[..3])).close == Close(Up, 2, 0, false, false);
    OneMoreInTurn(c, h, 3);
    assert Run(c, InTurn(h[..4])).close == Close(FinFinack, 2, 2, false, false);
    OneMoreInTurn(c, h, 4);
    assert h[..5] == h;
  }

  lemma EmptyRun(c: Conn)
    ensures Run(c, InTurn([])) == c
  {
  }

  /** Between any two IPv6 hosts a close by the book on both sides is not noticed. */
  lemma Ipv6Example(client: Endpoint, server: Endpoint) returns (c: Conn, p: Packet, q: Packet, r: Packet)
    requires client.addr.V6? && server.addr.V6? && client.addr != server.addr
    ensures Fresh(c) && c.src == client && c.dst == server && p.WellFormed() && q.WellFormed() && r.WellFormed()
    ensures p.Source() == client && p.Fin() && q.Source() == server && q.Fin() && q.Ack() && q.tcp.ackn == p.RfcFinAck()
    ensures r.Source() == client && r.Ack() && r.tcp.ackn == q.RfcFinAck()
    ensures Run(c, [Arrival(p, 0), Arrival(q, 0), Arrival(r, 0)]).close.state == FinFinack
  {
    c := Open(Segment(client, server, false, 1, 1), 0);
    p := Segment(client, server, true, 1, 1);
    q := Segment(server, client, true, 1, 2);
    r := Segment(client, server, false, 2, 2);
    assert c.Pair() == p.Pair() == q.Pair() == r.Pair();
    assert p.RfcFinAck() == 2 && q.RfcFinAck() == 2;
    assert p.FinAck() == q.FinAck() == TWO32 - 38;
    hide StepAll, Run, Segment;
    RunOfThree(c, p, q, r);
    LateAcksRun(c, p, q, r);
  }

  /** Two FINs whose expected numbers are not the ones acknowledged leave the connection half closed. */
  lemma LateAcksRun(c: Conn, p: Packet, q: Packet, r: Packet)
    requires c.close == Close(Up, 0, 0, false, false) && c.src.addr != c.dst.addr
    requires c.Pair() == p.Pair() == q.Pair() == r.Pair()
    requires p.src == r.src == c.src.addr && q.src == c.dst.addr
    requires p.Fin() && q.Fin() && q.Ack() && !r.Fin() && r.Ack() && !p.Rst() && !q.Rst() && !r.Rst()
    requires q.tcp.ackn != p.FinAck() && r.tcp.ackn != q.FinAck()
    ensures StepAll(c, p, q, r).close.state == FinFinack
  {
    hide Accept, Packet.FinAck;
    AcceptMoves(c, p);
    var c1 := Accept(c, p, 0);
    assert c1.close == Close(FinFinack, p.FinAck(), 0, false, false);
    AcceptMoves(c1, q);
    var c2 := Accept(c1, q, 0);
    assert c2.close == Close(FinFinack, p.FinAck(), q.FinAck(), false, false);
    AcceptMoves(c2, r);
  }
}
