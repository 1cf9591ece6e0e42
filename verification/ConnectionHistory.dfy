/** What a connection's handshake and close fields say about the packets it has taken. */
module ConnectionHistory {
  import opened Words
  import opened Packets
  import opened ConnectionSpec

  // ---------------------------------------------------------------- reference definitions on a packet log

  ghost predicate HasRst(h: seq<Packet>) {
    exists i :: 0 <= i < |h| && h[i].Rst()
  }

  ghost predicate SynAckSeen(start: TcpState, h: seq<Packet>) {
    start.Up? || exists i :: 0 <= i < |h| && h[i].Syn() && h[i].Ack()
  }

  /** The handshake is over: an ACK came after a SYN|ACK (or the connection was picked up running). */
  ghost predicate Established(start: TcpState, h: seq<Packet>) {
    start.Up? || exists j :: 0 <= j < |h| && h[j].Ack() && SynAckSeen(start, h[..j])
  }

  /** A FIN came after the handshake. */
  ghost predicate Closing(start: TcpState, h: seq<Packet>) {
    exists k :: 0 <= k < |h| && h[k].Fin() && Established(start, h[..k])
  }

  /** Index of the last FIN sent from the address, -1 if there is none. */
  function LastFin(h: seq<Packet>, side: Address): (r: int)
    ensures -1 <= r < |h|
    ensures r >= 0 ==> h[r].Fin() && h[r].src == side
    ensures forall i :: r < i < |h| ==> !(h[i].Fin() && h[i].src == side)
  {
    if h == [] then -1
    else if h[|h| - 1].Fin() && h[|h| - 1].src == side then |h| - 1
    else LastFin(h[..|h| - 1], side)
  }

  /** The number that acknowledges the last FIN from the address; the fields start at 0. */
  function ExpectedAck(h: seq<Packet>, side: Address): U32 {
    var i := LastFin(h, side);
    if i < 0 then 0 else h[i].FinAck()
  }

  /** Packet i acknowledges the last FIN of closer, during the close and before any RST. */
  ghost predicate Confirms(start: TcpState, h: seq<Packet>, i: nat, closer: Address, peer: Address)
    requires i < |h|
  {
    && LastFin(h, closer) <= i
    && h[i].src == peer && h[i].Ack() && h[i].tcp.ackn == ExpectedAck(h, closer)
    && Closing(start, h[..i]) && !HasRst(h[..i])
  }

  ghost predicate Confirmed(start: TcpState, h: seq<Packet>, closer: Address, peer: Address) {
    exists i :: 0 <= i < |h| && Confirms(start, h, i, closer, peer)
  }

  /** The state that the phases reached and the FINs confirmed call for. */
  function StateOf(rst: bool, synAck: bool, established: bool, closing: bool, bySrc: bool, byDst: bool): TcpState {
    if rst then Reset
    else if closing then if bySrc && byDst then Closed else FinFinack
    else if established then Up
    else if synAck then SynackAck
    else SynSynack
  }

  ghost function StateAfter(start: TcpState, h: seq<Packet>, src: Address, dst: Address): TcpState {
    StateOf(HasRst(h), SynAckSeen(start, h), Established(start, h), Closing(start, h),
            Confirmed(start, h, dst, src), Confirmed(start, h, src, dst))
  }

  /** The close record that a packet log calls for. */
  ghost function CloseAfter(start: TcpState, h: seq<Packet>, src: Address, dst: Address): Close {
    Close(StateAfter(start, h, src, dst), ExpectedAck(h, src), ExpectedAck(h, dst),
          Confirmed(start, h, src, dst), Confirmed(start, h, dst, src))
  }

  // ---------------------------------------------------------------- one more packet

  lemma Prefixes(h: seq<Packet>, p: Packet)
    ensures forall i :: 0 <= i <= |h| ==> (h + [p])[..i] == h[..i]
    ensures (h + [p])[..|h|] == h
  {
  }

  lemma HasRstStep(h: seq<Packet>, p: Packet)
    ensures HasRst(h + [p]) <==> HasRst(h) || p.Rst()
  {
    var h' := h + [p];
    assert h'[|h|] == p && forall i :: 0 <= i < |h| ==> h'[i] == h[i];
    if i :| 0 <= i < |h| && h[i].Rst() { assert h'[i].Rst(); }
  }

  lemma SynAckSeenStep(start: TcpState, h: seq<Packet>, p: Packet)
    ensures SynAckSeen(start, h + [p]) <==> SynAckSeen(start, h) || (p.Syn() && p.Ack())
  {
    var h' := h + [p];
    assert h'[|h|] == p && forall i :: 0 <= i < |h| ==> h'[i] == h[i];
    if i :| 0 <= i < |h| && h[i].Syn() && h[i].Ack() { assert h'[i].Syn(); }
  }

  lemma EstablishedStep(start: TcpState, h: seq<Packet>, p: Packet)
    ensures Established(start, h + [p]) <==> Established(start, h) || (p.Ack() && SynAckSeen(start, h))
  {
    hide SynAckSeen;
    var h' := h + [p];
    Prefixes(h, p);
    assert h'[|h|] == p && forall i :: 0 <= i < |h| ==> h'[i] == h[i];
    if j :| 0 <= j < |h| && h[j].Ack() && SynAckSeen(start, h[..j]) { assert h'[j].Ack() && h'[..j] == h[..j]; }
  }

  lemma ClosingStep(start: TcpState, h: seq<Packet>, p: Packet)
    ensures Closing(start, h + [p]) <==> Closing(start, h) || (p.Fin() && Established(start, h))
  {
    hide Established;
    var h' := h + [p];
    Prefixes(h, p);
    assert h'[|h|] == p && forall i :: 0 <= i < |h| ==> h'[i] == h[i];
    if k :| 0 <= k < |h| && h[k].Fin() && Established(start, h[..k]) { assert h'[k].Fin() && h'[..k] == h[..k]; }
  }

  lemma PhasesStep(start: TcpState, h: seq<Packet>, p: Packet)
    ensures HasRst(h + [p]) <==> HasRst(h) || p.Rst()
    ensures SynAckSeen(start, h + [p]) <==> SynAckSeen(start, h) || (p.Syn() && p.Ack())
    ensures Established(start, h + [p]) <==> Established(start, h) || (p.Ack() && SynAckSeen(start, h))
    ensures Closing(start, h + [p]) <==> Closing(start, h) || (p.Fin() && Established(start, h))
  {
    hide HasRst, SynAckSeen, Established, Closing;
    HasRstStep(h, p);
    SynAckSeenStep(start, h, p);
    EstablishedStep(start, h, p);
    ClosingStep(start, h, p);
  }

  /** The phases only go forward. */
  lemma {:induction false} PhasesNest(start: TcpState, h: seq<Packet>)
    ensures Closing(start, h) ==> Established(start, h)
    ensures Established(start, h) ==> SynAckSeen(start, h)
  {
    if h != [] {
      var before, p := h[..|h| - 1], h[|h| - 1];
      assert h == before + [p];
      PhasesNest(start, before);
      PhasesStep(start, before, p);
    }
  }

  lemma LastFinStep(h: seq<Packet>, p: Packet, side: Address)
    ensures LastFin(h + [p], side) == if p.Fin() && p.src == side then |h| else LastFin(h, side)
    ensures ExpectedAck(h + [p], side) == if p.Fin() && p.src == side then p.FinAck() else ExpectedAck(h, side)
  {
    Prefixes(h, p);
    assert (h + [p])[|h|] == p;
  }

  ghost predicate ConfirmsNow(start: TcpState, h: seq<Packet>, p: Packet, expected: U32, peer: Address) {
    p.src == peer && p.Ack() && p.tcp.ackn == expected && Closing(start, h) && !HasRst(h)
  }

  lemma ConfirmedStep(start: TcpState, h: seq<Packet>, p: Packet, closer: Address, peer: Address)
    ensures Confirmed(start, h + [p], closer, peer) <==> (
              || (!(p.Fin() && p.src == closer) && Confirmed(start, h, closer, peer))
              || ConfirmsNow(start, h, p, ExpectedAck(h + [p], closer), peer))
  {
    var h' := h + [p];
    Prefixes(h, p);
    LastFinStep(h, p, closer);
    assert h'[|h|] == p;
    assert Confirms(start, h', |h|, closer, peer) <==> ConfirmsNow(start, h, p, ExpectedAck(h', closer), peer);
    if p.Fin() && p.src == closer {
      assert forall i :: 0 <= i < |h| ==> !Confirms(start, h', i, closer, peer);
    } else {
      assert forall i :: 0 <= i < |h| ==> h'[i] == h[i];
      assert forall i :: 0 <= i < |h| ==> (Confirms(start, h', i, closer, peer) <==> Confirms(start, h, i, closer, peer));
    }
  }

  /** The close record after one more packet, from the phases reached before it. */
  function FollowedBy(k: Close, p: Packet, src: Address, dst: Address,
                      rst: bool, synAck: bool, established: bool, closing: bool): Close {
    var finSrc, finDst := p.Fin() && p.src == src, p.Fin() && p.src == dst;
    var expectDst := if finSrc then p.FinAck() else k.finackFromDst;
    var expectSrc := if finDst then p.FinAck() else k.finackFromSrc;
    var counts := p.Ack() && closing && !rst;
    var byDst := (!finSrc && k.recvdFromDst) || (p.src == dst && p.tcp.ackn == expectDst && counts);
    var bySrc := (!finDst && k.recvdFromSrc) || (p.src == src && p.tcp.ackn == expectSrc && counts);
    Close(StateOf(rst || p.Rst(), synAck || (p.Syn() && p.Ack()), established || (p.Ack() && synAck),
                  closing || (p.Fin() && established), bySrc, byDst),
          expectDst, expectSrc, byDst, bySrc)
  }

  /** How one packet moves the close record, with the phases and confirmations as plain booleans. */
  lemma FollowOnPhases(k: Close, p: Packet, src: Address, dst: Address,
                       rst: bool, synAck: bool, established: bool, closing: bool)
    requires closing ==> established
    requires established ==> synAck
    requires k.recvdFromDst || k.recvdFromSrc ==> closing
    requires k.state == StateOf(rst, synAck, established, closing, k.recvdFromSrc, k.recvdFromDst) != Closed
    ensures Follow(k, p, src, dst) == FollowedBy(k, p, src, dst, rst, synAck, established, closing)
  {
  }

  /** One accepted packet moves the close record exactly as it moves the log. */
  lemma FollowMatchesHistory(start: TcpState, h: seq<Packet>, p: Packet, src: Address, dst: Address)
    requires StateAfter(start, h, src, dst) != Closed
    ensures Follow(CloseAfter(start, h, src, dst), p, src, dst) == CloseAfter(start, h + [p], src, dst)
  {
    hide HasRst, SynAckSeen, Established, Closing, Confirmed, Confirms, LastFin, ExpectedAck, StateOf;
    hide Follow, NoteFin, Advance, NoteAck, Packet.Fin, Packet.Syn, Packet.Rst, Packet.Ack, Packet.FinAck;
    var k, k' := CloseAfter(start, h, src, dst), CloseAfter(start, h + [p], src, dst);
    var f := FollowedBy(k, p, src, dst, HasRst(h), SynAckSeen(start, h), Established(start, h), Closing(start, h));
    assert Follow(k, p, src, dst) == f by {
      PhasesNest(start, h);
      ConfirmedOnlyWhenClosing(start, h, src, dst);
      ConfirmedOnlyWhenClosing(start, h, dst, src);
      FollowOnPhases(k, p, src, dst, HasRst(h), SynAckSeen(start, h), Established(start, h), Closing(start, h));
    }
    assert k'.finackFromDst == f.finackFromDst by { LastFinStep(h, p, src); }
    assert k'.finackFromSrc == f.finackFromSrc by { LastFinStep(h, p, dst); }
    assert k'.recvdFromDst == f.recvdFromDst by { ConfirmedStep(start, h, p, src, dst); }
    assert k'.recvdFromSrc == f.recvdFromSrc by { ConfirmedStep(start, h, p, dst, src); }
    assert k'.state == f.state by { PhasesStep(start, h, p); }
  }

  lemma {:induction false} ConfirmedOnlyWhenClosing(start: TcpState, h: seq<Packet>, closer: Address, peer: Address)
    ensures Confirmed(start, h, closer, peer) ==> Closing(start, h)
  {
    if h != [] {
      var before, p := h[..|h| - 1], h[|h| - 1];
      assert h == before + [p];
      ConfirmedOnlyWhenClosing(start, before, closer, peer);
      ConfirmedStep(start, before, p, closer, peer);
      PhasesStep(start, before, p);
    }
  }

  // ---------------------------------------------------------------- whole runs

  ghost predicate Fresh(c: Conn) {
    && (c.close.state.SynSynack? || c.close.state.Up?)
    && c.close.finackFromDst == 0 && c.close.finackFromSrc == 0
    && !c.close.recvdFromDst && !c.close.recvdFromSrc
  }

  /** All close fields are a function of the packets taken, for every interleaving of packets and ticks. */
  lemma {:induction false} HistoryDeterminesClose(c: Conn, es: seq<Event>)
    requires Fresh(c)
    ensures var r := Run(c, es);
            && r.src == c.src && r.dst == c.dst
            && r.close == CloseAfter(c.close.state, Log(c, es), c.src.addr, c.dst.addr)
  {
    if es != [] {
      var before, e := es[..|es| - 1], es[|es| - 1];
      HistoryDeterminesClose(c, before);
      if e.Arrival? && Accepts(Run(c, before), e.packet) {
        FollowMatchesHistory(c.close.state, Log(c, before), e.packet, c.src.addr, c.dst.addr);
      }
    }
  }
}
