/** What holds of the connection table over whole runs. */
module TrackerTheorems {
  import opened Words
  import opened Packets
  import opened ConnectionSpec
  import opened GuesserSpec
  import opened TrackerSpec
  import ConnectionHistory
  import CloseTheorems

  /** Every connection is filed under its own unordered pair, every stray likewise. */
  ghost predicate Consistent(t: Tracker) {
    && (forall k :: k in t.table ==> t.table[k].Pair() == k)
    && Filed(t.strays)
  }

  lemma TrackKeepsConsistent(cfg: Config, t: Tracker, e: TrackEvent)
    requires Consistent(t)
    ensures Consistent(Track(cfg, t, e))
  {
    if e.Deliver? {
      GuessKeepsFiled(t.strays, e.cap);
    }
  }

  lemma {:induction false} AlwaysConsistent(cfg: Config, t: Tracker, es: seq<TrackEvent>)
    requires Consistent(t)
    ensures Consistent(TrackAll(cfg, t, es))
  {
    if es != [] {
      AlwaysConsistent(cfg, t, es[..|es| - 1]);
      TrackKeepsConsistent(cfg, TrackAll(cfg, t, es[..|es| - 1]), es[|es| - 1]);
    }
  }

  /** Looking a packet up under its pair gives the same table and verdict as offering it to every connection. */
  lemma LookupRefinesBroadcast(t: Tracker, cap: Capture, now: int, detect: bool)
    requires Consistent(t)
    ensures Process(t, cap, now, detect) == Broadcast(t, cap, now, detect)
  {
    var p := cap.packet;
    var offered := map k | k in t.table :: Accept(t.table[k], p, now);
    assert forall k :: k in t.table && k != p.Pair() ==> !Accepts(t.table[k], p);
    if p.Pair() in t.table && Accepts(t.table[p.Pair()], p) {
      assert offered == t.table[p.Pair() := Accept(t.table[p.Pair()], p, now)];
    } else {
      assert offered == t.table;
    }
  }

  // ---------------------------------------------------------------- one pair at a time

  /** All that the tracker knows about one pair. */
  datatype PairView = PairView(conn: Option<Conn>, stray: Option<Capture>)

  function ViewOf(t: Tracker, k: Key): PairView {
    PairView(Get(t.table, k), Get(t.strays, k))
  }

  /** The events that concern a pair: its own packets, every tick and every redraw. */
  function Own(es: seq<TrackEvent>, k: Key): seq<TrackEvent> {
    if es == [] then [] else
      var before, e := es[..|es| - 1], es[|es| - 1];
      if !e.Deliver? || e.cap.packet.Pair() == k then Own(before, k) + [e] else Own(before, k)
  }

  /** Packets of other pairs leave a pair alone. */
  lemma ForeignPacketsPass(cfg: Config, t: Tracker, e: TrackEvent, k: Key)
    requires e.Deliver? && e.cap.packet.Pair() != k
    ensures ViewOf(Track(cfg, t, e), k) == ViewOf(t, k)
  {
  }

  /** What an event does to a pair depends on nothing but what was known about that pair. */
  lemma PairStepIsLocal(cfg: Config, t: Tracker, u: Tracker, e: TrackEvent, k: Key)
    requires !e.Deliver? || e.cap.packet.Pair() == k
    requires ViewOf(t, k) == ViewOf(u, k)
    ensures ViewOf(Track(cfg, t, e), k) == ViewOf(Track(cfg, u, e), k)
  {
    assert k in t.table <==> k in u.table;
    assert k in t.strays <==> k in u.strays;
    assert k in t.table ==> t.table[k] == u.table[k];
    assert k in t.strays ==> t.strays[k] == u.strays[k];
  }

  /** Demultiplexing: what the tracker knows about a pair after any run is what it would know had it been
      shown that pair's packets, the ticks and the redraws alone. */
  lemma {:induction false} PairsAreIndependent(cfg: Config, t: Tracker, es: seq<TrackEvent>, k: Key)
    ensures ViewOf(TrackAll(cfg, t, es), k) == ViewOf(TrackAll(cfg, t, Own(es, k)), k)
  {
    if es != [] {
      var before, e := es[..|es| - 1], es[|es| - 1];
      PairsAreIndependent(cfg, t, before, k);
      if !e.Deliver? || e.cap.packet.Pair() == k {
        assert Own(es, k)[..|Own(es, k)| - 1] == Own(before, k);
        PairStepIsLocal(cfg, TrackAll(cfg, t, before), TrackAll(cfg, t, Own(before, k)), e, k);
      } else {
        ForeignPacketsPass(cfg, TrackAll(cfg, t, before), e, k);
      }
    }
  }

  // ---------------------------------------------------------------- entries are connection runs

  /** What an event of the tracker is for the connection filed under k. */
  function ConnEvent(e: TrackEvent, k: Key): seq<Event> {
    match e
    case Deliver(cap, now) => [Arrival(cap.packet, now)]
    case Maintenance(t1, t2, _, _) => [Tick(t1, t2)]
    case Display(shown, refreshUs, spill) => if k in shown then [Redraw(refreshUs, spill)] else []
  }

  function ConnEvents(es: seq<TrackEvent>, k: Key): seq<Event> {
    if es == [] then [] else ConnEvents(es[..|es| - 1], k) + ConnEvent(es[|es| - 1], k)
  }

  predicate Delivers(e: TrackEvent, p: Packet) {
    e.Deliver? && e.cap.packet == p
  }

  predicate Opening(p: Packet) {
    p.Syn() && !p.Ack()
  }

  /** Event n - 1 is the arrival, at time now, of a packet of the pair k; p, of the same pair, arrived then or before: it is
      the packet that arrived if that is an opening SYN, and otherwise has no SYN and comes from the end with the higher
      port. */
  ghost predicate OpenedBy(es: seq<TrackEvent>, k: Key, p: Packet, now: int, n: nat) {
    && 1 <= n <= |es|
    && es[n - 1].Deliver? && es[n - 1].now == now && es[n - 1].cap.packet.Pair() == k
    && p.Pair() == k && (p.Ack() ==> !p.Syn())
    && (if Opening(es[n - 1].cap.packet) then p == es[n - 1].cap.packet else !p.Syn() && p.tcp.srcPort >= p.tcp.dstPort)
    && exists i :: 0 <= i < n && Delivers(es[i], p)
  }

  /** The connection was opened by p with event n - 1 and has run on the events since. */
  ghost predicate RunsSince(c: Conn, es: seq<TrackEvent>, k: Key, p: Packet, now: int, n: nat) {
    && OpenedBy(es, k, p, now, n) && c == Run(Open(p, now), ConnEvents(es[n..], k))
    && c.src == p.Source() && c.dst == p.Target()
  }

  /** Every remembered stray was delivered. */
  lemma {:induction false} StraysWereDelivered(cfg: Config, es: seq<TrackEvent>, k: Key) returns (i: nat)
    requires k in TrackAll(cfg, EMPTY, es).strays
    ensures i < |es| && es[i].Deliver? && es[i].cap == TrackAll(cfg, EMPTY, es).strays[k]
  {
    var before, e := es[..|es| - 1], es[|es| - 1];
    var t := TrackAll(cfg, EMPTY, before);
    if e.Deliver? && TrackAll(cfg, EMPTY, es).strays[k] == e.cap {
      i := |es| - 1;
    } else {
      i := StraysWereDelivered(cfg, before, k);
    }
  }

  lemma StepOnEntry(cfg: Config, t: Tracker, e: TrackEvent, k: Key)
    requires Consistent(t) && k in t.table && k in Track(cfg, t, e).table
    ensures Track(cfg, t, e).table[k] == Run(t.table[k], ConnEvent(e, k))
  {
    var ce := ConnEvent(e, k);
    if ce != [] {
      assert |ce| == 1 && ce[..0] == [];
      assert Run(t.table[k], ce) == Step(t.table[k], ce[0]);
    }
  }

  lemma NewEntryIsOpened(cfg: Config, es: seq<TrackEvent>, k: Key) returns (p: Packet, now: int)
    requires es != [] && k !in TrackAll(cfg, EMPTY, es[..|es| - 1]).table && k in TrackAll(cfg, EMPTY, es).table
    ensures OpenedBy(es, k, p, now, |es|) && TrackAll(cfg, EMPTY, es).table[k] == Open(p, now)
  {
    var before, e := es[..|es| - 1], es[|es| - 1];
    var t := TrackAll(cfg, EMPTY, before);
    AlwaysConsistent(cfg, EMPTY, before);
    assert Track(cfg, t, e) == TrackAll(cfg, EMPTY, es);
    hide TrackAll;
    now := e.now;
    GuessKeepsFiled(t.strays, e.cap);
    if Opening(e.cap.packet) || Guess(t.strays, e.cap).1.value == e.cap.packet {
      p := e.cap.packet;
      assert Delivers(es[|es| - 1], p);
    } else {
      p := Guess(t.strays, e.cap).1.value;
      var i := StraysWereDelivered(cfg, before, k);
      assert Delivers(es[i], p);
    }
  }

  lemma StillOpened(es: seq<TrackEvent>, e: TrackEvent, k: Key, p: Packet, now: int, n: nat)
    requires OpenedBy(es, k, p, now, n)
    ensures n <= |es| && OpenedBy(es + [e], k, p, now, n)
  {
    var i :| 0 <= i < n && Delivers(es[i], p);
    assert Delivers((es + [e])[i], p);
  }

  lemma NothingSince(c: Conn, es: seq<TrackEvent>, k: Key)
    ensures Run(c, ConnEvents(es[|es|..], k)) == c
  {
  }

  /** One more event for a connection that has run since it was opened. */
  lemma RunOneMore(c: Conn, es: seq<TrackEvent>, n: nat, k: Key, e: TrackEvent)
    requires n <= |es|
    ensures Run(c, ConnEvents((es + [e])[n..], k)) == Run(Run(c, ConnEvents(es[n..], k)), ConnEvent(e, k))
  {
    hide Run, ConnEvent;
    var late := (es + [e])[n..];
    assert late[..|late| - 1] == es[n..] && late[|late| - 1] == e;
    CloseTheorems.RunConcat(c, ConnEvents(es[n..], k), ConnEvent(e, k));
  }

  /** Every entry of the table is one connection, opened by a packet of its pair that was delivered, and run on the
      events since: all theorems about connection runs hold of every entry at any time. */
  lemma {:induction false} EntriesAreRuns(cfg: Config, es: seq<TrackEvent>, k: Key)
      returns (p: Packet, now: int, n: nat)
    requires k in TrackAll(cfg, EMPTY, es).table
    ensures RunsSince(TrackAll(cfg, EMPTY, es).table[k], es, k, p, now, n)
  {
    hide Track, Run, ConnEvents, ConnEvent, OpenedBy;
    var before, e := es[..|es| - 1], es[|es| - 1];
    var t := TrackAll(cfg, EMPTY, before);
    AlwaysConsistent(cfg, EMPTY, before);
    if k in t.table {
      p, now, n := EntriesAreRuns(cfg, before, k);
      assert es == before + [e];
      StillOpened(before, e, k, p, now, n);
      StepOnEntry(cfg, t, e, k);
      RunOneMore(Open(p, now), before, n, k, e);
      CloseTheorems.EndpointsStay(Open(p, now), ConnEvents(es[n..], k));
    } else {
      p, now := NewEntryIsOpened(cfg, es, k);
      n := |es|;
      NothingSince(Open(p, now), es, k);
    }
  }

  /** Every listed connection's close fields are exactly those that the packets it has taken call for. */
  lemma ListedCloseIsHistory(cfg: Config, es: seq<TrackEvent>, k: Key) returns (p: Packet, now: int, n: nat)
    requires k in TrackAll(cfg, EMPTY, es).table
    ensures OpenedBy(es, k, p, now, n)
    ensures TrackAll(cfg, EMPTY, es).table[k].close ==
            ConnectionHistory.CloseAfter(OpenState(p), Log(Open(p, now), ConnEvents(es[n..], k)), p.src, p.dst)
  {
    p, now, n := EntriesAreRuns(cfg, es, k);
    ConnectionHistory.HistoryDeterminesClose(Open(p, now), ConnEvents(es[n..], k));
  }

  /** A listed connection is shown in the handshake exactly while the packets taken since its SYN call for it, and one that
      was picked up running never is. */
  lemma ListedHandshake(cfg: Config, es: seq<TrackEvent>, k: Key) returns (p: Packet, now: int, n: nat)
    requires k in TrackAll(cfg, EMPTY, es).table
    ensures OpenedBy(es, k, p, now, n)
    ensures var h, s := Log(Open(p, now), ConnEvents(es[n..], k)), TrackAll(cfg, EMPTY, es).table[k].close.state;
            if Opening(es[n - 1].cap.packet) then
              && (s == SynSynack <==> !CloseTheorems.SynAckTaken(h) && !ConnectionHistory.HasRst(h))
              && (s == SynackAck <==>
                  CloseTheorems.SynAckTaken(h) && !CloseTheorems.HandshakeTaken(h) && !ConnectionHistory.HasRst(h))
              && (s == Up || s == FinFinack || s == Closed ==> CloseTheorems.HandshakeTaken(h))
            else s != SynSynack && s != SynackAck
  {
    hide CloseTheorems.SynAckTaken, CloseTheorems.HandshakeTaken, ConnectionHistory.HasRst, Log, Run, ConnEvents, TrackAll;
    p, now, n := EntriesAreRuns(cfg, es, k);
    if Opening(es[n - 1].cap.packet) {
      CloseTheorems.SynWaitsForAnswer(p, now, ConnEvents(es[n..], k));
    } else {
      CloseTheorems.OthersAreUpAtOnce(p, now, ConnEvents(es[n..], k));
    }
  }

  /** Event i put the pair's connection on the list, or found it there and not closed. */
  ghost predicate HeardAt(cfg: Config, es: seq<TrackEvent>, k: Key, i: nat)
    requires i < |es|
  {
    && es[i].Deliver? && es[i].cap.packet.Pair() == k
    && var t := TrackAll(cfg, EMPTY, es[..i]).table;
       if k in t then t[k].close.state != Closed else k in TrackAll(cfg, EMPTY, es[..i + 1]).table
  }

  /** The last packet of a listed connection is the last one of its pair that opened it or found it not yet closed. */
  lemma {:induction false} ListedLastPacket(cfg: Config, es: seq<TrackEvent>, k: Key) returns (i: nat)
    requires k in TrackAll(cfg, EMPTY, es).table
    ensures i < |es| && HeardAt(cfg, es, k, i) && TrackAll(cfg, EMPTY, es).table[k].lastPacket == es[i].now
    ensures forall j :: i < j < |es| ==> !HeardAt(cfg, es, k, j)
  {
    hide Track;
    var n := |es| - 1;
    var before, e := es[..n], es[n];
    var t := TrackAll(cfg, EMPTY, before);
    AlwaysConsistent(cfg, EMPTY, before);
    assert es[..n + 1] == es;
    forall j | 0 <= j < n ensures HeardAt(cfg, before, k, j) <==> HeardAt(cfg, es, k, j) {
      assert before[..j] == es[..j] && before[..j + 1] == es[..j + 1] && before[j] == es[j];
    }
    LastPacketStep(cfg, t, e, k);
    if HeardAt(cfg, es, k, n) {
      i := n;
    } else {
      i := ListedLastPacket(cfg, before, k);
    }
  }

  lemma LastPacketStep(cfg: Config, t: Tracker, e: TrackEvent, k: Key)
    requires Consistent(t) && k in Track(cfg, t, e).table
    ensures k !in t.table ==> e.Deliver? && e.cap.packet.Pair() == k && Track(cfg, t, e).table[k].lastPacket == e.now
    ensures k in t.table ==>
              Track(cfg, t, e).table[k].lastPacket ==
              if e.Deliver? && e.cap.packet.Pair() == k && t.table[k].close.state != Closed then e.now
              else t.table[k].lastPacket
  {
    hide Guess, Follow, Count, Refresh, Rate;
  }

  // ---------------------------------------------------------------- how entries appear

  /** The packets of a run that no connection took and that opened none: what the guesser is fed. */
  function Fed(cfg: Config, es: seq<TrackEvent>): seq<Capture> {
    if es == [] then [] else
      var before, e := es[..|es| - 1], es[|es| - 1];
      var t := TrackAll(cfg, EMPTY, before);
      if e.Deliver? && cfg.detect && !Opening(e.cap.packet)
         && !(e.cap.packet.Pair() in t.table && Accepts(t.table[e.cap.packet.Pair()], e.cap.packet))
      then Fed(cfg, before) + [e.cap] else Fed(cfg, before)
  }

  lemma {:induction false} StraysAreHistory(cfg: Config, es: seq<TrackEvent>)
    ensures TrackAll(cfg, EMPTY, es).strays == GuessRun(Fed(cfg, es))
  {
    hide Guess, Accept, Accepts, Maintain, Redrawn, InsertAbsent;
    if es != [] {
      var before := es[..|es| - 1];
      StraysAreHistory(cfg, before);
      if Fed(cfg, es) != Fed(cfg, before) {
        assert Fed(cfg, es)[..|Fed(cfg, es)| - 1] == Fed(cfg, before);
      }
    }
  }

  /** A pair gets an entry exactly when a SYN without ACK of that pair arrives, or (detection on) a packet that completes
      a detection among the packets fed to the guesser so far. */
  lemma EntryAppearsIff(cfg: Config, es: seq<TrackEvent>, e: TrackEvent, k: Key)
    requires k !in TrackAll(cfg, EMPTY, es).table
    ensures k in Track(cfg, TrackAll(cfg, EMPTY, es), e).table <==> (
              && e.Deliver? && e.cap.packet.Pair() == k
              && (Opening(e.cap.packet)
                  || (cfg.detect && Completes(Fed(cfg, es) + [e.cap], |Fed(cfg, es)|))))
  {
    hide TrackAll, Fed, Guess, Completes;
    if e.Deliver? {
      StraysAreHistory(cfg, es);
      DetectionIffHistory(Fed(cfg, es), e.cap);
    }
  }

  /** The verdict is "found" exactly when a listed connection takes the packet or the packet is an opening SYN,
      detected connections notwithstanding; no packet removes an entry. */
  lemma PacketVerdict(t: Tracker, cap: Capture, now: int, detect: bool)
    requires Consistent(t)
    ensures var p := cap.packet;
            var (t', found) := Process(t, cap, now, detect);
            && (found <==> Opening(p) || exists k :: k in t.table && Accepts(t.table[k], p))
            && t.table.Keys <= t'.table.Keys
            && forall k :: k in t.table && k != p.Pair() ==> t'.table[k] == t.table[k]
  {
    var p := cap.packet;
    assert forall k :: k in t.table && k != p.Pair() ==> !Accepts(t.table[k], p);
  }

  // ---------------------------------------------------------------- purging

  /** A tick refreshes every connection and drops exactly the expired ones, and those only when purging is on.
      Established and half-open-handshake connections are never dropped. */
  lemma TickDropsExactlyExpired(t: Tracker, cfg: Config, e: TrackEvent, k: Key)
    requires e.Maintenance? && k in t.table
    ensures k in Track(cfg, t, e).table <==> !(e.purge && Expired(t.table[k], e.seconds, cfg.remto))
    ensures k in Track(cfg, t, e).table ==> Track(cfg, t, e).table[k] == Refreshed(t.table[k], e)
    ensures t.table[k].close.state == Up || t.table[k].close.state == SynackAck ==> k in Track(cfg, t, e).table
  {
  }

  /** Which idle times a purging tick ends: 30 seconds for an unanswered SYN, 60 for a half-closed connection, the configured
      time for a finished one; the others may idle for ever. */
  lemma TickTimeouts(t: Tracker, cfg: Config, e: TrackEvent, k: Key)
    requires e.Maintenance? && k in t.table
    ensures var idle := e.seconds - t.table[k].lastPacket;
            var due := match t.table[k].close.state
              case SynSynack => idle > 30
              case SynackAck => false
              case Up => false
              case FinFinack => idle > 60
              case Closed => idle > cfg.remto
              case Reset => idle > cfg.remto;
            k in Track(cfg, t, e).table <==> !(e.purge && due)
  {
  }

  /** After any run: a purging tick ends a listed connection exactly when more than its state's time has passed since the
      last packet of its pair that it took. */
  lemma NextTickTimeouts(cfg: Config, es: seq<TrackEvent>, e: TrackEvent, k: Key) returns (i: nat)
    requires k in TrackAll(cfg, EMPTY, es).table && e.Maintenance? && e.purge
    ensures i < |es| && HeardAt(cfg, es, k, i) && forall j :: i < j < |es| ==> !HeardAt(cfg, es, k, j)
    ensures var idle, s := e.seconds - es[i].now, TrackAll(cfg, EMPTY, es).table[k].close.state;
            k !in TrackAll(cfg, EMPTY, es + [e]).table <==>
              || (s == SynSynack && idle > 30)
              || (s == FinFinack && idle > 60)
              || ((s == Closed || s == Reset) && idle > cfg.remto)
  {
    hide TrackAll, Track, HeardAt;
    i := ListedLastPacket(cfg, es, k);
    TickTimeouts(TrackAll(cfg, EMPTY, es), cfg, e, k);
    TrackOneMore(cfg, EMPTY, es, e);
  }

  /** No packet of the pair in the run has any of the given flags. */
  ghost predicate NoneOf(es: seq<TrackEvent>, k: Key, bad: Packet -> bool) {
    forall i :: 0 <= i < |es| && es[i].Deliver? && es[i].cap.packet.Pair() == k ==> !bad(es[i].cap.packet)
  }

  /** Packets that end the wait for an answer, and packets that may end a close. */
  predicate Answers(p: Packet) { (p.Syn() && p.Ack()) || p.Rst() }

  predicate Concludes(p: Packet) { p.Ack() || p.Rst() }

  /** A listed connection in state s stays in it as long as no packet of its pair ends the wait. */
  lemma WaitStep(cfg: Config, t: Tracker, e: TrackEvent, k: Key, s: TcpState)
    requires Consistent(t) && k in t.table && t.table[k].close.state == s
    requires s == SynSynack || s == FinFinack
    requires e.Deliver? && e.cap.packet.Pair() == k ==>
               !(if s == SynSynack then Answers(e.cap.packet) else Concludes(e.cap.packet))
    ensures k in Track(cfg, t, e).table <==>
              !(e.Maintenance? && e.purge && e.seconds - t.table[k].lastPacket > if s == SynSynack then 30 else 60)
    ensures k in Track(cfg, t, e).table ==>
              var c := Track(cfg, t, e).table[k];
              && c.close.state == s
              && c.lastPacket == if e.Deliver? && e.cap.packet.Pair() == k then e.now else t.table[k].lastPacket
  {
    hide Guess, Count, Refresh, Rate;
  }

  /** An unanswered SYN, retransmitted or not, stays listed until the first purging tick more than 30 seconds after the last
      packet of its pair; a half-closed connection whose close nobody concludes stays listed for 60. */
  lemma {:induction false} WaitsUntilSilent(cfg: Config, t: Tracker, es: seq<TrackEvent>, k: Key, s: TcpState)
    requires Consistent(t) && k in t.table && t.table[k].close.state == s
    requires (s == SynSynack && NoneOf(es, k, Answers)) || (s == FinFinack && NoneOf(es, k, Concludes))
    requires NeverSilent(es, k, t.table[k].lastPacket, if s == SynSynack then 30 else 60)
    ensures var r := TrackAll(cfg, t, es);
            var last := LastHeard(es, k, t.table[k].lastPacket);
            && k in r.table && r.table[k].close.state == s && r.table[k].lastPacket == last
            && forall e: TrackEvent :: e.Maintenance? ==>
                 (k in Track(cfg, r, e).table <==> !(e.purge && e.seconds - last > if s == SynSynack then 30 else 60))
  {
    hide Track, Answers, Concludes;
    AlwaysConsistent(cfg, t, es);
    if es != [] {
      var n := |es| - 1;
      var before, e := es[..n], es[n];
      assert forall i :: 0 <= i < n ==> before[i] == es[i] && before[..i] == es[..i];
      WaitsUntilSilent(cfg, t, before, k, s);
      AlwaysConsistent(cfg, t, before);
      assert es[..n] == before;
      WaitStep(cfg, TrackAll(cfg, t, before), e, k, s);
    }
    var r := TrackAll(cfg, t, es);
    forall e: TrackEvent | e.Maintenance?
      ensures k in Track(cfg, r, e).table <==>
                !(e.purge && e.seconds - r.table[k].lastPacket > if s == SynSynack then 30 else 60)
    {
      WaitStep(cfg, r, e, k, s);
    }
  }

  /** Same connection, apart from the averaging window and the rate shown for it. */
  ghost predicate SameButWindow(c: Conn, d: Conn) {
    c == d.(traffic := d.traffic.(interval := c.traffic.interval, avgstack := c.traffic.avgstack), rate := c.rate)
  }

  /** No tick of the run finds the closed connection past its time. */
  ghost predicate NotYetDue(es: seq<TrackEvent>, last: int, remto: int) {
    forall i :: 0 <= i < |es| && es[i].Maintenance? && es[i].purge ==> es[i].seconds - last <= remto
  }

  /** One event on a closed connection. */
  lemma ClosedStep(cfg: Config, t: Tracker, e: TrackEvent, k: Key)
    requires k in t.table && t.table[k].close.state == Closed
    ensures k in Track(cfg, t, e).table <==>
              !(e.Maintenance? && e.purge && e.seconds - t.table[k].lastPacket > cfg.remto)
    ensures k in Track(cfg, t, e).table ==> SameButWindow(Track(cfg, t, e).table[k], t.table[k])
  {
  }

  /** Nothing extends the life of a closed connection: whatever packets arrive, among them new SYNs of its pair,
      it stays as it is, and the first purging tick more than remto seconds after its last packet removes it. */
  lemma {:induction false} ClosedStaysUntilDue(cfg: Config, t: Tracker, es: seq<TrackEvent>, k: Key)
    requires Consistent(t) && k in t.table && t.table[k].close.state == Closed
    requires NotYetDue(es, t.table[k].lastPacket, cfg.remto)
    ensures var r := TrackAll(cfg, t, es);
            && k in r.table && SameButWindow(r.table[k], t.table[k])
            && forall e: TrackEvent :: e.Maintenance? ==>
                 (k in Track(cfg, r, e).table <==> !(e.purge && e.seconds - t.table[k].lastPacket > cfg.remto))
  {
    hide Track;
    if es != [] {
      var before, e := es[..|es| - 1], es[|es| - 1];
      assert NotYetDue(before, t.table[k].lastPacket, cfg.remto) by {
        assert forall i :: 0 <= i < |before| ==> before[i] == es[i];
      }
      ClosedStaysUntilDue(cfg, t, before, k);
      assert es[|es| - 1] == e;
      ClosedStep(cfg, TrackAll(cfg, t, before), e, k);
    }
    var r := TrackAll(cfg, t, es);
    forall e: TrackEvent | e.Maintenance?
      ensures k in Track(cfg, r, e).table <==> !(e.purge && e.seconds - t.table[k].lastPacket > cfg.remto)
    {
      ClosedStep(cfg, r, e, k);
    }
  }

  // ---------------------------------------------------------------- reset connections

  /** When the pair last sent a packet, if it did during the run, else the given time. */
  function LastHeard(es: seq<TrackEvent>, k: Key, last: int): int {
    if es == [] then last
    else if es[|es| - 1].Deliver? && es[|es| - 1].cap.packet.Pair() == k then es[|es| - 1].now
    else LastHeard(es[..|es| - 1], k, last)
  }

  /** No purging tick of the run comes more than remto seconds after the pair was last heard of. */
  ghost predicate NeverSilent(es: seq<TrackEvent>, k: Key, last: int, remto: int) {
    forall i :: 0 <= i < |es| && es[i].Maintenance? && es[i].purge ==> es[i].seconds - LastHeard(es[..i], k, last) <= remto
  }

  /** One event on a reset connection: every packet of its pair, an opening SYN too, is swallowed and renews it. */
  lemma ResetStep(cfg: Config, t: Tracker, e: TrackEvent, k: Key)
    requires Consistent(t) && k in t.table && t.table[k].close.state == Reset
    ensures k in Track(cfg, t, e).table <==>
              !(e.Maintenance? && e.purge && e.seconds - t.table[k].lastPacket > cfg.remto)
    ensures k in Track(cfg, t, e).table ==>
              var c := Track(cfg, t, e).table[k];
              && c.close.state == Reset && c.src == t.table[k].src && c.dst == t.table[k].dst
              && c.lastPacket == if e.Deliver? && e.cap.packet.Pair() == k then e.now else t.table[k].lastPacket
  {
    if e.Maintenance? {
      hide Refresh;
    }
  }

  /** A reset connection, unlike a closed one, is kept by traffic: it stays listed, and reset, through any packets of its
      pair, and leaves at the first purging tick more than remto seconds after the last of them. */
  lemma {:induction false} ResetStaysUntilSilent(cfg: Config, t: Tracker, es: seq<TrackEvent>, k: Key)
    requires Consistent(t) && k in t.table && t.table[k].close.state == Reset
    requires NeverSilent(es, k, t.table[k].lastPacket, cfg.remto)
    ensures var r := TrackAll(cfg, t, es);
            var last := LastHeard(es, k, t.table[k].lastPacket);
            && k in r.table && r.table[k].close.state == Reset && r.table[k].lastPacket == last
            && forall e: TrackEvent :: e.Maintenance? ==>
                 (k in Track(cfg, r, e).table <==> !(e.purge && e.seconds - last > cfg.remto))
  {
    hide Track;
    AlwaysConsistent(cfg, t, es);
    if es != [] {
      var n := |es| - 1;
      var before, e := es[..n], es[n];
      assert NeverSilent(before, k, t.table[k].lastPacket, cfg.remto) by {
        assert forall i :: 0 <= i < n ==> before[i] == es[i] && before[..i] == es[..i];
      }
      ResetStaysUntilSilent(cfg, t, before, k);
      AlwaysConsistent(cfg, t, before);
      assert es[..n] == before;
      ResetStep(cfg, TrackAll(cfg, t, before), e, k);
    }
    var r := TrackAll(cfg, t, es);
    forall e: TrackEvent | e.Maintenance?
      ensures k in Track(cfg, r, e).table <==> !(e.purge && e.seconds - r.table[k].lastPacket > cfg.remto)
    {
      ResetStep(cfg, r, e, k);
    }
  }

  lemma TrackOneMore(cfg: Config, t: Tracker, es: seq<TrackEvent>, e: TrackEvent)
    ensures TrackAll(cfg, t, es + [e]) == Track(cfg, TrackAll(cfg, t, es), e)
  {
    hide Track;
    assert (es + [e])[..|es|] == es;
  }

  lemma NothingTracked(cfg: Config)
    ensures TrackAll(cfg, EMPTY, []) == EMPTY && Consistent(EMPTY)
  {
  }

  lemma ResetAtOnce(cfg: Config, syn: Packet, rst: Packet)
    requires syn.Pair() == rst.Pair() && syn.Syn() && !syn.Ack() && rst.Rst()
    ensures var k, t := syn.Pair(), Track(cfg, Track(cfg, EMPTY, Deliver(Capture(syn, 0), 0)), Deliver(Capture(rst, 0), 0));
            k in t.table && t.table[k].close.state == Reset
  {
    hide Guess, Advance, NoteFin, Count;
    var t1 := Track(cfg, EMPTY, Deliver(Capture(syn, 0), 0));
    assert t1.table == map[syn.Pair() := Open(syn, 0)];
  }

  /** From the empty table, whatever the timeout: a SYN, a RST at time 0, a later packet of the pair, a new SYN of it just
      past the timeout, and a purging tick then. The entry is still listed, and still reset. */
  lemma ResetExample(cfg: Config, syn: Packet, rst: Packet, later: Packet) returns (es: seq<TrackEvent>)
    requires cfg.remto >= 0
    requires syn.Pair() == rst.Pair() == later.Pair()
    requires syn.Syn() && !syn.Ack() && !syn.Rst() && rst.Rst()
    ensures var tick := Maintenance(0, 0, cfg.remto + 1, true);
            && es == [Deliver(Capture(syn, 0), 0), Deliver(Capture(rst, 0), 0), Deliver(Capture(later, 0), cfg.remto),
                      Deliver(Capture(syn, 0), cfg.remto + 1), tick]
            && syn.Pair() in TrackAll(cfg, EMPTY, es).table
            && TrackAll(cfg, EMPTY, es).table[syn.Pair()].close.state == Reset
  {
    var k, tick := syn.Pair(), Maintenance(0, 0, cfg.remto + 1, true);
    var e1, e2 := Deliver(Capture(syn, 0), 0), Deliver(Capture(rst, 0), 0);
    var e3, e4 := Deliver(Capture(later, 0), cfg.remto), Deliver(Capture(syn, 0), cfg.remto + 1);
    es := [e1, e2, e3, e4, tick];
    hide Track, TrackAll, Consistent, Packet.Pair, Packet.Syn, Packet.Ack, Packet.Rst;
    NothingTracked(cfg);
    ResetAtOnce(cfg, syn, rst);
    TrackKeepsConsistent(cfg, EMPTY, e1);
    var t1 := Track(cfg, EMPTY, e1);
    TrackKeepsConsistent(cfg, t1, e2);
    ResetOutlives(cfg, Track(cfg, t1, e2), e3, e4, tick, k);
    TrackFive(cfg, e1, e2, e3, e4, tick);
  }

  /** Two packets of a reset pair keep it listed through a tick within the timeout after the second. */
  lemma ResetOutlives(cfg: Config, t: Tracker, e: TrackEvent, f: TrackEvent, tick: TrackEvent, k: Key)
    requires Consistent(t) && k in t.table && t.table[k].close.state == Reset
    requires e.Deliver? && e.cap.packet.Pair() == k && f.Deliver? && f.cap.packet.Pair() == k
    requires tick.Maintenance? && tick.seconds - f.now <= cfg.remto
    ensures var r := Track(cfg, Track(cfg, Track(cfg, t, e), f), tick);
            k in r.table && r.table[k].close.state == Reset
  {
    hide Track, Consistent;
    ResetStep(cfg, t, e, k);
    TrackKeepsConsistent(cfg, t, e);
    var u := Track(cfg, t, e);
    ResetStep(cfg, u, f, k);
    TrackKeepsConsistent(cfg, u, f);
    ResetStep(cfg, Track(cfg, u, f), tick, k);
  }

  lemma TrackFive(cfg: Config, e1: TrackEvent, e2: TrackEvent, e3: TrackEvent, e4: TrackEvent, e5: TrackEvent)
    ensures TrackAll(cfg, EMPTY, [e1, e2, e3, e4, e5]) ==
            Track(cfg, Track(cfg, Track(cfg, Track(cfg, Track(cfg, EMPTY, e1), e2), e3), e4), e5)
  {
    hide Track, TrackAll;
    NothingTracked(cfg);
    TrackOneMore(cfg, EMPTY, [], e1);
    TrackOneMore(cfg, EMPTY, [e1], e2);
    TrackOneMore(cfg, EMPTY, [e1, e2], e3);
    TrackOneMore(cfg, EMPTY, [e1, e2, e3], e4);
    TrackOneMore(cfg, EMPTY, [e1, e2, e3, e4], e5);
    assert [] + [e1] == [e1] && [e1] + [e2] == [e1, e2] && [e1, e2] + [e3] == [e1, e2, e3];
    assert [e1, e2, e3] + [e4] == [e1, e2, e3, e4] && [e1, e2, e3, e4] + [e5] == [e1, e2, e3, e4, e5];
  }
}
