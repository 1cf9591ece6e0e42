/** What becomes of everything the outside world hands to the threads: frames, destination calls, ticks and redraws.
    Each is accounted for in every interleaving, from the moment it arrives. */
module DeliveryTheorems {
  import opened Words
  import opened Packets
  import opened TrackerSpec
  import opened PacketBufferSpec
  import opened PacketBufferTheorems
  import Gate

  // ---------------------------------------------------------------- destination calls

  /** What the sniffer's destination will be once main has finished what it is at, and the same for the buffer's. */
  function SnifferDestSoon(s: System): bool {
    if (s.main.MLock? || s.main.MSet?) && s.main.call.SnifferDest? then s.main.call.on else s.pbSet
  }

  function BufferDestSoon(s: System): bool {
    if (s.main.MLock? || s.main.MSet?) && s.main.call.BufferDest? then s.main.call.on else s.destSet
  }

  /** The last call of a run, or what was before. */
  function LastSnifferDest(acts: seq<Action>, was: bool): bool {
    if acts == [] then was
    else if acts[|acts| - 1].MainCalls? && acts[|acts| - 1].call.SnifferDest? then acts[|acts| - 1].call.on
    else LastSnifferDest(acts[..|acts| - 1], was)
  }

  function LastBufferDest(acts: seq<Action>, was: bool): bool {
    if acts == [] then was
    else if acts[|acts| - 1].MainCalls? && acts[|acts| - 1].call.BufferDest? then acts[|acts| - 1].call.on
    else LastBufferDest(acts[..|acts| - 1], was)
  }

  lemma CallStep(cfg: Config, s: System, a: Action)
    requires Enabled(s, a)
    ensures SnifferDestSoon(Do(cfg, s, a)) == if a.MainCalls? && a.call.SnifferDest? then a.call.on else SnifferDestSoon(s)
    ensures BufferDestSoon(Do(cfg, s, a)) == if a.MainCalls? && a.call.BufferDest? then a.call.on else BufferDestSoon(s)
  {
    hide SnifferDo, ConsumerDo, MaintDo, UiDo, SnifferEnabled, ConsumerEnabled, MaintEnabled, UiEnabled;
    match a
    case SnifferStep => SnifferFrame(s);
    case ConsumerStep(now) => ConsumerFrame(cfg, s, now);
    case MaintStep => MaintFrame(cfg, s);
    case UiStep => UiFrame(cfg, s);
    case _ =>
  }

  /** Setting and clearing take effect: in every interleaving each destination is, once main is done, what the last call
      for it made it, whatever the other threads do. */
  lemma {:induction false} CallsTakeEffect(cfg: Config, s: System, acts: seq<Action>)
    requires Runs(cfg, s, acts)
    ensures var t := Execute(cfg, s, acts);
            && SnifferDestSoon(t) == LastSnifferDest(acts, SnifferDestSoon(s))
            && BufferDestSoon(t) == LastBufferDest(acts, BufferDestSoon(s))
            && (t.main == MIdle ==>
                t.pbSet == LastSnifferDest(acts, SnifferDestSoon(s)) && t.destSet == LastBufferDest(acts, BufferDestSoon(s)))
  {
    hide Do, Enabled;
    if acts != [] {
      CallsTakeEffect(cfg, s, acts[..|acts| - 1]);
      CallStep(cfg, Execute(cfg, s, acts[..|acts| - 1]), acts[|acts| - 1]);
    }
  }

  // ---------------------------------------------------------------- frames

  /** The buffer a frame yields, with its capture time, if it passes the gate. */
  function Passes(f: Frame): seq<Nlp> {
    match Gate.Admitted(f.bytes, f.dlt)
    case Some(b) => [Nlp(b, f.seconds)]
    case None => []
  }

  /** The buffers of all frames that arrive during a run and pass. */
  function Arriving(acts: seq<Action>): seq<Nlp> {
    if acts == [] then [] else
      Arriving(acts[..|acts| - 1]) + if acts[|acts| - 1].FrameArrives? then Passes(acts[|acts| - 1].f) else []
  }

  /** The frame the sniffer has been handed but not yet looked at. */
  function Pending(pc: SnifferPc): seq<Nlp> {
    if pc.SnLockPb? || pc.SnCheckPb? then Passes(pc.f) else []
  }

  /** Every arriving frame that passes is admitted in its turn if the sniffer has a destination when it looks at it, and
      not otherwise. */
  lemma AdmittedStep(cfg: Config, s: System, a: Action)
    requires Enabled(s, a)
    ensures var t := Do(cfg, s, a);
            t.ledger.admitted + Pending(t.sniffer) ==
            s.ledger.admitted + (if a == SnifferStep && s.sniffer.SnCheckPb? && !s.pbSet then [] else Pending(s.sniffer))
            + if a.FrameArrives? then Passes(a.f) else []
  {
    hide SnifferDo, ConsumerDo, MainDo, MaintDo, UiDo, SnifferEnabled, ConsumerEnabled, MainEnabled, MaintEnabled, UiEnabled;
    hide Passes;
    match a
    case SnifferStep => SnifferAdmits(s);
    case ConsumerStep(now) => ConsumerFrame(cfg, s, now);
    case MainStep => MainFrame(s);
    case MaintStep => MaintFrame(cfg, s);
    case UiStep => UiFrame(cfg, s);
    case _ =>
  }

  lemma SnifferAdmits(s: System)
    requires SnifferEnabled(s)
    ensures var t := SnifferDo(s);
            t.ledger.admitted + Pending(t.sniffer) ==
            s.ledger.admitted + if s.sniffer.SnCheckPb? && !s.pbSet then [] else Pending(s.sniffer)
  {
    hide Gate.NetworkBytes, Gate.CheckNlp, Buffers.Put, Buffers.In;
  }

  /** Whether main is about to make that call. */
  predicate Calling(pc: MainPc, call: DestCall) {
    !pc.MIdle? && pc.call == call
  }

  predicate Never(acts: seq<Action>, call: DestCall) {
    forall i :: 0 <= i < |acts| ==> acts[i] != MainCalls(call)
  }

  lemma PbStays(cfg: Config, s: System, a: Action)
    requires Enabled(s, a) && !Calling(s.main, SnifferDest(!s.pbSet)) && a != MainCalls(SnifferDest(!s.pbSet))
    ensures var t := Do(cfg, s, a);
            t.pbSet == s.pbSet && !Calling(t.main, SnifferDest(!t.pbSet))
  {
    hide SnifferDo, ConsumerDo, MaintDo, UiDo, SnifferEnabled, ConsumerEnabled, MaintEnabled, UiEnabled;
    match a
    case SnifferStep => SnifferFrame(s);
    case ConsumerStep(now) => ConsumerFrame(cfg, s, now);
    case MaintStep => MaintFrame(cfg, s);
    case UiStep => UiFrame(cfg, s);
    case _ =>
  }

  /** While the sniffer's destination stays set every frame that passes the gate is admitted, in order of arrival. */
  lemma {:induction false} AllArrivalsAdmitted(cfg: Config, s: System, acts: seq<Action>)
    requires s.pbSet && !Calling(s.main, SnifferDest(false)) && Runs(cfg, s, acts) && Never(acts, SnifferDest(false))
    ensures var t := Execute(cfg, s, acts);
            && t.pbSet && !Calling(t.main, SnifferDest(false))
            && t.ledger.admitted + Pending(t.sniffer) == s.ledger.admitted + Pending(s.sniffer) + Arriving(acts)
  {
    hide Do, Enabled, Pending, Calling, Passes;
    if acts != [] {
      var before, a := acts[..|acts| - 1], acts[|acts| - 1];
      AllArrivalsAdmitted(cfg, s, before);
      var t := Execute(cfg, s, before);
      AdmittedStep(cfg, t, a);
      PbStays(cfg, t, a);
    }
  }

  /** While it stays unset nothing is admitted. */
  lemma {:induction false} NothingAdmittedWhileUnset(cfg: Config, s: System, acts: seq<Action>)
    requires !s.pbSet && !Calling(s.main, SnifferDest(true)) && Runs(cfg, s, acts) && Never(acts, SnifferDest(true))
    ensures var t := Execute(cfg, s, acts);
            !t.pbSet && !Calling(t.main, SnifferDest(true)) && t.ledger.admitted == s.ledger.admitted
  {
    hide Do, Enabled, Calling;
    if acts != [] {
      var before, a := acts[..|acts| - 1], acts[|acts| - 1];
      NothingAdmittedWhileUnset(cfg, s, before);
      var t := Execute(cfg, s, before);
      UnsetAdmitsNothing(cfg, t, a);
      PbStays(cfg, t, a);
    }
  }

  lemma UnsetAdmitsNothing(cfg: Config, s: System, a: Action)
    requires Enabled(s, a) && !s.pbSet
    ensures Do(cfg, s, a).ledger.admitted == s.ledger.admitted
  {
    hide ConsumerDo, MainDo, MaintDo, UiDo, ConsumerEnabled, MainEnabled, MaintEnabled, UiEnabled, Admit, Buffers.Put;
    match a
    case SnifferStep =>
    case ConsumerStep(now) => ConsumerFrame(cfg, s, now);
    case MainStep => MainFrame(s);
    case MaintStep => MaintFrame(cfg, s);
    case UiStep => UiFrame(cfg, s);
    case _ =>
  }

  /** Everything between capture and tracker, oldest first. */
  function OnTheWay(s: System): seq<Nlp> {
    Unhandled(s) + s.buf.In() + InFlight(s.sniffer) + Pending(s.sniffer)
  }

  lemma {:induction false} NlpsConcat(g: seq<Fate>, h: seq<Fate>)
    ensures Nlps(g + h) == Nlps(g) + Nlps(h)
  {
    if h == [] {
      assert g + h == g;
    } else {
      var n := |h| - 1;
      assert (g + h)[..|g + h| - 1] == g + h[..n];
      NlpsConcat(g, h[..n]);
    }
  }

  lemma {:induction false} AllThrough(g: seq<Fate>, h: seq<Fate>)
    requires forall i :: 0 <= i < |h| ==> h[i].through
    ensures Through(g + h) == Through(g) + Nlps(h)
  {
    if h == [] {
      assert g + h == g;
    } else {
      var n := |h| - 1;
      assert (g + h)[..|g + h| - 1] == g + h[..n];
      AllThrough(g, h[..n]);
    }
  }

  lemma {:induction false} CapturesConcat(g: seq<Nlp>, h: seq<Nlp>)
    ensures CapturesOf(g + h) == CapturesOf(g) + CapturesOf(h)
  {
    hide Gate.NewTCPPacket;
    if h == [] {
      assert g + h == g;
    } else {
      var n := |h| - 1;
      assert (g + h)[..|g + h| - 1] == g + h[..n];
      CapturesConcat(g, h[..n]);
    }
  }

  /** The sums of the books, before and after. */
  lemma BooksBalance(a: seq<Nlp>, p: seq<Nlp>, f: seq<Nlp>, a': seq<Nlp>, q: seq<Nlp>, f': seq<Nlp>, pending: seq<Nlp>,
                     pending': seq<Nlp>, arrived: seq<Nlp>)
    requires a == p + f && a' == p + q + f' && a' + pending' == a + pending + arrived
    ensures q + f' + pending' == f + pending + arrived
  {
    assert p + (q + f' + pending') == a' + pending';
    assert p + (f + pending + arrived) == a + pending + arrived;
    assert (p + (q + f' + pending'))[|p|..] == q + f' + pending';
    assert (p + (f + pending + arrived))[|p|..] == f + pending + arrived;
  }

  lemma HandledBalance(t: seq<Nlp>, h: seq<Nlp>, w: seq<Nlp>, q: seq<Nlp>, n: seq<Nlp>, w': seq<Nlp>)
    requires t == h + w && t + q == h + n + w'
    ensures w + q == n + w'
  {
    assert h + (w + q) == t + q && h + (n + w') == h + n + w';
    assert (h + (w + q))[|h|..] == w + q && (h + (n + w'))[|h|..] == n + w';
  }

  lemma ConservedHolds(cfg: Config, s: System)
    requires Inv(cfg, s)
    ensures s.ledger.admitted == Nlps(s.ledger.pushed) + InFlight(s.sniffer)
    ensures Through(s.ledger.pushed) == Nlps(s.ledger.handled) + (Unhandled(s) + s.buf.In())
    ensures LoggedCaptures(s.sink.log) == CapturesOf(Through(s.ledger.handled))
  {
    hide Nlps, InFlight, Unhandled, Through, CapturesOf, LoggedCaptures, LocksOk, BuffersOk, QueuesOk, NoLostWakeup, DestOk;
    hide Buffers.In;
  }

  /** End to end: while both destinations stay set, in every interleaving, the packets handled are in order those that were
      on the way followed by those of the frames that arrived and pass the gate, short of what is on the way still; every
      one of them was delivered, and the tracker was shown exactly these, parsed, with their capture times. */
  lemma EveryFrameIsDelivered(cfg: Config, s: System, acts: seq<Action>)
    requires Inv(cfg, s) && s.pbSet && s.destSet
    requires !Calling(s.main, SnifferDest(false)) && !Calling(s.main, BufferDest(false))
    requires Runs(cfg, s, acts) && Never(acts, SnifferDest(false)) && Never(acts, BufferDest(false))
    ensures var t := Execute(cfg, s, acts);
            && s.ledger.handled <= t.ledger.handled
            && var news := t.ledger.handled[|s.ledger.handled|..];
               && (forall i :: 0 <= i < |news| ==> news[i].through)
               && Nlps(news) + OnTheWay(t) == OnTheWay(s) + Arriving(acts)
               && LoggedCaptures(t.sink.log) == LoggedCaptures(s.sink.log) + CapturesOf(Nlps(news))
  {
    hide Inv, Runs, Execute, Nlps, Through, Pending, Arriving, InFlight, Unhandled, CapturesOf, LoggedCaptures, Buffers.In;
    NothingDiscardedWhileSet(cfg, s, acts);
    AllArrivalsAdmitted(cfg, s, acts);
    var t := Execute(cfg, s, acts);
    ConservedHolds(cfg, s);
    ConservedHolds(cfg, t);
    var queued, news := t.ledger.pushed[|s.ledger.pushed|..], t.ledger.handled[|s.ledger.handled|..];
    assert t.ledger.pushed == s.ledger.pushed + queued && t.ledger.handled == s.ledger.handled + news;
    NlpsConcat(s.ledger.pushed, queued);
    NlpsConcat(s.ledger.handled, news);
    AllThrough(s.ledger.pushed, queued);
    AllThrough(s.ledger.handled, news);
    CapturesConcat(Through(s.ledger.handled), Nlps(news));
    BooksBalance(s.ledger.admitted, Nlps(s.ledger.pushed), InFlight(s.sniffer), t.ledger.admitted, Nlps(queued),
                 InFlight(t.sniffer), Pending(s.sniffer), Pending(t.sniffer), Arriving(acts));
    HandledBalance(Through(s.ledger.pushed), Nlps(s.ledger.handled), Unhandled(s) + s.buf.In(), Nlps(queued), Nlps(news),
                   Unhandled(t) + t.buf.In());
    var w, w' := Unhandled(s) + s.buf.In(), Unhandled(t) + t.buf.In();
    assert Nlps(news) + OnTheWay(t) == (Nlps(news) + w') + InFlight(t.sniffer) + Pending(t.sniffer);
    assert (w + Nlps(queued)) + InFlight(t.sniffer) + Pending(t.sniffer)
        == w + (Nlps(queued) + InFlight(t.sniffer) + Pending(t.sniffer));
    assert w + (InFlight(s.sniffer) + Pending(s.sniffer) + Arriving(acts)) == OnTheWay(s) + Arriving(acts);
  }

  /** At rest nothing is on the way, so then all of it has been shown to the tracker. */
  lemma AtRestAllIsDelivered(cfg: Config, acts: seq<Action>, more: seq<Action>)
    requires Runs(cfg, START, acts)
    requires var s := Execute(cfg, START, acts);
             && s.pbSet && s.destSet && !Calling(s.main, SnifferDest(false)) && !Calling(s.main, BufferDest(false))
             && Runs(cfg, s, more) && Never(more, SnifferDest(false)) && Never(more, BufferDest(false))
    requires !CanGoOn(Execute(cfg, Execute(cfg, START, acts), more))
    ensures var s := Execute(cfg, START, acts);
            var t := Execute(cfg, s, more);
            && s.ledger.handled <= t.ledger.handled
            && (forall i :: |s.ledger.handled| <= i < |t.ledger.handled| ==> t.ledger.handled[i].through)
            && Nlps(t.ledger.handled[|s.ledger.handled|..]) == OnTheWay(s) + Arriving(more)
            && LoggedCaptures(t.sink.log) == LoggedCaptures(s.sink.log) + CapturesOf(OnTheWay(s) + Arriving(more))
  {
    hide Inv, Runs, Execute, CanGoOn, Nlps, Arriving, CapturesOf, LoggedCaptures, OnTheWay;
    AlwaysInv(cfg, acts);
    var s := Execute(cfg, START, acts);
    var t := Execute(cfg, s, more);
    EveryFrameIsDelivered(cfg, s, more);
    InvKept(cfg, s, more);
    NoDeadlock(cfg, t);
    NothingOnTheWay(t);
    var news := t.ledger.handled[|s.ledger.handled|..];
    assert Nlps(news) + [] == Nlps(news);
    forall i | |s.ledger.handled| <= i < |t.ledger.handled| ensures t.ledger.handled[i].through {
      assert t.ledger.handled[i] == news[i - |s.ledger.handled|];
    }
  }

  lemma NothingOnTheWay(t: System)
    requires Quiescent(t)
    ensures OnTheWay(t) == []
  {
  }

  lemma {:induction false} InvKept(cfg: Config, s: System, acts: seq<Action>)
    requires Inv(cfg, s) && Runs(cfg, s, acts)
    ensures Inv(cfg, Execute(cfg, s, acts))
  {
    hide Inv, Do, Enabled;
    if acts != [] {
      InvKept(cfg, s, acts[..|acts| - 1]);
      InvStep(cfg, Execute(cfg, s, acts[..|acts| - 1]), acts[|acts| - 1]);
    }
  }

  /** A wakeup that nobody signalled swaps the queues all the same, empty as they are: nothing is lost, and packets that
      arrive then find the other queue. */
  lemma SpuriousWakeupSwaps(cfg: Config, acts: seq<Action>, now: int)
    requires Runs(cfg, START, acts)
    requires var s := Execute(cfg, START, acts); Enabled(s, SpuriousWakeup) && s.locks.inq == Nobody
    ensures var s := Execute(cfg, START, acts);
            var more := [SpuriousWakeup, ConsumerStep(now), ConsumerStep(now)];
            var t := Execute(cfg, s, more);
            && Runs(cfg, s, more)
            && t.buf.inq == s.buf.outq && t.buf.outq == s.buf.inq && t.buf.pq1 == s.buf.pq1 && t.buf.pq2 == s.buf.pq2
            && t.buf.Out() == s.buf.In() && t.buf.In() == [] && OnTheWay(t) == OnTheWay(s)
  {
    hide Inv, Execute, Runs, Buffers.Swapped, Buffers.In, Buffers.Out;
    var s := Execute(cfg, START, acts);
    AlwaysInv(cfg, acts);
    assert QueuesOk(s) by { InvGives(cfg, s); }
    ThreeActions(cfg, s, SpuriousWakeup, ConsumerStep(now), ConsumerStep(now));
    WakeupThenSwap(cfg, s, now);
    SwapKeepsBoth(s.buf);
    SwapExchanges(s.buf);
  }

  lemma SwapKeepsBoth(b: Buffers)
    requires b.inq != b.outq
    ensures b.Swapped() == b.(inq := b.outq, outq := b.inq)
  {
  }

  lemma WakeupThenSwap(cfg: Config, s: System, now: int)
    requires s.consumer == CWaiting && !s.signalled && s.locks.inq == Nobody
    ensures var t := Do(cfg, s, SpuriousWakeup);
            var u := Do(cfg, t, ConsumerStep(now));
            && Enabled(t, ConsumerStep(now)) && Enabled(u, ConsumerStep(now))
            && Do(cfg, u, ConsumerStep(now)) ==
               s.(locks := s.locks.(inq := Consumer), buf := s.buf.Swapped(), consumer := CUnlockInq)
  {
    hide Buffers.Swapped, DrainDo;
  }

  lemma ThreeActions(cfg: Config, s: System, a: Action, b: Action, c: Action)
    ensures Execute(cfg, s, [a, b, c]) == Do(cfg, Do(cfg, Do(cfg, s, a), b), c)
    ensures Runs(cfg, s, [a, b, c]) <==>
              Enabled(s, a) && Enabled(Do(cfg, s, a), b) && Enabled(Do(cfg, Do(cfg, s, a), b), c)
  {
    hide Do, Enabled;
    assert [a, b, c][..2] == [a, b] && [a, b][..1] == [a] && [a][..0] == [];
    assert Execute(cfg, s, [a]) == Do(cfg, s, a);
    assert Execute(cfg, s, [a, b]) == Do(cfg, Do(cfg, s, a), b);
    assert Runs(cfg, s, [a]) <==> Enabled(s, a);
    assert Runs(cfg, s, [a, b]) <==> Enabled(s, a) && Enabled(Do(cfg, s, a), b);
  }

  // ---------------------------------------------------------------- ticks and redraws

  /** The ticks, or else the redraws, among the events shown to the table. */
  function Shown(log: seq<TrackEvent>, ticks: bool): seq<TrackEvent> {
    if log == [] then [] else
      var r, e := Shown(log[..|log| - 1], ticks), log[|log| - 1];
      if (if ticks then e.Maintenance? else e.Display?) then r + [e] else r
  }

  /** Those that fell due during a run. */
  function Due(acts: seq<Action>, ticks: bool): seq<TrackEvent> {
    if acts == [] then [] else
      var r, a := Due(acts[..|acts| - 1], ticks), acts[|acts| - 1];
      if ticks && a.TickDue? then r + [a.e] else if !ticks && a.RedrawDue? then r + [a.e] else r
  }

  /** The one under way. */
  function Waiting(s: System, ticks: bool): seq<TrackEvent> {
    if ticks && (s.maint.TLock? || s.maint.TRun?) then [s.maint.e]
    else if !ticks && (s.ui.ULock? || s.ui.UDraw?) then [s.ui.e]
    else []
  }

  lemma ShownStep(log: seq<TrackEvent>, e: TrackEvent, ticks: bool)
    ensures Shown(log + [e], ticks) == Shown(log, ticks) + if (if ticks then e.Maintenance? else e.Display?) then [e] else []
  {
    assert (log + [e])[..|log|] == log;
  }

  /** The deliveries of the consumer add no tick and no redraw, and carry the time of the step. */
  lemma ConsumerShows(cfg: Config, s: System, now: int, ticks: bool)
    requires BuffersOk(s) && QueuesOk(s)
    ensures Shown(ConsumerDo(cfg, s, now).sink.log, ticks) == Shown(s.sink.log, ticks)
    ensures var log := ConsumerDo(cfg, s, now).sink.log;
            log == s.sink.log || (exists cap :: log == s.sink.log + [Deliver(cap, now)])
  {
    hide Shown, Track, FetchDo, Checked, Gate.NewTCPPacket, Buffers.Put, Buffers.Out;
    if s.consumer.CProcess? {
      DeliveryIsSafe(cfg, s.sink, s.consumer.n, now);
      var e := Deliver(Capture(Gate.NewTCPPacket(s.consumer.n.bytes).packet, s.consumer.n.seconds), now);
      ShownStep(s.sink.log, e, ticks);
    } else if !Draining(s.consumer) {
      FetchFrame(s);
    }
  }

  lemma MaintShows(cfg: Config, s: System, ticks: bool)
    requires Serial(cfg, s)
    ensures var t := MaintDo(cfg, s);
            Shown(t.sink.log, ticks) + Waiting(t, ticks) == Shown(s.sink.log, ticks) + Waiting(s, ticks)
  {
    hide Shown, Track, TrackAll, LoggedCaptures, CapturesOf, Through;
    if s.maint.TRun? {
      ShownStep(s.sink.log, s.maint.e, ticks);
    }
  }

  lemma UiShows(cfg: Config, s: System, ticks: bool)
    requires Serial(cfg, s)
    ensures var t := UiDo(cfg, s);
            Shown(t.sink.log, ticks) + Waiting(t, ticks) == Shown(s.sink.log, ticks) + Waiting(s, ticks)
  {
    hide Shown, Track, TrackAll, LoggedCaptures, CapturesOf, Through;
    if s.ui.UDraw? {
      ShownStep(s.sink.log, s.ui.e, ticks);
    }
  }

  lemma TickStep(cfg: Config, s: System, a: Action, ticks: bool)
    requires Inv(cfg, s) && Enabled(s, a)
    ensures var t := Do(cfg, s, a);
            Shown(t.sink.log, ticks) + Waiting(t, ticks) ==
            Shown(s.sink.log, ticks) + Waiting(s, ticks)
            + if ticks && a.TickDue? then [a.e] else if !ticks && a.RedrawDue? then [a.e] else []
  {
    hide SnifferDo, ConsumerDo, MainDo, MaintDo, UiDo, SnifferEnabled, ConsumerEnabled, MainEnabled, MaintEnabled, UiEnabled;
    hide Shown, LocksOk, BuffersOk, QueuesOk, Conserved, NoLostWakeup, DestOk, Serial;
    match a
    case SnifferStep => SnifferFrame(s);
    case ConsumerStep(now) =>
      ConsumerFrame(cfg, s, now);
      ConsumerShows(cfg, s, now, ticks);
    case MainStep => MainFrame(s);
    case MaintStep =>
      MaintFrame(cfg, s);
      MaintShows(cfg, s, ticks);
    case UiStep =>
      UiFrame(cfg, s);
      UiShows(cfg, s, ticks);
    case _ =>
  }

  /** Every tick that falls due is carried out once, in order, and so is every redraw: in every interleaving those shown to
      the table are, but for the one under way, those that were due. */
  lemma {:induction false} EveryTickIsRun(cfg: Config, acts: seq<Action>, ticks: bool)
    requires Runs(cfg, START, acts)
    ensures var t := Execute(cfg, START, acts);
            Shown(t.sink.log, ticks) + Waiting(t, ticks) == Due(acts, ticks)
  {
    hide Do, Enabled, Inv, Waiting;
    if acts != [] {
      var before, a := acts[..|acts| - 1], acts[|acts| - 1];
      EveryTickIsRun(cfg, before, ticks);
      AlwaysInv(cfg, before);
      TickStep(cfg, Execute(cfg, START, before), a, ticks);
    } else {
      assert Waiting(START, ticks) == [] by { NothingWaits(ticks); }
    }
  }

  lemma NothingWaits(ticks: bool)
    ensures Waiting(START, ticks) == []
  {
  }
}
