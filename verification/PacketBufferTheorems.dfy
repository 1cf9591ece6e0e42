/** What holds of the packet buffer in every interleaving of its threads. */
module PacketBufferTheorems {
  import opened Packets
  import opened TrackerSpec
  import opened PacketBufferSpec
  import Gate
  import TrackerTheorems
  import HashedTracker

  // ---------------------------------------------------------------- the invariant

  predicate SnifferHoldsPb(pc: SnifferPc) {
    !pc.SnIdle? && !pc.SnLockPb?
  }

  predicate SnifferHoldsC(pc: SnifferPc) {
    pc.SnCheckC? || pc.SnLockInq? || pc.SnPush? || pc.SnSignal? || pc.SnUnlockInq? || pc.SnUnlockC?
  }

  predicate SnifferHoldsInq(pc: SnifferPc) {
    pc.SnPush? || pc.SnSignal? || pc.SnUnlockInq?
  }

  predicate ConsumerHoldsC(pc: ConsumerPc) {
    pc.CCheckC? || pc.CLockCon? || pc.CProcess? || pc.CUnlockCon? || pc.CUnlockC?
  }

  predicate ConsumerHoldsInq(pc: ConsumerPc) {
    pc.CTestInq? || pc.CSwap? || pc.CUnlockInq?
  }

  predicate ConsumerHoldsConlist(pc: ConsumerPc) {
    pc.CProcess? || pc.CUnlockCon?
  }

  predicate MainHoldsPb(pc: MainPc) {
    (pc.MSet? || pc.MUnlock?) && pc.call.SnifferDest?
  }

  predicate MainHoldsC(pc: MainPc) {
    (pc.MSet? || pc.MUnlock?) && pc.call.BufferDest?
  }

  /** The lock is held by each of three threads exactly when its position says so, and by no other. */
  predicate HeldBy(lock: Thread, a: Thread, holdsA: bool, b: Thread, holdsB: bool, c: Thread, holdsC: bool) {
    && (lock == a <==> holdsA)
    && (lock == b <==> holdsB)
    && (lock == c <==> holdsC)
    && (lock == Nobody || lock == a || lock == b || lock == c)
  }

  predicate PbOk(s: System) {
    HeldBy(s.locks.pb, Sniffer, SnifferHoldsPb(s.sniffer), Main, MainHoldsPb(s.main), Consumer, false)
  }

  predicate COk(s: System) {
    HeldBy(s.locks.c, Sniffer, SnifferHoldsC(s.sniffer), Main, MainHoldsC(s.main), Consumer, ConsumerHoldsC(s.consumer))
  }

  predicate InqOk(s: System) {
    HeldBy(s.locks.inq, Sniffer, SnifferHoldsInq(s.sniffer), Main, false, Consumer, ConsumerHoldsInq(s.consumer))
  }

  predicate ConlistOk(s: System) {
    HeldBy(s.locks.conlist, Consumer, ConsumerHoldsConlist(s.consumer),
           Maint, s.maint.TRun? || s.maint.TUnlock?, Ui, s.ui.UDraw? || s.ui.UUnlock?)
  }

  /** Mutual exclusion: every lock is held by exactly the thread whose position says so. */
  predicate LocksOk(s: System) {
    PbOk(s) && COk(s) && InqOk(s) && ConlistOk(s)
  }

  predicate Checked(n: Nlp) {
    |n.bytes| >= 16 && Gate.CheckNlp(n.bytes)
  }

  predicate AllChecked(s: seq<Nlp>) {
    forall i :: 0 <= i < |s| ==> Checked(s[i])
  }

  predicate AllHandledChecked(h: seq<Fate>) {
    forall i :: 0 <= i < |h| ==> Checked(h[i].n)
  }

  /** Only checked buffers travel, so the parser's assertions hold at delivery. */
  predicate BuffersOk(s: System) {
    && AllChecked(s.buf.In()) && AllChecked(s.buf.Out()) && AllHandledChecked(s.ledger.handled)
    && (s.sniffer.SnLockC? || s.sniffer.SnCheckC? || s.sniffer.SnLockInq? || s.sniffer.SnPush? ==> Checked(s.sniffer.n))
    && !s.sink.aborted
  }

  /** Between taking the lock of inq and the swap nothing is left on outq, and inq and outq are never the same queue. */
  predicate QueuesOk(s: System) {
    && s.buf.inq != s.buf.outq
    && (s.consumer.CLockInq? || s.consumer.CTestInq? || s.consumer.CWaiting? || s.consumer.CRelock? || s.consumer.CSwap?
        ==> s.buf.Out() == [])
    && (s.consumer.CLockC? || s.consumer.CCheckC? || s.consumer.CLockCon? || s.consumer.CProcess?
        ==> s.buf.Out() != [] && s.consumer.n == s.buf.Out()[0])
    && (s.consumer.CUnlockCon? || s.consumer.CUnlockC? || s.consumer.CPop? ==> s.buf.Out() != [])
  }

  function Nlps(h: seq<Fate>): seq<Nlp> {
    if h == [] then [] else Nlps(h[..|h| - 1]) + [h[|h| - 1].n]
  }

  /** The packets let through. */
  function Through(h: seq<Fate>): seq<Nlp> {
    if h == [] then [] else Through(h[..|h| - 1]) + if h[|h| - 1].through then [h[|h| - 1].n] else []
  }

  /** The packet on its way from the gate to the queue. */
  function InFlight(pc: SnifferPc): seq<Nlp> {
    if pc.SnLockC? || pc.SnCheckC? || pc.SnLockInq? || pc.SnPush? then [pc.n] else []
  }

  /** What is still to be handled of the output queue: its front may be handled already but not yet popped. */
  function Unhandled(s: System): seq<Nlp> {
    if (s.consumer.CUnlockCon? || s.consumer.CUnlockC? || s.consumer.CPop?) && s.buf.Out() != [] then s.buf.Out()[1..]
    else s.buf.Out()
  }

  /** Nothing is lost, duplicated or reordered: every admitted packet was pushed or dropped in its turn, or is next;
      every pushed packet has been handled in its turn or is on the queues. */
  predicate Conserved(s: System) {
    && s.ledger.admitted == Nlps(s.ledger.pushed) + InFlight(s.sniffer)
    && Through(s.ledger.pushed) == Nlps(s.ledger.handled) + Unhandled(s) + s.buf.In()
  }

  /** A consumer asleep on a non-empty queue has been signalled, or is about to be by the thread that holds the lock. */
  predicate NoLostWakeup(s: System) {
    s.consumer == CWaiting && s.buf.In() != [] ==> s.signalled || s.sniffer == SnSignal
  }

  /** A packet is on its way to the table only while a destination is set. */
  predicate DestOk(s: System) {
    && (s.consumer.CLockCon? || s.consumer.CProcess? || s.consumer.CUnlockCon? ==> s.destSet)
    && (s.sniffer.SnLockInq? || s.sniffer.SnPush? || s.sniffer.SnSignal? || s.sniffer.SnUnlockInq? ==> s.destSet)
  }

  /** What the parser makes of the buffers, each with its capture time. */
  function CapturesOf(ns: seq<Nlp>): seq<Capture> {
    if ns == [] then [] else
      var r, n := CapturesOf(ns[..|ns| - 1]), ns[|ns| - 1];
      if Gate.NewTCPPacket(n.bytes).Parsed? then r + [Capture(Gate.NewTCPPacket(n.bytes).packet, n.seconds)] else r
  }

  function LoggedCaptures(log: seq<TrackEvent>): seq<Capture> {
    if log == [] then [] else
      var r := LoggedCaptures(log[..|log| - 1]);
      if log[|log| - 1].Deliver? then r + [log[|log| - 1].cap] else r
  }

  /** The shared table is the sequential outcome of the log, and the log's captures are the delivered buffers, parsed, in
      order and with their capture times. */
  predicate Serial(cfg: Config, s: System) {
    && s.sink.tracker == TrackAll(cfg, EMPTY, s.sink.log)
    && LoggedCaptures(s.sink.log) == CapturesOf(Through(s.ledger.handled))
    && (s.maint.TLock? || s.maint.TRun? ==> s.maint.e.Maintenance?)
    && (s.ui.ULock? || s.ui.UDraw? ==> s.ui.e.Display?)
  }

  predicate Inv(cfg: Config, s: System) {
    && LocksOk(s) && BuffersOk(s) && QueuesOk(s) && Conserved(s) && NoLostWakeup(s) && DestOk(s) && Serial(cfg, s)
  }

  // ---------------------------------------------------------------- every step keeps it

  lemma PutFrame(b: Buffers, s: seq<Nlp>)
    requires b.inq != b.outq
    ensures forall q :: b.Put(q, s).inq == b.inq && b.Put(q, s).outq == b.outq
    ensures b.Put(b.inq, s).In() == s && b.Put(b.inq, s).Out() == b.Out()
    ensures b.Put(b.outq, s).Out() == s && b.Put(b.outq, s).In() == b.In()
  {
  }

  /** The swap exchanges the two queues. */
  lemma SwapExchanges(b: Buffers)
    requires b.inq != b.outq
    ensures b.Swapped().inq != b.Swapped().outq
    ensures b.Swapped().In() == b.Out() && b.Swapped().Out() == b.In()
  {
  }

  lemma SnifferFrame(s: System)
    ensures var t := SnifferDo(s);
            && t.consumer == s.consumer && t.main == s.main && t.maint == s.maint && t.ui == s.ui
            && t.pbSet == s.pbSet && t.destSet == s.destSet && t.locks.conlist == s.locks.conlist
            && t.sink == s.sink && t.ledger.handled == s.ledger.handled
  {
    hide Admit, Buffers.Put, Buffers.In;
  }

  lemma FetchFrame(s: System)
    ensures var t := FetchDo(s);
            t == s.(locks := s.locks.(inq := t.locks.inq), buf := t.buf, signalled := t.signalled, consumer := t.consumer)
  {
    hide Buffers.Out, Buffers.In, Buffers.Swapped;
  }

  lemma DrainFrame(cfg: Config, s: System, now: int)
    ensures var t := DrainDo(cfg, s, now);
            t == s.(locks := s.locks.(c := t.locks.c, conlist := t.locks.conlist), buf := t.buf,
                    consumer := t.consumer, sink := t.sink, ledger := s.ledger.(handled := t.ledger.handled))
  {
    hide Delivery, Buffers.Put, Buffers.Out;
  }

  lemma ConsumerFrame(cfg: Config, s: System, now: int)
    ensures var t := ConsumerDo(cfg, s, now);
            && t.sniffer == s.sniffer && t.main == s.main && t.maint == s.maint && t.ui == s.ui
            && t.pbSet == s.pbSet && t.destSet == s.destSet && t.locks.pb == s.locks.pb
            && t.ledger.admitted == s.ledger.admitted && t.ledger.pushed == s.ledger.pushed
  {
    hide FetchDo, DrainDo;
    FetchFrame(s);
    DrainFrame(cfg, s, now);
  }

  lemma MainFrame(s: System)
    ensures var t := MainDo(s);
            t == s.(locks := s.locks.(pb := t.locks.pb, c := t.locks.c),
                    pbSet := t.pbSet, destSet := t.destSet, main := t.main)
  {
  }

  lemma MaintFrame(cfg: Config, s: System)
    ensures var t := MaintDo(cfg, s);
            t == s.(locks := s.locks.(conlist := t.locks.conlist), maint := t.maint, sink := t.sink)
    ensures MaintDo(cfg, s).sink.aborted == s.sink.aborted
  {
    hide Track;
  }

  lemma UiFrame(cfg: Config, s: System)
    ensures var t := UiDo(cfg, s);
            t == s.(locks := s.locks.(conlist := t.locks.conlist), ui := t.ui, sink := t.sink)
    ensures UiDo(cfg, s).sink.aborted == s.sink.aborted
  {
    hide Track;
  }

  lemma SnifferPbOk(s: System)
    requires PbOk(s) && SnifferEnabled(s)
    ensures PbOk(SnifferDo(s))
  {
    hide Admit, Buffers.Put, Buffers.In;
  }

  lemma SnifferCOk(s: System)
    requires COk(s) && SnifferEnabled(s)
    ensures COk(SnifferDo(s))
  {
    hide Admit, Buffers.Put, Buffers.In;
  }

  lemma SnifferInqOk(s: System)
    requires InqOk(s) && SnifferEnabled(s)
    ensures InqOk(SnifferDo(s))
  {
    hide Admit, Buffers.Put, Buffers.In;
  }

  lemma FetchCOk(s: System)
    requires COk(s) && !Draining(s.consumer) && ConsumerEnabled(s)
    ensures COk(FetchDo(s))
  {
    hide Buffers.Out, Buffers.In, Buffers.Swapped;
  }

  lemma FetchInqOk(s: System)
    requires InqOk(s) && !Draining(s.consumer) && ConsumerEnabled(s)
    ensures InqOk(FetchDo(s))
  {
    hide Buffers.Out, Buffers.In, Buffers.Swapped;
  }

  lemma FetchConlistOk(s: System)
    requires ConlistOk(s) && !Draining(s.consumer) && ConsumerEnabled(s)
    ensures ConlistOk(FetchDo(s))
  {
    hide Buffers.Out, Buffers.In, Buffers.Swapped;
  }

  lemma DrainCOk(cfg: Config, s: System, now: int)
    requires COk(s) && Draining(s.consumer) && ConsumerEnabled(s)
    ensures COk(DrainDo(cfg, s, now))
  {
    hide Delivery, Buffers.Put, Buffers.Out;
  }

  lemma DrainInqOk(cfg: Config, s: System, now: int)
    requires InqOk(s) && Draining(s.consumer) && ConsumerEnabled(s)
    ensures InqOk(DrainDo(cfg, s, now))
  {
    hide Delivery, Buffers.Put, Buffers.Out;
  }

  lemma DrainConlistOk(cfg: Config, s: System, now: int)
    requires ConlistOk(s) && Draining(s.consumer) && ConsumerEnabled(s)
    ensures ConlistOk(DrainDo(cfg, s, now))
  {
    hide Delivery, Buffers.Put, Buffers.Out;
  }

  lemma MainPbOk(s: System)
    requires PbOk(s) && MainEnabled(s)
    ensures PbOk(MainDo(s))
  {
    hide SnifferHoldsPb;
  }

  lemma MainCOk(s: System)
    requires COk(s) && MainEnabled(s)
    ensures COk(MainDo(s))
  {
    hide SnifferHoldsC, ConsumerHoldsC;
  }

  lemma MainLocks(s: System)
    requires LocksOk(s) && MainEnabled(s)
    ensures LocksOk(MainDo(s))
  {
    hide MainDo, MainEnabled, SnifferHoldsPb, SnifferHoldsC, SnifferHoldsInq, ConsumerHoldsC, ConsumerHoldsInq;
    hide ConsumerHoldsConlist;
    MainFrame(s);
    MainPbOk(s);
    MainCOk(s);
  }

  lemma MaintLocks(cfg: Config, s: System)
    requires LocksOk(s) && MaintEnabled(s)
    ensures LocksOk(MaintDo(cfg, s))
  {
    hide Show, SnifferHoldsPb, SnifferHoldsC, SnifferHoldsInq, ConsumerHoldsC, ConsumerHoldsInq;
    hide ConsumerHoldsConlist;
  }

  lemma UiLocks(cfg: Config, s: System)
    requires LocksOk(s) && UiEnabled(s)
    ensures LocksOk(UiDo(cfg, s))
  {
    hide Show, SnifferHoldsPb, SnifferHoldsC, SnifferHoldsInq, ConsumerHoldsC, ConsumerHoldsInq;
    hide ConsumerHoldsConlist;
  }

  lemma OutsideLocks(cfg: Config, s: System, a: Action)
    requires LocksOk(s) && Enabled(s, a) && !Internal(a)
    ensures LocksOk(Do(cfg, s, a))
  {
    hide SnifferDo, ConsumerDo, MainDo, MaintDo, UiDo;
  }

  lemma ConsumerLocks(cfg: Config, s: System, now: int)
    requires LocksOk(s) && ConsumerEnabled(s)
    ensures LocksOk(ConsumerDo(cfg, s, now))
  {
    hide FetchDo, DrainDo, ConsumerEnabled, ConsumerHoldsC, ConsumerHoldsInq, ConsumerHoldsConlist;
    ConsumerFrame(cfg, s, now);
    if Draining(s.consumer) {
      DrainCOk(cfg, s, now);
      DrainInqOk(cfg, s, now);
      DrainConlistOk(cfg, s, now);
    } else {
      FetchCOk(s);
      FetchInqOk(s);
      FetchConlistOk(s);
    }
  }

  lemma LocksStep(cfg: Config, s: System, a: Action)
    requires LocksOk(s) && Enabled(s, a)
    ensures LocksOk(Do(cfg, s, a))
  {
    match a
    case SnifferStep =>
      hide SnifferDo, SnifferEnabled, SnifferHoldsPb, SnifferHoldsC, SnifferHoldsInq;
      SnifferFrame(s);
      SnifferPbOk(s);
      SnifferCOk(s);
      SnifferInqOk(s);
    case ConsumerStep(now) =>
      hide ConsumerDo, ConsumerEnabled, LocksOk;
      ConsumerLocks(cfg, s, now);
    case MainStep => hide MainDo, LocksOk; MainLocks(s);
    case MaintStep => hide MaintDo, LocksOk; MaintLocks(cfg, s);
    case UiStep => hide UiDo, LocksOk; UiLocks(cfg, s);
    case _ => hide LocksOk; OutsideLocks(cfg, s, a);
  }

  lemma SnifferKeepsQueues(s: System)
    requires LocksOk(s) && QueuesOk(s) && SnifferEnabled(s)
    ensures QueuesOk(SnifferDo(s))
  {
    hide Admit, Buffers.Put, Buffers.In, Buffers.Out;
    if s.sniffer.SnPush? {
      assert !ConsumerHoldsInq(s.consumer);
      PutFrame(s.buf, s.buf.In() + [s.sniffer.n]);
    }
  }

  lemma ConsumerKeepsQueues(cfg: Config, s: System, now: int)
    requires QueuesOk(s) && ConsumerEnabled(s)
    ensures QueuesOk(ConsumerDo(cfg, s, now))
  {
    hide Delivery, Buffers.Put, Buffers.In, Buffers.Out, Buffers.Swapped;
    SwapExchanges(s.buf);
    if s.consumer.CPop? {
      PutFrame(s.buf, s.buf.Out()[1..]);
    }
  }

  lemma QueuesStep(cfg: Config, s: System, a: Action)
    requires LocksOk(s) && QueuesOk(s) && Enabled(s, a)
    ensures QueuesOk(Do(cfg, s, a))
  {
    hide SnifferDo, ConsumerDo, MainDo, MaintDo, UiDo, SnifferEnabled, ConsumerEnabled, MainEnabled;
    hide MaintEnabled, UiEnabled, Show, LocksOk, Buffers.Out;
    match a
    case SnifferStep => SnifferKeepsQueues(s);
    case ConsumerStep(now) => ConsumerKeepsQueues(cfg, s, now);
    case MainStep => MainFrame(s);
    case MaintStep => MaintFrame(cfg, s);
    case UiStep => UiFrame(cfg, s);
    case _ =>
  }

  lemma AdmittedIsChecked(f: Frame)
    ensures Admit(f).Some? ==> Checked(Admit(f).value)
  {
    hide Gate.CheckNlp;
  }

  lemma SnifferKeepsBuffers(s: System)
    requires BuffersOk(s) && QueuesOk(s) && SnifferEnabled(s)
    ensures BuffersOk(SnifferDo(s))
  {
    hide Admit, Checked, Buffers.Put, Buffers.In, Buffers.Out, AllHandledChecked;
    if s.sniffer.SnCheckPb? {
      hide AllChecked;
      AdmittedIsChecked(s.sniffer.f);
    } else if s.sniffer.SnPush? {
      PutFrame(s.buf, s.buf.In() + [s.sniffer.n]);
    } else {
      hide AllChecked;
    }
  }

  lemma DeliveryIsSafe(cfg: Config, k: Sink, n: Nlp, now: int)
    requires Checked(n)
    ensures Gate.NewTCPPacket(n.bytes).Parsed?
    ensures Delivery(cfg, k, n, now) == Show(cfg, k, Deliver(Capture(Gate.NewTCPPacket(n.bytes).packet, n.seconds), now))
  {
    hide Show;
    Gate.GateIsExact(n.bytes);
  }

  lemma DrainKeepsBuffers(cfg: Config, s: System, now: int)
    requires BuffersOk(s) && QueuesOk(s) && Draining(s.consumer)
    ensures BuffersOk(DrainDo(cfg, s, now))
  {
    hide Delivery, Checked, Buffers.Put, Buffers.In, Buffers.Out;
    if s.consumer.CProcess? {
      DeliveryIsSafe(cfg, s.sink, s.consumer.n, now);
    } else if s.consumer.CPop? {
      PutFrame(s.buf, s.buf.Out()[1..]);
    }
  }

  lemma FetchKeepsBuffers(s: System)
    requires BuffersOk(s) && QueuesOk(s)
    ensures BuffersOk(FetchDo(s))
  {
    hide Checked, Buffers.Swapped, Buffers.In, Buffers.Out, AllChecked, AllHandledChecked;
    SwapExchanges(s.buf);
  }

  lemma BuffersStep(cfg: Config, s: System, a: Action)
    requires BuffersOk(s) && QueuesOk(s) && Enabled(s, a)
    ensures BuffersOk(Do(cfg, s, a))
  {
    hide SnifferDo, FetchDo, DrainDo, MainDo, MaintDo, UiDo, SnifferEnabled, ConsumerEnabled, MainEnabled;
    hide MaintEnabled, UiEnabled;
    hide QueuesOk, Checked, AllChecked, AllHandledChecked;
    match a
    case SnifferStep => SnifferKeepsBuffers(s);
    case ConsumerStep(now) =>
      if Draining(s.consumer) {
        DrainKeepsBuffers(cfg, s, now);
      } else {
        FetchKeepsBuffers(s);
      }
    case MainStep => MainFrame(s);
    case MaintStep => MaintFrame(cfg, s);
    case UiStep => UiFrame(cfg, s);
    case _ =>
  }

  lemma NlpsStep(h: seq<Fate>, x: Fate)
    ensures Nlps(h + [x]) == Nlps(h) + [x.n]
  {
    assert (h + [x])[..|h|] == h;
  }

  lemma ThroughStep(h: seq<Fate>, x: Fate)
    ensures Through(h + [x]) == Through(h) + if x.through then [x.n] else []
  {
    assert (h + [x])[..|h|] == h;
  }

  /** A push, or a drop in its place, takes the packet in flight to the end of the record. */
  lemma PushingConserves(s: System)
    requires QueuesOk(s) && Conserved(s)
    requires s.sniffer.SnPush? || (s.sniffer.SnCheckC? && !s.destSet)
    ensures Conserved(SnifferDo(s))
  {
    hide Buffers.Put, Buffers.In, Buffers.Out, Nlps, Through;
    var x := Fate(s.sniffer.n, s.sniffer.SnPush?);
    NlpsStep(s.ledger.pushed, x);
    ThroughStep(s.ledger.pushed, x);
    if s.sniffer.SnPush? {
      PutFrame(s.buf, s.buf.In() + [s.sniffer.n]);
    } else {
      assert Through(s.ledger.pushed) + [] == Through(s.ledger.pushed);
    }
  }

  /** Steps of the sniffer that push nothing. */
  lemma CarryingConserves(s: System)
    requires Conserved(s) && SnifferEnabled(s)
    requires !s.sniffer.SnPush? && !(s.sniffer.SnCheckC? && !s.destSet)
    ensures Conserved(SnifferDo(s))
  {
    hide Admit, Buffers.Put, Buffers.In, Buffers.Out, Nlps, Through;
  }

  lemma SnifferConserves(s: System)
    requires QueuesOk(s) && Conserved(s) && SnifferEnabled(s)
    ensures Conserved(SnifferDo(s))
  {
    hide SnifferDo, SnifferEnabled, QueuesOk, Conserved;
    if s.sniffer.SnPush? || (s.sniffer.SnCheckC? && !s.destSet) {
      PushingConserves(s);
    } else {
      CarryingConserves(s);
    }
  }

  /** Handling the front of the output queue moves it from one end of the ledger to the other. */
  lemma HandlingConserves(cfg: Config, s: System, now: int)
    requires QueuesOk(s) && Conserved(s) && ConsumerEnabled(s)
    requires (s.consumer.CCheckC? && !s.destSet) || s.consumer.CProcess?
    ensures Conserved(ConsumerDo(cfg, s, now))
  {
    hide Delivery, Buffers.In, Buffers.Out, Nlps;
    var x := Fate(s.consumer.n, s.consumer.CProcess?);
    var s' := ConsumerDo(cfg, s, now);
    assert s'.ledger.handled == s.ledger.handled + [x] && s'.buf == s.buf;
    NlpsStep(s.ledger.handled, x);
    hide Through;
    var done, out, rest := Nlps(s.ledger.handled), s.buf.Out(), s.buf.In();
    assert done + out + rest == (done + [out[0]]) + out[1..] + rest;
  }

  lemma MovingConserves(cfg: Config, s: System, now: int)
    requires QueuesOk(s) && Conserved(s)
    requires s.consumer.CSwap? || s.consumer.CPop?
    ensures Conserved(ConsumerDo(cfg, s, now))
  {
    hide Buffers.Put, Buffers.In, Buffers.Out, Buffers.Swapped, Nlps, Through;
    SwapExchanges(s.buf);
    PutFrame(s.buf, if s.buf.Out() == [] then [] else s.buf.Out()[1..]);
    var done := Nlps(s.ledger.handled);
    if s.consumer.CSwap? {
      assert done + [] + s.buf.In() == done + s.buf.In() + [];
    }
  }

  /** Steps that touch neither the queues nor the ledger. */
  lemma IdlingConserves(cfg: Config, s: System, now: int)
    requires QueuesOk(s) && Conserved(s) && ConsumerEnabled(s)
    requires !(s.consumer.CCheckC? && !s.destSet) && !s.consumer.CProcess? && !s.consumer.CSwap? && !s.consumer.CPop?
    ensures Conserved(ConsumerDo(cfg, s, now))
  {
    hide Buffers.Put, Buffers.In, Buffers.Out, Buffers.Swapped, Nlps, Through, Delivery;
    if Draining(s.consumer) {
      hide FetchDo;
    } else {
      hide DrainDo;
    }
  }

  lemma ConsumerConserves(cfg: Config, s: System, now: int)
    requires QueuesOk(s) && Conserved(s) && ConsumerEnabled(s)
    ensures Conserved(ConsumerDo(cfg, s, now))
  {
    hide ConsumerDo, ConsumerEnabled, QueuesOk, Conserved;
    if (s.consumer.CCheckC? && !s.destSet) || s.consumer.CProcess? {
      HandlingConserves(cfg, s, now);
    } else if s.consumer.CSwap? || s.consumer.CPop? {
      MovingConserves(cfg, s, now);
    } else {
      IdlingConserves(cfg, s, now);
    }
  }

  lemma ConservedStep(cfg: Config, s: System, a: Action)
    requires QueuesOk(s) && Conserved(s) && Enabled(s, a)
    ensures Conserved(Do(cfg, s, a))
  {
    hide SnifferDo, ConsumerDo, MainDo, MaintDo, UiDo, SnifferEnabled, ConsumerEnabled, MainEnabled;
    hide MaintEnabled, UiEnabled, Show, QueuesOk, Buffers.In, Buffers.Out, Nlps;
    match a
    case SnifferStep => SnifferConserves(s);
    case ConsumerStep(now) => ConsumerConserves(cfg, s, now);
    case MainStep => MainFrame(s);
    case MaintStep => MaintFrame(cfg, s);
    case UiStep => UiFrame(cfg, s);
    case _ =>
  }

  lemma SnifferWakes(s: System)
    requires InqOk(s) && QueuesOk(s) && NoLostWakeup(s) && SnifferEnabled(s)
    ensures NoLostWakeup(SnifferDo(s))
  {
    hide Admit, Buffers.Put, Buffers.In, Buffers.Out;
    if s.sniffer.SnPush? {
      PutFrame(s.buf, s.buf.In() + [s.sniffer.n]);
    }
  }

  lemma ConsumerSleepsOnEmpty(cfg: Config, s: System, now: int)
    requires NoLostWakeup(s) && ConsumerEnabled(s)
    ensures NoLostWakeup(ConsumerDo(cfg, s, now))
  {
    if Draining(s.consumer) {
      hide FetchDo, Delivery, Buffers.Put, Buffers.In, Buffers.Out;
    } else {
      hide DrainDo, Buffers.Swapped, Buffers.In, Buffers.Out;
    }
  }

  lemma WakeupStep(cfg: Config, s: System, a: Action)
    requires LocksOk(s) && QueuesOk(s) && NoLostWakeup(s) && Enabled(s, a)
    ensures NoLostWakeup(Do(cfg, s, a))
  {
    hide SnifferDo, ConsumerDo, MainDo, MaintDo, UiDo, SnifferEnabled, ConsumerEnabled, MainEnabled;
    hide MaintEnabled, UiEnabled;
    hide QueuesOk, Buffers.In;
    match a
    case SnifferStep => SnifferWakes(s);
    case ConsumerStep(now) => ConsumerSleepsOnEmpty(cfg, s, now);
    case MainStep => MainFrame(s);
    case MaintStep => MaintFrame(cfg, s);
    case UiStep => UiFrame(cfg, s);
    case _ =>
  }

  lemma SnifferKeepsDest(s: System)
    requires DestOk(s) && SnifferEnabled(s)
    ensures DestOk(SnifferDo(s))
  {
    hide Admit, Buffers.Put, Buffers.In;
  }

  lemma ConsumerKeepsDest(cfg: Config, s: System, now: int)
    requires DestOk(s) && ConsumerEnabled(s)
    ensures DestOk(ConsumerDo(cfg, s, now))
  {
    if Draining(s.consumer) {
      hide FetchDo, Delivery, Buffers.Put, Buffers.Out;
    } else {
      hide DrainDo, Buffers.Swapped, Buffers.In, Buffers.Out;
    }
  }

  /** The destination changes only under its lock, so not while a packet is on its way to it. */
  lemma MainKeepsDest(s: System)
    requires COk(s) && DestOk(s) && MainEnabled(s)
    ensures DestOk(MainDo(s))
  {
  }

  lemma DestStep(cfg: Config, s: System, a: Action)
    requires LocksOk(s) && DestOk(s) && Enabled(s, a)
    ensures DestOk(Do(cfg, s, a))
  {
    hide SnifferDo, ConsumerDo, MainDo, MaintDo, UiDo, SnifferEnabled, ConsumerEnabled, MainEnabled;
    hide MaintEnabled, UiEnabled;
    match a
    case SnifferStep => SnifferKeepsDest(s);
    case ConsumerStep(now) => ConsumerKeepsDest(cfg, s, now);
    case MainStep => MainKeepsDest(s);
    case MaintStep => MaintFrame(cfg, s);
    case UiStep => UiFrame(cfg, s);
    case _ =>
  }

  lemma ShowIsSerial(cfg: Config, k: Sink, e: TrackEvent)
    requires k.tracker == TrackAll(cfg, EMPTY, k.log)
    ensures Show(cfg, k, e).tracker == TrackAll(cfg, EMPTY, Show(cfg, k, e).log)
    ensures LoggedCaptures(Show(cfg, k, e).log) == LoggedCaptures(k.log) + if e.Deliver? then [e.cap] else []
  {
    assert (k.log + [e])[..|k.log|] == k.log;
  }

  lemma CapturesStep(ns: seq<Nlp>, n: Nlp)
    ensures CapturesOf(ns + [n]) == CapturesOf(ns) +
              if Gate.NewTCPPacket(n.bytes).Parsed? then [Capture(Gate.NewTCPPacket(n.bytes).packet, n.seconds)] else []
  {
    assert (ns + [n])[..|ns|] == ns;
  }

  lemma DrainKeepsSerial(cfg: Config, s: System, now: int)
    requires BuffersOk(s) && QueuesOk(s) && Serial(cfg, s) && Draining(s.consumer)
    ensures Serial(cfg, DrainDo(cfg, s, now))
  {
    hide Delivery, Show, Checked, TrackAll, LoggedCaptures, CapturesOf, Through, Gate.NewTCPPacket, Buffers.Put, Buffers.In,
         AllHandledChecked;
    if s.consumer.CCheckC? && !s.destSet {
      ThroughStep(s.ledger.handled, Fate(s.consumer.n, false));
      assert Through(s.ledger.handled) + [] == Through(s.ledger.handled);
    } else if s.consumer.CProcess? {
      ThroughStep(s.ledger.handled, Fate(s.consumer.n, true));
      CapturesStep(Through(s.ledger.handled), s.consumer.n);
      DeliveryIsSafe(cfg, s.sink, s.consumer.n, now);
      ShowIsSerial(cfg, s.sink, Deliver(Capture(Gate.NewTCPPacket(s.consumer.n.bytes).packet, s.consumer.n.seconds), now));
    }
  }

  lemma MaintKeepsSerial(cfg: Config, s: System)
    requires Serial(cfg, s)
    ensures Serial(cfg, MaintDo(cfg, s))
  {
    hide Show, TrackAll, LoggedCaptures, CapturesOf;
    if s.maint.TRun? {
      ShowIsSerial(cfg, s.sink, s.maint.e);
    }
  }

  lemma UiKeepsSerial(cfg: Config, s: System)
    requires Serial(cfg, s)
    ensures Serial(cfg, UiDo(cfg, s))
  {
    hide Show, TrackAll, LoggedCaptures, CapturesOf;
    if s.ui.UDraw? {
      ShowIsSerial(cfg, s.sink, s.ui.e);
    }
  }

  lemma SerialStep(cfg: Config, s: System, a: Action)
    requires BuffersOk(s) && QueuesOk(s) && Serial(cfg, s) && Enabled(s, a)
    ensures Serial(cfg, Do(cfg, s, a))
  {
    hide SnifferDo, FetchDo, DrainDo, MainDo, MaintDo, UiDo;
    hide SnifferEnabled, ConsumerEnabled, MainEnabled, MaintEnabled, UiEnabled;
    hide TrackAll, LoggedCaptures, CapturesOf, BuffersOk, QueuesOk;
    match a
    case SnifferStep => SnifferFrame(s);
    case ConsumerStep(now) =>
      if Draining(s.consumer) {
        DrainKeepsSerial(cfg, s, now);
      } else {
        FetchFrame(s);
      }
    case MainStep => MainFrame(s);
    case MaintStep => MaintKeepsSerial(cfg, s);
    case UiStep => UiKeepsSerial(cfg, s);
    case _ =>
  }

  lemma InvStep(cfg: Config, s: System, a: Action)
    requires Inv(cfg, s) && Enabled(s, a)
    ensures Inv(cfg, Do(cfg, s, a))
  {
    LocksStep(cfg, s, a);
    BuffersStep(cfg, s, a);
    QueuesStep(cfg, s, a);
    ConservedStep(cfg, s, a);
    WakeupStep(cfg, s, a);
    DestStep(cfg, s, a);
    SerialStep(cfg, s, a);
  }

  /** In every interleaving of frames, wakeups (spurious ones too), swaps, deliveries, destination changes, ticks and
      redraws the invariant holds. */
  lemma {:induction false} AlwaysInv(cfg: Config, acts: seq<Action>)
    requires Runs(cfg, START, acts)
    ensures Inv(cfg, Execute(cfg, START, acts))
  {
    if acts != [] {
      AlwaysInv(cfg, acts[..|acts| - 1]);
      InvStep(cfg, Execute(cfg, START, acts[..|acts| - 1]), acts[|acts| - 1]);
    }
  }

  // ---------------------------------------------------------------- what it means

  lemma AppendPrefix(a: seq<Nlp>, b: seq<Nlp>, c: seq<Nlp>)
    ensures a <= a + b + c
  {
  }

  /** First in, first out, nothing lost: what the consumer has taken off is a prefix of what was queued, the rest is on
      the two queues in order, outq is empty at every swap, the parser's assertions never failed, and the packets shown
      to the tracker are the delivered ones in order. */
  lemma QueueIsFifo(cfg: Config, acts: seq<Action>)
    requires Runs(cfg, START, acts)
    ensures var s := Execute(cfg, START, acts);
            && s.ledger.admitted == Nlps(s.ledger.pushed) + InFlight(s.sniffer)
            && Through(s.ledger.pushed) == Nlps(s.ledger.handled) + Unhandled(s) + s.buf.In()
            && Nlps(s.ledger.handled) <= Through(s.ledger.pushed)
            && (s.consumer == CSwap ==> s.buf.Out() == [])
            && s.buf.inq != s.buf.outq
            && !s.sink.aborted
            && s.sink.tracker == TrackAll(cfg, EMPTY, s.sink.log)
            && LoggedCaptures(s.sink.log) == CapturesOf(Through(s.ledger.handled))
  {
    hide Runs, Execute, TrackAll, LoggedCaptures, CapturesOf, Nlps, Unhandled, InFlight, Through;
    hide Buffers.In, Buffers.Out;
    AlwaysInv(cfg, acts);
    var s := Execute(cfg, START, acts);
    AppendPrefix(Nlps(s.ledger.handled), Unhandled(s), s.buf.In());
  }

  /** All threads are between their tasks and the consumer sleeps on empty queues. */
  predicate Quiescent(s: System) {
    && s.sniffer.SnIdle? && s.main.MIdle? && s.maint.TIdle? && s.ui.UIdle?
    && s.consumer.CWaiting? && !s.signalled
    && s.buf.In() == [] && s.buf.Out() == []
  }

  /** Some thread in the middle of its work can go on. */
  predicate CanGoOn(s: System) {
    SnifferEnabled(s) || ConsumerEnabled(s) || MainEnabled(s) || MaintEnabled(s) || UiEnabled(s)
  }

  /** No deadlock and no lost wakeup: unless everything is at rest with empty queues, some thread can go on without
      any help from outside. */
  lemma NoDeadlock(cfg: Config, s: System)
    requires Inv(cfg, s)
    ensures CanGoOn(s) || Quiescent(s)
  {
    hide BuffersOk, Conserved, Serial, DestOk;
  }

  /** The thread holds neither the lock of the destination nor one that is taken after it. */
  predicate HoldsNoneFromC(l: Locks, t: Thread) {
    t != l.c && t != l.inq && t != l.conlist
  }

  lemma SnifferTakesInOrder(s: System)
    requires LocksOk(s) && SnifferEnabled(s)
    ensures var l, l' := s.locks, SnifferDo(s).locks;
            && (l'.pb == l.pb || l'.pb == Nobody || HoldsNoneFromC(l, l'.pb))
            && (l'.c == l.c || l'.c == Nobody || HoldsNoneFromC(l, l'.c))
            && (l'.inq == l.inq || l'.inq == Nobody || l'.inq != l.conlist)
  {
    hide Admit, Buffers.Put, Buffers.In;
    if s.sniffer.SnLockPb? || s.sniffer.SnLockC? || s.sniffer.SnLockInq? {
    } else {
      hide LocksOk, HoldsNoneFromC;
    }
  }

  lemma FetchTakesInOrder(s: System)
    requires LocksOk(s) && !Draining(s.consumer) && ConsumerEnabled(s)
    ensures var l, l' := s.locks, FetchDo(s).locks;
            l'.inq == l.inq || l'.inq == Nobody || l'.inq != l.conlist
  {
    hide Buffers.Swapped, Buffers.In, Buffers.Out;
  }

  lemma DrainTakesInOrder(cfg: Config, s: System, now: int)
    requires LocksOk(s) && Draining(s.consumer) && ConsumerEnabled(s)
    ensures var l, l' := s.locks, DrainDo(cfg, s, now).locks;
            && (l'.c == l.c || l'.c == Nobody || HoldsNoneFromC(l, l'.c))
            && (l'.conlist == l.conlist || l'.conlist == Nobody || l'.conlist != l.inq)
  {
    hide Delivery, Buffers.Put, Buffers.Out;
  }

  lemma ConsumerTakesInOrder(cfg: Config, s: System, now: int)
    requires LocksOk(s) && ConsumerEnabled(s)
    ensures var l, l' := s.locks, ConsumerDo(cfg, s, now).locks;
            && (l'.c == l.c || l'.c == Nobody || HoldsNoneFromC(l, l'.c))
            && (l'.inq == l.inq || l'.inq == Nobody || l'.inq != l.conlist)
            && (l'.conlist == l.conlist || l'.conlist == Nobody || l'.conlist != l.inq)
  {
    hide FetchDo, DrainDo, LocksOk, ConsumerEnabled, HoldsNoneFromC;
    if Draining(s.consumer) {
      DrainFrame(cfg, s, now);
      DrainTakesInOrder(cfg, s, now);
    } else {
      FetchFrame(s);
      FetchTakesInOrder(s);
    }
  }

  lemma MainTakesInOrder(s: System)
    requires LocksOk(s) && MainEnabled(s)
    ensures var l, l' := s.locks, MainDo(s).locks;
            && (l'.pb == l.pb || l'.pb == Nobody || HoldsNoneFromC(l, l'.pb))
            && (l'.c == l.c || l'.c == Nobody || HoldsNoneFromC(l, l'.c))
  {
  }

  lemma MaintTakesConlist(cfg: Config, s: System)
    ensures var l := MaintDo(cfg, s).locks.conlist; l == Nobody || l == s.locks.conlist || l == Maint
  {
    hide Show;
  }

  lemma UiTakesConlist(cfg: Config, s: System)
    ensures var l := UiDo(cfg, s).locks.conlist; l == Nobody || l == s.locks.conlist || l == Ui
  {
  }

  /** Every thread takes its locks in one order: the sniffer's, then the destination's, then the queue's or the table's. */
  lemma LocksAreTakenInOrder(cfg: Config, s: System, a: Action)
    requires LocksOk(s) && Enabled(s, a)
    ensures var l, l' := s.locks, Do(cfg, s, a).locks;
            && (l'.pb == l.pb || l'.pb == Nobody || HoldsNoneFromC(l, l'.pb))
            && (l'.c == l.c || l'.c == Nobody || HoldsNoneFromC(l, l'.c))
            && (l'.inq == l.inq || l'.inq == Nobody || l'.inq != l.conlist)
            && (l'.conlist == l.conlist || l'.conlist == Nobody || l'.conlist != l.inq)
  {
    match a
    case SnifferStep =>
      hide SnifferDo, SnifferEnabled, HoldsNoneFromC, LocksOk;
      SnifferFrame(s);
      SnifferTakesInOrder(s);
    case ConsumerStep(now) =>
      hide ConsumerDo, ConsumerEnabled, HoldsNoneFromC, LocksOk;
      ConsumerFrame(cfg, s, now);
      ConsumerTakesInOrder(cfg, s, now);
    case MainStep =>
      hide MainDo, MainEnabled, HoldsNoneFromC, LocksOk;
      MainFrame(s);
      MainTakesInOrder(s);
    case MaintStep =>
      hide MaintDo, MaintEnabled, HoldsNoneFromC;
      MaintFrame(cfg, s);
      assert MaintDo(cfg, s).locks.conlist == Nobody || MaintDo(cfg, s).locks.conlist == s.locks.conlist
             || MaintDo(cfg, s).locks.conlist == Maint by { MaintTakesConlist(cfg, s); }
    case UiStep =>
      hide UiDo, UiEnabled, HoldsNoneFromC;
      UiFrame(cfg, s);
      assert UiDo(cfg, s).locks.conlist == Nobody || UiDo(cfg, s).locks.conlist == s.locks.conlist
             || UiDo(cfg, s).locks.conlist == Ui by { UiTakesConlist(cfg, s); }
    case _ =>
      hide HoldsNoneFromC, LocksOk;
  }

  // ---------------------------------------------------------------- progress

  function SnifferRank(pc: SnifferPc): nat {
    match pc
    case SnIdle => 0
    case SnUnlockPb => 1
    case SnUnlockC => 2
    case SnUnlockInq => 3
    case SnSignal => 11
    case SnPush(_) => 26
    case SnLockInq(_) => 27
    case SnCheckC(_) => 28
    case SnLockC(_) => 29
    case SnCheckPb(_) => 30
    case SnLockPb(_) => 31
  }

  function ConsumerRank(pc: ConsumerPc, signalled: bool): int {
    match pc
    case CWaiting => if signalled then 7 else 0
    case CRelock => 6
    case CSwap => 5
    case CUnlockInq => 4
    case CTestOutq => 3
    case CLockInq => 2
    case CTestInq => 1
    case CLockC(_) => 2
    case CCheckC(_) => 1
    case CLockCon(_) => 0
    case CProcess(_) => -1
    case CUnlockCon => -2
    case CUnlockC => -3
    case CPop => -4
  }

  function MainRank(pc: MainPc): nat {
    match pc
    case MIdle => 0
    case MUnlock(_) => 1
    case MSet(_) => 2
    case MLock(_) => 3
  }

  function MaintRank(pc: MaintPc): nat {
    match pc
    case TIdle => 0
    case TUnlock => 1
    case TRun(_) => 2
    case TLock(_) => 3
  }

  function UiRank(pc: UiPc): nat {
    match pc
    case UIdle => 0
    case UUnlock => 1
    case UDraw(_) => 2
    case ULock(_) => 3
  }

  /** An upper bound on the steps the threads can take without help from outside. */
  function Rank(s: System): int {
    SnifferRank(s.sniffer) + ConsumerRank(s.consumer, s.signalled) + MainRank(s.main) + MaintRank(s.maint) + UiRank(s.ui)
    + 9 * |s.buf.Out()| + (if s.consumer.CSwap? then 9 else 14) * |s.buf.In()|
  }

  lemma PushProgress(s: System)
    requires InqOk(s) && QueuesOk(s) && s.sniffer.SnPush?
    ensures Rank(SnifferDo(s)) < Rank(s)
  {
    hide Buffers.Put, Buffers.In, Buffers.Out;
    PutFrame(s.buf, s.buf.In() + [s.sniffer.n]);
  }

  /** On the way to the push. */
  lemma EnteringProgress(s: System)
    requires SnifferEnabled(s)
    requires s.sniffer.SnLockPb? || s.sniffer.SnCheckPb? || s.sniffer.SnLockC? || s.sniffer.SnCheckC? || s.sniffer.SnLockInq?
    ensures Rank(SnifferDo(s)) < Rank(s)
  {
    hide Admit, Buffers.In, Buffers.Out;
  }

  /** On the way out; the signal may make the consumer's rank grow. */
  lemma LeavingProgress(s: System)
    requires s.sniffer.SnSignal? || s.sniffer.SnUnlockInq? || s.sniffer.SnUnlockC? || s.sniffer.SnUnlockPb?
    ensures Rank(SnifferDo(s)) < Rank(s)
  {
    hide Buffers.In, Buffers.Out;
  }

  lemma SnifferProgress(s: System)
    requires InqOk(s) && QueuesOk(s) && SnifferEnabled(s)
    ensures Rank(SnifferDo(s)) < Rank(s)
  {
    hide SnifferDo, Rank, InqOk, QueuesOk;
    if s.sniffer.SnPush? {
      PushProgress(s);
    } else if s.sniffer.SnSignal? || s.sniffer.SnUnlockInq? || s.sniffer.SnUnlockC? || s.sniffer.SnUnlockPb? {
      LeavingProgress(s);
    } else {
      EnteringProgress(s);
    }
  }

  lemma FetchProgress(s: System)
    requires QueuesOk(s) && !Draining(s.consumer) && ConsumerEnabled(s)
    ensures Rank(FetchDo(s)) < Rank(s)
  {
    hide Buffers.Put, Buffers.In, Buffers.Out, Buffers.Swapped;
    if s.consumer.CSwap? {
      SwapExchanges(s.buf);
    }
  }

  lemma DrainProgress(cfg: Config, s: System, now: int)
    requires QueuesOk(s) && Draining(s.consumer) && ConsumerEnabled(s)
    ensures Rank(DrainDo(cfg, s, now)) < Rank(s)
  {
    hide Delivery, Buffers.Put, Buffers.In, Buffers.Out;
    if s.consumer.CPop? {
      PutFrame(s.buf, s.buf.Out()[1..]);
    }
  }

  lemma MainProgress(s: System)
    requires MainEnabled(s)
    ensures Rank(MainDo(s)) < Rank(s)
  {
    MainFrame(s);
    hide Buffers.In, Buffers.Out;
  }

  lemma MaintProgress(cfg: Config, s: System)
    requires MaintEnabled(s)
    ensures Rank(MaintDo(cfg, s)) < Rank(s)
  {
    hide Show, Buffers.In, Buffers.Out;
    MaintFrame(cfg, s);
  }

  lemma UiProgress(cfg: Config, s: System)
    requires UiEnabled(s)
    ensures Rank(UiDo(cfg, s)) < Rank(s)
  {
    hide Buffers.In, Buffers.Out;
    UiFrame(cfg, s);
  }

  /** Every step a thread takes on its own brings the system closer to rest. */
  lemma InternalProgress(cfg: Config, s: System, a: Action)
    requires Inv(cfg, s) && Enabled(s, a) && Internal(a)
    ensures 0 <= Rank(Do(cfg, s, a)) < Rank(s)
  {
    InvStep(cfg, s, a);
    RankIsNatural(cfg, Do(cfg, s, a));
    hide Rank, Inv, SnifferDo, FetchDo, DrainDo, MainDo, MaintDo, UiDo, SnifferEnabled, ConsumerEnabled;
    hide MainEnabled, MaintEnabled, UiEnabled;
    assert InqOk(s) && QueuesOk(s) by { InvGives(cfg, s); }
    match a
    case SnifferStep => SnifferProgress(s);
    case ConsumerStep(now) =>
      if Draining(s.consumer) {
        DrainProgress(cfg, s, now);
      } else {
        FetchProgress(s);
      }
    case MainStep => MainProgress(s);
    case MaintStep => MaintProgress(cfg, s);
    case UiStep => UiProgress(cfg, s);
  }

  lemma InvGives(cfg: Config, s: System)
    requires Inv(cfg, s)
    ensures InqOk(s) && QueuesOk(s)
  {
  }

  lemma RankIsNatural(cfg: Config, s: System)
    requires Inv(cfg, s)
    ensures Rank(s) >= 0
  {
    hide Buffers.In, Buffers.Out, BuffersOk, Conserved, Serial, DestOk, LocksOk;
  }

  /** A run of nothing but steps the threads take by themselves. */
  predicate InternalRun(cfg: Config, s: System, acts: seq<Action>) {
    acts == [] ||
    (InternalRun(cfg, s, acts[..|acts| - 1]) && Internal(acts[|acts| - 1])
     && Enabled(Execute(cfg, s, acts[..|acts| - 1]), acts[|acts| - 1]))
  }

  lemma {:induction false} InternalRunDescends(cfg: Config, s: System, acts: seq<Action>)
    requires Inv(cfg, s) && InternalRun(cfg, s, acts)
    ensures var t := Execute(cfg, s, acts);
            Inv(cfg, t) && 0 <= Rank(t) && |acts| + Rank(t) <= Rank(s)
  {
    hide Rank, Do, Enabled;
    if acts != [] {
      var before, a := acts[..|acts| - 1], acts[|acts| - 1];
      InternalRunDescends(cfg, s, before);
      InvStep(cfg, Execute(cfg, s, before), a);
      InternalProgress(cfg, Execute(cfg, s, before), a);
    }
    RankIsNatural(cfg, Execute(cfg, s, acts));
  }

  /** Left alone, the threads come to rest: after any interleaving, every run of internal steps ends within Rank steps,
      and where it can go no further all queued packets have been handled, in order. */
  lemma LeftAloneItDrains(cfg: Config, acts: seq<Action>, more: seq<Action>)
    requires Runs(cfg, START, acts) && InternalRun(cfg, Execute(cfg, START, acts), more)
    ensures var s := Execute(cfg, START, acts);
            var t := Execute(cfg, s, more);
            && |more| <= Rank(s)
            && (!CanGoOn(t) ==>
                Quiescent(t) && Nlps(t.ledger.handled) == Through(t.ledger.pushed) && Nlps(t.ledger.pushed) == t.ledger.admitted)
  {
    hide Rank, Inv, CanGoOn, Runs, Execute, InternalRun, Nlps, Through;
    var s := Execute(cfg, START, acts);
    AlwaysInv(cfg, acts);
    InternalRunDescends(cfg, s, more);
    if !CanGoOn(Execute(cfg, s, more)) {
      RestIsDone(cfg, Execute(cfg, s, more));
    }
  }

  lemma RestIsDone(cfg: Config, t: System)
    requires Inv(cfg, t) && !CanGoOn(t)
    ensures Quiescent(t) && Nlps(t.ledger.handled) == Through(t.ledger.pushed) && Nlps(t.ledger.pushed) == t.ledger.admitted
  {
    hide Buffers.In, Buffers.Out, Nlps, Serial, BuffersOk, LocksOk, DestOk;
    NoDeadlock(cfg, t);
  }

  // ---------------------------------------------------------------- discards

  /** Whether main is about to take the destination away. */
  predicate Clearing(pc: MainPc) {
    !pc.MIdle? && pc.call == BufferDest(false)
  }

  lemma FrameOfHandled(cfg: Config, s: System, now: int)
    ensures var t := ConsumerDo(cfg, s, now);
            t.ledger.handled == s.ledger.handled ||
            (s.consumer.CCheckC? && !s.destSet && t.ledger.handled == s.ledger.handled + [Fate(s.consumer.n, false)]) ||
            (s.consumer.CProcess? && t.ledger.handled == s.ledger.handled + [Fate(s.consumer.n, true)])
  {
    hide FetchDo, Delivery, Buffers.Put, Buffers.Out;
    if !Draining(s.consumer) {
      FetchFrame(s);
    }
  }

  /** A packet is dropped at the push, or discarded unseen, exactly when that step finds no destination. */
  lemma DiscardedOnlyWithoutDest(cfg: Config, s: System, a: Action)
    requires Inv(cfg, s) && Enabled(s, a)
    ensures var t := Do(cfg, s, a);
            && (t.ledger.pushed == s.ledger.pushed ||
                exists n :: t.ledger.pushed == s.ledger.pushed + [Fate(n, s.destSet)])
            && (t.ledger.handled == s.ledger.handled ||
                exists n :: t.ledger.handled == s.ledger.handled + [Fate(n, s.destSet)])
  {
    hide ConsumerDo, MainDo, MaintDo, UiDo, Admit, Buffers.Put, Buffers.In, LocksOk, QueuesOk, BuffersOk;
    hide Serial, Conserved;
    match a
    case SnifferStep =>
      SnifferFrame(s);
      if s.sniffer.SnCheckC? || s.sniffer.SnPush? {
        assert Do(cfg, s, a).ledger.pushed == s.ledger.pushed ||
               Do(cfg, s, a).ledger.pushed == s.ledger.pushed + [Fate(s.sniffer.n, s.destSet)];
      }
    case ConsumerStep(now) =>
      ConsumerFrame(cfg, s, now);
      FrameOfHandled(cfg, s, now);
      if s.consumer.CCheckC? || s.consumer.CProcess? {
        assert Do(cfg, s, a).ledger.handled == s.ledger.handled ||
               Do(cfg, s, a).ledger.handled == s.ledger.handled + [Fate(s.consumer.n, s.destSet)];
      }
    case MainStep => MainFrame(s);
    case MaintStep => MaintFrame(cfg, s);
    case UiStep => UiFrame(cfg, s);
    case _ =>
  }

  lemma DestStaysSet(cfg: Config, s: System, a: Action)
    requires Enabled(s, a) && s.destSet && !Clearing(s.main) && a != MainCalls(BufferDest(false))
    ensures Do(cfg, s, a).destSet && !Clearing(Do(cfg, s, a).main)
  {
    hide SnifferDo, ConsumerDo, MaintDo, UiDo, SnifferEnabled, ConsumerEnabled, MaintEnabled, UiEnabled;
    match a
    case SnifferStep => SnifferFrame(s);
    case ConsumerStep(now) => ConsumerFrame(cfg, s, now);
    case MaintStep => MaintFrame(cfg, s);
    case UiStep => UiFrame(cfg, s);
    case _ =>
  }

  /** As long as nobody takes the destination away everything pushed is queued, and everything handled is delivered. */
  lemma {:induction false} NothingDiscardedWhileSet(cfg: Config, s: System, acts: seq<Action>)
    requires Inv(cfg, s) && s.destSet && !Clearing(s.main)
    requires Runs(cfg, s, acts) && forall i :: 0 <= i < |acts| ==> acts[i] != MainCalls(BufferDest(false))
    ensures var t := Execute(cfg, s, acts);
            && Inv(cfg, t) && t.destSet && !Clearing(t.main) 
            && s.ledger.pushed <= t.ledger.pushed && s.ledger.handled <= t.ledger.handled
            && (forall i :: |s.ledger.pushed| <= i < |t.ledger.pushed| ==> t.ledger.pushed[i].through)
            && forall i :: |s.ledger.handled| <= i < |t.ledger.handled| ==> t.ledger.handled[i].through
  {
    hide Inv, Do, Enabled, Clearing;
    if acts != [] {
      var before, a := acts[..|acts| - 1], acts[|acts| - 1];
      NothingDiscardedWhileSet(cfg, s, before);
      var t := Execute(cfg, s, before);
      InvStep(cfg, t, a);
      DestStaysSet(cfg, t, a);
      DiscardedOnlyWithoutDest(cfg, t, a);
      if Do(cfg, t, a).ledger.handled != t.ledger.handled {
        var n :| Do(cfg, t, a).ledger.handled == t.ledger.handled + [Fate(n, true)];
      }
      if Do(cfg, t, a).ledger.pushed != t.ledger.pushed {
        var n :| Do(cfg, t, a).ledger.pushed == t.ledger.pushed + [Fate(n, true)];
      }
    }
  }

  // ---------------------------------------------------------------- end to end

  lemma {:induction false} ThroughIsChecked(h: seq<Fate>)
    requires AllHandledChecked(h)
    ensures AllChecked(Through(h))
  {
    hide Checked;
    if h != [] {
      ThroughIsChecked(h[..|h| - 1]);
    }
  }

  lemma {:induction false} CapturesAreSound(ns: seq<Nlp>)
    requires AllChecked(ns)
    ensures |CapturesOf(ns)| == |ns|
    ensures forall i :: 0 <= i < |ns| ==> Gate.Sound(CapturesOf(ns)[i].packet) && CapturesOf(ns)[i].seconds == ns[i].seconds
  {
    hide Gate.NewTCPPacket, Gate.Sound, Gate.CheckNlp;
    if ns != [] {
      CapturesAreSound(ns[..|ns| - 1]);
      Gate.GateIsExact(ns[|ns| - 1].bytes);
    }
  }

  /** In every interleaving each listed connection was opened by a packet of its pair and is the sequential run of the
      events since, and every packet the tracker ever saw satisfies the assertions of the headers and the hash. */
  lemma EveryInterleavingTracksRuns(cfg: Config, acts: seq<Action>, k: Key) returns (p: Packet, now: int, n: nat)
    requires Runs(cfg, START, acts) && k in Execute(cfg, START, acts).sink.tracker.table
    ensures var sink := Execute(cfg, START, acts).sink;
            && TrackerTheorems.RunsSince(sink.tracker.table[k], sink.log, k, p, now, n)
            && forall i :: 0 <= i < |LoggedCaptures(sink.log)| ==> Gate.Sound(LoggedCaptures(sink.log)[i].packet)
  {
    hide Runs, Execute, TrackAll, LoggedCaptures, CapturesOf, Gate.Sound, TrackerTheorems.RunsSince;
    AlwaysInv(cfg, acts);
    var s := Execute(cfg, START, acts);
    ThroughIsChecked(s.ledger.handled);
    CapturesAreSound(Through(s.ledger.handled));
    p, now, n := TrackerTheorems.EntriesAreRuns(cfg, s.sink.log, k);
  }

  lemma {:induction false} LoggedAreHashable(log: seq<TrackEvent>)
    requires forall i :: 0 <= i < |LoggedCaptures(log)| ==> Gate.Sound(LoggedCaptures(log)[i].packet)
    ensures HashedTracker.AllHashable(log)
  {
    if log != [] {
      var before, e := log[..|log| - 1], log[|log| - 1];
      var seen := LoggedCaptures(log);
      assert forall i :: 0 <= i < |LoggedCaptures(before)| ==> LoggedCaptures(before)[i] == seen[i];
      LoggedAreHashable(before);
      if e.Deliver? {
        assert seen[|seen| - 1] == e.cap;
      }
      assert forall i :: 0 <= i < |before| ==> log[i] == before[i];
    }
  }

  /** In every interleaving the hash tables, run on the logged events from n empty buckets, meet the assertions of the hash
      and answer as the tracker's maps do. */
  lemma EveryInterleavingSuitsBuckets(cfg: Config, acts: seq<Action>, n: nat)
    requires Runs(cfg, START, acts) && n > 0
    ensures var sink := Execute(cfg, START, acts).sink;
            && HashedTracker.AllHashable(sink.log)
            && HashedTracker.Refines(HashedTracker.HashedAll(cfg, n, sink.log), sink.tracker)
  {
    hide Runs, Execute, TrackAll, LoggedCaptures, CapturesOf, Gate.Sound, HashedTracker.Refines, HashedTracker.AllHashable;
    AlwaysInv(cfg, acts);
    var s := Execute(cfg, START, acts);
    ThroughIsChecked(s.ledger.handled);
    CapturesAreSound(Through(s.ledger.handled));
    LoggedAreHashable(s.sink.log);
  }
}
