/** The double-buffered queue between the capture thread and the consumer, with every thread that shares its locks,
    as a step relation: one step per lock operation or guarded statement. */
module PacketBufferSpec {
  import opened Words
  import opened Packets
  import opened TrackerSpec
  import Gate

  /** The threads that take locks; a free lock is held by Nobody. */
  datatype Thread = Nobody | Sniffer | Consumer | Main | Maint | Ui

  /** A captured frame, and the network-layer buffer made from it. */
  datatype Frame = Frame(bytes: Gate.Bytes, dlt: Gate.LinkType, seconds: int)
  datatype Nlp = Nlp(bytes: Gate.Bytes, seconds: int)

  /** What getnlp and checknlp make of a frame. */
  function Admit(f: Frame): Option<Nlp> {
    var n := Gate.NetworkBytes(f.bytes, f.dlt);
    if n.Some? && Gate.CheckNlp(n.value) then Some(Nlp(n.value, f.seconds)) else None
  }

  datatype SnifferPc =
    | SnIdle | SnLockPb(f: Frame) | SnCheckPb(f: Frame) | SnLockC(n: Nlp) | SnCheckC(n: Nlp) | SnLockInq(n: Nlp)
    | SnPush(n: Nlp) | SnSignal | SnUnlockInq | SnUnlockC | SnUnlockPb

  datatype ConsumerPc =
    | CLockInq | CTestInq | CWaiting | CRelock | CSwap | CUnlockInq | CTestOutq
    | CLockC(n: Nlp) | CCheckC(n: Nlp) | CLockCon(n: Nlp) | CProcess(n: Nlp) | CUnlockCon | CUnlockC | CPop

  datatype DestCall = SnifferDest(on: bool) | BufferDest(on: bool)
  datatype MainPc = MIdle | MLock(call: DestCall) | MSet(call: DestCall) | MUnlock(call: DestCall)
  datatype MaintPc = TIdle | TLock(e: TrackEvent) | TRun(e: TrackEvent) | TUnlock
  datatype UiPc = UIdle | ULock(e: TrackEvent) | UDraw(e: TrackEvent) | UUnlock

  datatype QueueId = Q1 | Q2

  /** What became of a packet at a point where it is let through or dropped. */
  datatype Fate = Fate(n: Nlp, through: bool)

  datatype Locks = Locks(pb: Thread, c: Thread, inq: Thread, conlist: Thread)

  datatype Buffers = Buffers(pq1: seq<Nlp>, pq2: seq<Nlp>, inq: QueueId, outq: QueueId) {
    function Queue(q: QueueId): seq<Nlp> { if q == Q1 then pq1 else pq2 }
    function In(): seq<Nlp> { Queue(inq) }
    function Out(): seq<Nlp> { Queue(outq) }
    function Put(q: QueueId, s: seq<Nlp>): Buffers { if q == Q1 then this.(pq1 := s) else this.(pq2 := s) }
    function Swapped(): Buffers { if inq == Q1 then this.(inq := Q2, outq := Q1) else this.(inq := Q1, outq := Q2) }
  }

  /** The shared table, and what it was shown in the order of its lock. */
  datatype Sink = Sink(tracker: Tracker, log: seq<TrackEvent>, aborted: bool)

  /** The packets that passed the gate, what pushPacket did with them, and what the consumer did with the queued ones. */
  datatype Ledger = Ledger(admitted: seq<Nlp>, pushed: seq<Fate>, handled: seq<Fate>)

  datatype System = System(
    locks: Locks, pbSet: bool, destSet: bool, buf: Buffers, signalled: bool,
    sniffer: SnifferPc, consumer: ConsumerPc, main: MainPc, maint: MaintPc, ui: UiPc,
    sink: Sink, ledger: Ledger)

  const START := System(Locks(Nobody, Nobody, Nobody, Nobody), false, false, Buffers([], [], Q1, Q2), false,
                        SnIdle, CLockInq, MIdle, TIdle, UIdle,
                        Sink(EMPTY, [], false), Ledger([], [], []))

  datatype Action =
    // what the outside world does
    | FrameArrives(f: Frame) | SpuriousWakeup | MainCalls(call: DestCall) | TickDue(e: TrackEvent) | RedrawDue(e: TrackEvent)
    // what the threads do next
    | SnifferStep | ConsumerStep(now: int) | MainStep | MaintStep | UiStep

  predicate Internal(a: Action) {
    a.SnifferStep? || a.ConsumerStep? || a.MainStep? || a.MaintStep? || a.UiStep?
  }

  predicate SnifferEnabled(s: System) {
    match s.sniffer
    case SnIdle => false
    case SnLockPb(_) => s.locks.pb == Nobody
    case SnLockC(_) => s.locks.c == Nobody
    case SnLockInq(_) => s.locks.inq == Nobody
    case _ => true
  }

  function SnifferDo(s: System): System {
    match s.sniffer
    case SnIdle => s
    case SnLockPb(f) => s.(locks := s.locks.(pb := Sniffer), sniffer := SnCheckPb(f))
    case SnCheckPb(f) =>
      if s.pbSet && Admit(f).Some? then
        s.(sniffer := SnLockC(Admit(f).value), ledger := s.ledger.(admitted := s.ledger.admitted + [Admit(f).value]))
      else s.(sniffer := SnUnlockPb)
    case SnLockC(n) => s.(locks := s.locks.(c := Sniffer), sniffer := SnCheckC(n))
    case SnCheckC(n) =>
      if s.destSet then s.(sniffer := SnLockInq(n))
      else s.(sniffer := SnUnlockC, ledger := s.ledger.(pushed := s.ledger.pushed + [Fate(n, false)]))
    case SnLockInq(n) => s.(locks := s.locks.(inq := Sniffer), sniffer := SnPush(n))
    case SnPush(n) => s.(buf := s.buf.Put(s.buf.inq, s.buf.In() + [n]), sniffer := SnSignal,
                          ledger := s.ledger.(pushed := s.ledger.pushed + [Fate(n, true)]))
    case SnSignal => s.(sniffer := SnUnlockInq, signalled := s.signalled || s.consumer == CWaiting)
    case SnUnlockInq => s.(locks := s.locks.(inq := Nobody), sniffer := SnUnlockC)
    case SnUnlockC => s.(locks := s.locks.(c := Nobody), sniffer := SnUnlockPb)
    case SnUnlockPb => s.(locks := s.locks.(pb := Nobody), sniffer := SnIdle)
  }

  predicate ConsumerEnabled(s: System) {
    match s.consumer
    case CLockInq => s.locks.inq == Nobody
    case CWaiting => s.signalled
    case CRelock => s.locks.inq == Nobody
    case CTestOutq => true
    case CLockC(_) => s.locks.c == Nobody
    case CLockCon(_) => s.locks.conlist == Nobody
    case _ => true
  }

  /** Delivery: the parser's assertions, then one packet for the tracker. */
  function Delivery(cfg: Config, k: Sink, n: Nlp, now: int): Sink {
    match Gate.NewTCPPacket(n.bytes)
    case Parsed(p) => Show(cfg, k, Deliver(Capture(p, n.seconds), now))
    case _ => k.(aborted := true)
  }

  function Show(cfg: Config, k: Sink, e: TrackEvent): Sink {
    k.(tracker := Track(cfg, k.tracker, e), log := k.log + [e])
  }

  /** The consumer is busy with the front of its queue. */
  predicate Draining(pc: ConsumerPc) {
    pc.CLockC? || pc.CCheckC? || pc.CLockCon? || pc.CProcess? || pc.CUnlockCon? || pc.CUnlockC? || pc.CPop?
  }

  /** Waiting for packets, swapping the queues, and testing the output queue. */
  function FetchDo(s: System): System {
    match s.consumer
    case CLockInq => s.(locks := s.locks.(inq := Consumer), consumer := CTestInq)
    case CTestInq =>
      if s.buf.In() == [] then s.(locks := s.locks.(inq := Nobody), consumer := CWaiting, signalled := false)
      else s.(consumer := CSwap)
    case CWaiting => s.(consumer := CRelock, signalled := false)
    case CRelock => s.(locks := s.locks.(inq := Consumer), consumer := CSwap)
    case CSwap => s.(buf := s.buf.Swapped(), consumer := CUnlockInq)
    case CUnlockInq => s.(locks := s.locks.(inq := Nobody), consumer := CTestOutq)
    case CTestOutq => if s.buf.Out() == [] then s.(consumer := CLockInq) else s.(consumer := CLockC(s.buf.Out()[0]))
    case _ => s
  }

  /** Handling the packet at the front of the output queue. */
  function DrainDo(cfg: Config, s: System, now: int): System {
    match s.consumer
    case CLockC(n) => s.(locks := s.locks.(c := Consumer), consumer := CCheckC(n))
    case CCheckC(n) =>
      if s.destSet then s.(consumer := CLockCon(n))
      else s.(consumer := CUnlockC, ledger := s.ledger.(handled := s.ledger.handled + [Fate(n, false)]))
    case CLockCon(n) => s.(locks := s.locks.(conlist := Consumer), consumer := CProcess(n))
    case CProcess(n) => s.(sink := Delivery(cfg, s.sink, n, now), consumer := CUnlockCon,
                           ledger := s.ledger.(handled := s.ledger.handled + [Fate(n, true)]))
    case CUnlockCon => s.(locks := s.locks.(conlist := Nobody), consumer := CUnlockC)
    case CUnlockC => s.(locks := s.locks.(c := Nobody), consumer := CPop)
    case CPop =>
      if s.buf.Out() == [] then s.(sink := s.sink.(aborted := true))
      else s.(buf := s.buf.Put(s.buf.outq, s.buf.Out()[1..]), consumer := CTestOutq)
    case _ => s
  }

  function ConsumerDo(cfg: Config, s: System, now: int): System {
    if Draining(s.consumer) then DrainDo(cfg, s, now) else FetchDo(s)
  }

  predicate MainEnabled(s: System) {
    match s.main
    case MIdle => false
    case MLock(call) => if call.SnifferDest? then s.locks.pb == Nobody else s.locks.c == Nobody
    case _ => true
  }

  function MainDo(s: System): System {
    match s.main
    case MIdle => s
    case MLock(call) =>
      if call.SnifferDest? then s.(locks := s.locks.(pb := Main), main := MSet(call))
      else s.(locks := s.locks.(c := Main), main := MSet(call))
    case MSet(call) =>
      if call.SnifferDest? then s.(pbSet := call.on, main := MUnlock(call)) else s.(destSet := call.on, main := MUnlock(call))
    case MUnlock(call) =>
      if call.SnifferDest? then s.(locks := s.locks.(pb := Nobody), main := MIdle)
      else s.(locks := s.locks.(c := Nobody), main := MIdle)
  }

  predicate MaintEnabled(s: System) {
    match s.maint
    case TIdle => false
    case TLock(_) => s.locks.conlist == Nobody
    case _ => true
  }

  function MaintDo(cfg: Config, s: System): System {
    match s.maint
    case TIdle => s
    case TLock(e) => s.(locks := s.locks.(conlist := Maint), maint := TRun(e))
    case TRun(e) => s.(sink := Show(cfg, s.sink, e), maint := TUnlock)
    case TUnlock => s.(locks := s.locks.(conlist := Nobody), maint := TIdle)
  }

  predicate UiEnabled(s: System) {
    match s.ui
    case UIdle => false
    case ULock(_) => s.locks.conlist == Nobody
    case _ => true
  }

  function UiDo(cfg: Config, s: System): System {
    match s.ui
    case UIdle => s
    case ULock(e) => s.(locks := s.locks.(conlist := Ui), ui := UDraw(e))
    case UDraw(e) => s.(sink := Show(cfg, s.sink, e), ui := UUnlock)
    case UUnlock => s.(locks := s.locks.(conlist := Nobody), ui := UIdle)
  }

  predicate Enabled(s: System, a: Action) {
    match a
    case FrameArrives(_) => s.sniffer == SnIdle
    case SpuriousWakeup => s.consumer == CWaiting && !s.signalled
    case MainCalls(_) => s.main == MIdle
    case TickDue(e) => s.maint == TIdle && e.Maintenance?
    case RedrawDue(e) => s.ui == UIdle && e.Display?
    case SnifferStep => SnifferEnabled(s)
    case ConsumerStep(_) => ConsumerEnabled(s)
    case MainStep => MainEnabled(s)
    case MaintStep => MaintEnabled(s)
    case UiStep => UiEnabled(s)
  }

  function Do(cfg: Config, s: System, a: Action): System {
    match a
    case FrameArrives(f) => s.(sniffer := SnLockPb(f))
    case SpuriousWakeup => s.(consumer := CRelock)
    case MainCalls(call) => s.(main := MLock(call))
    case TickDue(e) => s.(maint := TLock(e))
    case RedrawDue(e) => s.(ui := ULock(e))
    case SnifferStep => SnifferDo(s)
    case ConsumerStep(now) => ConsumerDo(cfg, s, now)
    case MainStep => MainDo(s)
    case MaintStep => MaintDo(cfg, s)
    case UiStep => UiDo(cfg, s)
  }

  /** The state after a sequence of actions. */
  function Execute(cfg: Config, s: System, acts: seq<Action>): System {
    if acts == [] then s else Do(cfg, Execute(cfg, s, acts[..|acts| - 1]), acts[|acts| - 1])
  }

  /** Every action is enabled where it is taken. */
  predicate Runs(cfg: Config, s: System, acts: seq<Action>) {
    acts == [] ||
    (Runs(cfg, s, acts[..|acts| - 1]) && Enabled(Execute(cfg, s, acts[..|acts| - 1]), acts[|acts| - 1]))
  }
}
