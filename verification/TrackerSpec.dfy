/** The table of tracked connections as a value, and what packets and maintenance ticks do to it. */
module TrackerSpec {
  import opened Words
  import opened Packets
  import opened ConnectionSpec
  import opened GuesserSpec

  type Key = set<Endpoint>
  type Table = map<Key, Conn>

  datatype Tracker = Tracker(table: Table, strays: Strays)

  /** detect: guess at connections already running; remto: seconds a finished connection stays listed. */
  datatype Config = Config(detect: bool, remto: int)

  datatype TrackEvent =
    | Deliver(cap: Capture, now: int)
    | Maintenance(purgeUs: U64, stampUs: U64, seconds: int, purge: bool)
    | Display(shown: set<Key>, refreshUs: U32, spill: I32)

  /** Insertion into the hash table leaves an occupied key alone. */
  function InsertAbsent(table: Table, k: Key, c: Conn): Table {
    if k in table then table else table[k := c]
  }

  /** What becomes of a packet no connection took: a new connection, or food for the guesser. */
  function Unclaimed(t: Tracker, cap: Capture, now: int, detect: bool): (Tracker, bool) {
    var p := cap.packet;
    if p.Syn() && !p.Ack() then
      (t.(table := InsertAbsent(t.table, p.Pair(), Open(p, now))), true)
    else if detect then
      var (strays, opener) := Guess(t.strays, cap);
      (Tracker(if opener.Some? then InsertAbsent(t.table, p.Pair(), Open(opener.value, now)) else t.table, strays), false)
    else
      (t, false)
  }

  /** A packet is looked up under its pair. */
  function Process(t: Tracker, cap: Capture, now: int, detect: bool): (Tracker, bool) {
    var p := cap.packet;
    if p.Pair() in t.table && Accepts(t.table[p.Pair()], p) then
      (t.(table := t.table[p.Pair() := Accept(t.table[p.Pair()], p, now)]), true)
    else
      Unclaimed(t, cap, now, detect)
  }

  /** The naive tracker: every connection is offered the packet. */
  ghost function Broadcast(t: Tracker, cap: Capture, now: int, detect: bool): (Tracker, bool) {
    var offered := t.(table := map k | k in t.table :: Accept(t.table[k], cap.packet, now));
    if exists k :: k in t.table && Accepts(t.table[k], cap.packet) then (offered, true)
    else Unclaimed(offered, cap, now, detect)
  }

  function Refreshed(c: Conn, e: TrackEvent): Conn
    requires e.Maintenance?
  {
    Step(c, Tick(e.purgeUs, e.stampUs))
  }

  function Maintain(table: Table, e: TrackEvent, remto: int): Table
    requires e.Maintenance?
  {
    map k | k in table && !(e.purge && Expired(Refreshed(table[k], e), e.seconds, remto)) :: Refreshed(table[k], e)
  }

  /** A redraw recalculates the rates of the connections it shows. */
  function Redrawn(table: Table, shown: set<Key>, refreshUs: U32, spill: I32): Table {
    map k | k in table :: if k in shown then Step(table[k], Redraw(refreshUs, spill)) else table[k]
  }

  function Track(cfg: Config, t: Tracker, e: TrackEvent): Tracker {
    match e
    case Deliver(cap, now) => Process(t, cap, now, cfg.detect).0
    case Maintenance(_, _, _, _) => t.(table := Maintain(t.table, e, cfg.remto))
    case Display(shown, refreshUs, spill) => t.(table := Redrawn(t.table, shown, refreshUs, spill))
  }

  function TrackAll(cfg: Config, t: Tracker, es: seq<TrackEvent>): Tracker {
    if es == [] then t else Track(cfg, TrackAll(cfg, t, es[..|es| - 1]), es[|es| - 1])
  }

  const EMPTY := Tracker(map[], map[])
}
