/** The tracker on the hash tables themselves: buckets of entries, found by hash and compared by socket pair equality.
    It refines the tracker of TrackerSpec.dfy, whose tables are maps over unordered pairs. */
module HashedTracker {
  import opened Words
  import opened Packets
  import opened ConnectionSpec
  import opened SocketPairs
  import opened GuesserSpec
  import opened TrackerSpec
  import TrackerTheorems

  datatype Hashed = Hashed(conns: Buckets<Conn>, strays: Buckets<Capture>)

  // ---------------------------------------------------------------- operations

  /** The loop over the range of equal keys: every entry whose key equals sp is offered the packet. */
  function OfferEqual(b: seq<Entry<Conn>>, sp: SocketPair, p: Packet, now: int): (r: seq<Entry<Conn>>)
    ensures |r| == |b| && forall i :: 0 <= i < |b| ==> r[i].key == b[i].key
  {
    if b == [] then [] else
      [if b[0].key.Equals(sp) then b[0].(value := Accept(b[0].value, p, now)) else b[0]] + OfferEqual(b[1..], sp, p, now)
  }

  predicate TakenByEqual(b: seq<Entry<Conn>>, sp: SocketPair, p: Packet) {
    b != [] && ((b[0].key.Equals(sp) && Accepts(b[0].value, p)) || TakenByEqual(b[1..], sp, p))
  }

  function HashedGuess(m: Buckets<Capture>, cap: Capture): (Buckets<Capture>, Option<Packet>)
    requires PairOf(cap.packet).Hashable()
    requires Lookup(m, PairOf(cap.packet)).Some? ==>
               PairOf(Lookup(m, PairOf(cap.packet)).value.packet).Equals(PairOf(cap.packet))
  {
    var p, sp := cap.packet, PairOf(cap.packet);
    if p.Syn() || p.Ece() then (m, None)
    else if p.Fin() || p.Rst() then (Erase(m, sp), None)
    else
      match Lookup(m, sp)
      case None => (Insert(m, sp, cap), None)
      case Some(ocp) =>
        var rest := Erase(m, sp);
        if LooksReversed(ocp.packet, p) && cap.seconds - ocp.seconds < MAX_AGE then
          (rest, Some(if p.tcp.srcPort > p.tcp.dstPort then p else ocp.packet))
        else
          (Insert(rest, PairOf(ocp.packet), cap), None)
  }

  function HashedUnclaimed(h: Hashed, cap: Capture, now: int, detect: bool): (Hashed, bool)
    requires PairOf(cap.packet).Hashable()
    requires HashedGuess.requires(h.strays, cap)
  {
    var p, sp := cap.packet, PairOf(cap.packet);
    if p.Syn() && !p.Ack() then
      (h.(conns := Insert(h.conns, sp, Open(p, now))), true)
    else if detect then
      var (strays, opener) := HashedGuess(h.strays, cap);
      (Hashed(if opener.Some? then Insert(h.conns, sp, Open(opener.value, now)) else h.conns, strays), false)
    else
      (h, false)
  }

  function HashedProcess(h: Hashed, cap: Capture, now: int, detect: bool): (Hashed, bool)
    requires PairOf(cap.packet).Hashable()
    requires HashedGuess.requires(h.strays, cap)
  {
    var p, sp := cap.packet, PairOf(cap.packet);
    var i := Slot(h.conns, sp);
    var offered := h.(conns := h.conns[i := OfferEqual(h.conns[i], sp, p, now)]);
    if TakenByEqual(h.conns[i], sp, p) then (offered, true) else HashedUnclaimed(offered, cap, now, detect)
  }

  function MaintainBucket(b: seq<Entry<Conn>>, e: TrackEvent, remto: int): seq<Entry<Conn>>
    requires e.Maintenance?
  {
    if b == [] then [] else
      var c := Refreshed(b[0].value, e);
      (if e.purge && Expired(c, e.seconds, remto) then [] else [b[0].(value := c)]) + MaintainBucket(b[1..], e, remto)
  }

  function RedrawBucket(b: seq<Entry<Conn>>, shown: set<Key>, refreshUs: U32, spill: I32): (r: seq<Entry<Conn>>)
    ensures |r| == |b| && forall i :: 0 <= i < |b| ==> r[i].key == b[i].key
  {
    if b == [] then [] else
      [if b[0].key.Ends() in shown then b[0].(value := Step(b[0].value, Redraw(refreshUs, spill))) else b[0]]
      + RedrawBucket(b[1..], shown, refreshUs, spill)
  }

  function HashedTrack(cfg: Config, h: Hashed, e: TrackEvent): Hashed
    requires e.Deliver? ==> PairOf(e.cap.packet).Hashable() && HashedGuess.requires(h.strays, e.cap)
  {
    match e
    case Deliver(cap, now) => HashedProcess(h, cap, now, cfg.detect).0
    case Maintenance(_, _, _, _) =>
      h.(conns := seq(|h.conns|, i requires 0 <= i < |h.conns| => MaintainBucket(h.conns[i], e, cfg.remto)))
    case Display(shown, refreshUs, spill) =>
      h.(conns := seq(|h.conns|, i requires 0 <= i < |h.conns| => RedrawBucket(h.conns[i], shown, refreshUs, spill)))
  }

  // ---------------------------------------------------------------- the invariant

  /** No two keys of a bucket are equal. */
  ghost predicate UniqueKeys(b: seq<Entry<Conn>>) {
    forall i, j :: 0 <= i < j < |b| ==> !b[i].key.Equals(b[j].key)
  }

  /** Every entry of bucket i of n hashes to that bucket. */
  ghost predicate Placed(b: seq<Entry<Conn>>, n: nat, i: nat)
    requires n > 0
  {
    forall j :: 0 <= j < |b| ==> b[j].key.Hashable() && b[j].key.Hash() % n == i
  }

  ghost predicate WellFormed(conns: Buckets<Conn>) {
    forall i :: 0 <= i < |conns| ==> UniqueKeys(conns[i]) && Placed(conns[i], |conns|, i)
  }

  ghost predicate Refines(h: Hashed, t: Tracker) {
    && Represents(h.conns, t.table) && Represents(h.strays, t.strays)
    && WellFormed(h.conns)
    && TrackerTheorems.Consistent(t)
  }

  // ---------------------------------------------------------------- one bucket

  lemma EqualsTransfers(x: SocketPair, y: SocketPair, z: SocketPair)
    requires x.Equals(y)
    ensures x.Equals(z) <==> y.Equals(z)
    ensures z.Equals(x) <==> z.Equals(y)
  {
    EqualsIffSameEnds(x, y);
    EqualsIffSameEnds(x, z);
    EqualsIffSameEnds(y, z);
    EqualsIffSameEnds(z, x);
    EqualsIffSameEnds(z, y);
  }

  lemma {:induction false} ScanOffered(b: seq<Entry<Conn>>, sp: SocketPair, p: Packet, now: int, q: SocketPair)
    ensures Scan(OfferEqual(b, sp, p, now), q) ==
              match Scan(b, q)
              case None => None
              case Some(c) => Some(if sp.Equals(q) then Accept(c, p, now) else c)
  {
    hide Accept, SocketPair.Equals;
    if b != [] {
      ScanOffered(b[1..], sp, p, now, q);
      assert OfferEqual(b, sp, p, now)[1..] == OfferEqual(b[1..], sp, p, now);
      if b[0].key.Equals(q) {
        EqualsTransfers(b[0].key, q, sp);
        EqualsSymmetric(sp, q);
      }
    }
  }

  lemma EqualsSymmetric(x: SocketPair, y: SocketPair)
    ensures x.Equals(y) <==> y.Equals(x)
  {
    EqualsIffSameEnds(x, y);
    EqualsIffSameEnds(y, x);
  }

  lemma {:induction false} AbsentIffNoneEqual(b: seq<Entry<Conn>>, sp: SocketPair)
    ensures Scan(b, sp) == None <==> forall i :: 0 <= i < |b| ==> !b[i].key.Equals(sp)
  {
    hide SocketPair.Equals;
    if b != [] {
      AbsentIffNoneEqual(b[1..], sp);
      assert forall i :: 0 <= i < |b[1..]| ==> b[1..][i] == b[i + 1];
      assert forall i :: 0 < i < |b| ==> b[i] == b[1..][i - 1];
    }
  }

  lemma {:induction false} AbsentIsNotTaken(b: seq<Entry<Conn>>, sp: SocketPair, p: Packet)
    requires Scan(b, sp) == None
    ensures !TakenByEqual(b, sp, p)
  {
    if b != [] {
      AbsentIsNotTaken(b[1..], sp, p);
    }
  }

  /** With unique keys the first equal entry is the only one. */
  lemma OnlyFirstIsEqual(b: seq<Entry<Conn>>, sp: SocketPair)
    requires b != [] && UniqueKeys(b) && b[0].key.Equals(sp)
    ensures Scan(b[1..], sp) == None
  {
    hide SocketPair.Equals;
    forall i | 0 <= i < |b[1..]| ensures !b[1..][i].key.Equals(sp) {
      assert b[1..][i] == b[i + 1] && !b[0].key.Equals(b[i + 1].key);
      EqualsTransfers(b[0].key, sp, b[i + 1].key);
      EqualsSymmetric(sp, b[i + 1].key);
    }
    AbsentIffNoneEqual(b[1..], sp);
  }

  lemma UniqueTail(b: seq<Entry<Conn>>)
    requires b != [] && UniqueKeys(b)
    ensures UniqueKeys(b[1..])
  {
    assert forall i :: 0 <= i < |b[1..]| ==> b[1..][i] == b[i + 1];
  }

  /** With unique keys, offering to every equal entry is offering to the one a lookup finds. */
  lemma {:induction false} TakenIffFound(b: seq<Entry<Conn>>, sp: SocketPair, p: Packet)
    requires UniqueKeys(b)
    ensures TakenByEqual(b, sp, p) <==> Scan(b, sp).Some? && Accepts(Scan(b, sp).value, p)
  {
    hide SocketPair.Equals, Accepts;
    if b != [] {
      UniqueTail(b);
      TakenIffFound(b[1..], sp, p);
      if b[0].key.Equals(sp) {
        OnlyFirstIsEqual(b, sp);
        AbsentIsNotTaken(b[1..], sp, p);
      }
    }
  }

  lemma {:induction false} ScanMaintained(b: seq<Entry<Conn>>, e: TrackEvent, remto: int, q: SocketPair)
    requires e.Maintenance? && UniqueKeys(b)
    ensures Scan(MaintainBucket(b, e, remto), q) ==
              match Scan(b, q)
              case None => None
              case Some(c) => var r := Refreshed(c, e); if e.purge && Expired(r, e.seconds, remto) then None else Some(r)
  {
    hide Refreshed, Expired, SocketPair.Equals;
    if b != [] {
      UniqueTail(b);
      ScanMaintained(b[1..], e, remto, q);
      var rest := MaintainBucket(b[1..], e, remto);
      if b[0].key.Equals(q) {
        OnlyFirstIsEqual(b, q);
      }
      var kept := MaintainBucket(b, e, remto);
      assert kept == rest || (kept[1..] == rest && kept[0].key == b[0].key);
    }
  }

  /** A purge leaves the keys it keeps as they were. */
  lemma {:induction false} KeptKeys(b: seq<Entry<Conn>>, e: TrackEvent, remto: int, j: nat) returns (i: nat)
    requires e.Maintenance? && j < |MaintainBucket(b, e, remto)|
    ensures i < |b| && b[i].key == MaintainBucket(b, e, remto)[j].key
  {
    hide Refreshed, Expired;
    var rest, kept := MaintainBucket(b[1..], e, remto), MaintainBucket(b, e, remto);
    if |kept| == |rest| {
      assert kept == rest;
      i := KeptKeys(b[1..], e, remto, j);
      i := i + 1;
    } else if j == 0 {
      i := 0;
    } else {
      assert kept[j] == rest[j - 1];
      i := KeptKeys(b[1..], e, remto, j - 1);
      i := i + 1;
    }
  }

  lemma {:induction false} MaintainKeepsBucket(b: seq<Entry<Conn>>, e: TrackEvent, remto: int, n: nat, i: nat)
    requires e.Maintenance? && n > 0 && UniqueKeys(b) && Placed(b, n, i)
    ensures UniqueKeys(MaintainBucket(b, e, remto)) && Placed(MaintainBucket(b, e, remto), n, i)
  {
    hide Refreshed, Expired, SocketPair.Equals, SocketPair.Hash, SocketPair.Hashable;
    if b != [] {
      UniqueTail(b);
      assert forall j :: 0 <= j < |b[1..]| ==> b[1..][j] == b[j + 1];
      MaintainKeepsBucket(b[1..], e, remto, n, i);
      var rest, kept := MaintainBucket(b[1..], e, remto), MaintainBucket(b, e, remto);
      if kept != rest {
        assert kept[1..] == rest && kept[0].key == b[0].key;
        forall j | 0 < j < |kept| ensures !kept[0].key.Equals(kept[j].key) {
          var l := KeptKeys(b[1..], e, remto, j - 1);
          assert kept[j] == rest[j - 1] && b[l + 1].key == kept[j].key;
        }
        UniqueCons(kept);
        assert kept[0].key.Hashable() && kept[0].key.Hash() % n == i;
        assert Placed(kept, n, i);
      } else {
        assert kept == rest;
      }
    }
  }

  lemma UniqueCons(b: seq<Entry<Conn>>)
    requires b != [] && UniqueKeys(b[1..]) && forall i :: 0 < i < |b| ==> !b[0].key.Equals(b[i].key)
    ensures UniqueKeys(b)
  {
    assert forall i :: 0 < i < |b| ==> b[i] == b[1..][i - 1];
  }

  lemma {:induction false} ScanRedrawn(b: seq<Entry<Conn>>, shown: set<Key>, refreshUs: U32, spill: I32, q: SocketPair)
    ensures Scan(RedrawBucket(b, shown, refreshUs, spill), q) ==
              match Scan(b, q)
              case None => None
              case Some(c) => Some(if q.Ends() in shown then Step(c, Redraw(refreshUs, spill)) else c)
  {
    hide Step, SocketPair.Equals;
    if b != [] {
      ScanRedrawn(b[1..], shown, refreshUs, spill, q);
      assert RedrawBucket(b, shown, refreshUs, spill)[1..] == RedrawBucket(b[1..], shown, refreshUs, spill);
      EqualsIffSameEnds(b[0].key, q);
    }
  }

  // ---------------------------------------------------------------- one event

  lemma OfferRefines(h: Hashed, t: Tracker, p: Packet, now: int)
    requires Refines(h, t) && PairOf(p).Hashable()
    ensures var sp := PairOf(p);
            var i := Slot(h.conns, sp);
            var conns := h.conns[i := OfferEqual(h.conns[i], sp, p, now)];
            && (TakenByEqual(h.conns[i], sp, p) <==> p.Pair() in t.table && Accepts(t.table[p.Pair()], p))
            && Represents(conns, if p.Pair() in t.table then t.table[p.Pair() := Accept(t.table[p.Pair()], p, now)] else t.table)
            && WellFormed(conns)
  {
    hide Accept, Accepts, SocketPair.Equals;
    var sp := PairOf(p);
    var i := Slot(h.conns, sp);
    var conns := h.conns[i := OfferEqual(h.conns[i], sp, p, now)];
    var table := if p.Pair() in t.table then t.table[p.Pair() := Accept(t.table[p.Pair()], p, now)] else t.table;
    assert Lookup(h.conns, sp) == Get(t.table, sp.Ends());
    TakenIffFound(h.conns[i], sp, p);
    forall q: SocketPair | q.Hashable() ensures Lookup(conns, q) == Get(table, q.Ends()) {
      assert Lookup(h.conns, q) == Get(t.table, q.Ends());
      EqualsIffSameEnds(sp, q);
      ScanOffered(h.conns[i], sp, p, now, q);
      if sp.Equals(q) {
        EqualPairsHashAlike(sp, q);
      }
    }
  }

  lemma InsertKeepsWellFormed(t: Buckets<Conn>, sp: SocketPair, c: Conn)
    requires sp.Hashable() && WellFormed(t)
    ensures WellFormed(Insert(t, sp, c))
  {
    hide SocketPair.Equals, SocketPair.Hash, SocketPair.Hashable;
    var i := Slot(t, sp);
    if Lookup(t, sp) == None {
      AbsentIffNoneEqual(t[i], sp);
      var b := [Entry(sp, c)] + t[i];
      assert forall j :: 0 < j < |b| ==> b[j] == t[i][j - 1];
      forall j | 0 < j < |b| ensures !b[0].key.Equals(b[j].key) {
        EqualsSymmetric(sp, b[j].key);
      }
      assert b[1..] == t[i];
      UniqueCons(b);
      assert Placed(b, |t|, i);
    }
  }

  /** A remembered stray is filed under a key equal to the one that finds it. */
  lemma StrayIsFiled(m: Buckets<Capture>, strays: Strays, cap: Capture)
    requires PairOf(cap.packet).Hashable() && Represents(m, strays) && Filed(strays)
    ensures HashedGuess.requires(m, cap)
  {
    var sp := PairOf(cap.packet);
    assert Lookup(m, sp) == Get(strays, sp.Ends());
    if Lookup(m, sp).Some? {
      EqualsIffSameEnds(PairOf(Lookup(m, sp).value.packet), sp);
    }
  }

  lemma LookupOf<V>(t: Buckets<V>, m: map<set<Endpoint>, V>, sp: SocketPair)
    requires sp.Hashable() && Represents(t, m)
    ensures Lookup(t, sp) == Get(m, sp.Ends())
  {
  }

  /** The key rebuilt from a remembered stray names the same unordered pair. */
  lemma StrayNamesThePair(m: Buckets<Capture>, strays: Strays, cap: Capture)
    requires PairOf(cap.packet).Hashable() && Represents(m, strays) && HashedGuess.requires(m, cap)
    requires Lookup(m, PairOf(cap.packet)).Some?
    ensures var k := cap.packet.Pair();
            && k in strays && strays[k] == Lookup(m, PairOf(cap.packet)).value
            && PairOf(strays[k].packet).Hashable() && PairOf(strays[k].packet).Ends() == k
  {
    hide Represents, Lookup, Slot;
    var sp := PairOf(cap.packet);
    LookupOf(m, strays, sp);
    var key := PairOf(Lookup(m, sp).value.packet);
    EqualsIffSameEnds(key, sp);
    EqualsSymmetric(key, sp);
    EqualPairsHashAlike(sp, key);
  }

  lemma GuessRefines(m: Buckets<Capture>, strays: Strays, cap: Capture)
    requires PairOf(cap.packet).Hashable() && Represents(m, strays) && HashedGuess.requires(m, cap)
    ensures Represents(HashedGuess(m, cap).0, Guess(strays, cap).0) && HashedGuess(m, cap).1 == Guess(strays, cap).1
  {
    hide Represents, Erase, Insert, Lookup, SocketPair.Equals, SocketPair.Ends, SocketPair.Hashable, Packet.Pair, PairOf,
         LooksReversed;
    var sp, k := PairOf(cap.packet), cap.packet.Pair();
    LookupOf(m, strays, sp);
    EraseRefinesMap(m, strays, sp);
    if Lookup(m, sp).None? {
      InsertRefinesMap(m, strays, sp, cap);
    } else {
      StrayNamesThePair(m, strays, cap);
      InsertRefinesMap(Erase(m, sp), strays - {k}, PairOf(strays[k].packet), cap);
      assert (strays - {k})[k := cap] == strays[k := cap];
    }
  }

  lemma OpeningRefines(conns: Buckets<Conn>, table: Table, sp: SocketPair, c: Conn)
    requires sp.Hashable() && Represents(conns, table) && WellFormed(conns)
    ensures Represents(Insert(conns, sp, c), InsertAbsent(table, sp.Ends(), c))
    ensures WellFormed(Insert(conns, sp, c))
  {
    hide Represents, Insert, WellFormed, SocketPair.Ends, SocketPair.Hashable;
    InsertRefinesMap(conns, table, sp, c);
    InsertKeepsWellFormed(conns, sp, c);
  }

  lemma UnclaimedRefines(h: Hashed, t: Tracker, cap: Capture, now: int, detect: bool)
    requires Refines(h, t) && PairOf(cap.packet).Hashable() && HashedGuess.requires(h.strays, cap)
    ensures var (h', found) := HashedUnclaimed(h, cap, now, detect);
            var (t', seen) := Unclaimed(t, cap, now, detect);
            && found == seen && Represents(h'.conns, t'.table) && Represents(h'.strays, t'.strays)
            && WellFormed(h'.conns)
  {
    hide Represents, Insert, InsertAbsent, WellFormed, SocketPair.Hashable, SocketPair.Ends, Packet.Pair, HashedGuess, Guess,
         Open, PairOf;
    GuessRefines(h.strays, t.strays, cap);
    OpeningRefines(h.conns, t.table, PairOf(cap.packet), Open(cap.packet, now));
    var opener := Guess(t.strays, cap).1;
    if opener.Some? {
      OpeningRefines(h.conns, t.table, PairOf(cap.packet), Open(opener.value, now));
    }
  }

  /** One packet through the hash tables: same verdict, and the tables still represent the maps. */
  lemma ProcessRefines(h: Hashed, t: Tracker, cap: Capture, now: int, detect: bool)
    requires Refines(h, t) && PairOf(cap.packet).Hashable()
    ensures HashedGuess.requires(h.strays, cap)
    ensures Refines(HashedProcess(h, cap, now, detect).0, Process(t, cap, now, detect).0)
    ensures HashedProcess(h, cap, now, detect).1 == Process(t, cap, now, detect).1
  {
    hide Represents, WellFormed, HashedUnclaimed, Unclaimed, Accept, Accepts, OfferEqual, TakenByEqual, SocketPair.Hashable,
         Packet.Pair, PairOf, Filed, HashedGuess;
    StrayIsFiled(h.strays, t.strays, cap);
    OfferRefines(h, t, cap.packet, now);
    TrackerTheorems.TrackKeepsConsistent(Config(detect, 0), t, Deliver(cap, now));
    var sp, k := PairOf(cap.packet), cap.packet.Pair();
    var i := Slot(h.conns, sp);
    var offered := h.(conns := h.conns[i := OfferEqual(h.conns[i], sp, cap.packet, now)]);
    if !TakenByEqual(h.conns[i], sp, cap.packet) {
      if k in t.table {
        RefusedIsUnchanged(t.table[k], cap.packet, now);
        assert t.table[k := t.table[k]] == t.table;
      }
      UnclaimedRefines(offered, t, cap, now, detect);
    }
  }

  lemma RefusedIsUnchanged(c: Conn, p: Packet, now: int)
    requires !Accepts(c, p)
    ensures Accept(c, p, now) == c
  {
  }

  lemma MaintainRefines(cfg: Config, h: Hashed, t: Tracker, e: TrackEvent)
    requires Refines(h, t) && e.Maintenance?
    ensures Refines(HashedTrack(cfg, h, e), Track(cfg, t, e))
  {
    hide Refreshed, Expired, SocketPair.Hash, SocketPair.Equals, UniqueKeys, Placed, MaintainBucket, Filed;
    var h', t' := HashedTrack(cfg, h, e), Track(cfg, t, e);
    TrackerTheorems.TrackKeepsConsistent(cfg, t, e);
    forall i | 0 <= i < |h'.conns| ensures UniqueKeys(h'.conns[i]) && Placed(h'.conns[i], |h'.conns|, i) {
      MaintainKeepsBucket(h.conns[i], e, cfg.remto, |h.conns|, i);
    }
    forall q: SocketPair | q.Hashable() ensures Lookup(h'.conns, q) == Get(t'.table, q.Ends()) {
      assert Lookup(h.conns, q) == Get(t.table, q.Ends());
      ScanMaintained(h.conns[Slot(h.conns, q)], e, cfg.remto, q);
    }
  }

  lemma DisplayRefines(cfg: Config, h: Hashed, t: Tracker, e: TrackEvent)
    requires Refines(h, t) && e.Display?
    ensures Refines(HashedTrack(cfg, h, e), Track(cfg, t, e))
  {
    hide Step, SocketPair.Hash, SocketPair.Equals, RedrawBucket, Filed;
    var h', t' := HashedTrack(cfg, h, e), Track(cfg, t, e);
    TrackerTheorems.TrackKeepsConsistent(cfg, t, e);
    forall q: SocketPair | q.Hashable() ensures Lookup(h'.conns, q) == Get(t'.table, q.Ends()) {
      assert Lookup(h.conns, q) == Get(t.table, q.Ends());
      ScanRedrawn(h.conns[Slot(h.conns, q)], e.shown, e.refreshUs, e.spill, q);
    }
  }

  // ---------------------------------------------------------------- whole runs

  /** The assertions in the hash function hold of every delivered packet. */
  predicate AllHashable(es: seq<TrackEvent>) {
    forall i :: 0 <= i < |es| && es[i].Deliver? ==> PairOf(es[i].cap.packet).Hashable()
  }

  /** A run of the hash tables, from n empty buckets each. */
  ghost function HashedAll(cfg: Config, n: nat, es: seq<TrackEvent>): (h: Hashed)
    requires n > 0 && AllHashable(es)
    ensures Refines(h, TrackAll(cfg, EMPTY, es))
  {
    if es == [] then
      EmptyRefinesEmpty(n);
      Hashed(seq(n, i => []), seq(n, i => []))
    else
      var h, e := HashedAll(cfg, n, es[..|es| - 1]), es[|es| - 1];
      HashedStepRefines(cfg, h, TrackAll(cfg, EMPTY, es[..|es| - 1]), e);
      HashedTrack(cfg, h, e)
  }

  lemma EmptyRefinesEmpty(n: nat)
    requires n > 0
    ensures Refines(Hashed(seq(n, i => []), seq(n, i => [])), EMPTY)
  {
    EmptyRepresentsEmpty<Conn>(n);
    EmptyRepresentsEmpty<Capture>(n);
  }

  /** One event: packet, tick or redraw. */
  lemma HashedStepRefines(cfg: Config, h: Hashed, t: Tracker, e: TrackEvent)
    requires Refines(h, t) && (e.Deliver? ==> PairOf(e.cap.packet).Hashable())
    ensures HashedTrack.requires(cfg, h, e)
    ensures Refines(HashedTrack(cfg, h, e), Track(cfg, t, e))
  {
    hide Refines, SocketPair.Hashable, PairOf, HashedGuess, HashedProcess, Process;
    match e
    case Deliver(cap, now) => ProcessRefines(h, t, cap, now, cfg.detect);
    case Maintenance(_, _, _, _) => MaintainRefines(cfg, h, t, e);
    case Display(_, _, _) => DisplayRefines(cfg, h, t, e);
  }

  /** After any run the loop over the equal keys of one bucket gives the verdict of offering the packet to every connection. */
  lemma BucketsRefineBroadcast(cfg: Config, n: nat, es: seq<TrackEvent>, cap: Capture, now: int)
    requires n > 0 && AllHashable(es) && PairOf(cap.packet).Hashable()
    ensures var h, t := HashedAll(cfg, n, es), TrackAll(cfg, EMPTY, es);
            && HashedGuess.requires(h.strays, cap)
            && Refines(HashedProcess(h, cap, now, cfg.detect).0, Broadcast(t, cap, now, cfg.detect).0)
            && HashedProcess(h, cap, now, cfg.detect).1 == Broadcast(t, cap, now, cfg.detect).1
  {
    var h, t := HashedAll(cfg, n, es), TrackAll(cfg, EMPTY, es);
    ProcessRefines(h, t, cap, now, cfg.detect);
    TrackerTheorems.LookupRefinesBroadcast(t, cap, now, cfg.detect);
  }

  // ---------------------------------------------------------------- what that says of the buckets

  lemma {:induction false} ScanFinds(b: seq<Entry<Conn>>, i: nat)
    requires i < |b| && UniqueKeys(b)
    ensures Scan(b, b[i].key) == Some(b[i].value)
  {
    hide SocketPair.Equals;
    EqualsIffSameEnds(b[i].key, b[i].key);
    if i > 0 {
      assert !b[0].key.Equals(b[i].key);
      UniqueTail(b);
      ScanFinds(b[1..], i - 1);
    }
  }

  /** After any run the buckets hold exactly the listed connections: each entry is listed under its unordered pair,
      and no two entries anywhere in the table share one. */
  lemma OneEntryPerPair(cfg: Config, n: nat, es: seq<TrackEvent>, i: nat, j: nat, i': nat, j': nat)
    requires n > 0 && AllHashable(es)
    requires i < |HashedAll(cfg, n, es).conns| && j < |HashedAll(cfg, n, es).conns[i]|
    requires i' < |HashedAll(cfg, n, es).conns| && j' < |HashedAll(cfg, n, es).conns[i']|
    ensures var table := TrackAll(cfg, EMPTY, es).table;
            var x, y := HashedAll(cfg, n, es).conns[i][j], HashedAll(cfg, n, es).conns[i'][j'];
            && x.key.Ends() in table && table[x.key.Ends()] == x.value
            && (x.key.Ends() == y.key.Ends() ==> i == i' && j == j')
  {
    hide SocketPair.Equals, SocketPair.Ends, SocketPair.Hash, Filed;
    var h, table := HashedAll(cfg, n, es), TrackAll(cfg, EMPTY, es).table;
    var x, y := h.conns[i][j], h.conns[i'][j'];
    ScanFinds(h.conns[i], j);
    assert Lookup(h.conns, x.key) == Get(table, x.key.Ends());
    if x.key.Ends() == y.key.Ends() {
      EqualsIffSameEnds(x.key, y.key);
      EqualsSymmetric(x.key, y.key);
      EqualPairsHashAlike(x.key, y.key);
    }
  }
}
