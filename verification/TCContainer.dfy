/** The connection table as the object shared by the packet and the maintenance thread.
    Each method body is one critical section of conlist_lock. */
module Containers {
  import opened Words
  import opened Packets
  import opened ConnectionSpec
  import opened GuesserSpec
  import opened TcpConnections
  import opened TrackerSpec
  import opened Guessers

  class TCContainer {
    var conhash2: map<Key, TCPConnection>
    const guesser: Guesser
    var purgeFlag: bool

    ghost predicate Valid()
      reads this, guesser, conhash2.Values
    {
      && guesser.NoNull() && Filed(guesser.View())
      && forall k :: k in conhash2 ==> conhash2[k].View().Pair() == k
    }

    ghost function View(): Tracker
      requires Valid()
      reads this, guesser, conhash2.Values
    {
      Tracker(map k | k in conhash2 :: conhash2[k].View(), guesser.View())
    }

    constructor ()
      ensures Valid() && View() == EMPTY && purgeFlag
      ensures fresh(guesser)
    {
      conhash2 := map[];
      guesser := new Guesser();
      purgeFlag := true;
    }

    /** Takes or refuses a packet exactly as the specification of the tracker says. */
    method ProcessPacket(cap: Capture, now: int, detect: bool) returns (found: bool)
      requires Valid()
      modifies this`conhash2, guesser, conhash2.Values
      ensures Valid() && fresh(conhash2.Values - old(conhash2.Values))
      ensures (View(), found) == old(Process(View(), cap, now, detect))
    {
      hide Unclaimed, Accept, Accepts, Guess;
      found := Offer(cap.packet, now);
      if !found {
        found := StartOrGuess(cap, now, detect);
      }
    }

    /** Keys are unique, so the range of entries equal to the packet's pair holds at most one. */
    method Offer(p: Packet, now: int) returns (found: bool)
      requires Valid()
      modifies conhash2.Values
      ensures Valid()
      ensures found <==> p.Pair() in conhash2 && old(Accepts(View().table[p.Pair()], p))
      ensures View() == if !found then old(View()) else
                old(View()).(table := old(View()).table[p.Pair() := old(Accept(View().table[p.Pair()], p, now))])
    {
      hide Guess, TCPConnection.View, Guesser.View, Guesser.NoNull, Filed, Follow, Count;
      found := false;
      var sp := p.Pair();
      if sp in conhash2 {
        ghost var before := View();
        var ic := conhash2[sp];
        assert forall k :: k in conhash2 && k != sp ==> conhash2[k] != ic;
        found := ic.AcceptPacket(p, now);
        assert View().table == before.table[sp := Accept(before.table[sp], p, now)];
        assert !found ==> View().table == before.table;
      }
    }

    /** No connection took the packet: it may open one or feed the guesser. */
    method StartOrGuess(cap: Capture, now: int, detect: bool) returns (found: bool)
      requires Valid()
      modifies this`conhash2, guesser
      ensures Valid() && fresh(conhash2.Values - old(conhash2.Values))
      ensures (View(), found) == old(Unclaimed(View(), cap, now, detect))
    {
      hide Guess, TCPConnection.View, Guesser.View, Guesser.NoNull, Filed;
      ghost var before := View();
      var p := cap.packet;
      var sp := p.Pair();
      found := false;
      if p.Syn() && !p.Ack() {
        var newcon := new TCPConnection(p, now);
        assert View() == before;
        found := true;
        InsertConnection(sp, newcon);
      } else if detect {
        GuessKeepsFiled(guesser.View(), cap);
        var newcon := guesser.AddPacket(cap, now);
        assert View().table == before.table;
        if newcon != null {
          InsertConnection(sp, newcon);
        }
      }
    }

    /** An occupied key is left alone. */
    method InsertConnection(sp: Key, newcon: TCPConnection)
      requires Valid() && newcon !in conhash2.Values && newcon.View().Pair() == sp
      modifies this`conhash2
      ensures Valid()
      ensures conhash2 == if sp in old(conhash2) then old(conhash2) else old(conhash2)[sp := newcon]
      ensures View() == old(View()).(table := InsertAbsent(old(View()).table, sp, newcon.View()))
    {
      if sp !in conhash2 {
        conhash2 := conhash2[sp := newcon];
      }
    }

    /** The loop body: refresh one entry, then erase it if it is due. */
    method MaintainEntry(k: Key, e: TrackEvent, remto: int) returns (erased: bool)
      requires e.Maintenance? && e.purge == purgeFlag && k in conhash2
      modifies this`conhash2, conhash2[k]
      ensures old(conhash2[k]).View() == old(Refreshed(conhash2[k].View(), e))
      ensures erased <==> old(Due(conhash2[k].View(), e, remto))
      ensures conhash2 == if erased then old(conhash2) - {k} else old(conhash2)
    {
      var ic := conhash2[k];
      erased := false;
      ic.UpdateCounters(e.purgeUs, e.stampUs);
      if purgeFlag {
        if (ic.IsFinished() && ic.GetIdleSeconds(e.seconds) > remto)
           || (ic.state == SynSynack && ic.GetIdleSeconds(e.seconds) > SYN_SYNACK_WAIT)
           || (ic.state == FinFinack && ic.GetIdleSeconds(e.seconds) > FIN_FINACK_WAIT) {
          conhash2 := conhash2 - {k};
          erased := true;
        }
      }
    }

    /** One round of the maintenance loop over the entries in whatever order the table yields them, erasing while it goes:
        every entry is refreshed once, exactly the expired ones leave, and each of those is collected once. */
    method Maintain(e: TrackEvent, remto: int) returns (collected: seq<TCPConnection>)
      requires Valid() && e.Maintenance? && e.purge == purgeFlag
      modifies this`conhash2, conhash2.Values
      ensures Valid() && View() == old(View()).(table := TrackerSpec.Maintain(old(View()).table, e, remto))
      ensures forall k :: k in conhash2 ==> k in old(conhash2) && conhash2[k] == old(conhash2)[k]
      ensures exists dropped :: CollectedOnce(old(conhash2), conhash2.Keys, dropped, collected)
    {
      hide TCPConnection.View, Guesser.View, Guesser.NoNull, Filed, Refreshed, Expired, CollectedOnce;
      RefreshedKeepsPair(e);
      ghost var dropped;
      dropped, collected := Sweep(e, remto);
    }

    /** The display recalculates the rates of the connections it shows, in whatever order its list has them. */
    method RecalcShown(shown: set<Key>, refreshUs: U32, spill: I32)
      requires Valid()
      modifies conhash2.Values
      ensures Valid() && View() == old(View()).(table := Redrawn(old(View()).table, shown, refreshUs, spill))
    {
      hide TCPConnection.View, Guesser.View, Guesser.NoNull, Filed, Step;
      RedrawKeepsPair(refreshUs, spill);
      ghost var before := View().table;
      assert forall j, k :: j in conhash2 && k in conhash2 && j != k ==> conhash2[j] != conhash2[k];
      var rest := shown * conhash2.Keys;
      while rest != {}
        invariant rest <= shown * conhash2.Keys
        invariant guesser.NoNull() && Filed(guesser.View()) && guesser.View() == old(View()).strays
        invariant forall k :: k in rest || (k in conhash2 && k !in shown) ==> conhash2[k].View() == before[k]
        invariant forall k :: k in conhash2 && k in shown && k !in rest ==>
                    conhash2[k].View() == Step(before[k], Redraw(refreshUs, spill))
        decreases rest
      {
        var k :| k in rest;
        rest := rest - {k};
        conhash2[k].RecalcAvg(refreshUs, spill);
      }
    }

    /** The loop, entry by entry. */
    method Sweep(e: TrackEvent, remto: int) returns (ghost dropped: seq<Key>, collected: seq<TCPConnection>)
      requires e.Maintenance? && e.purge == purgeFlag
      requires forall j, k :: j in conhash2 && k in conhash2 && j != k ==> conhash2[j] != conhash2[k]
      modifies this`conhash2, conhash2.Values
      ensures forall k :: k in conhash2 <==> k in old(conhash2) && !old(Due(conhash2[k].View(), e, remto))
      ensures forall k :: k in conhash2 ==> conhash2[k] == old(conhash2)[k]
      ensures forall k :: k in conhash2 ==> conhash2[k].View() == old(Refreshed(conhash2[k].View(), e))
      ensures CollectedOnce(old(conhash2), conhash2.Keys, dropped, collected)
    {
      hide TCPConnection.View, Refreshed, Due, CollectedOnce;
      ghost var cons := conhash2;
      dropped, collected := [], [];
      CollectNone(cons);
      var rest := conhash2.Keys;
      while rest != {}
        invariant rest <= conhash2.Keys
        invariant purgeFlag == e.purge
        invariant forall k :: k in conhash2 <==> k in cons && (k in rest || !old(Due(cons[k].View(), e, remto)))
        invariant forall k :: k in conhash2 ==> conhash2[k] == cons[k]
        invariant forall k :: k in rest ==> cons[k].View() == old(cons[k].View())
        invariant forall k :: k in conhash2 && k !in rest ==> cons[k].View() == old(Refreshed(cons[k].View(), e))
        invariant CollectedOnce(cons, conhash2.Keys, dropped, collected)
        decreases rest
      {
        var k :| k in rest;
        rest := rest - {k};
        var ic := conhash2[k];
        ghost var left := conhash2.Keys;
        var erased := MaintainEntry(k, e, remto);
        if erased {
          assert conhash2.Keys + {k} == left;
          CollectOneMore(cons, conhash2.Keys, dropped, collected, k);
          dropped := dropped + [k];
          collected := collected + [ic];
        }
      }
    }
  }

  /** Whether a tick finds the connection expired. */
  predicate Due(c: Conn, e: TrackEvent, remto: int)
    requires e.Maintenance?
  {
    e.purge && Expired(Refreshed(c, e), e.seconds, remto)
  }

  lemma RedrawKeepsPair(refreshUs: U32, spill: I32)
    ensures forall c :: Step(c, Redraw(refreshUs, spill)).Pair() == c.Pair()
  {
  }

  lemma RefreshedKeepsPair(e: TrackEvent)
    requires e.Maintenance?
    ensures forall c :: Refreshed(c, e).Pair() == c.Pair()
  {
  }

  /** The collected connections are those of the dropped keys, in the order they were dropped, each key exactly once. */
  ghost predicate CollectedOnce(cons: map<Key, TCPConnection>, left: set<Key>,
                                dropped: seq<Key>, collected: seq<TCPConnection>)
  {
    && |dropped| == |collected|
    && (forall i :: 0 <= i < |dropped| ==> dropped[i] in cons && collected[i] == cons[dropped[i]])
    && (forall i, j :: 0 <= i < j < |dropped| ==> dropped[i] != dropped[j])
    && (forall k :: k in dropped <==> k in cons && k !in left)
  }

  lemma CollectNone(cons: map<Key, TCPConnection>)
    ensures CollectedOnce(cons, cons.Keys, [], [])
  {
  }

  lemma CollectOneMore(cons: map<Key, TCPConnection>, left: set<Key>, dropped: seq<Key>,
                       collected: seq<TCPConnection>, k: Key)
    requires k in cons && k !in left && CollectedOnce(cons, left + {k}, dropped, collected)
    ensures CollectedOnce(cons, left, dropped + [k], collected + [cons[k]])
  {
    assert k !in dropped;
    assert forall x :: x in dropped + [k] <==> x in dropped || x == k;
  }
}
