/** The packet buffer as the object its two threads work on, one method per critical section. The queue operations are
    those of the step relation in PacketBufferSpec.dfy, which interleaves them with every other thread. */
module PacketBuffers {
  import opened Packets
  import opened TrackerSpec
  import opened PacketBufferSpec
  import opened Containers
  import Gate
  import TrackerTheorems
  import PacketBufferTheorems

  /** What the consumer finds when it takes the destination's lock for a packet: whether one is set, and the time. */
  datatype Turn = Turn(on: bool, now: int)

  /** The tracker event of delivering one buffer, if there is somewhere to deliver it. */
  function Delivered(n: Nlp, turn: Turn): (es: seq<TrackEvent>)
    requires PacketBufferTheorems.Checked(n)
  {
    Gate.GateIsExact(n.bytes);
    if turn.on then [Deliver(Capture(Gate.NewTCPPacket(n.bytes).packet, n.seconds), turn.now)] else []
  }

  /** The tracker events that working through the buffers in order amounts to. */
  function Deliveries(q: seq<Nlp>, turns: seq<Turn>): seq<TrackEvent>
    requires PacketBufferTheorems.AllChecked(q) && |turns| == |q|
  {
    if q == [] then [] else
      Deliveries(q[..|q| - 1], turns[..|q| - 1]) + Delivered(q[|q| - 1], turns[|q| - 1])
  }

  /** The fates the step relation records for the same turns. */
  function Fates(q: seq<Nlp>, turns: seq<Turn>): seq<Fate>
    requires |turns| == |q|
  {
    if q == [] then [] else
      Fates(q[..|q| - 1], turns[..|q| - 1]) + [Fate(q[|q| - 1], turns[|q| - 1].on)]
  }

  function Times(turns: seq<Turn>): seq<int> {
    if turns == [] then [] else
      Times(turns[..|turns| - 1]) + if turns[|turns| - 1].on then [turns[|turns| - 1].now] else []
  }

  function TimesOf(es: seq<TrackEvent>): seq<int> {
    if es == [] then [] else
      TimesOf(es[..|es| - 1]) + if es[|es| - 1].Deliver? then [es[|es| - 1].now] else []
  }

  /** What a drain delivers are the buffers whose turn finds a destination, parsed, in order, with their capture times and
      the time of their turn. */
  lemma {:induction false} DeliveriesAreThrough(q: seq<Nlp>, turns: seq<Turn>)
    requires PacketBufferTheorems.AllChecked(q) && |turns| == |q|
    ensures var es := Deliveries(q, turns);
            && PacketBufferTheorems.LoggedCaptures(es) == PacketBufferTheorems.CapturesOf(
                                                            PacketBufferTheorems.Through(Fates(q, turns)))
            && TimesOf(es) == Times(turns)
            && |es| == |Times(turns)|
  {
    hide PacketBufferTheorems.Checked, PacketBufferTheorems.CapturesOf, PacketBufferTheorems.Through, Gate.NewTCPPacket;
    hide PacketBufferTheorems.LoggedCaptures, TimesOf, Times;
    if q == [] {
      NothingThrough();
    } else {
      var n := |q| - 1;
      DeliveriesAreThrough(q[..n], turns[..n]);
      var es, fates := Deliveries(q[..n], turns[..n]), Fates(q[..n], turns[..n]);
      PacketBufferTheorems.ThroughStep(fates, Fate(q[n], turns[n].on));
      assert turns[..n] + [turns[n]] == turns;
      TimesStep(turns[..n], turns[n]);
      if turns[n].on {
        CheckedDelivers(q[n], turns[n]);
        PacketBufferTheorems.CapturesStep(PacketBufferTheorems.Through(fates), q[n]);
        DeliveryStep(es, Delivered(q[n], turns[n])[0]);
      } else {
        assert es + [] == es;
        assert PacketBufferTheorems.Through(fates) + [] == PacketBufferTheorems.Through(fates);
        assert Times(turns[..n]) + [] == Times(turns[..n]);
      }
    }
  }

  lemma NothingThrough()
    ensures PacketBufferTheorems.LoggedCaptures([]) == PacketBufferTheorems.CapturesOf(PacketBufferTheorems.Through([]))
    ensures TimesOf([]) == Times([]) == []
  {
  }

  lemma CheckedDelivers(n: Nlp, turn: Turn)
    requires PacketBufferTheorems.Checked(n) && turn.on
    ensures Gate.NewTCPPacket(n.bytes).Parsed?
    ensures Delivered(n, turn) == [Deliver(Capture(Gate.NewTCPPacket(n.bytes).packet, n.seconds), turn.now)]
  {
    Gate.GateIsExact(n.bytes);
  }

  lemma TimesStep(turns: seq<Turn>, turn: Turn)
    ensures Times(turns + [turn]) == Times(turns) + if turn.on then [turn.now] else []
  {
    assert (turns + [turn])[..|turns|] == turns;
  }

  lemma DeliveryStep(es: seq<TrackEvent>, e: TrackEvent)
    requires e.Deliver?
    ensures PacketBufferTheorems.LoggedCaptures(es + [e]) == PacketBufferTheorems.LoggedCaptures(es) + [e.cap]
    ensures TimesOf(es + [e]) == TimesOf(es) + [e.now]
  {
    assert (es + [e])[..|es|] == es;
  }

  /** The next turn extends the deliveries by what it delivers. */
  lemma DeliverOneMore(cfg: Config, t: Tracker, q: seq<Nlp>, turns: seq<Turn>, i: nat)
    requires PacketBufferTheorems.AllChecked(q) && |turns| == |q| && i < |q|
    ensures TrackAll(cfg, t, Deliveries(q[..i + 1], turns[..i + 1])) ==
            var u := TrackAll(cfg, t, Deliveries(q[..i], turns[..i]));
            if turns[i].on then Track(cfg, u, Delivered(q[i], turns[i])[0]) else u
  {
    hide Track, PacketBufferTheorems.Checked, Gate.NewTCPPacket;
    assert q[..i + 1][..i] == q[..i] && turns[..i + 1][..i] == turns[..i];
    var es := Deliveries(q[..i], turns[..i]);
    if turns[i].on {
      TrackerTheorems.TrackOneMore(cfg, t, es, Delivered(q[i], turns[i])[0]);
    } else {
      assert es + [] == es;
    }
  }

  class PacketBuffer {
    var pq1: seq<Nlp>
    var pq2: seq<Nlp>
    var inq: QueueId
    var outq: QueueId
    var c: TCContainer?

    function View(): Buffers
      reads this
    {
      Buffers(pq1, pq2, inq, outq)
    }

    ghost predicate Valid()
      reads this
    {
      && inq != outq
      && PacketBufferTheorems.AllChecked(pq1) && PacketBufferTheorems.AllChecked(pq2)
    }

    constructor ()
      ensures Valid() && View().In() == [] && View().Out() == [] && c == null
    {
      pq1, pq2 := [], [];
      inq, outq := Q1, Q2;
      c := null;
    }

    method Dest(nc: TCContainer?)
      modifies this`c
      ensures c == nc
    {
      c := nc;
    }

    /** Without a destination the packet is dropped, otherwise it goes to the end of the input queue. */
    method PushPacket(n: Nlp)
      requires Valid() && PacketBufferTheorems.Checked(n)
      modifies this`pq1, this`pq2
      ensures Valid()
      ensures View() == if c == null then old(View()) else old(View().Put(inq, View().In() + [n]))
    {
      if c == null {
        return;
      }
      if inq == Q1 {
        pq1 := pq1 + [n];
      } else {
        pq2 := pq2 + [n];
      }
    }

    method SwapQueues()
      requires Valid()
      modifies this`inq, this`outq
      ensures Valid() && View() == old(View().Swapped())
    {
      if inq == Q1 {
        inq, outq := Q2, Q1;
      } else {
        inq, outq := Q1, Q2;
      }
    }

    /** Takes the front off the output queue. */
    method PopFront() returns (n: Nlp)
      requires Valid() && View().Out() != []
      modifies this`pq1, this`pq2
      ensures Valid() && n == old(View().Out()[0]) && PacketBufferTheorems.Checked(n)
      ensures View() == old(View().Put(outq, View().Out()[1..]))
    {
      if outq == Q1 {
        n := pq1[0];
        pq1 := pq1[1..];
      } else {
        n := pq2[0];
        pq2 := pq2[1..];
      }
    }

    /** Hands one buffer to the destination found; the parser's assertions hold on checked buffers. */
    method DeliverOne(dest: TCContainer, n: Nlp, now: int, cfg: Config)
      requires PacketBufferTheorems.Checked(n) && dest.Valid()
      modifies dest`conhash2, dest.guesser, dest.conhash2.Values
      ensures dest.Valid() && fresh(dest.conhash2.Values - old(dest.conhash2.Values))
      ensures dest.View() == old(Track(cfg, dest.View(), Delivered(n, Turn(true, now))[0]))
    {
      Gate.GateIsExact(n.bytes);
      var found := dest.ProcessPacket(Capture(Gate.NewTCPPacket(n.bytes).packet, n.seconds), now, cfg.detect);
    }

    /** The drain loop: every buffer on the output queue goes to the container, first come first served, or is discarded
        if its turn finds no destination. The main thread may set and clear the destination between any two, so what each
        turn finds is a parameter; the drain itself leaves it alone. Packets that arrive meanwhile are on the other queue
        and stay there. */
    method DrainOutq(k: TCContainer, turns: seq<Turn>, cfg: Config)
      requires Valid() && k.Valid() && |turns| == |View().Out()|
      modifies this`pq1, this`pq2, k`conhash2, k.guesser, k.conhash2.Values
      ensures Valid() && View() == old(View().Put(outq, []))
      ensures k.Valid() && k.View() == old(TrackAll(cfg, k.View(), Deliveries(View().Out(), turns)))
    {
      hide Track, TrackAll, Deliveries, Delivered, PacketBufferTheorems.Checked, TCContainer.View, TCContainer.Valid;
      ghost var queue := View().Out();
      var done: nat := 0;
      NothingDelivered(cfg, k.View(), queue[..0], turns[..0]);
      while View().Out() != []
        invariant Valid() && done <= |queue| && View() == old(View().Put(outq, queue[done..]))
        invariant k.Valid() && fresh(k.conhash2.Values - old(k.conhash2.Values))
        invariant k.View() == old(TrackAll(cfg, k.View(), Deliveries(queue[..done], turns[..done])))
        decreases |queue| - done
      {
        DeliverOneMore(cfg, old(k.View()), queue, turns, done);
        var n := PopFront();
        if turns[done].on {
          DeliverOne(k, n, turns[done].now, cfg);
          assert turns[done] == Turn(true, turns[done].now);
        }
        done := done + 1;
      }
      assert queue[..done] == queue && turns[..done] == turns;
    }
  }

  lemma NothingDelivered(cfg: Config, t: Tracker, q: seq<Nlp>, turns: seq<Turn>)
    requires q == [] && turns == []
    ensures TrackAll(cfg, t, Deliveries(q, turns)) == t
  {
  }
}
