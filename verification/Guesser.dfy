/** Detection of connections that were running before the tracker started. */
module GuesserSpec {
  import opened Words
  import opened Packets
  import opened ConnectionSpec

  type Strays = map<set<Endpoint>, Capture>

  const MAX_AGE := 60

  /** The other direction of the same pair, judged by one address and one port. */
  predicate LooksReversed(prior: Packet, p: Packet) {
    prior.src == p.dst && prior.tcp.srcPort == p.tcp.dstPort
  }

  /** The stray packets remembered after one more, and the packet a detected connection is built from. */
  function Guess(m: Strays, cap: Capture): (Strays, Option<Packet>) {
    var p := cap.packet;
    var k := p.Pair();
    if p.Syn() || p.Ece() then (m, None)
    else if p.Fin() || p.Rst() then (m - {k}, None)
    else if k in m && LooksReversed(m[k].packet, p) && cap.seconds - m[k].seconds < MAX_AGE then
      (m - {k}, Some(if p.tcp.srcPort > p.tcp.dstPort then p else m[k].packet))
    else (m[k := cap], None)
  }

  function GuessRun(h: seq<Capture>): Strays {
    if h == [] then map[] else Guess(GuessRun(h[..|h| - 1]), h[|h| - 1]).0
  }

  // ---------------------------------------------------------------- the same, told by the history alone

  /** Packets that count for a pair: SYN and ECE packets are passed over. */
  predicate Relevant(c: Capture, k: set<Endpoint>) {
    c.packet.Pair() == k && !c.packet.Syn() && !c.packet.Ece()
  }

  predicate Plain(c: Capture) {
    !c.packet.Syn() && !c.packet.Ece() && !c.packet.Fin() && !c.packet.Rst()
  }

  /** Index of the last relevant packet, -1 if there is none. */
  function LastRelevant(h: seq<Capture>, k: set<Endpoint>): (r: int)
    ensures -1 <= r < |h|
    ensures r >= 0 ==> Relevant(h[r], k)
    ensures forall i :: r < i < |h| ==> !Relevant(h[i], k)
  {
    if h == [] then -1
    else if Relevant(h[|h| - 1], k) then |h| - 1
    else LastRelevant(h[..|h| - 1], k)
  }

  /** The second packet travels from the first one's target to its source. */
  predicate Reverses(prior: Packet, p: Packet) {
    prior.Source() == p.Target() && prior.Target() == p.Source()
  }

  /** Packet n completes a detection: it and the relevant packet before it are plain, run in opposite directions,
      lie under a minute apart, and the earlier one did not itself complete a detection. */
  predicate Completes(h: seq<Capture>, n: nat)
    requires n < |h|
    decreases n
  {
    var m := LastRelevant(h[..n], h[n].packet.Pair());
    && Plain(h[n]) && m >= 0 && Plain(h[m]) && !Completes(h, m)
    && Reverses(h[m].packet, h[n].packet)
    && h[n].seconds - h[m].seconds < MAX_AGE
  }

  /** The stray remembered for a pair: its last relevant packet, if plain and not spent on a detection. */
  ghost predicate Retained(h: seq<Capture>, k: set<Endpoint>, i: int) {
    i >= 0 && i == LastRelevant(h, k) && Plain(h[i]) && !Completes(h, i)
  }

  lemma {:induction false} CompletesInPrefix(h: seq<Capture>, n: nat, i: nat)
    requires i < n <= |h|
    ensures Completes(h[..n], i) == Completes(h, i)
    decreases i
  {
    assert h[..n][..i] == h[..i];
    var m := LastRelevant(h[..i], h[i].packet.Pair());
    if m >= 0 {
      CompletesInPrefix(h, n, m);
    }
  }

  /** For packets of one pair, comparing one address and one port settles the direction. */
  lemma HalfCheckSuffices(prior: Packet, p: Packet)
    requires prior.Pair() == p.Pair()
    ensures LooksReversed(prior, p) <==> Reverses(prior, p)
  {
    MatchIsSamePair(prior.Source(), prior.Target(), p.Source(), p.Target());
  }

  /** The memory is a function of the whole packet history, pair by pair. */
  lemma {:induction false} MemoryIsHistory(h: seq<Capture>, k: set<Endpoint>)
    ensures k in GuessRun(h) <==> Retained(h, k, LastRelevant(h, k))
    ensures k in GuessRun(h) ==> GuessRun(h)[k] == h[LastRelevant(h, k)]
  {
    if h != [] {
      var n := |h| - 1;
      var before, cap := h[..n], h[n];
      MemoryIsHistory(before, k);
      var m := LastRelevant(before, k);
      if m >= 0 {
        CompletesInPrefix(h, n, m);
      }
      if k == cap.packet.Pair() && k in GuessRun(before) {
        HalfCheckSuffices(before[m].packet, cap.packet);
      }
    }
  }

  /** A packet yields a connection exactly when it completes a detection. The connection is built from one of the two
      packets, is up, belongs to their pair, and its server is the end with the lower port. */
  lemma DetectionIffHistory(h: seq<Capture>, cap: Capture)
    ensures var r := Guess(GuessRun(h), cap).1;
            && (r.Some? <==> Completes(h + [cap], |h|))
            && (r.Some? ==>
                && r.value.Pair() == cap.packet.Pair() && OpenState(r.value) == Up
                && r.value.tcp.srcPort >= r.value.tcp.dstPort
                && (r.value == cap.packet || r.value == h[LastRelevant(h, cap.packet.Pair())].packet))
  {
    var h', k := h + [cap], cap.packet.Pair();
    assert h'[..|h|] == h;
    MemoryIsHistory(h, k);
    var m := LastRelevant(h, k);
    if m >= 0 {
      assert h'[m] == h[m];
      CompletesInPrefix(h', |h|, m);
      HalfCheckSuffices(h[m].packet, cap.packet);
    }
  }

  /** Two stray packets of one pair, with nothing between them, make a connection exactly when they carry no SYN, FIN, RST or
      ECE, run in opposite directions and lie less than 60 seconds apart; the end with the higher port is the client. */
  lemma TwoStraysDetectIff(a: Capture, b: Capture)
    requires a.packet.Pair() == b.packet.Pair()
    ensures var r := Guess(Guess(map[], a).0, b).1;
            && (r.Some? <==>
                && !a.packet.Syn() && !a.packet.Fin() && !a.packet.Rst() && !a.packet.Ece()
                && !b.packet.Syn() && !b.packet.Fin() && !b.packet.Rst() && !b.packet.Ece()
                && a.packet.Source() == b.packet.Target() && a.packet.Target() == b.packet.Source()
                && b.seconds - a.seconds < 60)
            && (r.Some? ==> r.value == if b.packet.tcp.srcPort > a.packet.tcp.srcPort then b.packet else a.packet)
  {
    HalfCheckSuffices(a.packet, b.packet);
  }

  /** A third packet of the pair between two that would make a connection: a FIN or RST makes the first one forgotten, a SYN
      or ECE packet, whatever else it carries, is passed over. */
  lemma InterruptedDetection(a: Capture, x: Capture, b: Capture)
    requires a.packet.Pair() == x.packet.Pair() == b.packet.Pair()
    requires Guess(Guess(map[], a).0, b).1.Some? && (x.packet.Syn() || x.packet.Ece() || x.packet.Fin() || x.packet.Rst())
    ensures Guess(Guess(Guess(map[], a).0, x).0, b).1 ==
            if x.packet.Syn() || x.packet.Ece() then Guess(Guess(map[], a).0, b).1 else None
  {
  }

  /** Every remembered packet is plain and filed under its own pair. */
  ghost predicate Filed(m: Strays) {
    forall k :: k in m ==> m[k].packet.Pair() == k && Plain(m[k])
  }

  lemma GuessKeepsFiled(m: Strays, cap: Capture)
    requires Filed(m)
    ensures var (m', r) := Guess(m, cap);
            && Filed(m')
            && (r.Some? ==>
                r.value.Pair() == cap.packet.Pair() && !r.value.Syn() && r.value.tcp.srcPort >= r.value.tcp.dstPort)
            && forall k :: k != cap.packet.Pair() ==> (k in m' <==> k in m) && (k in m ==> m'[k] == m[k])
  {
    if cap.packet.Pair() in m {
      HalfCheckSuffices(m[cap.packet.Pair()].packet, cap.packet);
    }
  }
}

module Guessers {
  import opened Words
  import opened Packets
  import opened ConnectionSpec
  import opened GuesserSpec
  import opened TcpConnections

  class Guesser {
    /** None stands for the NULL that a lookup of an absent key leaves in the table. */
    var hash: map<set<Endpoint>, Option<Capture>>

    ghost predicate NoNull()
      reads this
    {
      forall k :: k in hash ==> hash[k].Some?
    }

    ghost function View(): Strays
      reads this
      requires NoNull()
    {
      map k | k in hash :: hash[k].value
    }

    constructor ()
      ensures NoNull() && View() == map[]
    {
      hash := map[];
    }

    /** Remembers and detects as specified; no NULL entry survives the call. */
    method AddPacket(cap: Capture, now: int) returns (nc: TCPConnection?)
      requires NoNull()
      modifies this
      ensures NoNull() && View() == old(Guess(View(), cap).0)
      ensures nc != null <==> old(Guess(View(), cap).1.Some?)
      ensures nc != null ==> fresh(nc) && nc.View() == old(Open(Guess(View(), cap).1.value, now))
    {
      var p := cap.packet;
      var k := p.Pair();
      ghost var m := View();
      if p.Syn() {
        return null;
      }
      if p.Ece() {
        return null;
      }
      if p.Fin() || p.Rst() {
        hash := hash - {k};
        return null;
      }
      if k !in hash {
        hash := hash[k := None];
      }
      if hash[k] == None {
        hash := hash[k := Some(cap)];
        assert View() == m[k := cap];
        return null;
      } else {
        var ocp := hash[k].value;
        hash := hash - {k};
        if ocp.packet.src == p.dst && ocp.packet.tcp.srcPort == p.tcp.dstPort && cap.seconds - ocp.seconds < MAX_AGE {
          assert View() == m - {k};
          if p.tcp.srcPort > p.tcp.dstPort {
            nc := new TCPConnection(p, now);
          } else {
            nc := new TCPConnection(ocp.packet, now);
          }
          return nc;
        } else {
          hash := hash[k := Some(cap)];
          assert View() == m[k := cap];
          return null;
        }
      }
    }
  }
}
