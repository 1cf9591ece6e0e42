/** The key of both hash tables: equality and hash of endpoint pairs, and why a hash table
    built on them is a map over unordered pairs. */
module SocketPairs {
  import opened Words
  import opened Packets

  /** The 32-bit word of an address as a little-endian host reads it; for IPv6 only the fourth 16-bit group. */
  function AddressHash(a: Address): U32 {
    match a
    case V4(o) => o[0] as int + 0x100 * o[1] as int + 0x1_0000 * o[2] as int + 0x100_0000 * o[3] as int
    case V6(o) => o[6] as int + 0x100 * o[7] as int
  }

  datatype SocketPair = SocketPair(addrA: Address, portA: U16, addrB: Address, portB: U16) {
    predicate Equals(sp: SocketPair) {
      if sp.addrA == addrA && sp.addrB == addrB && sp.portA == portA && sp.portB == portB then true
      else sp.addrA == addrB && sp.addrB == addrA && sp.portA == portB && sp.portB == portA
    }

    /** Neither port is 0: what the assertions in the hash function demand. */
    predicate Hashable() { portA > 0 && portB > 0 }

    function Hash(): U32
      requires Hashable()
    {
      Wrap32(AddressHash(addrA) % portB + AddressHash(addrB) % portA)
    }

    function Ends(): set<Endpoint> { {Endpoint(addrA, portA), Endpoint(addrB, portB)} }
  }

  /** The pair a packet is filed under. */
  function PairOf(p: Packet): (sp: SocketPair)
    ensures sp.Ends() == p.Pair()
  {
    SocketPair(p.src, p.tcp.srcPort, p.dst, p.tcp.dstPort)
  }

  /** Equality of socket pairs is equality of unordered pairs of endpoints, for any mix of IPv4 and IPv6. */
  lemma EqualsIffSameEnds(x: SocketPair, y: SocketPair)
    ensures x.Equals(y) <==> x.Ends() == y.Ends()
  {
    MatchIsSamePair(Endpoint(x.addrA, x.portA), Endpoint(x.addrB, x.portB),
                    Endpoint(y.addrA, y.portA), Endpoint(y.addrB, y.portB));
  }

  lemma EqualsIsEquivalence(x: SocketPair, y: SocketPair, z: SocketPair)
    ensures x.Equals(x)
    ensures x.Equals(y) ==> y.Equals(x)
    ensures x.Equals(y) && y.Equals(z) ==> x.Equals(z)
  {
    EqualsIffSameEnds(x, y);
    EqualsIffSameEnds(y, z);
    EqualsIffSameEnds(x, z);
  }

  /** Different IPv4 addresses have different words; of an IPv6 address only the fourth 16-bit group counts. */
  lemma AddressHashIff(x: Address, y: Address)
    requires x.V4? <==> y.V4?
    ensures AddressHash(x) == AddressHash(y) <==>
              if x.V4? then x == y else x.hextets[6..8] == y.hextets[6..8]
  {
    if x.V4? {
      var o, q := x.octets, y.octets;
      assert o == [o[0], o[1], o[2], o[3]] && q == [q[0], q[1], q[2], q[3]];
      WordIff(o[0], o[1] as int + 0x100 * o[2] as int + 0x1_0000 * o[3] as int,
              q[0], q[1] as int + 0x100 * q[2] as int + 0x1_0000 * q[3] as int);
      WordIff(o[1], o[2] as int + 0x100 * o[3] as int, q[1], q[2] as int + 0x100 * q[3] as int);
      WordIff(o[2], o[3] as int, q[2], q[3] as int);
    } else {
      var o, q := x.hextets, y.hextets;
      assert o[6..8] == [o[6], o[7]] && q[6..8] == [q[6], q[7]];
      WordIff(o[6], o[7] as int, q[6], q[7] as int);
    }
  }

  lemma WordIff(low: Byte, high: nat, low': Byte, high': nat)
    ensures low + 0x100 * high == low' + 0x100 * high' <==> low == low' && high == high'
  {
  }

  /** Equal pairs hash alike, whichever way round they are stored, and the sum never wraps. */
  lemma EqualPairsHashAlike(x: SocketPair, y: SocketPair)
    requires x.Equals(y) && x.Hashable()
    ensures y.Hashable() && x.Hash() == y.Hash()
    ensures x.Hash() == AddressHash(x.addrA) % x.portB + AddressHash(x.addrB) % x.portA
  {
  }

  // ---------------------------------------------------------------- a table of buckets

  datatype Entry<V> = Entry(key: SocketPair, value: V)

  /** The first entry of a bucket whose key equals sp. */
  function Scan<V>(bucket: seq<Entry<V>>, sp: SocketPair): Option<V> {
    if bucket == [] then None
    else if bucket[0].key.Equals(sp) then Some(bucket[0].value)
    else Scan(bucket[1..], sp)
  }

  function Without<V>(bucket: seq<Entry<V>>, sp: SocketPair): seq<Entry<V>> {
    if bucket == [] then []
    else (if bucket[0].key.Equals(sp) then [] else [bucket[0]]) + Without(bucket[1..], sp)
  }

  type Buckets<V> = t: seq<seq<Entry<V>>> | |t| > 0 witness [[]]

  function Slot<V>(t: Buckets<V>, sp: SocketPair): (i: nat)
    requires sp.Hashable()
    ensures i < |t|
  {
    sp.Hash() % |t|
  }

  function Lookup<V>(t: Buckets<V>, sp: SocketPair): Option<V>
    requires sp.Hashable()
  {
    Scan(t[Slot(t, sp)], sp)
  }

  /** Insertion into a table with unique keys: an occupied key is left alone. */
  function Insert<V>(t: Buckets<V>, sp: SocketPair, v: V): Buckets<V>
    requires sp.Hashable()
  {
    var i := Slot(t, sp);
    if Lookup(t, sp).Some? then t else t[i := [Entry(sp, v)] + t[i]]
  }

  function Erase<V>(t: Buckets<V>, sp: SocketPair): Buckets<V>
    requires sp.Hashable()
  {
    var i := Slot(t, sp);
    t[i := Without(t[i], sp)]
  }

  /** The buckets answer every lookup as the map over unordered pairs does. */
  ghost predicate Represents<V>(t: Buckets<V>, m: map<set<Endpoint>, V>) {
    forall sp: SocketPair :: sp.Hashable() ==> Lookup(t, sp) == Get(m, sp.Ends())
  }

  lemma {:induction false} ScanRespectsEquals<V>(bucket: seq<Entry<V>>, x: SocketPair, y: SocketPair)
    requires x.Equals(y)
    ensures Scan(bucket, x) == Scan(bucket, y)
  {
    if bucket != [] {
      EqualsIsEquivalence(bucket[0].key, x, y);
      EqualsIsEquivalence(bucket[0].key, y, x);
      EqualsIsEquivalence(x, y, x);
      ScanRespectsEquals(bucket[1..], x, y);
    }
  }

  lemma {:induction false} ScanWithout<V>(bucket: seq<Entry<V>>, gone: SocketPair, sp: SocketPair)
    ensures Scan(Without(bucket, gone), sp) == if gone.Equals(sp) then None else Scan(bucket, sp)
  {
    if bucket != [] {
      ScanWithout(bucket[1..], gone, sp);
      EqualsIffSameEnds(bucket[0].key, gone);
      EqualsIffSameEnds(bucket[0].key, sp);
      EqualsIffSameEnds(gone, sp);
      if !bucket[0].key.Equals(gone) {
        assert Without(bucket, gone)[1..] == Without(bucket[1..], gone);
      } else {
        assert Without(bucket, gone) == Without(bucket[1..], gone);
      }
    }
  }

  /** Insertion refines insertion of an absent key, whichever direction either pair was seen in. */
  lemma InsertRefinesMap<V>(t: Buckets<V>, m: map<set<Endpoint>, V>, sp: SocketPair, v: V)
    requires sp.Hashable() && Represents(t, m)
    ensures Represents(Insert(t, sp, v), if sp.Ends() in m then m else m[sp.Ends() := v])
  {
    var t' := Insert(t, sp, v);
    var m' := if sp.Ends() in m then m else m[sp.Ends() := v];
    forall q: SocketPair | q.Hashable() ensures Lookup(t', q) == Get(m', q.Ends()) {
      EqualsIffSameEnds(sp, q);
      assert Lookup(t, q) == Get(m, q.Ends());
      assert Lookup(t, sp) == Get(m, sp.Ends());
      if sp.Equals(q) {
        EqualPairsHashAlike(sp, q);
      }
      if Lookup(t, sp).None? {
        var i := Slot(t, sp);
        assert t'[i][1..] == t[i];
      }
    }
  }

  /** Erasing refines removal of the unordered pair. */
  lemma EraseRefinesMap<V>(t: Buckets<V>, m: map<set<Endpoint>, V>, sp: SocketPair)
    requires sp.Hashable() && Represents(t, m)
    ensures Represents(Erase(t, sp), m - {sp.Ends()})
  {
    var t', m' := Erase(t, sp), m - {sp.Ends()};
    forall q: SocketPair | q.Hashable() ensures Lookup(t', q) == Get(m', q.Ends()) {
      EqualsIffSameEnds(sp, q);
      assert Lookup(t, q) == Get(m, q.Ends());
      if sp.Equals(q) {
        EqualPairsHashAlike(sp, q);
      }
      ScanWithout(t[Slot(t, sp)], sp, q);
    }
  }

  lemma EmptyRepresentsEmpty<V>(n: nat)
    requires n > 0
    ensures Represents<V>(seq(n, i => []), map[])
  {
  }
}
