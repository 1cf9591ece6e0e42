/** The display's snapshot of the connection table: comparators, sorting, and the cursor that walks it. */
module SortedIterators {
  import opened Words
  import opened ConnectionSpec
  import opened TrackerSpec

  datatype SortKind = SortRate | SortBytes | SortIdle | SortActive

  /** The clock readings of a comparison: for the left and the right operand of its "less", then of its "greater".
      Which operand of each is evaluated first is left to the compiler. */
  datatype Clock = Clock(t1: int, t2: int, t3: int, t4: int) {
    /** The readings in the order in which each test evaluates its operands do not run backwards. */
    predicate Forward(leftFirstInLess: bool, leftFirstInGreater: bool) {
      && (if leftFirstInLess then t1 <= t2 else t2 <= t1)
      && (if leftFirstInGreater then t3 <= t4 else t4 <= t3)
    }
  }

  function StillClock(now: int): Clock {
    Clock(now, now, now, now)
  }

  function Idle(c: Conn, now: int): int {
    now - c.lastPacket
  }

  function CompareActive(a: Conn, b: Conn, t: Clock): int {
    if Idle(a, t.t1) < Idle(b, t.t2) then -1 else if Idle(a, t.t3) > Idle(b, t.t4) then 1 else 0
  }

  function CompareIdle(a: Conn, b: Conn, t: Clock): int {
    if Idle(a, t.t1) < Idle(b, t.t2) then 1 else if Idle(a, t.t3) > Idle(b, t.t4) then -1 else 0
  }

  function CompareRate(a: Conn, b: Conn, t: Clock): int {
    if a.rate > b.rate then -1 else if a.rate < b.rate then 1 else CompareActive(a, b, t)
  }

  function CompareBytes(a: Conn, b: Conn, t: Clock): int {
    if a.traffic.bytes > b.traffic.bytes then -1 else if a.traffic.bytes < b.traffic.bytes then 1 else CompareActive(a, b, t)
  }

  function CompareAt(kind: SortKind, a: Conn, b: Conn, t: Clock): int {
    match kind
    case SortRate => CompareRate(a, b, t)
    case SortBytes => CompareBytes(a, b, t)
    case SortIdle => CompareIdle(a, b, t)
    case SortActive => CompareActive(a, b, t)
  }

  /** With one clock value for the whole sort. */
  function Compare(kind: SortKind, a: Conn, b: Conn, now: int): int {
    CompareAt(kind, a, b, StillClock(now))
  }

  /** With one clock value every comparator is a total preorder. */
  lemma ComparatorsAreTotalPreorders(kind: SortKind, a: Conn, b: Conn, c: Conn, now: int)
    ensures Compare(kind, a, b, now) == -Compare(kind, b, a, now)
    ensures Compare(kind, a, b, now) <= 0 && Compare(kind, b, c, now) <= 0 ==> Compare(kind, a, c, now) <= 0
    ensures Compare(kind, a, b, now) <= 0 && Compare(kind, b, c, now) < 0 ==> Compare(kind, a, c, now) < 0
    ensures Compare(SortIdle, a, b, now) == -Compare(SortActive, a, b, now)
  {
  }

  /** With a running clock a connection compares equal to itself exactly when no second passes within "less", if that
      evaluates its left operand first, nor within "greater", if that evaluates its right operand first. */
  lemma SelfComparisonIff(kind: SortKind, a: Conn, t: Clock, leftFirstInLess: bool, leftFirstInGreater: bool)
    requires t.Forward(leftFirstInLess, leftFirstInGreater)
    ensures CompareAt(kind, a, a, t) == 0 <==>
              (leftFirstInLess ==> t.t1 == t.t2) && (!leftFirstInGreater ==> t.t3 == t.t4)
  {
  }

  /** So a second that passes in the wrong place makes a connection come before or after itself, in every order of
      evaluation but right before left in "less" and left before right in "greater". */
  lemma SelfComparisonExample(kind: SortKind, a: Conn, leftFirstInLess: bool, leftFirstInGreater: bool) returns (t: Clock)
    requires leftFirstInLess || !leftFirstInGreater
    ensures t.Forward(leftFirstInLess, leftFirstInGreater) && CompareAt(kind, a, a, t) != 0
  {
    t := if leftFirstInLess then Clock(0, 1, 1, 1) else Clock(0, 0, 1, 0);
  }

  // ---------------------------------------------------------------- ordered permutations

  ghost predicate Ordered(s: seq<Conn>, kind: SortKind, now: int) {
    forall i, j :: 0 <= i < j < |s| ==> Compare(kind, s[i], s[j], now) <= 0
  }

  /** What the user is promised: the faster, the larger, the longer idle or the more recently active connection first; equal
      rates and totals by recent activity. */
  predicate MayPrecede(kind: SortKind, a: Conn, b: Conn) {
    match kind
    case SortRate => a.rate > b.rate || (a.rate == b.rate && a.lastPacket >= b.lastPacket)
    case SortBytes => a.traffic.bytes > b.traffic.bytes || (a.traffic.bytes == b.traffic.bytes && a.lastPacket >= b.lastPacket)
    case SortIdle => a.lastPacket <= b.lastPacket
    case SortActive => a.lastPacket >= b.lastPacket
  }

  /** The comparators order a list exactly so, whatever the time. */
  lemma OrderedMeans(s: seq<Conn>, kind: SortKind, now: int)
    ensures Ordered(s, kind, now) <==> forall i, j :: 0 <= i < j < |s| ==> MayPrecede(kind, s[i], s[j])
  {
    if Ordered(s, kind, now) {
      forall i, j | 0 <= i < j < |s| ensures MayPrecede(kind, s[i], s[j]) {
        assert Compare(kind, s[i], s[j], now) <= 0;
      }
    }
    if forall i, j :: 0 <= i < j < |s| ==> MayPrecede(kind, s[i], s[j]) {
      forall i, j | 0 <= i < j < |s| ensures Compare(kind, s[i], s[j], now) <= 0 {
        assert MayPrecede(kind, s[i], s[j]);
      }
    }
  }

  /** How many elements of s come strictly before x. */
  function Before(s: seq<Conn>, x: Conn, kind: SortKind, now: int): nat {
    if s == [] then 0
    else (if Compare(kind, s[0], x, now) < 0 then 1 else 0) + Before(s[1..], x, kind, now)
  }

  lemma {:induction false} BeforeConcat(s: seq<Conn>, t: seq<Conn>, x: Conn, kind: SortKind, now: int)
    ensures Before(s + t, x, kind, now) == Before(s, x, kind, now) + Before(t, x, kind, now)
  {
    if s == [] {
      assert s + t == t;
    } else {
      assert (s + t)[1..] == s[1..] + t;
      BeforeConcat(s[1..], t, x, kind, now);
    }
  }

  /** Taking one element out of the middle. */
  lemma BeforeWithout(t: seq<Conn>, i: nat, x: Conn, kind: SortKind, now: int)
    requires i < |t|
    ensures Before(t, x, kind, now) ==
            (if Compare(kind, t[i], x, now) < 0 then 1 else 0) + Before(t[..i] + t[i + 1..], x, kind, now)
    ensures multiset(t[..i] + t[i + 1..]) == multiset(t) - multiset{t[i]}
  {
    hide Compare;
    var front, mid, back := t[..i], [t[i]], t[i + 1..];
    assert t == front + (mid + back);
    BeforeConcat(front, mid + back, x, kind, now);
    BeforeConcat(mid, back, x, kind, now);
    BeforeConcat(front, back, x, kind, now);
  }

  lemma {:induction false} BeforeIsOfTheMultiset(s: seq<Conn>, t: seq<Conn>, x: Conn, kind: SortKind, now: int)
    requires multiset(s) == multiset(t)
    ensures Before(s, x, kind, now) == Before(t, x, kind, now)
  {
    hide Compare;
    assert |multiset(s)| == |s| && |multiset(t)| == |t|;
    if s != [] {
      assert s[0] in multiset(t);
      var i :| 0 <= i < |t| && t[i] == s[0];
      assert s[..0] + s[1..] == s[1..];
      BeforeWithout(s, 0, x, kind, now);
      BeforeWithout(t, i, x, kind, now);
      BeforeIsOfTheMultiset(s[1..], t[..i] + t[i + 1..], x, kind, now);
    }
  }

  lemma {:induction false} BeforeBounds(s: seq<Conn>, x: Conn, kind: SortKind, now: int)
    ensures Before(s, x, kind, now) <= |s|
    ensures (forall k :: 0 <= k < |s| ==> Compare(kind, s[k], x, now) < 0) ==> Before(s, x, kind, now) == |s|
    ensures (forall k :: 0 <= k < |s| ==> Compare(kind, s[k], x, now) >= 0) ==> Before(s, x, kind, now) == 0
  {
    if s != [] {
      assert forall k :: 0 <= k < |s[1..]| ==> s[1..][k] == s[k + 1];
      BeforeBounds(s[1..], x, kind, now);
    }
  }

  /** Everything up to an element that comes strictly before x does so too. */
  lemma FrontIsBefore(s: seq<Conn>, i: nat, x: Conn, kind: SortKind, now: int)
    requires i < |s| && Ordered(s, kind, now) && Compare(kind, s[i], x, now) < 0
    ensures Before(s, x, kind, now) >= i + 1
  {
    hide Compare;
    var front := s[..i + 1];
    forall k | 0 <= k < |front| ensures Compare(kind, front[k], x, now) < 0 {
      ComparatorsAreTotalPreorders(kind, front[k], s[i], x, now);
    }
    assert s == front + s[i + 1..];
    BeforeConcat(front, s[i + 1..], x, kind, now);
    BeforeBounds(front, x, kind, now);
  }

  /** At most the elements in front of x come strictly before it. */
  lemma BackIsNotBefore(t: seq<Conn>, i: nat, kind: SortKind, now: int)
    requires i < |t| && Ordered(t, kind, now)
    ensures Before(t, t[i], kind, now) <= i
  {
    hide Compare;
    var x, back := t[i], t[i..];
    forall k | 0 <= k < |back| ensures Compare(kind, back[k], x, now) >= 0 {
      ComparatorsAreTotalPreorders(kind, x, back[k], x, now);
    }
    assert t == t[..i] + back;
    BeforeConcat(t[..i], back, x, kind, now);
    BeforeBounds(t[..i], x, kind, now);
    BeforeBounds(back, x, kind, now);
  }

  lemma NotEarlier(s: seq<Conn>, t: seq<Conn>, i: nat, kind: SortKind, now: int)
    requires multiset(s) == multiset(t) && Ordered(s, kind, now) && Ordered(t, kind, now)
    requires i < |s| && i < |t|
    ensures Compare(kind, s[i], t[i], now) >= 0
  {
    hide Compare, Ordered;
    if Compare(kind, s[i], t[i], now) < 0 {
      FrontIsBefore(s, i, t[i], kind, now);
      BackIsNotBefore(t, i, kind, now);
      BeforeIsOfTheMultiset(s, t, t[i], kind, now);
    }
  }

  /** Whatever sorting algorithm is used, the display is the same up to ties: two ordered permutations of
      one snapshot agree, position by position, in the comparator. */
  lemma SortIsUniqueUpToTies(s: seq<Conn>, t: seq<Conn>, i: nat, kind: SortKind, now: int)
    requires multiset(s) == multiset(t) && Ordered(s, kind, now) && Ordered(t, kind, now)
    requires i < |s|
    ensures |s| == |t| && Compare(kind, s[i], t[i], now) == 0
  {
    assert |multiset(s)| == |s| && |multiset(t)| == |t|;
    NotEarlier(s, t, i, kind, now);
    NotEarlier(t, s, i, kind, now);
    ComparatorsAreTotalPreorders(kind, s[i], t[i], s[i], now);
  }

  function Reversed(s: seq<Conn>): (r: seq<Conn>)
    ensures |r| == |s| && forall i :: 0 <= i < |s| ==> r[i] == s[|s| - 1 - i]
  {
    if s == [] then [] else Reversed(s[1..]) + [s[0]]
  }

  /** Sorting by idle time is sorting by activity read backwards. */
  lemma IdleIsActiveBackwards(s: seq<Conn>, now: int)
    ensures Ordered(s, SortActive, now) <==> Ordered(Reversed(s), SortIdle, now)
  {
    var r := Reversed(s);
    if Ordered(s, SortActive, now) {
      forall i, j | 0 <= i < j < |r| ensures Compare(SortIdle, r[i], r[j], now) <= 0 {
        assert Compare(SortActive, s[|s| - 1 - j], s[|s| - 1 - i], now) <= 0;
      }
    }
    if Ordered(r, SortIdle, now) {
      forall i, j | 0 <= i < j < |s| ensures Compare(SortActive, s[i], s[j], now) <= 0 {
        assert s[i] == r[|s| - 1 - i] && s[j] == r[|s| - 1 - j];
      }
    }
  }

  function InsertOrdered(s: seq<Conn>, x: Conn, kind: SortKind, now: int): seq<Conn> {
    if s == [] then [x]
    else if Compare(kind, x, s[0], now) <= 0 then [x] + s
    else [s[0]] + InsertOrdered(s[1..], x, kind, now)
  }

  lemma {:induction false} InsertOrderedPermutes(s: seq<Conn>, x: Conn, kind: SortKind, now: int)
    ensures multiset(InsertOrdered(s, x, kind, now)) == multiset(s) + multiset{x}
  {
    hide Compare;
    if s != [] {
      assert s == [s[0]] + s[1..];
      InsertOrderedPermutes(s[1..], x, kind, now);
    }
  }

  ghost predicate NotAfter(x: Conn, s: seq<Conn>, kind: SortKind, now: int) {
    forall k :: 0 <= k < |s| ==> Compare(kind, x, s[k], now) <= 0
  }

  lemma OrderedCons(x: Conn, s: seq<Conn>, kind: SortKind, now: int)
    ensures Ordered([x] + s, kind, now) <==> Ordered(s, kind, now) && NotAfter(x, s, kind, now)
  {
    hide Compare;
    var longer := [x] + s;
    assert forall i :: 0 <= i < |s| ==> longer[i + 1] == s[i];
    assert forall i :: 0 < i < |longer| ==> longer[i] == s[i - 1];
    if Ordered(longer, kind, now) {
      forall i, j | 0 <= i < j < |s| ensures Compare(kind, s[i], s[j], now) <= 0 {
        assert Compare(kind, longer[i + 1], longer[j + 1], now) <= 0;
      }
      forall k | 0 <= k < |s| ensures Compare(kind, x, s[k], now) <= 0 {
        assert Compare(kind, longer[0], longer[k + 1], now) <= 0;
      }
    }
  }

  lemma {:induction false} NotAfterInsert(y: Conn, s: seq<Conn>, x: Conn, kind: SortKind, now: int)
    requires NotAfter(y, s, kind, now) && Compare(kind, y, x, now) <= 0
    ensures NotAfter(y, InsertOrdered(s, x, kind, now), kind, now)
  {
    hide Compare;
    if s != [] {
      assert forall i :: 0 <= i < |s[1..]| ==> s[1..][i] == s[i + 1];
      NotAfterInsert(y, s[1..], x, kind, now);
    }
  }

  lemma {:induction false} InsertOrderedSorts(s: seq<Conn>, x: Conn, kind: SortKind, now: int)
    requires Ordered(s, kind, now)
    ensures Ordered(InsertOrdered(s, x, kind, now), kind, now)
  {
    hide Compare, Ordered;
    if s == [] {
      OrderedCons(x, [], kind, now);
      assert Ordered([], kind, now) by { OrderedEmpty(kind, now); }
      assert [x] + [] == [x];
    } else {
      assert s == [s[0]] + s[1..];
      OrderedCons(s[0], s[1..], kind, now);
      ComparatorsAreTotalPreorders(kind, x, s[0], x, now);
      if Compare(kind, x, s[0], now) <= 0 {
        forall k | 0 <= k < |s| ensures Compare(kind, x, s[k], now) <= 0 {
          if k > 0 {
            assert s[k] == s[1..][k - 1];
            ComparatorsAreTotalPreorders(kind, x, s[0], s[k], now);
          }
        }
        OrderedCons(x, s, kind, now);
      } else {
        InsertOrderedSorts(s[1..], x, kind, now);
        NotAfterInsert(s[0], s[1..], x, kind, now);
        OrderedCons(s[0], InsertOrdered(s[1..], x, kind, now), kind, now);
      }
    }
  }

  lemma OrderedEmpty(kind: SortKind, now: int)
    ensures Ordered([], kind, now)
  {
  }

  // ---------------------------------------------------------------- the iterator

  /** The loop over the table, in whatever order it yields its entries. */
  method TakeAll(table: Table) returns (ghost order: seq<Key>, snapshot: seq<Conn>)
    ensures |snapshot| == |table| && SnapshotOf(table, order, snapshot)
  {
    var rest := table.Keys;
    snapshot, order := [], [];
    while rest != {}
      invariant rest <= table.Keys
      invariant |order| == |snapshot| && |order| + |rest| == |table|
      invariant forall i :: 0 <= i < |order| ==> order[i] in table && snapshot[i] == table[order[i]]
      invariant forall i, j :: 0 <= i < j < |order| ==> order[i] != order[j]
      invariant forall k :: k in table ==> (k in order <==> k !in rest)
      decreases rest
    {
      var k :| k in rest;
      assert k !in order;
      snapshot := snapshot + [table[k]];
      order := order + [k];
      rest := rest - {k};
    }
  }

  class SortedIterator {
    const cons: array<Conn>
    var cur: nat

    /** A snapshot of the connections in whatever order the table yields them. */
    constructor (table: Table)
      ensures fresh(cons) && cur == 0 && cons.Length == |table|
      ensures exists order: seq<Key> :: SnapshotOf(table, order, cons[..])
    {
      var snapshot;
      ghost var order;
      order, snapshot := TakeAll(table);
      cons := new Conn[|snapshot|](i requires 0 <= i < |snapshot| => snapshot[i]);
      cur := 0;
      new;
      assert cons[..] == snapshot;
      assert SnapshotOf(table, order, cons[..]);
    }

    /** Stands in for the library's qsort: any result of it is an ordered permutation. */
    method Sort(kind: SortKind, now: int)
      modifies cons
      ensures multiset(cons[..]) == multiset(old(cons[..]))
      ensures Ordered(cons[..], kind, now)
      ensures forall i, j :: 0 <= i < j < cons.Length ==> MayPrecede(kind, cons[i], cons[j])
    {
      ghost var before := cons[..];
      var sorted: seq<Conn> := [];
      var i := 0;
      while i < cons.Length
        invariant 0 <= i <= cons.Length && |sorted| == i
        invariant cons[..] == before
        invariant multiset(sorted) == multiset(before[..i]) && Ordered(sorted, kind, now)
      {
        InsertOrderedSorts(sorted, cons[i], kind, now);
        InsertOrderedPermutes(sorted, cons[i], kind, now);
        assert before[..i + 1] == before[..i] + [cons[i]];
        sorted := InsertOrdered(sorted, cons[i], kind, now);
        assert |multiset(sorted)| == |sorted|;
        i := i + 1;
      }
      assert before[..i] == before;
      forall k | 0 <= k < cons.Length {
        cons[k] := sorted[k];
      }
      assert cons[..] == sorted;
      OrderedMeans(sorted, kind, now);
      assert forall k :: 0 <= k < cons.Length ==> cons[k] == sorted[k];
    }

    method GetNext() returns (c: Option<Conn>)
      modifies this
      ensures old(cur) < cons.Length ==> c == Some(cons[old(cur)]) && cur == old(cur) + 1
      ensures old(cur) >= cons.Length ==> c == None && cur == old(cur)
    {
      if cur >= cons.Length {
        return None;
      }
      c := Some(cons[cur]);
      cur := cur + 1;
    }

    method Rewind()
      modifies this
      ensures cur == 0
    {
      cur := 0;
    }

    /** Rewinding and taking connections until there are no more visits each exactly once, in order. */
    method VisitAll() returns (seen: seq<Conn>)
      modifies this
      ensures seen == cons[..]
    {
      Rewind();
      seen := [];
      var c := GetNext();
      while c.Some?
        invariant 0 <= |seen| <= cons.Length && seen == cons[..|seen|]
        invariant if c.Some? then |seen| < cons.Length && cur == |seen| + 1 && c.value == cons[|seen|]
                  else |seen| == cons.Length
        decreases cons.Length - |seen|
      {
        seen := seen + [c.value];
        c := GetNext();
      }
    }
  }

  /** Every connection of the table once. */
  ghost predicate SnapshotOf(table: Table, order: seq<Key>, snapshot: seq<Conn>) {
    && |order| == |snapshot|
    && (forall i :: 0 <= i < |order| ==> order[i] in table && snapshot[i] == table[order[i]])
    && (forall i, j :: 0 <= i < j < |order| ==> order[i] != order[j])
    && (forall k :: k in table <==> k in order)
  }
}
